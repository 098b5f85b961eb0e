/** The search for the highest passing block of a live chain, and what it may be trusted with. */
module FrontierSearch {
  import opened Numbers
  import opened Outcomes

  /** The largest step of the gallop. */
  const CAP := 4096

  /**
   Whether the `time`th request, made for block `number`, passes. Nothing ties the answers together:
   the chain may grow, and anything else may happen, between one request and the next.
   */
  type Answers = (nat, nat) -> bool

  function Pow2(k: nat): (p: nat)
    ensures p >= 1
  {
    if k == 0 then 1 else 2 * Pow2(k - 1)
  }

  function Log2(n: nat): nat
    requires n >= 1
  {
    if n == 1 then 0 else 1 + Log2(n / 2)
  }

  /** `n` halved, rounding down, `k` times. */
  function Halved(n: nat, k: nat): nat {
    if k == 0 then n else Halved(n, k - 1) / 2
  }

  /** The step the gallop takes after `k` successful ones. */
  function StepAfter(k: nat): (step: nat)
    ensures 1 <= step <= CAP
  {
    if k == 0 then 1 else Min(2 * StepAfter(k - 1), CAP)
  }

  /** How far `k` successful steps lead. */
  function Reach(k: nat): nat {
    if k == 0 then 0 else Reach(k - 1) + StepAfter(k - 1)
  }

  lemma {:induction false} StepIsPowerOfTwo(k: nat)
    ensures StepAfter(k) == Pow2(Min(k, 12))
  {
    assert Pow2(12) == CAP;
    if k > 0 {
      StepIsPowerOfTwo(k - 1);
    }
  }

  lemma {:induction false} ReachClosed(k: nat)
    ensures Reach(k) == if k <= 12 then Pow2(k) - 1 else CAP - 1 + CAP * (k - 12)
  {
    if k > 0 {
      ReachClosed(k - 1);
      StepIsPowerOfTwo(k - 1);
      assert Pow2(12) == CAP;
    }
  }

  lemma {:induction false} HalvingEnds(n: nat, k: nat)
    requires n >= 1
    ensures k <= Log2(n) ==> Halved(n, k) >= 1 && Log2(Halved(n, k)) == Log2(n) - k
    ensures k <= Log2(n) ==> (Halved(n, k) <= 1 <==> k == Log2(n))
  {
    if 0 < k <= Log2(n) {
      HalvingEnds(n, k - 1);
    }
  }

  /** Some request for `number` among these was answered this way. */
  ghost predicate Answered(answers: Answers, start: nat, trace: seq<nat>, number: nat, passed: bool) {
    exists i :: 0 <= i < |trace| && trace[i] == number && answers(start + i, number) == passed
  }

  lemma AnsweredMore(answers: Answers, start: nat, trace: seq<nat>, next: nat, number: nat, passed: bool)
    requires Answered(answers, start, trace, number, passed)
             || (next == number && answers(start + |trace|, number) == passed)
    ensures Answered(answers, start, trace + [next], number, passed)
  {
    var more := trace + [next];
    if next == number && answers(start + |trace|, number) == passed {
      assert more[|trace|] == number;
    } else {
      var i :| 0 <= i < |trace| && trace[i] == number && answers(start + i, number) == passed;
      assert more[i] == number;
    }
  }

  /** As long as steps keep landing at or below `bound`, there have not been many. */
  lemma GallopsAreFew(k: nat, from: nat, bound: nat)
    requires from + Reach(k) <= bound
    ensures k <= 12 + bound / CAP
  {
    ReachClosed(k);
  }

  /** The requests of the downward phase: the hint halved again and again, every one but the last refused. */
  ghost predicate Halving(answers: Answers, start: nat, hint: nat, trace: seq<nat>, halvings: nat) {
    && halvings < |trace|
    && (forall i :: 0 <= i <= halvings ==> trace[i] == Halved(Max(hint, 1), i))
    && (forall i :: 0 <= i < halvings ==> !answers(start + i, trace[i]))
  }

  lemma StartHalving(answers: Answers, start: nat, hint: nat)
    ensures Halving(answers, start, hint, [Max(hint, 1)], 0)
  {
  }

  lemma HalvingMore(answers: Answers, start: nat, hint: nat, trace: seq<nat>, halvings: nat, next: nat)
    requires |trace| == halvings + 1 && Halving(answers, start, hint, trace, halvings)
    requires !answers(start + halvings, trace[halvings]) && next == trace[halvings] / 2
    ensures Halving(answers, start, hint, trace + [next], halvings + 1)
  {
    hide Halved, Max;
    var more := trace + [next];
    assert Halved(Max(hint, 1), halvings + 1) == next by {
      HalvedOnce(Max(hint, 1), halvings);
    }
    assert forall i :: 0 <= i <= halvings ==> more[i] == trace[i];
  }

  lemma HalvedOnce(n: nat, k: nat)
    ensures Halved(n, k + 1) == Halved(n, k) / 2
  {
  }

  /** The requests of the upward phase, from the `at`th on: step after step from `first`, the last one refused. */
  ghost predicate Galloping(answers: Answers, start: nat, trace: seq<nat>, at: nat, first: nat, gallops: nat) {
    && at + gallops < |trace|
    && (forall i :: at <= i <= at + gallops ==> trace[i] == first + Reach(i - at + 1))
    && (forall i :: at <= i <= at + gallops ==> answers(start + i, trace[i]) == (i < at + gallops))
  }

  ghost predicate AskedUpTo(trace: seq<nat>, limit: nat) {
    forall i :: 0 <= i < |trace| ==> 1 <= trace[i] <= limit
  }

  /** No block above `bound` passes during this many requests. */
  ghost predicate BoundedFor(answers: Answers, start: nat, requests: nat, bound: nat) {
    forall time, n: nat :: start <= time < start + requests && n > bound ==> !answers(time, n)
  }

  /** Halve down from the hint until a block passes, or block 1 does not. */
  method HalveDown(answers: Answers, start: nat, hint: nat) returns (lo: nat, found: bool, trace: seq<nat>)
    ensures |trace| >= 1 && 1 <= lo == trace[|trace| - 1] && |trace| - 1 <= Log2(Max(hint, 1))
    ensures Halving(answers, start, hint, trace, |trace| - 1)
    ensures answers(start + |trace| - 1, lo) == found
    ensures !found ==> lo == 1
    ensures AskedUpTo(trace, Max(hint, 1))
  {
    hide Halving, Log2;
    lo := Max(hint, 1);
    trace := [lo];
    StartHalving(answers, start, hint);
    if answers(start, lo) {
      return lo, true, trace;
    }
    while true
      invariant |trace| >= 1 && lo == trace[|trace| - 1] && |trace| - 1 <= Log2(Max(hint, 1))
      invariant Halving(answers, start, hint, trace, |trace| - 1)
      invariant !answers(start + |trace| - 1, lo)
      invariant AskedUpTo(trace, Max(hint, 1))
      decreases lo
    {
      HalvingReaches(answers, start, hint, trace, |trace| - 1);
      if lo <= 1 {
        return lo, false, trace;
      }
      HalvingMore(answers, start, hint, trace, |trace| - 1, lo / 2);
      lo := lo / 2;
      trace := trace + [lo];
      if answers(start + |trace| - 1, lo) {
        return lo, true, trace;
      }
    }
  }

  lemma HalvingReaches(answers: Answers, start: nat, hint: nat, trace: seq<nat>, halvings: nat)
    requires Halving(answers, start, hint, trace, halvings) && halvings <= Log2(Max(hint, 1))
    ensures trace[halvings] >= 1
    ensures trace[halvings] <= 1 <==> halvings == Log2(Max(hint, 1))
  {
    HalvingEnds(Max(hint, 1), halvings);
  }

  /** Gallop up from a block that passed, doubling the step up to the cap, until a step fails. */
  method Gallop(answers: Answers, start: nat, first: nat, ghost bound: nat)
    returns (lo: nat, step: nat, trace: seq<nat>, ghost gallops: nat)
    requires 1 <= first <= bound && BoundedFor(answers, start, 13 + bound / CAP, bound)
    ensures lo == first + Reach(gallops) <= bound && step == StepAfter(gallops) && |trace| == gallops + 1
    ensures lo == first || Answered(answers, start, trace, lo, true)
    ensures Answered(answers, start, trace, lo + step, false)
    ensures Galloping(answers, start, trace, 0, first, gallops) && AskedUpTo(trace, bound + CAP)
  {
    hide Answered, Stepped, Galloping, Reach, StepAfter, BoundedFor;
    NextStep(0);
    lo, step, trace, gallops := first, 1, [], 0;
    NoSteps(answers, start, first);
    while answers(start + |trace|, lo + step)
      invariant |trace| == gallops
      invariant lo == first + Reach(gallops) <= bound && step == StepAfter(gallops)
      invariant lo == first || Answered(answers, start, trace, lo, true)
      invariant Stepped(answers, start, trace, first)
      invariant AskedUpTo(trace, bound + CAP)
      decreases bound - lo
    {
      GallopsAreFew(gallops, first, bound);
      PassedIsBounded(answers, start, 13 + bound / CAP, bound, start + |trace|, lo + step);
      NextStep(gallops);
      AnsweredMore(answers, start, trace, lo + step, lo + step, true);
      SteppedMore(answers, start, trace, first);
      trace := trace + [lo + step];
      lo := lo + step;
      step := Min(step * 2, CAP);
      gallops := gallops + 1;
    }
    if lo != first {
      AnsweredMore(answers, start, trace, lo + step, lo, true);
    }
    AnsweredMore(answers, start, trace, lo + step, lo + step, false);
    LastStep(answers, start, trace, first);
    trace := trace + [lo + step];
  }

  lemma NextStep(k: nat)
    ensures Reach(k + 1) == Reach(k) + StepAfter(k) && StepAfter(k + 1) == Min(StepAfter(k) * 2, CAP)
    ensures Reach(0) == 0 && StepAfter(0) == 1
  {
  }

  /** Step after step from `first`, all of them successful. */
  ghost predicate Stepped(answers: Answers, start: nat, trace: seq<nat>, first: nat) {
    forall i :: 0 <= i < |trace| ==> trace[i] == first + Reach(i + 1) && answers(start + i, trace[i])
  }

  lemma NoSteps(answers: Answers, start: nat, first: nat)
    ensures Stepped(answers, start, [], first)
  {
  }

  lemma SteppedMore(answers: Answers, start: nat, trace: seq<nat>, first: nat)
    requires Stepped(answers, start, trace, first)
    requires answers(start + |trace|, first + Reach(|trace|) + StepAfter(|trace|))
    ensures Stepped(answers, start, trace + [first + Reach(|trace|) + StepAfter(|trace|)], first)
  {
    hide Reach, StepAfter;
    NextStep(|trace|);
  }

  lemma LastStep(answers: Answers, start: nat, trace: seq<nat>, first: nat)
    requires Stepped(answers, start, trace, first)
    requires !answers(start + |trace|, first + Reach(|trace|) + StepAfter(|trace|))
    ensures Galloping(answers, start, trace + [first + Reach(|trace|) + StepAfter(|trace|)], 0, first, |trace|)
  {
    hide Reach, StepAfter;
    NextStep(|trace|);
    var more := trace + [first + Reach(|trace|) + StepAfter(|trace|)];
    forall i | 0 <= i <= |trace|
      ensures more[i] == first + Reach(i - 0 + 1) && answers(start + i, more[i]) == (i < 0 + |trace|)
    {
      if i < |trace| {
        assert more[i] == trace[i];
      }
    }
  }

  /** Bisect between a block that passed and one that did not, a power of two apart. */
  method Bisect(answers: Answers, start: nat, from: nat, to: nat, ghost k: nat) returns (lo: nat, trace: seq<nat>)
    requires from >= 1 && to == from + Pow2(k)
    ensures from <= lo < to && |trace| == k
    ensures lo == from || Answered(answers, start, trace, lo, true)
    ensures lo + 1 == to || Answered(answers, start, trace, lo + 1, false)
    ensures AskedUpTo(trace, to)
  {
    hide Answered;
    var hi := to;
    lo, trace := from, [];
    ghost var left := k;
    while hi - lo > 1
      invariant from <= lo < hi <= to && hi - lo == Pow2(left) && |trace| + left == k
      invariant lo == from || Answered(answers, start, trace, lo, true)
      invariant hi == to || Answered(answers, start, trace, hi, false)
      invariant AskedUpTo(trace, to)
    {
      var mid := lo + (hi - lo) / 2;
      if lo != from {
        AnsweredMore(answers, start, trace, mid, lo, true);
      }
      if hi != to {
        AnsweredMore(answers, start, trace, mid, hi, false);
      }
      AnsweredMore(answers, start, trace, mid, mid, answers(start + |trace|, mid));
      trace := trace + [mid];
      if answers(start + |trace| - 1, mid) {
        lo := mid;
      } else {
        hi := mid;
      }
      left := left - 1;
    }
  }

  lemma AnsweredWithin(answers: Answers, start: nat, before: seq<nat>, trace: seq<nat>, after: seq<nat>, number: nat,
                       passed: bool)
    requires Answered(answers, start + |before|, trace, number, passed)
    ensures Answered(answers, start, before + trace + after, number, passed)
  {
    var i :| 0 <= i < |trace| && trace[i] == number && answers(start + |before| + i, number) == passed;
    assert (before + trace + after)[|before| + i] == number;
  }

  lemma AnsweredInPhase(answers: Answers, start: nat, down: seq<nat>, up: seq<nat>, across: seq<nat>, number: nat,
                        passed: bool)
    requires || (down != [] && down[|down| - 1] == number && answers(start + |down| - 1, number) == passed)
             || Answered(answers, start + |down|, up, number, passed)
             || Answered(answers, start + |down| + |up|, across, number, passed)
    ensures Answered(answers, start, down + up + across, number, passed)
  {
    assert start + |down| + |up| == start + |down + up| && down + up + across + [] == down + up + across;
    if down != [] && down[|down| - 1] == number && answers(start + |down| - 1, number) == passed {
      assert (down + up + across)[|down| - 1] == number;
    } else {
      hide Answered;
      if Answered(answers, start + |down|, up, number, passed) {
        AnsweredWithin(answers, start, down, up, across, number, passed);
      } else {
        AnsweredWithin(answers, start, down + up, across, [], number, passed);
      }
    }
  }

  lemma HalvingWithin(answers: Answers, start: nat, hint: nat, trace: seq<nat>, halvings: nat, after: seq<nat>)
    requires Halving(answers, start, hint, trace, halvings)
    ensures Halving(answers, start, hint, trace + after, halvings)
  {
    assert forall i :: 0 <= i <= halvings ==> (trace + after)[i] == trace[i];
  }

  lemma GallopingWithin(answers: Answers, start: nat, before: seq<nat>, trace: seq<nat>, after: seq<nat>, first: nat,
                        gallops: nat)
    requires Galloping(answers, start + |before|, trace, 0, first, gallops)
    ensures Galloping(answers, start, before + trace + after, |before|, first, gallops)
  {
    hide Reach;
    var whole := before + trace + after;
    forall i | |before| <= i <= |before| + gallops
      ensures whole[i] == first + Reach(i - |before| + 1)
      ensures answers(start + i, whole[i]) == (i < |before| + gallops)
    {
      assert whole[i] == trace[i - |before|] && start + |before| + (i - |before|) == start + i;
    }
  }

  /**
   What a search says and what it asked: the hint halved so often, a passing block, so many steps up
   from it, and one request for every bit of the last step. A result passed when it was asked for, and
   the block above it failed when that was asked for.
   */
  ghost predicate Searched(answers: Answers, start: nat, hint: nat, r: Option<nat>, trace: seq<nat>, halvings: nat,
                           gallops: nat) {
    && Halving(answers, start, hint, trace, halvings) && halvings <= Log2(Max(hint, 1))
    && (r.None? ==> |trace| == halvings + 1 && trace[halvings] == 1 && !answers(start + halvings, 1))
    && (r.Some? ==>
          && answers(start + halvings, trace[halvings])
          && |trace| == halvings + gallops + 2 + Min(gallops, 12)
          && 1 <= trace[halvings] && trace[halvings] + Reach(gallops) <= r.value < trace[halvings] + Reach(gallops + 1)
          && Galloping(answers, start, trace, halvings + 1, trace[halvings], gallops)
          && Answered(answers, start, trace, r.value, true) && Answered(answers, start, trace, r.value + 1, false))
  }

  lemma PassedIsBounded(answers: Answers, start: nat, requests: nat, bound: nat, time: nat, number: nat)
    requires BoundedFor(answers, start, requests, bound) && start <= time < start + requests && answers(time, number)
    ensures number <= bound
  {
  }

  lemma BoundedLater(answers: Answers, start: nat, requests: nat, bound: nat, later: nat, fewer: nat)
    requires BoundedFor(answers, start, requests, bound) && start <= later && later + fewer <= start + requests
    ensures BoundedFor(answers, later, fewer, bound)
  {
  }

  lemma AskedFewer(trace: seq<nat>, m: nat, limit: nat)
    requires AskedUpTo(trace, m) && m <= limit
    ensures AskedUpTo(trace, limit)
  {
  }

  lemma AskedTogether(a: seq<nat>, b: seq<nat>, c: seq<nat>, limit: nat, m: nat, n: nat, o: nat)
    requires AskedUpTo(a, m) && AskedUpTo(b, n) && AskedUpTo(c, o) && m <= limit && n <= limit && o <= limit
    ensures AskedUpTo(a + b + c, limit)
  {
  }

  /**
   The highest passing block, by halving down from the hint, galloping up in doubling steps, and
   bisecting the last step. Returned beside it is what was asked for, request by request: so many
   halvings of the hint, so many steps up.
   */
  method FindLast(answers: Answers, start: nat, hint: nat, ghost bound: nat)
    returns (r: Option<nat>, trace: seq<nat>, ghost halvings: nat, ghost gallops: nat)
    requires BoundedFor(answers, start, Log2(Max(hint, 1)) + 14 + bound / CAP, bound)
    ensures Searched(answers, start, hint, r, trace, halvings, gallops)
    ensures AskedUpTo(trace, Max(hint, bound + CAP))
    ensures r.Some? ==> trace[halvings] + Reach(gallops) <= bound
  {
    hide Halving, Galloping, Answered, BoundedFor, Log2, Pow2, AskedUpTo;
    gallops := 0;
    var first, found, down := HalveDown(answers, start, hint);
    halvings := |down| - 1;
    if !found {
      AskedFewer(down, Max(hint, 1), Max(hint, bound + CAP));
      return None, down, halvings, gallops;
    }
    ghost var patience := Log2(Max(hint, 1)) + 14 + bound / CAP;
    PassedIsBounded(answers, start, patience, bound, start + halvings, first);
    BoundedLater(answers, start, patience, bound, start + |down|, 13 + bound / CAP);
    var lo, step, up;
    lo, step, up, gallops := Gallop(answers, start + |down|, first, bound);
    StepIsPowerOfTwo(gallops);
    var last, across := Bisect(answers, start + |down| + |up|, lo, lo + step, Min(gallops, 12));
    trace := down + up + across;
    r := Some(last);
    assert trace == down + (up + across) && down + up + across + [] == trace;
    HalvingWithin(answers, start, hint, down, halvings, up + across);
    GallopingWithin(answers, start, down, up, across, first, gallops);
    AskedTogether(down, up, across, Max(hint, bound + CAP), Max(hint, 1), bound + CAP, lo + step);
    AnsweredInPhase(answers, start, down, up, across, last, true);
    AnsweredInPhase(answers, start, down, up, across, last + 1, false);
  }

  // ---- When a search ends ----

  /** At every request no block passes but what the chain could hold if it grew by `rate` a request. */
  ghost predicate GrowsBy(answers: Answers, start: nat, first: nat, rate: nat) {
    forall time, n: nat :: time >= start && n > first + rate * (time - start) ==> !answers(time, n)
  }

  /** A chain that grows by less than the cap from one request to the next is outrun. */
  lemma SlowChainIsBounded(answers: Answers, start: nat, hint: nat, first: nat, rate: nat) returns (bound: nat)
    requires GrowsBy(answers, start, first, rate) && rate < CAP
    ensures bound == CAP * (first + rate * (Log2(Max(hint, 1)) + 14))
    ensures BoundedFor(answers, start, Log2(Max(hint, 1)) + 14 + bound / CAP, bound)
  {
    var patience := Log2(Max(hint, 1)) + 14;
    var outrun := first + rate * patience;
    bound := CAP * outrun;
    assert bound / CAP == outrun;
    forall time, n: nat | start <= time < start + (patience + outrun) && n > bound
      ensures !answers(time, n)
    {
      ChainIsOutrun(first, rate, patience, time - start);
    }
  }

  lemma ChainIsOutrun(first: nat, rate: nat, patience: nat, passed: nat)
    requires rate < CAP && passed < patience + (first + rate * patience)
    ensures first + rate * passed <= CAP * (first + rate * patience)
  {
    var outrun := first + rate * patience;
    if passed <= patience {
      MoreTimes(rate, passed, patience);
    } else {
      MoreTimes(rate, passed, patience + outrun);
      assert rate * (patience + outrun) == rate * patience + rate * outrun;
      assert first + rate * (patience + outrun) == outrun + rate * outrun == (1 + rate) * outrun;
      MoreTimes(outrun, 1 + rate, CAP);
    }
  }

  lemma MoreTimes(n: nat, a: nat, b: nat)
    requires a <= b
    ensures n * a <= n * b
  {
    assert n * b == n * a + n * (b - a);
  }

  /**
   One that grows by the cap is not. If a search from block 1 has a result, on a chain that holds block 1
   at first and gains at least `rate` blocks from each request to the next, `rate` is less than the cap.
   */
  lemma FastChainIsNeverOutrun(answers: Answers, start: nat, rate: nat, r: Option<nat>, trace: seq<nat>, halvings: nat,
                               gallops: nat)
    requires forall time, n: nat :: time >= start && n <= 1 + rate * (time - start) ==> answers(time, n)
    requires Searched(answers, start, 1, r, trace, halvings, gallops)
    ensures rate < CAP
  {
    hide Reach, Answered, Log2;
    assert trace[0] == 1 && answers(start + 0, 1);
    var last := 1 + gallops;
    assert halvings == 0 && trace[last] == 1 + Reach(last) && !answers(start + last, trace[last]);
    ReachIsSlow(last);
    assert trace[last] > 1 + rate * last by {
      assert start + last - start == last;
    }
    if rate >= CAP {
      MoreTimes(last, CAP, rate);
    }
  }

  // ---- What a result means ----

  /** During the requests of a call, exactly the blocks up to the frontier pass, and it never recedes. */
  ghost predicate Follows(answers: Answers, frontier: nat -> nat, start: nat, requests: nat) {
    && (forall time, n: nat :: start <= time < start + requests && n >= 1 ==>
          (answers(time, n) <==> n <= frontier(time)))
    && (forall s: nat, t: nat :: start <= s <= t < start + requests ==> frontier(s) <= frontier(t))
  }

  /**
   Against a frontier that may advance between any two requests, a result lies between where the
   frontier stood at the first request and where it stood at the last; and no result means that no
   block passed as late as the last request.
   */
  lemma LiveSearch(answers: Answers, frontier: nat -> nat, start: nat, hint: nat, r: Option<nat>,
                   trace: seq<nat>, halvings: nat, gallops: nat)
    requires Searched(answers, start, hint, r, trace, halvings, gallops)
    requires Follows(answers, frontier, start, |trace|)
    ensures r.Some? ==> frontier(start) <= r.value <= frontier(start + |trace| - 1)
    ensures r.None? <==> frontier(start + |trace| - 1) == 0
  {
    hide Halving, Galloping, Log2, Reach;
    if r.Some? {
      var i :| 0 <= i < |trace| && trace[i] == r.value && answers(start + i, r.value);
      var j :| 0 <= j < |trace| && trace[j] == r.value + 1 && !answers(start + j, r.value + 1);
      assert frontier(start + i) <= frontier(start + |trace| - 1) && frontier(start) <= frontier(start + j);
    } else {
      assert frontier(start + halvings) == 0;
    }
  }

  /** With the chain at rest at this height. */
  ghost predicate AtRest(answers: Answers, height: nat) {
    forall time, n: nat :: n >= 1 ==> (answers(time, n) <==> n <= height)
  }

  /** With the chain at rest the search is exact: it finds the frontier if and only if there is one. */
  lemma StaticSearch(answers: Answers, height: nat, start: nat, hint: nat, r: Option<nat>,
                     trace: seq<nat>, halvings: nat, gallops: nat)
    requires Searched(answers, start, hint, r, trace, halvings, gallops)
    requires AtRest(answers, height)
    ensures r == if height >= 1 then Some(height) else None
  {
    hide Searched;
    var frontier := (time: nat) => height;
    assert forall s: nat, t: nat :: frontier(s) <= frontier(t);
    LiveSearch(answers, frontier, start, hint, r, trace, halvings, gallops);
  }

  /** Whatever fixed property is searched for, a result has it and the block above it has not. */
  lemma EdgeSearch(answers: Answers, passes: nat -> bool, start: nat, hint: nat, r: Option<nat>,
                   trace: seq<nat>, halvings: nat, gallops: nat)
    requires Searched(answers, start, hint, r, trace, halvings, gallops)
    requires forall time, n: nat :: answers(time, n) == passes(n)
    ensures r.Some? ==> r.value >= 1 && passes(r.value) && !passes(r.value + 1)
    ensures r.None? <==> forall k :: 0 <= k <= Log2(Max(hint, 1)) ==> !passes(Halved(Max(hint, 1), k))
  {
    hide Reach, Galloping;
    HalvingEnds(Max(hint, 1), halvings);
    forall k | 0 <= k <= halvings
      ensures k < halvings || r.None? ==> !passes(Halved(Max(hint, 1), k))
      ensures k == halvings && r.Some? ==> passes(Halved(Max(hint, 1), k))
    {
      assert trace[k] == Halved(Max(hint, 1), k);
    }
  }

  lemma TraceIsNotEmpty(answers: Answers, start: nat, hint: nat, r: Option<nat>, trace: seq<nat>, halvings: nat,
                        gallops: nat)
    requires Searched(answers, start, hint, r, trace, halvings, gallops)
    ensures |trace| > 0
  {
    hide Galloping, Answered, Reach;
  }

  /** A height that rises by at most one per instant takes every value between two of its values. */
  lemma {:induction false} PassesThrough(height: nat -> nat, from: nat, span: nat, value: nat) returns (at: nat)
    requires height(from) <= value <= height(from + span)
    requires forall t: nat :: height(t + 1) <= height(t) + 1
    ensures from <= at <= from + span && height(at) == value
    decreases span
  {
    if height(from) == value {
      at := from;
    } else {
      assert height(from + 1) <= height(from) + 1;
      at := PassesThrough(height, from + 1, span - 1, value);
    }
  }

  /** Requests are made at certain moments, and pass up to the height the chain has at that moment. */
  ghost predicate Samples(frontier: nat -> nat, height: nat -> nat, moment: nat -> nat) {
    forall time: nat :: frontier(time) == height(moment(time))
  }

  /**
   If blocks arrive one at a time, however many arrive between two requests, the result was exactly
   the height of the chain at some moment between the first request and the last.
   */
  lemma MomentOfTruth(answers: Answers, frontier: nat -> nat, height: nat -> nat, moment: nat -> nat, start: nat,
                      hint: nat, r: Option<nat>, trace: seq<nat>, halvings: nat, gallops: nat) returns (at: nat)
    requires Searched(answers, start, hint, r, trace, halvings, gallops) && r.Some?
    requires Follows(answers, frontier, start, |trace|) && Samples(frontier, height, moment)
    requires moment(start) <= moment(start + |trace| - 1)
    requires forall t: nat :: height(t + 1) <= height(t) + 1
    ensures moment(start) <= at <= moment(start + |trace| - 1) && height(at) == r.value
  {
    TraceIsNotEmpty(answers, start, hint, r, trace, halvings, gallops);
    hide Searched;
    LiveSearch(answers, frontier, start, hint, r, trace, halvings, gallops);
    var from, to := moment(start), moment(start + |trace| - 1);
    at := PassesThrough(height, from, to - from, r.value);
  }

  // ---- What a search costs ----

  /** A bound on the requests of a search, by the hint and the distance from the first passing block. */
  lemma SearchCost(answers: Answers, start: nat, hint: nat, r: Option<nat>, trace: seq<nat>, halvings: nat,
                   gallops: nat)
    requires Searched(answers, start, hint, r, trace, halvings, gallops)
    ensures r.None? ==> |trace| == 1 + Log2(Max(hint, 1))
    ensures r.Some? ==> |trace| <= (1 + Log2(Max(hint, 1))) + (13 + (r.value - trace[halvings]) / CAP) + 12
  {
    hide Galloping;
    if r.Some? {
      GallopsAreFew(gallops, 0, r.value - trace[halvings]);
    } else {
      HalvingEnds(Max(hint, 1), halvings);
    }
  }

  lemma {:induction false} Log2Between(n: nat, k: nat)
    requires Pow2(k) <= n < Pow2(k + 1)
    ensures Log2(n) == k
    decreases k
  {
    if k > 0 {
      assert Pow2(k) == 2 * Pow2(k - 1);
      Log2Between(n / 2, k - 1);
    }
  }

  /**
   The cost is logarithmic in the distance, with one factor for galloping and one for bisecting, if and
   only if the distance is less than six caps, less one; while the step has not outgrown its cap it is
   exactly that.
   */
  lemma CostIsLogUpToSixCaps(answers: Answers, start: nat, hint: nat, r: Option<nat>, trace: seq<nat>, halvings: nat,
                             gallops: nat)
    requires Searched(answers, start, hint, r, trace, halvings, gallops) && r.Some?
    ensures var distance := r.value - trace[halvings];
            && (|trace| <= halvings + 2 + 2 * Log2(distance + 1) <==> distance < 6 * CAP - 1)
            && (distance < 2 * CAP - 1 ==> |trace| == halvings + 2 + 2 * Log2(distance + 1))
  {
    hide Reach, Halving, Galloping, Answered, Log2;
    var distance := r.value - trace[halvings];
    if gallops <= 12 {
      ShortGallop(gallops, distance);
    } else {
      LongGallop(gallops, distance);
    }
  }

  /** With the chain at rest above the hint, a caller can tell beforehand. */
  lemma CostAtRest(answers: Answers, start: nat, hint: nat, height: nat, r: Option<nat>, trace: seq<nat>, halvings: nat,
                   gallops: nat)
    requires Searched(answers, start, hint, r, trace, halvings, gallops)
    requires AtRest(answers, height) && 1 <= hint <= height
    ensures r == Some(height)
    ensures |trace| <= 2 + 2 * Log2(height - hint + 1) <==> height - hint < 6 * CAP - 1
    ensures height - hint < 2 * CAP - 1 ==> |trace| == 2 + 2 * Log2(height - hint + 1)
  {
    StaticSearch(answers, height, start, hint, r, trace, halvings, gallops);
    assert trace[0] == hint && halvings == 0;
    hide Log2;
    CostIsLogUpToSixCaps(answers, start, hint, r, trace, halvings, gallops);
  }

  lemma ShortGallop(k: nat, distance: nat)
    requires Reach(k) <= distance < Reach(k + 1) && k <= 12
    ensures distance < 2 * CAP - 1 && Log2(distance + 1) == k
  {
    ReachClosed(k);
    ReachClosed(k + 1);
    CapIsPower();
    if k < 12 {
      PowersGrow(k + 1, 12);
    }
    hide Pow2, Reach;
    Log2Between(distance + 1, k);
  }

  lemma LongGallop(k: nat, distance: nat)
    requires Reach(k) <= distance < Reach(k + 1) && k > 12
    ensures distance >= 2 * CAP - 1
    ensures k + 12 <= 2 * Log2(distance + 1) <==> distance < 6 * CAP - 1
  {
    ReachClosed(k);
    ReachClosed(k + 1);
    hide Reach;
    Log2Scaled(k - 11, distance + 1 - CAP * (k - 11));
    Log2AgainstLine(k - 11);
  }

  lemma {:induction false} PowersGrow(k: nat, l: nat)
    requires k <= l
    ensures Pow2(k) <= Pow2(l)
  {
    if k < l {
      PowersGrow(k, l - 1);
    }
  }

  lemma {:induction false} Log2Grows(m: nat, n: nat)
    requires 1 <= m <= n
    ensures Log2(m) <= Log2(n)
  {
    if m > 1 {
      Log2Grows(m / 2, n / 2);
    }
  }

  lemma {:induction false} Log2Bounds(n: nat)
    requires n >= 1
    ensures Pow2(Log2(n)) <= n < Pow2(Log2(n) + 1)
  {
    if n > 1 {
      Log2Bounds(n / 2);
    }
  }

  lemma Log2Scaled(n: nat, rest: nat)
    requires n >= 1 && rest < CAP
    ensures Log2(CAP * n + rest) == 12 + Log2(n)
  {
    var l := Log2(n);
    Log2Bounds(n);
    PowerShift(l);
    PowerShift(l + 1);
    hide Pow2, Log2;
    Log2Between(CAP * n + rest, 12 + l);
  }

  /** Twice the logarithm keeps up with the number itself only as far as five. */
  lemma Log2AgainstLine(n: nat)
    requires n >= 2
    ensures n - 1 <= 2 * Log2(n) <==> n <= 5
  {
    assert Pow2(1) == 2 && Pow2(2) == 4 && Pow2(3) == 8;
    if n < 4 {
      Log2Between(n, 1);
    } else if n < 8 {
      Log2Between(n, 2);
    } else {
      Log2Bounds(n);
      if Log2(n) < 3 {
        PowersGrow(Log2(n) + 1, 3);
      }
      PowerAboveLine(Log2(n));
    }
  }

  lemma {:induction false} PowerAboveLine(l: nat)
    requires l >= 3
    ensures Pow2(l) > 2 * l + 1
  {
    if l == 3 {
      assert Pow2(3) == 8;
    } else {
      PowerAboveLine(l - 1);
    }
  }

  lemma CapIsPower()
    ensures Pow2(12) == CAP && Pow2(13) == 2 * CAP
  {
  }

  /** Past the cap it is not: every request advances by one cap at most. */
  lemma CostIsLinear(answers: Answers, start: nat, hint: nat, r: Option<nat>, trace: seq<nat>, halvings: nat,
                     gallops: nat)
    requires Searched(answers, start, hint, r, trace, halvings, gallops) && r.Some?
    ensures r.value - trace[halvings] < CAP * |trace|
  {
    hide Galloping, Halving, Answered;
    ReachIsSlow(gallops + 1);
  }

  /**
   So no multiple of the logarithm bounds the cost. For every factor there is a height such that any
   search from block 1, with the chain at rest there, takes more requests than that many times the
   logarithm of its distance.
   */
  lemma CostIsNotLogarithmic(factor: nat) returns (height: nat)
    ensures height >= 2
    ensures forall answers: Answers, start, r, trace, halvings, gallops ::
              Searched(answers, start, 1, r, trace, halvings, gallops) && AtRest(answers, height) ==>
                |trace| > factor * (1 + Log2(height - 1))
  {
    hide Galloping, Answered, Reach;
    var distance := FarEnough(factor);
    height := distance + 1;
    forall answers: Answers, start, r, trace, halvings, gallops |
      Searched(answers, start, 1, r, trace, halvings, gallops) && AtRest(answers, height)
      ensures |trace| > factor * (1 + Log2(height - 1))
    {
      StaticSearch(answers, height, start, 1, r, trace, halvings, gallops);
      CostIsLinear(answers, start, 1, r, trace, halvings, gallops);
      assert halvings == 0 && trace[0] == 1;
      hide Searched, AtRest, Log2;
    }
  }

  lemma FarEnough(factor: nat) returns (distance: nat)
    ensures distance >= 1
    ensures forall requests: nat :: distance < CAP * requests ==> requests > factor * (1 + Log2(distance))
  {
    var m := 2 * factor + 16;
    PowersOutgrow(factor);
    PowerShift(m);
    distance := CAP * Pow2(m);
    assert Pow2(12 + m) == distance;
    Log2Between(distance, 12 + m);
  }

  lemma {:induction false} PowersOutgrow(factor: nat)
    ensures Pow2(2 * factor + 16) >= factor * (2 * factor + 29) + 1
  {
    if factor == 0 {
      assert Pow2(16) >= 1;
    } else {
      PowersOutgrow(factor - 1);
      assert Pow2(2 * factor + 16) == 4 * Pow2(2 * (factor - 1) + 16);
      if factor == 1 {
        assert Pow2(16) == 0x1_0000 by {
          CapIsPower();
          assert Pow2(14) == 4 * CAP;
        }
      }
    }
  }

  lemma {:induction false} PowerShift(m: nat)
    ensures Pow2(12 + m) == CAP * Pow2(m)
  {
    CapIsPower();
    if m > 0 {
      PowerShift(m - 1);
      assert Pow2(12 + m) == 2 * Pow2(12 + (m - 1));
    }
  }

  lemma {:induction false} ReachIsSlow(k: nat)
    ensures Reach(k) <= CAP * k
  {
    if k > 0 {
      ReachIsSlow(k - 1);
    }
  }
}
