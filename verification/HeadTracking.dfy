/** Following a head: search after search, each starting from where the last one ended. */
module HeadTracking {
  import opened Numbers
  import opened Outcomes
  import opened FrontierSearch

  /** A search as it was made: its first request, its hint, its result and its requests. */
  datatype Search = Search(start: nat, hint: nat, result: Option<nat>, trace: seq<nat>) {

    ghost predicate Made(answers: Answers) {
      exists halvings, gallops :: Searched(answers, start, hint, result, trace, halvings, gallops)
    }

    /** The first request after it. */
    function End(): nat {
      start + |trace|
    }
  }

  /** The result remembered from earlier searches; one that found nothing is forgotten, or not kept. */
  function Remembered(log: seq<Search>, keep: bool): Option<nat> {
    if log == [] then None
    else
      var last := log[|log| - 1];
      if last.result.None? && keep then Remembered(log[..|log| - 1], keep) else last.result
  }

  function OrFirst(remembered: Option<nat>): nat {
    if remembered.Some? then remembered.value else 1
  }

  /** Searches one after another, each taking the remembered result as its hint. */
  ghost predicate Chained(answers: Answers, log: seq<Search>, keep: bool) {
    && (forall i :: 0 <= i < |log| ==> log[i].Made(answers) && log[i].hint == OrFirst(Remembered(log[..i], keep)))
    && (forall i, j :: 0 <= i < j < |log| ==> log[i].End() <= log[j].start)
  }

  /** As many requests as a search makes that starts and ends at or below this block. */
  function SearchBudget(bound: nat): nat {
    Log2(Max(bound, 1)) + 26 + bound / CAP
  }

  /** As many requests as these rounds make: two searches each, and one block fetched. */
  function RoundsBudget(rounds: nat, bound: nat): nat {
    rounds * (2 * SearchBudget(bound) + 1)
  }

  ghost predicate EndsBy(log: seq<Search>, clock: nat) {
    forall i :: 0 <= i < |log| ==> log[i].End() <= clock
  }

  lemma ChainMore(answers: Answers, log: seq<Search>, keep: bool, clock: nat, next: Search)
    requires Chained(answers, log, keep) && EndsBy(log, clock) && clock <= next.start
    requires next.Made(answers) && next.hint == OrFirst(Remembered(log, keep))
    ensures Chained(answers, log + [next], keep) && EndsBy(log + [next], next.End())
  {
    hide Search.Made, Remembered;
    var longer := log + [next];
    forall i | 0 <= i < |longer|
      ensures longer[i].Made(answers) && longer[i].hint == OrFirst(Remembered(longer[..i], keep))
    {
      assert longer[..i] == log[..i];
      assert log[..|log|] == log;
      assert i < |log| ==> longer[i] == log[i];
    }
  }

  /** Searches that found a block so far. */
  function Finds(log: seq<Search>): nat {
    if log == [] then 0 else Finds(log[..|log| - 1]) + if log[|log| - 1].result.Some? then 1 else 0
  }

  /** This search came right after the details of the tip that was found after `5 * j` others. */
  ghost predicate OnFifth(tips: seq<Search>, hard: Search, j: nat) {
    exists i :: 0 <= i < |tips| && tips[i].result.Some? && Finds(tips[..i]) == 5 * j && hard.start == tips[i].End() + 1
  }

  ghost predicate AllOnFifth(tips: seq<Search>, hards: seq<Search>) {
    forall j :: 0 <= j < |hards| ==> OnFifth(tips, hards[j], j)
  }

  lemma NothingOnFifth()
    ensures AllOnFifth([], [])
  {
  }

  lemma FifthMore(tips: seq<Search>, hards: seq<Search>, made: Search)
    requires AllOnFifth(tips, hards)
    ensures AllOnFifth(tips + [made], hards)
  {
    hide Finds, Search.End;
    var more := tips + [made];
    forall j | 0 <= j < |hards|
      ensures OnFifth(more, hards[j], j)
    {
      var i :| 0 <= i < |tips| && tips[i].result.Some? && Finds(tips[..i]) == 5 * j
               && hards[j].start == tips[i].End() + 1;
      assert more[i] == tips[i] && more[..i] == tips[..i];
    }
  }

  lemma FifthNow(tips: seq<Search>, hards: seq<Search>, hard: Search)
    requires AllOnFifth(tips, hards) && tips != [] && tips[|tips| - 1].result.Some?
    requires Finds(tips[..|tips| - 1]) == 5 * |hards| && hard.start == tips[|tips| - 1].End() + 1
    ensures AllOnFifth(tips, hards + [hard])
  {
    hide Finds, Search.End;
    var more := hards + [hard];
    forall j | 0 <= j < |more|
      ensures OnFifth(tips, more[j], j)
    {
      assert j < |hards| ==> more[j] == hards[j] && OnFifth(tips, hards[j], j);
    }
  }

  lemma EndsLater(log: seq<Search>, clock: nat, later: nat)
    requires EndsBy(log, clock) && clock <= later
    ensures EndsBy(log, later)
  {
  }

  lemma NoSearches(answers: Answers, keep: bool)
    ensures Chained(answers, [], keep) && EndsBy([], 0)
  {
  }

  lemma BoundedFrom(answers: Answers, bound: nat, start: nat, requests: nat, horizon: nat)
    requires BoundedFor(answers, 0, horizon, bound) && start + requests <= horizon
    ensures BoundedFor(answers, start, requests, bound)
  {
  }

  /** A result stays below the bound, and so does the cost. */
  lemma SearchStaysBounded(answers: Answers, start: nat, hint: nat, r: Option<nat>, trace: seq<nat>, halvings: nat,
                           gallops: nat, bound: nat, horizon: nat)
    requires Searched(answers, start, hint, r, trace, halvings, gallops) && hint <= Max(bound, 1)
    requires r.Some? ==> trace[halvings] + Reach(gallops) <= bound
    requires BoundedFor(answers, 0, horizon, bound) && start + SearchBudget(bound) <= horizon
    ensures |trace| <= SearchBudget(bound) && (r.Some? ==> r.value <= bound)
  {
    hide Reach, Halving, Log2;
    Log2Grows(Max(hint, 1), Max(bound, 1));
    if r.Some? {
      GallopsAreFew(gallops, trace[halvings], bound);
      var i :| 0 <= i < |trace| && trace[i] == r.value && answers(start + i, r.value);
      assert start <= start + i < horizon;
    }
  }

  ghost predicate UpTo(remembered: Option<nat>, bound: nat) {
    remembered.Some? ==> remembered.value <= bound
  }

  /** Make the next search of a chain. */
  method SearchOn(answers: Answers, clock: nat, remembered: Option<nat>, ghost bound: nat, ghost horizon: nat,
                  ghost log: seq<Search>, ghost keep: bool)
    returns (end: nat, made: Search)
    requires BoundedFor(answers, 0, horizon, bound) && clock + SearchBudget(bound) <= horizon && UpTo(remembered, bound)
    requires Chained(answers, log, keep) && EndsBy(log, clock) && remembered == Remembered(log, keep)
    ensures Chained(answers, log + [made], keep) && EndsBy(log + [made], end)
    ensures made.start == clock && made.End() == end
    ensures clock <= end <= clock + SearchBudget(bound) && UpTo(made.result, bound)
  {
    hide Searched, BoundedFor, Chained, EndsBy, Log2;
    var hint := OrFirst(remembered);
    Log2Grows(Max(hint, 1), Max(bound, 1));
    BoundedFrom(answers, bound, clock, Log2(Max(hint, 1)) + 14 + bound / CAP, horizon);
    var r, trace;
    ghost var halvings, gallops;
    r, trace, halvings, gallops := FindLast(answers, clock, hint, bound);
    SearchStaysBounded(answers, clock, hint, r, trace, halvings, gallops, bound, horizon);
    made := Search(clock, hint, r, trace);
    end := clock + |trace|;
    ChainMore(answers, log, keep, clock, made);
  }

  lemma {:induction false} RoundsAddUp(round: nat, rounds: nat, bound: nat)
    requires round < rounds
    ensures RoundsBudget(round, bound) + 2 * SearchBudget(bound) + 1 == RoundsBudget(round + 1, bound)
    ensures RoundsBudget(round + 1, bound) <= RoundsBudget(rounds, bound)
    decreases rounds
  {
    var each := 2 * SearchBudget(bound) + 1;
    hide SearchBudget;
    if round + 1 < rounds {
      RoundsAddUp(round, rounds - 1, bound);
      assert rounds * each == (rounds - 1) * each + each;
    }
  }

  /**
   Poll a head round after round: find its tip and, on the first and every fifth round that finds one,
   its last hard-confirmed block. Returned are all searches as they were made. The chain may grow for
   ever; it need only stay within some bound while these rounds last.
   */
  method FollowHead(blocks: Answers, confirmed: Answers, rounds: nat, ghost bound: nat)
    returns (tips: seq<Search>, hards: seq<Search>)
    requires BoundedFor(blocks, 0, RoundsBudget(rounds, bound), bound)
    requires BoundedFor(confirmed, 0, RoundsBudget(rounds, bound), bound)
    ensures |tips| == rounds && |hards| == (Finds(tips) + 4) / 5
    ensures Chained(blocks, tips, true) && Chained(confirmed, hards, false) && AllOnFifth(tips, hards)
  {
    hide AllOnFifth, BoundedFor, Chained, EndsBy, RoundsBudget, SearchBudget;
    ghost var horizon := RoundsBudget(rounds, bound);
    var lastTip, lastHard := None, None;
    tips, hards := [], [];
    var clock, tick := 0, 0;
    NoSearches(blocks, true);
    NoSearches(confirmed, false);
    assert AllOnFifth(tips, hards) by {
      NothingOnFifth();
    }
    for round := 0 to rounds
      invariant |tips| == round && tick == Finds(tips) && |hards| == (tick + 4) / 5
      invariant Chained(blocks, tips, true) && Chained(confirmed, hards, false) && AllOnFifth(tips, hards)
      invariant EndsBy(tips, clock) && EndsBy(hards, clock) && clock <= RoundsBudget(round, bound)
      invariant lastTip == Remembered(tips, true) && lastHard == Remembered(hards, false)
      invariant UpTo(lastTip, bound) && UpTo(lastHard, bound)
    {
      RoundsAddUp(round, rounds, bound);
      ghost var start := clock;
      var made;
      clock, made := SearchOn(blocks, clock, lastTip, bound, horizon, tips, true);
      EndsLater(hards, start, clock);
      assert (tips + [made])[..|tips|] == tips;
      FifthMore(tips, hards, made);
      tips := tips + [made];
      if made.result.Some? {
        lastTip := made.result;
        // One request fetches the tip's details.
        EndsLater(tips, clock, clock + 1);
        EndsLater(hards, clock, clock + 1);
        clock := clock + 1;
        if tick % 5 == 0 {
          start := clock;
          clock, made := SearchOn(confirmed, clock, lastHard, bound, horizon, hards, false);
          lastHard := made.result;
          FifthNow(tips, hards, made);
          EndsLater(tips, start, clock);
          assert (hards + [made])[..|hards|] == hards;
          hards := hards + [made];
        }
        tick := tick + 1;
      }
    }
  }

  /**
   What a search is given, whatever the answers. Where failures are kept out, it is the newest block found
   so far; elsewhere it is what the search before it found, if anything; without either, block 1.
   */
  lemma HintIsNewestFind(answers: Answers, log: seq<Search>, keep: bool, i: nat)
    requires Chained(answers, log, keep) && i < |log|
    ensures keep ==>
              forall j :: 0 <= j < i && log[j].result.Some? && (forall k :: j < k < i ==> log[k].result.None?) ==>
                            log[i].hint == log[j].result.value
    ensures keep && (forall k :: 0 <= k < i ==> log[k].result.None?) ==> log[i].hint == 1
    ensures !keep && i > 0 && log[i - 1].result.Some? ==> log[i].hint == log[i - 1].result.value
    ensures !keep && (i == 0 || log[i - 1].result.None?) ==> log[i].hint == 1
  {
    hide Search.Made;
    if keep {
      var past := log[..i];
      assert forall k :: 0 <= k < i ==> past[k] == log[k];
      if forall k :: 0 <= k < i ==> log[k].result.None? {
        NothingToRemember(past, keep);
      }
      forall j | 0 <= j < i && log[j].result.Some? && forall k :: j < k < i ==> log[k].result.None?
        ensures log[i].hint == log[j].result.value
      {
        NewestIsRemembered(past, j);
      }
    } else if i > 0 {
      assert log[..i][i - 1] == log[i - 1];
    }
  }

  lemma {:induction false} NewestIsRemembered(log: seq<Search>, j: nat)
    requires j < |log| && log[j].result.Some? && forall k :: j < k < |log| ==> log[k].result.None?
    ensures Remembered(log, true) == log[j].result
    decreases |log|
  {
    if j < |log| - 1 {
      assert log[|log| - 1].result.None?;
      NewestIsRemembered(log[..|log| - 1], j);
    }
  }

  // ---- Against a frontier that never recedes ----

  ghost predicate Live(answers: Answers, frontier: nat -> nat) {
    && (forall time, n: nat :: n >= 1 ==> (answers(time, n) <==> n <= frontier(time)))
    && (forall s: nat, t: nat :: s <= t ==> frontier(s) <= frontier(t))
  }

  /** Each result lies between the frontier at its search's first request and at its last. */
  lemma SearchBrackets(answers: Answers, frontier: nat -> nat, s: Search)
    requires Live(answers, frontier) && s.Made(answers)
    ensures s.trace != []
    ensures s.result.Some? ==> 1 <= s.result.value && frontier(s.start) <= s.result.value <= frontier(s.End() - 1)
    ensures s.result.None? ==> frontier(s.End() - 1) == 0
  {
    var halvings, gallops :| Searched(answers, s.start, s.hint, s.result, s.trace, halvings, gallops);
    LiveSearch(answers, frontier, s.start, s.hint, s.result, s.trace, halvings, gallops);
  }

  /** A block once found is never lost from sight, and results never fall. */
  lemma ResultsNeverFall(answers: Answers, frontier: nat -> nat, log: seq<Search>, keep: bool, i: nat, j: nat)
    requires Live(answers, frontier) && Chained(answers, log, keep) && i < j < |log|
    requires log[i].result.Some?
    ensures log[j].result.Some? && log[i].result.value <= log[j].result.value
  {
    hide Searched;
    SearchBrackets(answers, frontier, log[i]);
    SearchBrackets(answers, frontier, log[j]);
    assert frontier(log[i].End() - 1) <= frontier(log[j].start) <= frontier(log[j].End() - 1);
  }

  lemma {:induction false} NothingToRemember(log: seq<Search>, keep: bool)
    requires forall i :: 0 <= i < |log| ==> log[i].result.None?
    ensures Remembered(log, keep) == None
  {
    if log != [] {
      NothingToRemember(log[..|log| - 1], keep);
    }
  }

  /** The remembered result is the newest, whether or not failures are kept out of it. */
  lemma RememberedIsNewest(answers: Answers, frontier: nat -> nat, log: seq<Search>, keep: bool)
    requires Live(answers, frontier) && Chained(answers, log, keep)
    ensures Remembered(log, keep) == if log == [] then None else log[|log| - 1].result
  {
    if log != [] && log[|log| - 1].result.None? {
      forall i | 0 <= i < |log|
        ensures log[i].result.None?
      {
        if log[i].result.Some? {
          ResultsNeverFall(answers, frontier, log, keep, i, |log| - 1);
        }
      }
      NothingToRemember(log, keep);
    }
  }

  /**
   Once a block was found, the next search asks for it first, finds it still there, and never
   halves: its cost depends only on how far the frontier moved meanwhile.
   */
  lemma HintsHold(answers: Answers, frontier: nat -> nat, log: seq<Search>, keep: bool, i: nat)
    requires Live(answers, frontier) && Chained(answers, log, keep) && 0 < i < |log|
    requires log[i - 1].result.Some?
    ensures log[i].trace != [] && log[i].trace[0] == log[i].hint == log[i - 1].result.value
    ensures answers(log[i].start, log[i].hint) && log[i].result.Some?
    ensures |log[i].trace| <= 26 + (log[i].result.value - log[i - 1].result.value) / CAP
  {
    hide Searched;
    assert log[..i][i - 1] == log[i - 1];
    SearchBrackets(answers, frontier, log[i - 1]);
    assert frontier(log[i - 1].End() - 1) <= frontier(log[i].start);
    ResultsNeverFall(answers, frontier, log, keep, i - 1, i);
    FirstAnswerHolds(answers, frontier, log[i]);
  }

  /** A search whose hint passes at once. */
  lemma FirstAnswerHolds(answers: Answers, frontier: nat -> nat, s: Search)
    requires Live(answers, frontier) && s.Made(answers) && s.result.Some? && 1 <= s.hint <= frontier(s.start)
    ensures s.trace != [] && s.trace[0] == s.hint && answers(s.start, s.hint) && s.hint <= s.result.value
    ensures |s.trace| <= 26 + (s.result.value - s.hint) / CAP
  {
    var halvings, gallops :| Searched(answers, s.start, s.hint, s.result, s.trace, halvings, gallops);
    assert s.trace[0] == s.hint && answers(s.start, s.hint);
    GallopsAreFew(gallops, 0, s.result.value - s.hint);
  }
}
