/** What lies in a gap is never archived later, and a run raises gaps that only pile up. */
module GapsStay {
  import opened Families
  import opened Protocol
  import opened ProtocolSafety

  /** No entry of the gap is archived, and none will be shown again. */
  ghost predicate Skipped(s: State, g: Gap)
    requires s.Shaped()
  {
    && g.cf in s.node && g.nodeFloor <= s.view[g.cf].floor
    && forall i :: g.expectedFrom <= i < g.nodeFloor ==> i !in s.archive[g.cf]
  }

  /** A commit archives only entries at or above the view's floor. */
  lemma CommitKeepsSkipped(policy: Policy, s: State, g: Gap)
    requires Inv(s) && Enabled(policy, s, CommitBatch) && Skipped(s, g)
    ensures Skipped(Apply(policy, s, CommitBatch), g)
  {
    hide JournalInv, SentInv, PassInv, ReadFrom, GapsFound, Tip, Seek;
    assert CopyInv(s.raised, s.node[s.phase.cf], s.view[s.phase.cf], s.archive[s.phase.cf], s.phase);
  }

  lemma StepKeepsSkipped(policy: Policy, s: State, step: Step, g: Gap)
    requires Inv(s) && Enabled(policy, s, step) && Skipped(s, g)
    ensures Skipped(Apply(policy, s, step), g)
  {
    hide Tip, GapsFound, ResumeAt, Commit, JournalsInv, PhaseInv, SentInv;
    if step.CommitBatch? {
      CommitKeepsSkipped(policy, s, g);
    } else {
      hide Inv;
    }
  }

  lemma {:induction false} RunKeepsSkipped(policy: Policy, s: State, steps: seq<Step>, t: State, g: Gap)
    requires s.Shaped() && Inv(s) && Leads(policy, s, steps, t) && Skipped(s, g)
    ensures t.Shaped() && Skipped(t, g)
    decreases |steps|
  {
    hide Inv, Apply, Enabled, Skipped;
    if steps != [] {
      StepKeepsInv(policy, s, steps[0]);
      StepKeepsSkipped(policy, s, steps[0], g);
      RunKeepsSkipped(policy, Apply(policy, s, steps[0]), steps[1..], t, g);
    }
  }

  /** A gap that stands when a journal is looked at is skipped from then on. */
  lemma FoundIsSkipped(s: State, cf: Cf, g: Gap)
    requires Inv(s) && cf in s.node && g in GapsFound(cf, s.archive[cf], s.view[cf])
    ensures Skipped(s, g)
  {
  }

  /** From `s` to `t` no gaps were raised but some of these, and all of these are skipped in `t`. */
  ghost predicate RaisedAmong(s: State, gaps: set<Gap>, t: State) {
    && t.Shaped() && s.raised <= t.raised <= s.raised + gaps
    && forall g :: g in gaps ==> Skipped(t, g)
  }

  lemma NoneRaised(s: State, t: State)
    requires t.Shaped() && t.raised == s.raised
    ensures RaisedAmong(s, {}, t)
  {
  }

  lemma RaisedMore(policy: Policy, s: State, first: set<Gap>, mid: State, steps: seq<Step>, second: set<Gap>, t: State)
    requires RaisedAmong(s, first, mid) && RaisedAmong(mid, second, t)
    requires Inv(mid) && Leads(policy, mid, steps, t)
    ensures RaisedAmong(s, first + second, t)
  {
    hide Inv, Leads, Skipped;
    forall g | g in first
      ensures Skipped(t, g)
    {
      RunKeepsSkipped(policy, mid, steps, t, g);
    }
  }

  /** If a run from the start raised no gaps but these, and these are skipped, they hold nothing archived. */
  lemma SkippedIsMissing(s: State, gaps: set<Gap>, t: State, cf: Cf, i: nat)
    requires RaisedAmong(s, gaps, t) && cf in t.node && Covered(gaps, cf, i)
    ensures i !in t.archive[cf]
  {
    var g :| g in gaps && g.cf == cf && g.expectedFrom <= i < g.nodeFloor;
    assert Skipped(t, g);
  }

  /** And what is missing between the first and the last entry archived is exactly what they hold. */
  lemma MissingIsSkipped(s: State, gaps: set<Gap>, t: State, cf: Cf, i: nat)
    requires s.raised == {} && RaisedAmong(s, gaps, t) && Inv(t) && cf in t.node && Spanned(t.archive[cf], i)
    ensures i !in t.archive[cf] <==> Covered(gaps, cf, i)
  {
    assert JournalInv(t.raised, cf, t.node[cf], t.view[cf], t.archive[cf]);
    hide Inv, Tip, Faithful, JournalsInv, Skipped;
    if i !in t.archive[cf] {
      var g :| g in t.raised && g.cf == cf && g.expectedFrom <= i < g.nodeFloor;
      assert g in gaps;
    } else if Covered(gaps, cf, i) {
      SkippedIsMissing(s, gaps, t, cf, i);
    }
  }
}
