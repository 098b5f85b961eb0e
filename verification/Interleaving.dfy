/** The node keeps working while a pass runs, and the pass may be told as if the node had waited for it. */
module Interleaving {
  import opened Protocol
  import opened ProtocolSafety

  predicate NodeStep(step: Step) {
    step.Append? || step.Trim? || step.DeliverReport?
  }

  /** What the archiver does after a catch-up, up to the next one. */
  predicate ArchiverStep(step: Step) {
    !NodeStep(step) && !step.CatchUp?
  }

  /** What a node step leaves alone: all that the archiver writes, and every entry it can read. */
  ghost predicate NodeMoved(s: State, t: State) {
    && s.Shaped() && t.Shaped()
    && t == s.(node := t.node, received := t.received)
    && t.node.Keys == s.node.Keys
    && forall cf, i :: cf in s.node && s.node[cf].Appended(i) ==>
         t.node[cf].Appended(i) && t.node[cf].At(i) == s.node[cf].At(i)
  }

  /** What an archiver step leaves alone: all that the node writes, and the reports it may receive. */
  ghost predicate ArchiverMoved(s: State, u: State) {
    u.Shaped() && u.node == s.node && u.received == s.received && forall r :: r in s.sent ==> r in u.sent
  }

  lemma NodeStepMoves(policy: Policy, s: State, node: Step)
    requires s.Shaped() && NodeStep(node) && Enabled(policy, s, node)
    ensures NodeMoved(s, Apply(policy, s, node))
  {
  }

  lemma ArchiverStepMoves(policy: Policy, s: State, step: Step)
    requires s.Shaped() && ArchiverStep(step) && Enabled(policy, s, step)
    ensures ArchiverMoved(s, Apply(policy, s, step))
  {
    hide GapsFound, Tip, ResumeAt, Commit;
  }

  /** The node's step does the same whatever the archiver did meanwhile. */
  lemma NodeStepIsSame(policy: Policy, s: State, u: State, node: Step)
    requires s.Shaped() && NodeStep(node) && Enabled(policy, s, node) && ArchiverMoved(s, u)
    ensures Enabled(policy, u, node)
    ensures var t := Apply(policy, s, node); Apply(policy, u, node) == u.(node := t.node, received := t.received)
  {
  }

  lemma EnabledAlike(policy: Policy, s: State, t: State, step: Step)
    requires NodeMoved(s, t) && ArchiverStep(step) && Enabled(policy, t, step)
    requires step.ReadEntry? ==> s.phase.cf in s.node && s.node[s.phase.cf].Appended(s.phase.position)
    ensures Enabled(policy, s, step)
  {
  }

  /** The archiver's step does the same whatever the node did meanwhile. */
  lemma ArchiverStepIsSame(policy: Policy, s: State, t: State, step: Step)
    requires NodeMoved(s, t) && ArchiverStep(step) && Enabled(policy, t, step) && Enabled(policy, s, step)
    ensures Apply(policy, t, step) == Apply(policy, s, step).(node := t.node, received := t.received)
  {
    hide GapsFound, Tip, ResumeAt, Commit;
  }

  lemma ReadIsAppended(s: State)
    requires Inv(s) && s.phase.Copying? && s.phase.cf in s.view && s.phase.position < s.view[s.phase.cf].next
    ensures s.phase.cf in s.node && s.node[s.phase.cf].Appended(s.phase.position)
  {
    assert JournalInv(s.raised, s.phase.cf, s.node[s.phase.cf], s.view[s.phase.cf], s.archive[s.phase.cf]);
  }

  lemma ReadEnabled(policy: Policy, s: State)
    requires s.Shaped() && Enabled(policy, s, ReadEntry)
    ensures s.phase.Copying? && s.phase.cf in s.view && s.phase.position < s.view[s.phase.cf].next
  {
  }

  /** A node step followed by an archiver step may be taken in the other order, to the same end. */
  lemma NodeStepsCommute(policy: Policy, s: State, node: Step, step: Step)
    requires s.Shaped() && Inv(s) && NodeStep(node) && ArchiverStep(step)
    requires Enabled(policy, s, node) && Enabled(policy, Apply(policy, s, node), step)
    ensures Enabled(policy, s, step) && Enabled(policy, Apply(policy, s, step), node)
    ensures Apply(policy, Apply(policy, s, step), node) == Apply(policy, Apply(policy, s, node), step)
  {
    hide Inv, Apply, Enabled, NodeMoved, ArchiverMoved;
    var t := Apply(policy, s, node);
    NodeStepMoves(policy, s, node);
    SamePhase(s, t);
    if step.ReadEntry? {
      ReadEnabled(policy, t);
      ReadIsAppended(s);
    }
    EnabledAlike(policy, s, t, step);
    ArchiverStepIsSame(policy, s, t, step);
    ArchiverStepMoves(policy, s, step);
    NodeStepIsSame(policy, s, Apply(policy, s, step), node);
  }

  lemma SamePhase(s: State, t: State)
    requires NodeMoved(s, t)
    ensures s.Shaped() && t.Shaped() && t.phase == s.phase && t.view == s.view
  {
  }

  // ---- Whole runs ----

  function ArchiverSteps(steps: seq<Step>): (some: seq<Step>)
    ensures forall i :: 0 <= i < |some| ==> ArchiverStep(some[i])
  {
    if steps == [] then []
    else (if ArchiverStep(steps[0]) then [steps[0]] else []) + ArchiverSteps(steps[1..])
  }

  function NodeSteps(steps: seq<Step>): (some: seq<Step>)
    ensures forall i :: 0 <= i < |some| ==> NodeStep(some[i])
  {
    if steps == [] then []
    else (if NodeStep(steps[0]) then [steps[0]] else []) + NodeSteps(steps[1..])
  }

  /** A run in two parts passes through some state between them. */
  lemma {:induction false} LeadsSplit(policy: Policy, s: State, first: seq<Step>, second: seq<Step>, t: State)
    returns (mid: State)
    requires s.Shaped() && Leads(policy, s, first + second, t)
    ensures mid.Shaped() && Leads(policy, s, first, mid) && Leads(policy, mid, second, t)
    decreases |first|
  {
    if first == [] {
      assert first + second == second;
      mid := s;
    } else {
      assert (first + second)[1..] == first[1..] + second;
      mid := LeadsSplit(policy, Apply(policy, s, first[0]), first[1..], second, t);
    }
  }

  /** One node step may be put off until the archiver has taken all these steps. */
  lemma {:induction false} PutOff(policy: Policy, s: State, node: Step, steps: seq<Step>, t: State) returns (u: State)
    requires s.Shaped() && Inv(s) && NodeStep(node) && Enabled(policy, s, node)
    requires forall i :: 0 <= i < |steps| ==> ArchiverStep(steps[i])
    requires Leads(policy, Apply(policy, s, node), steps, t)
    ensures u.Shaped() && Leads(policy, s, steps, u) && Enabled(policy, u, node) && Apply(policy, u, node) == t
    decreases |steps|
  {
    hide Inv, Apply, Enabled;
    if steps == [] {
      u := s;
    } else {
      NodeStepsCommute(policy, s, node, steps[0]);
      StepKeepsInv(policy, s, steps[0]);
      u := PutOff(policy, Apply(policy, s, steps[0]), node, steps[1..], t);
    }
  }

  /**
   Between one catch-up and the next, any interleaving of the node's steps with the archiver's, sending
   its report included, ends where the archiver's steps followed by the node's end.
   */
  lemma {:induction false} NodeMayWait(policy: Policy, s: State, steps: seq<Step>, t: State)
    requires s.Shaped() && Inv(s) && Leads(policy, s, steps, t)
    requires forall i :: 0 <= i < |steps| ==> !steps[i].CatchUp?
    ensures Leads(policy, s, ArchiverSteps(steps) + NodeSteps(steps), t)
    decreases |steps|
  {
    hide Inv, Apply, Enabled;
    if steps != [] {
      var step, rest := steps[0], steps[1..];
      var next := Apply(policy, s, step);
      StepKeepsInv(policy, s, step);
      NodeMayWait(policy, next, rest, t);
      if ArchiverStep(step) {
        assert (ArchiverSteps(steps) + NodeSteps(steps))[1..] == ArchiverSteps(rest) + NodeSteps(rest);
      } else {
        var mid := LeadsSplit(policy, next, ArchiverSteps(rest), NodeSteps(rest), t);
        var put := PutOff(policy, s, step, ArchiverSteps(rest), mid);
        assert ([step] + NodeSteps(rest))[1..] == NodeSteps(rest);
        assert Leads(policy, put, [step] + NodeSteps(rest), t);
        LeadsConcat(policy, s, ArchiverSteps(rest), put, [step] + NodeSteps(rest), t);
        assert ArchiverSteps(steps) == ArchiverSteps(rest) && NodeSteps(steps) == [step] + NodeSteps(rest);
      }
    }
  }
}
