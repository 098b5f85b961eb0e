/** When a gap can appear although the node keeps to its rule: only in an archive begun on a view that trails. */
module TrailingView {
  import opened Families
  import opened Numbers
  import opened Outcomes
  import opened Refinement
  import P = Protocol
  import S = ProtocolSafety

  /** The first view shows so little that a first commit ends below entries the node still has. */
  ghost predicate Trails(s: P.State, cf: Cf)
    requires s.Shaped()
  {
    cf in s.node && S.FirstReach(s.view[cf]) < s.node[cf].floor
  }

  /** One more entry at the node. */
  lemma AppendOne(s: P.State, cf: Cf) returns (step: P.Step, t: P.State)
    requires P.Init(s) && s.Shaped() && Trails(s, cf)
    ensures t.Shaped() && P.Leads(P.WatermarkOnly, s, [step], t) && P.Init(t) && Trails(t, cf)
    ensures t.view == s.view && t.node[cf].floor == s.node[cf].floor < t.node[cf].Next()
  {
    hide P.Leads, S.FirstReach;
    step := P.Append(cf, []);
    t := P.Apply(P.WatermarkOnly, s, step);
    P.OneStepLeads(P.WatermarkOnly, s, step);
  }

  /** A catch-up after which the view of `cf` shows something. */
  lemma ShowSome(s: P.State, cf: Cf) returns (step: P.Step, t: P.State)
    requires P.Init(s) && s.Shaped() && Trails(s, cf)
    ensures t.Shaped() && P.Leads(P.WatermarkOnly, s, [step], t) && S.Inv(t)
    ensures t.node == s.node && t.phase.BetweenJournals? && cf in t.phase.todo && t.archive[cf] == map[]
    ensures t.view[cf].floor == s.view[cf].floor && t.view[cf].next == Max(s.view[cf].next, s.view[cf].floor + 1)
  {
    S.InitInv(s);
    hide P.Leads, S.Inv;
    var shown := P.Window(s.view[cf].floor, Max(s.view[cf].next, s.view[cf].floor + 1));
    step := P.CatchUp(s.view[cf := shown]);
    S.StepKeepsInv(P.WatermarkOnly, s, step);
    P.OneStepLeads(P.WatermarkOnly, s, step);
    t := P.Apply(P.WatermarkOnly, s, step);
  }

  /** A first commit, and then nothing more. */
  lemma CommitOnce(s: P.State, cf: Cf, m: nat) returns (steps: seq<P.Step>, t: P.State)
    requires s.Shaped() && S.Inv(s) && s.phase.BetweenJournals? && cf in s.phase.todo && cf in s.node
    requires s.archive[cf] == map[] && 0 < m && s.view[cf].floor + m <= s.view[cf].next
    requires m == P.BATCH || s.view[cf].floor + m == s.view[cf].next
    ensures t.Shaped() && P.Leads(P.WatermarkOnly, s, steps, t)
    ensures t.phase.Idle? && t.node == s.node && t.view == s.view
    ensures P.Tip(t.archive[cf]) == Some(s.view[cf].floor + m - 1)
  {
    hide P.Leads, S.Inv, Longer;
    assert From(s, cf) == s.view[cf].floor;
    steps := CopyRunsProtocol(P.WatermarkOnly, s, cf, m, false);
    t := AfterJournal(s, cf, m, false);
    LongerTip(s, cf, m);
  }

  /** Catching up past what was committed, and starting again. */
  lemma StartAgain(s: P.State, cf: Cf) returns (steps: seq<P.Step>, t: P.State)
    requires s.Shaped() && s.phase.Idle? && cf in s.node && P.Tip(s.archive[cf]).Some?
    requires forall c :: c in s.node ==>
               s.view[c].floor <= s.node[c].floor && s.view[c].floor <= s.view[c].next <= s.node[c].Next()
    requires P.Tip(s.archive[cf]).value + 1 < s.node[cf].floor < s.node[cf].Next()
    ensures t.Shaped() && P.Leads(P.WatermarkOnly, s, steps, t)
    ensures P.Gap(cf, P.Tip(s.archive[cf]).value + 1, s.node[cf].floor) in t.raised
  {
    hide P.Leads, P.Tip;
    var catchUp := P.CatchUp(s.view[cf := P.Window(s.node[cf].floor, s.node[cf].Next())]);
    assert P.Enabled(P.WatermarkOnly, s, catchUp);
    P.OneStepLeads(P.WatermarkOnly, s, catchUp);
    var caught, start := P.Apply(P.WatermarkOnly, s, catchUp), P.StartJournal(cf);
    P.LeadsMore(P.WatermarkOnly, s, [catchUp], caught, start);
    steps, t := [catchUp] + [start], P.Apply(P.WatermarkOnly, caught, start);
  }

  lemma InvOrdersWindows(s: P.State)
    requires S.Inv(s)
    ensures s.Shaped()
    ensures forall c :: c in s.node ==>
              s.view[c].floor <= s.node[c].floor && s.view[c].floor <= s.view[c].next <= s.node[c].Next()
  {
    forall c | c in s.node
      ensures s.view[c].floor <= s.node[c].floor && s.view[c].floor <= s.view[c].next <= s.node[c].Next()
    {
      assert S.JournalInv(s.raised, c, s.node[c], s.view[c], s.archive[c]);
    }
  }

  /** From a view that trails, some run of a node that keeps to its rule raises a gap. */
  lemma TrailingViewFindsGap(s: P.State, cf: Cf) returns (steps: seq<P.Step>, t: P.State)
    requires P.Init(s) && s.Shaped() && Trails(s, cf)
    ensures P.Leads(P.WatermarkOnly, s, steps, t)
    ensures P.Gap(cf, S.FirstReach(s.view[cf]), s.node[cf].floor) in t.raised
  {
    hide P.Leads, S.Inv, P.Init, P.Tip;
    var append, more := AppendOne(s, cf);
    var catchUp, begun := ShowSome(more, cf);
    P.LeadsConcat(P.WatermarkOnly, s, [append], more, [catchUp], begun);
    var first := [append] + [catchUp];
    var second, stopped := CommitOnce(begun, cf, S.FirstReach(s.view[cf]) - s.view[cf].floor);
    InvOrdersWindows(begun);
    var third;
    third, t := StartAgain(stopped, cf);
    P.LeadsConcat(P.WatermarkOnly, s, first, begun, second, stopped);
    P.LeadsConcat(P.WatermarkOnly, s, first + second, stopped, third, t);
    steps := first + second + third;
  }

  ghost predicate RaisesGap(s: P.State, steps: seq<P.Step>, t: P.State)
    requires s.Shaped()
  {
    P.Leads(P.WatermarkOnly, s, steps, t) && t.raised != {}
  }

  /** Under the node's rule a gap is ever raised if and only if the first view of some journal trails. */
  lemma GapsNeedTrailingView(s: P.State)
    requires P.Init(s) && s.Shaped()
    ensures (exists steps, t :: RaisesGap(s, steps, t)) <==> exists cf :: Trails(s, cf)
  {
    hide P.Init, P.Leads;
    if cf :| Trails(s, cf) {
      var steps, t := TrailingViewFindsGap(s, cf);
      assert RaisesGap(s, steps, t);
    }
    if steps, t :| RaisesGap(s, steps, t) {
      var g :| g in t.raised;
      S.NoGapWhenCurrent(s, steps, t, g);
      assert Trails(s, g.cf);
    }
  }

  /** Such a beginning: two of three blocks are deleted, and the secondary still shows only the first. */
  lemma SomeViewTrails() returns (s: P.State)
    ensures P.Init(s) && s.Shaped() && Trails(s, Block)
  {
    s := P.State(map[Block := P.Journal(0, [[], [], []], 2)], map[Block := P.Window(0, 1)], map[Block := map[]],
                 P.Idle, {}, [], {});
  }
}
