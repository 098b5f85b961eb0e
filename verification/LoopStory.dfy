/** Around the passes of the main loop, over stores that are windows of one node, there is such a story. */
module LoopStory {
  import opened Families
  import opened OrderedStore
  import opened Stores
  import opened Refinement
  import opened PassRefinement
  import opened Guarantees
  import opened Lifetime
  import opened LoopLife
  import I = Interleaving
  import L = ArchiverLoop
  import P = Protocol

  /** What the node did since the last pass, how things stood then, and what it showed from there on. */
  datatype Turn = Turn(steps: seq<P.Step>, now: World, windows: map<Cf, P.Window>)

  /** The node can take these steps one after another from `w`, and then stands as in `v`. */
  ghost predicate NodeLed(policy: P.Policy, families: seq<Cf>, w: World, steps: seq<P.Step>, v: World)
    decreases |steps|
  {
    if steps == [] then w == v
    else
      && Level(w) && May(policy, families, w, NodeDid(steps[0]))
      && NodeLed(policy, families, After(policy, families, w, NodeDid(steps[0])), steps[1..], v)
  }

  /** The world after a turn of the loop: the view moved if the catch-up worked, and the report was sent. */
  ghost function TurnOver(families: seq<Cf>, turn: Turn, primary: Contents, pass: L.PassRun): World {
    var caught := pass.view == Shown(families, primary);
    turn.now.(view := if caught then turn.windows else turn.now.view, archive := pass.after,
              sent := turn.now.sent + ReportOf(pass), task := Resting)
  }

  /**
   The store at every tick is a window of one node, which takes its own steps between the passes. Which
   it may take depends on the reports it received, and so on the passes.
   */
  ghost predicate Around(policy: P.Policy, families: seq<Cf>, w: World, ticks: seq<L.Tick>, turns: seq<Turn>,
                         passes: seq<L.PassRun>)
    decreases |passes|
  {
    passes == []
    || (ticks != [] && turns != []
        && NodeLed(policy, families, w, turns[0].steps, turns[0].now)
        && Level(turns[0].now) && P.Enabled(policy, Stand(turns[0].now), P.CatchUp(turns[0].windows))
        && Viewed(turns[0].now.node, turns[0].windows, JournalSet(families), Shown(families, ticks[0].primary))
        && Around(policy, families, TurnOver(families, turns[0], ticks[0].primary, passes[0]), ticks[1..], turns[1..],
                  passes[1..]))
  }

  /** The archiver rests, and what its view shows are the node's entries. */
  ghost predicate Steady(families: seq<Cf>, w: World, shown: Contents) {
    && Level(w) && w.task.Resting? && Viewed(w.node, w.view, JournalSet(families), shown)
    && forall cf :: cf in w.node ==>
         w.node[cf].origin <= w.view[cf].floor <= w.node[cf].floor && w.view[cf].floor <= w.view[cf].next
         && w.view[cf].next <= w.node[cf].Next()
  }

  lemma BeginsSteady(families: seq<Cf>, w: World, shown: Contents)
    requires Begins(families, w) && Viewed(w.node, w.view, JournalSet(families), shown)
    ensures Steady(families, w, shown)
  {
    hide Viewed;
  }

  /** A step of the node leaves the archiver where it was, and its view what it was. */
  lemma NodeKeepsSteady(policy: P.Policy, families: seq<Cf>, w: World, step: P.Step, shown: Contents)
    requires Steady(families, w, shown) && May(policy, families, w, NodeDid(step))
    ensures Steady(families, After(policy, families, w, NodeDid(step)), shown)
  {
    hide Viewed, I.NodeMoved, P.Enabled, P.Apply;
    I.NodeStepMoves(policy, Stand(w), step);
    NodeKeepsOrder(policy, w, step);
    NodeKeepsViewed(Stand(w), P.Apply(policy, Stand(w), step), JournalSet(families), shown);
  }

  lemma NodeKeepsOrder(policy: P.Policy, w: World, step: P.Step)
    requires Level(w) && I.NodeStep(step) && P.Enabled(policy, Stand(w), step)
    ensures var v := P.Apply(policy, Stand(w), step);
            && v.node.Keys == w.node.Keys && v.view == w.view
            && forall cf :: cf in w.node ==>
                 && v.node[cf].origin == w.node[cf].origin
                 && w.node[cf].floor <= v.node[cf].floor && w.node[cf].Next() <= v.node[cf].Next()
  {
  }

  lemma NodeKeepsViewed(s: P.State, t: P.State, journals: set<Cf>, shown: Contents)
    requires I.NodeMoved(s, t) && Viewed(s.node, s.view, journals, shown)
    requires forall cf :: cf in s.node ==> s.node[cf].origin <= s.view[cf].floor && s.view[cf].next <= s.node[cf].Next()
    ensures Viewed(t.node, s.view, journals, shown)
  {
    forall cf | cf in journals
      ensures Visible(t.node[cf], s.view[cf]) == Visible(s.node[cf], s.view[cf])
    {
      VisibleStays(s.node[cf], t.node[cf], s.view[cf]);
    }
    hide Encodes, Visible;
  }

  lemma {:induction false} NodeLedSteady(policy: P.Policy, families: seq<Cf>, w: World, steps: seq<P.Step>, v: World,
                                         shown: Contents)
    requires Steady(families, w, shown) && NodeLed(policy, families, w, steps, v)
    ensures Steady(families, v, shown)
    decreases |steps|
  {
    hide May, After, Steady;
    if steps != [] {
      NodeKeepsSteady(policy, families, w, steps[0], shown);
      NodeLedSteady(policy, families, After(policy, families, w, NodeDid(steps[0])), steps[1..], v, shown);
    }
  }

  /** What the node does before a pass is part of the story of that pass. */
  lemma {:induction false} NodeStepsTell(policy: P.Policy, families: seq<Cf>, w: World, steps: seq<P.Step>, v: World,
                                         events: seq<Event>, passes: seq<L.PassRun>, u: World)
    returns (story: seq<Event>)
    requires NodeLed(policy, families, w, steps, v) && Tells(policy, families, true, v, events, passes, u)
    ensures Tells(policy, families, true, w, story, passes, u)
    decreases |steps|
  {
    hide May, After;
    if steps == [] {
      story := events;
    } else {
      var rest := NodeStepsTell(policy, families, After(policy, families, w, NodeDid(steps[0])), steps[1..], v, events,
                                passes, u);
      story := [NodeDid(steps[0])] + rest;
      assert story[1..] == rest;
    }
  }

  /** How a pass of the loop begins in the story. */
  ghost function Began(families: seq<Cf>, turn: Turn, primary: Contents, pass: L.PassRun): Event {
    PassBegan(if pass.view == Shown(families, primary) then turn.windows else turn.now.view, pass.view)
  }

  /** What happens to its report. */
  function Reporting(pass: L.PassRun): seq<Event> {
    if pass.result.Err? then []
    else if pass.result.value.watermarks == map[] then [ReportDropped]
    else [ReportSent]
  }

  /** What a turn needs to become part of the story. */
  ghost predicate Fitting(policy: P.Policy, families: seq<Cf>, turn: Turn, primary: Contents, shown: Contents,
                          pass: L.PassRun)
  {
    && Steady(families, turn.now, shown) && P.Enabled(policy, Stand(turn.now), P.CatchUp(turn.windows))
    && Viewed(turn.now.node, turn.windows, JournalSet(families), Shown(families, primary))
    && (pass.view == Shown(families, primary) || (pass.result.Err? && pass.view == shown))
  }

  lemma StayingIsCatchingUp(policy: P.Policy, families: seq<Cf>, w: World, shown: Contents)
    requires Steady(families, w, shown)
    ensures P.Enabled(policy, Stand(w), P.CatchUp(w.view))
  {
    hide Viewed;
  }

  lemma BeganMay(policy: P.Policy, families: seq<Cf>, turn: Turn, primary: Contents, shown: Contents, pass: L.PassRun)
    requires Fitting(policy, families, turn, primary, shown, pass)
    ensures Began(families, turn, primary, pass).PassBegan?
    ensures Level(turn.now) && May(policy, families, turn.now, Began(families, turn, primary, pass))
    ensures var w := After(policy, families, turn.now, Began(families, turn, primary, pass));
            && Level(w) && w.task == Running(pass.view)
            && Ended(w, pass).(task := Resting, sent := turn.now.sent + ReportOf(pass))
               == TurnOver(families, turn, primary, pass)
            && Ended(w, pass).sent == turn.now.sent && Level(Ended(w, pass))
            && Ended(w, pass).task
               == if pass.result.Ok? then Holding(pass.result.value.watermarks) else Resting
  {
    StayingIsCatchingUp(policy, families, turn.now, shown);
    hide Viewed, Shown, P.Enabled;
  }

  lemma OverSteady(policy: P.Policy, families: seq<Cf>, turn: Turn, primary: Contents, shown: Contents, pass: L.PassRun)
    requires Fitting(policy, families, turn, primary, shown, pass)
    ensures Steady(families, TurnOver(families, turn, primary, pass), pass.view)
  {
    hide Viewed, Shown, ReportOf;
  }

  lemma ReportingTells(policy: P.Policy, families: seq<Cf>, w: World, pass: L.PassRun, v: World, rest: seq<Event>,
                       passes: seq<L.PassRun>, u: World)
    requires Level(w) && w.task == if pass.result.Ok? then Holding(pass.result.value.watermarks) else Resting
    requires v == w.(task := Resting, sent := w.sent + ReportOf(pass))
    requires Tells(policy, families, true, v, rest, passes, u)
    ensures Tells(policy, families, true, w, Reporting(pass) + rest, passes, u)
  {
    var story := Reporting(pass) + rest;
    if pass.result.Ok? {
      assert story[0] == Reporting(pass)[0] && story[1..] == rest;
      assert pass.result.value.watermarks == map[] ==> w.sent + [] == w.sent;
    } else {
      assert story == rest && w.sent + [] == w.sent;
    }
  }

  /** One turn, from the beginning of its pass to the end of its report. */
  lemma TurnTells(policy: P.Policy, families: seq<Cf>, turn: Turn, primary: Contents, shown: Contents,
                  passes: seq<L.PassRun>, rest: seq<Event>, u: World) returns (story: seq<Event>)
    requires passes != [] && Fitting(policy, families, turn, primary, shown, passes[0])
    requires Tells(policy, families, true, TurnOver(families, turn, primary, passes[0]), rest, passes[1..], u)
    ensures Tells(policy, families, true, turn.now, story, passes, u)
  {
    hide May, After, TurnOver, Fitting, Ended, Reporting, ReportOf, Tells, Began;
    var pass := passes[0];
    var began, ended := Began(families, turn, primary, pass), PassEnded(pass.full, pass.result, pass.after);
    BeganMay(policy, families, turn, primary, shown, pass);
    var w := After(policy, families, turn.now, began);
    var over := TurnOver(families, turn, primary, pass);
    ReportingTells(policy, families, Ended(w, pass), pass, over, rest, passes[1..], u);
    var reported := Reporting(pass) + rest;
    EndTells(policy, families, w, ended, reported, passes, u);
    BeginTells(policy, families, turn.now, began, [ended] + reported, passes, u);
    story := [began] + ([ended] + reported);
  }

  lemma EndTells(policy: P.Policy, families: seq<Cf>, w: World, ended: Event, rest: seq<Event>, passes: seq<L.PassRun>,
                 u: World)
    requires Level(w) && passes != [] && w.task == Running(passes[0].view)
    requires ended == PassEnded(passes[0].full, passes[0].result, passes[0].after)
    requires Tells(policy, families, true, Ended(w, passes[0]), rest, passes[1..], u)
    ensures Tells(policy, families, true, w, [ended] + rest, passes, u)
  {
    hide Ended;
    assert ([ended] + rest)[1..] == rest;
  }

  lemma BeginTells(policy: P.Policy, families: seq<Cf>, w: World, began: Event, rest: seq<Event>,
                   passes: seq<L.PassRun>, u: World)
    requires Level(w) && began.PassBegan? && May(policy, families, w, began)
    requires Tells(policy, families, true, After(policy, families, w, began), rest, passes, u)
    ensures Tells(policy, families, true, w, [began] + rest, passes, u)
  {
    hide May, After;
    assert ([began] + rest)[1..] == rest;
  }

  lemma SeenLater(families: seq<Cf>, shown: Contents, ticks: seq<L.Tick>, passes: seq<L.PassRun>)
    requires passes != [] && L.SeesTheNode(families, shown, ticks, passes)
    ensures ticks != [] && L.SeesTheNode(families, passes[0].view, ticks[1..], passes[1..])
    ensures || passes[0].view == Shown(families, ticks[0].primary)
            || (passes[0].result.Err? && passes[0].view == shown)
  {
    hide Shown;
    assert passes[..0] == [];
    var rest := passes[1..];
    forall i | 0 <= i < |rest|
      ensures || rest[i].view == Shown(families, ticks[1..][i].primary)
              || (rest[i].result.Err? && rest[i].view == L.LastView(passes[0].view, rest[..i]))
    {
      assert rest[i] == passes[i + 1] && ticks[1..][i] == ticks[i + 1];
      assert i > 0 ==> rest[..i][i - 1] == passes[..i + 1][i];
    }
  }

  /** What the loop's passes saw of one node is enough for a story in which they follow one another. */
  lemma {:induction false} LoopHasStory(policy: P.Policy, families: seq<Cf>, w: World, shown: Contents,
                                        ticks: seq<L.Tick>, turns: seq<Turn>, passes: seq<L.PassRun>)
    returns (events: seq<Event>, u: World)
    requires Steady(families, w, shown) && L.SeesTheNode(families, shown, ticks, passes)
    requires Around(policy, families, w, ticks, turns, passes)
    ensures Tells(policy, families, true, w, events, passes, u) && u.task.Resting?
    decreases |passes|
  {
    hide Steady, Tells, NodeLed, TurnOver, L.SeesTheNode, Shown, Viewed, P.Enabled;
    if passes == [] {
      events, u := [], w;
      EmptyStory(policy, families, w);
      assert w.task.Resting? by {
        SteadyRests(families, w, shown);
      }
    } else {
      var turn, primary := turns[0], ticks[0].primary;
      SeenLater(families, shown, ticks, passes);
      NodeLedSteady(policy, families, w, turn.steps, turn.now, shown);
      assert Fitting(policy, families, turn, primary, shown, passes[0]);
      OverSteady(policy, families, turn, primary, shown, passes[0]);
      var rest;
      var over := TurnOver(families, turn, primary, passes[0]);
      rest, u := LoopHasStory(policy, families, over, passes[0].view, ticks[1..], turns[1..], passes[1..]);
      var story := TurnTells(policy, families, turn, primary, shown, passes, rest, u);
      events := NodeStepsTell(policy, families, w, turn.steps, turn.now, story, passes, u);
    }
  }

  lemma EmptyStory(policy: P.Policy, families: seq<Cf>, w: World)
    ensures Tells(policy, families, true, w, [], [], w)
  {
  }

  lemma SteadyRests(families: seq<Cf>, w: World, shown: Contents)
    requires Steady(families, w, shown)
    ensures w.task.Resting?
  {
    hide Viewed;
  }

  /**
   What the main loop did on stores that are windows of one node, which deletes only under the reports it
   received, is a life: what it sent names the reports of that life, and its archive holds every entry
   deleted since it began.
   */
  lemma LoopRunLosesNothing(families: seq<Cf>, w: World, shown: Contents, ticks: seq<L.Tick>, turns: seq<Turn>,
                            passes: seq<L.PassRun>, end: Contents)
    returns (events: seq<Event>, u: World)
    requires Begins(families, w) && Viewed(w.node, w.view, JournalSet(families), shown)
    requires L.Chained(families, w.archive, passes, end) && L.WellNamed(passes)
    requires L.SeesTheNode(families, shown, ticks, passes)
    requires Around(P.WatermarkOnly, families, w, ticks, turns, passes)
    ensures Lives(P.WatermarkOnly, families, w, events, u) && u.archive == end
    ensures DeletedAreStored(u.node, OriginOf(w).floor, end)
    ensures |u.sent| == |L.Bodies(passes)|
    ensures forall k :: 0 <= k < |u.sent| ==> Names(L.Bodies(passes)[k], u.sent[k])
  {
    hide Begins, Tells, Lives, Viewed, L.Chained, L.WellNamed, L.SeesTheNode, Around, DeletedAreStored, Names, L.Bodies,
         Reports;
    BeginsSteady(families, w, shown);
    events, u := LoopHasStory(P.WatermarkOnly, families, w, shown, ticks, turns, passes);
    LoopLives(P.WatermarkOnly, families, true, w, events, passes, u, end);
    LoopLosesNothing(families, w, events, passes, u, end);
    assert u.sent + [] == u.sent;
  }
}
