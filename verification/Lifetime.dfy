/** The whole life of a node and its archive, in stored bytes: passes as they ran, with the node at work meanwhile. */
module Lifetime {
  import opened Families
  import opened FamilyNames
  import opened Journals
  import opened OrderedStore
  import opened Outcomes
  import opened Stores
  import opened Pass
  import opened Refinement
  import opened PassRefinement
  import opened Guarantees
  import G = GapsStay
  import I = Interleaving
  import P = Protocol
  import S = ProtocolSafety

  /** What the archiver is about: nothing, a pass over a view that stays as it is, or a report to send. */
  datatype Task = Resting | Running(view: Contents) | Holding(report: P.Report)

  /** The node, what the secondary last showed of it, the archive's bytes, and the reports between them. */
  datatype World = World(node: map<Cf, P.Journal>, view: map<Cf, P.Window>, archive: Contents, task: Task,
                         sent: seq<P.Report>, received: set<P.Report>)

  /**
   What happens. The node may take its steps at any time, also between the catch-up of a pass and its end;
   a pass ends with a report, which is then sent or not, or with an error.
   */
  datatype Event =
    | NodeDid(step: P.Step)
    | PassBegan(windows: map<Cf, P.Window>, view: Contents)
    | PassEnded(full: bool, result: Result<PassReport>, after: Contents)
    | ReportSent
    | ReportDropped

  /** The protocol's view of a world, but for an archive that the node never sees. */
  ghost function Stand(w: World): P.State {
    P.State(w.node, w.view, map cf | cf in w.node :: map[], P.Idle, {}, w.sent, w.received)
  }

  ghost predicate Level(w: World) {
    w.node.Keys == w.view.Keys
  }

  /** The view's bytes are the node's entries within these windows, and none is the last there can be. */
  ghost predicate Viewed(node: map<Cf, P.Journal>, windows: map<Cf, P.Window>, journals: set<Cf>, view: Contents) {
    journals == node.Keys == windows.Keys
    && forall cf :: cf in journals ==>
         && cf in view && Encodes(cf, Visible(node[cf], windows[cf]), view[cf])
         && Fits(cf, windows[cf].next) && windows[cf].next + 1 < 0x1_0000_0000_0000_0000
  }

  /** What a pass over this view may return and leave behind. */
  ghost predicate PassLeft(families: seq<Cf>, before: Contents, view: Contents, full: bool, result: Result<PassReport>,
                           after: Contents)
  {
    match result
    case Ok(report) =>
      && Transferred(before, view, full, Members(families), after)
      && Accounts(report, before, view, full, Members(families), after)
      && (forall cf :: cf in JournalsAmong(families) ==> RoomAbove(cf, before))
      && report.gaps == GapsIn(JournalsAmong(families), before, view)
    case Err(_) => Stopped(before, view, full, Members(families), after)
  }

  ghost predicate May(policy: P.Policy, families: seq<Cf>, w: World, e: Event)
    requires Level(w)
  {
    match e
    case NodeDid(step) => I.NodeStep(step) && P.Enabled(policy, Stand(w), step)
    case PassBegan(windows, view) =>
      w.task.Resting? && P.Enabled(policy, Stand(w), P.CatchUp(windows))
      && Viewed(w.node, windows, JournalSet(families), view)
    case PassEnded(full, result, after) =>
      w.task.Running? && PassLeft(families, w.archive, w.task.view, full, result, after)
    case ReportSent => w.task.Holding? && w.task.report != map[]
    case ReportDropped => w.task.Holding?
  }

  ghost function After(policy: P.Policy, families: seq<Cf>, w: World, e: Event): (u: World)
    requires Level(w) && May(policy, families, w, e)
    ensures Level(u)
  {
    match e
    case NodeDid(step) =>
      var t := P.Apply(policy, Stand(w), step);
      w.(node := t.node, received := t.received)
    case PassBegan(windows, view) => w.(view := windows, task := Running(view))
    case PassEnded(_, result, after) =>
      w.(archive := after, task := if result.Ok? then Holding(result.value.watermarks) else Resting)
    case ReportSent => w.(sent := w.sent + [w.task.report], task := Resting)
    case ReportDropped => w.(task := Resting)
  }

  /** These events can happen one after another and lead from `w` to `u`. */
  ghost predicate Lives(policy: P.Policy, families: seq<Cf>, w: World, events: seq<Event>, u: World)
    decreases |events|
  {
    if events == [] then w == u
    else
      && Level(w) && May(policy, families, w, events[0])
      && Lives(policy, families, After(policy, families, w, events[0]), events[1..], u)
  }

  /**
   The gaps between the archive and what a pass saw: those reported, if it finished; if it failed, those
   it logged and those of journals it did not get to, which stand until a later pass finds them.
   */
  ghost function SeenBy(families: seq<Cf>, w: World, e: Event): set<P.Gap> {
    if !e.PassEnded? then {}
    else
      match e.result
      case Ok(report) => Announced(report.gaps)
      case Err(_) => if w.task.Running? then Standing(families, w.archive, w.task.view) else {}
  }

  ghost function Standing(families: seq<Cf>, archive: Contents, view: Contents): set<P.Gap> {
    if forall cf :: cf in JournalsAmong(families) ==> RoomAbove(cf, archive)
    then Announced(GapsIn(JournalsAmong(families), archive, view))
    else {}
  }

  /** The gaps that the passes of a life saw. */
  ghost function Seen(policy: P.Policy, families: seq<Cf>, w: World, events: seq<Event>): set<P.Gap>
    decreases |events|
  {
    if events == [] || !Level(w) || !May(policy, families, w, events[0]) then {}
    else SeenBy(families, w, events[0]) + Seen(policy, families, After(policy, families, w, events[0]), events[1..])
  }

  /** A node with any history, a secondary that may trail it, and an archive without a journal entry. */
  ghost predicate Begins(families: seq<Cf>, w: World) {
    && w.node.Keys == w.view.Keys == JournalSet(families) && w.task.Resting? && w.sent == [] && w.received == {}
    && forall cf :: cf in w.node ==>
         && w.node[cf].Valid() && w.node[cf].origin <= w.view[cf].floor <= w.node[cf].floor
         && w.view[cf].floor <= w.view[cf].next <= w.node[cf].Next()
         && cf in w.archive && w.archive[cf] == map[]
  }

  /**
   One pass of the archiver is one such pass, whether it succeeds or fails. `windows` is what the node
   shows when it starts, should the catch-up work; what the node does before it ends makes no difference.
   */
  method RunPass(source: HeadStore, archive: ArchiveStore, primary: Contents, full: bool,
                 ghost policy: P.Policy, ghost w: World, ghost windows: map<Cf, P.Window>)
    returns (r: Result<PassReport>, ghost began: Event)
    requires AllDifferent(source.families) && forall cf :: cf in source.families ==> RoomAbove(cf, archive.db)
    requires Level(w) && w.task.Resting? && w.archive == archive.db
    requires P.Enabled(policy, Stand(w), P.CatchUp(windows)) && P.Enabled(policy, Stand(w), P.CatchUp(w.view))
    requires Viewed(w.node, windows, JournalSet(source.families), Shown(source.families, primary))
    requires Viewed(w.node, w.view, JournalSet(source.families), source.view)
    modifies source, archive
    ensures began.PassBegan? && May(policy, source.families, w, began) && began.view == source.view
    ensures PassLeft(source.families, w.archive, source.view, full, r, archive.db)
    ensures Viewed(w.node, began.windows, JournalSet(source.families), source.view)
  {
    hide Viewed, Transferred, Accounts, Stopped, RoomAbove, GapsIn, P.Enabled, Shown;
    r := Run(source, archive, primary, full);
    began := PassBegan(if source.view == Shown(source.families, primary) then windows else w.view, source.view);
  }

  // ---- A life is a run of the protocol ----

  /** The protocol's phase is the archiver's task; during a pass it is about the same bytes. */
  ghost predicate SameTask(families: seq<Cf>, s: P.State, w: World)
    requires s.Shaped()
  {
    match w.task
    case Resting => s.phase.Idle?
    case Running(view) => PassUnderway(s, families, w.archive, view)
    case Holding(report) => s.phase == P.Reporting(report)
  }

  /** The protocol is in a state that looks like the world, and its archive is what is stored. */
  ghost predicate Mirrors(families: seq<Cf>, s: P.State, w: World) {
    && s.Shaped() && S.Inv(s) && SameTask(families, s, w)
    && s.node == w.node && s.view == w.view && s.sent == w.sent && s.received == w.received
    && w.node.Keys == JournalSet(families) && Stored(s, JournalSet(families), w.archive)
  }

  lemma BeginningMirrors(families: seq<Cf>, w: World) returns (s: P.State)
    requires Begins(families, w)
    ensures P.Init(s) && Mirrors(families, s, w) && S.OriginOf(s) == OriginOf(w)
  {
    s := Stand(w);
    S.InitInv(s);
  }

  /** A step of the node changes nothing of what a view shows. */
  lemma NodeKeepsRepresented(s: P.State, t: P.State, journals: set<Cf>, archive: Contents, view: Contents)
    requires I.NodeMoved(s, t) && S.Inv(s) && AllRepresented(s, journals, archive, view)
    ensures AllRepresented(t, journals, archive, view)
  {
    hide Encodes, S.Inv;
    forall cf | cf in journals
      ensures Represents(t, cf, archive, view)
    {
      ViewedWithin(s, cf);
      VisibleStays(s.node[cf], t.node[cf], s.view[cf]);
    }
  }

  lemma ViewedWithin(s: P.State, cf: Cf)
    requires S.Inv(s) && cf in s.node
    ensures s.Shaped() && s.node[cf].origin <= s.view[cf].floor && s.view[cf].next <= s.node[cf].Next()
  {
    assert S.JournalInv(s.raised, cf, s.node[cf], s.view[cf], s.archive[cf]);
  }

  lemma VisibleStays(j: P.Journal, k: P.Journal, w: P.Window)
    requires j.origin <= w.floor && w.next <= j.Next()
    requires forall i :: j.Appended(i) ==> k.Appended(i) && k.At(i) == j.At(i)
    ensures Visible(k, w) == Visible(j, w)
  {
  }

  lemma NodeKeepsTask(families: seq<Cf>, s: P.State, w: World, t: P.State, u: World)
    requires Mirrors(families, s, w) && I.NodeMoved(s, t) && S.Inv(t)
    requires u == w.(node := t.node, received := t.received)
    ensures Mirrors(families, t, u)
  {
    hide S.Inv, Encodes, AllRepresented;
    if w.task.Running? {
      NodeKeepsRepresented(s, t, JournalSet(families), w.archive, w.task.view);
    }
  }

  lemma NodeMirrors(policy: P.Policy, families: seq<Cf>, s: P.State, w: World, e: Event)
    returns (steps: seq<P.Step>, t: P.State)
    requires Level(w) && Mirrors(families, s, w) && e.NodeDid? && May(policy, families, w, e)
    ensures P.Leads(policy, s, steps, t) && Mirrors(families, t, After(policy, families, w, e))
    ensures s.Shaped() && G.RaisedAmong(s, SeenBy(families, w, e), t)
  {
    hide S.Inv, P.Enabled, P.Apply, P.Leads, Stored, SameTask, I.NodeMoved, G.RaisedAmong;
    I.NodeStepIsSame(policy, Stand(w), s, e.step);
    t := P.Apply(policy, s, e.step);
    S.StepKeepsInv(policy, s, e.step);
    P.OneStepLeads(policy, s, e.step);
    I.NodeStepMoves(policy, s, e.step);
    NodeKeepsTask(families, s, w, t, After(policy, families, w, e));
    G.NoneRaised(s, t);
    steps := [e.step];
  }

  /** After a catch-up whose bytes are the node's entries, a pass is under way. */
  lemma BeganUnderway(policy: P.Policy, families: seq<Cf>, s: P.State, windows: map<Cf, P.Window>, archive: Contents,
                      view: Contents)
    requires s.Shaped() && s.phase.Idle? && s.node.Keys == JournalSet(families)
    requires Stored(s, JournalSet(families), archive) && Viewed(s.node, windows, JournalSet(families), view)
    requires P.Enabled(policy, s, P.CatchUp(windows)) && S.Inv(P.Apply(policy, s, P.CatchUp(windows)))
    ensures PassUnderway(P.Apply(policy, s, P.CatchUp(windows)), families, archive, view)
  {
    hide S.Inv, Encodes, Visible, Fits;
  }

  lemma CatchUpAlike(policy: P.Policy, s: P.State, w: World, windows: map<Cf, P.Window>)
    requires Level(w) && s.Shaped() && s.node == w.node && s.view == w.view && s.phase.Idle?
    requires P.Enabled(policy, Stand(w), P.CatchUp(windows))
    ensures P.Enabled(policy, s, P.CatchUp(windows))
    ensures P.Apply(policy, s, P.CatchUp(windows))
            == s.(view := windows, phase := P.BetweenJournals(windows.Keys, map[]))
  {
  }

  lemma BeganMirrors(policy: P.Policy, families: seq<Cf>, s: P.State, w: World, e: Event)
    returns (steps: seq<P.Step>, t: P.State)
    requires Level(w) && Mirrors(families, s, w) && e.PassBegan? && May(policy, families, w, e)
    ensures P.Leads(policy, s, steps, t) && Mirrors(families, t, After(policy, families, w, e))
    ensures s.Shaped() && G.RaisedAmong(s, SeenBy(families, w, e), t)
  {
    hide S.Inv, P.Leads, P.Enabled, P.Apply, Encodes, Viewed, PassUnderway, G.RaisedAmong, Announced;
    var catchUp := P.CatchUp(e.windows);
    CatchUpAlike(policy, s, w, e.windows);
    S.StepKeepsInv(policy, s, catchUp);
    P.OneStepLeads(policy, s, catchUp);
    BeganUnderway(policy, families, s, e.windows, w.archive, e.view);
    steps, t := [catchUp], P.Apply(policy, s, catchUp);
    G.NoneRaised(s, t);
  }

  lemma EndedMirrors(policy: P.Policy, families: seq<Cf>, s: P.State, w: World, e: Event)
    returns (steps: seq<P.Step>, t: P.State)
    requires Level(w) && Mirrors(families, s, w) && e.PassEnded? && May(policy, families, w, e)
    ensures P.Leads(policy, s, steps, t) && Mirrors(families, t, After(policy, families, w, e))
    ensures s.Shaped() && G.RaisedAmong(s, SeenBy(families, w, e), t)
  {
    hide S.Inv, P.Leads, Transferred, Accounts, Stopped, Stored, GapsIn, RoomAbove, PassUnderway, FoundIn, G.Skipped,
         SeenBy;
    SeenIsFound(policy, families, s, w, e);
    if e.result.Ok? {
      steps, t := RestRefines(policy, s, families, w.archive, w.task.view, e.full, e.after, e.result.value);
    } else {
      steps, t := StoppedRestRefines(policy, s, families, w.archive, w.task.view, e.full, e.after);
    }
    S.RunKeepsInv(policy, s, steps, t);
    forall g | g in SeenBy(families, w, e)
      ensures G.Skipped(t, g)
    {
      FoundStaysSkipped(policy, s, families, w.archive, w.task.view, steps, t, g);
    }
  }

  lemma FoundStaysSkipped(policy: P.Policy, s: P.State, families: seq<Cf>, before: Contents, view: Contents,
                          steps: seq<P.Step>, t: P.State, g: P.Gap)
    requires PassUnderway(s, families, before, view) && P.Leads(policy, s, steps, t)
    requires g in FoundIn(s, JournalSet(families))
    ensures t.Shaped() && G.Skipped(t, g)
  {
    hide S.Inv, P.Leads, AllRepresented, G.Skipped, P.GapsFound;
    var cf :| cf in JournalSet(families) && g in P.GapsFound(cf, s.archive[cf], s.view[cf]);
    G.FoundIsSkipped(s, cf, g);
    G.RunKeepsSkipped(policy, s, steps, t, g);
  }

  /** What a pass sees over bytes is what the protocol finds. */
  lemma SeenIsFound(policy: P.Policy, families: seq<Cf>, s: P.State, w: World, e: Event)
    requires Level(w) && Mirrors(families, s, w) && e.PassEnded? && May(policy, families, w, e)
    ensures s.Shaped() && PassUnderway(s, families, w.archive, w.task.view) && JournalSet(families) <= s.node.Keys
    ensures SeenBy(families, w, e) == FoundIn(s, JournalSet(families))
  {
    hide S.Inv, Transferred, Accounts, Stopped, Stored, GapsIn, RoomAbove, AllRepresented, Announced, FoundIn;
    StandingIsFound(s, families, w.archive, w.task.view);
  }

  lemma StandingIsFound(s: P.State, families: seq<Cf>, before: Contents, view: Contents)
    requires PassUnderway(s, families, before, view)
    ensures JournalSet(families) <= s.node.Keys
    ensures forall cf :: cf in JournalsAmong(families) ==> RoomAbove(cf, before)
    ensures Announced(GapsIn(JournalsAmong(families), before, view)) == FoundIn(s, JournalSet(families))
    ensures Standing(families, before, view) == FoundIn(s, JournalSet(families))
  {
    hide S.Inv, AllRepresented, P.GapsFound, GapsIn, RoomAbove, Announced;
    RoomForAll(s, JournalSet(families), before, view);
    var journals := JournalsAmong(families);
    forall g
      ensures g in Announced(GapsIn(journals, before, view)) <==> g in FoundIn(s, JournalSet(families))
    {
      GapsByJournal(journals, before, view, g);
      forall cf | cf in journals
        ensures Announced(GapIn(cf, before, view)) == P.GapsFound(cf, s.archive[cf], s.view[cf])
      {
        ThisOneRepresented(s, JournalSet(families), before, view, cf);
        GapsAlike(s, cf, before, view);
      }
    }
  }

  lemma {:induction false} GapsByJournal(journals: seq<Cf>, before: Contents, view: Contents, g: P.Gap)
    requires forall cf :: cf in journals ==> RoomAbove(cf, before)
    ensures g in Announced(GapsIn(journals, before, view)) <==>
            exists cf :: cf in journals && g in Announced(GapIn(cf, before, view))
    decreases |journals|
  {
    hide RoomAbove, GapIn;
    if journals != [] {
      var init, last := journals[..|journals| - 1], journals[|journals| - 1];
      assert last in journals && journals == init + [last];
      GapsByJournal(init, before, view, g);
    }
  }

  lemma ReportMirrors(policy: P.Policy, families: seq<Cf>, s: P.State, w: World, e: Event)
    returns (steps: seq<P.Step>, t: P.State)
    requires Level(w) && Mirrors(families, s, w) && (e.ReportSent? || e.ReportDropped?) && May(policy, families, w, e)
    ensures P.Leads(policy, s, steps, t) && Mirrors(families, t, After(policy, families, w, e))
    ensures s.Shaped() && G.RaisedAmong(s, SeenBy(families, w, e), t)
  {
    hide S.Inv, P.Leads, Encodes, G.RaisedAmong;
    var step := if e.ReportSent? then P.SendReport else P.Stop;
    t := P.Apply(policy, s, step);
    S.StepKeepsInv(policy, s, step);
    P.OneStepLeads(policy, s, step);
    G.NoneRaised(s, t);
    steps := [step];
  }

  lemma {:induction false} LifeRefines(policy: P.Policy, families: seq<Cf>, s: P.State, w: World, events: seq<Event>,
                                       u: World)
    returns (steps: seq<P.Step>, t: P.State)
    requires Mirrors(families, s, w) && Lives(policy, families, w, events, u)
    ensures s.Shaped() && t.Shaped() && P.Leads(policy, s, steps, t) && Mirrors(families, t, u)
    ensures G.RaisedAmong(s, Seen(policy, families, w, events), t)
    decreases |events|
  {
    hide May, After, P.Leads, S.Inv, Stored, SameTask, SeenBy, G.RaisedAmong;
    if events == [] {
      steps, t := [], s;
      NoStepsLead(policy, s);
      G.NoneRaised(s, s);
    } else {
      var first, mid;
      match events[0] {
        case NodeDid(_) => first, mid := NodeMirrors(policy, families, s, w, events[0]);
        case PassBegan(_, _) => first, mid := BeganMirrors(policy, families, s, w, events[0]);
        case PassEnded(_, _, _) => first, mid := EndedMirrors(policy, families, s, w, events[0]);
        case _ => first, mid := ReportMirrors(policy, families, s, w, events[0]);
      }
      var rest;
      rest, t := LifeRefines(policy, families, mid, After(policy, families, w, events[0]), events[1..], u);
      P.LeadsConcat(policy, s, first, mid, rest, t);
      G.RaisedMore(policy, s, SeenBy(families, w, events[0]), mid, rest,
                   Seen(policy, families, After(policy, families, w, events[0]), events[1..]), t);
      steps := first + rest;
    }
  }

  lemma NoStepsLead(policy: P.Policy, s: P.State)
    requires s.Shaped()
    ensures P.Leads(policy, s, [], s)
  {
  }

  // ---- What a life keeps ----

  /** What the secondary first showed, and the node's own floors at that moment. */
  ghost function OriginOf(w: World): S.Origin {
    S.Origin(w.view, map cf | cf in w.node :: w.node[cf].floor)
  }

  /**
   While the node deletes only under reports it received: after any appends, deletions, deliveries and
   passes, successful or stopped, with their reports sent or not, every entry the node has deleted since
   the archive began is stored in it, byte for byte under its own key.
   */
  lemma LifeLosesNothing(families: seq<Cf>, w: World, events: seq<Event>, u: World)
    requires Begins(families, w) && Lives(P.WatermarkOnly, families, w, events, u)
    ensures DeletedAreStored(u.node, OriginOf(w).floor, u.archive)
  {
    hide Begins, Lives, P.Init, P.Leads, S.Inv, Stored, DeletedAreStored, SameTask;
    var s := BeginningMirrors(families, w);
    var steps, t := LifeRefines(P.WatermarkOnly, families, s, w, events, u);
    SafelyStored(s, steps, t, JournalSet(families), u.archive);
  }

  /**
   Nor does it matter how the node's steps fall between the batches of a pass. Let node and archiver go
   on from such a life in any order, up to the next catch-up: whatever stores the archive then, even
   halfway through a pass, stores every deleted entry; and the archiver might as well have gone first.
   */
  lemma InterleavedLifeLosesNothing(families: seq<Cf>, w: World, events: seq<Event>, u: World)
    returns (history: seq<P.Step>, s: P.State)
    requires Begins(families, w) && Lives(P.WatermarkOnly, families, w, events, u)
    ensures Mirrors(families, s, u) && s.Shaped()
    ensures forall steps, t, archive :: Continues(families, s, steps, t, archive) ==>
              && P.Leads(P.WatermarkOnly, s, I.ArchiverSteps(steps) + I.NodeSteps(steps), t)
              && DeletedAreStored(t.node, OriginOf(w).floor, archive)
  {
    hide Begins, Lives, P.Init, P.Leads, S.Inv, Stored, DeletedAreStored, SameTask;
    var origin := BeginningMirrors(families, w);
    history, s := LifeRefines(P.WatermarkOnly, families, origin, w, events, u);
    forall steps, t, archive | Continues(families, s, steps, t, archive)
      ensures P.Leads(P.WatermarkOnly, s, I.ArchiverSteps(steps) + I.NodeSteps(steps), t)
      ensures DeletedAreStored(t.node, OriginOf(w).floor, archive)
    {
      I.NodeMayWait(P.WatermarkOnly, s, steps, t);
      P.LeadsConcat(P.WatermarkOnly, origin, history, s, steps, t);
      RunsKeepJournals(P.WatermarkOnly, s, steps, t);
      SafelyStored(origin, history + steps, t, JournalSet(families), archive);
    }
  }

  /** Any steps of node and archiver but a catch-up, and bytes that store the archive they lead to. */
  ghost predicate Continues(families: seq<Cf>, s: P.State, steps: seq<P.Step>, t: P.State, archive: Contents)
    requires s.Shaped()
  {
    && t.Shaped() && P.Leads(P.WatermarkOnly, s, steps, t)
    && (forall i :: 0 <= i < |steps| ==> !steps[i].CatchUp?)
    && Stored(t, JournalSet(families), archive)
  }

  /** Nor does any pass in such a life announce a gap, but among entries deleted before the archive began. */
  lemma LifeFindsOldGaps(families: seq<Cf>, w: World, events: seq<Event>, u: World, e: Event)
    requires Begins(families, w) && Lives(P.WatermarkOnly, families, w, events, u)
    requires Level(u) && e.PassEnded? && e.result.Ok? && May(P.WatermarkOnly, families, u, e)
    ensures S.OldGaps(OriginOf(w), Announced(e.result.value.gaps))
  {
    hide Begins, Lives, P.Init, P.Leads, S.Inv, Stored, PassUnderway, GapIn, RoomAbove, Transferred, Accounts,
         Announced, S.OldGaps, S.Guarded;
    var s := BeginningMirrors(families, w);
    var steps, t := LifeRefines(P.WatermarkOnly, families, s, w, events, u);
    S.InitGuarded(s);
    S.RunKeepsGuarded(s, OriginOf(w), steps, t);
    forall cf | cf in JournalsAmong(families)
      ensures RoomAbove(cf, u.archive) && S.OldGaps(OriginOf(w), Announced(GapIn(cf, u.archive, u.task.view)))
    {
      GapsUnderwayAreOld(t, OriginOf(w), families, u.archive, u.task.view, cf);
    }
    AllGapsAreOld(JournalsAmong(families), u.archive, u.task.view, OriginOf(w));
  }

  lemma AllGapsAreOld(journals: seq<Cf>, before: Contents, view: Contents, o: S.Origin)
    requires forall cf :: cf in journals ==>
               RoomAbove(cf, before) && S.OldGaps(o, Announced(GapIn(cf, before, view)))
    ensures S.OldGaps(o, Announced(GapsIn(journals, before, view)))
  {
    hide RoomAbove, GapIn, GapsIn, S.OldGap, Announced;
    forall g | g in Announced(GapsIn(journals, before, view))
      ensures S.OldGap(o, g)
    {
      GapsByJournal(journals, before, view, g);
    }
  }

  /** In particular none, if no first view trails by as much as a first commit. */
  lemma LifeFindsNoGap(families: seq<Cf>, w: World, events: seq<Event>, u: World, e: Event)
    requires Begins(families, w) && Lives(P.WatermarkOnly, families, w, events, u)
    requires Level(u) && e.PassEnded? && e.result.Ok? && May(P.WatermarkOnly, families, u, e)
    requires forall cf :: cf in w.node ==> w.node[cf].floor <= S.FirstReach(w.view[cf])
    ensures e.result.value.gaps == []
  {
    hide Lives, May, S.OldGaps;
    LifeFindsOldGaps(families, w, events, u, e);
    NothingIsOld(OriginOf(w), e.result.value.gaps);
  }

  lemma NothingIsOld(o: S.Origin, gaps: seq<P.Gap>)
    requires S.OldGaps(o, Announced(gaps))
    requires forall cf :: cf in o.shown && cf in o.floor ==> o.floor[cf] <= S.FirstReach(o.shown[cf])
    ensures gaps == []
  {
    hide S.FirstReach, Announced;
    NothingAnnounced(gaps);
    assert forall g :: g in Announced(gaps) ==> S.OldGap(o, g);
  }

  lemma NothingAnnounced(gaps: seq<P.Gap>)
    ensures Announced(gaps) == {} ==> gaps == []
  {
    if gaps != [] {
      assert gaps[0] in Announced(gaps);
    }
  }

  /** Whatever the node deletes: every report sent is still covered by the archive's bytes, and reports never fall. */
  lemma LifeReportsHold(policy: P.Policy, families: seq<Cf>, w: World, events: seq<Event>, u: World)
    requires Begins(families, w) && Lives(policy, families, w, events, u)
    ensures forall k, cf :: 0 <= k < |u.sent| && cf in u.sent[k] ==>
              TipOf(cf, u.archive).Ok? && TipOf(cf, u.archive).value.Some?
              && u.sent[k][cf] <= TipOf(cf, u.archive).value.value
    ensures forall k, l :: 0 <= k < l < |u.sent| ==> S.NoHigher(u.sent[k], u.sent[l])
  {
    hide Begins, Lives, P.Init, P.Leads, S.Inv, Stored, TipOf, S.NoHigher, P.Tip, SameTask;
    var s := BeginningMirrors(families, w);
    var steps, t := LifeRefines(policy, families, s, w, events, u);
    S.WatermarksAreSound(policy, s, steps, t);
    forall k, cf | 0 <= k < |u.sent| && cf in u.sent[k]
      ensures TipOf(cf, u.archive).Ok? && TipOf(cf, u.archive).value.Some?
              && u.sent[k][cf] <= TipOf(cf, u.archive).value.value
    {
      assert S.Honoured(t.archive, u.sent[k]);
      StoredTip(t, families, u.archive, cf);
    }
  }
}
