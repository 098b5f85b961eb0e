/** The main loop lives such a life: its passes are the passes of it, and its bodies the reports sent. */
module LoopLife {
  import opened Families
  import opened OrderedStore
  import opened Pass
  import opened Guarantees
  import opened Lifetime
  import L = ArchiverLoop
  import P = Protocol

  /**
   A story in which these passes of the loop follow one another. All else in it, the node's steps and the
   catch-ups, happens as it may. With `send` every report that names something is sent.
   */
  ghost predicate Tells(policy: P.Policy, families: seq<Cf>, send: bool, w: World, events: seq<Event>,
                        passes: seq<L.PassRun>, u: World)
    decreases |events|
  {
    if events == [] then passes == [] && w == u
    else if !Level(w) then false
    else if events[0].PassEnded? then
      && passes != [] && w.task == Running(passes[0].view)
      && events[0] == PassEnded(passes[0].full, passes[0].result, passes[0].after)
      && Tells(policy, families, send, Ended(w, passes[0]), events[1..], passes[1..], u)
    else
      && May(policy, families, w, events[0])
      && (send && events[0].ReportDropped? ==> w.task.report == map[])
      && Tells(policy, families, send, After(policy, families, w, events[0]), events[1..], passes, u)
  }

  /** The world after a pass of the loop. */
  ghost function Ended(w: World, pass: L.PassRun): World {
    w.(archive := pass.after, task := if pass.result.Ok? then Holding(pass.result.value.watermarks) else Resting)
  }

  /** The first of a chain of passes begins with the archive the chain begins with. */
  lemma {:induction false} ChainFront(families: seq<Cf>, start: Contents, passes: seq<L.PassRun>, end: Contents)
    requires L.Chained(families, start, passes, end) && passes != []
    ensures passes[0].before == start && passes[0].Ran(families)
    ensures L.Chained(families, passes[0].after, passes[1..], end)
    decreases |passes|
  {
    hide L.PassRun.Ran;
    var init, last := passes[..|passes| - 1], passes[|passes| - 1];
    if init == [] {
      assert passes[1..] == [];
    } else {
      ChainFront(families, start, init, last.before);
      assert passes[1..][..|passes[1..]| - 1] == init[1..];
    }
  }

  lemma RanLeaves(families: seq<Cf>, pass: L.PassRun)
    requires pass.Ran(families)
    ensures PassLeft(families, pass.before, pass.view, pass.full, pass.result, pass.after)
  {
    hide L.Roomy, Transferred, Accounts, Stopped, RoomAbove, GapsIn;
  }

  /** Only the end of a pass changes the archive. */
  lemma OthersKeepArchive(policy: P.Policy, families: seq<Cf>, w: World, e: Event)
    requires Level(w) && May(policy, families, w, e) && !e.PassEnded?
    ensures After(policy, families, w, e).archive == w.archive
  {
  }

  lemma LoopPassMay(policy: P.Policy, families: seq<Cf>, w: World, pass: L.PassRun)
    requires Level(w) && w.task == Running(pass.view) && pass.before == w.archive && pass.Ran(families)
    ensures var e := PassEnded(pass.full, pass.result, pass.after);
            May(policy, families, w, e) && After(policy, families, w, e) == Ended(w, pass)
  {
    hide L.PassRun.Ran, PassLeft;
    RanLeaves(families, pass);
  }

  /** Whatever story the loop's passes are part of, it is a life, and its archive is the loop's. */
  lemma {:induction false} LoopLives(policy: P.Policy, families: seq<Cf>, send: bool, w: World, events: seq<Event>,
                                     passes: seq<L.PassRun>, u: World, end: Contents)
    requires Tells(policy, families, send, w, events, passes, u) && L.Chained(families, w.archive, passes, end)
    ensures Lives(policy, families, w, events, u) && u.archive == end
    decreases |events|
  {
    hide May, After, L.PassRun.Ran;
    if events != [] {
      var e := events[0];
      if e.PassEnded? {
        ChainFront(families, w.archive, passes, end);
        hide L.Chained;
        LoopPassMay(policy, families, w, passes[0]);
        LoopLives(policy, families, send, Ended(w, passes[0]), events[1..], passes[1..], u, end);
      } else {
        OthersKeepArchive(policy, families, w, e);
        LoopLives(policy, families, send, After(policy, families, w, e), events[1..], passes, u, end);
      }
    }
  }

  // ---- The reports sent are the bodies ----

  /** The reports of the finished passes that name something, in order. */
  function Reports(passes: seq<L.PassRun>): seq<P.Report> {
    if passes == [] then [] else ReportOf(passes[0]) + Reports(passes[1..])
  }

  function ReportOf(pass: L.PassRun): seq<P.Report> {
    if pass.result.Ok? && pass.result.value.watermarks != map[] then [pass.result.value.watermarks] else []
  }

  function Pending(w: World): seq<P.Report> {
    if w.task.Holding? && w.task.report != map[] then [w.task.report] else []
  }

  lemma OthersSend(policy: P.Policy, families: seq<Cf>, w: World, e: Event)
    requires Level(w) && May(policy, families, w, e) && !e.PassEnded?
    requires e.ReportDropped? ==> w.task.report == map[]
    ensures var u := After(policy, families, w, e); u.sent + Pending(u) == w.sent + Pending(w)
  {
  }

  lemma PassLeavesPending(w: World, passes: seq<L.PassRun>)
    requires passes != [] && w.task.Running?
    ensures var u := Ended(w, passes[0]);
            u.sent + Pending(u) + Reports(passes[1..]) == w.sent + Pending(w) + Reports(passes)
  {
    hide Pending, ReportOf, Ended, Reports;
    PendingIsReport(w, passes[0]);
    FirstReport(passes);
    var first, rest := ReportOf(passes[0]), Reports(passes[1..]);
    assert w.sent + [] + (first + rest) == w.sent + first + rest;
  }

  lemma FirstReport(passes: seq<L.PassRun>)
    requires passes != []
    ensures Reports(passes) == ReportOf(passes[0]) + Reports(passes[1..])
  {
    hide ReportOf;
  }

  lemma PendingIsReport(w: World, pass: L.PassRun)
    requires w.task.Running?
    ensures Ended(w, pass).sent == w.sent && Pending(Ended(w, pass)) == ReportOf(pass) && Pending(w) == []
  {
  }

  /** When every report is sent, those sent are the reports of the loop's passes, in order. */
  lemma {:induction false} LoopSends(policy: P.Policy, families: seq<Cf>, w: World, events: seq<Event>,
                                     passes: seq<L.PassRun>, u: World)
    requires Tells(policy, families, true, w, events, passes, u)
    ensures u.sent + Pending(u) == w.sent + Pending(w) + Reports(passes)
    decreases |events|
  {
    hide May, After, Pending, Reports, Ended;
    if events == [] {
      NothingToReport(w.sent + Pending(w));
    } else if events[0].PassEnded? {
      LoopSends(policy, families, Ended(w, passes[0]), events[1..], passes[1..], u);
      PassLeavesPending(w, passes);
    } else {
      OthersSend(policy, families, w, events[0]);
      LoopSends(policy, families, After(policy, families, w, events[0]), events[1..], passes, u);
    }
  }

  lemma NothingToReport(sent: seq<P.Report>)
    ensures sent + Reports([]) == sent
  {
  }

  /** The body says of every family by name what the report says of it, and nothing else. */
  ghost predicate Names(body: L.WatermarkReport, report: P.Report) {
    && (forall cf :: cf in report ==> cf.Name() in body && body[cf.Name()] == report[cf])
    && forall name :: name in body ==>
         Cf.Parse(name).Some? && Cf.Parse(name).value in report && report[Cf.Parse(name).value] == body[name]
  }

  lemma {:induction false} ReportsMore(passes: seq<L.PassRun>, last: L.PassRun)
    ensures Reports(passes + [last]) == Reports(passes) + ReportOf(last)
    decreases |passes|
  {
    hide ReportOf;
    if passes == [] {
      assert passes + [last] == [last] && [last][1..] == [];
      assert ReportOf(last) + [] == ReportOf(last);
    } else {
      assert (passes + [last])[1..] == passes[1..] + [last];
      ReportsMore(passes[1..], last);
    }
  }

  lemma OneNamed(pass: L.PassRun)
    requires pass.Named() && pass.result.Ok?
    ensures Names(L.FromPass(pass.result.value), pass.result.value.watermarks)
    ensures L.FromPass(pass.result.value) == map[] <==> pass.result.value.watermarks == map[]
  {
    var body, report := L.FromPass(pass.result.value), pass.result.value.watermarks;
    assert report != map[] ==> exists cf :: cf in report && cf.Name() in body;
    assert body != map[] ==> exists name :: name in body && Cf.Parse(name).value in report;
  }

  /** The bodies the loop sends are those reports, family for family. */
  lemma {:induction false} BodiesNameReports(passes: seq<L.PassRun>)
    requires L.WellNamed(passes)
    ensures |L.Bodies(passes)| == |Reports(passes)|
    ensures forall k :: 0 <= k < |L.Bodies(passes)| ==> Names(L.Bodies(passes)[k], Reports(passes)[k])
    decreases |passes|
  {
    hide Names, L.FromPass, L.Bodies, Reports;
    if passes == [] {
      NothingNamed();
    } else {
      var init, last := passes[..|passes| - 1], passes[|passes| - 1];
      assert L.WellNamed(init) && last in passes;
      assert passes == init + [last];
      BodiesNameReports(init);
      ReportsMore(init, last);
      L.BodiesOfMore(init, last);
      if last.result.Ok? {
        OneNamed(last);
      }
    }
  }

  lemma NothingNamed()
    ensures L.Bodies([]) == [] && Reports([]) == []
  {
  }

  /**
   What the main loop does, told with a node that deletes only under the reports it received: every entry
   deleted since the archive began is in the archive that the loop leaves, and the reports are its bodies.
   */
  lemma LoopLosesNothing(families: seq<Cf>, w: World, events: seq<Event>, passes: seq<L.PassRun>, u: World,
                         end: Contents)
    requires Begins(families, w) && Tells(P.WatermarkOnly, families, true, w, events, passes, u)
    requires L.Chained(families, w.archive, passes, end) && L.WellNamed(passes)
    ensures u.archive == end && DeletedAreStored(u.node, OriginOf(w).floor, end)
    ensures u.sent + Pending(u) == Reports(passes) && |L.Bodies(passes)| == |Reports(passes)|
    ensures forall k :: 0 <= k < |L.Bodies(passes)| ==> Names(L.Bodies(passes)[k], Reports(passes)[k])
  {
    hide Tells, Lives, L.Chained, DeletedAreStored, Reports, Names, L.WellNamed, L.Bodies;
    LoopLives(P.WatermarkOnly, families, true, w, events, passes, u, end);
    LifeLosesNothing(families, w, events, u);
    LoopSends(P.WatermarkOnly, families, w, events, passes, u);
    assert w.sent + Pending(w) + Reports(passes) == Reports(passes);
    BodiesNameReports(passes);
  }
}
