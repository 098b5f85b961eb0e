/** What the archiver promises, stated of the bytes its passes store. */
module Guarantees {
  import opened Families
  import opened Journals
  import opened OrderedStore
  import opened Stores
  import opened Pass
  import opened Refinement
  import opened PassRefinement
  import P = Protocol
  import S = ProtocolSafety

  /** The `i`th entry of the journal was appended and is stored under its key as it was. */
  ghost predicate EntryStored(cf: Cf, j: P.Journal, i: nat, archive: Contents) {
    && j.Appended(i) && Fits(cf, i)
    && cf in archive && Key(cf, i) in archive[cf] && archive[cf][Key(cf, i)] == j.At(i)
  }

  /** Every entry the node has deleted, from `start` on, is stored under its key as it was appended. */
  ghost predicate DeletedAreStored(node: map<Cf, P.Journal>, start: map<Cf, nat>, archive: Contents) {
    forall cf, i: nat :: cf in node && cf in start && start[cf] <= i < node[cf].floor ==>
      EntryStored(cf, node[cf], i, archive)
  }

  lemma StoredKeepsDeleted(t: P.State, journals: set<Cf>, archive: Contents, start: map<Cf, nat>, cf: Cf, i: nat)
    requires t.Shaped() && t.node.Keys == journals == start.Keys
    requires S.Inv(t) && S.NothingLost(t, start) && Stored(t, journals, archive)
    requires cf in t.node && start[cf] <= i < t.node[cf].floor
    ensures EntryStored(cf, t.node[cf], i, archive)
  {
    assert i < t.node[cf].Next() by {
      assert S.JournalInv(t.raised, cf, t.node[cf], t.view[cf], t.archive[cf]);
    }
    hide S.Inv, Encodes, Key;
    EncodedEntry(cf, t.archive[cf], archive[cf], i);
  }

  /** A protocol state reached under the node's rule, whose archive is what is stored. */
  lemma SafelyStored(s: P.State, history: seq<P.Step>, t: P.State, journals: set<Cf>, archive: Contents)
    requires P.Init(s) && P.Leads(P.WatermarkOnly, s, history, t)
    requires t.Shaped() && t.node.Keys == journals == s.node.Keys && Stored(t, journals, archive)
    ensures DeletedAreStored(t.node, S.OriginOf(s).floor, archive)
  {
    hide P.Init, P.Leads, S.Inv, S.NothingLost, Stored, EntryStored, S.OldGaps;
    S.InitIsShaped(s);
    S.NoLoss(s, history, t);
    S.ReachableInv(P.WatermarkOnly, s, history, t);
    var node, start := t.node, S.OriginOf(s).floor;
    forall cf, i: nat | cf in node && cf in start && start[cf] <= i < node[cf].floor
      ensures EntryStored(cf, node[cf], i, archive)
    {
      StoredKeepsDeleted(t, journals, archive, start, cf, i);
    }
  }

  /**
   From any state the system reaches while the node deletes only under watermarks: a pass announces no
   gap but among entries the node had deleted before the archive began, and when it succeeds every entry
   deleted since is in the archive, byte for byte.
   */
  lemma PassLosesNothing(origin: P.State, history: seq<P.Step>, s: P.State, windows: map<Cf, P.Window>,
                         families: seq<Cf>,
                         before: Contents, view: Contents, full: bool, after: Contents, report: PassReport)
    requires P.Init(origin) && P.Leads(P.WatermarkOnly, origin, history, s)
    requires PassBegins(P.WatermarkOnly, s, windows, families, before, view)
    requires Transferred(before, view, full, Members(families), after)
    requires Accounts(report, before, view, full, Members(families), after)
    ensures forall cf :: cf in JournalSet(families) ==>
              RoomAbove(cf, before) && S.OldGaps(S.OriginOf(origin), Announced(GapIn(cf, before, view)))
    ensures DeletedAreStored(s.node, S.OriginOf(origin).floor, after)
  {
    hide P.Init, P.Leads, PassBegins, Transferred, Accounts, Stored, DeletedAreStored, GapIn, RoomAbove, S.OldGaps;
    BeginsOnJournals(P.WatermarkOnly, s, windows, families, before, view);
    var steps, t := PassRefines(P.WatermarkOnly, s, windows, families, before, view, full, after, report);
    S.InitIsShaped(origin);
    RunsKeepJournals(P.WatermarkOnly, origin, history, s);
    RunsKeepJournals(P.WatermarkOnly, s, steps, t);
    P.LeadsConcat(P.WatermarkOnly, origin, history, s, steps, t);
    SafelyStored(origin, history + steps, t, JournalSet(families), after);
    forall cf | cf in JournalSet(families)
      ensures RoomAbove(cf, before) && S.OldGaps(S.OriginOf(origin), Announced(GapIn(cf, before, view)))
    {
      GapsUnderGuardAreOld(origin, history, s, windows, families, before, view, cf);
    }
  }

  /** A pass that fails, wherever it fails, leaves that promise standing. */
  lemma StoppedPassLosesNothing(origin: P.State, history: seq<P.Step>, s: P.State, windows: map<Cf, P.Window>,
                                families: seq<Cf>,
                                before: Contents, view: Contents, full: bool, after: Contents)
    requires P.Init(origin) && P.Leads(P.WatermarkOnly, origin, history, s)
    requires PassBegins(P.WatermarkOnly, s, windows, families, before, view)
    requires Stopped(before, view, full, Members(families), after)
    ensures DeletedAreStored(s.node, S.OriginOf(origin).floor, after)
  {
    hide P.Init, P.Leads, PassBegins, Stopped, Stored, DeletedAreStored, S.Inv;
    BeginsOnJournals(P.WatermarkOnly, s, windows, families, before, view);
    var steps, t := StoppedPassRefines(P.WatermarkOnly, s, windows, families, before, view, full, after);
    S.InitIsShaped(origin);
    RunsKeepJournals(P.WatermarkOnly, origin, history, s);
    RunsKeepJournals(P.WatermarkOnly, s, steps, t);
    P.LeadsConcat(P.WatermarkOnly, origin, history, s, steps, t);
    SafelyStored(origin, history + steps, t, JournalSet(families), after);
  }

  lemma {:induction false} RunsKeepJournals(policy: P.Policy, s: P.State, steps: seq<P.Step>, t: P.State)
    requires s.Shaped() && P.Leads(policy, s, steps, t)
    ensures t.Shaped() && t.node.Keys == s.node.Keys
    decreases |steps|
  {
    if steps != [] {
      RunsKeepJournals(policy, P.Apply(policy, s, steps[0]), steps[1..], t);
    }
  }

  /** While the node keeps to its rule, a pass finds only gaps from before the archive began. */
  lemma GapsUnderGuardAreOld(origin: P.State, history: seq<P.Step>, s: P.State, windows: map<Cf, P.Window>,
                             families: seq<Cf>, before: Contents, view: Contents, cf: Cf)
    requires P.Init(origin) && P.Leads(P.WatermarkOnly, origin, history, s)
    requires PassBegins(P.WatermarkOnly, s, windows, families, before, view) && cf in JournalSet(families)
    ensures RoomAbove(cf, before) && S.OldGaps(S.OriginOf(origin), Announced(GapIn(cf, before, view)))
  {
    hide P.Init, P.Leads, S.Inv, PassBegins, AllRepresented, GapIn, RoomAbove, S.GuardedJournals, P.Apply, P.Enabled,
         S.OldGaps;
    S.InitIsShaped(origin);
    CaughtUpState(P.WatermarkOnly, s, windows, families, before, view);
    var o := S.OriginOf(origin);
    S.InitGuarded(origin);
    S.RunKeepsGuarded(origin, o, history, s);
    S.StepKeepsGuarded(s, o, P.CatchUp(windows));
    GapsUnderwayAreOld(P.Apply(P.WatermarkOnly, s, P.CatchUp(windows)), o, families, before, view, cf);
  }

  lemma GapsUnderwayAreOld(s: P.State, o: S.Origin, families: seq<Cf>, before: Contents, view: Contents, cf: Cf)
    requires S.Guarded(s, o) && PassUnderway(s, families, before, view) && cf in JournalSet(families)
    ensures RoomAbove(cf, before) && S.OldGaps(o, Announced(GapIn(cf, before, view)))
  {
    hide S.Inv, AllRepresented, GapIn, RoomAbove, S.GuardedJournals, P.GapsFound, S.OldGaps;
    RoomForAll(s, JournalSet(families), before, view);
    ThisOneRepresented(s, JournalSet(families), before, view, cf);
    GuardedHere(s, o, cf);
    GapsAlike(s, cf, before, view);
  }

  lemma ThisOneRepresented(s: P.State, journals: set<Cf>, before: Contents, view: Contents, cf: Cf)
    requires AllRepresented(s, journals, before, view) && cf in journals
    ensures s.Shaped() && cf in s.node && Represents(s, cf, before, view)
  {
  }

  lemma GuardedHere(s: P.State, o: S.Origin, cf: Cf)
    requires S.Guarded(s, o) && cf in s.node
    ensures s.Shaped() && S.OldGaps(o, P.GapsFound(cf, s.archive[cf], s.view[cf]))
  {
    hide S.OldGaps;
    assert S.JournalInv(s.raised, cf, s.node[cf], s.view[cf], s.archive[cf]);
    S.GuardedFindsOldGaps(o, cf, s.raised, s.node[cf], s.view[cf], s.archive[cf]);
  }

  // ---- One moment ----

  /** The archive agrees with the view wherever the view holds something, and elsewhere is unchanged. */
  ghost predicate Overlaid(before: Kv, view: Kv, after: Kv) {
    && (forall k :: k in view ==> k in after && after[k] == view[k])
    && (forall k :: k !in view ==> (k in after <==> k in before) && (k in before ==> after[k] == before[k]))
  }

  /**
   After a full pass, however the node trimmed and however many passes failed before it, every family of
   the archive agrees with what the node's store held at the one catch-up of the pass, and keeps what that lacks.
   */
  lemma FullPassIsOneMoment(policy: P.Policy, origin: P.State, history: seq<P.Step>, s: P.State,
                            windows: map<Cf, P.Window>, families: seq<Cf>, primary: Contents,
                            before: Contents, view: Contents, after: Contents, report: PassReport, cf: Cf)
    requires P.Init(origin) && P.Leads(policy, origin, history, s)
    requires PassBegins(policy, s, windows, families, before, view) && view == Shown(families, primary)
    requires Transferred(before, view, true, Members(families), after)
    requires Accounts(report, before, view, true, Members(families), after)
    requires cf in families && cf in before && cf in primary
    ensures cf in after && Overlaid(before[cf], primary[cf], after[cf])
  {
    assert cf in view && view[cf] == primary[cf];
    if cf.IsJournal() {
      JournalIsOneMoment(policy, origin, history, s, windows, families, before, view, after, report, cf);
    } else {
      CopiedFamilyIsUnion(before[cf], view[cf]);
    }
  }

  lemma JournalIsOneMoment(policy: P.Policy, origin: P.State, history: seq<P.Step>, s: P.State,
                           windows: map<Cf, P.Window>, families: seq<Cf>,
                           before: Contents, view: Contents, after: Contents, report: PassReport, cf: Cf)
    requires P.Init(origin) && P.Leads(policy, origin, history, s)
    requires PassBegins(policy, s, windows, families, before, view)
    requires Transferred(before, view, true, Members(families), after)
    requires Accounts(report, before, view, true, Members(families), after)
    requires cf in families && cf in before && cf in view && cf.IsJournal()
    ensures cf in after && Overlaid(before[cf], view[cf], after[cf])
  {
    hide P.Init, P.Leads, PassBegins, Transferred, Accounts, Stored, Represents, AllRepresented, S.Inv, P.Apply,
         P.Enabled, Overlaid, Encodes, Visible;
    var journals := JournalSet(families);
    BeginsOnJournals(policy, s, windows, families, before, view);
    CaughtUpState(policy, s, windows, families, before, view);
    ThisOneRepresented(P.Apply(policy, s, P.CatchUp(windows)), journals, before, view, cf);
    var steps, t := PassRefines(policy, s, windows, families, before, view, true, after, report);
    S.InitIsShaped(origin);
    RunsKeepJournals(policy, origin, history, s);
    RunsKeepJournals(policy, s, steps, t);
    P.LeadsConcat(policy, origin, history, s, steps, t);
    ThisOneStored(t, journals, after, cf);
    RepresentedWindow(P.Apply(policy, s, P.CatchUp(windows)), cf, before, view);
    forall i | windows[cf].floor <= i < windows[cf].next
      ensures i in t.archive[cf] && t.archive[cf][i] == ValueAt(t.node[cf], i)
    {
      S.FinishedPassHoldsItsView(policy, origin, history + steps, t, cf, i);
    }
    ViewIsHeld(cf, t.node[cf], windows[cf], t.archive[cf], view[cf], after[cf]);
    RestIsKept(cf, before, view, after, Members(families));
    OverlaidInParts(before[cf], view[cf], after[cf]);
  }

  lemma OverlaidInParts(before: Kv, view: Kv, after: Kv)
    requires forall k :: k in view ==> k in after && after[k] == view[k]
    requires forall k :: k !in view ==> (k in after <==> k in before) && (k in before ==> after[k] == before[k])
    ensures Overlaid(before, view, after)
  {
  }

  lemma ThisOneStored(t: P.State, journals: set<Cf>, after: Contents, cf: Cf)
    requires Stored(t, journals, after) && cf in journals
    ensures t.Shaped() && cf in t.node && cf in after && Encodes(cf, t.archive[cf], after[cf])
  {
  }

  lemma RepresentedWindow(s: P.State, cf: Cf, archive: Contents, view: Contents)
    requires s.Shaped() && cf in s.node && Represents(s, cf, archive, view)
    ensures cf in view && Encodes(cf, Visible(s.node[cf], s.view[cf]), view[cf])
  {
  }

  lemma ViewIsHeld(cf: Cf, j: P.Journal, w: P.Window, copies: P.Copies, view: Kv, after: Kv)
    requires Encodes(cf, Visible(j, w), view) && Encodes(cf, copies, after)
    requires forall i :: w.floor <= i < w.next ==> i in copies && copies[i] == ValueAt(j, i)
    ensures forall k :: k in view ==> k in after && after[k] == view[k]
  {
    hide Encodes, Key, DecodeKey, ValueAt;
    forall k | k in view
      ensures k in after && after[k] == view[k]
    {
      EncodedKey(cf, Visible(j, w), view, k);
      var i := DecodeKey(cf, k).value;
      EncodedEntry(cf, Visible(j, w), view, i);
      EncodedEntry(cf, copies, after, i);
    }
  }

  lemma RestIsKept(cf: Cf, before: Contents, view: Contents, after: Contents, all: set<Cf>)
    requires Transferred(before, view, true, all, after) && cf in before && cf in view && cf in all && cf.IsJournal()
    ensures forall k :: k !in view[cf] ==>
              (k in after[cf] <==> k in before[cf]) && (k in before[cf] ==> after[cf][k] == before[cf][k])
  {
    var rows := RowsFor(cf, before, view, true);
    assert forall i :: 0 <= i < |rows| ==> rows[i].0 in view[cf] && rows[i].1 == view[cf][rows[i].0];
    hide RowsFor;
    forall k | k !in view[cf]
      ensures (k in after[cf] <==> k in before[cf]) && (k in before[cf] ==> after[cf][k] == before[cf][k])
    {
      PutAllCopies(before[cf], rows, view[cf], k);
    }
  }
}
