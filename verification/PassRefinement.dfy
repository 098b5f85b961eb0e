/** Whole passes over stored bytes are runs of the protocol, so what the protocol keeps, they keep. */
module PassRefinement {
  import opened Families
  import opened Journals
  import opened OrderedStore
  import opened Outcomes
  import opened Stores
  import opened Pass
  import opened Refinement
  import P = Protocol
  import S = ProtocolSafety

  ghost predicate AllRepresented(s: P.State, journals: set<Cf>, archive: Contents, view: Contents) {
    s.Shaped() && journals <= s.node.Keys && forall cf :: cf in journals ==> Represents(s, cf, archive, view)
  }

  /** The protocol's archive of each journal is what is stored. */
  ghost predicate Stored(s: P.State, journals: set<Cf>, archive: Contents) {
    && s.Shaped() && journals <= s.node.Keys
    && forall cf :: cf in journals ==> cf in archive && Encodes(cf, s.archive[cf], archive[cf])
  }

  /** The first `m` rows a copy has to make durable are the next `m` entries. */
  lemma RowsAreEntries(s: P.State, cf: Cf, archive: Contents, view: Contents, m: nat)
    requires s.Shaped() && S.Inv(s) && cf in s.node && Represents(s, cf, archive, view) && RoomAbove(cf, archive)
    requires m <= |NewRows(cf, archive, view)|
    ensures From(s, cf) + |NewRows(cf, archive, view)| == s.view[cf].next
    ensures Fits(cf, From(s, cf) + m)
    ensures NewRows(cf, archive, view)[..m] == EntryRows(cf, s.node[cf], From(s, cf), From(s, cf) + m)
  {
    hide S.Inv, NewRows, From, Encodes, RoomAbove, Key, ValueAt;
    CopyStartsAlike(s, cf, archive, view);
  }

  lemma RowsStoreCopies(s: P.State, cf: Cf, archive: Contents, view: Contents, m: nat)
    requires s.Shaped() && S.Inv(s) && cf in s.node && Represents(s, cf, archive, view) && RoomAbove(cf, archive)
    requires m <= |NewRows(cf, archive, view)|
    ensures Encodes(cf, Longer(s, cf, m), PutAll(archive[cf], NewRows(cf, archive, view)[..m]))
  {
    hide S.Inv, NewRows, From, Encodes, Entries, EntryRows, PutAll, RoomAbove, Longer, Values, P.Commit;
    RowsAreEntries(s, cf, archive, view, m);
    CommitRefines(cf, s.archive[cf], archive[cf], s.node[cf], From(s, cf), From(s, cf) + m);
    LongerIsCommitted(s, cf, m);
  }

  /** A journal copy that made `m` rows durable is a run of the protocol that committed as many entries. */
  lemma JournalRefines(policy: P.Policy, s: P.State, cf: Cf, archive: Contents, view: Contents, m: nat, finished: bool)
    returns (steps: seq<P.Step>)
    requires s.Shaped() && S.Inv(s) && s.phase.BetweenJournals? && cf in s.phase.todo && cf in s.node
    requires Represents(s, cf, archive, view) && RoomAbove(cf, archive)
    requires m <= |NewRows(cf, archive, view)|
    requires m % P.BATCH == 0 || m == |NewRows(cf, archive, view)|
    requires finished ==> m == |NewRows(cf, archive, view)|
    ensures P.Leads(policy, s, steps, AfterJournal(s, cf, m, finished))
    ensures S.Inv(AfterJournal(s, cf, m, finished))
    ensures Encodes(cf, Longer(s, cf, m), PutAll(archive[cf], NewRows(cf, archive, view)[..m]))
  {
    hide S.Inv, P.Leads, Encodes, NewRows, From, Longer, AfterJournal, Represents, RoomAbove;
    RowsAreEntries(s, cf, archive, view, m);
    RowsStoreCopies(s, cf, archive, view, m);
    steps := CopyRunsProtocol(policy, s, cf, m, finished);
    S.RunKeepsInv(policy, s, steps, AfterJournal(s, cf, m, finished));
  }

  /** What finishing these journals stores. */
  ghost predicate Completes(journals: set<Cf>, archive: Contents, view: Contents, target: Contents) {
    forall cf :: cf in journals ==>
      RoomAbove(cf, archive) && cf in archive && cf in target
      && target[cf] == PutAll(archive[cf], NewRows(cf, archive, view))
  }

  /** The gaps the protocol finds in these journals. */
  ghost function FoundIn(s: P.State, journals: set<Cf>): set<P.Gap>
    requires s.Shaped() && journals <= s.node.Keys
  {
    set cf, g | cf in journals && g in P.GapsFound(cf, s.archive[cf], s.view[cf]) :: g
  }

  /** `t` is `s` with these journals finished and stored as in `target`, and their gaps raised. */
  ghost predicate Finished(s: P.State, journals: set<Cf>, target: Contents, t: P.State) {
    && s.Shaped() && t.Shaped() && s.phase.BetweenJournals? && t.phase.BetweenJournals?
    && t.node == s.node && t.view == s.view && t.sent == s.sent && t.received == s.received
    && t.phase.todo == s.phase.todo - journals
    && Stored(t, journals, target) && t.raised == s.raised + FoundIn(s, journals)
    && forall cf :: cf in s.node && cf !in journals ==> t.archive[cf] == s.archive[cf]
  }

  lemma OneFinished(policy: P.Policy, s: P.State, cf: Cf, archive: Contents, view: Contents, target: Contents)
    returns (steps: seq<P.Step>, t: P.State)
    requires s.Shaped() && S.Inv(s) && s.phase.BetweenJournals? && cf in s.phase.todo && cf in s.node
    requires Represents(s, cf, archive, view) && Completes({cf}, archive, view, target)
    ensures P.Leads(policy, s, steps, t) && S.Inv(t) && Finished(s, {cf}, target, t)
  {
    hide S.Inv, P.Leads, Encodes, NewRows, Represents, Longer, RoomAbove, P.Tip, P.GapsFound, From;
    var rows := NewRows(cf, archive, view);
    assert rows[..|rows|] == rows;
    steps := JournalRefines(policy, s, cf, archive, view, |rows|, true);
    t := AfterJournal(s, cf, |rows|, true);
    assert FoundIn(s, {cf}) == P.GapsFound(cf, s.archive[cf], s.view[cf]);
  }

  lemma StillRepresented(s: P.State, done: set<Cf>, rest: set<Cf>, archive: Contents, view: Contents, target: Contents,
                         t: P.State)
    requires AllRepresented(s, done + rest, archive, view) && done !! rest
    requires Finished(s, done, target, t)
    ensures AllRepresented(t, rest, archive, view)
    ensures t.Shaped() && t.phase.BetweenJournals? && t.phase.todo == s.phase.todo - done
  {
    hide Encodes;
    assert t.node.Keys == s.node.Keys;
  }

  lemma FinishedAll(s: P.State, first: set<Cf>, mid: P.State, second: set<Cf>, target: Contents, t: P.State)
    requires Finished(s, first, target, mid) && Finished(mid, second, target, t) && first !! second
    ensures Finished(s, first + second, target, t)
  {
    FoundInBoth(s, first, mid, second);
    hide Encodes, FoundIn;
  }

  /** What is found in one journal does not depend on the others. */
  lemma FoundInBoth(s: P.State, first: set<Cf>, mid: P.State, second: set<Cf>)
    requires s.Shaped() && mid.Shaped() && first + second <= s.node.Keys == mid.node.Keys && first !! second
    requires mid.view == s.view && forall cf :: cf in s.node && cf !in first ==> mid.archive[cf] == s.archive[cf]
    ensures FoundIn(s, first + second) == FoundIn(s, first) + FoundIn(mid, second)
  {
    hide P.GapsFound;
  }

  lemma NothingFinished(policy: P.Policy, s: P.State, target: Contents)
    requires s.Shaped() && s.phase.BetweenJournals?
    ensures P.Leads(policy, s, [], s) && Finished(s, {}, target, s)
  {
  }

  lemma CompletesEach(s: P.State, journals: set<Cf>, cf: Cf, archive: Contents, view: Contents, target: Contents)
    requires AllRepresented(s, journals, archive, view) && Completes(journals, archive, view, target) && cf in journals
    ensures Completes({cf}, archive, view, target) && Completes(journals - {cf}, archive, view, target)
    ensures cf in s.node && Represents(s, cf, archive, view)
  {
    hide Represents, RoomAbove, NewRows;
  }

  /** Finishing some journals one after another. */
  lemma {:induction false} JournalsRun(policy: P.Policy, s: P.State, journals: set<Cf>, archive: Contents,
                                       view: Contents, target: Contents)
    returns (steps: seq<P.Step>, t: P.State)
    requires s.Shaped() && S.Inv(s) && s.phase.BetweenJournals? && journals <= s.phase.todo
    requires AllRepresented(s, journals, archive, view) && Completes(journals, archive, view, target)
    ensures P.Leads(policy, s, steps, t) && S.Inv(t) && Finished(s, journals, target, t)
    decreases |journals|
  {
    hide S.Inv, P.Leads, Represents, Completes, Finished, AllRepresented, NewRows;
    if journals == {} {
      NothingFinished(policy, s, target);
      steps, t := [], s;
    } else {
      var cf :| cf in journals;
      assert journals == {cf} + (journals - {cf});
      var first, mid;
      CompletesEach(s, journals, cf, archive, view, target);
      first, mid := OneFinished(policy, s, cf, archive, view, target);
      StillRepresented(s, {cf}, journals - {cf}, archive, view, target, mid);
      var rest;
      rest, t := JournalsRun(policy, mid, journals - {cf}, archive, view, target);
      FinishedAll(s, {cf}, mid, journals - {cf}, target, t);
      P.LeadsConcat(policy, s, first, mid, rest, t);
      steps := first + rest;
    }
  }

  // ---- A whole pass ----

  ghost function JournalSet(families: seq<Cf>): set<Cf> {
    set cf | cf in families && cf.IsJournal()
  }

  /** The protocol just before a pass whose catch-up shows `windows`, and the bytes it is about. */
  ghost predicate PassBegins(policy: P.Policy, s: P.State, windows: map<Cf, P.Window>, families: seq<Cf>,
                             before: Contents, view: Contents)
  {
    && s.Shaped() && S.Inv(s) && s.phase.Idle?
    && s.node.Keys == JournalSet(families)
    && P.Enabled(policy, s, P.CatchUp(windows))
    && AllRepresented(P.Apply(policy, s, P.CatchUp(windows)), JournalSet(families), before, view)
  }

  lemma CaughtUpState(policy: P.Policy, s: P.State, windows: map<Cf, P.Window>, families: seq<Cf>, before: Contents,
                      view: Contents)
    requires PassBegins(policy, s, windows, families, before, view)
    ensures s.Shaped() && P.Enabled(policy, s, P.CatchUp(windows))
    ensures var c := P.Apply(policy, s, P.CatchUp(windows));
            && S.Inv(c) && P.Leads(policy, s, [P.CatchUp(windows)], c)
            && c.node == s.node && c.view == windows && c.archive == s.archive
            && c.sent == s.sent && c.received == s.received
            && c.phase == P.BetweenJournals(JournalSet(families), map[]) && c.node.Keys == JournalSet(families)
            && AllRepresented(c, JournalSet(families), before, view)
  {
    hide S.Inv, AllRepresented, P.Leads;
    S.StepKeepsInv(policy, s, P.CatchUp(windows));
    P.OneStepLeads(policy, s, P.CatchUp(windows));
  }

  lemma RoomForAll(s: P.State, journals: set<Cf>, before: Contents, view: Contents)
    requires s.Shaped() && S.Inv(s) && AllRepresented(s, journals, before, view)
    ensures forall cf :: cf in journals ==> RoomAbove(cf, before) && cf in before
  {
    hide S.Inv, RoomAbove, Encodes, NewRows, From;
    forall cf | cf in journals
      ensures RoomAbove(cf, before) && cf in before
    {
      CopyStartsAlike(s, cf, before, view);
    }
  }

  lemma TransferCompletes(s: P.State, families: seq<Cf>, before: Contents, view: Contents, full: bool, done: set<Cf>,
                          after: Contents, some: set<Cf>)
    requires s.Shaped() && S.Inv(s) && AllRepresented(s, JournalSet(families), before, view)
    requires Transferred(before, view, full, done, after)
    requires some <= JournalSet(families) && some <= done
    ensures Completes(some, before, view, after)
  {
    RoomForAll(s, JournalSet(families), before, view);
    hide S.Inv, AllRepresented, RoomAbove, NewRows;
  }

  lemma ReportAgrees(t: P.State, families: seq<Cf>, before: Contents, view: Contents, full: bool, after: Contents,
                     report: PassReport)
    requires t.Shaped() && S.Inv(t) && t.phase.Reporting? && t.node.Keys == JournalSet(families)
    requires Stored(t, JournalSet(families), after)
    requires Accounts(report, before, view, full, Members(families), after)
    ensures t.phase.report == report.watermarks
  {
    hide S.JournalInv, Encodes, RowsFor, TipOf, S.CaughtUp, P.Tip, S.SentInv, Stored, Accounts;
    assert S.PassInv(t.view, t.archive, {}, t.phase.report);
    hide S.Inv;
    forall cf
      ensures cf in t.phase.report <==> cf in report.watermarks
      ensures cf in t.phase.report ==> t.phase.report[cf] == report.watermarks[cf]
    {
      StoredTip(t, families, after, cf);
      WatermarkIsTip(report, before, view, full, families, after, cf);
    }
  }

  lemma StoredTip(t: P.State, families: seq<Cf>, after: Contents, cf: Cf)
    requires t.Shaped() && t.node.Keys == JournalSet(families) && Stored(t, JournalSet(families), after)
    ensures cf in t.archive ==> TipOf(cf, after).Ok? && TipOf(cf, after).value == P.Tip(t.archive[cf])
    ensures cf in t.archive <==> cf in Members(families) && cf.IsJournal()
  {
    hide TipOf, Encodes, P.Tip;
    if cf in t.archive {
      TipRefines(cf, t.archive[cf], after);
    }
  }

  lemma WatermarkIsTip(report: PassReport, before: Contents, view: Contents, full: bool, families: seq<Cf>,
                       after: Contents, cf: Cf)
    requires Accounts(report, before, view, full, Members(families), after)
    ensures cf in report.watermarks <==>
            cf in Members(families) && cf.IsJournal() && TipOf(cf, after).Ok? && TipOf(cf, after).value.Some?
    ensures cf in report.watermarks ==> TipOf(cf, after) == Ok(Some(report.watermarks[cf]))
  {
    hide TipOf, RowsFor;
  }

  /** The protocol right after a catch-up, and the bytes the pass is about. */
  ghost predicate PassUnderway(s: P.State, families: seq<Cf>, before: Contents, view: Contents) {
    && s.Shaped() && S.Inv(s) && s.node.Keys == JournalSet(families)
    && s.phase == P.BetweenJournals(JournalSet(families), map[])
    && AllRepresented(s, JournalSet(families), before, view)
  }

  /** `t` is where the archiver came to from `s` by itself. */
  ghost predicate OnlyArchived(s: P.State, t: P.State) {
    t.Shaped() && t.node == s.node && t.view == s.view && t.sent == s.sent && t.received == s.received
  }

  /**
   What follows the catch-up of a pass that returned successfully is a run of the protocol up to a
   report: the bytes it stored are the copies the protocol made, and the report is the protocol's.
   */
  lemma RestRefines(policy: P.Policy, s: P.State, families: seq<Cf>,
                    before: Contents, view: Contents, full: bool, after: Contents, report: PassReport)
    returns (steps: seq<P.Step>, t: P.State)
    requires PassUnderway(s, families, before, view)
    requires Transferred(before, view, full, Members(families), after)
    requires Accounts(report, before, view, full, Members(families), after)
    ensures P.Leads(policy, s, steps, t) && OnlyArchived(s, t)
    ensures t.raised == s.raised + FoundIn(s, JournalSet(families))
    ensures t.phase.Reporting? && t.phase.report == report.watermarks
    ensures Stored(t, JournalSet(families), after)
  {
    hide S.Inv, P.Leads, AllRepresented, Completes, Transferred, Accounts, Stored, P.Enabled, P.Apply, FoundIn;
    var journals := JournalSet(families);
    TransferCompletes(s, families, before, view, full, Members(families), after, journals);
    var copies, copied := JournalsRun(policy, s, journals, before, view, after);
    t := copied.(phase := P.Reporting(copied.phase.report));
    PassEnds(policy, copied, journals, after);
    P.LeadsConcat(policy, s, copies, copied, [P.FinishPass], t);
    steps := copies + [P.FinishPass];
    ReportAgrees(t, families, before, view, full, after, report);
  }

  /** What follows the catch-up of a pass that stopped early, wherever and however it failed, is a run
      of the protocol that stopped there. */
  lemma StoppedRestRefines(policy: P.Policy, s: P.State, families: seq<Cf>,
                           before: Contents, view: Contents, full: bool, after: Contents)
    returns (steps: seq<P.Step>, t: P.State)
    requires PassUnderway(s, families, before, view)
    requires Stopped(before, view, full, Members(families), after)
    ensures P.Leads(policy, s, steps, t) && OnlyArchived(s, t)
    ensures s.raised <= t.raised <= s.raised + FoundIn(s, JournalSet(families))
    ensures t.phase.Idle? && Stored(t, JournalSet(families), after)
  {
    hide S.Inv, P.Leads, AllRepresented, P.Enabled, P.Apply, Stored, StoppedIn, FoundIn;
    if after == before {
      NotStartedStored(s, families, before, view);
      StopLeads(policy, s);
      steps, t := [P.Stop], s.(phase := P.Idle);
    } else {
      var done, db, cf, m: nat :| StoppedIn(before, view, full, Members(families), done, db, cf, m, after);
      steps, t := StoppedAfterCatchUp(policy, s, families, before, view, full, done, db, cf, m, after);
    }
  }

  /** A pass that returned successfully is a run of the protocol, from its catch-up to its report. */
  lemma PassRefines(policy: P.Policy, s: P.State, windows: map<Cf, P.Window>, families: seq<Cf>,
                    before: Contents, view: Contents, full: bool, after: Contents, report: PassReport)
    returns (steps: seq<P.Step>, t: P.State)
    requires PassBegins(policy, s, windows, families, before, view)
    requires Transferred(before, view, full, Members(families), after)
    requires Accounts(report, before, view, full, Members(families), after)
    ensures s.Shaped() && P.Leads(policy, s, steps, t)
    ensures t.phase.Reporting? && t.phase.report == report.watermarks
    ensures t.node == s.node && t.view == windows && t.sent == s.sent && t.received == s.received
    ensures t.Shaped() && Stored(t, JournalSet(families), after)
  {
    hide S.Inv, P.Leads, AllRepresented, PassBegins, Transferred, Accounts, Stored, P.Enabled, P.Apply;
    CaughtUpState(policy, s, windows, families, before, view);
    BeginsOnJournals(policy, s, windows, families, before, view);
    var catchUp, caught := P.CatchUp(windows), P.Apply(policy, s, P.CatchUp(windows));
    var rest;
    rest, t := RestRefines(policy, caught, families, before, view, full, after, report);
    P.LeadsConcat(policy, s, [catchUp], caught, rest, t);
    steps := [catchUp] + rest;
  }

  /** So is a pass that stopped early. */
  lemma StoppedPassRefines(policy: P.Policy, s: P.State, windows: map<Cf, P.Window>, families: seq<Cf>,
                           before: Contents, view: Contents, full: bool, after: Contents)
    returns (steps: seq<P.Step>, t: P.State)
    requires PassBegins(policy, s, windows, families, before, view)
    requires Stopped(before, view, full, Members(families), after)
    ensures s.Shaped() && P.Leads(policy, s, steps, t)
    ensures t.phase.Idle? && t.node == s.node && t.view == windows && t.sent == s.sent && t.received == s.received
    ensures t.Shaped() && Stored(t, JournalSet(families), after)
  {
    hide S.Inv, P.Leads, AllRepresented, PassBegins, P.Enabled, P.Apply, Stored, Stopped;
    CaughtUpState(policy, s, windows, families, before, view);
    BeginsOnJournals(policy, s, windows, families, before, view);
    var catchUp, caught := P.CatchUp(windows), P.Apply(policy, s, P.CatchUp(windows));
    var rest;
    rest, t := StoppedRestRefines(policy, caught, families, before, view, full, after);
    P.LeadsConcat(policy, s, [catchUp], caught, rest, t);
    steps := [catchUp] + rest;
  }

  lemma BeginsOnJournals(policy: P.Policy, s: P.State, windows: map<Cf, P.Window>, families: seq<Cf>, before: Contents,
                         view: Contents)
    requires PassBegins(policy, s, windows, families, before, view)
    ensures s.node.Keys == JournalSet(families)
  {
  }

  lemma PassEnds(policy: P.Policy, s: P.State, journals: set<Cf>, after: Contents)
    requires s.Shaped() && S.Inv(s) && s.phase.BetweenJournals? && s.phase.todo == {}
    requires Stored(s, journals, after)
    ensures var t := s.(phase := P.Reporting(s.phase.report));
            t.Shaped() && P.Leads(policy, s, [P.FinishPass], t) && S.Inv(t) && Stored(t, journals, after)
  {
    hide S.Inv, P.Leads, Encodes;
    S.StepKeepsInv(policy, s, P.FinishPass);
    P.OneStepLeads(policy, s, P.FinishPass);
  }

  lemma StopLeads(policy: P.Policy, s: P.State)
    requires s.Shaped()
    ensures P.Leads(policy, s, [P.Stop], s.(phase := P.Idle))
  {
    hide P.Leads;
    P.OneStepLeads(policy, s, P.Stop);
  }

  /** The copies of journals not yet copied are still what was stored before the pass. */
  lemma UntouchedStored(s: P.State, journals: set<Cf>, before: Contents, view: Contents, done: set<Cf>, db: Contents,
                        full: bool, mid: P.State)
    requires AllRepresented(s, journals, before, view) && journals == s.node.Keys
    requires Transferred(before, view, full, done, db)
    requires Finished(s, done * journals, db, mid)
    ensures Stored(mid, journals, db)
  {
    hide Encodes, RowsFor;
    forall cf | cf in journals
      ensures cf in db && Encodes(cf, mid.archive[cf], db[cf])
    {
      assert Represents(s, cf, before, view);
    }
  }

  lemma OtherFamilyStored(mid: P.State, journals: set<Cf>, db: Contents, cf: Cf, rows: seq<Row>)
    requires Stored(mid, journals, db) && cf !in journals
    ensures Stored(mid.(phase := P.Idle), journals, Advanced(db, cf, rows))
  {
    hide Encodes;
  }

  lemma PartialStored(mid: P.State, journals: set<Cf>, db: Contents, cf: Cf, rows: seq<Row>, m: nat)
    requires Stored(mid, journals, db) && cf in journals && mid.phase.BetweenJournals?
    requires Encodes(cf, Longer(mid, cf, m), PutAll(db[cf], rows))
    ensures Stored(AfterJournal(mid, cf, m, false), journals, Advanced(db, cf, rows))
    ensures var t := AfterJournal(mid, cf, m, false);
            && t.phase.Idle? && t.node == mid.node && t.view == mid.view
            && t.sent == mid.sent && t.received == mid.received
  {
    hide Encodes, Longer;
  }

  lemma NotStartedStored(s: P.State, families: seq<Cf>, before: Contents, view: Contents)
    requires AllRepresented(s, JournalSet(families), before, view)
    ensures Stored(s, JournalSet(families), before)
    ensures Stored(s.(phase := P.Idle), JournalSet(families), before)
  {
    hide Encodes;
    forall cf | cf in JournalSet(families)
      ensures cf in before && Encodes(cf, s.archive[cf], before[cf])
    {
      assert Represents(s, cf, before, view);
    }
  }

  lemma StoppedAfterCatchUp(policy: P.Policy, s: P.State, families: seq<Cf>, before: Contents, view: Contents,
                            full: bool,
                            done: set<Cf>, db: Contents, cf: Cf, m: nat, after: Contents)
    returns (steps: seq<P.Step>, t: P.State)
    requires s.Shaped() && S.Inv(s) && s.phase.BetweenJournals? && s.phase.todo == JournalSet(families) == s.node.Keys
    requires AllRepresented(s, JournalSet(families), before, view)
    requires StoppedIn(before, view, full, Members(families), done, db, cf, m, after)
    ensures t.Shaped() && P.Leads(policy, s, steps, t) && t.phase.Idle? && Stored(t, JournalSet(families), after)
    ensures t.node == s.node && t.view == s.view && t.sent == s.sent && t.received == s.received
    ensures s.raised <= t.raised <= s.raised + FoundIn(s, JournalSet(families))
  {
    hide S.Inv, P.Leads, AllRepresented, Stored, Transferred, Completes, Finished, RowsFor, NewRows, Represents,
         Longer, AfterJournal, RoomAbove, PutAll, Advanced, FoundIn, P.GapsFound;
    var journals := JournalSet(families);
    var finished := done * journals;
    TransferCompletes(s, families, before, view, full, done, db, finished);
    SomeRepresented(s, finished, journals, before, view);
    var first, mid := JournalsRun(policy, s, finished, before, view, db);
    UntouchedStored(s, journals, before, view, done, db, full, mid);
    MidIsShaped(s, finished, db, mid);
    FoundInSome(s, finished, journals);
    var last;
    if cf.IsJournal() {
      PartialRepresented(s, finished, journals, cf, before, view, full, done, db, mid);
      last := JournalRefines(policy, mid, cf, before, view, m, false);
      t := AfterJournal(mid, cf, m, false);
      PartialStored(mid, journals, db, cf, RowsFor(cf, before, view, full)[..m], m);
      PartialFound(s, finished, journals, db, mid, cf, m);
    } else {
      StopLeads(policy, mid);
      last := [P.Stop];
      t := mid.(phase := P.Idle);
      OtherFamilyStored(mid, journals, db, cf, RowsFor(cf, before, view, full)[..m]);
    }
    P.LeadsConcat(policy, s, first, mid, last, t);
    steps := first + last;
  }

  lemma SomeRepresented(s: P.State, some: set<Cf>, journals: set<Cf>, before: Contents, view: Contents)
    requires AllRepresented(s, journals, before, view) && some <= journals
    ensures AllRepresented(s, some, before, view)
  {
    hide Represents;
  }

  lemma MidIsShaped(s: P.State, finished: set<Cf>, db: Contents, mid: P.State)
    requires Finished(s, finished, db, mid)
    ensures mid.Shaped() && mid.node == s.node && mid.view == s.view && mid.sent == s.sent && mid.received == s.received
    ensures s.Shaped() && finished <= s.node.Keys && mid.raised == s.raised + FoundIn(s, finished)
  {
    hide Encodes, FoundIn;
  }

  lemma FoundInSome(s: P.State, some: set<Cf>, journals: set<Cf>)
    requires s.Shaped() && some <= journals <= s.node.Keys
    ensures FoundIn(s, some) <= FoundIn(s, journals)
  {
  }

  lemma PartialFound(s: P.State, finished: set<Cf>, journals: set<Cf>, db: Contents, mid: P.State, cf: Cf, m: nat)
    requires Finished(s, finished, db, mid) && finished <= journals <= s.node.Keys && cf in journals - finished
    ensures AfterJournal(mid, cf, m, false).raised <= s.raised + FoundIn(s, journals)
    ensures s.raised <= AfterJournal(mid, cf, m, false).raised
  {
    hide Encodes, P.GapsFound, Stored;
    assert FoundIn(s, finished) <= FoundIn(s, journals);
    assert P.GapsFound(cf, s.archive[cf], s.view[cf]) <= FoundIn(s, journals);
  }

  lemma PartialRepresented(s: P.State, finished: set<Cf>, journals: set<Cf>, cf: Cf, before: Contents, view: Contents,
                           full: bool, done: set<Cf>, db: Contents, mid: P.State)
    requires s.Shaped() && S.Inv(s) && AllRepresented(s, journals, before, view) && Finished(s, finished, db, mid)
    requires cf in journals && cf !in done && finished <= done && cf.IsJournal() && s.phase.todo == journals
    requires Transferred(before, view, full, done, db)
    ensures mid.Shaped() && mid.phase.BetweenJournals? && cf in mid.phase.todo && cf in mid.node
    ensures Represents(mid, cf, before, view) && RoomAbove(cf, before)
    ensures RowsFor(cf, before, view, full) == NewRows(cf, before, view)
    ensures cf in db && cf in before && db[cf] == before[cf]
  {
    RoomForAll(s, journals, before, view);
    hide S.Inv, Encodes, NewRows, RoomAbove;
    assert Represents(s, cf, before, view);
  }
}
