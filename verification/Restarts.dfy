/** What an archive keeps over its whole life, through every opening, every pass and every failure of them. */
module Restarts {
  import opened ByteStrings
  import opened Families
  import opened OrderedStore
  import opened Stores
  import opened Pass
  import opened PassEffects
  import opened Stamps
  import opened Provenance
  import L = ArchiverLoop

  // ---- Passes ----

  lemma NewRowsAreNew(cf: Cf, before: Contents, view: Contents, full: bool, k: Bytes)
    requires cf.IsJournal() && cf in before && k in before[cf]
    ensures k !in RowKeys(RowsFor(cf, before, view, full))
  {
    var rows := RowsFor(cf, before, view, full);
    if rows != [] {
      ArchivedBelowResume(cf, before, view, k);
      var start := ResumeKey(cf, before, view).value;
      hide ResumeKey, RoomAbove;
      assert RowKeys(rows) == InOrder(KeysFrom(view[cf], start));
    }
  }

  /** A pass, finished or not, loses no row, and rewrites no entry of a journal. */
  lemma PassKeepsRow(before: Contents, view: Contents, full: bool, all: set<Cf>, after: Contents, cf: Cf, k: Bytes)
    requires Transferred(before, view, full, all, after) || Stopped(before, view, full, all, after)
    requires cf in before && k in before[cf]
    ensures cf in after && k in after[cf]
    ensures cf.IsJournal() ==> after[cf][k] == before[cf][k]
  {
    hide Transferred, Stopped, RowsFor, Decodable;
    EveryPrefixWritten(before, view, full, all, after);
    RowsComeFromView(cf, before, view, full);
    var rows := RowsFor(cf, before, view, full);
    var m :| 0 <= m <= |rows| && after[cf] == PutAll(before[cf], rows[..m]);
    PutAllKeys(before[cf], rows[..m], k);
    if cf.IsJournal() {
      NewRowsAreNew(cf, before, view, full, k);
      assert RowKeys(rows[..m]) == RowKeys(rows)[..m];
      PutAllCopies(before[cf], rows[..m], if cf in view then view[cf] else map[], k);
    }
  }

  lemma {:induction false} CopiesKeepRow(families: set<Cf>, start: Contents, copies: seq<Copy>, end: Contents, cf: Cf,
                                         k: Bytes)
    requires CopiesRun(families, start, copies, end) && cf in start && k in start[cf]
    ensures cf in end && k in end[cf]
    ensures cf.IsJournal() ==> end[cf][k] == start[cf][k]
    decreases |copies|
  {
    hide Transferred, Stopped;
    if copies != [] {
      var last := copies[|copies| - 1];
      CopiesKeepRow(families, start, copies[..|copies| - 1], last.before, cf, k);
      PassKeepsRow(last.before, last.view, last.full, families, end, cf, k);
    }
  }

  // ---- The whole life ----

  /**
   Over any openings against any stores, accepted or refused, and any passes, finished or failed: no row
   of an archive is ever lost, and no entry of a journal is ever rewritten.
   */
  lemma {:induction false} HistoryKeepsRow(codec: Codec, start: Contents, sessions: seq<Session>, end: Contents, cf: Cf,
                                           k: Bytes)
    requires History(codec, start, sessions, end) && cf in start && k in start[cf]
    ensures cf in end && k in end[cf]
    ensures cf.IsJournal() ==> end[cf][k] == start[cf][k]
    decreases |sessions|
  {
    hide Opened, CopiesRun, Belongs;
    if sessions != [] {
      var s, init := sessions[|sessions| - 1], sessions[..|sessions| - 1];
      HistoryKeepsRow(codec, start, init, s.before, cf, k);
      OpeningKeepsRow(codec, s.before, s.families, s.source, s.accepted, s.disk, cf, k);
      CopiesKeepRow(Members(s.families), s.disk, s.copies, end, cf, k);
    }
  }

  /** Every family is still there, and every journal's tip, or a higher one. */
  ghost predicate Kept(before: Contents, after: Contents) {
    before.Keys <= after.Keys && L.TipsKept(before, after)
  }

  lemma KeptThrough(before: Contents, mid: Contents, after: Contents)
    requires Kept(before, mid) && Kept(mid, after)
    ensures Kept(before, after)
  {
    hide TipOf;
  }

  lemma OpeningKeepsTips(codec: Codec, before: Contents, families: seq<Cf>, source: StoreMeta, accepted: bool,
                         disk: Contents)
    requires Opened(codec, before, families, source, accepted, disk)
    ensures Kept(before, disk)
  {
    hide Opened, TipOf;
    forall cf | cf in before
      ensures cf in disk && (cf.IsJournal() ==> L.TipKept(cf, before, disk))
    {
      OpeningKeepsFamily(codec, before, families, source, accepted, disk, cf);
      if cf.IsJournal() {
        TipIsLocal(cf, before, disk);
      }
    }
  }

  lemma {:induction false} CopiesKeepTips(families: set<Cf>, start: Contents, copies: seq<Copy>, end: Contents)
    requires CopiesRun(families, start, copies, end)
    ensures Kept(start, end)
    decreases |copies|
  {
    hide Transferred, Stopped, TipOf, PrefixWritten;
    if copies != [] {
      var last := copies[|copies| - 1];
      CopiesKeepTips(families, start, copies[..|copies| - 1], last.before);
      L.PassKeepsTips(last.before, last.view, last.full, families, end);
      EveryPrefixWritten(last.before, last.view, last.full, families, end);
      KeptThrough(start, last.before, end);
    }
  }

  lemma {:induction false} HistoryKeepsTips(codec: Codec, start: Contents, sessions: seq<Session>, end: Contents)
    requires History(codec, start, sessions, end)
    ensures Kept(start, end)
    decreases |sessions|
  {
    hide Opened, CopiesRun, Belongs, TipOf;
    if sessions != [] {
      var s, init := sessions[|sessions| - 1], sessions[..|sessions| - 1];
      HistoryKeepsTips(codec, start, init, s.before);
      OpeningKeepsTips(codec, s.before, s.families, s.source, s.accepted, s.disk);
      CopiesKeepTips(Members(s.families), s.disk, s.copies, end);
      KeptThrough(start, s.before, s.disk);
      KeptThrough(start, s.disk, end);
    }
  }

  /** So whatever was reported of an archive stays true of it over every restart. */
  lemma ReportsSurvive(codec: Codec, start: Contents, sessions: seq<Session>, end: Contents, report: L.WatermarkReport)
    requires History(codec, start, sessions, end) && L.Backed(report, start)
    ensures L.Backed(report, end)
  {
    hide History, L.Backed, TipOf;
    HistoryKeepsTips(codec, start, sessions, end);
    L.TipsKeepBacking(report, start, end);
  }
}
