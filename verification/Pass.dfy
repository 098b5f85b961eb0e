/** What one run of the archiver over all families does, on a disk that may fail at every step. */
module Pass {
  import opened ByteStrings
  import opened Families
  import opened FamilyNames
  import opened Journals
  import opened OrderedStore
  import opened Outcomes
  import opened Stores
  import P = Protocol

  datatype PassReport = PassReport(watermarks: map<Cf, U64>, copied: map<Cf, nat>, gaps: seq<P.Gap>)

  // ---- What a pass is meant to copy ----

  /** The next index an archive expects: past its own tip, or the node's floor when it holds nothing. */
  function ResumeIndex(tip: Option<U64>, floor: Option<U64>): nat {
    match tip
    case Some(t) => t + 1
    case None => match floor case Some(f) => f case None => 0
  }

  /** Nothing in the source guards the addition of one to a tip; no archive is that full. */
  ghost predicate RoomAbove(cf: Cf, archive: Contents) {
    TipOf(cf, archive).Ok? && TipOf(cf, archive).value.Some? ==>
      TipOf(cf, archive).value.value + 1 < 0x1_0000_0000_0000_0000
  }

  /** The key from which a journal is to be copied. */
  ghost function ResumeKey(cf: Cf, archive: Contents, view: Contents): Result<Bytes>
    requires RoomAbove(cf, archive)
  {
    match (TipOf(cf, archive), FloorOf(cf, view))
    case (Ok(tip), Ok(floor)) => EncodeKey(cf, ResumeIndex(tip, floor))
    case (Err(e), _) => Err(e)
    case (Ok(_), Err(e)) => Err(e)
  }

  /** The view's rows that the archive is missing. */
  ghost function NewRows(cf: Cf, archive: Contents, view: Contents): seq<Row>
    requires RoomAbove(cf, archive)
  {
    if ResumeKey(cf, archive, view).Ok? && cf in view
    then RowsFrom(view[cf], ResumeKey(cf, archive, view).value)
    else []
  }

  ghost predicate Decodable(cf: Cf, rows: seq<Row>) {
    forall i :: 0 <= i < |rows| ==> DecodeRow(cf, rows[i]).Ok?
  }

  /** Some prefix of the rows was committed: whole batches, or everything. */
  ghost predicate CommittedPrefix(before: Contents, cf: Cf, rows: seq<Row>, m: nat, after: Contents) {
    && m <= |rows|
    && (m % P.BATCH == 0 || m == |rows|)
    && after == Advanced(before, cf, rows[..m])
    && (cf.IsJournal() ==> Decodable(cf, rows[..m]))
  }

  // ---- Facts about single rows ----

  /** Decoding an entry and encoding it again gives back the very row that was read. */
  lemma DecodedRowReencodes(cf: Cf, row: Row)
    requires DecodeRow(cf, row).Ok?
    ensures EncodeKey(cf, DecodeRow(cf, row).value.index) == Ok(row.0)
    ensures DecodeRow(cf, row).value.Framed() == row.1
    ensures DecodeKey(cf, row.0) == Ok(DecodeRow(cf, row).value.index)
  {
    DecodedKeyReencodes(cf, row.0);
    UnframedReframes(cf, DecodeRow(cf, row).value.index, row.1);
  }

  lemma AdvanceMore(contents: Contents, cf: Cf, rows: seq<Row>, m: nat, n: nat)
    requires m <= n <= |rows|
    ensures Advanced(Advanced(contents, cf, rows[..m]), cf, rows[m..n]) == Advanced(contents, cf, rows[..n])
  {
    if cf in contents {
      assert rows[..m] + rows[m..n] == rows[..n];
      PutAllConcat(contents[cf], rows[..m], rows[m..n]);
    }
  }

  lemma AdvanceNothing(contents: Contents, cf: Cf)
    ensures Advanced(contents, cf, []) == contents
  {
    if cf in contents {
      assert contents[cf := contents[cf]] == contents;
    }
  }

  /** Rows copied from past the tip leave the last of them as the new tip, wherever the copy stops. */
  lemma CopyMovesTip(cf: Cf, archive: Contents, view: Contents, m: nat)
    requires RoomAbove(cf, archive) && ResumeKey(cf, archive, view).Ok? && cf in view
    requires m <= |NewRows(cf, archive, view)| && Decodable(cf, NewRows(cf, archive, view)[..m])
    ensures var rows := NewRows(cf, archive, view);
            TipOf(cf, Advanced(archive, cf, rows[..m])) ==
            if m == 0 then TipOf(cf, archive) else Ok(Some(DecodeKey(cf, rows[m - 1].0).value))
  {
    var rows := NewRows(cf, archive, view);
    if m == 0 {
      AdvanceNothing(archive, cf);
    } else {
      LastCopiedIsGreatest(cf, archive, view, m);
      hide ResumeKey, NewRows, RoomAbove;
      assert DecodeRow(cf, rows[..m][m - 1]).Ok?;
      GreatestIsTip(cf, Advanced(archive, cf, rows[..m]), rows[m - 1].0);
    }
  }

  lemma GreatestIsTip(cf: Cf, contents: Contents, k: Bytes)
    requires cf in contents && IsGreatest(contents[cf], k) && DecodeKey(cf, k).Ok?
    ensures TipOf(cf, contents) == Ok(Some(DecodeKey(cf, k).value))
  {
    var kv := contents[cf];
    LastIsGreatest(kv);
    GreatestIsUnique(kv, k, AllRows(kv)[|AllRows(kv)| - 1].0);
  }

  lemma LastCopiedIsGreatest(cf: Cf, archive: Contents, view: Contents, m: nat)
    requires RoomAbove(cf, archive) && ResumeKey(cf, archive, view).Ok? && cf in view && cf in archive
    requires 0 < m <= |NewRows(cf, archive, view)|
    ensures IsGreatest(PutAll(archive[cf], NewRows(cf, archive, view)[..m]), NewRows(cf, archive, view)[m - 1].0)
  {
    var rows, start := NewRows(cf, archive, view), ResumeKey(cf, archive, view).value;
    var kv, last := PutAll(archive[cf], rows[..m]), rows[m - 1].0;
    assert !Below(last, start) by {
      assert last in InOrder(KeysFrom(view[cf], start));
    }
    assert last == RowKeys(rows[..m])[m - 1];
    PutAllKeys(archive[cf], rows[..m], last);
    forall j | j in kv
      ensures !Below(last, j)
    {
      PutAllKeys(archive[cf], rows[..m], j);
      if j in RowKeys(rows[..m]) {
        RowsEndHighest(view[cf], start, m, j);
      } else {
        ArchivedBelowResume(cf, archive, view, j);
        if Below(last, j) {
          BelowTransitive(last, j, start);
        }
      }
    }
  }

  lemma RowsEndHighest(kv: Kv, start: Bytes, m: nat, j: Bytes)
    requires 0 < m <= |RowsFrom(kv, start)| && j in RowKeys(RowsFrom(kv, start)[..m])
    ensures !Below(RowsFrom(kv, start)[m - 1].0, j)
  {
    var keys := InOrder(KeysFrom(kv, start));
    InOrderAscends(KeysFrom(kv, start));
    var i :| 0 <= i < m && RowsFrom(kv, start)[i].0 == j;
    BelowIrreflexive(j);
    if i < m - 1 && Below(keys[m - 1], j) {
      BelowTransitive(j, keys[m - 1], j);
    }
  }

  /** Everything archived sorts below the key a copy resumes from. */
  lemma ArchivedBelowResume(cf: Cf, archive: Contents, view: Contents, j: Bytes)
    requires RoomAbove(cf, archive) && ResumeKey(cf, archive, view).Ok?
    requires cf in archive && j in archive[cf]
    ensures Below(j, ResumeKey(cf, archive, view).value)
  {
    var kv := archive[cf];
    LastIsGreatest(kv);
    var top := AllRows(kv)[|AllRows(kv)| - 1].0;
    var tip := DecodeKey(cf, top).value;
    DecodedKeyReencodes(cf, top);
    KeyOrder(cf, tip, tip + 1);
    BelowTotal(j, top);
    if j != top {
      BelowTransitive(j, top, ResumeKey(cf, archive, view).value);
    }
  }

  // ---- Copying one journal ----

  /** What stops a copy other than a failing disk: a key or value that is not a journal's, a missing
      family, or no index left to resume from. */
  ghost predicate Blocked(cf: Cf, archive: Contents, view: Contents)
    requires RoomAbove(cf, archive)
  {
    ResumeKey(cf, archive, view).Err? || !Decodable(cf, NewRows(cf, archive, view))
  }

  /** The gap a pass announces: the node's floor lies above what an archive expects next. */
  ghost function GapIn(cf: Cf, archive: Contents, view: Contents): seq<P.Gap>
    requires RoomAbove(cf, archive)
  {
    match (TipOf(cf, archive), FloorOf(cf, view))
    case (Ok(Some(tip)), Ok(Some(floor))) =>
      if floor > tip + 1 then [P.Gap(cf, tip + 1, floor)] else []
    case _ => []
  }

  /** Put the batch that follows the rows already durable; say how many rows are durable then. */
  method Flush(archive: ArchiveStore, cf: Cf, batch: seq<Row>,
               ghost before: Contents, ghost rows: seq<Row>, ghost m: nat, ghost n: nat)
    returns (r: Result<()>, ghost durable: nat)
    requires m <= n <= |rows| && batch == rows[m..n]
    requires archive.db == Advanced(before, cf, rows[..m])
    modifies archive
    ensures durable == m || durable == n
    ensures archive.db == Advanced(before, cf, rows[..durable])
    ensures r.Ok? ==> durable == n && (batch == [] || cf in before)
    ensures r.Err? && r.error != Io ==> cf !in before && rows != []
    ensures r == Err(Io) ==> archive.flaky
  {
    AdvanceMore(before, cf, rows, m, n);
    r := archive.PutRaw(cf, batch);
    durable := if archive.db == Advanced(before, cf, rows[..n]) then n else m;
  }

  lemma ScanFindsNewRows(cf: Cf, archive: Contents, view: Contents, from: U64, rows: Result<seq<Row>>)
    requires RoomAbove(cf, archive)
    requires cf.IsJournal() && TipOf(cf, archive).Ok? && FloorOf(cf, view).Ok?
    requires from == ResumeIndex(TipOf(cf, archive).value, FloorOf(cf, view).value)
    requires rows == if cf !in view then Err(MissingFamily)
             else if EncodeKey(cf, from).Err? then Err(EncodeKey(cf, from).error)
             else Ok(RowsFrom(view[cf], EncodeKey(cf, from).value))
    ensures rows.Err? ==> rows.error != Io && ResumeKey(cf, archive, view).Err?
    ensures rows.Ok? ==> rows.value == NewRows(cf, archive, view) && ResumeKey(cf, archive, view).Ok?
  {
  }

  /** The scan loop: decode each row, frame it again, and commit every `BATCH` of them and the rest. */
  method CopyRows(archive: ArchiveStore, cf: Cf, rows: seq<Row>, archivedTip: Option<U64>, flaky: bool)
    returns (r: Result<(Option<U64>, nat)>, ghost committed: nat)
    modifies archive
    ensures CommittedPrefix(old(archive.db), cf, rows, committed, archive.db)
    ensures r.Ok? ==> committed == |rows| == r.value.1 && Decodable(cf, rows)
    ensures r.Ok? ==> r.value.0 ==
                      if rows == [] then archivedTip else Some(DecodeRow(cf, rows[|rows| - 1]).value.index)
    ensures r.Err? && r.error != Io ==> cf !in old(archive.db) || !Decodable(cf, rows)
    ensures r == Err(Io) ==> flaky || archive.flaky
  {
    hide Advanced, DecodeRow, DecodeKey, EncodeKey, Decodable, CommittedPrefix;
    ghost var before := archive.db;
    AdvanceNothing(before, cf);
    committed := 0;
    NoRowsDecode(cf);
    PrefixCommitted(before, cf, rows, 0, 0);
    var batch: seq<Row> := [];
    var highest := archivedTip;
    var copied := 0;
    for n := 0 to |rows|
      invariant copied == n && |batch| < P.BATCH && |batch| <= n
      invariant committed == n - |batch| && committed % P.BATCH == 0
      invariant batch == rows[committed..n]
      invariant archive.db == Advanced(before, cf, rows[..committed]) && Decodable(cf, rows[..n])
      invariant CommittedPrefix(before, cf, rows, committed, archive.db)
      invariant n > 0 ==> DecodeRow(cf, rows[n - 1]).Ok?
      invariant highest == if n == 0 then archivedTip else Some(DecodeRow(cf, rows[n - 1]).value.index)
    {
      if flaky {
        if * {
          return Err(Io), committed;
        }
      }
      var decoded := DecodeRow(cf, rows[n]);
      if decoded.Err? {
        BadRowBlocks(cf, rows, n);
        return Err(decoded.error), committed;
      }
      var entry := decoded.value;
      DecodedRowReencodes(cf, rows[n]);
      // An index decoded from this family's key always encodes again.
      var key := EncodeKey(cf, entry.index).value;
      batch := batch + [(key, entry.Framed())];
      highest := Some(entry.index);
      copied := copied + 1;
      OneMoreDecodes(cf, rows, n);

      if |batch| >= P.BATCH {
        var put;
        put, committed := Flush(archive, cf, batch, before, rows, committed, n + 1);
        PrefixCommitted(before, cf, rows, committed, n + 1);
        if put.Err? {
          return Err(put.error), committed;
        }
        batch := [];
      }
    }
    var put;
    put, committed := Flush(archive, cf, batch, before, rows, committed, |rows|);
    PrefixCommitted(before, cf, rows, committed, |rows|);
    if put.Err? {
      return Err(put.error), committed;
    }
    assert rows[..|rows|] == rows;
    r := Ok((highest, copied));
  }

  lemma PrefixCommitted(before: Contents, cf: Cf, rows: seq<Row>, m: nat, n: nat)
    requires m <= n <= |rows| && (m % P.BATCH == 0 || m == |rows|) && Decodable(cf, rows[..n])
    ensures CommittedPrefix(before, cf, rows, m, Advanced(before, cf, rows[..m]))
  {
    hide Advanced, DecodeRow;
    assert rows[..m] == rows[..n][..m];
  }

  lemma NoRowsDecode(cf: Cf)
    ensures Decodable(cf, [])
  {
  }

  lemma OneMoreDecodes(cf: Cf, rows: seq<Row>, n: nat)
    requires n < |rows| && Decodable(cf, rows[..n]) && DecodeRow(cf, rows[n]).Ok?
    ensures Decodable(cf, rows[..n + 1])
  {
    assert rows[..n + 1] == rows[..n] + [rows[n]];
  }

  /** Where a copy of the journal resumes, what gap lies before it, and the rows it will visit. */
  method Resume(source: HeadStore, archive: ArchiveStore, cf: Cf)
    returns (r: Result<(Option<U64>, seq<P.Gap>, seq<Row>)>)
    requires RoomAbove(cf, archive.db)
    ensures r.Ok? ==>
              && cf in archive.db && ResumeKey(cf, archive.db, source.view).Ok?
              && cf in source.view
              && TipOf(cf, archive.db) == Ok(r.value.0)
              && r.value.1 == GapIn(cf, archive.db, source.view)
              && r.value.2 == NewRows(cf, archive.db, source.view)
    ensures r.Err? && r.error != Io ==> ResumeKey(cf, archive.db, source.view).Err?
    ensures r == Err(Io) ==> source.flaky || archive.flaky
  {
    hide RowsFrom, AllRows, NewRows;
    NeverIo(cf, archive.db, source.view);
    var archivedTip :- archive.Tip(cf);
    if source.flaky {
      if * {
        return Err(Io);
      }
    }
    var nodeFloor :- source.Floor(cf);
    var from := ResumeIndex(archivedTip, nodeFloor);
    var gaps: seq<P.Gap> := [];
    if archivedTip.Some? && nodeFloor.Some? && nodeFloor.value > from {
      gaps := [P.Gap(cf, from, nodeFloor.value)];
    }
    ScanFindsNewRows(cf, archive.db, source.view, from, source.Scan(cf, from));
    var rows :- source.Scan(cf, from);
    return Ok((archivedTip, gaps, rows));
  }

  /** Reading what is there fails only for what it says. */
  lemma NeverIo(cf: Cf, archive: Contents, view: Contents)
    ensures TipOf(cf, archive) != Err(Io) && FloorOf(cf, view) != Err(Io)
  {
  }

  /** One journal's part of a pass. Of the rows it should get, `committed` are durable on return. */
  method CopyJournal(source: HeadStore, archive: ArchiveStore, cf: Cf, report: PassReport)
    returns (r: Result<PassReport>, ghost committed: nat)
    requires RoomAbove(cf, archive.db)
    modifies archive
    ensures CommittedPrefix(old(archive.db), cf, NewRows(cf, old(archive.db), source.view), committed, archive.db)
    ensures r.Ok? ==> !Blocked(cf, old(archive.db), source.view)
    ensures r.Err? && r.error != Io ==> Blocked(cf, old(archive.db), source.view)
    ensures r == Err(Io) ==> source.flaky || archive.flaky
    ensures r.Ok? ==> committed == |NewRows(cf, old(archive.db), source.view)|
    ensures r.Ok? ==> TipOf(cf, archive.db).Ok? && r.value.watermarks ==
                      match TipOf(cf, archive.db).value
                      case Some(tip) => report.watermarks[cf := tip]
                      case None => report.watermarks
    ensures r.Ok? ==> r.value.copied == if committed > 0 then report.copied[cf := committed] else report.copied
    ensures r.Ok? ==> r.value.gaps == report.gaps + GapIn(cf, old(archive.db), source.view)
  {
    hide Advanced, ResumeKey, NewRows, TipOf, DecodeRow, GapIn, RoomAbove;
    committed := 0;
    AdvanceNothing(archive.db, cf);
    ghost var before := archive.db;
    var resume :- Resume(source, archive, cf);
    var (archivedTip, gaps, rows) := resume;
    var copy;
    copy, committed := CopyRows(archive, cf, rows, archivedTip, source.flaky);
    if copy.Err? {
      return Err(copy.error), committed;
    }
    var (highest, copied) := copy.value;
    assert rows[..|rows|] == rows;
    CopyMovesTip(cf, before, source.view, |rows|);
    if rows != [] {
      DecodedRowReencodes(cf, rows[|rows| - 1]);
    }
    r := Ok(PassReport(
      match highest case Some(tip) => report.watermarks[cf := tip] case None => report.watermarks,
      if copied > 0 then report.copied[cf := copied] else report.copied,
      report.gaps + gaps));
  }

  lemma BadRowBlocks(cf: Cf, rows: seq<Row>, n: nat)
    requires n < |rows| && DecodeRow(cf, rows[n]).Err?
    ensures DecodeRow(cf, rows[n]).error != Io
    ensures !Decodable(cf, rows)
  {
  }

  // ---- Copying a family that has no index ----

  ghost function FamilyRows(cf: Cf, view: Contents): seq<Row> {
    if cf in view then AllRows(view[cf]) else []
  }

  /** The copy loop for rows that are not decoded. */
  method CopyRaw(archive: ArchiveStore, cf: Cf, rows: seq<Row>, flaky: bool)
    returns (r: Result<nat>, ghost committed: nat)
    requires !cf.IsJournal()
    modifies archive
    ensures CommittedPrefix(old(archive.db), cf, rows, committed, archive.db)
    ensures r.Ok? ==> committed == |rows| == r.value && (rows == [] || cf in old(archive.db))
    ensures r.Err? && r.error != Io ==> cf !in old(archive.db) && rows != []
    ensures r == Err(Io) ==> flaky || archive.flaky
  {
    hide Advanced, CommittedPrefix;
    ghost var before := archive.db;
    AdvanceNothing(before, cf);
    committed := 0;
    RawCommitted(before, cf, rows, 0);
    var batch: seq<Row> := [];
    var copied := 0;
    for n := 0 to |rows|
      invariant copied == n && |batch| < P.BATCH && |batch| <= n
      invariant committed == n - |batch| && committed % P.BATCH == 0
      invariant batch == rows[committed..n] && CommittedPrefix(before, cf, rows, committed, archive.db)
      invariant archive.db == Advanced(before, cf, rows[..committed]) && (committed > 0 ==> cf in before)
    {
      if flaky {
        if * {
          return Err(Io), committed;
        }
      }
      batch := batch + [rows[n]];
      copied := copied + 1;
      if |batch| >= P.BATCH {
        var put;
        put, committed := Flush(archive, cf, batch, before, rows, committed, n + 1);
        RawCommitted(before, cf, rows, committed);
        if put.Err? {
          return Err(put.error), committed;
        }
        batch := [];
      }
    }
    var put;
    put, committed := Flush(archive, cf, batch, before, rows, committed, |rows|);
    RawCommitted(before, cf, rows, committed);
    if put.Err? {
      return Err(put.error), committed;
    }
    r := Ok(copied);
  }

  lemma RawCommitted(before: Contents, cf: Cf, rows: seq<Row>, m: nat)
    requires !cf.IsJournal() && m <= |rows| && (m % P.BATCH == 0 || m == |rows|)
    ensures CommittedPrefix(before, cf, rows, m, Advanced(before, cf, rows[..m]))
  {
    hide Advanced;
  }

  /** The part of a family that is no journal: all its rows, whether new or not. */
  method CopyFamily(source: HeadStore, archive: ArchiveStore, cf: Cf, report: PassReport)
    returns (r: Result<PassReport>, ghost committed: nat)
    requires !cf.IsJournal()
    modifies archive
    ensures CommittedPrefix(old(archive.db), cf, FamilyRows(cf, source.view), committed, archive.db)
    ensures r.Ok? ==> cf in source.view && committed == |FamilyRows(cf, source.view)|
    ensures r.Ok? ==> cf in old(archive.db) || source.view[cf] == map[]
    ensures r.Ok? ==> r.value.watermarks == report.watermarks && r.value.gaps == report.gaps
    ensures r.Ok? ==> r.value.copied == if committed > 0 then report.copied[cf := committed] else report.copied
    ensures r.Err? && r.error != Io ==> cf !in source.view || (cf !in old(archive.db) && source.view[cf] != map[])
    ensures r == Err(Io) ==> source.flaky || archive.flaky
  {
    committed := 0;
    AdvanceNothing(archive.db, cf);
    var rows :- source.ScanRaw(cf);
    assert rows == [] <==> source.view[cf] == map[] by {
      if source.view[cf] != map[] {
        LastIsGreatest(source.view[cf]);
      }
    }
    var copy;
    copy, committed := CopyRaw(archive, cf, rows, source.flaky);
    if copy.Err? {
      return Err(copy.error), committed;
    }
    var copied := copy.value;
    r := Ok(report.(copied := if copied > 0 then report.copied[cf := copied] else report.copied));
  }

  // ---- The whole pass ----

  /** What a pass over this view has to put in one family. */
  ghost function RowsFor(cf: Cf, before: Contents, view: Contents, full: bool): seq<Row> {
    if cf.IsJournal() then if RoomAbove(cf, before) then NewRows(cf, before, view) else []
    else if full then FamilyRows(cf, view)
    else []
  }

  /**
   Something other than a failing disk keeps a pass from copying this family: a journal's rows or keys are
   not a journal's, or either side lacks the family. An empty family is not missed in the archive.
   */
  ghost predicate Hindered(cf: Cf, before: Contents, view: Contents, full: bool) {
    if cf.IsJournal() then RoomAbove(cf, before) && Blocked(cf, before, view)
    else full && (cf !in view || (cf !in before && view[cf] != map[]))
  }

  /** The families in `done` received everything, the others nothing; what journals received decodes. */
  ghost predicate Transferred(before: Contents, view: Contents, full: bool, done: set<Cf>, after: Contents) {
    && after.Keys == before.Keys
    && (forall cf :: cf in done && cf.IsJournal() ==> Decodable(cf, RowsFor(cf, before, view, full)))
    && forall cf :: cf in before ==>
         after[cf] == if cf in done then PutAll(before[cf], RowsFor(cf, before, view, full)) else before[cf]
  }

  /** A pass that stopped early finished the families in `done`, left one family with a prefix of its
      rows, and touched no other. */
  ghost predicate StoppedIn(before: Contents, view: Contents, full: bool, all: set<Cf>,
                            done: set<Cf>, db: Contents, cf: Cf, m: nat, after: Contents) {
    && cf !in done && done + {cf} <= all
    && Transferred(before, view, full, done, db)
    && CommittedPrefix(db, cf, RowsFor(cf, before, view, full), m, after)
  }

  ghost predicate Stopped(before: Contents, view: Contents, full: bool, all: set<Cf>, after: Contents) {
    after == before || exists done, db, cf, m: nat :: StoppedIn(before, view, full, all, done, db, cf, m, after)
  }

  /** The report names each finished journal's tip and the number of rows each family received. */
  ghost predicate Accounts(report: PassReport, before: Contents, view: Contents, full: bool, done: set<Cf>,
                           after: Contents) {
    && (forall cf :: cf in report.watermarks <==>
          cf in done && cf.IsJournal() && TipOf(cf, after).Ok? && TipOf(cf, after).value.Some?)
    && (forall cf :: cf in report.watermarks ==> TipOf(cf, after) == Ok(Some(report.watermarks[cf])))
    && (forall cf :: cf in report.copied <==> cf in done && RowsFor(cf, before, view, full) != [])
    && (forall cf :: cf in report.copied ==> report.copied[cf] == |RowsFor(cf, before, view, full)|)
  }

  ghost function GapsIn(journals: seq<Cf>, before: Contents, view: Contents): seq<P.Gap>
    requires forall cf :: cf in journals ==> RoomAbove(cf, before)
  {
    if journals == [] then []
    else
      assert journals[|journals| - 1] in journals;
      GapsIn(journals[..|journals| - 1], before, view) + GapIn(journals[|journals| - 1], before, view)
  }

  lemma {:induction false} JournalsStayDistinct(families: seq<Cf>)
    requires AllDifferent(families)
    ensures AllDifferent(JournalsAmong(families))
  {
    if families != [] {
      JournalsStayDistinct(families[1..]);
      assert families[0] !in JournalsAmong(families[1..]);
    }
  }

  /** What the pass sees of one family does not depend on the others. */
  lemma RowsAreLocal(cf: Cf, a: Contents, b: Contents, view: Contents)
    requires cf in a && cf in b && a[cf] == b[cf] && RoomAbove(cf, a)
    ensures RoomAbove(cf, b) && NewRows(cf, a, view) == NewRows(cf, b, view)
    ensures GapIn(cf, a, view) == GapIn(cf, b, view)
    ensures TipOf(cf, a) == TipOf(cf, b) && ResumeKey(cf, a, view) == ResumeKey(cf, b, view)
  {
    hide TipOf, FloorOf, EncodeKey, RowsFrom, KeysFrom, InOrder;
    TipIsLocal(cf, a, b);
    assert ResumeKey(cf, a, view) == ResumeKey(cf, b, view);
  }

  ghost function Members(families: seq<Cf>): set<Cf> {
    set cf | cf in families
  }

  lemma TransferOne(before: Contents, view: Contents, full: bool, done: set<Cf>, db: Contents, cf: Cf, after: Contents)
    requires Transferred(before, view, full, done, db) && cf !in done
    requires after == Advanced(db, cf, RowsFor(cf, before, view, full))
    requires cf.IsJournal() ==> Decodable(cf, RowsFor(cf, before, view, full))
    ensures Transferred(before, view, full, done + {cf}, after)
  {
    hide RowsFor;
  }

  /** However a pass stops, each family holds what it held and the first few of its new rows. */
  lemma StoppedLeavesPrefixes(before: Contents, view: Contents, full: bool, all: set<Cf>, after: Contents, cf: Cf)
    requires Stopped(before, view, full, all, after) && cf in before
    ensures after.Keys == before.Keys
    ensures exists m :: 0 <= m <= |RowsFor(cf, before, view, full)|
                        && after[cf] == PutAll(before[cf], RowsFor(cf, before, view, full)[..m])
                        && (cf.IsJournal() ==> Decodable(cf, RowsFor(cf, before, view, full)[..m]))
  {
    hide RowsFor, StoppedIn, DecodeRow;
    var rows := RowsFor(cf, before, view, full);
    if after == before {
      assert after[cf] == PutAll(before[cf], rows[..0]);
    } else {
      var done, db, c, m: nat :| StoppedIn(before, view, full, all, done, db, c, m, after);
      StoppedLeavesPrefix(before, view, full, all, done, db, c, m, after, cf);
    }
  }

  lemma StoppedLeavesPrefix(before: Contents, view: Contents, full: bool, all: set<Cf>, done: set<Cf>, db: Contents,
                            c: Cf, m: nat, after: Contents, cf: Cf)
    requires StoppedIn(before, view, full, all, done, db, c, m, after) && cf in before
    ensures after.Keys == before.Keys
    ensures exists n :: 0 <= n <= |RowsFor(cf, before, view, full)|
                        && after[cf] == PutAll(before[cf], RowsFor(cf, before, view, full)[..n])
                        && (cf.IsJournal() ==> Decodable(cf, RowsFor(cf, before, view, full)[..n]))
  {
    hide RowsFor, DecodeRow;
    var rows := RowsFor(cf, before, view, full);
    var n := if cf == c then m else if cf in done then |rows| else 0;
    assert rows[..|rows|] == rows;
    assert after[cf] == PutAll(before[cf], rows[..n]);
  }

  /** Families for which the pass has nothing count as done. */
  lemma NothingMoreToDo(before: Contents, view: Contents, full: bool, done: set<Cf>, db: Contents, all: set<Cf>,
                        report: PassReport)
    requires Transferred(before, view, full, done, db) && Accounts(report, before, view, full, done, db)
    requires done <= all
    requires forall cf :: cf in all && cf !in done ==> !cf.IsJournal() && RowsFor(cf, before, view, full) == []
    ensures Transferred(before, view, full, all, db) && Accounts(report, before, view, full, all, db)
  {
    hide RowsFor, TipOf;
  }

  lemma AccountOne(before: Contents, view: Contents, full: bool, done: set<Cf>, db: Contents, report: PassReport,
                   cf: Cf, after: Contents, next: PassReport)
    requires Accounts(report, before, view, full, done, db) && cf !in done
    requires db.Keys == after.Keys && forall c :: c in db && c != cf ==> after[c] == db[c]
    requires next.copied == if RowsFor(cf, before, view, full) == [] then report.copied
                            else report.copied[cf := |RowsFor(cf, before, view, full)|]
    requires next.watermarks ==
             if cf.IsJournal() && TipOf(cf, after).Ok? && TipOf(cf, after).value.Some?
             then report.watermarks[cf := TipOf(cf, after).value.value] else report.watermarks
    ensures Accounts(next, before, view, full, done + {cf}, after)
  {
    hide RowsFor, TipOf;
    forall c | c in done
      ensures TipOf(c, db) == TipOf(c, after)
    {
      TipIsLocal(c, db, after);
    }
  }

  lemma TipIsLocal(cf: Cf, a: Contents, b: Contents)
    requires (cf in a <==> cf in b) && (cf in a ==> a[cf] == b[cf])
    ensures TipOf(cf, a) == TipOf(cf, b)
  {
  }

  lemma StillToDo(before: Contents, view: Contents, full: bool, done: set<Cf>, db: Contents, cf: Cf)
    requires Transferred(before, view, full, done, db) && cf !in done && cf.IsJournal() && RoomAbove(cf, before)
    ensures RoomAbove(cf, db)
    ensures NewRows(cf, db, view) == RowsFor(cf, before, view, full)
    ensures GapIn(cf, db, view) == GapIn(cf, before, view)
    ensures Blocked(cf, db, view) <==> Hindered(cf, before, view, full)
  {
    hide GapIn, NewRows, TipOf, DecodeRow;
    if cf in before {
      RowsAreLocal(cf, before, db, view);
    } else {
      MissingIsLocal(cf, before, db, view);
    }
  }

  lemma MissingIsLocal(cf: Cf, a: Contents, b: Contents, view: Contents)
    requires cf !in a && cf !in b
    ensures RoomAbove(cf, a) && RoomAbove(cf, b)
    ensures NewRows(cf, a, view) == NewRows(cf, b, view) && GapIn(cf, a, view) == GapIn(cf, b, view)
    ensures ResumeKey(cf, a, view) == ResumeKey(cf, b, view)
  {
  }

  /** One turn of the journal loop: `done` journals are behind it, and this one joins them or stops. */
  method CopyNext(source: HeadStore, archive: ArchiveStore, cf: Cf, report: PassReport,
                  ghost before: Contents, ghost full: bool, ghost done: set<Cf>, ghost all: set<Cf>)
    returns (r: Result<PassReport>)
    requires cf.IsJournal() && RoomAbove(cf, before) && cf !in done && done + {cf} <= all
    requires Transferred(before, source.view, full, done, archive.db)
    requires Accounts(report, before, source.view, full, done, archive.db)
    modifies archive
    ensures r.Ok? ==> Transferred(before, source.view, full, done + {cf}, archive.db)
    ensures r.Ok? ==> Accounts(r.value, before, source.view, full, done + {cf}, archive.db)
    ensures r.Ok? ==> r.value.gaps == report.gaps + GapIn(cf, before, source.view)
    ensures r.Ok? ==> !Hindered(cf, before, source.view, full)
    ensures r.Err? ==> Stopped(before, source.view, full, all, archive.db)
    ensures r.Err? && r.error != Io ==> Hindered(cf, before, source.view, full)
    ensures r == Err(Io) ==> source.flaky || archive.flaky
  {
    hide NewRows, GapIn, TipOf, RoomAbove, Transferred, Accounts, CommittedPrefix, RowsFor, Hindered, Blocked;
    ghost var db := archive.db;
    StillToDo(before, source.view, full, done, db, cf);
    ghost var committed;
    r, committed := CopyJournal(source, archive, cf, report);
    if r.Err? {
      assert StoppedIn(before, source.view, full, all, done, db, cf, committed, archive.db);
    } else {
      JournalDone(before, source.view, full, done, db, report, cf, committed, archive.db, r.value);
    }
  }

  lemma NoJournals(journals: seq<Cf>, before: Contents, view: Contents)
    ensures Members(journals[..0]) == {} && GapsIn(journals[..0], before, view) == []
  {
  }

  lemma OneMoreJournal(families: seq<Cf>, journals: seq<Cf>, before: Contents, view: Contents, k: nat)
    requires k < |journals| && AllDifferent(journals)
    requires forall cf :: cf in journals ==> cf in families && RoomAbove(cf, before)
    ensures journals[k] !in Members(journals[..k]) && Members(journals[..k]) + {journals[k]} <= Members(families)
    ensures Members(journals[..k + 1]) == Members(journals[..k]) + {journals[k]}
    ensures GapsIn(journals[..k + 1], before, view) ==
            GapsIn(journals[..k], before, view) + GapIn(journals[k], before, view)
  {
    hide RoomAbove, GapIn;
    assert journals[..k + 1] == journals[..k] + [journals[k]];
    assert journals[..k + 1][..k] == journals[..k];
  }

  /** Copy every journal in turn. */
  method CopyJournals(source: HeadStore, archive: ArchiveStore, ghost full: bool) returns (r: Result<PassReport>)
    requires AllDifferent(source.families)
    requires forall cf :: cf in source.families ==> RoomAbove(cf, archive.db)
    modifies archive
    ensures r.Ok? ==> Transferred(old(archive.db), source.view, full, Members(JournalsAmong(source.families)),
                                  archive.db)
    ensures r.Ok? ==> Accounts(r.value, old(archive.db), source.view, full, Members(JournalsAmong(source.families)),
                               archive.db)
    ensures r.Ok? ==> r.value.gaps == GapsIn(JournalsAmong(source.families), old(archive.db), source.view)
    ensures r.Ok? ==> forall cf :: cf in source.families && cf.IsJournal() ==>
                                     !Hindered(cf, old(archive.db), source.view, full)
    ensures r.Err? ==> Stopped(old(archive.db), source.view, full, Members(source.families), archive.db)
    ensures r.Err? && r.error != Io ==>
              exists cf :: cf in source.families && Hindered(cf, old(archive.db), source.view, full)
    ensures r == Err(Io) ==> source.flaky || archive.flaky
  {
    hide GapIn, GapsIn, RoomAbove, Transferred, Accounts, StoppedIn, Stopped, Members, AllDifferent, Hindered;
    ghost var before, all := archive.db, Members(source.families);
    StartTransfer(before, source.view, full);
    var report := PassReport(map[], map[], []);
    var journals := source.Journals();
    JournalsStayDistinct(source.families);
    NoJournals(journals, before, source.view);
    for k := 0 to |journals|
      invariant Transferred(before, source.view, full, Members(journals[..k]), archive.db)
      invariant Accounts(report, before, source.view, full, Members(journals[..k]), archive.db)
      invariant report.gaps == GapsIn(journals[..k], before, source.view)
      invariant forall cf :: cf in journals[..k] ==> !Hindered(cf, before, source.view, full)
    {
      var cf := journals[k];
      OneMoreJournal(source.families, journals, before, source.view, k);
      report :- CopyNext(source, archive, cf, report, before, full, Members(journals[..k]), all);
    }
    assert journals[..|journals|] == journals;
    r := Ok(report);
  }

  /** Copy every family that is not a journal. */
  method CopyFamilies(source: HeadStore, archive: ArchiveStore, report: PassReport, ghost before: Contents)
    returns (r: Result<PassReport>)
    requires AllDifferent(source.families)
    requires Transferred(before, source.view, true, Members(JournalsAmong(source.families)), archive.db)
    requires Accounts(report, before, source.view, true, Members(JournalsAmong(source.families)), archive.db)
    modifies archive
    ensures r.Ok? ==> Transferred(before, source.view, true, Members(source.families), archive.db)
    ensures r.Ok? ==> Accounts(r.value, before, source.view, true, Members(source.families), archive.db)
    ensures r.Ok? ==> r.value.gaps == report.gaps
    ensures r.Ok? ==> forall cf :: cf in source.families && !cf.IsJournal() ==>
                                     !Hindered(cf, before, source.view, true)
    ensures r.Err? ==> Stopped(before, source.view, true, Members(source.families), archive.db)
    ensures r.Err? && r.error != Io ==>
              exists cf :: cf in source.families && Hindered(cf, before, source.view, true)
    ensures r == Err(Io) ==> source.flaky || archive.flaky
  {
    hide Advanced, Transferred, Accounts, CommittedPrefix, FamilyRows, Blocked, RoomAbove;
    ghost var all, done := Members(source.families), Members(JournalsAmong(source.families));
    var families, current := source.families, report;
    for k := 0 to |families|
      invariant done == Members(JournalsAmong(families)) + (set cf | cf in families[..k] && !cf.IsJournal())
      invariant Transferred(before, source.view, true, done, archive.db)
      invariant Accounts(current, before, source.view, true, done, archive.db)
      invariant current.gaps == report.gaps
      invariant forall cf :: cf in families[..k] && !cf.IsJournal() ==> !Hindered(cf, before, source.view, true)
    {
      var cf := families[k];
      if !cf.IsJournal() {
        ghost var db := archive.db;
        assert cf !in done;
        SameFamilies(before, source.view, true, done, db);
        ghost var committed;
        var copy;
        copy, committed := CopyFamily(source, archive, cf, current);
        if copy.Err? {
          assert StoppedIn(before, source.view, true, all, done, db, cf, committed, archive.db);
          return Err(copy.error);
        }
        FamilyDone(before, source.view, true, done, db, current, cf, committed, archive.db, copy.value);
        current := copy.value;
        done := done + {cf};
      }
    }
    assert done == all;
    r := Ok(current);
  }

  /** Run one pass: one catch-up, then every journal, then, if `full`, every other family. */
  method Run(source: HeadStore, archive: ArchiveStore, primary: Contents, full: bool)
    returns (r: Result<PassReport>)
    requires AllDifferent(source.families)
    requires forall cf :: cf in source.families ==> RoomAbove(cf, archive.db)
    modifies source, archive
    ensures source.view == old(source.view) || source.view == Shown(source.families, primary)
    ensures r.Ok? ==> source.view == Shown(source.families, primary)
    ensures r.Ok? ==> forall cf :: cf in source.view <==> cf in source.families && cf in primary
    ensures r.Ok? ==> forall cf :: cf in source.view ==> source.view[cf] == primary[cf]
    ensures r.Ok? ==> forall cf :: cf in source.families ==> !Hindered(cf, old(archive.db), source.view, full)
    ensures r.Err? && r.error != Io ==>
              exists cf :: cf in source.families && Hindered(cf, old(archive.db), source.view, full)
    ensures r == Err(Io) ==> source.flaky || archive.flaky
    ensures r.Ok? ==> Transferred(old(archive.db), source.view, full, Members(source.families), archive.db)
    ensures r.Ok? ==> Accounts(r.value, old(archive.db), source.view, full, Members(source.families), archive.db)
    ensures r.Ok? ==> r.value.gaps == GapsIn(JournalsAmong(source.families), old(archive.db), source.view)
    ensures r.Err? ==> Stopped(old(archive.db), source.view, full, Members(source.families), archive.db)
    ensures archive.db.Keys == old(archive.db).Keys
    ensures !full ==> forall cf :: cf in old(archive.db) && !cf.IsJournal() ==> archive.db[cf] == old(archive.db)[cf]
  {
    hide RoomAbove, Transferred, Accounts, Stopped, StoppedIn, Blocked, Shown;
    ghost var before, all := archive.db, Members(source.families);
    NotStarted(before, source.view, full, all);
    var caught := source.CatchUp(primary);
    if caught.Err? {
      NotStarted(before, source.view, full, all);
      OthersUntouched(before, source.view, full, all, archive.db);
      return Err(caught.error);
    }
    var journals := CopyJournals(source, archive, full);
    if journals.Err? {
      OthersUntouched(before, source.view, full, all, archive.db);
      return Err(journals.error);
    }
    var report := journals.value;
    if full {
      r := CopyFamilies(source, archive, report, before);
    } else {
      NothingMoreToDo(before, source.view, full, Members(JournalsAmong(source.families)), archive.db, all, report);
      r := Ok(report);
    }
    OthersUntouched(before, source.view, full, all, archive.db);
  }

  lemma NotStarted(before: Contents, view: Contents, full: bool, all: set<Cf>)
    ensures Stopped(before, view, full, all, before)
  {
  }

  /** A pass that is not full leaves the families without an index alone, and no pass adds or drops a family. */
  lemma OthersUntouched(before: Contents, view: Contents, full: bool, all: set<Cf>, after: Contents)
    requires Transferred(before, view, full, all, after) || Stopped(before, view, full, all, after)
    ensures after.Keys == before.Keys
    ensures !full ==> forall cf :: cf in before && !cf.IsJournal() ==> after[cf] == before[cf]
  {
    if !Transferred(before, view, full, all, after) && after != before {
      var done, db, c, m: nat :| StoppedIn(before, view, full, all, done, db, c, m, after);
      assert after.Keys == db.Keys == before.Keys;
    }
    forall cf | !full && cf in before && !cf.IsJournal()
      ensures after[cf] == before[cf]
    {
      assert RowsFor(cf, before, view, full) == [];
      if Stopped(before, view, full, all, after) {
        StoppedLeavesPrefixes(before, view, full, all, after, cf);
      }
    }
  }

  lemma SameFamilies(before: Contents, view: Contents, full: bool, done: set<Cf>, db: Contents)
    requires Transferred(before, view, full, done, db)
    ensures db.Keys == before.Keys
  {
    hide RowsFor;
  }

  lemma StartTransfer(before: Contents, view: Contents, full: bool)
    ensures Transferred(before, view, full, {}, before)
    ensures Accounts(PassReport(map[], map[], []), before, view, full, {}, before)
  {
    hide RowsFor;
  }

  lemma JournalDone(before: Contents, view: Contents, full: bool, done: set<Cf>, db: Contents, report: PassReport,
                    cf: Cf, committed: nat, after: Contents, next: PassReport)
    requires Transferred(before, view, full, done, db) && cf !in done && cf.IsJournal()
    requires Accounts(report, before, view, full, done, db)
    requires CommittedPrefix(db, cf, RowsFor(cf, before, view, full), committed, after)
    requires committed == |RowsFor(cf, before, view, full)|
    requires next.copied == if committed > 0 then report.copied[cf := committed] else report.copied
    requires TipOf(cf, after).Ok? && next.watermarks ==
             match TipOf(cf, after).value case Some(tip) => report.watermarks[cf := tip] case None => report.watermarks
    ensures Transferred(before, view, full, done + {cf}, after)
    ensures Accounts(next, before, view, full, done + {cf}, after)
  {
    hide RowsFor, Accounts, TipOf;
    var rows := RowsFor(cf, before, view, full);
    assert rows[..committed] == rows;
    TransferOne(before, view, full, done, db, cf, after);
    AccountOne(before, view, full, done, db, report, cf, after, next);
  }

  lemma FamilyDone(before: Contents, view: Contents, full: bool, done: set<Cf>, db: Contents, report: PassReport,
                   cf: Cf, committed: nat, after: Contents, next: PassReport)
    requires Transferred(before, view, full, done, db) && cf !in done && !cf.IsJournal()
    requires Accounts(report, before, view, full, done, db)
    requires CommittedPrefix(db, cf, RowsFor(cf, before, view, full), committed, after)
    requires committed == |RowsFor(cf, before, view, full)|
    requires next.copied == if committed > 0 then report.copied[cf := committed] else report.copied
    requires next.watermarks == report.watermarks
    ensures Transferred(before, view, full, done + {cf}, after)
    ensures Accounts(next, before, view, full, done + {cf}, after)
  {
    hide RowsFor, Accounts, TipOf;
    var rows := RowsFor(cf, before, view, full);
    assert rows[..committed] == rows;
    TransferOne(before, view, full, done, db, cf, after);
    AccountOne(before, view, full, done, db, report, cf, after, next);
  }
}
