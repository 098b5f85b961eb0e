/** The node's store as a read-only secondary shows it, and the archive the copies go to. */
module Stores {
  import opened ByteStrings
  import opened Families
  import opened FamilyNames
  import opened Journals
  import opened OrderedStore
  import opened Outcomes

  /** The index in the last row of a journal, by seeking to its end. */
  function TipOf(cf: Cf, contents: Contents): Result<Option<U64>> {
    if cf !in contents then Err(MissingFamily)
    else
      var rows := AllRows(contents[cf]);
      if rows == [] then Ok(None)
      else
        var index :- DecodeKey(cf, rows[|rows| - 1].0);
        Ok(Some(index))
  }

  /** The index in the first row of a journal. */
  function FloorOf(cf: Cf, contents: Contents): Result<Option<U64>> {
    if cf !in contents then Err(MissingFamily)
    else
      var rows := AllRows(contents[cf]);
      if rows == [] then Ok(None)
      else
        var index :- DecodeKey(cf, rows[0].0);
        Ok(Some(index))
  }

  function JournalsAmong(families: seq<Cf>): (journals: seq<Cf>)
    ensures forall cf :: cf in journals <==> cf in families && cf.IsJournal()
  {
    if families == [] then []
    else (if families[0].IsJournal() then [families[0]] else []) + JournalsAmong(families[1..])
  }

  /** What a secondary opened with these families can see of a primary. */
  function Shown(families: seq<Cf>, primary: Contents): Contents {
    map cf | cf in families && cf in primary :: primary[cf]
  }

  class HeadStore {
    /** The families found on disk when the store was opened. */
    const families: seq<Cf>
    /** The names found there that this build does not recognise. */
    const unknownFamilies: seq<string>
    /** Whether the disk may fail. */
    const flaky: bool
    /** What the primary held at the last catch-up. Nothing else moves it. */
    var view: Contents

    constructor (families: seq<Cf>, unknownFamilies: seq<string>, primary: Contents, flaky: bool)
      ensures this.families == families && this.unknownFamilies == unknownFamilies && this.flaky == flaky
      ensures view == Shown(families, primary)
    {
      this.families := families;
      this.unknownFamilies := unknownFamilies;
      this.flaky := flaky;
      view := Shown(families, primary);
    }

    /** Open a primary as a secondary, with the families that its disk lists by name. */
    static method Open(names: seq<string>, primary: Contents, flaky: bool) returns (r: Result<HeadStore>)
      ensures r.Ok? ==> fresh(r.value) && r.value.flaky == flaky && r.value.families == Sorted(Known(names))
      ensures r.Ok? ==> forall cf :: cf in r.value.families <==>
                          exists name :: name in names && name != "default" && Cf.Parse(name) == Some(cf)
      ensures r.Ok? ==> forall name :: name in r.value.unknownFamilies <==>
                          name in names && name != "default" && Cf.Parse(name).None?
      ensures r.Ok? ==> r.value.unknownFamilies == Unknown(names) && r.value.view == Shown(r.value.families, primary)
      ensures r.Ok? ==> forall cf :: cf in r.value.view <==> cf in r.value.families && cf in primary
      ensures r.Ok? ==> forall cf :: cf in r.value.view ==> r.value.view[cf] == primary[cf]
      ensures r.Err? ==> r.error == Io && flaky
    {
      if flaky {
        if * {
          return Err(Io);
        }
      }
      var families: seq<Cf>, unknown: seq<string> := [], [];
      for i := 0 to |names|
        invariant families == Known(names[..i]) && unknown == Unknown(names[..i])
      {
        assert names[..i + 1][..i] == names[..i];
        var name := names[i];
        if name == DEFAULT {
          continue;
        }
        match Cf.Parse(name)
        case Some(cf) => families := families + [cf];
        case None => unknown := unknown + [name];
      }
      assert names[..|names|] == names;
      OpenedAre(names);
      var store := new HeadStore(Sorted(families), unknown, primary, flaky);
      return Ok(store);
    }

    /** Move the view to the primary's present contents, for the families known at open. */
    method CatchUp(primary: Contents) returns (r: Result<()>)
      modifies this
      ensures r.Ok? ==> view == Shown(families, primary)
      ensures r.Ok? ==> forall cf :: cf in view <==> cf in families && cf in primary
      ensures r.Ok? ==> forall cf :: cf in view ==> view[cf] == primary[cf]
      ensures r.Err? ==> r.error == Io && flaky && view == old(view)
    {
      if flaky {
        if * {
          return Err(Io);
        }
      }
      view := Shown(families, primary);
      return Ok(());
    }

    /** The families that are append streams. */
    function Journals(): seq<Cf> {
      JournalsAmong(families)
    }

    function Floor(cf: Cf): Result<Option<U64>>
      reads this
    {
      FloorOf(cf, view)
    }

    function ScanRaw(cf: Cf): Result<seq<Row>>
      reads this
    {
      if cf !in view then Err(MissingFamily) else Ok(AllRows(view[cf]))
    }

    /** The rows a scan will visit; each is decoded only when it is reached. */
    function Scan(cf: Cf, from: U64): Result<seq<Row>>
      reads this
    {
      if !cf.IsJournal() then Err(NotAJournal)
      else if cf !in view then Err(MissingFamily)
      else
        var start :- EncodeKey(cf, from);
        Ok(RowsFrom(view[cf], start))
    }
  }

  /** A scanned row as a journal entry. */
  function DecodeRow(cf: Cf, row: Row): Result<Entry> {
    var index :- DecodeKey(cf, row.0);
    var (stamp, payload) :- Unframe(row.1);
    Ok(Entry(cf, index, stamp, payload))
  }

  datatype Write = Put(cf: Cf, key: Bytes, value: Bytes)

  function Written(contents: Contents, batch: seq<Write>): Contents
    requires forall w :: w in batch ==> w.cf in contents
    ensures Written(contents, batch).Keys == contents.Keys
  {
    if batch == [] then contents
    else
      var last := batch[|batch| - 1];
      var before := Written(contents, batch[..|batch| - 1]);
      assert last in batch;
      before[last.cf := before[last.cf][last.key := last.value]]
  }

  /** The archive after rows were written to one of its families. */
  function Advanced(contents: Contents, cf: Cf, rows: seq<Row>): Contents {
    if cf in contents then contents[cf := PutAll(contents[cf], rows)] else contents
  }

  /** The archive as it is opened: the families it lacks are created empty. */
  function Prepared(families: seq<Cf>, existing: Contents): Contents {
    map cf | cf in families :: if cf in existing then existing[cf] else map[]
  }

  class ArchiveStore {
    /** Whether the disk may fail. */
    const flaky: bool
    var db: Contents

    constructor (families: seq<Cf>, existing: Contents, flaky: bool)
      ensures db == Prepared(families, existing) && this.flaky == flaky
    {
      this.flaky := flaky;
      db := Prepared(families, existing);
    }

    method Tip(cf: Cf) returns (r: Result<Option<U64>>)
      ensures (flaky && r == Err(Io)) || r == if cf.IsJournal() then TipOf(cf, db) else Err(NotAJournal)
    {
      if flaky {
        if * {
          return Err(Io);
        }
      }
      if !cf.IsJournal() {
        return Err(NotAJournal);
      }
      return TipOf(cf, db);
    }

    /** Write a batch durably: all of it or, when the disk fails, possibly none of it. */
    method Commit(batch: seq<Write>) returns (r: Result<()>)
      requires forall w :: w in batch ==> w.cf in db
      modifies this
      ensures r.Ok? ==> db == Written(old(db), batch)
      ensures r.Err? ==> r.error == Io && flaky && (db == old(db) || db == Written(old(db), batch))
    {
      if flaky {
        if {
          case true =>
          case true =>
            return Err(Io);
          case true =>
            db := Written(db, batch);
            return Err(Io);
        }
      }
      db := Written(db, batch);
      return Ok(());
    }

    /** Write raw rows to one family in one commit. */
    method PutRaw(cf: Cf, entries: seq<Row>) returns (r: Result<()>)
      modifies this
      ensures r.Ok? ==> db == Advanced(old(db), cf, entries) && (entries == [] || cf in db)
      ensures r.Err? ==> db == old(db) || db == Advanced(old(db), cf, entries)
      ensures r.Err? && r.error != Io ==> cf !in db && entries != []
      ensures r == Err(Io) ==> flaky
    {
      if entries == [] {
        return Ok(());
      }
      if cf !in db {
        return Err(MissingFamily);
      }
      var batch: seq<Write> := [];
      for i := 0 to |entries|
        invariant batch == Puts(cf, entries[..i])
      {
        batch := batch + [Put(cf, entries[i].0, entries[i].1)];
      }
      assert entries[..|entries|] == entries;
      PutsAdvance(db, cf, entries);
      r := Commit(batch);
    }
  }

  function Puts(cf: Cf, rows: seq<Row>): (batch: seq<Write>)
    ensures |batch| == |rows|
    ensures forall w :: w in batch ==> w.cf == cf
  {
    seq(|rows|, i requires 0 <= i < |rows| => Put(cf, rows[i].0, rows[i].1))
  }

  lemma {:induction false} PutsAdvance(contents: Contents, cf: Cf, rows: seq<Row>)
    requires cf in contents
    ensures Written(contents, Puts(cf, rows)) == Advanced(contents, cf, rows)
    decreases |rows|
  {
    hide Written, PutAll;
    if rows == [] {
      NothingWritten(contents, cf);
    } else {
      var init, last := rows[..|rows| - 1], rows[|rows| - 1];
      PutsAdvance(contents, cf, init);
      assert Puts(cf, rows) == Puts(cf, init) + [Put(cf, last.0, last.1)];
      OneWritten(contents, cf, Puts(cf, init), last);
      OnePut(contents[cf], rows);
    }
  }

  lemma NothingWritten(contents: Contents, cf: Cf)
    requires cf in contents
    ensures Written(contents, []) == contents && contents[cf := PutAll(contents[cf], [])] == contents
  {
  }

  lemma OnePut(kv: Kv, rows: seq<Row>)
    requires rows != []
    ensures PutAll(kv, rows) == PutAll(kv, rows[..|rows| - 1])[rows[|rows| - 1].0 := rows[|rows| - 1].1]
  {
  }

  lemma OneWritten(contents: Contents, cf: Cf, batch: seq<Write>, row: Row)
    requires cf in contents && forall w :: w in batch ==> w.cf in contents
    ensures var before := Written(contents, batch);
            cf in before
            && Written(contents, batch + [Put(cf, row.0, row.1)]) == before[cf := before[cf][row.0 := row.1]]
  {
    assert (batch + [Put(cf, row.0, row.1)])[..|batch|] == batch;
  }

  // ---- Facts about seeking ----

  /** On a journal's rows a seek is a filter: exactly the entries numbered `from` and up. */
  lemma SeekIsFilter(cf: Cf, kv: Kv, from: U64, key: Bytes)
    requires EncodeKey(cf, from).Ok? && DecodeKey(cf, key).Ok?
    ensures key in RowKeys(RowsFrom(kv, EncodeKey(cf, from).value))
            <==> key in kv && from <= DecodeKey(cf, key).value
  {
    var start, index := EncodeKey(cf, from).value, DecodeKey(cf, key).value;
    DecodedKeyReencodes(cf, key);
    KeyOrder(cf, index, from);
    assert RowKeys(RowsFrom(kv, start)) == InOrder(KeysFrom(kv, start));
  }

  /** The first row holds a journal's lowest index and the last row its highest. */
  lemma EndsAreExtremes(cf: Cf, contents: Contents, key: Bytes)
    requires cf in contents && key in contents[cf] && DecodeKey(cf, key).Ok?
    ensures TipOf(cf, contents).Ok? ==>
              TipOf(cf, contents).value.Some? && DecodeKey(cf, key).value <= TipOf(cf, contents).value.value
    ensures FloorOf(cf, contents).Ok? ==>
              FloorOf(cf, contents).value.Some? && FloorOf(cf, contents).value.value <= DecodeKey(cf, key).value
  {
    var kv := contents[cf];
    LastIsGreatest(kv);
    FirstIsLeast(kv);
    var first, last := AllRows(kv)[0].0, AllRows(kv)[|AllRows(kv)| - 1].0;
    DecodedKeyReencodes(cf, key);
    if DecodeKey(cf, last).Ok? {
      DecodedKeyReencodes(cf, last);
      KeyOrder(cf, DecodeKey(cf, last).value, DecodeKey(cf, key).value);
    }
    if DecodeKey(cf, first).Ok? {
      DecodedKeyReencodes(cf, first);
      KeyOrder(cf, DecodeKey(cf, key).value, DecodeKey(cf, first).value);
    }
  }

  lemma FirstIsLeast(kv: Kv)
    requires kv != map[]
    ensures AllRows(kv) != [] && IsLeast(kv.Keys, AllRows(kv)[0].0)
  {
    var some :| some in kv;
    assert some in KeysFrom(kv, []);
    assert some in InOrder(KeysFrom(kv, []));
    assert KeysFrom(kv, []) == kv.Keys;
  }
}
