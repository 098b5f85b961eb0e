/** When passes succeed: on disks that work, over stores that hold what a node writes, all of them do. */
module Progress {
  import opened ByteStrings
  import opened Families
  import opened Journals
  import opened OrderedStore
  import opened Outcomes
  import opened Stores
  import opened Pass
  import opened PassEffects
  import L = ArchiverLoop

  /** How wide the keys of a journal are. */
  function KeyBytes(cf: Cf): nat {
    if cf.Request? then 8 else 4
  }

  /** Rows a node could have written: keys of the journal's width, none the last, and values with a stamp. */
  ghost predicate Writable(cf: Cf, kv: Kv) {
    forall k :: k in kv ==> |k| == KeyBytes(cf) && FromBigEndian(k) + 1 < Capacity(KeyBytes(cf)) && |kv[k]| >= 12
  }

  /** Every one of these families is there, and every journal among them holds what a node could have written. */
  ghost predicate Sound(families: seq<Cf>, contents: Contents) {
    forall cf :: cf in families ==> cf in contents && (cf.IsJournal() ==> Writable(cf, contents[cf]))
  }

  /** The key of such a row decodes, as does the row, and the index after it can be encoded. */
  lemma WritableDecodes(cf: Cf, kv: Kv, k: Bytes)
    requires cf.IsJournal() && Writable(cf, kv) && k in kv
    ensures DecodeKey(cf, k).Ok? && DecodeRow(cf, (k, kv[k])).Ok?
    ensures DecodeKey(cf, k).value + 1 < 0x1_0000_0000_0000_0000 && Fits(cf, DecodeKey(cf, k).value + 1)
  {
    CapacityOfWords();
  }

  lemma EndsRead(cf: Cf, contents: Contents)
    requires cf.IsJournal() && cf in contents && Writable(cf, contents[cf])
    ensures TipOf(cf, contents).Ok? && FloorOf(cf, contents).Ok?
    ensures TipOf(cf, contents).value.Some? ==>
              && TipOf(cf, contents).value.value + 1 < 0x1_0000_0000_0000_0000
              && Fits(cf, TipOf(cf, contents).value.value + 1)
    ensures FloorOf(cf, contents).value.Some? ==> Fits(cf, FloorOf(cf, contents).value.value)
  {
    var rows := AllRows(contents[cf]);
    hide Writable, DecodeRow, DecodeKey;
    if rows != [] {
      WritableDecodes(cf, contents[cf], rows[0].0);
      WritableDecodes(cf, contents[cf], rows[|rows| - 1].0);
    }
  }

  /** Nothing hinders a pass over such rows. */
  lemma SoundIsNotHindered(cf: Cf, before: Contents, view: Contents, full: bool)
    requires cf in before && cf in view
    requires cf.IsJournal() ==> Writable(cf, before[cf]) && Writable(cf, view[cf])
    ensures !Hindered(cf, before, view, full)
  {
    hide Writable, DecodeRow, TipOf, FloorOf, RowsFrom;
    if cf.IsJournal() {
      EndsRead(cf, before);
      EndsRead(cf, view);
      KeyRoundTrip(cf, ResumeIndex(TipOf(cf, before).value, FloorOf(cf, view).value));
      var rows := NewRows(cf, before, view);
      forall i | 0 <= i < |rows|
        ensures DecodeRow(cf, rows[i]).Ok?
      {
        WritableDecodes(cf, view[cf], rows[i].0);
      }
    }
  }

  lemma MixtureIsWritable(cf: Cf, before: Kv, view: Kv, after: Kv)
    requires Writable(cf, before) && Writable(cf, view) && MixedFamily(before, view, after)
    ensures Writable(cf, after)
  {
  }

  /** A pass, finished or not, leaves an archive that is as sound as it was. */
  lemma PassStaysSound(families: seq<Cf>, before: Contents, view: Contents, after: Contents)
    requires Sound(families, before) && Sound(families, view) && Mixed(before, view, after)
    ensures Sound(families, after)
  {
    hide Writable, MixedFamily;
    forall cf | cf in families
      ensures cf in after && (cf.IsJournal() ==> Writable(cf, after[cf]))
    {
      if cf.IsJournal() {
        MixtureIsWritable(cf, before[cf], view[cf], after[cf]);
      }
    }
  }

  lemma ShownIsSound(families: seq<Cf>, primary: Contents)
    requires Sound(families, primary)
    ensures Sound(families, Shown(families, primary))
  {
    hide Writable;
  }

  lemma SeenEarlier(families: seq<Cf>, first: Contents, ticks: seq<L.Tick>, passes: seq<L.PassRun>)
    requires passes != [] && L.SeesTheNode(families, first, ticks, passes)
    ensures var init := passes[..|passes| - 1];
            && L.SeesTheNode(families, first, ticks, init)
            && (passes[|passes| - 1].view == Shown(families, ticks[|passes| - 1].primary)
                || passes[|passes| - 1].view == L.LastView(first, init))
  {
    hide Shown, L.LastView;
    var init := passes[..|passes| - 1];
    forall i | 0 <= i < |init|
      ensures init[i] == passes[i] && init[..i] == passes[..i]
    {
    }
  }

  lemma {:induction false} ViewsAreSound(families: seq<Cf>, first: Contents, ticks: seq<L.Tick>, passes: seq<L.PassRun>)
    requires L.SeesTheNode(families, first, ticks, passes) && Sound(families, first)
    requires forall tick :: tick in ticks ==> Sound(families, tick.primary)
    ensures Sound(families, L.LastView(first, passes))
    ensures forall p :: p in passes ==> Sound(families, p.view)
    decreases |passes|
  {
    hide Sound, Shown, L.SeesTheNode;
    if passes != [] {
      var init, last := passes[..|passes| - 1], passes[|passes| - 1];
      assert passes == init + [last];
      SeenEarlier(families, first, ticks, passes);
      assert |passes| <= |ticks| by {
        TicksSuffice(families, first, ticks, passes);
      }
      ViewsAreSound(families, first, ticks, init);
      ShownIsSound(families, ticks[|passes| - 1].primary);
    }
  }

  lemma TicksSuffice(families: seq<Cf>, first: Contents, ticks: seq<L.Tick>, passes: seq<L.PassRun>)
    requires L.SeesTheNode(families, first, ticks, passes)
    ensures |passes| <= |ticks|
  {
  }

  lemma PassFinishes(families: seq<Cf>, pass: L.PassRun)
    requires pass.Ran(families) && Sound(families, pass.before) && Sound(families, pass.view)
    requires pass.result != Err(Io)
    ensures pass.result.Ok? && Sound(families, pass.after)
  {
    hide Transferred, Stopped, Accounts, L.Roomy, Hindered, Writable, RoomAbove, GapsIn, Mixed;
    forall cf | cf in families
      ensures !Hindered(cf, pass.before, pass.view, pass.full)
    {
      SoundIsNotHindered(cf, pass.before, pass.view, pass.full);
    }
    PassMixes(pass.before, pass.view, pass.full, Members(families), pass.after);
    PassStaysSound(families, pass.before, pass.view, pass.after);
  }

  /**
   On disks that work, over a store that at every tick holds what a node could have written, every pass of
   the main loop finishes, and so works from what the node then holds; and the archive stays sound.
   */
  lemma {:induction false} LoopFinishes(families: seq<Cf>, start: Contents, first: Contents, ticks: seq<L.Tick>,
                                        passes: seq<L.PassRun>, end: Contents)
    requires L.Chained(families, start, passes, end) && L.SeesTheNode(families, first, ticks, passes)
    requires Sound(families, start) && Sound(families, first)
    requires forall tick :: tick in ticks ==> Sound(families, tick.primary)
    requires forall p :: p in passes ==> p.result != Err(Io)
    ensures Sound(families, end)
    ensures forall p :: p in passes ==> p.result.Ok?
    decreases |passes|
  {
    hide Sound, L.PassRun.Ran, L.SeesTheNode;
    if passes != [] {
      var init, last := passes[..|passes| - 1], passes[|passes| - 1];
      assert passes == init + [last];
      SeenEarlier(families, first, ticks, passes);
      ViewsAreSound(families, first, ticks, passes);
      LoopFinishes(families, start, first, ticks, init, last.before);
      PassFinishes(families, last);
    }
  }

  /** The first of them is full: whatever the archive held, by then it has been given every family. */
  lemma FirstPassIsFull(families: seq<Cf>, start: Contents, first: Contents, ticks: seq<L.Tick>, interval: nat,
                        once: bool, passes: seq<L.PassRun>, end: Contents)
    requires L.Chained(families, start, passes, end) && L.SeesTheNode(families, first, ticks, passes)
    requires L.FullWhenDue(ticks, interval, once, passes) && passes != []
    requires Sound(families, start) && Sound(families, first)
    requires forall tick :: tick in ticks ==> Sound(families, tick.primary)
    requires forall p :: p in passes ==> p.result != Err(Io)
    ensures passes[0].full && passes[0].result.Ok? && passes[0].view == Shown(families, ticks[0].primary)
  {
    hide Sound, L.Chained, Shown;
    LoopFinishes(families, start, first, ticks, passes, end);
    assert passes[0] in passes && L.Due(ticks, interval, passes, 0);
  }

  // ---- What a finished pass has copied, row by row ----

  /** Families without an index are copied by full passes only, and then every row of them. */
  lemma FamilyRowIsCopied(before: Contents, view: Contents, full: bool, all: set<Cf>, after: Contents, cf: Cf, k: Bytes)
    requires Transferred(before, view, full, all, after) && cf in all && cf in before && cf in view
    requires !cf.IsJournal() && k in view[cf]
    ensures full ==> k in after[cf] && after[cf][k] == view[cf][k]
    ensures !full ==> after[cf] == before[cf]
  {
    if full {
      CopiedFamilyIsUnion(before[cf], view[cf]);
    }
  }

  /** Every entry of a journal past the archive's tip is copied, and none up to the tip is touched. */
  lemma EntryIsCopied(before: Contents, view: Contents, full: bool, all: set<Cf>, after: Contents, cf: Cf, k: Bytes)
    requires Transferred(before, view, full, all, after) && cf in all && cf in before && cf in view && cf.IsJournal()
    requires !Hindered(cf, before, view, full) && RoomAbove(cf, before) && DecodeKey(cf, k).Ok?
    ensures var tip := TipOf(cf, before);
            && tip.Ok?
            && (k in view[cf] && (tip.value.None? || tip.value.value < DecodeKey(cf, k).value) ==>
                  k in after[cf] && after[cf][k] == view[cf][k])
            && (tip.value.Some? && DecodeKey(cf, k).value <= tip.value.value ==>
                  (k in after[cf] <==> k in before[cf]) && (k in before[cf] ==> after[cf][k] == before[cf][k]))
  {
    var tip, floor := TipOf(cf, before), FloorOf(cf, view);
    var from := ResumeIndex(tip.value, floor.value);
    var rows := NewRows(cf, before, view);
    SeekIsFilter(cf, view[cf], from, k);
    if k in view[cf] {
      EndsAreExtremes(cf, view, k);
    }
    hide Transferred, TipOf, FloorOf, DecodeKey, EncodeKey, NewRows, Decodable, RowsFrom;
    assert after[cf] == PutAll(before[cf], rows) by {
      JournalTransferred(before, view, full, all, after, cf);
    }
    assert rows == RowsFrom(view[cf], EncodeKey(cf, from).value) by {
      RowsResume(cf, before, view);
    }
    PutAllCopies(before[cf], rows, view[cf], k);
  }

  lemma JournalTransferred(before: Contents, view: Contents, full: bool, all: set<Cf>, after: Contents, cf: Cf)
    requires Transferred(before, view, full, all, after) && cf in all && cf in before && cf.IsJournal()
    requires RoomAbove(cf, before)
    ensures after[cf] == PutAll(before[cf], NewRows(cf, before, view))
  {
    hide NewRows;
  }

  lemma RowsResume(cf: Cf, before: Contents, view: Contents)
    requires RoomAbove(cf, before) && ResumeKey(cf, before, view).Ok? && cf in view
    ensures TipOf(cf, before).Ok? && FloorOf(cf, view).Ok?
    ensures var from := ResumeIndex(TipOf(cf, before).value, FloorOf(cf, view).value);
            && from < 0x1_0000_0000_0000_0000 && EncodeKey(cf, from).Ok?
            && NewRows(cf, before, view) == RowsFrom(view[cf], EncodeKey(cf, from).value)
  {
  }

  // ---- What a finished pass has counted ----

  lemma {:induction false} InOrderSize(keys: set<Bytes>)
    ensures |InOrder(keys)| == |keys|
    decreases |keys|
  {
    hide Least;
    if keys != {} {
      InOrderSize(keys - {Least(keys)});
    }
  }

  /** Rows under new keys, each its own, all add to a family. */
  lemma {:induction false} NewRowsAdd(kv: Kv, rows: seq<Row>)
    requires forall i :: 0 <= i < |rows| ==> rows[i].0 !in kv
    requires forall i, j :: 0 <= i < j < |rows| ==> rows[i].0 != rows[j].0
    ensures |PutAll(kv, rows)| == |kv| + |rows|
    decreases |rows|
  {
    if rows != [] {
      var init, last := rows[..|rows| - 1], rows[|rows| - 1];
      NewRowsAdd(kv, init);
      PutAllKeys(kv, init, last.0);
      assert PutAll(kv, rows).Keys == PutAll(kv, init).Keys + {last.0};
    }
  }

  lemma RowsDiffer(kv: Kv, start: Bytes)
    ensures var rows := RowsFrom(kv, start); forall i, j :: 0 <= i < j < |rows| ==> rows[i].0 != rows[j].0
  {
    InOrderAscends(KeysFrom(kv, start));
    var rows := RowsFrom(kv, start);
    forall i, j | 0 <= i < j < |rows|
      ensures rows[i].0 != rows[j].0
    {
      BelowIrreflexive(rows[i].0);
    }
  }

  /** A journal's count is how many entries the archive gained; it is given only if there are any. */
  lemma JournalCountIsGain(report: PassReport, before: Contents, view: Contents, full: bool, all: set<Cf>,
                           after: Contents, cf: Cf)
    requires Transferred(before, view, full, all, after) && Accounts(report, before, view, full, all, after)
    requires cf in all && cf in before && cf.IsJournal() && RoomAbove(cf, before)
    ensures cf in after && |after[cf]| == |before[cf]| + if cf in report.copied then report.copied[cf] else 0
  {
    hide TipOf, NewRows, RoomAbove;
    var rows := NewRows(cf, before, view);
    JournalTransferred(before, view, full, all, after, cf);
    NewKeysDiffer(cf, before, view);
    NewRowsAdd(before[cf], rows);
  }

  lemma NewKeysDiffer(cf: Cf, before: Contents, view: Contents)
    requires cf in before && RoomAbove(cf, before)
    ensures var rows := NewRows(cf, before, view);
            && (forall i :: 0 <= i < |rows| ==> rows[i].0 !in before[cf])
            && forall i, j :: 0 <= i < j < |rows| ==> rows[i].0 != rows[j].0
  {
    hide TipOf, FloorOf, EncodeKey;
    var rows := NewRows(cf, before, view);
    if rows != [] {
      var start := ResumeKey(cf, before, view).value;
      RowsDiffer(view[cf], start);
      forall i | 0 <= i < |rows|
        ensures rows[i].0 !in before[cf]
      {
        assert rows[i].0 in InOrder(KeysFrom(view[cf], start));
        if rows[i].0 in before[cf] {
          ArchivedBelowResume(cf, before, view, rows[i].0);
        }
      }
    }
  }

  /** Another family's count is how many rows the view has of it, in a full pass; otherwise it has none. */
  lemma FamilyCountIsSize(report: PassReport, before: Contents, view: Contents, full: bool, all: set<Cf>,
                          after: Contents, cf: Cf)
    requires Accounts(report, before, view, full, all, after) && cf in all && !cf.IsJournal()
    ensures (if cf in report.copied then report.copied[cf] else 0) == if full && cf in view then |view[cf]| else 0
    ensures cf in report.copied ==> report.copied[cf] > 0
  {
    hide TipOf;
    if cf in view {
      InOrderSize(KeysFrom(view[cf], []));
      assert KeysFrom(view[cf], []) == view[cf].Keys;
    }
  }
}
