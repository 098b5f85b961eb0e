/** Stopping a copy anywhere and starting again from the archive's own tip changes nothing. */
module Confluence {
  import opened ByteStrings
  import opened Families
  import opened Journals
  import opened OrderedStore
  import opened Outcomes
  import opened Stores
  import opened Pass
  import P = Protocol

  /** The journal can be copied from here: its rows decode and none carries the last possible index. */
  ghost predicate Copyable(cf: Cf, archive: Contents, view: Contents) {
    && RoomAbove(cf, archive) && cf in archive && cf in view
    && ResumeKey(cf, archive, view).Ok?
    && Decodable(cf, NewRows(cf, archive, view))
    && RoomThroughout(cf, NewRows(cf, archive, view))
  }

  ghost predicate RoomThroughout(cf: Cf, rows: seq<Row>) {
    forall i :: 0 <= i < |rows| && DecodeKey(cf, rows[i].0).Ok? ==>
      DecodeKey(cf, rows[i].0).value + 1 < 0x1_0000_0000_0000_0000
  }

  lemma RowsAscend(cf: Cf, kv: Kv, start: Bytes, p: nat, q: nat)
    requires p < q < |RowsFrom(kv, start)|
    requires Decodable(cf, RowsFrom(kv, start))
    ensures Below(RowsFrom(kv, start)[p].0, RowsFrom(kv, start)[q].0)
    ensures DecodeKey(cf, RowsFrom(kv, start)[p].0).value < DecodeKey(cf, RowsFrom(kv, start)[q].0).value
  {
    InOrderAscends(KeysFrom(kv, start));
    var a, b := RowsFrom(kv, start)[p], RowsFrom(kv, start)[q];
    assert DecodeRow(cf, a).Ok? && DecodeRow(cf, b).Ok?;
    DecodedKeyReencodes(cf, a.0);
    DecodedKeyReencodes(cf, b.0);
    KeyOrder(cf, DecodeKey(cf, a.0).value, DecodeKey(cf, b.0).value);
  }

  lemma RowReencodes(cf: Cf, rows: seq<Row>, p: nat)
    requires p < |rows| && Decodable(cf, rows)
    ensures DecodeKey(cf, rows[p].0).Ok? && EncodeKey(cf, DecodeKey(cf, rows[p].0).value) == Ok(rows[p].0)
    ensures Fits(cf, DecodeKey(cf, rows[p].0).value)
  {
    assert DecodeRow(cf, rows[p]).Ok?;
    DecodedKeyReencodes(cf, rows[p].0);
  }

  /** Seeking just past the index of one row yields the rows after it. */
  lemma SeekPastRow(cf: Cf, kv: Kv, start: Bytes, m: nat)
    requires 0 < m <= |RowsFrom(kv, start)| && Decodable(cf, RowsFrom(kv, start))
    requires RoomThroughout(cf, RowsFrom(kv, start))
    ensures var rows := RowsFrom(kv, start);
            DecodeKey(cf, rows[m - 1].0).Ok? &&
            match EncodeKey(cf, DecodeKey(cf, rows[m - 1].0).value + 1)
            case Ok(next) => RowsFrom(kv, next) == rows[m..]
            case Err(_) => rows[m..] == []
  {
    hide DecodeKey, EncodeKey, DecodeRow, Below, KeysFrom, InOrder;
    var rows := RowsFrom(kv, start);
    RowReencodes(cf, rows, m - 1);
    var index := DecodeKey(cf, rows[m - 1].0).value;
    KeyRoundTrip(cf, index + 1);
    if m < |rows| {
      RowsAscend(cf, kv, start, m - 1, m);
      RowReencodes(cf, rows, m);
    }
    if EncodeKey(cf, index + 1).Ok? {
      RowsPast(cf, kv, start, m, index);
    }
  }

  lemma RowsPast(cf: Cf, kv: Kv, start: Bytes, m: nat, index: U64)
    requires 0 < m <= |RowsFrom(kv, start)| && Decodable(cf, RowsFrom(kv, start))
    requires index + 1 < 0x1_0000_0000_0000_0000 && EncodeKey(cf, index + 1).Ok?
    requires DecodeKey(cf, RowsFrom(kv, start)[m - 1].0) == Ok(index)
    ensures RowsFrom(kv, EncodeKey(cf, index + 1).value) == RowsFrom(kv, start)[m..]
  {
    hide DecodeKey, EncodeKey, DecodeRow, Below, KeysFrom;
    var next := EncodeKey(cf, index + 1).value;
    var keys, rest := InOrder(KeysFrom(kv, start)), InOrder(KeysFrom(kv, next));
    forall k
      ensures k in rest <==> k in keys[m..]
    {
      SeekPastMember(cf, kv, start, m, index, k);
    }
    InOrderAscends(KeysFrom(kv, start));
    InOrderAscends(KeysFrom(kv, next));
    TailAscends(keys, m);
    hide Ascending;
    AscendingIsUnique(rest, keys[m..]);
    assert RowsFrom(kv, next) == RowsFrom(kv, start)[m..];
  }

  lemma TailAscends(keys: seq<Bytes>, m: nat)
    requires Ascending(keys) && m <= |keys|
    ensures Ascending(keys[m..])
  {
  }

  lemma SeekPastMember(cf: Cf, kv: Kv, start: Bytes, m: nat, index: U64, k: Bytes)
    requires 0 < m <= |RowsFrom(kv, start)| && Decodable(cf, RowsFrom(kv, start))
    requires index + 1 < 0x1_0000_0000_0000_0000 && EncodeKey(cf, index + 1).Ok?
    requires DecodeKey(cf, RowsFrom(kv, start)[m - 1].0) == Ok(index)
    ensures k in InOrder(KeysFrom(kv, EncodeKey(cf, index + 1).value)) <==> k in InOrder(KeysFrom(kv, start))[m..]
  {
    hide DecodeKey, EncodeKey, DecodeRow, Below;
    var keys, next := InOrder(KeysFrom(kv, start)), EncodeKey(cf, index + 1).value;
    if k in keys[m..] {
      LaterRowIsPast(cf, kv, start, m, index, k);
    }
    if k in kv && !Below(k, next) {
      assert Below(keys[m - 1], next) by {
        DecodedKeyReencodes(cf, keys[m - 1]);
        KeyOrder(cf, index, index + 1);
      }
      PastIsLaterRow(kv, start, m, next, k);
    }
  }

  lemma LaterRowIsPast(cf: Cf, kv: Kv, start: Bytes, m: nat, index: U64, k: Bytes)
    requires 0 < m <= |RowsFrom(kv, start)| && Decodable(cf, RowsFrom(kv, start))
    requires index + 1 < 0x1_0000_0000_0000_0000 && EncodeKey(cf, index + 1).Ok?
    requires DecodeKey(cf, RowsFrom(kv, start)[m - 1].0) == Ok(index)
    requires k in InOrder(KeysFrom(kv, start))[m..]
    ensures k in kv && !Below(k, EncodeKey(cf, index + 1).value)
  {
    var rows, keys := RowsFrom(kv, start), InOrder(KeysFrom(kv, start));
    hide DecodeKey, EncodeKey, DecodeRow, Below;
    var p :| m <= p < |keys| && keys[p] == k;
    RowsAscend(cf, kv, start, m - 1, p);
    RowReencodes(cf, rows, p);
    KeyOrder(cf, DecodeKey(cf, k).value, index + 1);
    assert k in keys;
  }

  lemma PastIsLaterRow(kv: Kv, start: Bytes, m: nat, next: Bytes, k: Bytes)
    requires 0 < m <= |RowsFrom(kv, start)|
    requires Below(RowsFrom(kv, start)[m - 1].0, next) && k in kv && !Below(k, next)
    ensures k in InOrder(KeysFrom(kv, start))[m..]
  {
    hide Below;
    var keys := InOrder(KeysFrom(kv, start));
    InOrderAscends(KeysFrom(kv, start));
    var last := keys[m - 1];
    assert last in keys;
    if Below(k, start) {
      BelowTotal(start, last);
      if start != last {
        BelowTransitive(k, start, last);
      }
      BelowTransitive(k, last, next);
    }
    assert k in keys;
    var p :| 0 <= p < |keys| && keys[p] == k;
    if p < m - 1 {
      BelowTransitive(k, last, next);
    }
    assert keys[m..][p - m] == k;
  }

  /** After stopping with `m` rows durable, what is left to copy is exactly the rest. */
  lemma StopLeavesTheRest(cf: Cf, archive: Contents, view: Contents, m: nat)
    requires Copyable(cf, archive, view) && m <= |NewRows(cf, archive, view)|
    ensures var stopped := Advanced(archive, cf, NewRows(cf, archive, view)[..m]);
            RoomAbove(cf, stopped) && NewRows(cf, stopped, view) == NewRows(cf, archive, view)[m..]
  {
    hide DecodeKey, EncodeKey, DecodeRow, KeysFrom, InOrder;
    var rows := NewRows(cf, archive, view);
    var stopped := Advanced(archive, cf, rows[..m]);
    CopyMovesTip(cf, archive, view, m);
    if m == 0 {
      AdvanceNothing(archive, cf);
    } else {
      assert DecodeRow(cf, rows[m - 1]).Ok?;
      SeekPastRow(cf, view[cf], ResumeKey(cf, archive, view).value, m);
    }
  }

  /** The archive after a copy was stopped, restarted and stopped again, as often as `stops` says. */
  ghost function AfterStops(cf: Cf, archive: Contents, view: Contents, stops: seq<nat>): Contents {
    if stops == [] || !RoomAbove(cf, archive) then archive
    else
      var rows := NewRows(cf, archive, view);
      var m := if stops[0] < |rows| then stops[0] else |rows|;
      AfterStops(cf, Advanced(archive, cf, rows[..m]), view, stops[1..])
  }

  /** However often it was interrupted, a copy that finally completes leaves the same archive. */
  lemma {:induction false} InterruptedCopyConverges(cf: Cf, archive: Contents, view: Contents, stops: seq<nat>)
    requires Copyable(cf, archive, view)
    ensures var resumed := AfterStops(cf, archive, view, stops);
            && RoomAbove(cf, resumed)
            && Advanced(resumed, cf, NewRows(cf, resumed, view)) == Advanced(archive, cf, NewRows(cf, archive, view))
    decreases |stops|
  {
    hide NewRows, Advanced, RoomAbove, ResumeKey, Decodable, RoomThroughout;
    if stops != [] {
      var rows := NewRows(cf, archive, view);
      var m := if stops[0] < |rows| then stops[0] else |rows|;
      var stopped := Advanced(archive, cf, rows[..m]);
      StopLeavesTheRest(cf, archive, view, m);
      assert rows[..|rows|] == rows && rows[m..|rows|] == rows[m..];
      AdvanceMore(archive, cf, rows, m, |rows|);
      if m < |rows| {
        StopStaysCopyable(cf, archive, view, m);
        InterruptedCopyConverges(cf, stopped, view, stops[1..]);
      } else {
        NothingLeftStays(cf, stopped, view, stops[1..]);
      }
    }
  }

  lemma StopStaysCopyable(cf: Cf, archive: Contents, view: Contents, m: nat)
    requires Copyable(cf, archive, view) && m < |NewRows(cf, archive, view)|
    ensures Copyable(cf, Advanced(archive, cf, NewRows(cf, archive, view)[..m]), view)
  {
    StopLeavesTheRest(cf, archive, view, m);
    hide ResumeKey, DecodeRow, DecodeKey, RoomAbove;
    var stopped := Advanced(archive, cf, NewRows(cf, archive, view)[..m]);
    assert ResumeKey(cf, stopped, view).Ok? by {
      assert NewRows(cf, stopped, view) != [];
    }
    RestStaysGood(cf, NewRows(cf, archive, view), m);
  }

  lemma RestStaysGood(cf: Cf, rows: seq<Row>, m: nat)
    requires m <= |rows| && Decodable(cf, rows) && RoomThroughout(cf, rows)
    ensures Decodable(cf, rows[m..]) && RoomThroughout(cf, rows[m..])
  {
    hide DecodeRow, DecodeKey;
  }

  lemma {:induction false} NothingLeftStays(cf: Cf, archive: Contents, view: Contents, stops: seq<nat>)
    requires RoomAbove(cf, archive) && NewRows(cf, archive, view) == []
    ensures AfterStops(cf, archive, view, stops) == archive
    ensures Advanced(archive, cf, []) == archive
    decreases |stops|
  {
    AdvanceNothing(archive, cf);
    if stops != [] {
      NothingLeftStays(cf, archive, view, stops[1..]);
    }
  }

  // ---- Gaps of passes that stopped ----

  /** A pass from this archive over this view finds a gap that spans the range. */
  ghost predicate FindsRange(cf: Cf, archive: Contents, view: Contents, from: nat, to: nat)
    requires RoomAbove(cf, archive)
  {
    exists g :: g in GapIn(cf, archive, view) && g.expectedFrom <= from && to <= g.nodeFloor
  }

  /** A copy can make its first `m` rows durable, whatever becomes of the rows after them. */
  ghost predicate CopyableTo(cf: Cf, archive: Contents, view: Contents, m: nat) {
    && RoomAbove(cf, archive) && cf in archive && cf in view
    && ResumeKey(cf, archive, view).Ok?
    && m <= |NewRows(cf, archive, view)|
    && Decodable(cf, NewRows(cf, archive, view)[..m])
    && RoomThroughout(cf, NewRows(cf, archive, view)[..m])
  }

  lemma LastOfThese(cf: Cf, archive: Contents, view: Contents, m: nat)
    requires CopyableTo(cf, archive, view, m) && m > 0
    ensures var last := NewRows(cf, archive, view)[m - 1];
            last.0 in view[cf] && DecodeKey(cf, last.0).Ok? && DecodeKey(cf, last.0).value + 1 < 0x1_0000_0000_0000_0000
  {
    var rows := NewRows(cf, archive, view);
    assert rows[..m][m - 1] == rows[m - 1];
    RowReencodes(cf, rows[..m], m - 1);
  }

  /**
   A pass logs a gap as it finds it, but when it fails it gives no report, so the gap is in a report only
   if a later pass finds it again. That is so, on the same view or one trimmed further, if and only if
   no row of the journal was committed. What else the view holds, rows that decode or not, has no part in it.
   */
  lemma GapFoundAgain(cf: Cf, archive: Contents, view: Contents, m: nat, later: Contents)
    requires CopyableTo(cf, archive, view, m) && GapIn(cf, archive, view) != []
    requires FloorOf(cf, later).Ok? && FloorOf(cf, later).value.Some?
    requires FloorOf(cf, view).Ok? && FloorOf(cf, view).value.Some?
    requires FloorOf(cf, view).value.value <= FloorOf(cf, later).value.value
    ensures var stopped, gap := Advanced(archive, cf, NewRows(cf, archive, view)[..m]), GapIn(cf, archive, view)[0];
            && RoomAbove(cf, stopped)
            && (FindsRange(cf, stopped, later, gap.expectedFrom, gap.nodeFloor) <==> m == 0)
  {
    hide TipOf, FloorOf, NewRows, Advanced, GapIn, FindsRange, DecodeKey, RoomAbove, ResumeKey, Decodable,
         RoomThroughout;
    var stopped, gap := Advanced(archive, cf, NewRows(cf, archive, view)[..m]), GapIn(cf, archive, view)[0];
    StopMovesTip(cf, archive, view, m);
    GapIsBetween(cf, archive, view);
    if m > 0 {
      LastOfThese(cf, archive, view, m);
      EndsAreExtremes(cf, view, NewRows(cf, archive, view)[m - 1].0);
    }
    FindsExactly(cf, stopped, later, gap.expectedFrom, gap.nodeFloor);
  }

  lemma StopMovesTip(cf: Cf, archive: Contents, view: Contents, m: nat)
    requires CopyableTo(cf, archive, view, m)
    ensures var rows := NewRows(cf, archive, view); var stopped := Advanced(archive, cf, rows[..m]);
            && RoomAbove(cf, stopped)
            && TipOf(cf, stopped) ==
               if m == 0 then TipOf(cf, archive) else Ok(Some(DecodeKey(cf, rows[m - 1].0).value))
  {
    hide TipOf, DecodeKey, NewRows, ResumeKey, Advanced, Decodable, RoomThroughout;
    CopyMovesTip(cf, archive, view, m);
    if m > 0 {
      LastOfThese(cf, archive, view, m);
    }
  }

  lemma GapIsBetween(cf: Cf, archive: Contents, view: Contents)
    requires RoomAbove(cf, archive) && GapIn(cf, archive, view) != []
    ensures TipOf(cf, archive).Ok? && TipOf(cf, archive).value.Some?
    ensures FloorOf(cf, view).Ok? && FloorOf(cf, view).value.Some?
    ensures var gap := GapIn(cf, archive, view)[0];
            gap.expectedFrom == TipOf(cf, archive).value.value + 1 < gap.nodeFloor == FloorOf(cf, view).value.value
  {
    hide TipOf, FloorOf;
  }

  lemma FindsExactly(cf: Cf, archive: Contents, view: Contents, from: nat, to: nat)
    requires RoomAbove(cf, archive) && TipOf(cf, archive).Ok? && TipOf(cf, archive).value.Some?
    requires FloorOf(cf, view).Ok? && FloorOf(cf, view).value.Some? && from < to
    ensures FindsRange(cf, archive, view, from, to) <==>
            TipOf(cf, archive).value.value + 1 <= from && to <= FloorOf(cf, view).value.value
  {
    hide TipOf, FloorOf, GapIn, RoomAbove;
    OnlyGap(cf, archive, view);
    var tip: nat, floor: nat := TipOf(cf, archive).value.value, FloorOf(cf, view).value.value;
    if floor > tip + 1 {
      assert P.Gap(cf, tip + 1, floor) in GapIn(cf, archive, view);
    }
  }

  lemma OnlyGap(cf: Cf, archive: Contents, view: Contents)
    requires RoomAbove(cf, archive) && TipOf(cf, archive).Ok? && TipOf(cf, archive).value.Some?
    requires FloorOf(cf, view).Ok? && FloorOf(cf, view).value.Some?
    ensures var tip, floor := TipOf(cf, archive).value.value, FloorOf(cf, view).value.value;
            GapIn(cf, archive, view) == if floor > tip + 1 then [P.Gap(cf, tip + 1, floor)] else []
  {
    hide TipOf, FloorOf;
  }

  // ---- A gap that no report names ----

  /** A family with a single entry has that entry at both ends. */
  lemma OneEntry(cf: Cf, contents: Contents, index: U64, value: Bytes)
    requires Fits(cf, index) && EncodeKey(cf, index).Ok?
    requires cf in contents && contents[cf] == map[EncodeKey(cf, index).value := value]
    ensures TipOf(cf, contents) == Ok(Some(index)) && FloorOf(cf, contents) == Ok(Some(index))
  {
    KeyRoundTrip(cf, index);
    assert EncodeKey(cf, index).value in contents[cf];
    LastIsGreatest(contents[cf]);
  }

  /** Seeking at or below that entry finds it, and nothing else. */
  lemma OneRow(kv: Kv, start: Bytes, key: Bytes)
    requires kv.Keys == {key} && !Below(key, start)
    ensures RowsFrom(kv, start) == [(key, kv[key])]
  {
    assert KeysFrom(kv, start) == {key};
    assert InOrder({key}) == [key] by {
      assert {key} - {Least({key})} == {};
    }
  }

  /**
   Such a gap: block 1 was deleted before it was archived. A pass found that out, made block 2 durable,
   and failed at the next journal. No pass after it finds the gap.
   */
  lemma SomeGapIsLost() returns (archive: Contents, view: Contents, after: Contents)
    ensures RoomAbove(Block, archive) && GapIn(Block, archive, view) == [P.Gap(Block, 1, 2)]
    ensures Stopped(archive, view, false, {Block, Stack}, after)
    ensures RoomAbove(Block, after) && GapIn(Block, after, view) == []
  {
    hide TipOf, FloorOf, EncodeKey, DecodeKey, Advanced, Below;
    KeyRoundTrip(Block, 0);
    KeyRoundTrip(Block, 1);
    KeyRoundTrip(Block, 2);
    KeyOrder(Block, 2, 1);
    var value: Bytes := seq(12, i => 0);
    var first, next, last := EncodeKey(Block, 0).value, EncodeKey(Block, 1).value, EncodeKey(Block, 2).value;
    archive := map[Block := map[first := value], Stack := map[]];
    view := map[Block := map[last := value], Stack := map[]];
    OneEntry(Block, archive, 0, value);
    OneEntry(Block, view, 2, value);
    OneRow(view[Block], next, last);
    var rows := NewRows(Block, archive, view);
    assert rows == [(last, value)] && rows[..1] == rows;
    after := Advanced(archive, Block, rows[..1]);
    StopMovesTip(Block, archive, view, 1);
    OneFamilyDone(archive, view, after);
  }

  lemma OneFamilyDone(before: Contents, view: Contents, after: Contents)
    requires RoomAbove(Block, before) && Decodable(Block, NewRows(Block, before, view))
    requires Block in before && after == Advanced(before, Block, NewRows(Block, before, view))
    ensures Stopped(before, view, false, {Block, Stack}, after)
  {
    hide NewRows, RoomAbove, DecodeRow;
    AdvanceNothing(after, Stack);
    var rows := RowsFor(Stack, before, view, false);
    assert rows[..0] == [];
    assert StoppedIn(before, view, false, {Block, Stack}, {Block}, after, Stack, 0, after);
  }
}
