/** The byte-level pass carries out steps of the protocol. */
module Refinement {
  import opened ByteStrings
  import opened Families
  import opened Journals
  import opened OrderedStore
  import opened Outcomes
  import opened Stores
  import opened Pass
  import S = ProtocolSafety
  import P = Protocol

  // ---- Indexed copies as stored bytes ----

  function Key(cf: Cf, i: nat): Bytes
    requires Fits(cf, i)
  {
    EncodeKey(cf, i).value
  }

  /** The family holds exactly these copies, each under the key of its index. */
  ghost predicate Encodes(cf: Cf, copies: P.Copies, kv: Kv) {
    && (forall i :: i in copies ==> Fits(cf, i) && Key(cf, i) in kv && kv[Key(cf, i)] == copies[i])
    && (forall k :: k in kv ==> DecodeKey(cf, k).Ok? && DecodeKey(cf, k).value in copies)
  }

  lemma EncodedEntry(cf: Cf, copies: P.Copies, kv: Kv, i: nat)
    requires Encodes(cf, copies, kv) && i in copies
    ensures Fits(cf, i) && Key(cf, i) in kv && kv[Key(cf, i)] == copies[i] && DecodeKey(cf, Key(cf, i)) == Ok(i)
  {
    KeyDecodes(cf, i);
  }

  lemma EncodedKey(cf: Cf, copies: P.Copies, kv: Kv, k: Bytes)
    requires Encodes(cf, copies, kv) && k in kv
    ensures DecodeKey(cf, k).Ok? && DecodeKey(cf, k).value in copies
    ensures Fits(cf, DecodeKey(cf, k).value) && Key(cf, DecodeKey(cf, k).value) == k
  {
    KeyOfDecoded(cf, k);
  }

  ghost function ValueAt(j: P.Journal, i: nat): Bytes {
    if j.Appended(i) then j.At(i) else []
  }

  ghost function Entries(j: P.Journal, lo: nat, hi: nat): P.Copies {
    map i: nat | lo <= i < hi :: ValueAt(j, i)
  }

  /** The entries a window shows. */
  ghost function Visible(j: P.Journal, w: P.Window): P.Copies {
    Entries(j, w.floor, w.next)
  }

  ghost function Values(j: P.Journal, lo: nat, hi: nat): (values: seq<Bytes>)
    requires lo <= hi
    ensures |values| == hi - lo
  {
    seq(hi - lo, n requires 0 <= n < hi - lo => ValueAt(j, lo + n))
  }

  /** Entries `lo` up to `hi` as rows. */
  ghost function EntryRows(cf: Cf, j: P.Journal, lo: nat, hi: nat): (rows: seq<Row>)
    requires lo <= hi && Fits(cf, hi)
    ensures |rows| == hi - lo
  {
    seq(hi - lo, n requires 0 <= n < hi - lo => (Key(cf, lo + n), ValueAt(j, lo + n)))
  }

  lemma KeyDecodes(cf: Cf, i: nat)
    requires Fits(cf, i)
    ensures DecodeKey(cf, Key(cf, i)) == Ok(i)
  {
    KeyRoundTrip(cf, i);
  }

  lemma KeyOfDecoded(cf: Cf, k: Bytes)
    requires DecodeKey(cf, k).Ok?
    ensures Fits(cf, DecodeKey(cf, k).value) && Key(cf, DecodeKey(cf, k).value) == k
  {
    DecodedKeyReencodes(cf, k);
  }

  lemma KeysOrder(cf: Cf, m: nat, n: nat)
    requires Fits(cf, m) && Fits(cf, n)
    ensures Below(Key(cf, m), Key(cf, n)) <==> m < n
  {
    KeyOrder(cf, m, n);
  }

  lemma EmptyEncodesEmpty(cf: Cf, copies: P.Copies, kv: Kv)
    requires Encodes(cf, copies, kv)
    ensures copies == map[] <==> kv == map[]
    ensures kv == map[] ==> AllRows(kv) == []
  {
    hide Encodes;
    if copies != map[] {
      var i :| i in copies;
      EncodedEntry(cf, copies, kv, i);
    }
    if kv != map[] {
      var k :| k in kv;
      EncodedKey(cf, copies, kv, k);
    } else {
      assert KeysFrom(kv, []) == {};
    }
  }

  /** The index at the end of the archive's rows is the highest copy. */
  lemma TipRefines(cf: Cf, copies: P.Copies, contents: Contents)
    requires cf in contents && Encodes(cf, copies, contents[cf])
    ensures TipOf(cf, contents).Ok?
    ensures TipOf(cf, contents).value == P.Tip(copies)
  {
    hide Encodes, DecodeKey, Key, Below;
    var kv := contents[cf];
    EmptyEncodesEmpty(cf, copies, kv);
    if copies != map[] {
      LastIsGreatest(kv);
      EncodedKey(cf, copies, kv, AllRows(kv)[|AllRows(kv)| - 1].0);
      var tip := P.Tip(copies).value;
      EncodedEntry(cf, copies, kv, tip);
      EndsAreExtremes(cf, contents, Key(cf, tip));
    }
  }

  lemma FloorRefines(cf: Cf, j: P.Journal, w: P.Window, contents: Contents)
    requires cf in contents && Encodes(cf, Visible(j, w), contents[cf])
    ensures FloorOf(cf, contents).Ok?
    ensures FloorOf(cf, contents).value == w.Floor()
  {
    hide Encodes, DecodeKey, Key, Below;
    var kv := contents[cf];
    EmptyEncodesEmpty(cf, Visible(j, w), kv);
    if w.floor < w.next {
      assert w.floor in Visible(j, w);
      FirstIsLeast(kv);
      EncodedKey(cf, Visible(j, w), kv, AllRows(kv)[0].0);
      EncodedEntry(cf, Visible(j, w), kv, w.floor);
      EndsAreExtremes(cf, contents, Key(cf, w.floor));
    } else {
      assert Visible(j, w) == map[];
    }
  }

  lemma EntryRowsAscend(cf: Cf, j: P.Journal, lo: nat, hi: nat)
    requires lo <= hi && Fits(cf, hi)
    ensures Ascending(RowKeys(EntryRows(cf, j, lo, hi)))
  {
    var keys := RowKeys(EntryRows(cf, j, lo, hi));
    forall m, n | 0 <= m < n < |keys|
      ensures Below(keys[m], keys[n])
    {
      KeysOrder(cf, lo + m, lo + n);
    }
  }

  lemma EntryRowKeys(cf: Cf, j: P.Journal, lo: nat, hi: nat, k: Bytes)
    requires lo <= hi && Fits(cf, hi)
    ensures k in RowKeys(EntryRows(cf, j, lo, hi)) <==> DecodeKey(cf, k).Ok? && lo <= DecodeKey(cf, k).value < hi
  {
    var keys := RowKeys(EntryRows(cf, j, lo, hi));
    if k in keys {
      var n :| 0 <= n < |keys| && keys[n] == k;
      KeyDecodes(cf, lo + n);
    }
    if DecodeKey(cf, k).Ok? && lo <= DecodeKey(cf, k).value < hi {
      KeyOfDecoded(cf, k);
      assert keys[DecodeKey(cf, k).value - lo] == k;
    }
  }

  /** Scanning a journal from an index visits the window's entries from there to its end. */
  lemma ScanRefines(cf: Cf, j: P.Journal, w: P.Window, kv: Kv, from: nat)
    requires Encodes(cf, Visible(j, w), kv)
    requires Fits(cf, w.next) && from <= w.next && w.floor <= w.next
    ensures RowsFrom(kv, Key(cf, from)) == EntryRows(cf, j, P.Seek(w, from), w.next)
  {
    hide DecodeKey, Key, Below, Encodes, Ascending;
    var lo := P.Seek(w, from);
    var rows, entries := RowsFrom(kv, Key(cf, from)), EntryRows(cf, j, lo, w.next);
    forall k
      ensures k in RowKeys(rows) <==> k in RowKeys(entries)
    {
      ScanMember(cf, j, w, kv, from, k);
    }
    InOrderAscends(KeysFrom(kv, Key(cf, from)));
    assert RowKeys(rows) == InOrder(KeysFrom(kv, Key(cf, from)));
    EntryRowsAscend(cf, j, lo, w.next);
    AscendingIsUnique(RowKeys(rows), RowKeys(entries));
    ScanValues(cf, j, w, kv, lo, rows);
  }

  /** Rows of the view under the right keys are the entries. */
  lemma ScanValues(cf: Cf, j: P.Journal, w: P.Window, kv: Kv, lo: nat, rows: seq<Row>)
    requires Encodes(cf, Visible(j, w), kv) && Fits(cf, w.next) && w.floor <= lo <= w.next
    requires forall n :: 0 <= n < |rows| ==> rows[n].0 in kv && rows[n].1 == kv[rows[n].0]
    requires RowKeys(rows) == RowKeys(EntryRows(cf, j, lo, w.next))
    ensures rows == EntryRows(cf, j, lo, w.next)
  {
    hide DecodeKey, Key, Encodes;
    var entries := EntryRows(cf, j, lo, w.next);
    assert |rows| == |RowKeys(rows)| == |entries|;
    forall n | 0 <= n < |rows|
      ensures rows[n] == entries[n]
    {
      assert RowKeys(rows)[n] == RowKeys(entries)[n];
      EncodedEntry(cf, Visible(j, w), kv, lo + n);
    }
  }

  lemma ScanMember(cf: Cf, j: P.Journal, w: P.Window, kv: Kv, from: nat, k: Bytes)
    requires Encodes(cf, Visible(j, w), kv)
    requires Fits(cf, w.next) && from <= w.next && w.floor <= w.next
    ensures k in RowKeys(RowsFrom(kv, Key(cf, from))) <==> k in RowKeys(EntryRows(cf, j, P.Seek(w, from), w.next))
  {
    hide DecodeKey, Key, Encodes, Below;
    EntryRowKeys(cf, j, P.Seek(w, from), w.next, k);
    assert RowKeys(RowsFrom(kv, Key(cf, from))) == InOrder(KeysFrom(kv, Key(cf, from)));
    if k in kv {
      EncodedKey(cf, Visible(j, w), kv, k);
      KeysOrder(cf, DecodeKey(cf, k).value, from);
    } else if DecodeKey(cf, k).Ok? && DecodeKey(cf, k).value in Visible(j, w) {
      KeyOfDecoded(cf, k);
      EncodedEntry(cf, Visible(j, w), kv, DecodeKey(cf, k).value);
    }
  }

  // ---- One journal ----

  /** The stored bytes of a journal are what the protocol says, and none of its indices is the last. */
  ghost predicate Represents(s: P.State, cf: Cf, archive: Contents, view: Contents)
    requires s.Shaped() && cf in s.node
  {
    && cf in archive && Encodes(cf, s.archive[cf], archive[cf])
    && cf in view && Encodes(cf, Visible(s.node[cf], s.view[cf]), view[cf])
    && Fits(cf, s.view[cf].next) && s.view[cf].next + 1 < 0x1_0000_0000_0000_0000
  }

  /** The first index a copy of `cf` reads. */
  ghost function From(s: P.State, cf: Cf): nat
    requires s.Shaped() && cf in s.node
  {
    P.Seek(s.view[cf], P.ResumeAt(s.archive[cf], s.view[cf]))
  }

  /** A copy resumes where the protocol does, over the same entries. */
  lemma CopyStartsAlike(s: P.State, cf: Cf, archive: Contents, view: Contents)
    requires S.Inv(s) && cf in s.node && Represents(s, cf, archive, view)
    ensures RoomAbove(cf, archive) && ResumeKey(cf, archive, view).Ok?
    ensures From(s, cf) <= s.view[cf].next
    ensures NewRows(cf, archive, view) == EntryRows(cf, s.node[cf], From(s, cf), s.view[cf].next)
  {
    ResumesInView(s, cf);
    assert s.Shaped();
    hide Encodes, S.Inv;
    TipRefines(cf, s.archive[cf], archive);
    FloorRefines(cf, s.node[cf], s.view[cf], view);
    hide TipOf, FloorOf;
    var from := P.ResumeAt(s.archive[cf], s.view[cf]);
    assert from == ResumeIndex(P.Tip(s.archive[cf]), s.view[cf].Floor());
    hide P.ResumeAt, ResumeIndex;
    assert ResumeKey(cf, archive, view) == Ok(Key(cf, from)) by {
      KeyRoundTrip(cf, from);
    }
    hide DecodeKey, EncodeKey, Key;
    ScanRefines(cf, s.node[cf], s.view[cf], view[cf], from);
  }

  /** The pass announces the gap the protocol raises. */
  lemma GapsAlike(s: P.State, cf: Cf, archive: Contents, view: Contents)
    requires s.Shaped() && cf in s.node && Represents(s, cf, archive, view) && RoomAbove(cf, archive)
    ensures P.GapsFound(cf, s.archive[cf], s.view[cf]) == Announced(GapIn(cf, archive, view))
  {
    hide Encodes;
    TipRefines(cf, s.archive[cf], archive);
    FloorRefines(cf, s.node[cf], s.view[cf], view);
    hide TipOf, FloorOf;
    var gaps := GapIn(cf, archive, view);
    assert gaps != [] ==> Announced(gaps) == {gaps[0]};
  }

  ghost function Announced(gaps: seq<P.Gap>): set<P.Gap> {
    set g | g in gaps
  }

  lemma ResumesInView(s: P.State, cf: Cf)
    requires S.Inv(s) && cf in s.node
    ensures s.view[cf].floor <= s.view[cf].next
    ensures P.ResumeAt(s.archive[cf], s.view[cf]) <= s.view[cf].next
  {
    assert S.JournalInv(s.raised, cf, s.node[cf], s.view[cf], s.archive[cf]);
    assert P.Tip(s.archive[cf]).Some? ==> P.Tip(s.archive[cf]).value in s.archive[cf];
  }

  /** Committing a stretch of the journal lays its entries over the archive. */
  lemma CommitOverlays(copies: P.Copies, j: P.Journal, lo: nat, hi: nat)
    requires lo <= hi
    ensures P.Commit(copies, Values(j, lo, hi), hi) == copies + Entries(j, lo, hi)
  {
    var values := Values(j, lo, hi);
    forall i: nat | lo <= i < hi
      ensures P.BatchEntry(values, hi, i) == ValueAt(j, i)
    {
      assert values[i - lo] == ValueAt(j, lo + (i - lo));
    }
  }

  lemma EncodeOneMore(cf: Cf, copies: P.Copies, kv: Kv, i: nat, value: Bytes)
    requires Encodes(cf, copies, kv) && Fits(cf, i)
    ensures Encodes(cf, copies[i := value], kv[Key(cf, i) := value])
  {
    EncodedParts(cf, copies, kv, i, value);
  }

  lemma EncodedParts(cf: Cf, copies: P.Copies, kv: Kv, i: nat, value: Bytes)
    requires Encodes(cf, copies, kv) && Fits(cf, i)
    ensures var more, stored := copies[i := value], kv[Key(cf, i) := value];
            && (forall c :: c in more ==> Fits(cf, c) && Key(cf, c) in stored && stored[Key(cf, c)] == more[c])
            && (forall k :: k in stored ==> DecodeKey(cf, k).Ok? && DecodeKey(cf, k).value in more)
  {
    KeyDecodes(cf, i);
    hide DecodeKey, Key, EncodeKey, Encodes;
    var more, stored := copies[i := value], kv[Key(cf, i) := value];
    forall c | c in more
      ensures Fits(cf, c) && Key(cf, c) in stored && stored[Key(cf, c)] == more[c]
    {
      if c != i {
        EncodedEntry(cf, copies, kv, c);
      }
    }
    forall k | k in stored
      ensures DecodeKey(cf, k).Ok? && DecodeKey(cf, k).value in more
    {
      if k != Key(cf, i) {
        EncodedKey(cf, copies, kv, k);
      }
    }
  }

  /** Writing entries as rows stores exactly the copies a commit adds. */
  lemma CommitRefines(cf: Cf, copies: P.Copies, kv: Kv, j: P.Journal, lo: nat, hi: nat)
    requires Encodes(cf, copies, kv) && lo <= hi && Fits(cf, hi)
    ensures Encodes(cf, P.Commit(copies, Values(j, lo, hi), hi), PutAll(kv, EntryRows(cf, j, lo, hi)))
  {
    CommitOverlays(copies, j, lo, hi);
    EntriesRefine(cf, copies, kv, j, lo, hi);
  }

  lemma {:induction false} EntriesRefine(cf: Cf, copies: P.Copies, kv: Kv, j: P.Journal, lo: nat, hi: nat)
    requires Encodes(cf, copies, kv) && lo <= hi && Fits(cf, hi)
    ensures Encodes(cf, copies + Entries(j, lo, hi), PutAll(kv, EntryRows(cf, j, lo, hi)))
    decreases hi
  {
    hide Encodes, Key;
    if lo == hi {
      assert copies + Entries(j, lo, hi) == copies;
    } else {
      EntriesRefine(cf, copies, kv, j, lo, hi - 1);
      LastEntry(copies, j, lo, hi);
      LastRow(cf, kv, j, lo, hi);
      hide PutAll, EntryRows, Entries, ValueAt;
      EncodeOneMore(cf, copies + Entries(j, lo, hi - 1), PutAll(kv, EntryRows(cf, j, lo, hi - 1)),
                    hi - 1, ValueAt(j, hi - 1));
    }
  }

  lemma LastEntry(copies: P.Copies, j: P.Journal, lo: nat, hi: nat)
    requires lo < hi
    ensures copies + Entries(j, lo, hi) == (copies + Entries(j, lo, hi - 1))[hi - 1 := ValueAt(j, hi - 1)]
  {
  }

  lemma LastRow(cf: Cf, kv: Kv, j: P.Journal, lo: nat, hi: nat)
    requires lo < hi && Fits(cf, hi)
    ensures PutAll(kv, EntryRows(cf, j, lo, hi))
         == PutAll(kv, EntryRows(cf, j, lo, hi - 1))[Key(cf, hi - 1) := ValueAt(j, hi - 1)]
  {
    hide Key, ValueAt;
    var rows := EntryRows(cf, j, lo, hi);
    assert rows[..|rows| - 1] == EntryRows(cf, j, lo, hi - 1);
  }

  // ---- Steps of the protocol ----

  ghost function Reads(n: nat): (steps: seq<P.Step>)
    ensures |steps| == n
  {
    seq(n, _ => P.ReadEntry)
  }

  /** The archiver is copying `cf` with room for `n` more entries of the view. */
  ghost predicate CanRead(s: P.State, n: nat) {
    && s.Shaped() && s.phase.Copying? && s.phase.cf in s.node
    && s.phase.position + n <= s.view[s.phase.cf].next
    && forall i :: s.phase.position <= i < s.phase.position + n ==> s.node[s.phase.cf].Appended(i)
  }

  ghost function AfterReads(s: P.State, n: nat): P.State
    requires CanRead(s, n)
  {
    var p := s.phase;
    if n == 0 then s
    else s.(phase := p.(position := p.position + n,
                        batch := p.batch + Values(s.node[p.cf], p.position, p.position + n),
                        highest := Some(p.position + n - 1)))
  }

  lemma {:induction false} ReadsLead(policy: P.Policy, s: P.State, n: nat)
    requires CanRead(s, n) && |s.phase.batch| + n <= P.BATCH
    ensures P.Leads(policy, s, Reads(n), AfterReads(s, n))
    decreases n
  {
    if n > 0 {
      assert s.node[s.phase.cf].Appended(s.phase.position);
      var next := P.Apply(policy, s, P.ReadEntry);
      ReadsLead(policy, next, n - 1);
      assert Reads(n)[1..] == Reads(n - 1);
      ReadsCompose(s, n);
    }
  }

  lemma ReadsCompose(s: P.State, n: nat)
    requires CanRead(s, n) && n > 0 && s.node[s.phase.cf].Appended(s.phase.position)
    ensures var p := s.phase;
            var next := s.(phase := p.(position := p.position + 1,
                                       batch := p.batch + [s.node[p.cf].At(p.position)],
                                       highest := Some(p.position)));
            CanRead(next, n - 1) && AfterReads(next, n - 1) == AfterReads(s, n)
  {
    var p, j := s.phase, s.node[s.phase.cf];
    FirstValue(j, p.position, p.position + n);
    hide Values, ValueAt;
    var rest := Values(j, p.position + 1, p.position + n);
    assert (p.batch + [j.At(p.position)]) + rest == p.batch + ([j.At(p.position)] + rest);
  }

  lemma FirstValue(j: P.Journal, lo: nat, hi: nat)
    requires lo < hi && j.Appended(lo)
    ensures Values(j, lo, hi) == [j.At(lo)] + Values(j, lo + 1, hi)
  {
    var first, rest := [j.At(lo)], Values(j, lo + 1, hi);
    forall k | 0 <= k < hi - lo
      ensures Values(j, lo, hi)[k] == (first + rest)[k]
    {
      assert Values(j, lo, hi)[k] == ValueAt(j, lo + k);
      assert k > 0 ==> rest[k - 1] == ValueAt(j, lo + 1 + (k - 1));
    }
  }

  ghost function AfterCopies(s: P.State, m: nat): P.State
    requires CanRead(s, m)
  {
    var p := s.phase;
    var hi := p.position + m;
    s.(archive := s.archive[p.cf := P.Commit(s.archive[p.cf], Values(s.node[p.cf], p.position, hi), hi)],
       phase := p.(position := hi, batch := [], highest := if m == 0 then p.highest else Some(hi - 1)))
  }

  lemma CanReadLess(s: P.State, m: nat)
    requires CanRead(s, m)
    ensures s.Shaped() && s.phase.Copying? && s.phase.cf in s.view
  {
  }

  lemma CopyingNothing(policy: P.Policy, s: P.State)
    requires CanRead(s, 0) && s.phase.batch == []
    ensures AfterCopies(s, 0) == s && P.Leads(policy, s, [], s)
  {
    var a, cf := s.archive, s.phase.cf;
    CommitOverlays(a[cf], s.node[cf], s.phase.position, s.phase.position);
    assert a[cf] + map[] == a[cf];
    assert a[cf := a[cf]] == a;
  }

  /** Reading and committing one batch after another commits any whole number of batches, or all. */
  lemma {:induction false} CopiesLead(policy: P.Policy, s: P.State, m: nat) returns (steps: seq<P.Step>)
    requires CanRead(s, m) && s.phase.batch == []
    requires m % P.BATCH == 0 || s.phase.position + m == s.view[s.phase.cf].next
    ensures P.Leads(policy, s, steps, AfterCopies(s, m))
    decreases m
  {
    hide P.Leads, P.Enabled, P.Apply, AfterCopies, CanRead;
    CanReadLess(s, m);
    if m == 0 {
      steps := [];
      CopyingNothing(policy, s);
    } else {
      var n := if m < P.BATCH then m else P.BATCH;
      CopiesCompose(s, n, m);
      CopiesKeep(s, n);
      ChunkLeads(policy, s, n);
      var rest := CopiesLead(policy, AfterCopies(s, n), m - n);
      P.LeadsConcat(policy, s, Reads(n) + [P.CommitBatch], AfterCopies(s, n), rest, AfterCopies(s, m));
      steps := Reads(n) + [P.CommitBatch] + rest;
    }
  }

  lemma ChunkCommits(policy: P.Policy, s: P.State, n: nat)
    requires CanRead(s, n) && s.phase.batch == [] && 0 < n <= P.BATCH
    requires n == P.BATCH || s.phase.position + n == s.view[s.phase.cf].next
    ensures AfterReads(s, n).Shaped() && P.Enabled(policy, AfterReads(s, n), P.CommitBatch)
    ensures P.Apply(policy, AfterReads(s, n), P.CommitBatch) == AfterCopies(s, n)
  {
    hide P.Commit;
    assert AfterReads(s, n).phase.batch == Values(s.node[s.phase.cf], s.phase.position, s.phase.position + n);
  }

  lemma ChunkLeads(policy: P.Policy, s: P.State, n: nat)
    requires CanRead(s, n) && s.phase.batch == [] && 0 < n <= P.BATCH
    requires n == P.BATCH || s.phase.position + n == s.view[s.phase.cf].next
    ensures P.Leads(policy, s, Reads(n) + [P.CommitBatch], AfterCopies(s, n))
  {
    var read := AfterReads(s, n);
    ChunkCommits(policy, s, n);
    assert read.Shaped() && AfterCopies(s, n).Shaped();
    hide P.Leads, P.Enabled, P.Apply, AfterReads, AfterCopies, CanRead;
    ReadsLead(policy, s, n);
    P.OneStepLeads(policy, read, P.CommitBatch);
    P.LeadsConcat(policy, s, Reads(n), read, [P.CommitBatch], AfterCopies(s, n));
  }

  lemma CopiesKeep(s: P.State, n: nat)
    requires CanRead(s, n)
    ensures s.Shaped() && AfterCopies(s, n).Shaped() && s.phase.Copying? && s.phase.cf in s.view
    ensures var committed := AfterCopies(s, n);
            && committed.phase.Copying? && committed.phase.cf == s.phase.cf && committed.view == s.view
            && committed.phase.batch == [] && committed.phase.position == s.phase.position + n
  {
  }

  /** The copies of the journal that is being copied, once the next `m` entries are durable. */
  lemma AfterCopiesHolds(s: P.State, m: nat)
    requires CanRead(s, m)
    ensures var p := s.phase;
            AfterCopies(s, m).archive
            == s.archive[p.cf := s.archive[p.cf] + Entries(s.node[p.cf], p.position, p.position + m)]
  {
    hide P.Commit, Values, Entries;
    CommitOverlays(s.archive[s.phase.cf], s.node[s.phase.cf], s.phase.position, s.phase.position + m);
  }

  lemma CanReadOn(s: P.State, n: nat, m: nat)
    requires CanRead(s, m) && 0 < n <= m && s.phase.batch == []
    ensures CanRead(s, n) && CanRead(AfterCopies(s, n), m - n)
    ensures AfterCopies(AfterCopies(s, n), m - n).phase == AfterCopies(s, m).phase
  {
    hide P.Commit, Values;
  }

  lemma ArchivesCompose(s: P.State, n: nat, m: nat)
    requires CanRead(s, m) && n <= m && CanRead(AfterCopies(s, n), m - n)
    ensures AfterCopies(AfterCopies(s, n), m - n).archive == AfterCopies(s, m).archive
  {
    hide P.Commit, Values, Entries;
    var p := s.phase;
    AfterCopiesHolds(s, n);
    AfterCopiesHolds(s, m);
    AfterCopiesHolds(AfterCopies(s, n), m - n);
    OverlaysCompose(s.archive[p.cf], s.node[p.cf], p.position, p.position + n, p.position + m);
  }

  lemma CopiesCompose(s: P.State, n: nat, m: nat)
    requires CanRead(s, m) && s.phase.batch == [] && 0 < n <= m
    ensures CanRead(s, n) && CanRead(AfterCopies(s, n), m - n)
    ensures AfterCopies(AfterCopies(s, n), m - n) == AfterCopies(s, m)
  {
    hide P.Commit, Values;
    CanReadOn(s, n, m);
    ArchivesCompose(s, n, m);
  }

  lemma OverlaysCompose(a: P.Copies, j: P.Journal, lo: nat, mid: nat, hi: nat)
    requires lo <= mid <= hi
    ensures a + Entries(j, lo, mid) + Entries(j, mid, hi) == a + Entries(j, lo, hi)
  {
  }

  // ---- A journal copy is a run of the protocol ----

  /** The watermark entry a finished journal adds. */
  ghost function WithTip(report: P.Report, cf: Cf, tip: Option<nat>): P.Report {
    match tip case Some(t) => report[cf := t] case None => report
  }

  /** The archive's copies of `cf` once `m` more entries are durable. */
  ghost function Longer(s: P.State, cf: Cf, m: nat): P.Copies
    requires s.Shaped() && cf in s.node
  {
    s.archive[cf] + Entries(s.node[cf], From(s, cf), From(s, cf) + m)
  }

  /** The protocol while `cf` is being copied, with `m` entries committed and none pending. */
  ghost function Underway(s: P.State, cf: Cf, m: nat): (t: P.State)
    requires s.Shaped() && s.phase.BetweenJournals? && cf in s.node
    ensures t.Shaped()
  {
    s.(archive := s.archive[cf := Longer(s, cf, m)],
       raised := s.raised + P.GapsFound(cf, s.archive[cf], s.view[cf]),
       phase := P.Copying(s.phase.todo - {cf}, s.phase.report, cf, From(s, cf) + m, [], P.Tip(Longer(s, cf, m))))
  }

  /** The protocol once the copy of `cf` ended, finished or not. */
  ghost function AfterJournal(s: P.State, cf: Cf, m: nat, finished: bool): (t: P.State)
    requires s.Shaped() && s.phase.BetweenJournals? && cf in s.node
    ensures t.Shaped()
  {
    var u := Underway(s, cf, m);
    u.(phase := if finished then P.BetweenJournals(u.phase.todo, WithTip(u.phase.report, cf, u.phase.highest))
                else P.Idle)
  }

  lemma StartsUnderway(policy: P.Policy, s: P.State, cf: Cf)
    requires s.Shaped() && s.phase.BetweenJournals? && cf in s.phase.todo && cf in s.node
    ensures P.Leads(policy, s, [P.StartJournal(cf)], Underway(s, cf, 0))
  {
    hide P.Leads;
    P.OneStepLeads(policy, s, P.StartJournal(cf));
    assert Longer(s, cf, 0) == s.archive[cf];
    assert s.archive[cf := s.archive[cf]] == s.archive;
  }

  lemma EndsUnderway(policy: P.Policy, s: P.State, cf: Cf, m: nat, finished: bool)
    requires s.Shaped() && s.phase.BetweenJournals? && cf in s.node
    requires finished ==> From(s, cf) + m == s.view[cf].next
    ensures P.Leads(policy, Underway(s, cf, m), [if finished then P.FinishJournal else P.Stop],
                    AfterJournal(s, cf, m, finished))
  {
    hide P.Leads, Longer, From, P.GapsFound;
    P.OneStepLeads(policy, Underway(s, cf, m), if finished then P.FinishJournal else P.Stop);
  }

  lemma TipAfterEntries(copies: P.Copies, j: P.Journal, lo: nat, m: nat)
    requires forall i :: i in copies ==> i < lo
    ensures P.Tip(copies + Entries(j, lo, lo + m)) == if m == 0 then P.Tip(copies) else Some(lo + m - 1)
  {
    if m == 0 {
      assert copies + Entries(j, lo, lo) == copies;
    } else {
      S.TipIsUnique(copies + Entries(j, lo, lo + m), lo + m - 1);
    }
  }

  lemma UnderwayCanRead(s: P.State, cf: Cf, m: nat)
    requires S.Inv(s) && s.phase.BetweenJournals? && cf in s.node
    requires From(s, cf) + m <= s.view[cf].next
    ensures CanRead(Underway(s, cf, 0), m)
  {
    assert S.JournalInv(s.raised, cf, s.node[cf], s.view[cf], s.archive[cf]);
    hide S.Inv, S.HolesAreGaps, S.Faithful, P.ResumeAt, P.Tip, P.GapsFound, Longer;
  }

  lemma CopiesLieBelow(copies: P.Copies, w: P.Window)
    ensures forall i :: i in copies ==> i < P.Seek(w, P.ResumeAt(copies, w))
  {
  }

  lemma NothingAdded(copies: P.Copies, j: P.Journal, lo: nat)
    ensures copies + Entries(j, lo, lo) == copies
  {
  }

  lemma LongerByNothing(s: P.State, cf: Cf)
    requires s.Shaped() && cf in s.node
    ensures Longer(s, cf, 0) == s.archive[cf]
  {
    hide Entries, From;
    NothingAdded(s.archive[cf], s.node[cf], From(s, cf));
  }

  lemma LongerIsCommitted(s: P.State, cf: Cf, m: nat)
    requires s.Shaped() && cf in s.node
    ensures P.Commit(s.archive[cf], Values(s.node[cf], From(s, cf), From(s, cf) + m), From(s, cf) + m) ==
            Longer(s, cf, m)
  {
    hide P.Commit, Entries, Values, From;
    CommitOverlays(s.archive[cf], s.node[cf], From(s, cf), From(s, cf) + m);
  }

  lemma LongerTip(s: P.State, cf: Cf, m: nat)
    requires s.Shaped() && cf in s.node
    ensures P.Tip(Longer(s, cf, m)) == if m == 0 then P.Tip(s.archive[cf]) else Some(From(s, cf) + m - 1)
  {
    CopiesLieBelow(s.archive[cf], s.view[cf]);
    hide P.Tip, Entries, P.Seek, P.ResumeAt;
    TipAfterEntries(s.archive[cf], s.node[cf], From(s, cf), m);
  }

  lemma OverwrittenTwice<K, V>(m: map<K, V>, k: K, first: V, second: V)
    ensures m[k := first][k := second] == m[k := second]
  {
  }

  lemma ArchiveAdvances(s: P.State, cf: Cf, m: nat)
    requires s.Shaped() && s.phase.BetweenJournals? && cf in s.node
    requires CanRead(Underway(s, cf, 0), m)
    ensures AfterCopies(Underway(s, cf, 0), m).archive == Underway(s, cf, m).archive
  {
    hide P.Commit, From, Longer, Values, P.GapsFound, P.Tip, CanRead;
    LongerByNothing(s, cf);
    LongerIsCommitted(s, cf, m);
    OverwrittenTwice(s.archive, cf, Longer(s, cf, 0), Longer(s, cf, m));
  }

  lemma PhaseAdvances(s: P.State, cf: Cf, m: nat)
    requires s.Shaped() && s.phase.BetweenJournals? && cf in s.node
    requires CanRead(Underway(s, cf, 0), m)
    ensures AfterCopies(Underway(s, cf, 0), m).phase == Underway(s, cf, m).phase
  {
    hide P.Commit, From, Longer, Values, P.GapsFound, P.Tip, CanRead;
    LongerTip(s, cf, m);
    LongerByNothing(s, cf);
  }

  /** Committing entries keeps the archiver's highest index equal to the archive's tip. */
  lemma UnderwayAdvances(s: P.State, cf: Cf, m: nat)
    requires s.Shaped() && s.phase.BetweenJournals? && cf in s.node
    requires CanRead(Underway(s, cf, 0), m)
    ensures AfterCopies(Underway(s, cf, 0), m) == Underway(s, cf, m)
  {
    hide P.Commit, From, Longer, Values, P.GapsFound, P.Tip, CanRead;
    ArchiveAdvances(s, cf, m);
    PhaseAdvances(s, cf, m);
  }

  /** Copying `m` entries of a journal, and finishing it or stopping there, is a run of the protocol. */
  lemma CopyRunsProtocol(policy: P.Policy, s: P.State, cf: Cf, m: nat, finished: bool) returns (steps: seq<P.Step>)
    requires S.Inv(s) && s.phase.BetweenJournals? && cf in s.phase.todo && cf in s.node
    requires From(s, cf) + m <= s.view[cf].next
    requires m % P.BATCH == 0 || From(s, cf) + m == s.view[cf].next
    requires finished ==> From(s, cf) + m == s.view[cf].next
    ensures P.Leads(policy, s, steps, AfterJournal(s, cf, m, finished))
  {
    var start, last := P.StartJournal(cf), if finished then P.FinishJournal else P.Stop;
    var begun, ended := Underway(s, cf, 0), Underway(s, cf, m);
    assert s.Shaped() && begun.phase.position == From(s, cf) && begun.view == s.view;
    StartsUnderway(policy, s, cf);
    UnderwayCanRead(s, cf, m);
    UnderwayAdvances(s, cf, m);
    EndsUnderway(policy, s, cf, m, finished);
    hide P.Leads, AfterCopies, CanRead, AfterJournal, S.Inv, From;
    var copies := CopiesLead(policy, begun, m);
    hide Underway;
    P.LeadsConcat(policy, s, [start], begun, copies, ended);
    P.LeadsConcat(policy, s, [start] + copies, ended, [last], AfterJournal(s, cf, m, finished));
    steps := [start] + copies + [last];
  }
}
