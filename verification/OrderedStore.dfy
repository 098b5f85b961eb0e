/** A store's families as ordered maps from byte string to byte string. */
module OrderedStore {
  import opened ByteStrings
  import opened Families

  type Kv = map<Bytes, Bytes>

  type Row = (Bytes, Bytes)

  type Contents = map<Cf, Kv>

  predicate Ascending(keys: seq<Bytes>) {
    forall i, j :: 0 <= i < j < |keys| ==> Below(keys[i], keys[j])
  }

  predicate IsLeast(keys: set<Bytes>, k: Bytes) {
    k in keys && forall j :: j in keys ==> !Below(j, k)
  }

  lemma {:induction false} LeastExists(keys: set<Bytes>)
    requires keys != {}
    ensures exists k :: IsLeast(keys, k)
    ensures forall k, l :: IsLeast(keys, k) && IsLeast(keys, l) ==> k == l
    decreases |keys|
  {
    forall k, l | IsLeast(keys, k) && IsLeast(keys, l)
      ensures k == l
    {
      BelowTotal(k, l);
    }
    var k :| k in keys;
    BelowIrreflexive(k);
    var rest := keys - {k};
    if rest == {} {
      assert keys == {k} && IsLeast(keys, k);
    } else {
      LeastExists(rest);
      var l :| IsLeast(rest, l);
      LesserIsLeast(keys, k, l);
    }
  }

  lemma LesserIsLeast(keys: set<Bytes>, k: Bytes, l: Bytes)
    requires k in keys && IsLeast(keys - {k}, l)
    ensures IsLeast(keys, if Below(k, l) then k else l)
  {
    BelowIrreflexive(k);
    var least := if Below(k, l) then k else l;
    forall j | j in keys
      ensures !Below(j, least)
    {
      if j != k && Below(k, l) && Below(j, k) {
        BelowTransitive(j, k, l);
      }
      assert j == k || j in keys - {k};
    }
  }

  function Least(keys: set<Bytes>): (k: Bytes)
    requires keys != {}
    ensures IsLeast(keys, k)
  {
    LeastExists(keys);
    var k :| IsLeast(keys, k);
    k
  }

  /** The keys in the order an iterator visits them. */
  function InOrder(keys: set<Bytes>): (s: seq<Bytes>)
    ensures forall k :: k in s <==> k in keys
    decreases |keys|
  {
    if keys == {} then [] else [Least(keys)] + InOrder(keys - {Least(keys)})
  }

  lemma {:induction false} InOrderAscends(keys: set<Bytes>)
    ensures Ascending(InOrder(keys))
    decreases |keys|
  {
    if keys != {} {
      var k := Least(keys);
      var rest := InOrder(keys - {k});
      InOrderAscends(keys - {k});
      forall i | 0 <= i < |rest|
        ensures Below(k, rest[i])
      {
        assert rest[i] in rest;
        BelowTotal(k, rest[i]);
      }
    }
  }

  /** Only one ascending sequence lists a given set of keys. */
  lemma {:induction false} AscendingIsUnique(s: seq<Bytes>, t: seq<Bytes>)
    requires Ascending(s) && Ascending(t) && forall k :: k in s <==> k in t
    ensures s == t
    decreases |s|
  {
    assert t != [] ==> t[0] in t;
    if s != [] {
      assert s[0] in t && t != [] && t[0] in s;
      HeadsAgree(s, t);
      forall k
        ensures k in s[1..] <==> k in t[1..]
      {
        TailMembers(s, k);
        TailMembers(t, k);
      }
      AscendingIsUnique(s[1..], t[1..]);
      assert s == [s[0]] + s[1..] && t == [t[0]] + t[1..];
    }
  }

  lemma HeadsAgree(s: seq<Bytes>, t: seq<Bytes>)
    requires Ascending(s) && Ascending(t) && s != [] && t != [] && s[0] in t && t[0] in s
    ensures s[0] == t[0]
  {
    var i :| 0 <= i < |t| && t[i] == s[0];
    var j :| 0 <= j < |s| && s[j] == t[0];
    if i > 0 && j > 0 {
      BelowTransitive(s[0], t[0], s[0]);
      BelowIrreflexive(s[0]);
    }
  }

  lemma TailMembers(s: seq<Bytes>, k: Bytes)
    requires Ascending(s) && s != []
    ensures k in s[1..] <==> k in s && k != s[0]
  {
    BelowIrreflexive(s[0]);
  }

  function KeysFrom(kv: Kv, start: Bytes): set<Bytes> {
    set k | k in kv && !Below(k, start)
  }

  /** The rows an iterator yields after seeking to `start`. */
  function RowsFrom(kv: Kv, start: Bytes): (rows: seq<Row>)
    ensures |rows| == |InOrder(KeysFrom(kv, start))|
    ensures forall i :: 0 <= i < |rows| ==>
              rows[i].0 == InOrder(KeysFrom(kv, start))[i] && rows[i].0 in kv && rows[i].1 == kv[rows[i].0]
  {
    var keys := InOrder(KeysFrom(kv, start));
    assert forall i :: 0 <= i < |keys| ==> keys[i] in keys;
    seq(|keys|, i requires 0 <= i < |keys| => (keys[i], kv[keys[i]]))
  }

  /** Every row, in key order: nothing sorts before the empty key. */
  function AllRows(kv: Kv): seq<Row> {
    RowsFrom(kv, [])
  }

  function RowKeys(rows: seq<Row>): (keys: seq<Bytes>)
    ensures |keys| == |rows| && forall i :: 0 <= i < |rows| ==> keys[i] == rows[i].0
  {
    seq(|rows|, i requires 0 <= i < |rows| => rows[i].0)
  }

  /** Rows written one after another, later ones winning. */
  function PutAll(kv: Kv, rows: seq<Row>): Kv {
    if rows == [] then kv
    else PutAll(kv, rows[..|rows| - 1])[rows[|rows| - 1].0 := rows[|rows| - 1].1]
  }

  lemma {:induction false} PutAllConcat(kv: Kv, a: seq<Row>, b: seq<Row>)
    ensures PutAll(kv, a + b) == PutAll(PutAll(kv, a), b)
    decreases |b|
  {
    if b == [] {
      assert a + b == a;
    } else {
      assert (a + b)[..|a + b| - 1] == a + b[..|b| - 1];
      PutAllConcat(kv, a, b[..|b| - 1]);
    }
  }

  lemma {:induction false} PutAllKeys(kv: Kv, rows: seq<Row>, k: Bytes)
    ensures k in PutAll(kv, rows) <==> k in kv || k in RowKeys(rows)
    decreases |rows|
  {
    if rows != [] {
      PutAllKeys(kv, rows[..|rows| - 1], k);
      assert RowKeys(rows) == RowKeys(rows[..|rows| - 1]) + [rows[|rows| - 1].0];
    }
  }

  /** Writing rows taken from `from` makes their keys agree with it and leaves the others alone. */
  lemma {:induction false} PutAllCopies(kv: Kv, rows: seq<Row>, from: Kv, k: Bytes)
    requires forall i :: 0 <= i < |rows| ==> rows[i].0 in from && rows[i].1 == from[rows[i].0]
    ensures k in RowKeys(rows) ==> k in PutAll(kv, rows) && k in from && PutAll(kv, rows)[k] == from[k]
    ensures k !in RowKeys(rows) ==>
              (k in PutAll(kv, rows) <==> k in kv) && (k in kv ==> PutAll(kv, rows)[k] == kv[k])
    decreases |rows|
  {
    if rows != [] {
      PutAllCopies(kv, rows[..|rows| - 1], from, k);
      assert RowKeys(rows) == RowKeys(rows[..|rows| - 1]) + [rows[|rows| - 1].0];
    }
  }

  /** What a family holds at or above a key. */
  function Restricted(kv: Kv, start: Bytes): Kv {
    map k | k in kv && !Below(k, start) :: kv[k]
  }

  /** Copying the rows from a key on is a map union with what lies there. */
  lemma CopiedRowsAreUnion(kv: Kv, from: Kv, start: Bytes)
    ensures PutAll(kv, RowsFrom(from, start)) == kv + Restricted(from, start)
  {
    var rows := RowsFrom(from, start);
    assert RowKeys(rows) == InOrder(KeysFrom(from, start));
    forall k
      ensures k in PutAll(kv, rows) <==> k in kv + Restricted(from, start)
      ensures k in PutAll(kv, rows) ==> PutAll(kv, rows)[k] == (kv + Restricted(from, start))[k]
    {
      PutAllCopies(kv, rows, from, k);
    }
  }

  lemma CopiedFamilyIsUnion(kv: Kv, from: Kv)
    ensures PutAll(kv, AllRows(from)) == kv + from
  {
    CopiedRowsAreUnion(kv, from, []);
    assert Restricted(from, []) == from;
  }

  predicate IsGreatest(kv: Kv, k: Bytes) {
    k in kv && forall j :: j in kv ==> !Below(k, j)
  }

  /** The last row an iterator reaches holds the greatest key. */
  lemma LastIsGreatest(kv: Kv)
    requires kv != map[]
    ensures AllRows(kv) != [] && IsGreatest(kv, AllRows(kv)[|AllRows(kv)| - 1].0)
  {
    var rows, keys := AllRows(kv), InOrder(KeysFrom(kv, []));
    InOrderAscends(KeysFrom(kv, []));
    var some :| some in kv;
    assert some in KeysFrom(kv, []) && some in keys;
    var last := rows[|rows| - 1].0;
    forall j | j in kv
      ensures !Below(last, j)
    {
      assert j in KeysFrom(kv, []) && j in keys;
      var i :| 0 <= i < |keys| && keys[i] == j;
      if Below(last, j) {
        if i < |keys| - 1 {
          BelowTransitive(last, j, last);
        }
        BelowIrreflexive(last);
      }
    }
  }

  lemma GreatestIsUnique(kv: Kv, k: Bytes, l: Bytes)
    requires IsGreatest(kv, k) && IsGreatest(kv, l)
    ensures k == l
  {
    BelowTotal(k, l);
  }
}
