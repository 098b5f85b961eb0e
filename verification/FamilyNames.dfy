/** The families a store is opened with, from the names on its disk. */
module FamilyNames {
  import opened ByteStrings
  import opened Families
  import opened Outcomes

  /** The name of the family every store has and nobody uses. */
  const DEFAULT := "default"

  function KnownIn(name: string): seq<Cf> {
    if name != DEFAULT && Cf.Parse(name).Some? then [Cf.Parse(name).value] else []
  }

  /** The families among these names that this build recognises, in the order listed. */
  function Known(names: seq<string>): seq<Cf> {
    if names == [] then [] else Known(names[..|names| - 1]) + KnownIn(names[|names| - 1])
  }

  /** The names that this build does not recognise. */
  function Unknown(names: seq<string>): seq<string> {
    if names == [] then []
    else
      var last := names[|names| - 1];
      Unknown(names[..|names| - 1]) + if last != DEFAULT && Cf.Parse(last).None? then [last] else []
  }

  /** Which names count as unknown: those of no family, but for the one that every store has. */
  lemma {:induction false} UnknownAre(names: seq<string>, name: string)
    ensures name in Unknown(names) <==> name in names && name != "default" && Cf.Parse(name).None?
    decreases |names|
  {
    hide Cf.Parse;
    if names != [] {
      var init, last := names[..|names| - 1], names[|names| - 1];
      assert names == init + [last];
      UnknownAre(init, name);
    }
  }

  // ---- Sorting ----

  /** The order of declaration: fixed families first, satellites by kind and then by author, heads first. */
  function Rank(cf: Cf): nat {
    var width := 0x2_0000_0000;
    match cf
    case Block => 0
    case Stack => width
    case BlockResult => 2 * width
    case SoftConfirmation => 3 * width
    case HardConfirmation => 4 * width
    case RequestHighWater => 5 * width
    case CoilStampMark => 6 * width
    case L2CommandNumber => 7 * width
    case UnsignedStack => 8 * width
    case DepositMap => 9 * width
    case Treasury => 10 * width
    case EvacuationMap => 11 * width
    case RequestBlockIndex => 12 * width
    case DepositDecisionIndex => 13 * width
    case WithdrawalEffectIndex => 14 * width
    case BlockStackIndex => 15 * width
    case EffectStackIndex => 16 * width
    case Meta => 17 * width
    case Request(peer) => 18 * width + peer
    case SoftAck(peer) => 19 * width + peer
    case HardAck(author) => 20 * width + author.number + if author.Head? then 0 else 0x1_0000_0000
    case HubHardAck(hub) => 21 * width + hub
  }

  predicate Ranked(families: seq<Cf>) {
    forall i, j :: 0 <= i < j < |families| ==> Rank(families[i]) <= Rank(families[j])
  }

  function Inserted(sorted: seq<Cf>, cf: Cf): (longer: seq<Cf>)
    ensures multiset(longer) == multiset(sorted) + multiset{cf}
  {
    if sorted == [] || Rank(cf) <= Rank(sorted[0]) then [cf] + sorted
    else
      assert sorted == [sorted[0]] + sorted[1..];
      [sorted[0]] + Inserted(sorted[1..], cf)
  }

  function Sorted(families: seq<Cf>): (sorted: seq<Cf>)
    ensures multiset(sorted) == multiset(families)
  {
    if families == [] then []
    else
      assert families == [families[0]] + families[1..];
      Inserted(Sorted(families[1..]), families[0])
  }

  lemma {:induction false} InsertedIsRanked(sorted: seq<Cf>, cf: Cf)
    requires Ranked(sorted)
    ensures Ranked(Inserted(sorted, cf))
    decreases |sorted|
  {
    hide Rank;
    if sorted != [] && Rank(cf) > Rank(sorted[0]) {
      var rest := Inserted(sorted[1..], cf);
      InsertedIsRanked(sorted[1..], cf);
      forall i | 0 <= i < |rest|
        ensures Rank(sorted[0]) <= Rank(rest[i])
      {
        assert rest[i] in multiset(rest);
        assert rest[i] == cf || rest[i] in sorted[1..];
      }
    }
  }

  lemma {:induction false} SortedIsRanked(families: seq<Cf>)
    ensures Ranked(Sorted(families))
    decreases |families|
  {
    hide Rank;
    if families != [] {
      SortedIsRanked(families[1..]);
      InsertedIsRanked(Sorted(families[1..]), families[0]);
    }
  }

  /** The fixed families come as they are declared, then the satellites by kind. */
  lemma FixedRanksRise(p: U32, q: U32, author: PeerId, hub: U32)
    ensures Rank(Block) < Rank(Stack) < Rank(BlockResult) < Rank(SoftConfirmation) < Rank(HardConfirmation)
    ensures Rank(HardConfirmation) < Rank(RequestHighWater) < Rank(CoilStampMark) < Rank(L2CommandNumber)
    ensures Rank(L2CommandNumber) < Rank(UnsignedStack) < Rank(DepositMap) < Rank(Treasury) < Rank(EvacuationMap)
    ensures Rank(EvacuationMap) < Rank(RequestBlockIndex) < Rank(DepositDecisionIndex) < Rank(WithdrawalEffectIndex)
    ensures Rank(WithdrawalEffectIndex) < Rank(BlockStackIndex) < Rank(EffectStackIndex) < Rank(Meta)
    ensures Rank(Meta) < Rank(Request(p)) < Rank(SoftAck(q)) < Rank(HardAck(author)) < Rank(HubHardAck(hub))
  {
  }

  /** Satellites of one kind are ordered by author, heads before coils. */
  lemma AuthorRanksRise(p: U32, q: U32)
    ensures Rank(Request(p)) < Rank(Request(q)) <==> p < q
    ensures Rank(SoftAck(p)) < Rank(SoftAck(q)) <==> p < q
    ensures Rank(HubHardAck(p)) < Rank(HubHardAck(q)) <==> p < q
    ensures Rank(HardAck(Head(p))) < Rank(HardAck(Head(q))) <==> p < q
    ensures Rank(HardAck(Coil(p))) < Rank(HardAck(Coil(q))) <==> p < q
    ensures Rank(HardAck(Head(p))) < Rank(HardAck(Coil(q)))
  {
  }

  // ---- What opening guarantees ----

  predicate AllDifferent<T(==)>(s: seq<T>) {
    forall i, j :: 0 <= i < j < |s| ==> s[i] != s[j]
  }

  /** No two names on disk are the same, and none spells its family in another way than the node does. */
  predicate Canonical(names: seq<string>) {
    AllDifferent(names) && forall name :: name in names && Cf.Parse(name).Some? ==> Cf.Parse(name).value.Name() == name
  }

  lemma {:induction false} KnownFrom(names: seq<string>, cf: Cf)
    ensures cf in Known(names) <==> exists name :: name in names && cf in KnownIn(name)
    decreases |names|
  {
    hide KnownIn;
    if names != [] {
      var init, last := names[..|names| - 1], names[|names| - 1];
      assert names == init + [last];
      KnownFrom(init, cf);
    }
  }

  /** Every family that is opened can be named again. */
  lemma KnownIsNameable(names: seq<string>, cf: Cf)
    requires cf in Known(names)
    ensures cf.Nameable()
  {
    KnownFrom(names, cf);
    var name :| name in names && cf in KnownIn(name);
    ParsedIsNameable(name);
  }

  /** Which families are opened and which names are not recognised. */
  lemma OpenedAre(names: seq<string>)
    ensures forall cf :: cf in Sorted(Known(names)) <==>
              exists name :: name in names && name != "default" && Cf.Parse(name) == Some(cf)
    ensures forall name :: name in Unknown(names) <==> name in names && name != "default" && Cf.Parse(name).None?
  {
    hide Cf.Parse, Sorted;
    var known, sorted := Known(names), Sorted(Known(names));
    assert forall cf :: cf in sorted <==> cf in multiset(sorted);
    assert forall cf :: cf in known <==> cf in multiset(known);
    forall cf
      ensures cf in known <==> exists name :: name in names && name != "default" && Cf.Parse(name) == Some(cf)
    {
      KnownFrom(names, cf);
    }
    forall name
      ensures name in Unknown(names) <==> name in names && name != "default" && Cf.Parse(name).None?
    {
      UnknownAre(names, name);
    }
  }

  lemma KnownInOne(name: string)
    ensures |KnownIn(name)| <= 1
    ensures forall cf :: cf in KnownIn(name) ==> Cf.Parse(name) == Some(cf)
  {
  }

  /** Canonical names open every family once. */
  lemma {:induction false} KnownAreDifferent(names: seq<string>)
    requires Canonical(names)
    ensures AllDifferent(Known(names))
    decreases |names|
  {
    hide Cf.Parse, Cf.Name, KnownIn;
    if names != [] {
      var init, last := names[..|names| - 1], names[|names| - 1];
      assert names == init + [last];
      KnownAreDifferent(init);
      KnownInOne(last);
      if KnownIn(last) != [] && KnownIn(last)[0] in Known(init) {
        var cf := KnownIn(last)[0];
        KnownFrom(init, cf);
        var name :| name in init && cf in KnownIn(name);
        KnownInOne(name);
      }
    }
  }

  lemma {:induction false} OnceEach<T>(s: seq<T>)
    ensures AllDifferent(s) <==> forall x :: multiset(s)[x] <= 1
    decreases |s|
  {
    if s != [] {
      var init, last := s[..|s| - 1], s[|s| - 1];
      assert s == init + [last];
      OnceEach(init);
      assert AllDifferent(s) <==> AllDifferent(init) && last !in init;
      assert forall x :: multiset(s)[x] == multiset(init)[x] + if x == last then 1 else 0;
      assert multiset(init)[last] > 0 <==> last in init;
    }
  }

  /** Sorting neither loses a family nor repeats one. */
  lemma SortedFamilies(names: seq<string>)
    requires Canonical(names)
    ensures AllDifferent(Sorted(Known(names)))
    ensures forall cf :: cf in Sorted(Known(names)) <==> cf in Known(names)
    ensures forall cf :: cf in Sorted(Known(names)) ==> cf.Nameable()
  {
    KnownAreDifferent(names);
    var known, sorted := Known(names), Sorted(Known(names));
    OnceEach(known);
    OnceEach(sorted);
    hide Known, Sorted;
    assert forall cf :: cf in sorted <==> cf in multiset(sorted);
    assert forall cf :: cf in known <==> cf in multiset(known);
    forall cf | cf in sorted
      ensures cf.Nameable()
    {
      KnownIsNameable(names, cf);
    }
  }
}
