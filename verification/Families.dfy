/** What a store is divided into, and what each part is called. */
module Families {
  import opened ByteStrings
  import opened Decimals
  import opened Outcomes

  datatype PeerId = Head(number: U32) | Coil(number: U32) {

    /** The packed form. Shifting a 32-bit number drops its top bit. */
    function ToWireInt(): U32 {
      var shifted := (2 * number) % 0x1_0000_0000;
      if Head? then shifted + 1 else shifted
    }

    static function FromWireInt(i: U32): PeerId {
      if i % 2 == 1 then Head(i / 2) else Coil(i / 2)
    }
  }

  datatype Cf =
    | Block
    | Stack
    | BlockResult
    | SoftConfirmation
    | HardConfirmation
    | RequestHighWater
    | CoilStampMark
    | L2CommandNumber
    | UnsignedStack
    | DepositMap
    | Treasury
    | EvacuationMap
    | RequestBlockIndex
    | DepositDecisionIndex
    | WithdrawalEffectIndex
    | BlockStackIndex
    | EffectStackIndex
    | Meta
    | Request(peer: U32)
    | SoftAck(peer: U32)
    | HardAck(author: PeerId)
    | HubHardAck(hub: U32)
  {
    predicate IsJournal() {
      Block? || Stack? || Request? || SoftAck? || HardAck? || HubHardAck?
    }

    /** How many bytes an index of the journal takes; only user requests need the wide form. */
    function KeyWidth(): Option<nat> {
      if Request? then Some(8) else if IsJournal() then Some(4) else None
    }

    function Name(): string {
      match this
      case Block => "Block"
      case Stack => "Stack"
      case BlockResult => "BlockResult"
      case SoftConfirmation => "SoftConfirmation"
      case HardConfirmation => "HardConfirmation"
      case RequestHighWater => "RequestHighWater"
      case CoilStampMark => "CoilStampMark"
      case L2CommandNumber => "L2CommandNumber"
      case UnsignedStack => "UnsignedStack"
      case DepositMap => "DepositMap"
      case Treasury => "Treasury"
      case EvacuationMap => "EvacuationMap"
      case RequestBlockIndex => "RequestBlockIndex"
      case DepositDecisionIndex => "DepositDecisionIndex"
      case WithdrawalEffectIndex => "WithdrawalEffectIndex"
      case BlockStackIndex => "BlockStackIndex"
      case EffectStackIndex => "EffectStackIndex"
      case Meta => "Meta"
      case Request(p) => "Request:" + Decimal(p)
      case SoftAck(p) => "SoftAck:" + Decimal(p)
      case HardAck(p) => "HardAck:" + Decimal(p.ToWireInt())
      case HubHardAck(h) => "HubHardAck:" + Decimal(h)
    }

    static function Parse(name: string): Option<Cf> {
      match FindNamed(FIXED, name)
      case Some(fixed) => Some(fixed)
      case None =>
        match SplitOnce(name, ':')
        case None => None
        case Some((kind, digits)) =>
          match ParseU32(digits)
          case None => None
          case Some(num) =>
            if kind == "Request" then Some(Request(num))
            else if kind == "SoftAck" then Some(SoftAck(num))
            else if kind == "HardAck" then Some(HardAck(PeerId.FromWireInt(num)))
            else if kind == "HubHardAck" then Some(HubHardAck(num))
            else None
    }

    /** The ids a family name can carry: packing a peer id costs it one bit. */
    predicate Nameable() {
      HardAck? ==> author.number < 0x8000_0000
    }
  }

  const FIXED: seq<Cf> := [
    Block, Stack, BlockResult, SoftConfirmation, HardConfirmation, RequestHighWater, CoilStampMark,
    L2CommandNumber, UnsignedStack, DepositMap, Treasury, EvacuationMap, RequestBlockIndex,
    DepositDecisionIndex, WithdrawalEffectIndex, BlockStackIndex, EffectStackIndex, Meta]

  function FindNamed(candidates: seq<Cf>, name: string): Option<Cf> {
    if candidates == [] then None
    else if candidates[0].Name() == name then Some(candidates[0])
    else FindNamed(candidates[1..], name)
  }

  /** The text before and after the first `separator`, if there is one. */
  function SplitOnce(s: string, separator: char): Option<(string, string)> {
    if s == [] then None
    else if s[0] == separator then Some(([], s[1..]))
    else
      match SplitOnce(s[1..], separator)
      case None => None
      case Some((before, after)) => Some(([s[0]] + before, after))
  }

  /** Decimal digits after an optional plus sign; anything that overflows 32 bits is refused. */
  function ParseU32(s: string): Option<U32> {
    var digits := if s != [] && s[0] == '+' then s[1..] else s;
    if digits == [] || exists c :: c in digits && !IsDigit(c) then None
    else if DigitsValue(digits) < 0x1_0000_0000 then Some(DigitsValue(digits))
    else None
  }

  lemma {:induction false} SplitOnceAtFirst(before: string, after: string, separator: char)
    requires separator !in before
    ensures SplitOnce(before + [separator] + after, separator) == Some((before, after))
  {
    var s := before + [separator] + after;
    if before == [] {
      assert s[1..] == after;
    } else {
      assert s[1..] == before[1..] + [separator] + after;
      SplitOnceAtFirst(before[1..], after, separator);
      assert before == [before[0]] + before[1..];
    }
  }

  lemma {:induction false} FindNamedMisses(candidates: seq<Cf>, name: string)
    requires forall c :: c in candidates ==> c.Name() != name
    ensures FindNamed(candidates, name) == None
  {
    if candidates != [] {
      FindNamedMisses(candidates[1..], name);
    }
  }

  /** Length and initial: enough to tell the fixed names apart. */
  ghost function Signature(cf: Cf): (nat, char) {
    match cf
    case Block => (5, 'B')
    case Stack => (5, 'S')
    case BlockResult => (11, 'B')
    case SoftConfirmation => (16, 'S')
    case HardConfirmation => (16, 'H')
    case RequestHighWater => (16, 'R')
    case CoilStampMark => (13, 'C')
    case L2CommandNumber => (15, 'L')
    case UnsignedStack => (13, 'U')
    case DepositMap => (10, 'D')
    case Treasury => (8, 'T')
    case EvacuationMap => (13, 'E')
    case RequestBlockIndex => (17, 'R')
    case DepositDecisionIndex => (20, 'D')
    case WithdrawalEffectIndex => (21, 'W')
    case BlockStackIndex => (15, 'B')
    case EffectStackIndex => (16, 'E')
    case Meta => (4, 'M')
    case _ => (0, ':')
  }

  ghost predicate Satellite(cf: Cf) {
    cf.Request? || cf.SoftAck? || cf.HardAck? || cf.HubHardAck?
  }

  lemma FixedNamesAreSigned(cf: Cf)
    requires !Satellite(cf)
    ensures |cf.Name()| == Signature(cf).0 > 0 && cf.Name()[0] == Signature(cf).1
  {
  }

  lemma FixedNamesCarryNoColon(cf: Cf)
    requires !Satellite(cf)
    ensures ':' !in cf.Name()
  {
    var name := cf.Name();
    FixedNamesAreSigned(cf);
    match cf
    case SoftConfirmation | HardConfirmation | RequestHighWater | EffectStackIndex =>
      assert ':' !in name;
    case RequestBlockIndex | DepositDecisionIndex | WithdrawalEffectIndex | BlockStackIndex =>
      assert ':' !in name;
    case CoilStampMark | UnsignedStack | EvacuationMap | L2CommandNumber =>
      assert ':' !in name;
    case _ =>
  }

  lemma FixedListsNoSatellite()
    ensures forall c :: c in FIXED ==> !Satellite(c)
  {
  }

  lemma SignaturesDiffer(a: Cf, b: Cf)
    requires !Satellite(a) && !Satellite(b) && a != b
    ensures Signature(a) != Signature(b)
  {
  }

  lemma FixedNamesDiffer(a: Cf, b: Cf)
    requires !Satellite(a) && !Satellite(b) && a.Name() == b.Name()
    ensures a == b
  {
    FixedNamesAreSigned(a);
    FixedNamesAreSigned(b);
    if a != b {
      SignaturesDiffer(a, b);
    }
  }

  lemma {:induction false} FindNamedHits(candidates: seq<Cf>, cf: Cf, name: string)
    requires cf in candidates && cf.Name() == name
    requires forall c :: c in candidates && c.Name() == name ==> c == cf
    ensures FindNamed(candidates, name) == Some(cf)
  {
    if candidates[0] != cf {
      FindNamedHits(candidates[1..], cf, name);
    }
  }

  /** Packing is reversible exactly when the number keeps its top bit clear. */
  lemma WireIntRoundTrip(p: PeerId)
    ensures PeerId.FromWireInt(p.ToWireInt()) == p <==> p.number < 0x8000_0000
  {
  }

  lemma FixedParse(cf: Cf)
    requires !Satellite(cf)
    ensures Cf.Parse(cf.Name()) == Some(cf)
  {
    assert cf in FIXED;
    FixedListsNoSatellite();
    forall c | c in FIXED && c.Name() == cf.Name() ensures c == cf {
      FixedNamesDiffer(c, cf);
    }
    FindNamedHits(FIXED, cf, cf.Name());
  }

  lemma FixedNamesMiss(name: string)
    requires ':' in name
    ensures FindNamed(FIXED, name) == None
  {
    FixedListsNoSatellite();
    forall c | c in FIXED ensures c.Name() != name {
      FixedNamesCarryNoColon(c);
    }
    FindNamedMisses(FIXED, name);
  }

  lemma ParseU32Decimal(num: U32)
    ensures ParseU32(Decimal(num)) == Some(num)
  {
    DecimalRoundTrip(num);
    assert Decimal(num)[0] in Decimal(num);
  }

  ghost function NamedBy(kind: string, num: U32): Option<Cf> {
    if kind == "Request" then Some(Request(num))
    else if kind == "SoftAck" then Some(SoftAck(num))
    else if kind == "HardAck" then Some(HardAck(PeerId.FromWireInt(num)))
    else if kind == "HubHardAck" then Some(HubHardAck(num))
    else None
  }

  lemma SatelliteParse(kind: string, num: U32)
    requires ':' !in kind
    ensures Cf.Parse(kind + ":" + Decimal(num)) == NamedBy(kind, num)
  {
    var name := kind + ":" + Decimal(num);
    assert name[|kind|] == ':';
    FixedNamesMiss(name);
    SplitOnceAtFirst(kind, Decimal(num), ':');
    ParseU32Decimal(num);
  }

  /** A name reads back as the family it was printed from exactly when its ids fit the name. */
  lemma NameRoundTrip(cf: Cf)
    ensures Cf.Parse(cf.Name()) == Some(cf) <==> cf.Nameable()
  {
    assert "Request" + ":" == "Request:" && "SoftAck" + ":" == "SoftAck:";
    assert "HardAck" + ":" == "HardAck:" && "HubHardAck" + ":" == "HubHardAck:";
    match cf
    case Request(p) => SatelliteParse("Request", p);
    case SoftAck(p) => SatelliteParse("SoftAck", p);
    case HubHardAck(h) => SatelliteParse("HubHardAck", h);
    case HardAck(p) =>
      SatelliteParse("HardAck", p.ToWireInt());
      WireIntRoundTrip(p);
    case _ => FixedParse(cf);
  }

  /** Every family a store opens was parsed from its name, and so can be named again. */
  lemma ParsedIsNameable(name: string)
    ensures Cf.Parse(name).Some? ==> Cf.Parse(name).value.Nameable()
  {
    match FindNamed(FIXED, name)
    case Some(fixed) => FoundIsFixed(FIXED, name);
    case None =>
  }

  lemma {:induction false} FoundIsFixed(candidates: seq<Cf>, name: string)
    requires forall cf :: cf in candidates ==> !cf.HardAck?
    ensures FindNamed(candidates, name).Some? ==> !FindNamed(candidates, name).value.HardAck?
  {
    if candidates != [] {
      assert candidates[0] in candidates;
      FoundIsFixed(candidates[1..], name);
    }
  }

  /** The number in a satellite's name. */
  ghost function Number(cf: Cf): nat {
    match cf
    case Request(p) => p
    case SoftAck(p) => p
    case HardAck(p) => p.ToWireInt()
    case HubHardAck(h) => h
    case _ => 0
  }

  ghost function Kind(cf: Cf): string {
    match cf
    case Request(_) => "Request"
    case SoftAck(_) => "SoftAck"
    case HardAck(_) => "HardAck"
    case HubHardAck(_) => "HubHardAck"
    case _ => ""
  }

  /** The name is the kind, a colon and digits for the number, perhaps after a plus sign. */
  ghost predicate Spells(name: string, cf: Cf, digits: string) {
    && Satellite(cf)
    && (name == Kind(cf) + ":" + digits || name == Kind(cf) + ":+" + digits)
    && digits != [] && (forall c :: c in digits ==> '0' <= c <= '9') && DigitsValue(digits) == Number(cf)
  }

  lemma {:induction false} SplitMeans(s: string, separator: char)
    ensures SplitOnce(s, separator).None? <==> separator !in s
    ensures SplitOnce(s, separator).Some? ==>
              var (before, after) := SplitOnce(s, separator).value;
              separator !in before && s == before + [separator] + after
  {
    if s != [] && s[0] != separator {
      SplitMeans(s[1..], separator);
      assert s == [s[0]] + s[1..];
    }
  }

  lemma ParseU32Means(s: string)
    ensures ParseU32(s).Some? ==>
              exists digits: string ::
                && (s == digits || s == "+" + digits) && digits != []
                && (forall c :: c in digits ==> '0' <= c <= '9') && DigitsValue(digits) == ParseU32(s).value
  {
    if ParseU32(s).Some? {
      var digits := if s[0] == '+' then s[1..] else s;
      assert s == digits || s == "+" + digits;
      assert forall c :: c in digits ==> IsDigit(c);
    }
  }

  lemma {:induction false} FoundHasName(candidates: seq<Cf>, name: string)
    ensures FindNamed(candidates, name).Some? ==>
              FindNamed(candidates, name).value in candidates && FindNamed(candidates, name).value.Name() == name
  {
    if candidates != [] {
      FoundHasName(candidates[1..], name);
    }
  }

  lemma ParsedSatellite(name: string, cf: Cf)
    requires FindNamed(FIXED, name).None? && Cf.Parse(name) == Some(cf)
    ensures Satellite(cf) && SplitOnce(name, ':').Some? && ParseU32(SplitOnce(name, ':').value.1).Some?
    ensures var (kind, number) := SplitOnce(name, ':').value; kind == Kind(cf) && ParseU32(number) == Some(Number(cf))
  {
    hide FindNamed, SplitOnce, ParseU32;
  }

  lemma ParsedFixed(name: string)
    requires FindNamed(FIXED, name).Some?
    ensures Cf.Parse(name) == FindNamed(FIXED, name)
  {
    hide FindNamed;
  }

  lemma SpelledSo(cf: Cf, number: string, digits: string)
    requires Satellite(cf) && (number == digits || number == "+" + digits)
    ensures var name := Kind(cf) + ":" + number; name == Kind(cf) + ":" + digits || name == Kind(cf) + ":+" + digits
  {
    hide Kind;
    assert Kind(cf) + ":" + ("+" + digits) == Kind(cf) + ":+" + digits;
  }

  /** Nothing is recognised but the fixed names and such spellings; every other name is refused. */
  lemma ParsedIsSpelled(name: string, cf: Cf)
    requires Cf.Parse(name) == Some(cf)
    ensures if Satellite(cf) then exists digits :: Spells(name, cf, digits) else name == cf.Name()
  {
    hide Cf.Parse, Cf.Name, FindNamed, SplitOnce, ParseU32, Kind, Number, DigitsValue;
    FoundHasName(FIXED, name);
    FixedListsNoSatellite();
    if FindNamed(FIXED, name).None? {
      ParsedSatellite(name, cf);
      SplitMeans(name, ':');
      var (kind, number) := SplitOnce(name, ':').value;
      ParseU32Means(number);
      var digits: string :| (number == digits || number == "+" + digits) && digits != []
                            && (forall c :: c in digits ==> '0' <= c <= '9')
                            && DigitsValue(digits) == ParseU32(number).value;
      SpelledSo(cf, number, digits);
      assert Spells(name, cf, digits);
    } else {
      ParsedFixed(name);
    }
  }

  lemma ParsesDigits(digits: string, number: string)
    requires number == digits || number == "+" + digits
    requires digits != [] && (forall c :: c in digits ==> '0' <= c <= '9') && DigitsValue(digits) < 0x1_0000_0000
    ensures ParseU32(number) == Some(DigitsValue(digits))
  {
    hide DigitsValue;
    assert digits[0] in digits;
    assert ("+" + digits)[1..] == digits;
  }

  lemma ParsesSatellite(name: string, cf: Cf, number: string)
    requires FindNamed(FIXED, name).None? && SplitOnce(name, ':') == Some((Kind(cf), number))
    requires Satellite(cf) && cf.Nameable() && ParseU32(number) == Some(Number(cf))
    ensures Cf.Parse(name) == Some(cf)
  {
    hide FindNamed, SplitOnce, ParseU32;
    if cf.HardAck? {
      WireIntRoundTrip(cf.author);
    }
  }

  /** And they all are. */
  lemma SpelledParses(name: string, cf: Cf, digits: string)
    requires Spells(name, cf, digits) && cf.Nameable()
    ensures Cf.Parse(name) == Some(cf)
  {
    hide Cf.Parse, FindNamed, SplitOnce, ParseU32, DigitsValue;
    var number := if name == Kind(cf) + ":" + digits then digits else "+" + digits;
    SpelledSo(cf, number, digits);
    assert name == Kind(cf) + [':'] + number;
    assert name[|Kind(cf)|] == ':';
    FixedNamesMiss(name);
    SplitOnceAtFirst(Kind(cf), number, ':');
    ParsesDigits(digits, number);
    ParsesSatellite(name, cf, number);
  }

  /** No two families share storage. */
  lemma NamesAreInjective(a: Cf, b: Cf)
    requires a.Nameable() && b.Nameable()
    requires a.Name() == b.Name()
    ensures a == b
  {
    NameRoundTrip(a);
    NameRoundTrip(b);
  }

  /** Past the packed range two authors do collide. */
  lemma OversizedPeersCollide()
    ensures HardAck(Head(0x8000_0000)) != HardAck(Head(0))
    ensures HardAck(Head(0x8000_0000)).Name() == HardAck(Head(0)).Name()
  {
    assert Head(0x8000_0000).ToWireInt() == 1 == Head(0).ToWireInt();
  }
}
