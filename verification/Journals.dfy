/** Journal framing: the index a key encodes and the arrival stamp every value carries. */
module Journals {
  import opened ByteStrings
  import opened Families
  import opened Outcomes

  const STAMP_WIDTH := 12

  datatype ArrivalStamp = ArrivalStamp(generation: U32, monotonicNanos: U64) {

    function ToBytes(): (b: Bytes)
      ensures |b| == STAMP_WIDTH
    {
      CapacityOfWords();
      BigEndian(4, generation) + BigEndian(8, monotonicNanos)
    }

    static function FromBytes(b: Bytes): Result<ArrivalStamp> {
      CapacityOfWords();
      if |b| < STAMP_WIDTH then Err(Corrupt)
      else Ok(ArrivalStamp(FromBigEndian(b[0..4]), FromBigEndian(b[4..12])))
    }

    predicate Before(other: ArrivalStamp) {
      generation < other.generation
      || (generation == other.generation && monotonicNanos < other.monotonicNanos)
    }
  }

  datatype Entry = Entry(cf: Cf, index: U64, stamp: ArrivalStamp, payload: Bytes) {

    function Framed(): Bytes {
      stamp.ToBytes() + payload
    }
  }

  function EncodeKey(cf: Cf, index: U64): Result<Bytes> {
    CapacityOfWords();
    match cf.KeyWidth()
    case None => Err(NotAJournal)
    case Some(width) =>
      if width == 8 then Ok(BigEndian(8, index))
      else if index < 0x1_0000_0000 then Ok(BigEndian(4, index))
      else Err(IndexTooLarge)
  }

  function DecodeKey(cf: Cf, b: Bytes): Result<U64> {
    CapacityOfWords();
    match cf.KeyWidth()
    case None => Err(NotAJournal)
    case Some(width) =>
      if |b| != width then Err(Corrupt) else Ok(FromBigEndian(b))
  }

  function Unframe(framed: Bytes): Result<(ArrivalStamp, Bytes)> {
    match ArrivalStamp.FromBytes(framed)
    case Err(e) => Err(e)
    case Ok(stamp) => Ok((stamp, framed[STAMP_WIDTH..]))
  }

  lemma CapacityOfWords()
    ensures Capacity(4) == 0x1_0000_0000
    ensures Capacity(8) == 0x1_0000_0000_0000_0000
  {
  }

  /** The indices a journal can key. */
  predicate Fits(cf: Cf, index: nat) {
    cf.IsJournal() && index < if cf.Request? then 0x1_0000_0000_0000_0000 else 0x1_0000_0000
  }

  /** An index encodes, and decodes back, exactly when it fits the journal; nothing is truncated. */
  lemma KeyRoundTrip(cf: Cf, index: U64)
    ensures Fits(cf, index) ==> EncodeKey(cf, index).Ok? && DecodeKey(cf, EncodeKey(cf, index).value) == Ok(index)
    ensures !Fits(cf, index) ==> EncodeKey(cf, index).Err?
  {
    CapacityOfWords();
    if Fits(cf, index) {
      BigEndianRoundTrip(if cf.Request? then 8 else 4, index);
    }
  }

  /** A key that decodes is the encoding of the index it decodes to. */
  lemma DecodedKeyReencodes(cf: Cf, key: Bytes)
    requires DecodeKey(cf, key).Ok?
    ensures Fits(cf, DecodeKey(cf, key).value) && EncodeKey(cf, DecodeKey(cf, key).value) == Ok(key)
  {
    CapacityOfWords();
    FromBigEndianRoundTrip(key);
  }

  /** Byte order is index order. */
  lemma KeyOrder(cf: Cf, m: U64, n: U64)
    requires EncodeKey(cf, m).Ok? && EncodeKey(cf, n).Ok?
    ensures Below(EncodeKey(cf, m).value, EncodeKey(cf, n).value) <==> m < n
  {
    CapacityOfWords();
    BigEndianOrder(if cf.Request? then 8 else 4, m, n);
  }

  /** Taking a value apart and framing it again gives the same bytes. */
  lemma UnframedReframes(cf: Cf, index: U64, framed: Bytes)
    ensures Unframe(framed).Ok? <==> |framed| >= STAMP_WIDTH
    ensures Unframe(framed).Ok? ==>
              Entry(cf, index, Unframe(framed).value.0, Unframe(framed).value.1).Framed() == framed
  {
    if |framed| >= STAMP_WIDTH {
      FromBigEndianRoundTrip(framed[0..4]);
      FromBigEndianRoundTrip(framed[4..12]);
      assert framed == framed[0..4] + framed[4..12] + framed[STAMP_WIDTH..];
    }
  }

  /** Framing an entry loses nothing of its stamp or its payload. */
  lemma FramedUnframes(entry: Entry)
    ensures Unframe(entry.Framed()) == Ok((entry.stamp, entry.payload))
  {
    CapacityOfWords();
    var head, tail := BigEndian(4, entry.stamp.generation), BigEndian(8, entry.stamp.monotonicNanos);
    var framed := entry.Framed();
    assert framed[0..4] == head && framed[4..12] == tail && framed[STAMP_WIDTH..] == entry.payload;
    BigEndianRoundTrip(4, entry.stamp.generation);
    BigEndianRoundTrip(8, entry.stamp.monotonicNanos);
  }

  /** Ordering stored values by their raw prefix orders them by decoded stamp. */
  lemma PrefixOrderIsStampOrder(a: Bytes, b: Bytes)
    requires |a| >= STAMP_WIDTH && |b| >= STAMP_WIDTH
    ensures Below(a[..STAMP_WIDTH], b[..STAMP_WIDTH])
            <==> Unframe(a).value.0.Before(Unframe(b).value.0)
  {
    assert a[..STAMP_WIDTH] == a[0..4] + a[4..12] && b[..STAMP_WIDTH] == b[0..4] + b[4..12];
    BelowConcat(a[0..4], b[0..4], a[4..12], b[4..12]);
    NumberOrder(a[0..4], b[0..4]);
    NumberOrder(a[4..12], b[4..12]);
  }

  lemma NumberOrder(a: Bytes, b: Bytes)
    requires |a| == |b|
    ensures Below(a, b) <==> FromBigEndian(a) < FromBigEndian(b)
    ensures a == b <==> FromBigEndian(a) == FromBigEndian(b)
  {
    FromBigEndianRoundTrip(a);
    FromBigEndianRoundTrip(b);
    BigEndianOrder(|a|, FromBigEndian(a), FromBigEndian(b));
  }
}
