/** Byte strings, their lexicographic order, and fixed-width big-endian numbers. */
module ByteStrings {

  type Byte = b: int | 0 <= b < 256

  type Bytes = seq<Byte>

  type U32 = n: nat | n < 0x1_0000_0000

  type U64 = n: nat | n < 0x1_0000_0000_0000_0000

  /** The number of values that fit in `width` bytes. */
  function Capacity(width: nat): (c: nat)
    ensures 0 < c
  {
    if width == 0 then 1 else 256 * Capacity(width - 1)
  }

  /** `n` in exactly `width` bytes, most significant byte first. */
  function BigEndian(width: nat, n: nat): (b: Bytes)
    requires n < Capacity(width)
    ensures |b| == width
  {
    if width == 0 then [] else BigEndian(width - 1, n / 256) + [n % 256]
  }

  function FromBigEndian(b: Bytes): (n: nat)
    ensures n < Capacity(|b|)
  {
    if b == [] then 0 else FromBigEndian(b[..|b| - 1]) * 256 + b[|b| - 1]
  }

  lemma {:induction false} BigEndianRoundTrip(width: nat, n: nat)
    requires n < Capacity(width)
    ensures FromBigEndian(BigEndian(width, n)) == n
  {
    if width > 0 {
      BigEndianRoundTrip(width - 1, n / 256);
      var b := BigEndian(width, n);
      assert b[..|b| - 1] == BigEndian(width - 1, n / 256);
    }
  }

  lemma {:induction false} FromBigEndianRoundTrip(b: Bytes)
    ensures BigEndian(|b|, FromBigEndian(b)) == b
  {
    if b != [] {
      var init, last := b[..|b| - 1], b[|b| - 1];
      FromBigEndianRoundTrip(init);
      var high := FromBigEndian(init);
      assert (high * 256 + last) / 256 == high && (high * 256 + last) % 256 == last;
      assert b == init + [last];
    }
  }

  /** Strict lexicographic order: how a store sorts its keys. */
  predicate Below(a: Bytes, b: Bytes) {
    b != [] && (a == [] || a[0] < b[0] || (a[0] == b[0] && Below(a[1..], b[1..])))
  }

  lemma {:induction false} BelowIrreflexive(a: Bytes)
    ensures !Below(a, a)
  {
    if a != [] {
      BelowIrreflexive(a[1..]);
    }
  }

  lemma {:induction false} BelowTransitive(a: Bytes, b: Bytes, c: Bytes)
    requires Below(a, b) && Below(b, c)
    ensures Below(a, c)
  {
    if a != [] && a[0] == b[0] == c[0] {
      BelowTransitive(a[1..], b[1..], c[1..]);
    }
  }

  lemma {:induction false} BelowTotal(a: Bytes, b: Bytes)
    ensures a == b || Below(a, b) || Below(b, a)
  {
    if a != [] && b != [] && a[0] == b[0] {
      BelowTotal(a[1..], b[1..]);
      assert a == [a[0]] + a[1..] && b == [b[0]] + b[1..];
    }
  }

  /** Equal-length prefixes are compared first; the rest only breaks a tie. */
  lemma {:induction false} BelowConcat(a: Bytes, b: Bytes, c: Bytes, d: Bytes)
    requires |a| == |b|
    ensures Below(a + c, b + d) <==> Below(a, b) || (a == b && Below(c, d))
  {
    if a == [] {
      assert a + c == c && b + d == d;
    } else {
      assert (a + c)[1..] == a[1..] + c && (b + d)[1..] == b[1..] + d;
      BelowConcat(a[1..], b[1..], c, d);
      assert a == [a[0]] + a[1..] && b == [b[0]] + b[1..];
      BelowIrreflexive(a);
    }
  }

  /** Big-endian numbers of one width sort as the numbers do. */
  lemma {:induction false} BigEndianOrder(width: nat, m: nat, n: nat)
    requires m < Capacity(width) && n < Capacity(width)
    ensures Below(BigEndian(width, m), BigEndian(width, n)) <==> m < n
  {
    if width > 0 {
      var x, y := BigEndian(width - 1, m / 256), BigEndian(width - 1, n / 256);
      BelowConcat(x, y, [m % 256], [n % 256]);
      assert Below([m % 256], [n % 256]) <==> m % 256 < n % 256;
      BigEndianOrder(width - 1, m / 256, n / 256);
      assert x == y <==> m / 256 == n / 256 by {
        BigEndianRoundTrip(width - 1, m / 256);
        BigEndianRoundTrip(width - 1, n / 256);
      }
    }
  }
}
