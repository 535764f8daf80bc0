/** Bytes, fixed-width big-endian numbers and the byte-lexicographic order the KV store iterates in. */
module Bytes {
  type Byte = b: int | 0 <= b < 256
  type Bytes = seq<Byte>

  const TWO32: nat := 0x1_0000_0000
  const TWO63: int := 0x8000_0000_0000_0000
  const TWO64: nat := 0x1_0000_0000_0000_0000

  function Ascii(s: string): (b: Bytes)
    ensures |b| == |s|
  {
    seq(|s|, i requires 0 <= i < |s| => s[i] as int % 256)
  }

  /** The number of values `width` bytes can hold. */
  function Capacity(width: nat): (c: nat)
    ensures c > 0
  {
    if width == 0 then 1 else 256 * Capacity(width - 1)
  }

  /** binary.BigEndian.PutUint of `width` bytes; a larger number keeps its low bytes. */
  function BigEndian(n: nat, width: nat): (b: Bytes)
    ensures |b| == width
  {
    if width == 0 then [] else BigEndian(n / 256, width - 1) + [n % 256]
  }

  function FromBigEndian(b: Bytes): nat {
    if b == [] then 0 else FromBigEndian(b[..|b|-1]) * 256 + b[|b|-1]
  }

  lemma {:induction false} DecodeEncode(n: nat, width: nat)
    requires n < Capacity(width)
    ensures FromBigEndian(BigEndian(n, width)) == n
  {
    if width > 0 {
      DecodeEncode(n / 256, width - 1);
      assert BigEndian(n, width)[..width-1] == BigEndian(n / 256, width - 1);
    }
  }

  lemma {:induction false} EncodeDecode(b: Bytes)
    ensures FromBigEndian(b) < Capacity(|b|)
    ensures BigEndian(FromBigEndian(b), |b|) == b
  {
    if b != [] {
      EncodeDecode(b[..|b|-1]);
      assert b == b[..|b|-1] + [b[|b|-1]];
    }
  }

  lemma Capacities()
    ensures Capacity(4) == TWO32 && Capacity(8) == TWO64
  {
    assert Capacity(4) == 256 * Capacity(3) == 256 * (256 * Capacity(2)) == TWO32;
    assert Capacity(8) == 256 * Capacity(7) == 256 * (256 * Capacity(6)) == 256 * (256 * (256 * (256 * Capacity(4))));
  }

  /** Strict byte-lexicographic order. */
  predicate Less(a: Bytes, b: Bytes) {
    b != [] && (a == [] || a[0] < b[0] || (a[0] == b[0] && Less(a[1..], b[1..])))
  }

  lemma {:induction false} LessTransitive(a: Bytes, b: Bytes, c: Bytes)
    requires Less(a, b) && Less(b, c)
    ensures Less(a, c)
  {
    if a != [] && a[0] == b[0] == c[0] {
      LessTransitive(a[1..], b[1..], c[1..]);
    }
  }

  lemma {:induction false} LessTrichotomy(a: Bytes, b: Bytes)
    ensures Less(a, b) || a == b || Less(b, a)
    ensures !(Less(a, b) && a == b) && !(Less(a, b) && Less(b, a)) && !Less(a, a)
  {
    if a != [] && b != [] && a[0] == b[0] {
      LessTrichotomy(a[1..], b[1..]);
      assert a == [a[0]] + a[1..] && b == [b[0]] + b[1..];
    }
    LessIrreflexive(a);
  }

  lemma {:induction false} LessIrreflexive(a: Bytes)
    ensures !Less(a, a)
  {
    if a != [] { LessIrreflexive(a[1..]); }
  }

  lemma {:induction false} LessUnderPrefix(p: Bytes, a: Bytes, b: Bytes)
    ensures Less(p + a, p + b) <==> Less(a, b)
  {
    if p == [] {
      assert p + a == a && p + b == b;
    } else {
      LessUnderPrefix(p[1..], a, b);
      assert (p + a)[1..] == p[1..] + a && (p + b)[1..] == p[1..] + b;
    }
  }

  /** A key is never below its own prefix. */
  lemma NotLessThanPrefix(p: Bytes, a: Bytes)
    ensures !Less(p + a, p)
  {
    LessUnderPrefix(p, a, []);
    assert p + [] == p;
  }

  /** Between two strings of equal length that differ, what follows them does not matter. */
  lemma {:induction false} LessDecidedByHead(a: Bytes, b: Bytes, x: Bytes, y: Bytes)
    requires |a| == |b| && a != b
    ensures Less(a + x, b + y) <==> Less(a, b)
  {
    assert a == [a[0]] + a[1..] && b == [b[0]] + b[1..];
    assert (a + x)[1..] == a[1..] + x && (b + y)[1..] == b[1..] + y;
    if a[0] == b[0] {
      LessDecidedByHead(a[1..], b[1..], x, y);
    }
  }

  /** Byte order of equal-width big-endian numbers is numeric order. */
  lemma {:induction false} BigEndianOrder(m: nat, n: nat, width: nat)
    requires m < Capacity(width) && n < Capacity(width)
    ensures Less(BigEndian(m, width), BigEndian(n, width)) <==> m < n
    ensures BigEndian(m, width) == BigEndian(n, width) <==> m == n
  {
    if width > 0 {
      BigEndianOrder(m / 256, n / 256, width - 1);
      DecodeEncode(m, width);
      DecodeEncode(n, width);
      var a, b := BigEndian(m / 256, width - 1), BigEndian(n / 256, width - 1);
      if a == b {
        LessUnderPrefix(a, [m % 256], [n % 256]);
      } else {
        LessDecidedByHead(a, b, [m % 256], [n % 256]);
      }
    }
  }

  /** Four bytes, highest first. */
  lemma SmallU32(n: Byte)
    ensures BigEndian(n, 4) == [0, 0, 0, n]
  {
    assert BigEndian(n, 4) == BigEndian(n / 256, 3) + [n % 256];
    assert BigEndian(0, 3) == BigEndian(0, 2) + [0] && BigEndian(0, 2) == BigEndian(0, 1) + [0] && BigEndian(0, 1) == BigEndian(0, 0) + [0];
  }
}
