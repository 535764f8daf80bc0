/**
 The wire codec of the lot queues: the generated encoder and decoder of CoinLot and CoinAge in
 x/coin/types/coin.pb.go. The encoder fills a buffer from its end; the decoder walks an index forward.
 Both follow Protocol Buffers Encoding, section "Base 128 Varints".
 */
module ProtoCodec {
  import opened Bytes
  import Seqs

  datatype CoinLot = CoinLot(amount: Bytes, acquiredAt: int)
  datatype CoinAge = CoinAge(address: Bytes, lots: seq<CoinLot>)

  predicate IsInt64(x: int) { -TWO63 <= x < TWO63 }

  /** uint64(x) for an int64, and back. */
  function ToU64(x: int): (u: nat)
    requires IsInt64(x)
    ensures u < TWO64
  {
    if x < 0 then x + TWO64 else x
  }

  function ToI64(u: nat): int
    requires u < TWO64
  {
    if u < TWO63 then u else u - TWO64
  }

  // ----- varints

  function Varint(v: nat): (b: Bytes)
    ensures b != []
  {
    if v < 128 then [v] else [v % 128 + 128] + Varint(v / 128)
  }

  /** math/bits.Len64. */
  function BitLen(x: nat): nat {
    if x == 0 then 0 else 1 + BitLen(x / 2)
  }

  /** x | 1 */
  function WithLowBit(x: nat): nat { x + 1 - x % 2 }

  function Sov(x: nat): nat { (BitLen(WithLowBit(x)) + 6) / 7 }

  lemma BitLenThree(x: nat)
    requires x >= 8
    ensures BitLen(x) == 3 + BitLen(x / 8)
  {
    assert BitLen(x) == 1 + BitLen(x / 2);
    assert BitLen(x / 2) == 1 + BitLen(x / 2 / 2);
    assert BitLen(x / 2 / 2) == 1 + BitLen(x / 2 / 2 / 2);
    assert x / 2 / 2 / 2 == x / 8;
  }

  lemma BitLenSeven(x: nat)
    requires x >= 128
    ensures BitLen(x) == 7 + BitLen(x / 128)
  {
    BitLenThree(x);
    BitLenThree(x / 8);
    assert BitLen(x / 8 / 8) == 1 + BitLen(x / 8 / 8 / 2);
    assert x / 8 / 8 / 2 == x / 128;
  }

  lemma LowBitKeepsLength(x: nat)
    requires x > 0
    ensures BitLen(WithLowBit(x)) == BitLen(x)
  {
    assert WithLowBit(x) / 2 == x / 2;
  }

  lemma SmallBitLen(x: nat)
    requires 0 < x < 128
    ensures 1 <= BitLen(x) <= 7
  {
    assert Pow2(7) == 2 * (2 * (2 * Pow2(4))) && Pow2(4) == 2 * (2 * (2 * Pow2(1))) && Pow2(1) == 2 * Pow2(0);
    ShortBitLen(x, 7);
  }

  lemma {:induction false} ShortBitLen(x: nat, bits: nat)
    requires x < Pow2(bits)
    ensures BitLen(x) <= bits
  {
    if x > 0 { ShortBitLen(x / 2, bits - 1); }
  }

  function Pow2(n: nat): (p: nat)
    ensures p > 0
  {
    if n == 0 then 1 else 2 * Pow2(n - 1)
  }

  /** The size the encoder reserves is the size the varint takes. */
  lemma {:induction false} SovIsVarintLength(v: nat)
    ensures Sov(v) == |Varint(v)|
  {
    if v < 128 {
      SmallBitLen(WithLowBit(v));
    } else {
      SovIsVarintLength(v / 128);
      SovStep(v);
    }
  }

  lemma SovStep(v: nat)
    requires v >= 128
    ensures Sov(v) == 1 + Sov(v / 128)
  {
    BitLenSeven(WithLowBit(v));
    assert WithLowBit(v) / 128 == v / 128;
    LowBitKeepsLength(v / 128);
  }

  // ----- messages

  function LenField(tag: Byte, s: Bytes): Bytes {
    if s == [] then [] else [tag] + Varint(|s|) + s
  }

  function IntField(tag: Byte, x: int): Bytes
    requires IsInt64(x)
  {
    if x == 0 then [] else [tag] + Varint(ToU64(x))
  }

  /** Go slices are shorter than 2^63 bytes, and timestamps are int64. */
  predicate WireLot(l: CoinLot) { IsInt64(l.acquiredAt) && |l.amount| < TWO63 }

  function EncodeLot(l: CoinLot): Bytes
    requires WireLot(l)
  {
    LenField(0x0a, l.amount) + IntField(0x10, l.acquiredAt)
  }

  /** A lot inside the queue: always present, even when it encodes to nothing. */
  function LotField(l: CoinLot): Bytes
    requires WireLot(l)
  {
    [0x2a] + Varint(|EncodeLot(l)|) + EncodeLot(l)
  }

  predicate WireLots(lots: seq<CoinLot>) { forall i :: 0 <= i < |lots| ==> WireLot(lots[i]) }

  function EncodeLots(lots: seq<CoinLot>): Bytes
    requires WireLots(lots)
  {
    if lots == [] then [] else LotField(lots[0]) + EncodeLots(lots[1..])
  }

  predicate WireAge(m: CoinAge) {
    WireLots(m.lots) && |m.address| < TWO63
  }

  function EncodeAge(m: CoinAge): Bytes
    requires WireAge(m)
  {
    LenField(0x0a, m.address) + EncodeLots(m.lots)
  }

  function SizeLot(l: CoinLot): nat
    requires WireLot(l)
  {
    (if |l.amount| > 0 then 1 + |l.amount| + Sov(|l.amount|) else 0) +
    (if l.acquiredAt != 0 then 1 + Sov(ToU64(l.acquiredAt)) else 0)
  }

  function SizeLots(lots: seq<CoinLot>): nat
    requires WireLots(lots)
  {
    if lots == [] then 0 else 1 + SizeLot(lots[0]) + Sov(SizeLot(lots[0])) + SizeLots(lots[1..])
  }

  function SizeAge(m: CoinAge): nat
    requires WireAge(m)
  {
    (if |m.address| > 0 then 1 + |m.address| + Sov(|m.address|) else 0) + SizeLots(m.lots)
  }

  lemma SizeLotIsExact(l: CoinLot)
    requires WireLot(l)
    ensures SizeLot(l) == |EncodeLot(l)|
  {
    SovIsVarintLength(|l.amount|);
    SovIsVarintLength(ToU64(l.acquiredAt));
  }

  lemma {:induction false} SizeLotsIsExact(lots: seq<CoinLot>)
    requires WireLots(lots)
    ensures SizeLots(lots) == |EncodeLots(lots)|
  {
    if lots != [] {
      SizeLotIsExact(lots[0]);
      SovIsVarintLength(SizeLot(lots[0]));
      SizeLotsIsExact(lots[1..]);
    }
  }

  /** Size() is the length of the encoding. */
  lemma SizeAgeIsExact(m: CoinAge)
    requires WireAge(m)
    ensures SizeAge(m) == |EncodeAge(m)|
  {
    SovIsVarintLength(|m.address|);
    SizeLotsIsExact(m.lots);
  }

  // ----- the encoder: buffers filled from the end
  //
  // Each method writes its part just below `end` and returns where it starts. What lies below that index
  // is still to be written, so each contract speaks of the finished upper end of the buffer.

  method EncodeVarintCoin(a: array<Byte>, end: nat, value: nat) returns (base: nat)
    requires Sov(value) <= end <= a.Length
    modifies a
    ensures base == end - Sov(value) == end - |Varint(value)|
    ensures a[base..] == Varint(value) + old(a[end..])
  {
    SovIsVarintLength(value);
    base := end - Sov(value);
    var offset, v := base, value;
    while v >= 128
      invariant base <= offset && offset + |Varint(v)| == end
      invariant a[base..offset] + Varint(v) == Varint(value)
      invariant a[end..] == old(a[end..])
      decreases v
    {
      WriteNext(a, base, offset, end, v % 128 + 128);
      Seqs.AppendAssociates(a[base..offset], [v % 128 + 128], Varint(v / 128));
      v := v / 128;
      offset := offset + 1;
    }
    WriteNext(a, base, offset, end, v);
    assert a[base..] == a[base..end] + a[end..];
  }

  /** dAtA[offset] = b, seen from the part written so far. */
  method WriteNext(a: array<Byte>, base: nat, offset: nat, end: nat, b: Byte)
    requires base <= offset < end <= a.Length
    modifies a
    ensures a[base..offset] == old(a[base..offset])
    ensures a[base..offset + 1] == old(a[base..offset]) + [b]
    ensures a[end..] == old(a[end..])
  {
    a[offset] := b;
  }

  /** copy(dAtA[end-len(s):], s) */
  method CopyInto(a: array<Byte>, end: nat, s: Bytes) returns (i: nat)
    requires |s| <= end <= a.Length
    modifies a
    ensures i == end - |s| && a[i..] == s + old(a[end..])
  {
    i := end - |s|;
    for k := 0 to |s|
      invariant a[i..i + k] == s[..k] && a[end..] == old(a[end..])
    {
      WriteNext(a, i, i + k, end, s[k]);
      assert s[..k + 1] == s[..k] + [s[k]];
    }
    assert a[i..] == a[i..end] + a[end..];
  }

  method PutTag(a: array<Byte>, end: nat, tag: Byte) returns (i: nat)
    requires 0 < end <= a.Length
    modifies a
    ensures i == end - 1 && a[i..] == [tag] + old(a[end..])
  {
    i := end - 1;
    a[i] := tag;
  }

  /** Length and tag in front of a body of `n` bytes. */
  method PutHeader(a: array<Byte>, end: nat, tag: Byte, n: nat) returns (i: nat)
    requires 1 + |Varint(n)| <= end <= a.Length
    modifies a
    ensures i == end - 1 - |Varint(n)|
    ensures a[i..] == [tag] + Varint(n) + old(a[end..])
  {
    ghost var tail := a[end..];
    SovIsVarintLength(n);
    i := EncodeVarintCoin(a, end, n);
    i := PutTag(a, i, tag);
    Seqs.AppendAssociates([tag], Varint(n), tail);
  }

  method PutLenField(a: array<Byte>, end: nat, tag: Byte, s: Bytes) returns (i: nat)
    requires |LenField(tag, s)| <= end <= a.Length
    modifies a
    ensures i == end - |LenField(tag, s)|
    ensures a[i..] == LenField(tag, s) + old(a[end..])
  {
    ghost var tail := a[end..];
    i := end;
    if |s| > 0 {
      i := CopyInto(a, i, s);
      i := PutHeader(a, i, tag, |s|);
      Seqs.AppendAssociates([tag] + Varint(|s|), s, tail);
    } else {
      Seqs.NothingAdded(tail);
    }
  }

  method PutIntField(a: array<Byte>, end: nat, tag: Byte, x: int) returns (i: nat)
    requires IsInt64(x) && |IntField(tag, x)| <= end <= a.Length
    modifies a
    ensures i == end - |IntField(tag, x)|
    ensures a[i..] == IntField(tag, x) + old(a[end..])
  {
    i := end;
    if x != 0 {
      i := PutHeader(a, i, tag, ToU64(x));
    } else {
      Seqs.NothingAdded(a[end..]);
    }
  }

  /** CoinLot.MarshalToSizedBuffer into the first `end` bytes; returns the bytes written. */
  method MarshalLot(a: array<Byte>, end: nat, l: CoinLot) returns (n: nat)
    requires WireLot(l) && |EncodeLot(l)| <= end <= a.Length
    modifies a
    ensures n == |EncodeLot(l)|
    ensures a[end - n..] == EncodeLot(l) + old(a[end..])
  {
    ghost var tail := a[end..];
    var i := PutIntField(a, end, 0x10, l.acquiredAt);
    i := PutLenField(a, i, 0x0a, l.amount);
    Seqs.AppendAssociates(LenField(0x0a, l.amount), IntField(0x10, l.acquiredAt), tail);
    n := end - i;
  }

  lemma EncodeLotsFrom(lots: seq<CoinLot>, k: nat)
    requires WireLots(lots) && k < |lots|
    ensures EncodeLots(lots[k..]) == LotField(lots[k]) + EncodeLots(lots[k + 1..])
  {
    assert lots[k..][1..] == lots[k + 1..];
  }

  lemma {:induction false} SuffixIsShorter(lots: seq<CoinLot>, k: nat)
    requires WireLots(lots) && k <= |lots|
    ensures |EncodeLots(lots[k..])| <= |EncodeLots(lots)|
  {
    if k == 0 {
      assert lots[0..] == lots;
    } else {
      SuffixIsShorter(lots, k - 1);
      EncodeLotsFrom(lots, k - 1);
    }
  }

  lemma LotFieldParts(l: CoinLot, tail: Bytes)
    requires WireLot(l)
    ensures |LotField(l)| == 1 + |Varint(|EncodeLot(l)|)| + |EncodeLot(l)|
    ensures LotField(l) + tail == [0x2a] + Varint(|EncodeLot(l)|) + (EncodeLot(l) + tail)
  {
    Seqs.AppendAssociates([0x2a] + Varint(|EncodeLot(l)|), EncodeLot(l), tail);
  }

  /** One lot of the queue: body, then length, then tag. */
  method PutLot(a: array<Byte>, end: nat, l: CoinLot) returns (i: nat)
    requires WireLot(l) && |LotField(l)| <= end <= a.Length
    modifies a
    ensures i == end - |LotField(l)|
    ensures a[i..] == LotField(l) + old(a[end..])
  {
    LotFieldParts(l, a[end..]);
    var size := MarshalLot(a, end, l);
    i := PutHeader(a, end - size, 0x2a, size);
  }

  /** The lots, last one first, into the end of the buffer. */
  method PutLots(a: array<Byte>, lots: seq<CoinLot>) returns (i: nat)
    requires WireLots(lots) && |EncodeLots(lots)| <= a.Length
    modifies a
    ensures i == a.Length - |EncodeLots(lots)|
    ensures a[i..] == EncodeLots(lots)
  {
    i := a.Length;
    var k := |lots|;
    while k > 0
      invariant 0 <= k <= |lots|
      invariant i == a.Length - |EncodeLots(lots[k..])|
      invariant a[i..] == EncodeLots(lots[k..])
    {
      k := k - 1;
      EncodeLotsFrom(lots, k);
      SuffixIsShorter(lots, k);
      i := PutLot(a, i, lots[k]);
    }
    assert lots[0..] == lots;
  }

  /** CoinAge.MarshalToSizedBuffer over the whole buffer; returns the bytes written. */
  method MarshalAge(a: array<Byte>, m: CoinAge) returns (n: nat)
    requires WireAge(m) && a.Length == |EncodeAge(m)|
    modifies a
    ensures n == a.Length && a[..] == EncodeAge(m)
  {
    var i := PutLots(a, m.lots);
    i := PutLenField(a, i, 0x0a, m.address);
    assert a[0..] == a[..];
    n := a.Length - i;
  }

  /** CoinAge.Marshal: a fresh buffer of Size() bytes, filled completely. */
  method Marshal(m: CoinAge) returns (data: Bytes)
    requires WireAge(m)
    ensures data == EncodeAge(m) && |data| == SizeAge(m)
  {
    SizeAgeIsExact(m);
    var a := new Byte[SizeAge(m)];
    var n := MarshalAge(a, m);
    data := a[..n];
  }

  // ----- what the decoder computes, on the bytes still to be read

  /** All decoding errors are one: the keeper's MustUnmarshal panics on any of them. */
  datatype Result<+T> = Ok(value: T) | Malformed

  /** A number and the bytes after it. */
  datatype Read = Bad | Got(value: nat, rest: Bytes)

  /** The varint loop after `j` bytes: seven bits a byte, lowest first; a shift of 7 j >= 64 is an error. */
  function ReadFrom(b: Bytes, j: nat): (r: Read)
    ensures r.Got? ==> |r.rest| < |b| && r.rest == b[|b| - |r.rest|..]
    decreases |b|
  {
    if j >= 10 || b == [] then Bad
    else if b[0] < 128 then Got(b[0], b[1..])
    else
      match ReadFrom(b[1..], j + 1)
      case Bad => Bad
      case Got(v, rest) => Got(b[0] - 128 + 128 * v, rest)
  }

  /** The varint, cut to 64 bits as the shifts of the source cut it. */
  function ReadVarint(b: Bytes): (r: Read)
    ensures r.Got? ==> |r.rest| < |b| && r.value < TWO64 && r.rest == b[|b| - |r.rest|..]
  {
    match ReadFrom(b, 0)
    case Bad => Bad
    case Got(v, rest) => Got(v % TWO64, rest)
  }

  lemma {:induction false} VarintLength(v: nat, k: nat)
    requires k > 0 && v < Pow128(k)
    ensures |Varint(v)| <= k
  {
    if v >= 128 { VarintLength(v / 128, k - 1); }
  }

  function Pow128(j: nat): (p: nat)
    ensures p > 0
  {
    if j == 0 then 1 else 128 * Pow128(j - 1)
  }

  lemma TenBytesHold64Bits()
    ensures Pow128(10) >= TWO64
  {
    assert Pow128(10) == 128 * (128 * Pow128(8)) && Pow128(8) == 128 * (128 * Pow128(6));
    assert Pow128(6) == 128 * (128 * Pow128(4)) && Pow128(4) == 128 * (128 * Pow128(2)) && Pow128(2) == 128 * 128;
  }

  lemma {:induction false} ReadFromReads(v: nat, rest: Bytes, j: nat)
    requires j + |Varint(v)| <= 10
    ensures ReadFrom(Varint(v) + rest, j) == Got(v, rest)
  {
    if v < 128 {
      Seqs.TailOfCons(v, rest);
    } else {
      var x, tail := v % 128 + 128, Varint(v / 128);
      Seqs.AppendAssociates([x], tail, rest);
      Seqs.TailOfCons(x, tail + rest);
      ReadFromReads(v / 128, rest, j + 1);
    }
  }

  /** Any uint64 written as a varint reads back as itself, whatever follows it. */
  lemma ReadVarintReads(v: nat, rest: Bytes)
    requires v < TWO64
    ensures ReadVarint(Varint(v) + rest) == Got(v, rest)
  {
    VarintIsShort(v);
    ReadFromReads(v, rest, 0);
    FitsIn64(Varint(v) + rest, v, rest);
  }

  lemma FitsIn64(b: Bytes, v: nat, rest: Bytes)
    requires v < TWO64 && ReadFrom(b, 0) == Got(v, rest)
    ensures ReadVarint(b) == Got(v, rest)
  {
    assert v % TWO64 == v;
  }

  lemma VarintIsShort(v: nat)
    requires v < TWO64
    ensures |Varint(v)| <= 10
  {
    TenBytesHold64Bits();
    VarintLength(v, 10);
  }

  /** A length varint and the bytes it announces; a length of 2^63 or more is negative as an int. */
  datatype Cut = NoCut | Cut(body: Bytes, rest: Bytes)

  function TakeN(b: Bytes, n: nat): (c: Cut)
    ensures c.Cut? ==> c.body + c.rest == b && |c.body| == n
  {
    if n >= TWO63 || n > |b| then NoCut else Cut(b[..n], b[n..])
  }

  function TakeLen(b: Bytes): (c: Cut)
    ensures c.Cut? ==> |c.rest| < |b|
  {
    match ReadVarint(b)
    case Bad => NoCut
    case Got(n, rest) => TakeN(rest, n)
  }

  lemma TakeLenTakes(s: Bytes, rest: Bytes)
    requires |s| < TWO63
    ensures TakeLen(Varint(|s|) + (s + rest)) == Cut(s, rest)
  {
    ReadVarintReads(|s|, s + rest);
    CutAt(s, rest);
  }

  lemma CutAt(s: Bytes, rest: Bytes)
    ensures (s + rest)[..|s|] == s && (s + rest)[|s|..] == rest
  {}

  /** int32(wire >> 3) */
  function FieldNum(wire: nat): int {
    var n := wire / 8 % TWO32;
    if n < 0x8000_0000 then n else n - TWO32
  }

  function WireType(wire: nat): nat { wire % 8 }

  /** What follows the value of a tag of wire type `t`, group types excepted. */
  function SkipValue(b: Bytes, t: nat): (c: Cut)
    ensures c.Cut? ==> |c.rest| <= |b|
  {
    if t == 0 then (match ReadVarint(b) case Bad => NoCut case Got(_, rest) => Cut([], rest))
    else if t == 1 then TakeN(b, 8)
    else if t == 2 then TakeLen(b)
    else if t == 5 then TakeN(b, 4)
    else NoCut
  }

  /** skipCoin inside `depth` open groups, together with its callers' check that it stayed in the buffer. */
  function Skip(b: Bytes, depth: nat): (c: Cut)
    ensures c.Cut? ==> |c.rest| < |b|
    decreases |b|
  {
    match ReadVarint(b)
    case Bad => NoCut
    case Got(wire, rest) =>
      var t := WireType(wire);
      if t == 3 then Skip(rest, depth + 1)
      else if t == 4 then
        (if depth == 0 then NoCut else if depth == 1 then Cut([], rest) else Skip(rest, depth - 1))
      else
        match SkipValue(rest, t)
        case NoCut => NoCut
        case Cut(_, after) => if depth == 0 then Cut([], after) else Skip(after, depth)
  }

  const ZERO_LOT := CoinLot([], 0)
  const ZERO_AGE := CoinAge([], [])

  /** The checks on a tag before the field switch. */
  function ReadTag(b: Bytes): (r: Read)
    ensures r.Got? ==> |r.rest| < |b|
  {
    match ReadVarint(b)
    case Bad => Bad
    case Got(wire, rest) => if WireType(wire) == 4 || FieldNum(wire) <= 0 then Bad else Got(wire, rest)
  }

  /** CoinLot.Unmarshal from a point where `m` has been read and `b` is left. */
  function LotFrom(b: Bytes, m: CoinLot): Result<CoinLot>
    decreases |b|
  {
    if b == [] then Ok(m)
    else
      match ReadTag(b)
      case Bad => Malformed
      case Got(wire, rest) =>
        if FieldNum(wire) == 1 then
          if WireType(wire) != 2 then Malformed
          else (match TakeLen(rest) case NoCut => Malformed case Cut(s, after) => LotFrom(after, m.(amount := s)))
        else if FieldNum(wire) == 2 then
          if WireType(wire) != 0 then Malformed
          else (match ReadVarint(rest) case Bad => Malformed case Got(u, after) => LotFrom(after, m.(acquiredAt := ToI64(u))))
        else (match Skip(b, 0) case NoCut => Malformed case Cut(_, after) => LotFrom(after, m))
  }

  function DecodeLot(b: Bytes): Result<CoinLot> { LotFrom(b, ZERO_LOT) }

  /** CoinAge.Unmarshal from a point where `m` has been read and `b` is left. */
  function AgeFrom(b: Bytes, m: CoinAge): Result<CoinAge>
    decreases |b|, 0
  {
    if b == [] then Ok(m)
    else
      match ReadTag(b)
      case Bad => Malformed
      case Got(wire, rest) =>
        if FieldNum(wire) == 1 then
          if WireType(wire) != 2 then Malformed
          else (match TakeLen(rest) case NoCut => Malformed case Cut(s, after) => AgeFrom(after, m.(address := s)))
        else if FieldNum(wire) == 5 then
          if WireType(wire) != 2 then Malformed
          else
            (match TakeLen(rest)
             case NoCut => Malformed
             case Cut(s, after) => AgeWithLot(after, m, DecodeLot(s)))
        else (match Skip(b, 0) case NoCut => Malformed case Cut(_, after) => AgeFrom(after, m))
  }

  /** The rest of the message after a nested lot, if that lot decoded. */
  function AgeWithLot(b: Bytes, m: CoinAge, lot: Result<CoinLot>): Result<CoinAge>
    decreases |b|, 1
  {
    match lot
    case Malformed => Malformed
    case Ok(l) => AgeFrom(b, m.(lots := m.lots + [l]))
  }

  function DecodeAge(b: Bytes): Result<CoinAge> { AgeFrom(b, ZERO_AGE) }

  // ----- decoding what was encoded

  lemma ReadTagByte(tag: Byte, rest: Bytes)
    requires 8 <= tag < 128 && tag % 8 != 4
    ensures ReadTag([tag] + rest) == Got(tag, rest)
  {
    ReadVarintReads(tag, rest);
    assert Varint(tag) == [tag];
  }

  lemma Regroup(tag: Byte, v: Bytes, s: Bytes, rest: Bytes)
    ensures ([tag] + v + s) + rest == [tag] + (v + (s + rest))
  {
    Seqs.AppendAssociates([tag] + v, s, rest);
    Seqs.AppendAssociates([tag], v, s + rest);
  }

  lemma LotFromAmount(b: Bytes, b': Bytes, s: Bytes, rest: Bytes, m: CoinLot)
    requires b != [] && ReadTag(b) == Got(0x0a, b') && TakeLen(b') == Cut(s, rest)
    ensures LotFrom(b, m) == LotFrom(rest, m.(amount := s))
  {
    assert FieldNum(0x0a) == 1 && WireType(0x0a) == 2;
  }

  lemma AmountStep(s: Bytes, rest: Bytes, m: CoinLot)
    requires |s| < TWO63
    ensures LotFrom([0x0a] + Varint(|s|) + s + rest, m) == LotFrom(rest, m.(amount := s))
  {
    var b' := Varint(|s|) + (s + rest);
    ReadTagByte(0x0a, b');
    TakeLenTakes(s, rest);
    LotFromAmount([0x0a] + b', b', s, rest, m);
    Regroup(0x0a, Varint(|s|), s, rest);
  }

  lemma LotFromTime(b: Bytes, b': Bytes, u: nat, rest: Bytes, m: CoinLot)
    requires b != [] && ReadTag(b) == Got(0x10, b') && ReadVarint(b') == Got(u, rest)
    ensures LotFrom(b, m) == LotFrom(rest, m.(acquiredAt := ToI64(u)))
  {
    assert FieldNum(0x10) == 2 && WireType(0x10) == 0;
  }

  lemma UnsignedStep(u: nat, rest: Bytes, m: CoinLot)
    requires u < TWO64
    ensures LotFrom([0x10] + Varint(u) + rest, m) == LotFrom(rest, m.(acquiredAt := ToI64(u)))
  {
    var b' := Varint(u) + rest;
    ReadTagByte(0x10, b');
    ReadVarintReads(u, rest);
    LotFromTime([0x10] + b', b', u, rest, m);
    Seqs.AppendAssociates([0x10], Varint(u), rest);
  }

  lemma TimeStep(x: int, rest: Bytes, m: CoinLot)
    requires IsInt64(x)
    ensures LotFrom([0x10] + Varint(ToU64(x)) + rest, m) == LotFrom(rest, m.(acquiredAt := x))
  {
    UnsignedStep(ToU64(x), rest, m);
    assert ToI64(ToU64(x)) == x;
  }

  lemma LotTail(l: CoinLot)
    requires WireLot(l)
    ensures LotFrom(IntField(0x10, l.acquiredAt), l.(acquiredAt := 0)) == Ok(l)
  {
    if l.acquiredAt != 0 {
      TimeStep(l.acquiredAt, [], l.(acquiredAt := 0));
      Seqs.NothingAdded(IntField(0x10, l.acquiredAt));
    }
  }

  lemma DecodeEncodeLot(l: CoinLot)
    requires WireLot(l)
    ensures DecodeLot(EncodeLot(l)) == Ok(l)
  {
    var q := IntField(0x10, l.acquiredAt);
    if l.amount == [] {
      Seqs.NothingAdded(q);
    } else {
      AmountStep(l.amount, q, ZERO_LOT);
    }
    LotTail(l);
  }

  lemma AgeFromLot(b: Bytes, b': Bytes, s: Bytes, rest: Bytes, m: CoinAge)
    requires b != [] && ReadTag(b) == Got(0x2a, b') && TakeLen(b') == Cut(s, rest)
    ensures AgeFrom(b, m) == AgeWithLot(rest, m, DecodeLot(s))
  {
    assert FieldNum(0x2a) == 5 && WireType(0x2a) == 2;
  }

  lemma QueueStep(l: CoinLot, rest: Bytes, m: CoinAge)
    requires WireLot(l) && |EncodeLot(l)| < TWO63
    ensures AgeFrom(LotField(l) + rest, m) == AgeFrom(rest, m.(lots := m.lots + [l]))
  {
    var s := EncodeLot(l);
    var b' := Varint(|s|) + (s + rest);
    ReadTagByte(0x2a, b');
    TakeLenTakes(s, rest);
    DecodeEncodeLot(l);
    AgeFromLot([0x2a] + b', b', s, rest, m);
    Regroup(0x2a, Varint(|s|), s, rest);
  }

  lemma AgeFromAddress(b: Bytes, b': Bytes, s: Bytes, rest: Bytes, m: CoinAge)
    requires b != [] && ReadTag(b) == Got(0x0a, b') && TakeLen(b') == Cut(s, rest)
    ensures AgeFrom(b, m) == AgeFrom(rest, m.(address := s))
  {
    assert FieldNum(0x0a) == 1 && WireType(0x0a) == 2;
  }

  lemma AddressStep(s: Bytes, rest: Bytes, m: CoinAge)
    requires |s| < TWO63
    ensures AgeFrom([0x0a] + Varint(|s|) + s + rest, m) == AgeFrom(rest, m.(address := s))
  {
    var b' := Varint(|s|) + (s + rest);
    ReadTagByte(0x0a, b');
    TakeLenTakes(s, rest);
    AgeFromAddress([0x0a] + b', b', s, rest, m);
    Regroup(0x0a, Varint(|s|), s, rest);
  }

  lemma OneMoreLot(m: CoinAge, l: CoinLot, rest: seq<CoinLot>)
    ensures m.(lots := m.lots + [l]).(lots := (m.lots + [l]) + rest) == m.(lots := m.lots + ([l] + rest))
  {
    Seqs.AppendAssociates(m.lots, [l], rest);
  }

  lemma {:induction false} QueueSteps(lots: seq<CoinLot>, m: CoinAge)
    requires WireLots(lots) && |EncodeLots(lots)| < TWO63
    ensures AgeFrom(EncodeLots(lots), m) == Ok(m.(lots := m.lots + lots))
    decreases |lots|
  {
    if lots == [] {
      Seqs.NothingAdded(m.lots);
    } else {
      var l, rest := lots[0], lots[1..];
      QueueSteps(rest, m.(lots := m.lots + [l]));
      QueueStep(l, EncodeLots(rest), m);
      OneMoreLot(m, l, rest);
      assert lots == [l] + rest;
    }
  }

  /** Every queue that fits a Go slice survives the wire: all lengths, negative timestamps, empty amounts,
      empty queues. */
  lemma DecodeEncodeAge(m: CoinAge)
    requires WireAge(m) && |EncodeAge(m)| < TWO63
    ensures DecodeAge(EncodeAge(m)) == Ok(m)
  {
    var q := EncodeLots(m.lots);
    if m.address == [] {
      Seqs.NothingAdded(q);
    } else {
      AddressStep(m.address, q, ZERO_AGE);
    }
    QueueSteps(m.lots, CoinAge(m.address, []));
    Seqs.NothingAdded(m.lots);
  }

  /** Hence no two queues share an encoding. */
  lemma EncodeAgeIsInjective(m: CoinAge, n: CoinAge)
    requires WireAge(m) && WireAge(n) && |EncodeAge(m)| < TWO63
    requires EncodeAge(m) == EncodeAge(n)
    ensures m == n
  {
    DecodeEncodeAge(m);
    DecodeEncodeAge(n);
  }

  // ----- the decoder's loops

  /** Where a slice and its position in the whole buffer meet. */
  lemma ShiftIn(full: nat, digit: nat, v: nat, j: nat)
    ensures full + (digit + 128 * v) * Pow128(j) == (full + digit * Pow128(j)) + v * Pow128(j + 1)
  {
    var p := Pow128(j);
    assert (digit + 128 * v) * p == digit * p + (128 * v) * p;
    assert (128 * v) * p == v * (128 * p);
  }

  /** The value read so far stands in front of what the remaining bytes will give. */
  predicate Ahead(whole: Read, full: nat, j: nat, rest: Read) {
    match rest
    case Bad => whole == Bad
    case Got(v, after) => whole == Got(full + v * Pow128(j), after)
  }

  /** uint64(b & 0x7F) << shift, for a shift of 7 j. */
  function Shifted(b: Byte, j: nat): nat { b % 128 * Pow128(j) }

  lemma AheadStart(whole: Read)
    ensures Ahead(whole, 0, 0, whole)
  {}

  lemma AheadStep(whole: Read, full: nat, j: nat, b: Bytes)
    requires b != [] && b[0] >= 128 && j < 10 && Ahead(whole, full, j, ReadFrom(b, j))
    ensures Ahead(whole, full + Shifted(b[0], j), j + 1, ReadFrom(b[1..], j + 1))
  {
    assert b[0] % 128 == b[0] - 128;
    match ReadFrom(b[1..], j + 1)
    case Bad =>
    case Got(v, _) => ShiftIn(full, b[0] - 128, v, j);
  }

  lemma AheadLast(whole: Read, full: nat, j: nat, b: Bytes)
    requires b != [] && b[0] < 128 && j < 10 && Ahead(whole, full, j, ReadFrom(b, j))
    ensures whole == Got(full + Shifted(b[0], j), b[1..])
  {
    assert b[0] % 128 == b[0];
  }

  lemma SuffixStep(d: Bytes, i: nat)
    requires i < |d|
    ensures d[i..] != [] && d[i..][0] == d[i] && d[i..][1..] == d[i + 1..]
  {}

  lemma NextDigit(d: Bytes, start: nat, i: nat, j: nat, acc: nat)
    requires start <= i < |d| && j < 10 && d[i] >= 128
    requires Ahead(ReadFrom(d[start..], 0), acc, j, ReadFrom(d[i..], j))
    ensures Ahead(ReadFrom(d[start..], 0), acc + Shifted(d[i], j), j + 1, ReadFrom(d[i + 1..], j + 1))
  {
    SuffixStep(d, i);
    AheadStep(ReadFrom(d[start..], 0), acc, j, d[i..]);
  }

  lemma LastDigit(d: Bytes, start: nat, i: nat, j: nat, acc: nat)
    requires start <= i < |d| && j < 10 && d[i] < 128
    requires Ahead(ReadFrom(d[start..], 0), acc, j, ReadFrom(d[i..], j))
    ensures ReadFrom(d[start..], 0) == Got(acc + Shifted(d[i], j), d[i + 1..])
  {
    SuffixStep(d, i);
    AheadLast(ReadFrom(d[start..], 0), acc, j, d[i..]);
  }

  lemma NoDigit(d: Bytes, start: nat, i: nat, j: nat, acc: nat)
    requires start <= i <= |d| && (j >= 10 || i == |d|)
    requires Ahead(ReadFrom(d[start..], 0), acc, j, ReadFrom(d[i..], j))
    ensures ReadFrom(d[start..], 0) == Bad
  {}

  /** The varint loop of the source, starting at `start`. Each byte lands above the bits already read, so
      the source's OR is an addition. */
  method DecodeDigits(d: Bytes, start: nat) returns (r: Read, next: nat)
    requires start <= |d|
    ensures r == ReadFrom(d[start..], 0)
    ensures r.Got? ==> start < next <= |d| && d[next..] == r.rest
  {
    var i: nat, j: nat, acc: nat := start, 0, 0;
    AheadStart(ReadFrom(d[start..], 0));
    while j < 10 && i < |d|
      invariant start <= i <= |d| && j <= 10
      invariant Ahead(ReadFrom(d[start..], 0), acc, j, ReadFrom(d[i..], j))
      decreases 10 - j
    {
      if d[i] < 128 {
        LastDigit(d, start, i, j, acc);
        return Got(acc + Shifted(d[i], j), d[i + 1..]), i + 1;
      }
      NextDigit(d, start, i, j, acc);
      acc := acc + Shifted(d[i], j);
      i, j := i + 1, j + 1;
    }
    NoDigit(d, start, i, j, acc);
    return Bad, 0;
  }

  /** The decoded varint; what a uint64 cannot hold is dropped. */
  method DecodeVarint(d: Bytes, start: nat) returns (ok: bool, value: nat, next: nat)
    requires start <= |d|
    ensures match ReadVarint(d[start..])
            case Bad => !ok
            case Got(v, rest) => ok && value == v && start < next <= |d| && d[next..] == rest
  {
    var r;
    r, next := DecodeDigits(d, start);
    if r.Bad? {
      return false, 0, 0;
    }
    return true, r.value % TWO64, next;
  }

  /** A length varint at `start` and the checks on the span it announces. */
  method DecodeSpan(d: Bytes, start: nat) returns (ok: bool, lo: nat, hi: nat)
    requires start <= |d| < TWO63
    ensures match TakeLen(d[start..])
            case NoCut => !ok
            case Cut(s, rest) => ok && start < lo <= hi <= |d| && d[lo..hi] == s && d[hi..] == rest
  {
    var n;
    ok, n, lo := DecodeVarint(d, start);
    if !ok {
      return false, 0, 0;
    }
    if n >= TWO63 {
      return false, 0, 0;
    }
    hi := lo + n;
    if hi >= TWO63 {
      return false, 0, 0;
    }
    if hi > |d| {
      return false, 0, 0;
    }
    SliceAt(d, lo, n);
  }

  lemma SliceAt(d: Bytes, lo: nat, n: nat)
    requires lo + n <= |d|
    ensures d[lo..][..n] == d[lo..lo + n] && d[lo..][n..] == d[lo + n..]
  {}

  lemma SkipOpens(b: Bytes, depth: nat, wire: nat, rest: Bytes)
    requires ReadVarint(b) == Got(wire, rest) && WireType(wire) == 3
    ensures Skip(b, depth) == Skip(rest, depth + 1)
  {}

  lemma SkipCloses(b: Bytes, depth: nat, wire: nat, rest: Bytes)
    requires ReadVarint(b) == Got(wire, rest) && WireType(wire) == 4
    ensures Skip(b, depth) == if depth == 0 then NoCut else if depth == 1 then Cut([], rest) else Skip(rest, depth - 1)
  {}

  lemma SkipPasses(b: Bytes, depth: nat, wire: nat, rest: Bytes, c: Cut)
    requires ReadVarint(b) == Got(wire, rest) && WireType(wire) != 3 && WireType(wire) != 4
    requires SkipValue(rest, WireType(wire)) == c
    ensures Skip(b, depth) == if c.NoCut? then NoCut else if depth == 0 then Cut([], c.rest) else Skip(c.rest, depth)
  {}

  /** Where skipCoin stands after one tag: failed, finished after `n` bytes, or inside `depth` groups. */
  datatype Skipping = Failed | Finished(n: nat) | Inside(i: nat, depth: nat)

  /** What `s` claims about the field at index `i`. */
  predicate Tells(d: Bytes, i: nat, depth: nat, s: Skipping)
    requires i <= |d|
  {
    match s
    case Failed => Skip(d[i..], depth) == NoCut
    case Finished(n) => i < n && Skip(d[i..], depth) == if n > |d| then NoCut else Cut([], d[n..])
    case Inside(n, k) => i < n && Skip(d[i..], depth) == if n > |d| then NoCut else Skip(d[n..], k)
  }

  /** One round of skipCoin's loop. */
  method SkipOnce(d: Bytes, i: nat, depth: nat) returns (s: Skipping)
    requires i < |d| < TWO63
    ensures Tells(d, i, depth, s)
  {
    var good, wire, next := DecodeVarint(d, i);
    if !good {
      return Failed;
    }
    if WireType(wire) == 3 {
      SkipOpens(d[i..], depth, wire, d[next..]);
      s := Inside(next, depth + 1);
    } else if WireType(wire) == 4 {
      s := SkipEnd(d, i, depth, wire, next);
    } else {
      s := SkipTyped(d, i, depth, wire, next);
    }
  }

  method SkipEnd(d: Bytes, i: nat, depth: nat, wire: nat, next: nat) returns (s: Skipping)
    requires i < next <= |d| && ReadVarint(d[i..]) == Got(wire, d[next..]) && WireType(wire) == 4
    ensures Tells(d, i, depth, s)
  {
    SkipCloses(d[i..], depth, wire, d[next..]);
    s := if depth == 0 then Failed else if depth == 1 then Finished(next) else Inside(next, depth - 1);
  }

  method SkipTyped(d: Bytes, i: nat, depth: nat, wire: nat, next: nat) returns (s: Skipping)
    requires i < next <= |d| < TWO63 && ReadVarint(d[i..]) == Got(wire, d[next..])
    requires WireType(wire) != 3 && WireType(wire) != 4
    ensures Tells(d, i, depth, s)
  {
    SkipPasses(d[i..], depth, wire, d[next..], SkipValue(d[next..], WireType(wire)));
    var good, end := SkipPlain(d, next, WireType(wire));
    if !good || end >= TWO63 {
      return Failed;
    }
    s := if depth == 0 then Finished(end) else Inside(end, depth);
  }

  /** skipCoin: the length of the field that starts the buffer, which may reach past its end. */
  method SkipCoin(d: Bytes) returns (ok: bool, n: nat)
    requires |d| < TWO63
    ensures match Skip(d, 0)
            case NoCut => !ok || n > |d|
            case Cut(_, rest) => ok && 0 < n <= |d| && d[n..] == rest
  {
    var i, depth := 0, 0;
    assert d[0..] == d;
    while i < |d|
      invariant Skip(d, 0) == if i > |d| then NoCut else Skip(d[i..], depth)
      decreases |d| - i
    {
      var s := SkipOnce(d, i, depth);
      match s {
        case Failed => return false, 0;
        case Finished(k) => return true, k;
        case Inside(k, open) => i, depth := k, open;
      }
    }
    return false, 0;
  }

  /** The value cases of skipCoin's switch. */
  method SkipPlain(d: Bytes, start: nat, t: nat) returns (ok: bool, next: nat)
    requires start <= |d| < TWO63
    ensures ok ==> start <= next
    ensures match SkipValue(d[start..], t)
            case NoCut => !ok || next > |d|
            case Cut(_, rest) => ok && start <= next <= |d| && d[next..] == rest
  {
    if t == 0 {
      var value;
      ok, value, next := DecodeVarint(d, start);
    } else if t == 1 {
      ok, next := true, start + 8;
      if next <= |d| { assert d[start..][8..] == d[next..]; }
    } else if t == 2 {
      var n, lo;
      ok, n, lo := DecodeVarint(d, start);
      if !ok || n >= TWO63 {
        return false, 0;
      }
      next := lo + n;
      if next <= |d| { assert d[lo..][n..] == d[next..]; }
    } else if t == 5 {
      ok, next := true, start + 4;
      if next <= |d| { assert d[start..][4..] == d[next..]; }
    } else {
      ok, next := false, 0;
    }
  }

  method UnmarshalLot(d: Bytes) returns (r: Result<CoinLot>)
    requires |d| < TWO63
    ensures r == DecodeLot(d)
  {
    var i, m := 0, ZERO_LOT;
    assert d[0..] == d;
    while i < |d|
      invariant i <= |d| && LotFrom(d[i..], m) == DecodeLot(d)
      decreases |d| - i
    {
      var ok, wire, next := DecodeVarint(d, i);
      if !ok {
        return Malformed;
      }
      if WireType(wire) == 4 || FieldNum(wire) <= 0 {
        return Malformed;
      }
      if FieldNum(wire) == 1 {
        if WireType(wire) != 2 {
          return Malformed;
        }
        var lo, hi;
        ok, lo, hi := DecodeSpan(d, next);
        if !ok {
          return Malformed;
        }
        i, m := hi, m.(amount := d[lo..hi]);
      } else if FieldNum(wire) == 2 {
        if WireType(wire) != 0 {
          return Malformed;
        }
        var u;
        ok, u, next := DecodeVarint(d, next);
        if !ok {
          return Malformed;
        }
        i, m := next, m.(acquiredAt := ToI64(u));
      } else {
        ok, next := SkipUnknown(d, i);
        if !ok {
          return Malformed;
        }
        i := next;
      }
    }
    assert d[i..] == [];
    r := Ok(m);
  }

  /** The default case of both field switches. */
  method SkipUnknown(d: Bytes, i: nat) returns (ok: bool, next: nat)
    requires i < |d| < TWO63
    ensures match Skip(d[i..], 0)
            case NoCut => !ok
            case Cut(_, rest) => ok && i < next <= |d| && d[next..] == rest
  {
    var n;
    ok, n := SkipCoin(d[i..]);
    if !ok || i + n >= TWO63 || i + n > |d| {
      return false, 0;
    }
    next := i + n;
    assert d[i..][n..] == d[next..];
  }

  method UnmarshalAge(d: Bytes) returns (r: Result<CoinAge>)
    requires |d| < TWO63
    ensures r == DecodeAge(d)
  {
    var i, m := 0, ZERO_AGE;
    assert d[0..] == d;
    while i < |d|
      invariant i <= |d| && AgeFrom(d[i..], m) == DecodeAge(d)
      decreases |d| - i
    {
      var ok, wire, next := DecodeVarint(d, i);
      if !ok {
        return Malformed;
      }
      if WireType(wire) == 4 || FieldNum(wire) <= 0 {
        return Malformed;
      }
      if FieldNum(wire) == 1 {
        if WireType(wire) != 2 {
          return Malformed;
        }
        var lo, hi;
        ok, lo, hi := DecodeSpan(d, next);
        if !ok {
          return Malformed;
        }
        i, m := hi, m.(address := d[lo..hi]);
      } else if FieldNum(wire) == 5 {
        if WireType(wire) != 2 {
          return Malformed;
        }
        var lo, hi;
        ok, lo, hi := DecodeSpan(d, next);
        if !ok {
          return Malformed;
        }
        var lot := UnmarshalLot(d[lo..hi]);
        if lot.Malformed? {
          return Malformed;
        }
        i, m := hi, m.(lots := m.lots + [lot.value]);
      } else {
        ok, next := SkipUnknown(d, i);
        if !ok {
          return Malformed;
        }
        i := next;
      }
    }
    assert d[i..] == [];
    r := Ok(m);
  }
}
