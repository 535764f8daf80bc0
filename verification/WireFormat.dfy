/**
 The lot codec against the wire format itself: varints as base-128 digits, the bytes of a record, and what the decoder
 makes of any bytes, not only of those the encoder writes.
 */
module WireFormat {
  import opened Bytes
  import opened ProtoCodec
  import Seqs

  // ----- varints

  /** The number whose base-128 digits, lowest first, are the low seven bits of the bytes. */
  function Base128(b: Bytes): nat {
    if b == [] then 0 else b[0] % 128 + 128 * Base128(b[1..])
  }

  /** A varint is the shortest list of base-128 digits of its number, lowest first, each but the last with its top bit set. */
  lemma {:induction false} VarintIsBase128(v: nat)
    ensures var b := Varint(v);
            && Base128(b) == v && b[|b|-1] < 128 && (forall i :: 0 <= i < |b| - 1 ==> b[i] >= 128)
            && (|b| > 1 ==> b[|b|-1] != 0)
  {
    if v >= 128 {
      VarintIsBase128(v / 128);
      assert Varint(v)[1..] == Varint(v / 128);
    }
  }

  // ----- the bytes of a record

  lemma SmallVarint(v: Byte)
    requires v < 128
    ensures Varint(v) == [v]
  {}

  lemma ThreeHundred()
    ensures Varint(300) == [0xac, 0x02]
  {
    SmallVarint(2);
  }

  lemma FirstLotBytes()
    ensures EncodeLot(CoinLot([0x35], 300)) == [0x0a, 0x01, 0x35, 0x10, 0xac, 0x02]
  {
    ThreeHundred();
    SmallVarint(1);
  }

  lemma SecondLotBytes()
    ensures EncodeLot(CoinLot([], 7)) == [0x10, 0x07]
  {
    SmallVarint(7);
  }

  lemma TwoLots(l: CoinLot, k: CoinLot)
    requires WireLot(l) && WireLot(k)
    ensures EncodeLots([l, k]) == LotField(l) + LotField(k)
  {
    assert [l, k][1..] == [k] && [k][1..] == [];
    assert EncodeLots([k]) == LotField(k) + [];
  }

  /** Address "a" and two lots, "5" at second 300 and an empty amount at second 7, byte for byte. */
  lemma RecordBytes()
    ensures EncodeAge(CoinAge([0x61], [CoinLot([0x35], 300), CoinLot([], 7)]))
         == [0x0a, 0x01, 0x61] + [0x2a, 0x06, 0x0a, 0x01, 0x35, 0x10, 0xac, 0x02] + [0x2a, 0x02, 0x10, 0x07]
  {
    var l, k := CoinLot([0x35], 300), CoinLot([], 7);
    FirstLotBytes();
    SecondLotBytes();
    TwoLots(l, k);
    SmallVarint(1);
    SmallVarint(2);
    SmallVarint(6);
    assert LotField(l) == [0x2a, 0x06, 0x0a, 0x01, 0x35, 0x10, 0xac, 0x02];
    assert LotField(k) == [0x2a, 0x02, 0x10, 0x07];
    assert LenField(0x0a, [0x61]) == [0x0a, 0x01, 0x61];
  }

  // ----- bytes that follow do not disturb what is read

  lemma {:induction false} ReadFromAppend(b: Bytes, y: Bytes, j: nat)
    requires ReadFrom(b, j).Got?
    ensures ReadFrom(b + y, j) == Got(ReadFrom(b, j).value, ReadFrom(b, j).rest + y)
    decreases |b|
  {
    assert (b + y)[1..] == b[1..] + y;
    if b[0] >= 128 {
      ReadFromAppend(b[1..], y, j + 1);
    }
  }

  lemma ReadVarintAppend(b: Bytes, y: Bytes)
    requires ReadVarint(b).Got?
    ensures ReadVarint(b + y) == Got(ReadVarint(b).value, ReadVarint(b).rest + y)
  {
    ReadFromAppend(b, y, 0);
  }

  lemma TakeNAppend(b: Bytes, n: nat, y: Bytes)
    requires TakeN(b, n).Cut?
    ensures TakeN(b + y, n) == Cut(TakeN(b, n).body, TakeN(b, n).rest + y)
  {
    assert (b + y)[..n] == b[..n] && (b + y)[n..] == b[n..] + y;
  }

  lemma TakeLenAppend(b: Bytes, y: Bytes)
    requires TakeLen(b).Cut?
    ensures TakeLen(b + y) == Cut(TakeLen(b).body, TakeLen(b).rest + y)
  {
    ReadVarintAppend(b, y);
    TakeNAppend(ReadVarint(b).rest, ReadVarint(b).value, y);
  }

  lemma SkipValueAppend(b: Bytes, t: nat, y: Bytes)
    requires SkipValue(b, t).Cut?
    ensures SkipValue(b + y, t) == Cut(SkipValue(b, t).body, SkipValue(b, t).rest + y)
  {
    if t == 0 {
      ReadVarintAppend(b, y);
    } else if t == 2 {
      TakeLenAppend(b, y);
    } else {
      TakeNAppend(b, if t == 1 then 8 else 4, y);
    }
  }

  lemma {:induction false} SkipAppend(b: Bytes, depth: nat, y: Bytes)
    requires Skip(b, depth).Cut?
    ensures Skip(b + y, depth) == Cut([], Skip(b, depth).rest + y) && Skip(b, depth).body == []
    decreases |b|
  {
    ReadVarintAppend(b, y);
    var rest, t := ReadVarint(b).rest, WireType(ReadVarint(b).value);
    if t == 3 {
      SkipAppend(rest, depth + 1, y);
    } else if t == 4 {
      if depth > 1 { SkipAppend(rest, depth - 1, y); }
    } else {
      SkipValueAppend(rest, t, y);
      if depth > 0 { SkipAppend(SkipValue(rest, t).rest, depth, y); }
    }
  }

  lemma ReadTagAppend(b: Bytes, y: Bytes)
    requires ReadTag(b).Got?
    ensures ReadTag(b + y) == Got(ReadTag(b).value, ReadTag(b).rest + y)
  {
    ReadVarintAppend(b, y);
  }

  // ----- one field, whatever the bytes

  /** What the decoder does with the first field of non-empty bytes. */
  datatype Field = BadField | Address(s: Bytes, after: Bytes) | Nested(lot: CoinLot, after: Bytes) | Unknown(after: Bytes)

  function FirstField(b: Bytes): (f: Field)
    requires b != []
    ensures !f.BadField? ==> |f.after| < |b|
  {
    match ReadTag(b)
    case Bad => BadField
    case Got(wire, rest) =>
      if FieldNum(wire) == 1 || FieldNum(wire) == 5 then
        if WireType(wire) != 2 then BadField
        else
          (match TakeLen(rest)
           case NoCut => BadField
           case Cut(s, after) =>
             if FieldNum(wire) == 1 then Address(s, after)
             else (match DecodeLot(s) case Malformed => BadField case Ok(l) => Nested(l, after)))
      else (match Skip(b, 0) case NoCut => BadField case Cut(_, after) => Unknown(after))
  }

  function Applied(m: CoinAge, f: Field): CoinAge
    requires !f.BadField?
  {
    match f
    case Address(s, _) => m.(address := s)
    case Nested(l, _) => m.(lots := m.lots + [l])
    case Unknown(_) => m
  }

  lemma AgeFromField(b: Bytes, m: CoinAge)
    requires b != []
    ensures var f := FirstField(b);
            AgeFrom(b, m) == if f.BadField? then Malformed else AgeFrom(f.after, Applied(m, f))
  {}

  lemma FirstFieldAppend(b: Bytes, y: Bytes)
    requires b != [] && !FirstField(b).BadField?
    ensures FirstField(b + y) == FirstField(b).(after := FirstField(b).after + y)
  {
    ReadTagAppend(b, y);
    var wire, rest := ReadTag(b).value, ReadTag(b).rest;
    if FieldNum(wire) == 1 || FieldNum(wire) == 5 {
      TakeLenAppend(rest, y);
    } else {
      SkipAppend(b, 0, y);
    }
  }

  /** Decoding goes on where it stood: two decodable strings in a row decode one after the other. */
  lemma {:induction false} DecodingGoesOn(x: Bytes, y: Bytes, m: CoinAge)
    requires AgeFrom(x, m).Ok?
    ensures AgeFrom(x + y, m) == AgeFrom(y, AgeFrom(x, m).value)
    decreases |x|
  {
    if x == [] {
      assert x + y == y;
    } else {
      AgeFromField(x, m);
      AgeFromField(x + y, m);
      FirstFieldAppend(x, y);
      var f := FirstField(x);
      DecodingGoesOn(f.after, y, Applied(m, f));
    }
  }

  /** What was read before only stands in front. */
  predicate Extends(n: CoinAge, z: CoinAge, n': CoinAge, m: CoinAge) {
    && z.lots <= n.lots && n'.lots == m.lots + n.lots[|z.lots|..]
    && ((n'.address == n.address) || (n'.address == m.address && n.address == z.address))
  }

  lemma NestedFront(a: seq<CoinLot>, l: CoinLot, n: seq<CoinLot>, k: nat)
    requires k < |n| && n[k] == l
    ensures a + [l] + n[k+1..] == a + n[k..]
  {
    assert n[k..] == [l] + n[k+1..];
  }

  lemma ExtendsOn(n: CoinAge, z: CoinAge, n': CoinAge, m: CoinAge, f: Field)
    requires !f.BadField? && Extends(n, Applied(z, f), n', Applied(m, f))
    ensures Extends(n, z, n', m)
  {
    if f.Nested? {
      var k := |z.lots|;
      NestedFront(m.lots, f.lot, n.lots, k);
    }
  }

  lemma {:induction false} StartDoesNotMatter(y: Bytes, z: CoinAge, m: CoinAge)
    requires AgeFrom(y, z).Ok?
    ensures AgeFrom(y, m).Ok? && Extends(AgeFrom(y, z).value, z, AgeFrom(y, m).value, m)
    decreases |y|
  {
    if y == [] {
      assert m.lots + z.lots[|z.lots|..] == m.lots;
    } else {
      AgeFromField(y, z);
      AgeFromField(y, m);
      var f := FirstField(y);
      StartDoesNotMatter(f.after, Applied(z, f), Applied(m, f));
      ExtendsOn(AgeFrom(y, z).value, z, AgeFrom(y, m).value, m, f);
    }
  }

  /** The merge law of the format: records in a row decode to one whose lots are all of theirs in order, and whose address
      is the last one given. */
  lemma ConcatenationMerges(x: Bytes, y: Bytes)
    requires DecodeAge(x).Ok? && DecodeAge(y).Ok?
    ensures var m, n, r := DecodeAge(x).value, DecodeAge(y).value, DecodeAge(x + y);
            && r.Ok? && r.value.lots == m.lots + n.lots
            && (r.value.address == n.address || (r.value.address == m.address && n.address == []))
  {
    DecodingGoesOn(x, y, ZERO_AGE);
    StartDoesNotMatter(y, ZERO_AGE, DecodeAge(x).value);
  }

  lemma MoreIsLeft(x: Bytes, y: Bytes)
    requires x != [] && y != [] && !FirstField(x).BadField?
    ensures !FirstField(x + y).BadField? && FirstField(x + y).after != []
  {
    FirstFieldAppend(x, y);
  }

  /** A single field that is cut short is refused. */
  lemma TruncatedIsRefused(x: Bytes, y: Bytes, m: CoinAge)
    requires x != [] && y != [] && !FirstField(x + y).BadField? && FirstField(x + y).after == []
    ensures AgeFrom(x, m) == Malformed
  {
    AgeFromField(x, m);
    if !FirstField(x).BadField? {
      MoreIsLeft(x, y);
    }
  }

  // ----- fields the record does not have

  /** The value of a field of wire type `t`: a varint, eight bytes, a length and that many bytes, or four bytes. */
  ghost predicate IsPayload(t: nat, p: Bytes) {
    || (t == 0 && exists v: nat :: v < TWO64 && p == Varint(v))
    || (t == 1 && |p| == 8)
    || (t == 2 && exists s: Bytes :: |s| < TWO63 && p == Varint(|s|) + s)
    || (t == 5 && |p| == 4)
  }

  lemma PayloadIsSkipped(t: nat, p: Bytes, y: Bytes)
    requires IsPayload(t, p)
    ensures SkipValue(p + y, t).Cut? && SkipValue(p + y, t).rest == y
  {
    if t == 0 {
      var v: nat :| v < TWO64 && p == Varint(v);
      ReadVarintReads(v, y);
    } else if t == 2 {
      var s: Bytes :| |s| < TWO63 && p == Varint(|s|) + s;
      Seqs.AppendAssociates(Varint(|s|), s, y);
      TakeLenTakes(s, y);
    } else {
      CutAt(p, y);
    }
  }

  lemma TagParts(n: nat, t: nat)
    requires 0 < n < 0x8000_0000 && t < 8
    ensures FieldNum(8 * n + t) == n && WireType(8 * n + t) == t
  {
    assert (8 * n + t) / 8 == n && (8 * n + t) % 8 == t;
    assert n % TWO32 == n;
  }

  lemma TagReads(n: nat, t: nat, y: Bytes)
    requires 0 < n < 0x8000_0000 && t < 8 && t != 4
    ensures var wire := 8 * n + t; ReadVarint(Varint(wire) + y) == Got(wire, y) == ReadTag(Varint(wire) + y)
  {
    TagParts(n, t);
    ReadVarintReads(8 * n + t, y);
  }

  lemma SkipsOne(b: Bytes, wire: nat, rest: Bytes, y: Bytes)
    requires ReadVarint(b) == Got(wire, rest) && WireType(wire) != 3 && WireType(wire) != 4
    requires SkipValue(rest, WireType(wire)).Cut? && SkipValue(rest, WireType(wire)).rest == y
    ensures Skip(b, 0) == Cut([], y)
  {}

  lemma FirstIsUnknown(b: Bytes, wire: nat, rest: Bytes, y: Bytes)
    requires b != [] && ReadTag(b) == Got(wire, rest) && FieldNum(wire) != 1 && FieldNum(wire) != 5
    requires Skip(b, 0) == Cut([], y)
    ensures FirstField(b) == Unknown(y)
  {}

  lemma UnknownComesFirst(n: nat, t: nat, p: Bytes, y: Bytes)
    requires 0 < n < 0x8000_0000 && n != 1 && n != 5 && IsPayload(t, p)
    ensures FirstField(Varint(8 * n + t) + (p + y)) == Unknown(y)
  {
    var wire := 8 * n + t;
    var b := Varint(wire) + (p + y);
    TagParts(n, t);
    TagReads(n, t, p + y);
    PayloadIsSkipped(t, p, y);
    SkipsOne(b, wire, p + y, y);
    FirstIsUnknown(b, wire, p + y, y);
  }

  /** A field of another number passes without a trace. */
  lemma UnknownLeavesNoTrace(n: nat, t: nat, p: Bytes, y: Bytes, m: CoinAge)
    requires 0 < n < 0x8000_0000 && n != 1 && n != 5 && IsPayload(t, p)
    ensures AgeFrom(Varint(8 * n + t) + (p + y), m) == AgeFrom(y, m)
  {
    UnknownComesFirst(n, t, p, y);
    AgeFromField(Varint(8 * n + t) + (p + y), m);
  }

  /** The address and the lots come with a length; any other wire type is refused. */
  lemma WrongTypeIsRefused(n: nat, t: nat, y: Bytes, m: CoinAge)
    requires (n == 1 || n == 5) && t < 8 && t != 4 && t != 2
    ensures AgeFrom(Varint(8 * n + t) + y, m) == Malformed
  {
    TagParts(n, t);
    TagReads(n, t, y);
    AgeFromField(Varint(8 * n + t) + y, m);
  }
}
