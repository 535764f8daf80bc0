/** Fields prefixed by a 32-bit big-endian length, as the WebAuthn envelope and the proof envelope use them. */
module Framing {
  import opened Bytes
  import Seqs

  datatype U32 = NoU32 | GotU32(value: nat, rest: Bytes)
  datatype Field = NoField | GotField(body: Bytes, rest: Bytes)

  function ReadU32(b: Bytes): (r: U32)
    ensures r.GotU32? ==> |r.rest| == |b| - 4
  {
    if |b| < 4 then NoU32 else GotU32(FromBigEndian(b[..4]), b[4..])
  }

  function ReadField(b: Bytes): (f: Field)
    ensures f.GotField? ==> |f.rest| < |b|
  {
    match ReadU32(b)
    case NoU32 => NoField
    case GotU32(n, rest) => if |rest| < n then NoField else GotField(rest[..n], rest[n..])
  }

  /** Length and body; a body of 2^32 bytes or more gets only the low 32 bits of its length. */
  function PutField(s: Bytes): Bytes { BigEndian(|s|, 4) + s }

  lemma CutPrefix(p: Bytes, rest: Bytes)
    ensures (p + rest)[..|p|] == p && (p + rest)[|p|..] == rest
  {}

  lemma ReadU32Reads(n: nat, rest: Bytes)
    requires n < TWO32
    ensures ReadU32(BigEndian(n, 4) + rest) == GotU32(n, rest)
  {
    Capacities();
    DecodeEncode(n, 4);
    CutPrefix(BigEndian(n, 4), rest);
  }

  lemma ReadU32Inverts(b: Bytes)
    requires ReadU32(b).GotU32?
    ensures ReadU32(b).value < TWO32 && b == BigEndian(ReadU32(b).value, 4) + ReadU32(b).rest
  {
    Capacities();
    EncodeDecode(b[..4]);
    assert b == b[..4] + b[4..];
  }

  lemma ReadFieldReads(s: Bytes, rest: Bytes)
    requires |s| < TWO32
    ensures ReadField(PutField(s) + rest) == GotField(s, rest)
  {
    Seqs.AppendAssociates(BigEndian(|s|, 4), s, rest);
    ReadU32Reads(|s|, s + rest);
    CutPrefix(s, rest);
  }

  lemma FieldOfRest(b: Bytes, n: nat, rest: Bytes)
    requires ReadU32(b) == GotU32(n, rest) && ReadField(b).GotField?
    ensures |ReadField(b).body| == n && rest == ReadField(b).body + ReadField(b).rest
  {}

  lemma ReadFieldInverts(b: Bytes)
    requires ReadField(b).GotField?
    ensures |ReadField(b).body| < TWO32 && b == PutField(ReadField(b).body) + ReadField(b).rest
  {
    ReadU32Inverts(b);
    var n, rest, f := ReadU32(b).value, ReadU32(b).rest, ReadField(b);
    FieldOfRest(b, n, rest);
    Seqs.AppendAssociates(BigEndian(n, 4), f.body, f.rest);
  }
}
