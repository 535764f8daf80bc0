/** The WebAuthn signature envelope of app/ante/webauthn.go: magic, then three length-prefixed fields. */
module WebAuthn {
  import opened Bytes
  import opened Framing
  import Seqs

  datatype Envelope = Envelope(authenticatorData: Bytes, clientDataJSON: Bytes, signature: Bytes)

  datatype Result = Ok(value: Envelope) | MissingMagic | Truncated | TrailingBytes

  /** "PWA1" */
  const MAGIC: Bytes := [0x50, 0x57, 0x41, 0x31]

  predicate IsWebAuthnEnvelope(sig: Bytes) {
    |sig| >= |MAGIC| && sig[..|MAGIC|] == MAGIC
  }

  function Joined(fields: seq<Bytes>): Bytes {
    if fields == [] then [] else PutField(fields[0]) + Joined(fields[1..])
  }

  function FieldsOf(w: Envelope): seq<Bytes> { [w.authenticatorData, w.clientDataJSON, w.signature] }

  function Marshalled(w: Envelope): Bytes { MAGIC + Joined(FieldsOf(w)) }

  method Marshal(w: Envelope) returns (out: Bytes)
    ensures out == Marshalled(w)
  {
    out := MAGIC;
    var fields := FieldsOf(w);
    for i := 0 to 3
      invariant out + Joined(fields[i..]) == Marshalled(w)
    {
      assert fields[i..][0] == fields[i] && fields[i..][1..] == fields[i+1..];
      Seqs.AppendAssociates(out + BigEndian(|fields[i]|, 4), fields[i], Joined(fields[i+1..]));
      Seqs.AppendAssociates(out, BigEndian(|fields[i]|, 4), fields[i]);
      Seqs.AppendAssociates(out, PutField(fields[i]), Joined(fields[i+1..]));
      out := out + BigEndian(|fields[i]|, 4);
      out := out + fields[i];
    }
    assert Joined(fields[3..]) == [];
  }

  /** `n` fields off the front of `b`. */
  datatype Fields = NoFields | GotFields(fields: seq<Bytes>, rest: Bytes)

  function ReadFields(b: Bytes, n: nat): (r: Fields)
    ensures r.GotFields? ==> |r.fields| == n
  {
    if n == 0 then GotFields([], b)
    else
      match ReadField(b)
      case NoField => NoFields
      case GotField(s, rest) =>
        match ReadFields(rest, n - 1)
        case NoFields => NoFields
        case GotFields(more, end) => GotFields([s] + more, end)
  }

  function Unmarshalled(b: Bytes): Result {
    if !IsWebAuthnEnvelope(b) then MissingMagic
    else
      match ReadFields(b[|MAGIC|..], 3)
      case NoFields => Truncated
      case GotFields(f, rest) => if rest != [] then TrailingBytes else Ok(Envelope(f[0], f[1], f[2]))
  }

  /** The fields already taken in front of those still to come. */
  function Continue(fields: seq<Bytes>, more: Fields): Fields {
    match more
    case NoFields => NoFields
    case GotFields(f, rest) => GotFields(fields + f, rest)
  }

  lemma ContinueStep(fields: seq<Bytes>, b: Bytes, n: nat, s: Bytes, rest: Bytes)
    requires n > 0 && ReadField(b) == GotField(s, rest)
    ensures Continue(fields, ReadFields(b, n)) == Continue(fields + [s], ReadFields(rest, n - 1))
  {
    match ReadFields(rest, n - 1)
    case NoFields =>
    case GotFields(f, _) => Seqs.AppendAssociates(fields, [s], f);
  }

  lemma ContinueFails(fields: seq<Bytes>, b: Bytes, n: nat)
    requires n > 0 && ReadField(b) == NoField
    ensures Continue(fields, ReadFields(b, n)) == NoFields
  {}

  method TakeField(rest: Bytes) returns (f: Field)
    ensures f == ReadField(rest)
  {
    if |rest| < 4 {
      return NoField;
    }
    var n := FromBigEndian(rest[..4]);
    var body := rest[4..];
    if |body| < n {
      return NoField;
    }
    f := GotField(body[..n], body[n..]);
  }

  /** The loop over the fields; `n` is three. */
  method TakeFields(b: Bytes, n: nat) returns (r: Fields)
    ensures r == ReadFields(b, n)
  {
    var rest, fields: seq<Bytes> := b, [];
    ContinueStart(ReadFields(b, n));
    for i := 0 to n
      invariant ReadFields(b, n) == Continue(fields, ReadFields(rest, n - i))
    {
      var f := TakeField(rest);
      if f.NoField? {
        ContinueFails(fields, rest, n - i);
        return NoFields;
      }
      ContinueStep(fields, rest, n - i, f.body, f.rest);
      fields, rest := fields + [f.body], f.rest;
    }
    Seqs.NothingAdded(fields);
    r := GotFields(fields, rest);
  }

  lemma ContinueStart(more: Fields)
    ensures Continue([], more) == more
  {
    if more.GotFields? { Seqs.NothingAdded(more.fields); }
  }

  method Unmarshal(b: Bytes) returns (r: Result)
    ensures r == Unmarshalled(b)
  {
    if !IsWebAuthnEnvelope(b) {
      return MissingMagic;
    }
    var f := TakeFields(b[|MAGIC|..], 3);
    if f.NoFields? {
      return Truncated;
    }
    if |f.rest| != 0 {
      return TrailingBytes;
    }
    r := Ok(Envelope(f.fields[0], f.fields[1], f.fields[2]));
  }

  // ----- the encoding is a bijection

  predicate Short(fields: seq<Bytes>) { forall i :: 0 <= i < |fields| ==> |fields[i]| < TWO32 }

  lemma ReadFieldsCons(b: Bytes, n: nat, s: Bytes, rest: Bytes, more: seq<Bytes>, end: Bytes)
    requires n > 0 && ReadField(b) == GotField(s, rest) && ReadFields(rest, n - 1) == GotFields(more, end)
    ensures ReadFields(b, n) == GotFields([s] + more, end)
  {}

  lemma ReadOneMore(s: Bytes, tail: seq<Bytes>, rest: Bytes)
    requires |s| < TWO32 && ReadFields(Joined(tail) + rest, |tail|) == GotFields(tail, rest)
    ensures ReadFields(Joined([s] + tail) + rest, |tail| + 1) == GotFields([s] + tail, rest)
  {
    var b := Joined(tail) + rest;
    JoinedCons(s, tail, rest);
    ReadFieldReads(s, b);
    ReadFieldsCons(PutField(s) + b, |tail| + 1, s, b, tail, rest);
  }

  lemma {:induction false} ReadFieldsReads(fields: seq<Bytes>, rest: Bytes)
    requires Short(fields)
    ensures ReadFields(Joined(fields) + rest, |fields|) == GotFields(fields, rest)
  {
    if fields == [] {
      Seqs.NothingAdded(rest);
    } else {
      ReadFieldsReads(fields[1..], rest);
      ReadOneMore(fields[0], fields[1..], rest);
      assert fields == [fields[0]] + fields[1..];
    }
  }

  lemma JoinedCons(s: Bytes, more: seq<Bytes>, end: Bytes)
    ensures Joined([s] + more) + end == PutField(s) + (Joined(more) + end)
  {
    Seqs.TailOfCons(s, more);
    Seqs.AppendAssociates(PutField(s), Joined(more), end);
  }

  lemma ReadFieldsUncons(b: Bytes, n: nat) returns (s: Bytes, rest: Bytes, more: seq<Bytes>, end: Bytes)
    requires n > 0 && ReadFields(b, n).GotFields?
    ensures ReadField(b) == GotField(s, rest) && ReadFields(rest, n - 1) == GotFields(more, end)
    ensures ReadFields(b, n) == GotFields([s] + more, end)
  {
    s, rest := ReadField(b).body, ReadField(b).rest;
    more, end := ReadFields(rest, n - 1).fields, ReadFields(rest, n - 1).rest;
  }

  lemma {:induction false} ReadFieldsInverts(b: Bytes, n: nat)
    requires ReadFields(b, n).GotFields?
    ensures Short(ReadFields(b, n).fields)
    ensures b == Joined(ReadFields(b, n).fields) + ReadFields(b, n).rest
  {
    if n == 0 {
      Seqs.NothingAdded(b);
    } else {
      var s, rest, more, end := ReadFieldsUncons(b, n);
      ReadFieldInverts(b);
      ReadFieldsInverts(rest, n - 1);
      JoinedCons(s, more, end);
    }
  }

  /** An envelope reads back as itself exactly when every field is shorter than 2^32 bytes. */
  lemma UnmarshalUndoesMarshalIff(w: Envelope)
    ensures Unmarshalled(Marshalled(w)) == Ok(w) <==> Short(FieldsOf(w))
  {
    var b := Marshalled(w);
    CutPrefix(MAGIC, Joined(FieldsOf(w)));
    if Short(FieldsOf(w)) {
      ReadFieldsReads(FieldsOf(w), []);
      Seqs.NothingAdded(Joined(FieldsOf(w)));
    }
    if Unmarshalled(b) == Ok(w) {
      var r := ReadFields(b[|MAGIC|..], 3);
      ReadFieldsInverts(b[|MAGIC|..], 3);
      assert r.fields == FieldsOf(w);
    }
  }

  /** Whatever decodes is exactly the encoding of what it decodes to: no second spelling is accepted. */
  lemma MarshalUndoesUnmarshal(b: Bytes)
    requires Unmarshalled(b).Ok?
    ensures Marshalled(Unmarshalled(b).value) == b
  {
    var r := ReadFields(b[|MAGIC|..], 3);
    ReadFieldsInverts(b[|MAGIC|..], 3);
    assert r.fields == FieldsOf(Unmarshalled(b).value);
    Seqs.NothingAdded(Joined(r.fields));
    assert b == b[..|MAGIC|] + b[|MAGIC|..];
  }

  /** So a byte string is accepted exactly when it is the encoding of an envelope with short fields. */
  lemma AcceptedIffEncoding(b: Bytes, w: Envelope)
    ensures Unmarshalled(b) == Ok(w) <==> Short(FieldsOf(w)) && b == Marshalled(w)
  {
    UnmarshalUndoesMarshalIff(w);
    if Unmarshalled(b) == Ok(w) { MarshalUndoesUnmarshal(b); }
  }

  /** An envelope byte for byte: "PWA1", then each field behind its length. */
  lemma EnvelopeBytes()
    ensures Marshalled(Envelope([0x61], [0x62, 0x63], []))
         == [0x50, 0x57, 0x41, 0x31] + [0, 0, 0, 1, 0x61] + [0, 0, 0, 2, 0x62, 0x63] + [0, 0, 0, 0]
  {
    SmallU32(0);
    SmallU32(1);
    SmallU32(2);
    var a, b, c: Bytes := [0x61], [0x62, 0x63], [];
    assert [a, b, c][1..] == [b, c] && [b, c][1..] == [c] && [c][1..] == [];
    assert Joined([c]) == PutField(c) + [];
    assert Joined([b, c]) == PutField(b) + Joined([c]);
    assert Joined([a, b, c]) == PutField(a) + Joined([b, c]);
  }
}
