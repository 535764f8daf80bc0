/**
 Reading the revealed set out of a selective-disclosure proof: the reader and parser of
 x/disclosure/types/proof.go.
 */
module ProofEnvelope {
  import opened Bytes
  import opened Framing
  import opened Sorting
  import Policy
  import Seqs

  datatype Entry = Entry(index: nat, value: Bytes)

  /** A proof envelope: the claim count, the opaque proof body, and the revealed (index, value) pairs. */
  datatype Envelope = Envelope(count: nat, body: Bytes, entries: seq<Entry>)

  datatype Level = Predicate | Partial

  /** What the chain learns: the claim count and the revealed indices, strictly ascending. */
  datatype Disclosed = Disclosed(messageCount: nat, revealedIndices: seq<nat>) {
    predicate IsPredicate() { |revealedIndices| == 0 }
    function Level(): Level { if IsPredicate() then Predicate else Partial }
  }

  datatype Result = Ok(value: Disclosed) | Malformed

  function Indices(entries: seq<Entry>): seq<nat> {
    seq(|entries|, i requires 0 <= i < |entries| => entries[i].index)
  }

  predicate EntriesFit(entries: seq<Entry>, count: nat) {
    && Distinct(Indices(entries))
    && forall i :: 0 <= i < |entries| ==> entries[i].index < count
  }

  /** The envelopes phi-crypto can produce. */
  predicate WellFormed(e: Envelope) {
    && 1 <= e.count <= Policy.MAX_BBS_MESSAGES
    && |e.body| < TWO32
    && |e.entries| <= e.count
    && EntriesFit(e.entries, e.count)
    && forall i :: 0 <= i < |e.entries| ==> |e.entries[i].value| < TWO32
  }

  function PutEntry(e: Entry): Bytes { BigEndian(e.index, 4) + PutField(e.value) }

  function PutEntries(entries: seq<Entry>): Bytes {
    if entries == [] then [] else PutEntry(entries[0]) + PutEntries(entries[1..])
  }

  function Encoded(e: Envelope): Bytes {
    BigEndian(e.count, 4) + (PutField(e.body) + (BigEndian(|e.entries|, 4) + PutEntries(e.entries)))
  }

  // ----- what the parser computes

  datatype OneEntry = NoEntry | GotEntry(entry: Entry, rest: Bytes)
  datatype Entries = NoEntries | GotEntries(entries: seq<Entry>, rest: Bytes)
  datatype Decode = Rejected | Accepted(envelope: Envelope)

  function ReadEntry(b: Bytes): OneEntry {
    match ReadU32(b)
    case NoU32 => NoEntry
    case GotU32(i, b') =>
      match ReadField(b')
      case NoField => NoEntry
      case GotField(v, rest) => GotEntry(Entry(i, v), rest)
  }

  function ReadEntries(b: Bytes, n: nat): (r: Entries)
    ensures r.GotEntries? ==> |r.entries| == n
  {
    if n == 0 then GotEntries([], b)
    else
      match ReadEntry(b)
      case NoEntry => NoEntries
      case GotEntry(e, b') =>
        match ReadEntries(b', n - 1)
        case NoEntries => NoEntries
        case GotEntries(more, rest) => GotEntries([e] + more, rest)
  }

  /** The part after the claim count. */
  function DecodeTail(b: Bytes, count: nat): Decode {
    match ReadField(b)
    case NoField => Rejected
    case GotField(body, b') =>
      match ReadU32(b')
      case NoU32 => Rejected
      case GotU32(n, b'') =>
        if n > count then Rejected else DecodeEntries(b'', n, count, body)
  }

  function DecodeEntries(b: Bytes, n: nat, count: nat, body: Bytes): Decode {
    match ReadEntries(b, n)
    case NoEntries => Rejected
    case GotEntries(entries, rest) =>
      if rest != [] || !EntriesFit(entries, count) then Rejected else Accepted(Envelope(count, body, entries))
  }

  function Decoded(b: Bytes): Decode {
    match ReadU32(b)
    case NoU32 => Rejected
    case GotU32(count, b') =>
      if count == 0 || count > Policy.MAX_BBS_MESSAGES then Rejected else DecodeTail(b', count)
  }

  // ----- accepted means encoded

  lemma ReadEntryReads(e: Entry, rest: Bytes)
    requires e.index < TWO32 && |e.value| < TWO32
    ensures ReadEntry(PutEntry(e) + rest) == GotEntry(e, rest)
  {
    Seqs.AppendAssociates(BigEndian(e.index, 4), PutField(e.value), rest);
    ReadU32Reads(e.index, PutField(e.value) + rest);
    ReadFieldReads(e.value, rest);
  }

  lemma ReadEntryInverts(b: Bytes, e: Entry, rest: Bytes)
    requires ReadEntry(b) == GotEntry(e, rest)
    ensures e.index < TWO32 && |e.value| < TWO32 && b == PutEntry(e) + rest
  {
    ReadU32Inverts(b);
    var b' := ReadU32(b).rest;
    ReadFieldInverts(b');
    Seqs.AppendAssociates(BigEndian(e.index, 4), PutField(e.value), rest);
  }

  predicate Small(entries: seq<Entry>) {
    forall i :: 0 <= i < |entries| ==> entries[i].index < TWO32 && |entries[i].value| < TWO32
  }

  lemma PutEntriesCons(e: Entry, more: seq<Entry>, rest: Bytes)
    ensures PutEntries([e] + more) + rest == PutEntry(e) + (PutEntries(more) + rest)
  {
    Seqs.TailOfCons(e, more);
    Seqs.AppendAssociates(PutEntry(e), PutEntries(more), rest);
  }

  lemma ReadEntriesCons(b: Bytes, n: nat, e: Entry, b': Bytes, more: seq<Entry>, rest: Bytes)
    requires n > 0 && ReadEntry(b) == GotEntry(e, b') && ReadEntries(b', n - 1) == GotEntries(more, rest)
    ensures ReadEntries(b, n) == GotEntries([e] + more, rest)
  {}

  lemma ReadEntriesUncons(b: Bytes, n: nat) returns (e: Entry, b': Bytes, more: seq<Entry>, rest: Bytes)
    requires n > 0 && ReadEntries(b, n).GotEntries?
    ensures ReadEntry(b) == GotEntry(e, b') && ReadEntries(b', n - 1) == GotEntries(more, rest)
    ensures ReadEntries(b, n) == GotEntries([e] + more, rest)
  {
    e, b' := ReadEntry(b).entry, ReadEntry(b).rest;
    more, rest := ReadEntries(b', n - 1).entries, ReadEntries(b', n - 1).rest;
  }

  lemma ReadOneMore(e: Entry, more: seq<Entry>, rest: Bytes)
    requires e.index < TWO32 && |e.value| < TWO32
    requires ReadEntries(PutEntries(more) + rest, |more|) == GotEntries(more, rest)
    ensures ReadEntries(PutEntries([e] + more) + rest, |more| + 1) == GotEntries([e] + more, rest)
  {
    var b := PutEntries(more) + rest;
    PutEntriesCons(e, more, rest);
    ReadEntryReads(e, b);
    ReadEntriesCons(PutEntry(e) + b, |more| + 1, e, b, more, rest);
  }

  lemma {:induction false} ReadEntriesReads(entries: seq<Entry>, rest: Bytes)
    requires Small(entries)
    ensures ReadEntries(PutEntries(entries) + rest, |entries|) == GotEntries(entries, rest)
  {
    if entries == [] {
      Seqs.NothingAdded(rest);
    } else {
      ReadEntriesReads(entries[1..], rest);
      ReadOneMore(entries[0], entries[1..], rest);
      assert entries == [entries[0]] + entries[1..];
    }
  }

  lemma InvertOneMore(b: Bytes, e: Entry, b': Bytes, more: seq<Entry>, rest: Bytes)
    requires e.index < TWO32 && |e.value| < TWO32 && Small(more)
    requires b == PutEntry(e) + b' && b' == PutEntries(more) + rest
    ensures Small([e] + more) && b == PutEntries([e] + more) + rest
  {
    PutEntriesCons(e, more, rest);
  }

  lemma {:induction false} ReadEntriesInverts(b: Bytes, n: nat, entries: seq<Entry>, rest: Bytes)
    requires ReadEntries(b, n) == GotEntries(entries, rest)
    ensures Small(entries) && b == PutEntries(entries) + rest
    decreases n
  {
    if n == 0 {
      Seqs.NothingAdded(b);
    } else {
      var e, b', more, end := ReadEntriesUncons(b, n);
      ReadEntryInverts(b, e, b');
      ReadEntriesInverts(b', n - 1, more, end);
      InvertOneMore(b, e, b', more, end);
    }
  }

  lemma EncodedIsAccepted(e: Envelope)
    requires WellFormed(e)
    ensures Decoded(Encoded(e)) == Accepted(e)
  {
    var b3 := PutEntries(e.entries);
    var b2 := BigEndian(|e.entries|, 4) + b3;
    var b1 := PutField(e.body) + b2;
    ReadU32Reads(e.count, b1);
    ReadFieldReads(e.body, b2);
    ReadU32Reads(|e.entries|, b3);
    ReadEntriesReads(e.entries, []);
    Seqs.NothingAdded(b3);
    assert DecodeEntries(b3, |e.entries|, e.count, e.body) == Accepted(e);
    assert DecodeTail(b1, e.count) == Accepted(e);
  }

  lemma TailAcceptedIsEncoded(b: Bytes, count: nat, e: Envelope)
    requires 1 <= count <= Policy.MAX_BBS_MESSAGES && DecodeTail(b, count) == Accepted(e)
    ensures WellFormed(e) && e.count == count
    ensures b == PutField(e.body) + (BigEndian(|e.entries|, 4) + PutEntries(e.entries))
  {
    ReadFieldInverts(b);
    var b2 := ReadField(b).rest;
    ReadU32Inverts(b2);
    var n, b3 := ReadU32(b2).value, ReadU32(b2).rest;
    ReadEntriesInverts(b3, n, e.entries, []);
    Seqs.NothingAdded(PutEntries(e.entries));
  }

  lemma AcceptedIsEncoded(b: Bytes, e: Envelope)
    requires Decoded(b) == Accepted(e)
    ensures WellFormed(e) && b == Encoded(e)
  {
    ReadU32Inverts(b);
    TailAcceptedIsEncoded(ReadU32(b).rest, ReadU32(b).value, e);
  }

  /** The parser accepts exactly the encodings of well-formed envelopes, and each of them as itself. */
  lemma AcceptedIffEncoding(b: Bytes, e: Envelope)
    ensures Decoded(b) == Accepted(e) <==> WellFormed(e) && b == Encoded(e)
  {
    if Decoded(b) == Accepted(e) { AcceptedIsEncoded(b, e); }
    if WellFormed(e) { EncodedIsAccepted(e); }
  }

  // ----- the reader and the parser

  class Reader {
    const b: Bytes
    var pos: nat

    constructor (bytes: Bytes)
      ensures b == bytes && pos == 0
    {
      b, pos := bytes, 0;
    }

    ghost predicate Valid()
      reads this
    {
      pos <= |b|
    }

    /** The bytes still to be read. */
    ghost function Rest(): Bytes
      requires Valid()
      reads this
    {
      b[pos..]
    }

    method NextU32() returns (ok: bool, v: nat)
      requires Valid()
      modifies this
      ensures Valid()
      ensures match ReadU32(old(Rest()))
              case NoU32 => !ok
              case GotU32(n, rest) => ok && v == n && Rest() == rest
    {
      if pos + 4 > |b| {
        return false, 0;
      }
      assert b[pos..][..4] == b[pos..pos+4] && b[pos..][4..] == b[pos+4..];
      v := FromBigEndian(b[pos..pos+4]);
      pos := pos + 4;
      ok := true;
    }

    method NextBytes() returns (ok: bool, out: Bytes)
      requires Valid()
      modifies this
      ensures Valid()
      ensures match ReadField(old(Rest()))
              case NoField => !ok
              case GotField(s, rest) => ok && out == s && Rest() == rest
    {
      var n;
      ok, n := NextU32();
      if !ok {
        return false, [];
      }
      if n > |b| - pos {
        return false, [];
      }
      assert b[pos..][..n] == b[pos..pos+n] && b[pos..][n..] == b[pos+n..];
      out := b[pos..pos+n];
      pos := pos + n;
    }

    /** An index and the claim value behind it. */
    method NextEntry() returns (ok: bool, e: Entry)
      requires Valid()
      modifies this
      ensures Valid()
      ensures match ReadEntry(old(Rest()))
              case NoEntry => !ok
              case GotEntry(x, rest) => ok && e == x && Rest() == rest
    {
      e := Entry(0, []);
      var index, value;
      ok, index := NextU32();
      if !ok {
        return;
      }
      ok, value := NextBytes();
      if ok {
        e := Entry(index, value);
      }
    }
  }

  function Prepend(got: seq<Entry>, more: Entries): Entries {
    match more
    case NoEntries => NoEntries
    case GotEntries(es, rest) => GotEntries(got + es, rest)
  }

  lemma PrependStep(got: seq<Entry>, b: Bytes, n: nat, e: Entry, b': Bytes)
    requires n > 0 && ReadEntry(b) == GotEntry(e, b')
    ensures Prepend(got, ReadEntries(b, n)) == Prepend(got + [e], ReadEntries(b', n - 1))
  {
    match ReadEntries(b', n - 1)
    case NoEntries =>
    case GotEntries(es, _) => Seqs.AppendAssociates(got, [e], es);
  }

  lemma PrependStart(more: Entries)
    ensures Prepend([], more) == more
  {
    if more.GotEntries? { Seqs.NothingAdded(more.entries); }
  }

  /** A bad entry is not repaired by what follows it. */
  lemma UnfitStaysUnfit(got: seq<Entry>, more: seq<Entry>, count: nat)
    requires !EntriesFit(got, count)
    ensures !EntriesFit(got + more, count)
  {
    if Distinct(Indices(got)) {
      var i :| 0 <= i < |got| && !(got[i].index < count);
      assert (got + more)[i] == got[i];
    } else {
      var i, j :| 0 <= i < j < |got| && Indices(got)[i] == Indices(got)[j];
      assert Indices(got + more)[i] == Indices(got + more)[j];
    }
  }

  lemma FitStep(got: seq<Entry>, e: Entry, count: nat)
    requires EntriesFit(got, count)
    ensures EntriesFit(got + [e], count) <==> e.index < count && e.index !in Elems(Indices(got))
    ensures Indices(got + [e]) == Indices(got) + [e.index]
    ensures Elems(Indices(got + [e])) == Elems(Indices(got)) + {e.index}
  {
    var before, after := Indices(got), Indices(got + [e]);
    assert after == before + [e.index];
    if e.index in Elems(before) {
      var i :| 0 <= i < |before| && before[i] == e.index;
      assert after[i] == after[|before|];
    }
    if e.index >= count {
      assert (got + [e])[|got|].index >= count;
    }
  }

  /** What the entry loop answers for the entries the bytes hold. */
  predicate EntriesAnswer(all: Entries, count: nat, ok: bool, indices: seq<nat>) {
    match all
    case NoEntries => !ok
    case GotEntries(es, _) => (ok <==> EntriesFit(es, count)) && (ok ==> indices == Indices(es))
  }

  lemma UnfitAnswer(got: seq<Entry>, more: Entries, count: nat)
    requires !EntriesFit(got, count)
    ensures EntriesAnswer(Prepend(got, more), count, false, [])
  {
    if more.GotEntries? { UnfitStaysUnfit(got, more.entries, count); }
  }

  method ParseEntries(r: Reader, n: nat, count: nat) returns (ok: bool, indices: seq<nat>)
    requires r.Valid()
    modifies r
    ensures r.Valid()
    ensures EntriesAnswer(ReadEntries(old(r.Rest()), n), count, ok, indices)
    ensures ok ==> r.Rest() == ReadEntries(old(r.Rest()), n).rest
  {
    var seen: set<nat> := {};
    indices := [];
    ghost var all, got := ReadEntries(r.Rest(), n), [];
    PrependStart(all);
    for i := 0 to n
      invariant r.Valid()
      invariant all == Prepend(got, ReadEntries(r.Rest(), n - i))
      invariant EntriesFit(got, count) && indices == Indices(got) && seen == Elems(indices)
    {
      ghost var before := r.Rest();
      var good, e := r.NextEntry();
      if !good {
        return false, [];
      }
      PrependStep(got, before, n - i, e, r.Rest());
      FitStep(got, e, count);
      if e.index >= count || e.index in seen {
        UnfitAnswer(got + [e], ReadEntries(r.Rest(), n - i - 1), count);
        return false, [];
      }
      seen := seen + {e.index};
      indices := indices + [e.index];
      got := got + [e];
    }
    Seqs.NothingAdded(got);
    ok := true;
  }

  /** Exactly the well-formed envelopes are accepted, and the answer is their claim count with the strictly
      ascending list of their revealed indices. */
  method ParseDisclosedProof(b: Bytes) returns (r: Result)
    ensures match Decoded(b)
            case Rejected => r == Malformed
            case Accepted(e) =>
              && r.Ok? && r.value.messageCount == e.count
              && StrictlyAscending(r.value.revealedIndices)
              && multiset(r.value.revealedIndices) == multiset(Indices(e.entries))
  {
    var rd := new Reader(b);
    assert b[0..] == b;
    var ok, count := rd.NextU32();
    if !ok {
      return Malformed;
    }
    if count == 0 || count > Policy.MAX_BBS_MESSAGES {
      return Malformed;
    }
    var body;
    ok, body := rd.NextBytes();
    if !ok {
      return Malformed;
    }
    var n;
    ok, n := rd.NextU32();
    if !ok {
      return Malformed;
    }
    if n > count {
      return Malformed;
    }
    var indices;
    ok, indices := ParseEntries(rd, n, count);
    if !ok {
      return Malformed;
    }
    if rd.pos != |b| {
      return Malformed;
    }
    var a := new nat[|indices|](i requires 0 <= i < |indices| => indices[i]);
    assert a[..] == indices;
    SortAscending(a);
    SortedDistinct(a[..], indices);
    r := Ok(Disclosed(count, a[..]));
  }

  lemma EntryBytes()
    ensures PutEntry(Entry(2, [0x62])) == [0, 0, 0, 2, 0, 0, 0, 1, 0x62] && PutEntry(Entry(0, [])) == [0, 0, 0, 0, 0, 0, 0, 0]
  {
    SmallU32(0);
    SmallU32(1);
    SmallU32(2);
  }

  lemma TwoEntries(e: Entry, f: Entry)
    ensures PutEntries([e, f]) == PutEntry(e) + PutEntry(f)
  {
    assert [e, f][1..] == [f] && [f][1..] == [];
    assert PutEntries([f]) == PutEntry(f) + [];
  }

  /** A proof envelope byte for byte: claim count, body, number of entries, then each index with its value. */
  lemma ProofBytes()
    ensures Encoded(Envelope(3, [0x61], [Entry(2, [0x62]), Entry(0, [])]))
         == [0, 0, 0, 3] + ([0, 0, 0, 1, 0x61] + ([0, 0, 0, 2] + ([0, 0, 0, 2, 0, 0, 0, 1, 0x62] + [0, 0, 0, 0, 0, 0, 0, 0])))
  {
    SmallU32(3);
    SmallU32(2);
    SmallU32(1);
    EntryBytes();
    TwoEntries(Entry(2, [0x62]), Entry(0, []));
    assert PutField([0x61]) == [0, 0, 0, 1, 0x61];
  }
}
