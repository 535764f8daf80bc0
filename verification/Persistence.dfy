/**
 From the ledger's queues to raw store bytes: GetCoinAge and SetCoinAge of x/coin/keeper/keeper.go with
 their key, their wire codec and the decimal text of amounts. The raw store is proved to behave as the map
 of queues that Ledger reasons about, next to the quota counters that share it.
 */
module Persistence {
  import opened Bytes
  import opened CoinAge
  import P = ProtoCodec
  import opened Quota
  import opened Ledger
  import Seqs

  const TWO256: nat := TWO64 * TWO64 * TWO64 * TWO64

  /** math.Int.String of a non-negative number. */
  function Decimal(n: nat): (s: Bytes)
    ensures s != []
  {
    if n < 10 then [0x30 + n] else Decimal(n / 10) + [0x30 + n % 10]
  }

  function DigitsValue(s: Bytes): nat {
    if s == [] then 0 else DigitsValue(s[..|s|-1]) * 10 + (if s[|s|-1] < 0x30 then 0 else s[|s|-1] - 0x30)
  }

  /** LotAmount on a text of decimal digits: its value, or zero from 2^256 on. */
  function AmountOf(s: Bytes): nat {
    if DigitsValue(s) < TWO256 then DigitsValue(s) else 0
  }

  lemma {:induction false} DecimalReadsBack(n: nat)
    ensures DigitsValue(Decimal(n)) == n
  {
    if n < 10 {
      assert Decimal(n)[..0] == [];
    } else {
      DecimalReadsBack(n / 10);
      var init := Decimal(n / 10);
      assert (init + [0x30 + n % 10])[..|init|] == init;
    }
  }

  predicate Storable(q: Queue) {
    forall i :: 0 <= i < |q| ==> q[i].amount < TWO256 && P.IsInt64(q[i].acquiredAt)
  }

  function ToWire(q: Queue): seq<P.CoinLot> {
    seq(|q|, i requires 0 <= i < |q| => P.CoinLot(Decimal(q[i].amount), q[i].acquiredAt))
  }

  function FromWire(lots: seq<P.CoinLot>): Queue {
    seq(|lots|, i requires 0 <= i < |lots| => Lot(AmountOf(lots[i].amount), lots[i].acquiredAt))
  }

  lemma WireReadsBack(q: Queue)
    requires Storable(q)
    ensures FromWire(ToWire(q)) == q
  {
    forall i | 0 <= i < |q|
      ensures FromWire(ToWire(q))[i] == q[i]
    {
      DecimalReadsBack(q[i].amount);
    }
  }

  /** A record that fits a Go slice. */
  predicate Fits(a: Bytes, q: Queue) {
    var m := P.CoinAge(a, ToWire(q));
    Storable(q) && P.WireAge(m) && |P.EncodeAge(m)| < TWO63
  }

  /** SetCoinAge on the raw store. */
  function RawStored(store: Store, a: Bytes, q: Queue): Store
    requires Fits(a, q)
  {
    if |q| == 0 then store - {CoinAgeKey(a)} else store[CoinAgeKey(a) := P.EncodeAge(P.CoinAge(a, ToWire(q)))]
  }

  /** GetCoinAge on the raw store; a record that does not decode would panic, and counts as empty here. */
  function RawQueue(store: Store, a: Bytes): Queue {
    if CoinAgeKey(a) !in store then []
    else
      match P.DecodeAge(store[CoinAgeKey(a)])
      case Malformed => []
      case Ok(m) => FromWire(m.lots)
  }

  ghost predicate Represents(store: Store, ages: Ages) {
    forall a :: RawQueue(store, a) == QueueOf(ages, a)
  }

  lemma KeysAreApart(a: Bytes, b: Bytes)
    ensures CoinAgeKey(a) == CoinAgeKey(b) <==> a == b
    ensures !UnderQuotaPrefix(CoinAgeKey(a))
  {
    Seqs.TailOfCons(0x10, a);
    Seqs.TailOfCons(0x10, b);
  }

  /** Reading a record just written gives the queue that was written; every other holder reads as before. */
  lemma ReadAfterWrite(store: Store, a: Bytes, q: Queue, b: Bytes)
    requires Fits(a, q)
    ensures RawQueue(RawStored(store, a, q), b) == if a == b then q else RawQueue(store, b)
  {
    KeysAreApart(a, b);
    if a == b && |q| > 0 {
      P.DecodeEncodeAge(P.CoinAge(a, ToWire(q)));
      WireReadsBack(q);
    }
  }

  /** So the raw store and the map of queues stay in step through every SetCoinAge. */
  lemma RawStoreRefinesLedger(store: Store, ages: Ages, a: Bytes, q: Queue)
    requires Represents(store, ages) && Fits(a, q)
    ensures Represents(RawStored(store, a, q), Stored(ages, a, q))
  {
    forall b
      ensures RawQueue(RawStored(store, a, q), b) == QueueOf(Stored(ages, a, q), b)
    {
      ReadAfterWrite(store, a, q, b);
    }
  }

  /** Queue records and quota counters never touch each other. */
  lemma QuotaAndQueuesAreDisjoint(store: Store, a: Bytes, q: Queue, day: nat, did: Bytes)
    requires Fits(a, q)
    ensures CounterOf(RawStored(store, a, q), day, did) == CounterOf(store, day, did)
    ensures RawQueue(Incremented(store, day, did), a) == RawQueue(store, a)
  {
    KeysAreApart(a, a);
    assert UnderQuotaPrefix(MicroQuotaKey(day, did));
  }

  /** Nor does a prune touch a queue. */
  lemma PruneKeepsQueues(store: Store, after: Store, now: nat, ages: Ages)
    requires Represents(store, ages) && Pruned(store, after, now) && now < TWO63
    ensures Represents(after, ages)
  {
    PruneIsSafe(store, after, now);
    forall a
      ensures RawQueue(after, a) == QueueOf(ages, a)
    {
      KeysAreApart(a, a);
    }
  }
}
