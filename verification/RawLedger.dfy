/**
 Whole ledger runs on the raw store: every operation reads its queues by decoding stored bytes and writes them back
 encoded, and the bytes keep standing for the queues that Ledger reasons about.
 */
module RawLedger {
  import opened Bank
  import opened Bytes
  import opened CoinAge
  import opened CoinAgeTheorems
  import opened Ledger
  import opened MapSums
  import opened Persistence
  import P = ProtoCodec
  import opened Quota

  /** The store, or the panic that ended the run: a record no Go slice or math.Int can hold. */
  datatype Raw = Panicked | Live(store: Store)

  function Put(r: Raw, a: Address, q: Queue): Raw {
    if r.Live? && Fits(a, q) then Live(RawStored(r.store, a, q)) else Panicked
  }

  function Get(r: Raw, a: Address): Queue {
    if r.Live? then RawQueue(r.store, a) else []
  }

  function RawCredited(r: Raw, a: Address, amount: int, at: int, maxLots: nat): Raw {
    if amount <= 0 then r else Put(r, a, Inserted(Get(r, a), Lot(amount, at), maxLots))
  }

  function RawCreditedAll(r: Raw, a: Address, lots: Queue, maxLots: nat): Raw
    decreases |lots|
  {
    if lots == [] then r
    else RawCreditedAll(RawCredited(r, a, lots[0].amount, lots[0].acquiredAt, maxLots), a, lots[1..], maxLots)
  }

  function RawSpent(r: Raw, a: Address, amount: int): Raw {
    Put(r, a, Remaining(Get(r, a), amount))
  }

  /** One operation on the raw store; `s` supplies bank, clock and parameters only. */
  function RawStep(r: Raw, s: State, op: Op): Raw {
    match op
    case AddCoins(a, n, at) => RawCredited(r, a, n, at, s.params.maxLots)
    case Transfer(from, to, n) =>
      if n <= 0 || Send(s.bank, from, to, n).Refused? then r
      else RawCreditedAll(RawSpent(r, from, n), to, Consumed(Get(r, from), n, Boundary(s)), s.params.maxLots)
    case Redeem(a, n) => if n <= 0 then r else RawSpent(r, a, n)
    case UpdateParams(_) => r
    case NewBlock(_) => r
  }

  function RawRun(r: Raw, s: State, ops: seq<Op>): Raw
    decreases |ops|
  {
    if ops == [] then r else RawRun(RawStep(r, s, ops[0]), Step(s, ops[0]), ops[1..])
  }

  /** The raw side stands for the queues, and holds the same quota counters as `was`. */
  ghost predicate StandsFor(r: Raw, ages: Ages, was: Store) {
    r.Live? ==> Represents(r.store, ages) && forall day, did :: CounterOf(r.store, day, did) == CounterOf(was, day, did)
  }

  lemma PutStandsFor(r: Raw, ages: Ages, was: Store, a: Address, q: Queue)
    requires StandsFor(r, ages, was)
    ensures StandsFor(Put(r, a, q), Stored(ages, a, q), was)
  {
    if r.Live? && Fits(a, q) {
      RawStoreRefinesLedger(r.store, ages, a, q);
      forall day, did
        ensures CounterOf(RawStored(r.store, a, q), day, did) == CounterOf(was, day, did)
      {
        QuotaAndQueuesAreDisjoint(r.store, a, q, day, did);
      }
    }
  }

  lemma CreditStandsFor(r: Raw, ages: Ages, was: Store, a: Address, amount: int, at: int, maxLots: nat)
    requires StandsFor(r, ages, was)
    ensures StandsFor(RawCredited(r, a, amount, at, maxLots), Credited(ages, a, amount, at, maxLots), was)
  {
    if amount > 0 {
      PutStandsFor(r, ages, was, a, Inserted(QueueOf(ages, a), Lot(amount, at), maxLots));
    }
  }

  lemma {:induction false} CreditsStandFor(r: Raw, ages: Ages, was: Store, a: Address, lots: Queue, maxLots: nat)
    requires StandsFor(r, ages, was)
    ensures StandsFor(RawCreditedAll(r, a, lots, maxLots), CreditedAll(ages, a, lots, maxLots), was)
    decreases |lots|
  {
    if lots != [] {
      var l := lots[0];
      CreditStandsFor(r, ages, was, a, l.amount, l.acquiredAt, maxLots);
      CreditsStandFor(RawCredited(r, a, l.amount, l.acquiredAt, maxLots), Credited(ages, a, l.amount, l.acquiredAt, maxLots),
                      was, a, lots[1..], maxLots);
    }
  }

  lemma SpendStandsFor(r: Raw, ages: Ages, was: Store, a: Address, amount: int)
    requires StandsFor(r, ages, was)
    ensures StandsFor(RawSpent(r, a, amount), Spent(ages, a, amount), was)
  {
    PutStandsFor(r, ages, was, a, Remaining(QueueOf(ages, a), amount));
  }

  lemma {:induction false} PanicIsFinal(a: Address, lots: Queue, maxLots: nat)
    ensures RawCreditedAll(Panicked, a, lots, maxLots) == Panicked
    decreases |lots|
  {
    if lots != [] {
      PanicIsFinal(a, lots[1..], maxLots);
    }
  }

  lemma StepStandsFor(r: Raw, s: State, op: Op, was: Store)
    requires StandsFor(r, s.ages, was)
    ensures StandsFor(RawStep(r, s, op), Step(s, op).ages, was)
  {
    match op {
      case AddCoins(a, n, at) => CreditStandsFor(r, s.ages, was, a, n, at, s.params.maxLots);
      case Transfer(from, to, n) =>
        if n > 0 && Send(s.bank, from, to, n).Sent? {
          if r.Live? {
            SpendStandsFor(r, s.ages, was, from, n);
            CreditsStandFor(RawSpent(r, from, n), Spent(s.ages, from, n), was, to,
                            Consumed(QueueOf(s.ages, from), n, Boundary(s)), s.params.maxLots);
          } else {
            PanicIsFinal(to, Consumed(Get(r, from), n, Boundary(s)), s.params.maxLots);
          }
        }
      case Redeem(a, n) => SpendStandsFor(r, s.ages, was, a, n);
      case UpdateParams(_) =>
      case NewBlock(_) =>
    }
  }

  lemma {:induction false} RunStandsFor(r: Raw, s: State, ops: seq<Op>, was: Store)
    requires StandsFor(r, s.ages, was)
    ensures StandsFor(RawRun(r, s, ops), Run(s, ops).ages, was)
    decreases |ops|
  {
    if ops != [] {
      StepStandsFor(r, s, ops[0], was);
      RunStandsFor(RawStep(r, s, ops[0]), Step(s, ops[0]), ops[1..], was);
    }
  }

  /** A run on the raw store that does not panic ends in bytes that read as the ledger's queues, holder by holder, and
      has left every quota counter alone. */
  lemma RawRunRefinesLedger(store: Store, s: State, ops: seq<Op>)
    requires Represents(store, s.ages) && RawRun(Live(store), s, ops).Live?
    ensures var after := RawRun(Live(store), s, ops).store;
            && (forall a :: RawQueue(after, a) == QueueOf(Run(s, ops).ages, a))
            && (forall day, did :: CounterOf(after, day, did) == CounterOf(store, day, did))
  {
    RunStandsFor(Live(store), s, ops, store);
  }

  // ----- ordinary records never panic

  lemma {:induction false} DecimalIsShort(n: nat, k: nat)
    requires k > 0 && n < Capacity(k)
    ensures |Decimal(n)| <= 3 * k
    decreases k
  {
    if n >= 1000 {
      assert Capacity(k) == 256 * Capacity(k - 1);
      assert k > 1 by {
        assert Capacity(1) == 256 * Capacity(0) == 256;
      }
      assert n / 1000 < Capacity(k - 1);
      DecimalIsShort(n / 1000, k - 1);
      assert n / 10 / 10 / 10 == n / 1000;
      assert |Decimal(n)| == |Decimal(n / 10)| + 1 == |Decimal(n / 10 / 10)| + 2 == |Decimal(n / 10 / 10 / 10)| + 3;
    } else {
      assert n / 10 / 10 < 10;
      assert |Decimal(n / 10 / 10)| == 1;
    }
  }

  lemma MulAssociates(x: int, y: int, z: int)
    ensures x * (y * z) == (x * y) * z
  {}

  lemma {:induction false} CapacityAdds(i: nat, j: nat)
    ensures Capacity(i + j) == Capacity(i) * Capacity(j)
  {
    if i > 0 {
      CapacityAdds(i - 1, j);
      MulAssociates(256, Capacity(i - 1), Capacity(j));
    }
  }

  lemma AmountIsShort(n: nat)
    requires n < TWO256
    ensures |Decimal(n)| <= 96
  {
    Capacities();
    CapacityAdds(8, 8);
    CapacityAdds(16, 8);
    CapacityAdds(24, 8);
    DecimalIsShort(n, 32);
  }

  lemma LotIsShort(l: P.CoinLot)
    requires P.IsInt64(l.acquiredAt) && |l.amount| <= 96
    ensures P.WireLot(l) && |P.LotField(l)| <= 150
  {
    P.VarintIsShort(|l.amount|);
    P.VarintIsShort(P.ToU64(l.acquiredAt));
    P.VarintIsShort(|P.EncodeLot(l)|);
  }

  lemma {:induction false} LotsAreShort(lots: seq<P.CoinLot>)
    requires forall i :: 0 <= i < |lots| ==> P.IsInt64(lots[i].acquiredAt) && |lots[i].amount| <= 96
    ensures P.WireLots(lots) && |P.EncodeLots(lots)| <= 150 * |lots|
  {
    forall i | 0 <= i < |lots|
      ensures P.WireLot(lots[i])
    {
      LotIsShort(lots[i]);
    }
    if lots != [] {
      LotIsShort(lots[0]);
      LotsAreShort(lots[1..]);
    }
  }

  /** A queue within the ledger's length limit, of int64 dates and 256-bit amounts, under an address of any sane length,
      is always writable. */
  lemma OrdinaryRecordsFit(a: Address, q: Queue)
    requires |a| < TWO32 && |q| <= PEAK_LIMIT && Storable(q)
    ensures Fits(a, q)
  {
    var lots := ToWire(q);
    forall i | 0 <= i < |lots|
      ensures P.IsInt64(lots[i].acquiredAt) && |lots[i].amount| <= 96
    {
      AmountIsShort(q[i].amount);
    }
    LotsAreShort(lots);
    P.VarintIsShort(|a|);
  }

  // ----- ordinary runs never panic

  /** Every holder's tracked coin is a 256-bit amount. */
  predicate CoinFits(ages: Ages) {
    forall a :: a in ages ==> TotalLots(ages[a]) < TWO256
  }

  predicate ShortAddresses(op: Op) {
    match op
    case AddCoins(a, _, _) => |a| < TWO32
    case Transfer(from, to, _) => |from| < TWO32 && |to| < TWO32
    case Redeem(a, _) => |a| < TWO32
    case UpdateParams(_) => true
    case NewBlock(_) => true
  }

  /** At every point the block time is an int64 and every holder's coin a 256-bit amount. */
  predicate Ordinary(s: State, ops: seq<Op>)
    decreases |ops|
  {
    && s.now < TWO63 && CoinFits(s.ages)
    && (ops == [] || (ShortAddresses(ops[0]) && Ordinary(Step(s, ops[0]), ops[1..])))
  }

  lemma {:induction false} LotWithinTotal(q: Queue, i: nat)
    requires i < |q|
    ensures q[i].amount <= TotalLots(q)
  {
    if i > 0 {
      LotWithinTotal(q[1..], i - 1);
    }
  }

  lemma GoodQueueFits(a: Address, q: Queue, peak: nat, floor: int, now: int)
    requires |a| < TWO32 && |q| <= peak <= PEAK_LIMIT && Within(q, floor, now) && -TWO63 <= floor && now < TWO63
    requires TotalLots(q) < TWO256
    ensures Fits(a, q)
  {
    forall i | 0 <= i < |q|
      ensures q[i].amount < TWO256 && P.IsInt64(q[i].acquiredAt)
    {
      LotWithinTotal(q, i);
    }
    OrdinaryRecordsFit(a, q);
  }

  lemma CreditLives(r: Raw, ages: Ages, was: Store, a: Address, amount: int, at: int, maxLots: nat,
                    peak: nat, floor: int, now: int)
    requires r.Live? && StandsFor(r, ages, was) && |a| < TWO32 && -TWO63 <= floor && now < TWO63
    requires GoodAges(ages, peak, floor, now) && floor <= at <= now && 2 <= maxLots <= peak <= PEAK_LIMIT
    requires TotalLots(QueueOf(Credited(ages, a, amount, at, maxLots), a)) < TWO256
    ensures RawCredited(r, a, amount, at, maxLots).Live?
  {
    if amount > 0 {
      CreditedIsGood(ages, a, amount, at, maxLots, peak, floor, now);
      GoodQueueFits(a, QueueOf(Credited(ages, a, amount, at, maxLots), a), peak, floor, now);
    }
  }

  lemma {:induction false} CreditsLive(r: Raw, ages: Ages, was: Store, a: Address, lots: Queue, maxLots: nat,
                                       peak: nat, floor: int, now: int)
    requires r.Live? && StandsFor(r, ages, was) && |a| < TWO32 && -TWO63 <= floor && now < TWO63
    requires GoodAges(ages, peak, floor, now) && Within(lots, floor, now) && 2 <= maxLots <= peak <= PEAK_LIMIT
    requires TotalLots(QueueOf(CreditedAll(ages, a, lots, maxLots), a)) < TWO256
    ensures RawCreditedAll(r, a, lots, maxLots).Live?
    decreases |lots|
  {
    if lots != [] {
      var l := lots[0];
      var next := Credited(ages, a, l.amount, l.acquiredAt, maxLots);
      CreditedIsGood(ages, a, l.amount, l.acquiredAt, maxLots, peak, floor, now);
      CreditedAllIsGood(next, a, lots[1..], maxLots, peak, floor, now);
      CreditLives(r, ages, was, a, l.amount, l.acquiredAt, maxLots, peak, floor, now);
      CreditStandsFor(r, ages, was, a, l.amount, l.acquiredAt, maxLots);
      CreditsLive(RawCredited(r, a, l.amount, l.acquiredAt, maxLots), next, was, a, lots[1..], maxLots, peak, floor, now);
    }
  }

  lemma SpendLives(r: Raw, ages: Ages, was: Store, a: Address, amount: nat, peak: nat, floor: int, now: int)
    requires r.Live? && StandsFor(r, ages, was) && |a| < TWO32 && -TWO63 <= floor && now < TWO63
    requires GoodAges(ages, peak, floor, now) && peak <= PEAK_LIMIT && CoinFits(ages)
    ensures RawSpent(r, a, amount).Live?
  {
    var q := QueueOf(ages, a);
    SpentIsGood(ages, a, amount, peak, floor, now);
    SpendTotals(q, amount, now);
    GoodQueueFits(a, QueueOf(Spent(ages, a, amount), a), peak, floor, now);
  }

  lemma TransferLives(r: Raw, s: State, was: Store, from: Address, to: Address, n: nat, peak: nat, floor: int)
    requires r.Live? && StandsFor(r, s.ages, was) && Inv(s, peak, floor) && floor <= Boundary(s) && -TWO63 <= floor
    requires |from| < TWO32 && |to| < TWO32 && s.now < TWO63 && CoinFits(s.ages) && CoinFits(AgesAfterTransfer(s, from, to, n))
    ensures RawCreditedAll(RawSpent(r, from, n), to, Consumed(Get(r, from), n, Boundary(s)), s.params.maxLots).Live?
  {
    var q := QueueOf(s.ages, from);
    SpendLives(r, s.ages, was, from, n, peak, floor, s.now);
    SpendStandsFor(r, s.ages, was, from, n);
    SpentIsGood(s.ages, from, n, peak, floor, s.now);
    SpendKeepsDates(q, n, floor, s.now, Boundary(s));
    CreditsLive(RawSpent(r, from, n), Spent(s.ages, from, n), was, to, Consumed(q, n, Boundary(s)), s.params.maxLots,
                peak, floor, s.now);
  }

  lemma StepLives(r: Raw, s: State, op: Op, was: Store, peak: nat, floor: int)
    requires r.Live? && StandsFor(r, s.ages, was) && Inv(s, peak, floor) && Admissible(s, op, peak, floor)
    requires -TWO63 <= floor && s.now < TWO63 && ShortAddresses(op) && CoinFits(s.ages) && CoinFits(Step(s, op).ages)
    ensures RawStep(r, s, op).Live?
  {
    match op {
      case AddCoins(a, n, at) => CreditLives(r, s.ages, was, a, n, at, s.params.maxLots, peak, floor, s.now);
      case Transfer(from, to, n) =>
        if n > 0 && Send(s.bank, from, to, n).Sent? {
          TransferLives(r, s, was, from, to, n, peak, floor);
        }
      case Redeem(a, n) =>
        if n > 0 {
          SpendLives(r, s.ages, was, a, n, peak, floor, s.now);
        }
      case UpdateParams(_) =>
      case NewBlock(_) =>
    }
  }

  lemma {:induction false} RunLives(r: Raw, s: State, ops: seq<Op>, was: Store, peak: nat, floor: int)
    requires r.Live? && StandsFor(r, s.ages, was) && Inv(s, peak, floor) && AdmissibleRun(s, ops, peak, floor)
    requires -TWO63 <= floor && Ordinary(s, ops)
    ensures RawRun(r, s, ops).Live?
    decreases |ops|
  {
    if ops != [] {
      StepLives(r, s, ops[0], was, peak, floor);
      StepStandsFor(r, s, ops[0], was);
      StepKeepsInvariant(s, ops[0], peak, floor);
      RunLives(RawStep(r, s, ops[0]), Step(s, ops[0]), ops[1..], was, peak, floor);
    }
  }

  /** No ordinary run panics, so its bytes always end up reading as the ledger's queues. */
  lemma OrdinaryRunRefinesLedger(store: Store, s: State, ops: seq<Op>, peak: nat, floor: int)
    requires Represents(store, s.ages) && Inv(s, peak, floor) && AdmissibleRun(s, ops, peak, floor)
    requires -TWO63 <= floor && Ordinary(s, ops)
    ensures var end := RawRun(Live(store), s, ops);
            && end.Live?
            && (forall a :: RawQueue(end.store, a) == QueueOf(Run(s, ops).ages, a))
            && (forall day, did :: CounterOf(end.store, day, did) == CounterOf(store, day, did))
  {
    RunLives(Live(store), s, ops, store, peak, floor);
    RawRunRefinesLedger(store, s, ops);
  }

  /** Tracked coin below 2^256 across all holders is enough for each of them. */
  lemma GrandBoundsEachHolder(ages: Ages)
    requires Grand(Amount, ages) < TWO256
    ensures CoinFits(ages)
  {
    forall a | a in ages
      ensures TotalLots(ages[a]) < TWO256
    {
      EntryWithinSum(PerHolder(Amount, ages), a);
    }
  }
}
