/**
 The multi-holder coin-age ledger: x/coin/keeper/keeper.go and x/coin/keeper/msg_server.go over the queue
 operations of CoinAge. The keeper is a class whose methods update the records; each method is proved
 equal to a step of a state machine, and the theorems range over every run of that machine.
 */
module Ledger {
  import opened Arith
  import Bytes
  import opened CoinAge
  import opened CoinAgeTheorems
  import opened MapSums
  import opened Bank

  type Ages = map<Address, Queue>

  datatype Params = Params(tiers: Tiers, maxLots: nat)

  const MIN_COIN_AGE_LOTS := 2
  const MAX_COIN_AGE_LOTS_CEILING := 1024

  /** The coin-age clauses of Params.Validate. */
  predicate ValidParams(p: Params) {
    ValidTiers(p.tiers) && MIN_COIN_AGE_LOTS <= p.maxLots <= MAX_COIN_AGE_LOTS_CEILING
  }

  datatype State = State(ages: Ages, bank: Balances, now: int, params: Params)

  function QueueOf(ages: Ages, a: Address): Queue {
    if a in ages then ages[a] else []
  }

  /** SetCoinAge: an empty queue leaves no record. */
  function Stored(ages: Ages, a: Address, q: Queue): Ages {
    if |q| == 0 then ages - {a} else ages[a := q]
  }

  function Credited(ages: Ages, a: Address, amount: int, at: int, maxLots: nat): Ages {
    if amount <= 0 then ages else Stored(ages, a, Inserted(QueueOf(ages, a), Lot(amount, at), maxLots))
  }

  function CreditedAll(ages: Ages, a: Address, lots: Queue, maxLots: nat): Ages
    decreases |lots|
  {
    if lots == [] then ages
    else CreditedAll(Credited(ages, a, lots[0].amount, lots[0].acquiredAt, maxLots), a, lots[1..], maxLots)
  }

  function Spent(ages: Ages, a: Address, amount: int): Ages {
    Stored(ages, a, Remaining(QueueOf(ages, a), amount))
  }

  function Boundary(s: State): int { s.now - s.params.tiers.threshold }

  /** The age records after a transfer: spend from the sender, credit every consumed lot to the recipient. */
  function AgesAfterTransfer(s: State, from: Address, to: Address, amount: int): Ages {
    CreditedAll(Spent(s.ages, from, amount), to, Consumed(QueueOf(s.ages, from), amount, Boundary(s)), s.params.maxLots)
  }

  datatype Op =
    | AddCoins(holder: Address, amount: int, at: int)
    | Transfer(from: Address, to: Address, amount: int)
    | Redeem(holder: Address, amount: int)
    | UpdateParams(params: Params)
    | NewBlock(time: int)

  /** One step; a refused operation leaves the state as it was. */
  function Step(s: State, op: Op): State {
    match op
    case AddCoins(a, n, at) => s.(ages := Credited(s.ages, a, n, at, s.params.maxLots))
    case Transfer(from, to, n) =>
      if n <= 0 then s
      else
        (match Send(s.bank, from, to, n)
         case Refused => s
         case Sent(b) => s.(bank := b, ages := AgesAfterTransfer(s, from, to, n)))
    case Redeem(a, n) => if n <= 0 then s else s.(ages := Spent(s.ages, a, n))
    case UpdateParams(p) => if ValidParams(p) then s.(params := p) else s
    case NewBlock(t) => s.(now := t)
  }

  function Run(s: State, ops: seq<Op>): State
    decreases |ops|
  {
    if ops == [] then s else Run(Step(s, ops[0]), ops[1..])
  }

  // ----- the keeper

  class Keeper {
    var ages: Ages
    var bank: Balances
    var now: int
    var params: Params

    constructor (s: State)
      ensures View() == s
    {
      ages, bank, now, params := s.ages, s.bank, s.now, s.params;
    }

    ghost function View(): State
      reads this
    {
      State(ages, bank, now, params)
    }

    method GetCoinAge(a: Address) returns (q: Queue)
      ensures q == QueueOf(ages, a)
    {
      q := if a in ages then ages[a] else [];
    }

    method SetCoinAge(a: Address, q: Queue)
      modifies this`ages
      ensures ages == Stored(old(ages), a, q)
    {
      if |q| == 0 {
        ages := ages - {a};
        return;
      }
      ages := ages[a := q];
    }

    method AddCoins(a: Address, amount: int, at: int)
      modifies this`ages
      ensures View() == Step(old(View()), Op.AddCoins(a, amount, at))
    {
      if !(amount > 0) {
        return;
      }
      var lots := GetCoinAge(a);
      lots := InsertLot(lots, Lot(amount, at), params.maxLots);
      SetCoinAge(a, lots);
    }

    method SpendOldestFirst(a: Address, amount: int) returns (consumed: Queue)
      modifies this`ages
      ensures ages == Spent(old(ages), a, amount)
      ensures consumed == Consumed(QueueOf(old(ages), a), amount, Boundary(View()))
    {
      var lots := GetCoinAge(a);
      var remaining;
      consumed, remaining := CoinAge.SpendOldestFirst(lots, amount, now, params.tiers.threshold);
      SetCoinAge(a, remaining);
    }

    method EarlyRedeemPenalty(a: Address, amount: int) returns (penalty: nat)
      modifies this`ages
      ensures View() == Step(old(View()), Redeem(a, amount))
      ensures penalty == RedeemPenalty(QueueOf(old(ages), a), amount, now, params.tiers)
    {
      if !(amount > 0) {
        return 0;
      }
      var consumed := SpendOldestFirst(a, amount);
      penalty := ComputePenalty(consumed, now, params.tiers);
    }

    method Transfer(from: Address, to: Address, amount: int) returns (ok: bool)
      modifies this`ages, this`bank
      ensures View() == Step(old(View()), Op.Transfer(from, to, amount))
      ensures ok <==> 0 < amount <= At(old(bank), from)
    {
      if !(amount > 0) {
        return false;
      }
      var sent := Send(bank, from, to, amount);
      if sent.Refused? {
        return false;
      }
      bank := sent.balances;
      var lots := SpendOldestFirst(from, amount);
      for i := 0 to |lots|
        invariant bank == sent.balances
        invariant CreditedAll(ages, to, lots[i..], params.maxLots)
               == CreditedAll(Spent(old(ages), from, amount), to, lots, params.maxLots)
      {
        assert lots[i..][0] == lots[i] && lots[i..][1..] == lots[i+1..];
        AddCoins(to, lots[i].amount, lots[i].acquiredAt);
      }
      ok := true;
    }
  }

  // ----- what every step keeps

  /** A stored queue: never empty, oldest first, no longer than `peak`, dated within [floor, now]. */
  predicate GoodQueue(q: Queue, peak: nat, floor: int, now: int) {
    q != [] && OldestFirst(q) && |q| <= peak && Within(q, floor, now)
  }

  predicate GoodAges(ages: Ages, peak: nat, floor: int, now: int) {
    forall a :: a in ages ==> GoodQueue(ages[a], peak, floor, now)
  }

  /** Validated caps stay far below this; past it a queue's length no longer fits the uint32 it is compared in. */
  const PEAK_LIMIT: nat := Bytes.TWO32 - 2

  predicate Inv(s: State, peak: nat, floor: int) {
    && ValidParams(s.params) && s.params.maxLots <= peak <= PEAK_LIMIT
    && ValidBalances(s.bank)
    && GoodAges(s.ages, peak, floor, s.now)
  }

  /** What the environment promises: no coin dated in the future or before `floor`, block time never
      falls, and no cap above `peak`. */
  predicate Admissible(s: State, op: Op, peak: nat, floor: int) {
    match op
    case AddCoins(_, _, at) => floor <= at <= s.now
    case Transfer(_, _, _) => floor <= Boundary(s)
    case Redeem(_, _) => true
    case UpdateParams(p) => p.maxLots <= peak
    case NewBlock(t) => s.now <= t
  }

  predicate AdmissibleRun(s: State, ops: seq<Op>, peak: nat, floor: int)
    decreases |ops|
  {
    ops == [] || (Admissible(s, ops[0], peak, floor) && AdmissibleRun(Step(s, ops[0]), ops[1..], peak, floor))
  }

  lemma CreditedIsGood(ages: Ages, a: Address, amount: int, at: int, maxLots: nat, peak: nat, floor: int, now: int)
    requires GoodAges(ages, peak, floor, now) && floor <= at <= now && 2 <= maxLots <= peak <= PEAK_LIMIT
    ensures var r := Credited(ages, a, amount, at, maxLots);
            && GoodAges(r, peak, floor, now)
            && r - {a} == ages - {a}
            && TotalLots(QueueOf(r, a)) == TotalLots(QueueOf(ages, a)) + Max(amount, 0)
            && Moment(QueueOf(r, a)) >= Moment(QueueOf(ages, a)) + Max(amount, 0) * at
  {
    if amount > 0 {
      InsertProperties(QueueOf(ages, a), Lot(amount, at), maxLots, floor, now);
    }
  }

  lemma {:induction false} CreditedAllIsGood(ages: Ages, a: Address, lots: Queue, maxLots: nat, peak: nat, floor: int, now: int)
    requires GoodAges(ages, peak, floor, now) && Within(lots, floor, now) && 2 <= maxLots <= peak <= PEAK_LIMIT
    ensures var r := CreditedAll(ages, a, lots, maxLots);
            && GoodAges(r, peak, floor, now)
            && r - {a} == ages - {a}
            && TotalLots(QueueOf(r, a)) == TotalLots(QueueOf(ages, a)) + TotalLots(lots)
            && Moment(QueueOf(r, a)) >= Moment(QueueOf(ages, a)) + Moment(lots)
    decreases |lots|
  {
    if lots != [] {
      CreditedIsGood(ages, a, lots[0].amount, lots[0].acquiredAt, maxLots, peak, floor, now);
      CreditedAllIsGood(Credited(ages, a, lots[0].amount, lots[0].acquiredAt, maxLots), a, lots[1..], maxLots, peak, floor, now);
    }
  }

  lemma SpentIsGood(ages: Ages, a: Address, amount: int, peak: nat, floor: int, now: int)
    requires GoodAges(ages, peak, floor, now)
    ensures GoodAges(Spent(ages, a, amount), peak, floor, now)
    ensures Spent(ages, a, amount) - {a} == ages - {a}
    ensures QueueOf(Spent(ages, a, amount), a) == Remaining(QueueOf(ages, a), amount)
  {
    SpendKeepsDates(QueueOf(ages, a), amount, floor, now, now);
  }

  /** The two halves of a transfer: the sender's queue after the spend, then the recipient's after the credits. */
  lemma TransferHalves(s: State, from: Address, to: Address, amount: nat, peak: nat, floor: int)
    requires Inv(s, peak, floor) && floor <= Boundary(s)
    ensures var q, spent, r := QueueOf(s.ages, from), Spent(s.ages, from, amount), AgesAfterTransfer(s, from, to, amount);
            && GoodAges(r, peak, floor, s.now)
            && spent - {from} == s.ages - {from} && r - {to} == spent - {to}
            && QueueOf(spent, from) == Remaining(q, amount)
            && TotalLots(Remaining(q, amount)) == TotalLots(q) - Min(amount, TotalLots(q))
            && TotalLots(QueueOf(r, to)) == TotalLots(QueueOf(spent, to)) + amount
  {
    var q := QueueOf(s.ages, from);
    SpentIsGood(s.ages, from, amount, peak, floor, s.now);
    SpendTotals(q, amount, Boundary(s));
    SpendKeepsDates(q, amount, floor, s.now, Boundary(s));
    CreditedAllIsGood(Spent(s.ages, from, amount), to, Consumed(q, amount, Boundary(s)), s.params.maxLots, peak, floor, s.now);
  }

  lemma QueueElsewhere(ages: Ages, ages': Ages, a: Address, b: Address)
    requires ages - {a} == ages' - {a} && b != a
    ensures QueueOf(ages, b) == QueueOf(ages', b) && (b in ages <==> b in ages')
  {
    assert b in ages - {a} <==> b in ages;
    assert b in ages' - {a} <==> b in ages';
    if b in ages {
      assert (ages - {a})[b] == ages[b] && (ages' - {a})[b] == ages'[b];
    }
  }

  /** A transfer with from != to credits the recipient exactly `amount`, debits the sender exactly
      min(amount, tracked), and touches no other holder; a self-transfer only tracks the surplus. */
  lemma TransferMovesExactly(s: State, from: Address, to: Address, amount: nat, peak: nat, floor: int)
    requires Inv(s, peak, floor) && floor <= Boundary(s)
    ensures var r, had := AgesAfterTransfer(s, from, to, amount), TotalLots(QueueOf(s.ages, from));
            && (from != to ==>
                  && TotalLots(QueueOf(r, to)) == TotalLots(QueueOf(s.ages, to)) + amount
                  && TotalLots(QueueOf(r, from)) == had - Min(amount, had)
                  && QueueOf(r, from) == Remaining(QueueOf(s.ages, from), amount))
            && (from == to ==> TotalLots(QueueOf(r, to)) == Max(amount, had))
            && forall a :: a != from && a != to ==> QueueOf(r, a) == QueueOf(s.ages, a)
  {
    var spent, r := Spent(s.ages, from, amount), AgesAfterTransfer(s, from, to, amount);
    TransferHalves(s, from, to, amount, peak, floor);
    if from != to {
      QueueElsewhere(spent, r, to, from);
      QueueElsewhere(s.ages, spent, from, to);
    }
    forall a | a != from && a != to
      ensures QueueOf(r, a) == QueueOf(s.ages, a)
    {
      QueueElsewhere(spent, r, to, a);
      QueueElsewhere(s.ages, spent, from, a);
    }
  }

  lemma StepKeepsInvariant(s: State, op: Op, peak: nat, floor: int)
    requires Inv(s, peak, floor) && Admissible(s, op, peak, floor)
    ensures Inv(Step(s, op), peak, floor)
  {
    match op
    case AddCoins(a, n, at) =>
      CreditedIsGood(s.ages, a, n, at, s.params.maxLots, peak, floor, s.now);
    case Transfer(from, to, n) =>
      if n > 0 && Send(s.bank, from, to, n).Sent? {
        TransferHalves(s, from, to, n, peak, floor);
        SendConserves(s.bank, from, to, n);
      }
    case Redeem(a, n) =>
      SpentIsGood(s.ages, a, n, peak, floor, s.now);
    case UpdateParams(_) =>
    case NewBlock(_) =>
  }

  /** Over every run: stored queues stay non-empty, oldest-first, within the largest cap ever in force,
      and dated between `floor` and the current block. */
  lemma {:induction false} RunKeepsInvariant(s: State, ops: seq<Op>, peak: nat, floor: int)
    requires Inv(s, peak, floor) && AdmissibleRun(s, ops, peak, floor)
    ensures Inv(Run(s, ops), peak, floor)
    decreases |ops|
  {
    if ops != [] {
      StepKeepsInvariant(s, ops[0], peak, floor);
      RunKeepsInvariant(Step(s, ops[0]), ops[1..], peak, floor);
    }
  }

  /** Under int64: with block time and threshold small enough to add up, none of the subtractions the
      queue operations make on stored dates can leave the int64 range, over every run. */
  lemma RunStaysInInt64(s: State, ops: seq<Op>, peak: nat, floor: int, a: Address, b: Address, i: nat, j: nat)
    requires Inv(s, peak, floor) && AdmissibleRun(s, ops, peak, floor)
    requires floor <= 0 <= Run(s, ops).now && Run(s, ops).now - floor < 0x8000_0000_0000_0000
    requires i < |QueueOf(Run(s, ops).ages, a)| && j < |QueueOf(Run(s, ops).ages, b)|
    ensures var end := Run(s, ops);
            var x, y := QueueOf(end.ages, a)[i].acquiredAt, QueueOf(end.ages, b)[j].acquiredAt;
            && 0 <= end.now - x < 0x8000_0000_0000_0000
            && -0x8000_0000_0000_0000 <= x - y < 0x8000_0000_0000_0000
  {
    RunKeepsInvariant(s, ops, peak, floor);
    var end := Run(s, ops);
    assert GoodQueue(end.ages[a], peak, floor, end.now) && GoodQueue(end.ages[b], peak, floor, end.now);
  }

  // ----- coin and age across all holders

  datatype Measure = Amount | Age

  function Measured(m: Measure, q: Queue): int {
    match m
    case Amount => TotalLots(q)
    case Age => Moment(q)
  }

  function PerHolder(m: Measure, ages: Ages): map<Address, int> {
    map a | a in ages :: Measured(m, ages[a])
  }

  /** The tracked uphi, or the age moment, of all holders together. */
  ghost function Grand(m: Measure, ages: Ages): int {
    SumOf(PerHolder(m, ages))
  }

  lemma PerHolderWithout(m: Measure, ages: Ages, a: Address)
    ensures PerHolder(m, ages) - {a} == PerHolder(m, ages - {a})
    ensures At(PerHolder(m, ages), a) == Measured(m, QueueOf(ages, a))
  {}

  /** Changing one holder's queue changes both aggregates by that holder's change alone. */
  lemma GrandFrame(ages: Ages, ages': Ages, a: Address)
    requires ages' - {a} == ages - {a}
    ensures Grand(Amount, ages') == Grand(Amount, ages) - TotalLots(QueueOf(ages, a)) + TotalLots(QueueOf(ages', a))
    ensures Grand(Age, ages') == Grand(Age, ages) - Moment(QueueOf(ages, a)) + Moment(QueueOf(ages', a))
  {
    forall m: Measure
      ensures Grand(m, ages') == Grand(m, ages) - Measured(m, QueueOf(ages, a)) + Measured(m, QueueOf(ages', a))
    {
      SumWithout(PerHolder(m, ages), a);
      SumWithout(PerHolder(m, ages'), a);
      PerHolderWithout(m, ages, a);
      PerHolderWithout(m, ages', a);
    }
  }

  /** The part of a spend the queue cannot cover. */
  function Surplus(q: Queue, amount: int): nat {
    Max(Max(amount, 0) - TotalLots(q), 0)
  }

  lemma {:induction false} SpendSplitsTheMoment(q: Queue, amount: int, boundary: int)
    ensures Moment(Consumed(q, amount, boundary)) + Moment(Remaining(q, amount))
         == Moment(q) + Surplus(q, amount) * boundary
    decreases |q|
  {
    if amount <= 0 {
    } else if q == [] {
      HeadOf(Lot(amount, boundary), []);
    } else if q[0].amount <= amount {
      SpendSplitsTheMoment(q[1..], amount - q[0].amount, boundary);
      HeadOf(q[0], Consumed(q[1..], amount - q[0].amount, boundary));
    } else {
      HeadOf(Lot(amount, q[0].acquiredAt), []);
      HeadOf(Lot(q[0].amount - amount, q[0].acquiredAt), q[1..]);
      Distribute(amount, q[0].amount - amount, q[0].acquiredAt);
    }
  }

  function Weight(m: Measure, n: int, at: int): int {
    match m
    case Amount => n
    case Age => n * at
  }

  /** What an operation brings into the tracked set (negative when it takes coin out): an insertion brings
      its lot, a transfer only its untracked surplus, a redemption takes the oldest coins away. */
  function Brought(m: Measure, s: State, op: Op): int {
    match op
    case AddCoins(_, n, at) => if n <= 0 then 0 else Weight(m, n, at)
    case Transfer(from, to, n) =>
      if n <= 0 || Send(s.bank, from, to, n).Refused? then 0
      else Weight(m, Surplus(QueueOf(s.ages, from), n), Boundary(s))
    case Redeem(a, n) =>
      if n <= 0 then 0
      else
        var q := QueueOf(s.ages, a);
        Weight(m, Surplus(q, n), Boundary(s)) - Measured(m, Consumed(q, n, Boundary(s)))
    case UpdateParams(_) => 0
    case NewBlock(_) => 0
  }

  function BroughtByRun(m: Measure, s: State, ops: seq<Op>): int
    decreases |ops|
  {
    if ops == [] then 0 else Brought(m, s, ops[0]) + BroughtByRun(m, Step(s, ops[0]), ops[1..])
  }

  /** From `ages` to `ages'` the tracked coin grew by exactly `amount` and the moment by at least `moment`. */
  ghost predicate MovedBy(ages: Ages, ages': Ages, amount: int, moment: int) {
    && Grand(Amount, ages') == Grand(Amount, ages) + amount
    && Grand(Age, ages') >= Grand(Age, ages) + moment
  }

  lemma InsertMovesTheAggregate(s: State, a: Address, n: int, at: int, peak: nat, floor: int)
    requires Inv(s, peak, floor) && floor <= at <= s.now && n > 0
    ensures MovedBy(s.ages, Credited(s.ages, a, n, at, s.params.maxLots), n, n * at)
  {
    CreditedIsGood(s.ages, a, n, at, s.params.maxLots, peak, floor, s.now);
    GrandFrame(s.ages, Credited(s.ages, a, n, at, s.params.maxLots), a);
  }

  lemma SpendMovesTheAggregate(s: State, a: Address, n: nat, peak: nat, floor: int)
    requires Inv(s, peak, floor)
    ensures var q := QueueOf(s.ages, a);
            var lots, extra := Consumed(q, n, Boundary(s)), Surplus(q, n);
            && TotalLots(lots) == n
            && MovedBy(s.ages, Spent(s.ages, a, n), extra - n, extra * Boundary(s) - Moment(lots))
  {
    var q := QueueOf(s.ages, a);
    SpentIsGood(s.ages, a, n, peak, floor, s.now);
    SpendTotals(q, n, Boundary(s));
    SpendSplitsTheMoment(q, n, Boundary(s));
    GrandFrame(s.ages, Spent(s.ages, a, n), a);
  }

  lemma TransferMovesTheAggregate(s: State, from: Address, to: Address, n: nat, peak: nat, floor: int)
    requires Inv(s, peak, floor) && floor <= Boundary(s)
    ensures var extra := Surplus(QueueOf(s.ages, from), n);
            MovedBy(s.ages, AgesAfterTransfer(s, from, to, n), extra, extra * Boundary(s))
  {
    var q, spent := QueueOf(s.ages, from), Spent(s.ages, from, n);
    var lots := Consumed(q, n, Boundary(s));
    SpendMovesTheAggregate(s, from, n, peak, floor);
    SpentIsGood(s.ages, from, n, peak, floor, s.now);
    SpendKeepsDates(q, n, floor, s.now, Boundary(s));
    CreditedAllIsGood(spent, to, lots, s.params.maxLots, peak, floor, s.now);
    GrandFrame(spent, AgesAfterTransfer(s, from, to, n), to);
  }

  lemma StepMovesTheAggregate(s: State, op: Op, peak: nat, floor: int)
    requires Inv(s, peak, floor) && Admissible(s, op, peak, floor)
    ensures MovedBy(s.ages, Step(s, op).ages, Brought(Amount, s, op), Brought(Age, s, op))
  {
    match op
    case AddCoins(a, n, at) =>
      if n > 0 { InsertMovesTheAggregate(s, a, n, at, peak, floor); }
    case Transfer(from, to, n) =>
      if n > 0 && Send(s.bank, from, to, n).Sent? {
        TransferMovesTheAggregate(s, from, to, n, peak, floor);
      }
    case Redeem(a, n) =>
      if n > 0 { SpendMovesTheAggregate(s, a, n, peak, floor); }
    case UpdateParams(_) =>
    case NewBlock(_) =>
  }

  /** Over every run, tracked uphi is conserved exactly up to what entered or left, and the coin of all
      holders together is never reported older than what entered or left says it is. */
  lemma {:induction false} RunNeverManufacturesAge(s: State, ops: seq<Op>, peak: nat, floor: int)
    requires Inv(s, peak, floor) && AdmissibleRun(s, ops, peak, floor)
    ensures Grand(Amount, Run(s, ops).ages) == Grand(Amount, s.ages) + BroughtByRun(Amount, s, ops)
    ensures Grand(Age, Run(s, ops).ages) >= Grand(Age, s.ages) + BroughtByRun(Age, s, ops)
    decreases |ops|
  {
    if ops != [] {
      StepKeepsInvariant(s, ops[0], peak, floor);
      StepMovesTheAggregate(s, ops[0], peak, floor);
      RunNeverManufacturesAge(Step(s, ops[0]), ops[1..], peak, floor);
    }
  }
}
