/**
 Transfers coin by coin: the recipient gets the sender's oldest coins with their own dates. Read off the unit coins of
 the queues, so that nothing is said about how a transfer credits its lots.
 */
module CoinTransfers {
  import opened Arith
  import opened Bank
  import opened CoinAge
  import opened CoinAgeTheorems
  import opened Ledger
  import opened MapSums

  // ----- one insertion

  lemma {:induction false} CoinsAppend(q: Queue, t: Queue)
    ensures Coins(q + t) == Coins(q) + Coins(t)
    decreases |q|
  {
    if q == [] {
      assert q + t == t;
    } else {
      CoinsAppend(q[1..], t);
      assert q + t == [q[0]] + (q[1..] + t);
      CoinsHead(q[0], q[1..] + t);
      Regroup(Copies(q[0].amount, q[0].acquiredAt), Coins(q[1..]), Coins(t));
    }
  }

  lemma CoinsOfOne(l: Lot)
    ensures Coins([l]) == Copies(l.amount, l.acquiredAt)
  {
    CoinsHead(l, []);
    assert [l] + [] == [l];
  }

  lemma PlacedCoins(q: Queue, l: Lot)
    ensures multiset(Coins(Placed(q, l))) == multiset(Coins(q)) + multiset(Copies(l.amount, l.acquiredAt))
  {
    var pos := InsertPos(q, l.acquiredAt);
    var a, b := q[..pos], q[pos..];
    assert q == a + b;
    CoinsAppend(a, b);
    CoinsAppend(a + [l], b);
    CoinsAppend(a, [l]);
    CoinsOfOne(l);
  }

  /** A queue with room for one more lot only gains its coins. */
  lemma InsertedCoins(q: Queue, l: Lot, maxLots: nat)
    requires l.amount > 0 ==> |q| < EffectiveCap(maxLots)
    ensures var r := Inserted(q, l, maxLots);
            && multiset(Coins(r)) == multiset(Coins(q)) + multiset(Copies(l.amount, l.acquiredAt))
            && |r| == |q| + (if l.amount > 0 then 1 else 0)
  {
    if l.amount > 0 {
      PlacedCoins(q, l);
      BoundedLength(Placed(q, l), maxLots);
    }
  }

  // ----- the credits of a transfer

  /** How many of the lots hold any coin. */
  function Positives(lots: Queue): nat {
    if lots == [] then 0 else (if lots[0].amount > 0 then 1 else 0) + Positives(lots[1..])
  }

  lemma CreditCarriesTheCoins(ages: Ages, a: Address, l: Lot, maxLots: nat)
    requires l.amount > 0 ==> |QueueOf(ages, a)| < EffectiveCap(maxLots)
    ensures var q, r := QueueOf(ages, a), QueueOf(Credited(ages, a, l.amount, l.acquiredAt, maxLots), a);
            && multiset(Coins(r)) == multiset(Coins(q)) + multiset(Copies(l.amount, l.acquiredAt))
            && |r| == |q| + (if l.amount > 0 then 1 else 0)
  {
    InsertedCoins(QueueOf(ages, a), l, maxLots);
  }

  lemma {:induction false} CreditsCarryTheCoins(ages: Ages, a: Address, lots: Queue, maxLots: nat)
    requires |QueueOf(ages, a)| + Positives(lots) <= EffectiveCap(maxLots)
    ensures var q, r := QueueOf(ages, a), QueueOf(CreditedAll(ages, a, lots, maxLots), a);
            multiset(Coins(r)) == multiset(Coins(q)) + multiset(Coins(lots))
    decreases |lots|
  {
    if lots != [] {
      var l := lots[0];
      CreditCarriesTheCoins(ages, a, l, maxLots);
      CreditsCarryTheCoins(Credited(ages, a, l.amount, l.acquiredAt, maxLots), a, lots[1..], maxLots);
    }
  }

  lemma {:induction false} CreditsStayHere(ages: Ages, a: Address, lots: Queue, maxLots: nat)
    ensures CreditedAll(ages, a, lots, maxLots) - {a} == ages - {a}
    decreases |lots|
  {
    if lots != [] {
      CreditsStayHere(Credited(ages, a, lots[0].amount, lots[0].acquiredAt, maxLots), a, lots[1..], maxLots);
    }
  }

  // ----- a transfer

  /** The first `n` coins, as far as there are that many. */
  function Taken(c: seq<int>, n: nat): seq<int> { c[..Min(n, |c|)] }

  function Left(c: seq<int>, n: nat): seq<int> { c[Min(n, |c|)..] }

  function Missing(c: seq<int>, n: nat): nat { Max(n - |c|, 0) }

  /** The coins a payment of `n` takes from a queue: its first ones, and coins at the tier boundary for the rest. */
  function Payment(q: Queue, n: nat, boundary: int): seq<int> { Taken(Coins(q), n) + Copies(Missing(Coins(q), n), boundary) }

  /** The coins it leaves. */
  function Kept(q: Queue, n: nat): seq<int> { Left(Coins(q), n) }

  predicate Pays(s: State, from: Address, to: Address, n: int) { n > 0 && Send(s.bank, from, to, n).Sent? }

  /** The recipient has room for the lots a transfer brings. */
  predicate HasRoom(s: State, from: Address, to: Address, n: int) {
    |QueueOf(Spent(s.ages, from, n), to)| + Positives(Consumed(QueueOf(s.ages, from), n, Boundary(s)))
    <= EffectiveCap(s.params.maxLots)
  }

  lemma CutAt(c: seq<int>, n: nat, k: nat, boundary: int)
    requires k == Min(n, |c|)
    ensures Taken(c, n) + Copies(Missing(c, n), boundary) == c[..k] + Copies(n - k, boundary) && Left(c, n) == c[k..]
  {}

  lemma SpendPays(q: Queue, n: nat, boundary: int)
    ensures Coins(Consumed(q, n, boundary)) == Payment(q, n, boundary)
    ensures Coins(Remaining(q, n)) == Kept(q, n)
  {
    var k := Min(n, TotalLots(q));
    SpendTakesTheOldestCoins(q, n, boundary);
    CutAt(Coins(q), n, k, boundary);
  }

  lemma SpentHere(ages: Ages, a: Address, n: nat)
    ensures Spent(ages, a, n) - {a} == ages - {a}
    ensures QueueOf(Spent(ages, a, n), a) == Remaining(QueueOf(ages, a), n)
  {}

  /** The queues a transfer to somebody else leaves alone, and the sender's. */
  lemma TransferElsewhere(s: State, from: Address, to: Address, n: nat, a: Address)
    requires from != to
    ensures var after := AgesAfterTransfer(s, from, to, n);
            && QueueOf(after, from) == Remaining(QueueOf(s.ages, from), n)
            && QueueOf(Spent(s.ages, from, n), to) == QueueOf(s.ages, to)
            && (a != from && a != to ==> QueueOf(after, a) == QueueOf(s.ages, a))
  {
    var spent, after := Spent(s.ages, from, n), AgesAfterTransfer(s, from, to, n);
    SpentHere(s.ages, from, n);
    CreditsStayHere(spent, to, Consumed(QueueOf(s.ages, from), n, Boundary(s)), s.params.maxLots);
    QueueElsewhere(s.ages, spent, from, to);
    QueueElsewhere(spent, after, to, from);
    if a != from && a != to {
      QueueElsewhere(s.ages, spent, from, a);
      QueueElsewhere(spent, after, to, a);
    }
  }

  lemma PaidStep(s: State, from: Address, to: Address, n: nat)
    requires Pays(s, from, to, n)
    ensures Step(s, Transfer(from, to, n)).ages == AgesAfterTransfer(s, from, to, n)
  {}

  lemma RecipientGains(s: State, from: Address, to: Address, n: nat)
    requires HasRoom(s, from, to, n)
    ensures multiset(Coins(QueueOf(AgesAfterTransfer(s, from, to, n), to)))
         == multiset(Coins(QueueOf(Spent(s.ages, from, n), to))) + multiset(Payment(QueueOf(s.ages, from), n, Boundary(s)))
  {
    var q := QueueOf(s.ages, from);
    SpendPays(q, n, Boundary(s));
    CreditsCarryTheCoins(Spent(s.ages, from, n), to, Consumed(q, n, Boundary(s)), s.params.maxLots);
  }

  /** To somebody else: the sender keeps its younger coins in order, and the recipient holds its own coins and exactly
      the coins of the payment, each with its date; nobody else's queue changes. */
  lemma TransferCarriesTheCoins(s: State, from: Address, to: Address, n: nat, a: Address)
    requires Pays(s, from, to, n) && from != to && HasRoom(s, from, to, n)
    ensures var q, after := QueueOf(s.ages, from), Step(s, Transfer(from, to, n)).ages;
            && Coins(QueueOf(after, from)) == Kept(q, n)
            && multiset(Coins(QueueOf(after, to))) == multiset(Coins(QueueOf(s.ages, to))) + multiset(Payment(q, n, Boundary(s)))
            && (a != from && a != to ==> QueueOf(after, a) == QueueOf(s.ages, a))
  {
    PaidStep(s, from, to, n);
    TransferElsewhere(s, from, to, n, a);
    SpendPays(QueueOf(s.ages, from), n, Boundary(s));
    RecipientGains(s, from, to, n);
  }

  lemma SplitCoins(c: seq<int>, n: nat)
    ensures multiset(c) == multiset(Taken(c, n)) + multiset(Left(c, n))
  {
    assert c == Taken(c, n) + Left(c, n);
  }

  /** The coins of the queue, and the part of the payment it does not cover. */
  function WithRest(q: Queue, n: nat, boundary: int): multiset<int> {
    multiset(Coins(q)) + multiset(Copies(Missing(Coins(q), n), boundary))
  }

  /** What a payment takes, what it leaves and the coins before are the same coins but for the untracked rest. */
  lemma PaymentSplits(q: Queue, n: nat, boundary: int)
    ensures multiset(Kept(q, n)) + multiset(Payment(q, n, boundary)) == WithRest(q, n, boundary)
  {
    SplitCoins(Coins(q), n);
  }

  lemma SpentKeeps(ages: Ages, a: Address, n: nat, boundary: int)
    ensures multiset(Coins(QueueOf(Spent(ages, a, n), a))) + multiset(Payment(QueueOf(ages, a), n, boundary))
         == WithRest(QueueOf(ages, a), n, boundary)
  {
    SpentHere(ages, a, n);
    SpendPays(QueueOf(ages, a), n, boundary);
    PaymentSplits(QueueOf(ages, a), n, boundary);
  }

  /** To oneself: no coin changes its date, and only the untracked rest is added. */
  lemma SelfTransferKeepsTheCoins(s: State, a: Address, n: nat)
    requires Pays(s, a, a, n) && HasRoom(s, a, a, n)
    ensures multiset(Coins(QueueOf(Step(s, Transfer(a, a, n)).ages, a))) == WithRest(QueueOf(s.ages, a), n, Boundary(s))
  {
    PaidStep(s, a, a, n);
    RecipientGains(s, a, a, n);
    SpentKeeps(s.ages, a, n, Boundary(s));
  }

  // ----- a transfer that has to merge

  lemma InsertRaisesTheMoment(q: Queue, l: Lot, maxLots: nat, lo: int, hi: int)
    requires OldestFirst(q) && Within(q, lo, hi) && lo <= l.acquiredAt <= hi && l.amount > 0
    ensures var r := Inserted(q, l, maxLots);
            && |r| <= |q| + 1
            && Moment(r) <= Moment(q) + l.amount * l.acquiredAt + (|q| + 1 - |r|) * TotalLots(r)
  {
    PlacedOrder(q, l, lo, hi);
    PlacedTotals(q, l);
    BoundedProperties(Placed(q, l), maxLots, lo, hi);
  }

  /** Two steps, each raising a moment by at most a total for each merge, raise it by at most the larger total for each. */
  lemma RaisesAdd(m0: int, m1: int, m2: int, w1: int, w2: int, n1: nat, n2: nat, t1: nat, t2: nat)
    requires m1 <= m0 + w1 + n1 * t1 && m2 <= m1 + w2 + n2 * t2 && t1 <= t2
    ensures m2 <= m0 + (w1 + w2) + (n1 + n2) * t2
  {
    MulMono(t1, t2, n1);
    Distribute(n1, n2, t2);
  }

  /** What `lots` may at most make of the moment of `q`, when it becomes `r`. */
  predicate RaisedBy(q: Queue, lots: Queue, r: Queue) {
    var merges := |q| + Positives(lots) - |r|;
    merges >= 0 && Moment(r) <= Moment(q) + Moment(lots) + merges * TotalLots(r)
  }

  lemma HeadAndRest(l: Lot, rest: Queue)
    ensures Moment([l] + rest) == Moment([l]) + Moment(rest) && Positives([l] + rest) == Positives([l]) + Positives(rest)
  {
    HeadOf(l, []);
    HeadOf(l, rest);
    assert [l] + [] == [l] && [l][1..] == [] && ([l] + rest)[1..] == rest;
  }

  lemma RaisedInTurn(q: Queue, l: Lot, r1: Queue, rest: Queue, r: Queue)
    requires RaisedBy(q, [l], r1) && RaisedBy(r1, rest, r) && TotalLots(r1) <= TotalLots(r)
    ensures RaisedBy(q, [l] + rest, r)
  {
    HeadAndRest(l, rest);
    var n1, n2, t := |q| + Positives([l]) - |r1|, |r1| + Positives(rest) - |r|, TotalLots(r);
    RaisesAdd(Moment(q), Moment(r1), Moment(r), Moment([l]), Moment(rest), n1, n2, TotalLots(r1), t);
    assert |q| + Positives([l] + rest) - |r| == n1 + n2;
    assert Moment(r) <= Moment(q) + Moment([l] + rest) + (n1 + n2) * t;
  }

  /** One credit: at most the recipient's total more for each merge. */
  lemma CreditRaisesTheMoment(ages: Ages, a: Address, l: Lot, maxLots: nat, peak: nat, floor: int, now: int)
    requires GoodAges(ages, peak, floor, now) && floor <= l.acquiredAt <= now
    ensures RaisedBy(QueueOf(ages, a), [l], QueueOf(Credited(ages, a, l.amount, l.acquiredAt, maxLots), a))
  {
    HeadOf(l, []);
    assert [l] + [] == [l] && [l][1..] == [];
    if l.amount > 0 {
      InsertRaisesTheMoment(QueueOf(ages, a), l, maxLots, floor, now);
    }
  }

  lemma {:induction false} CreditsRaiseTheMoment(ages: Ages, a: Address, lots: Queue, maxLots: nat, peak: nat, floor: int, now: int)
    requires GoodAges(ages, peak, floor, now) && Within(lots, floor, now) && 2 <= maxLots <= peak <= PEAK_LIMIT
    ensures RaisedBy(QueueOf(ages, a), lots, QueueOf(CreditedAll(ages, a, lots, maxLots), a))
    decreases |lots|
  {
    if lots != [] {
      var l := lots[0];
      var next := Credited(ages, a, l.amount, l.acquiredAt, maxLots);
      CreditRaisesTheMoment(ages, a, l, maxLots, peak, floor, now);
      CreditedIsGood(ages, a, l.amount, l.acquiredAt, maxLots, peak, floor, now);
      CreditsRaiseTheMoment(next, a, lots[1..], maxLots, peak, floor, now);
      CreditedAllIsGood(next, a, lots[1..], maxLots, peak, floor, now);
      assert lots == [l] + lots[1..];
      RaisedInTurn(QueueOf(ages, a), l, QueueOf(next, a), lots[1..], QueueOf(CreditedAll(ages, a, lots, maxLots), a));
    }
  }

  /** The dates of the coins a transfer should make of a recipient's queue `t`, added up. */
  function DueMoment(t: Queue, q: Queue, n: nat, boundary: int): int {
    SumInts(Coins(t)) + SumInts(Payment(q, n, boundary))
  }

  lemma DueIsTheMoment(t: Queue, q: Queue, n: nat, boundary: int)
    ensures DueMoment(t, q, n, boundary) == Moment(t) + Moment(Consumed(q, n, boundary))
  {
    SpendPays(q, n, boundary);
    MomentIsTheSumOfCoins(t);
    MomentIsTheSumOfCoins(Consumed(q, n, boundary));
  }

  lemma TransferRaisesTheMoment(s: State, from: Address, to: Address, n: nat, peak: nat, floor: int)
    requires Inv(s, peak, floor) && floor <= Boundary(s) && from != to
    ensures var t, lots := QueueOf(s.ages, to), Consumed(QueueOf(s.ages, from), n, Boundary(s));
            var r := QueueOf(AgesAfterTransfer(s, from, to, n), to);
            RaisedBy(t, lots, r) && Moment(t) + Moment(lots) <= Moment(r)
  {
    var q, spent := QueueOf(s.ages, from), Spent(s.ages, from, n);
    var lots := Consumed(q, n, Boundary(s));
    SpentIsGood(s.ages, from, n, peak, floor, s.now);
    SpendKeepsDates(q, n, floor, s.now, Boundary(s));
    TransferElsewhere(s, from, to, n, from);
    CreditedAllIsGood(spent, to, lots, s.params.maxLots, peak, floor, s.now);
    CreditsRaiseTheMoment(spent, to, lots, s.params.maxLots, peak, floor, s.now);
  }

  /** Full or not: on the whole the recipient's coin is no older than its own and the payment's, and younger by at most
      its total for each merge. */
  lemma TransferKeepsTheMoment(s: State, from: Address, to: Address, n: nat, peak: nat, floor: int)
    requires Inv(s, peak, floor) && floor <= Boundary(s) && Pays(s, from, to, n) && from != to
    ensures var q, t, r := QueueOf(s.ages, from), QueueOf(s.ages, to), QueueOf(Step(s, Transfer(from, to, n)).ages, to);
            var due, merges := DueMoment(t, q, n, Boundary(s)), |t| + Positives(Consumed(q, n, Boundary(s))) - |r|;
            merges >= 0 && due <= SumInts(Coins(r)) <= due + merges * TotalLots(r)
  {
    PaidStep(s, from, to, n);
    DueIsTheMoment(QueueOf(s.ages, to), QueueOf(s.ages, from), n, Boundary(s));
    TransferRaisesTheMoment(s, from, to, n, peak, floor);
    MomentIsTheSumOfCoins(QueueOf(AgesAfterTransfer(s, from, to, n), to));
  }

  // ----- every date, over every run that does not merge

  /** How many coins of date `t` a queue holds. */
  function Dated(q: Queue, t: int): nat { multiset(Coins(q))[t] }

  function DatedBy(ages: Ages, t: int): map<Address, int> { map a | a in ages :: Dated(ages[a], t) }

  /** How many coins of date `t` all holders have together. */
  ghost function Held(ages: Ages, t: int): int { SumOf(DatedBy(ages, t)) }

  lemma DatedByWithout(ages: Ages, t: int, a: Address)
    ensures DatedBy(ages, t) - {a} == DatedBy(ages - {a}, t)
    ensures At(DatedBy(ages, t), a) == Dated(QueueOf(ages, a), t)
  {}

  lemma HeldFrame(ages: Ages, ages': Ages, a: Address, t: int)
    requires ages' - {a} == ages - {a}
    ensures Held(ages', t) == Held(ages, t) - Dated(QueueOf(ages, a), t) + Dated(QueueOf(ages', a), t)
  {
    SumWithout(DatedBy(ages, t), a);
    SumWithout(DatedBy(ages', t), a);
    DatedByWithout(ages, t, a);
    DatedByWithout(ages', t, a);
  }

  lemma {:induction false} CopiesDated(n: nat, at: int, t: int)
    ensures multiset(Copies(n, at))[t] == if at == t then n else 0
    decreases n
  {
    if n > 0 {
      CopiesDated(n - 1, at, t);
      assert Copies(n, at) == Copies(n - 1, at) + [at];
    }
  }

  /** No queue outgrows its cap. */
  predicate Roomy(s: State, op: Op) {
    match op
    case AddCoins(a, n, _) => n > 0 ==> |QueueOf(s.ages, a)| < EffectiveCap(s.params.maxLots)
    case Transfer(from, to, n) => Pays(s, from, to, n) ==> HasRoom(s, from, to, n)
    case Redeem(_, _) => true
    case UpdateParams(_) => true
    case NewBlock(_) => true
  }

  predicate RoomyRun(s: State, ops: seq<Op>)
    decreases |ops|
  {
    ops == [] || (Roomy(s, ops[0]) && RoomyRun(Step(s, ops[0]), ops[1..]))
  }

  /** The coins of date `t` an operation brings in: an insertion its own, a transfer what the sender's queue lacks. */
  function Entering(s: State, op: Op, t: int): nat {
    match op
    case AddCoins(_, n, at) => if n > 0 && at == t then n else 0
    case Transfer(from, to, n) =>
      if Pays(s, from, to, n) && Boundary(s) == t then Missing(Coins(QueueOf(s.ages, from)), n) else 0
    case Redeem(_, _) => 0
    case UpdateParams(_) => 0
    case NewBlock(_) => 0
  }

  /** The coins of date `t` it takes out: a redemption the holder's oldest. */
  function Leaving(s: State, op: Op, t: int): nat {
    if op.Redeem? && op.amount > 0 then multiset(Taken(Coins(QueueOf(s.ages, op.holder)), op.amount))[t] else 0
  }

  lemma InsertionMovesDates(s: State, a: Address, n: nat, at: int, t: int)
    requires Roomy(s, AddCoins(a, n, at))
    ensures Held(Credited(s.ages, a, n, at, s.params.maxLots), t) == Held(s.ages, t) + if at == t then n else 0
  {
    var after := Credited(s.ages, a, n, at, s.params.maxLots);
    CreditCarriesTheCoins(s.ages, a, Lot(n, at), s.params.maxLots);
    CreditsStayHere(s.ages, a, [Lot(n, at)], s.params.maxLots);
    assert after - {a} == s.ages - {a};
    HeldFrame(s.ages, after, a, t);
    CopiesDated(n, at, t);
  }

  lemma SpendMovesDates(ages: Ages, a: Address, n: nat, t: int)
    ensures Held(Spent(ages, a, n), t) == Held(ages, t) - multiset(Taken(Coins(QueueOf(ages, a)), n))[t]
  {
    SpentHere(ages, a, n);
    SpendPays(QueueOf(ages, a), n, 0);
    HeldFrame(ages, Spent(ages, a, n), a, t);
    SplitCoins(Coins(QueueOf(ages, a)), n);
  }

  lemma TransferMovesDates(s: State, from: Address, to: Address, n: nat, t: int)
    requires HasRoom(s, from, to, n)
    ensures Held(AgesAfterTransfer(s, from, to, n), t)
         == Held(s.ages, t) + if Boundary(s) == t then Missing(Coins(QueueOf(s.ages, from)), n) else 0
  {
    var q, spent, after := QueueOf(s.ages, from), Spent(s.ages, from, n), AgesAfterTransfer(s, from, to, n);
    SpendMovesDates(s.ages, from, n, t);
    RecipientGains(s, from, to, n);
    CreditsStayHere(spent, to, Consumed(q, n, Boundary(s)), s.params.maxLots);
    HeldFrame(spent, after, to, t);
    CopiesDated(Missing(Coins(q), n), Boundary(s), t);
  }

  lemma StepMovesDates(s: State, op: Op, t: int)
    requires Roomy(s, op)
    ensures Held(Step(s, op).ages, t) == Held(s.ages, t) + Entering(s, op, t) - Leaving(s, op, t)
  {
    match op
    case AddCoins(a, n, at) =>
      if n > 0 { InsertionMovesDates(s, a, n, at, t); }
    case Transfer(from, to, n) =>
      if Pays(s, from, to, n) {
        PaidStep(s, from, to, n);
        TransferMovesDates(s, from, to, n, t);
      }
    case Redeem(a, n) =>
      if n > 0 { SpendMovesDates(s.ages, a, n, t); }
    case UpdateParams(_) =>
    case NewBlock(_) =>
  }

  function EnteringRun(s: State, ops: seq<Op>, t: int): nat
    decreases |ops|
  {
    if ops == [] then 0 else Entering(s, ops[0], t) + EnteringRun(Step(s, ops[0]), ops[1..], t)
  }

  function LeavingRun(s: State, ops: seq<Op>, t: int): nat
    decreases |ops|
  {
    if ops == [] then 0 else Leaving(s, ops[0], t) + LeavingRun(Step(s, ops[0]), ops[1..], t)
  }

  /** Over every run in which no queue outgrows its cap, the coins of each single date are conserved: what all holders
      have of it is what they had, and what entered, less what was redeemed. */
  lemma {:induction false} RunConservesEveryDate(s: State, ops: seq<Op>, t: int)
    requires RoomyRun(s, ops)
    ensures Held(Run(s, ops).ages, t) == Held(s.ages, t) + EnteringRun(s, ops, t) - LeavingRun(s, ops, t)
    decreases |ops|
  {
    if ops != [] {
      StepMovesDates(s, ops[0], t);
      RunConservesEveryDate(Step(s, ops[0]), ops[1..], t);
    }
  }
}
