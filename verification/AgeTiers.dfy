/**
 The early-redemption penalty by age alone: which lots are charged at which rate, in seconds against the threshold.
 */
module AgeTiers {
  import opened CoinAge
  import opened CoinAgeTheorems

  /** A lot more costs its amount at the rate of its age in seconds, rounded down. */
  lemma {:induction false} OneMoreLotCosts(q: Queue, n: nat, at: int, now: int, p: Tiers)
    ensures PenaltyForLots(q + [Lot(n, at)], now, p)
         == PenaltyForLots(q, now, p) + n * (if now - at >= p.threshold then p.oldBps else p.youngBps) / 10_000
    decreases |q|
  {
    if q == [] {
      assert q + [Lot(n, at)] == [Lot(n, at)] + [];
      PenaltyHead(Lot(n, at), [], now, p);
    } else {
      OneMoreLotCosts(q[1..], n, at, now, p);
      assert q + [Lot(n, at)] == [q[0]] + (q[1..] + [Lot(n, at)]);
      PenaltyHead(q[0], q[1..] + [Lot(n, at)], now, p);
    }
  }

  /** Every lot at one rate, each rounded down. */
  function Flat(q: Queue, bps: nat): nat {
    if q == [] then 0 else Flat(q[..|q|-1], bps) + q[|q|-1].amount * bps / 10_000
  }

  predicate Aged(q: Queue, now: int, threshold: int) {
    forall i :: 0 <= i < |q| ==> now - q[i].acquiredAt >= threshold
  }

  predicate Young(q: Queue, now: int, threshold: int) {
    forall i :: 0 <= i < |q| ==> now - q[i].acquiredAt < threshold
  }

  lemma {:induction false} OneTierIsFlat(q: Queue, now: int, p: Tiers)
    ensures Aged(q, now, p.threshold) ==> PenaltyForLots(q, now, p) == Flat(q, p.oldBps)
    ensures Young(q, now, p.threshold) ==> PenaltyForLots(q, now, p) == Flat(q, p.youngBps)
    decreases |q|
  {
    if q != [] {
      var t, l := q[..|q|-1], q[|q|-1];
      OneTierIsFlat(t, now, p);
      assert q == t + [Lot(l.amount, l.acquiredAt)];
      OneMoreLotCosts(t, l.amount, l.acquiredAt, now, p);
    }
  }

  lemma {:induction false} PenaltyAppends(q: Queue, t: Queue, now: int, p: Tiers)
    ensures PenaltyForLots(q + t, now, p) == PenaltyForLots(q, now, p) + PenaltyForLots(t, now, p)
    decreases |q|
  {
    if q == [] {
      assert q + t == t;
    } else {
      PenaltyAppends(q[1..], t, now, p);
      assert q + t == [q[0]] + (q[1..] + t);
      PenaltyHead(q[0], q[1..] + t, now, p);
    }
  }

  /** What a spend consumes of a lot is dated as that lot was. */
  lemma {:induction false} ConsumedKeepsTheTier(q: Queue, amount: nat, boundary: int, now: int, threshold: int)
    requires amount <= TotalLots(q)
    ensures Aged(q, now, threshold) ==> Aged(Consumed(q, amount, boundary), now, threshold)
    ensures Young(q, now, threshold) ==> Young(Consumed(q, amount, boundary), now, threshold)
    decreases |q|
  {
    if amount > 0 && q[0].amount <= amount {
      ConsumedKeepsTheTier(q[1..], amount - q[0].amount, boundary, now, threshold);
      assert Aged(q, now, threshold) ==> Aged(q[1..], now, threshold);
      assert Young(q, now, threshold) ==> Young(q[1..], now, threshold);
    }
  }

  /** A spend that the first part of a queue covers stays in it. */
  lemma {:induction false} ConsumedWithin(q: Queue, t: Queue, amount: nat, boundary: int)
    requires amount <= TotalLots(q)
    ensures Consumed(q + t, amount, boundary) == Consumed(q, amount, boundary)
    decreases |q|
  {
    if amount > 0 {
      assert (q + t)[1..] == q[1..] + t;
      if q[0].amount <= amount {
        ConsumedWithin(q[1..], t, amount - q[0].amount, boundary);
      }
    }
  }

  /** One that it does not cover takes all of it and goes on. */
  lemma {:induction false} ConsumedBeyond(q: Queue, t: Queue, amount: nat, boundary: int)
    requires amount > TotalLots(q)
    ensures Consumed(q + t, amount, boundary) == q + Consumed(t, amount - TotalLots(q), boundary)
    decreases |q|
  {
    if q == [] {
      assert q + t == t;
    } else {
      assert (q + t)[1..] == q[1..] + t;
      ConsumedBeyond(q[1..], t, amount - q[0].amount, boundary);
    }
  }

  lemma AllConsumed(q: Queue, amount: nat, boundary: int)
    requires amount > TotalLots(q)
    ensures Consumed(q, amount, boundary) == q + [Lot(amount - TotalLots(q), boundary)]
  {
    ConsumedBeyond(q, [], amount, boundary);
    assert q + [] == q;
  }

  lemma OldCoinCosts(aged: Queue, young: Queue, amount: nat, now: int, p: Tiers)
    requires Aged(aged, now, p.threshold) && amount <= TotalLots(aged)
    ensures RedeemPenalty(aged + young, amount, now, p) == Flat(Consumed(aged, amount, now - p.threshold), p.oldBps)
  {
    ConsumedWithin(aged, young, amount, now - p.threshold);
    ConsumedKeepsTheTier(aged, amount, now - p.threshold, now, p.threshold);
    OneTierIsFlat(Consumed(aged, amount, now - p.threshold), now, p);
  }

  lemma YoungCoinCosts(aged: Queue, young: Queue, amount: nat, now: int, p: Tiers)
    requires Aged(aged, now, p.threshold) && Young(young, now, p.threshold)
    requires TotalLots(aged) < amount <= TotalLots(aged) + TotalLots(young)
    ensures RedeemPenalty(aged + young, amount, now, p)
         == Flat(aged, p.oldBps) + Flat(Consumed(young, amount - TotalLots(aged), now - p.threshold), p.youngBps)
  {
    var edge, rest := now - p.threshold, amount - TotalLots(aged);
    ConsumedBeyond(aged, young, amount, edge);
    PenaltyAppends(aged, Consumed(young, rest, edge), now, p);
    ConsumedKeepsTheTier(young, rest, edge, now, p.threshold);
    OneTierIsFlat(aged, now, p);
    OneTierIsFlat(Consumed(young, rest, edge), now, p);
  }

  lemma TwoTiersCost(aged: Queue, young: Queue, now: int, p: Tiers)
    requires Aged(aged, now, p.threshold) && Young(young, now, p.threshold)
    ensures PenaltyForLots(aged + young, now, p) == Flat(aged, p.oldBps) + Flat(young, p.youngBps)
  {
    PenaltyAppends(aged, young, now, p);
    OneTierIsFlat(aged, now, p);
    OneTierIsFlat(young, now, p);
  }

  /** The untracked rest is charged as old coin. */
  lemma SurplusCoinCosts(q: Queue, amount: nat, now: int, p: Tiers)
    requires TotalLots(q) < amount
    ensures RedeemPenalty(q, amount, now, p) == PenaltyForLots(q, now, p) + (amount - TotalLots(q)) * p.oldBps / 10_000
  {
    AllConsumed(q, amount, now - p.threshold);
    OneMoreLotCosts(q, amount - TotalLots(q), now - p.threshold, now, p);
  }

  /**
   A redemption from a queue whose first k lots have reached the threshold in age and whose others have not: the old lots
   pay the old rate, the younger ones the young rate, and what the queue cannot cover the old rate.
   */
  lemma RedemptionCostsByAge(q: Queue, k: nat, amount: nat, now: int, p: Tiers)
    requires k <= |q| && Aged(q[..k], now, p.threshold) && Young(q[k..], now, p.threshold)
    ensures var aged, young, edge := q[..k], q[k..], now - p.threshold;
            var o, y := TotalLots(aged), TotalLots(young);
            RedeemPenalty(q, amount, now, p)
            == if amount <= o then Flat(Consumed(aged, amount, edge), p.oldBps)
               else if amount <= o + y then Flat(aged, p.oldBps) + Flat(Consumed(young, amount - o, edge), p.youngBps)
               else Flat(aged, p.oldBps) + Flat(young, p.youngBps) + (amount - o - y) * p.oldBps / 10_000
  {
    var aged, young := q[..k], q[k..];
    assert aged + young == q;
    if amount <= TotalLots(aged) {
      OldCoinCosts(aged, young, amount, now, p);
    } else if amount <= TotalLots(aged) + TotalLots(young) {
      YoungCoinCosts(aged, young, amount, now, p);
    } else {
      SumsAppend(aged, young);
      SurplusCoinCosts(q, amount, now, p);
      TwoTiersCost(aged, young, now, p);
    }
  }

  /** Every oldest-first queue has such a k. */
  lemma OldLotsComeFirst(q: Queue, now: int, threshold: int) returns (k: nat)
    requires OldestFirst(q)
    ensures k <= |q| && Aged(q[..k], now, threshold) && Young(q[k..], now, threshold)
  {
    k := 0;
    while k < |q| && now - q[k].acquiredAt >= threshold
      invariant 0 <= k <= |q| && Aged(q[..k], now, threshold)
    {
      k := k + 1;
    }
  }
}
