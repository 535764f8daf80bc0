/**
 When oldest-first is the cheapest choice for the penalty the code charges, which x/coin/types/coin_age.go floors lot by
 lot.
 */
module FlooredPenalty {
  import opened Arith
  import opened CoinAge
  import opened CoinAgeTheorems

  predicate NoneAfter(q: Queue, now: int) {
    forall i :: 0 <= i < |q| ==> q[i].acquiredAt <= now
  }

  /** No queue the ledger can hold has an allocation with a smaller floored penalty than oldest-first. */
  ghost predicate AlwaysCheapest(p: Tiers) {
    forall q: Queue, take: seq<nat>, now: int :: OldestFirst(q) && NoneAfter(q, now) && IsAllocation(q, take)
      ==> RedeemPenalty(q, Sum(take), now, p) <= AllocationPenalty(q, take, now, p)
  }

  /** The rate of a coin acquired this very second, the dearest one a ledger can hold. */
  function FreshRate(p: Tiers): nat {
    if p.threshold > 0 then p.youngBps else p.oldBps
  }

  // ----- a positive rate always has a counterexample

  lemma ShareBounds(k: nat, r: nat)
    requires 0 < r < BPS_DENOMINATOR && k == (BPS_DENOMINATOR + r - 1) / r
    ensures (k - 1) * r < BPS_DENOMINATOR <= k * r && k >= 2
  {
    var x := BPS_DENOMINATOR + r - 1;
    assert x == k * r + x % r;
    assert (k - 1) * r == k * r - r;
    if k <= 1 {
      MulMono(k, 1, r);
    }
  }

  /** Two fresh lots, just enough to owe one uphi: taking one coin from the younger lot owes nothing. */
  lemma PositiveRateHasACheaperChoice(p: Tiers, now: int)
    requires 0 < FreshRate(p) < BPS_DENOMINATOR && p.threshold >= 0
    ensures var k := (BPS_DENOMINATOR + FreshRate(p) - 1) / FreshRate(p);
            var q, take := [Lot(k, now), Lot(1, now)], [k - 1, 1];
            && k >= 1 && OldestFirst(q) && NoneAfter(q, now) && IsAllocation(q, take) && Sum(take) == k
            && AllocationPenalty(q, take, now, p) == 0 < RedeemPenalty(q, Sum(take), now, p)
  {
    var r := FreshRate(p);
    var k := (BPS_DENOMINATOR + r - 1) / r;
    ShareBounds(k, r);
    var q: Queue, take: seq<nat> := [Lot(k, now), Lot(1, now)], [k - 1, 1];
    assert BpsOf(q[0], now, p) == r && BpsOf(q[1], now, p) == r;
    assert q[1..] == [Lot(1, now)] && take[1..] == [1] && q[1..][1..] == [] && take[1..][1..] == [];
    assert AllocationPenalty(q[1..], take[1..], now, p) == 0;
    assert AllocationPenalty(q, take, now, p) == (k - 1) * r / BPS_DENOMINATOR;
    assert Sum(take[1..]) == 1;
    var edge := now - p.threshold;
    assert Consumed(q, k, edge) == [q[0]] + Consumed(q[1..], 0, edge) == [Lot(k, now)];
    PenaltySingle(k, now, now, p);
    assert k * r / BPS_DENOMINATOR >= 1;
  }

  // ----- a zero rate has none

  lemma {:induction false} ZeroRatesCostNothing(q: Queue, amount: int, now: int, p: Tiers)
    requires (forall i :: 0 <= i < |q| ==> BpsOf(q[i], now, p) == 0) && p.oldBps == 0
    ensures PenaltyForLots(Consumed(q, amount, now - p.threshold), now, p) == 0
    decreases |q|
  {
    var edge := now - p.threshold;
    if amount > 0 && q != [] && q[0].amount <= amount {
      ZeroRatesCostNothing(q[1..], amount - q[0].amount, now, p);
      PenaltyHead(q[0], Consumed(q[1..], amount - q[0].amount, edge), now, p);
    } else if amount > 0 {
      PenaltySingle(amount, if q == [] then edge else q[0].acquiredAt, now, p);
    }
  }

  /**
   Under validated rates with old coin no dearer than young, oldest-first is always cheapest exactly when even fresh
   coin is free.
   */
  lemma FlooredFifoIsOptimalIff(p: Tiers)
    requires ValidTiers(p) && p.oldBps <= p.youngBps
    ensures AlwaysCheapest(p) <==> FreshRate(p) == 0
  {
    if FreshRate(p) == 0 {
      forall q: Queue, take: seq<nat>, now: int | OldestFirst(q) && NoneAfter(q, now) && IsAllocation(q, take)
        ensures RedeemPenalty(q, Sum(take), now, p) <= AllocationPenalty(q, take, now, p)
      {
        ZeroRatesCostNothing(q, Sum(take), now, p);
      }
    } else {
      PositiveRateHasACheaperChoice(p, 0);
    }
  }

  // ----- queues for which it is optimal at any rate

  /** Redeeming more never costs less. */
  lemma {:induction false} PenaltyGrows(q: Queue, a: nat, b: nat, now: int, p: Tiers)
    requires a <= b
    ensures RedeemPenalty(q, a, now, p) <= RedeemPenalty(q, b, now, p)
    decreases |q|
  {
    var edge := now - p.threshold;
    if a > 0 {
      if q == [] {
        PenaltySingle(a, edge, now, p);
        PenaltySingle(b, edge, now, p);
        FloorGrows(a, b, BpsOf(Lot(a, edge), now, p));
      } else if q[0].amount <= a {
        PenaltyGrows(q[1..], a - q[0].amount, b - q[0].amount, now, p);
        PenaltyHead(q[0], Consumed(q[1..], a - q[0].amount, edge), now, p);
        PenaltyHead(q[0], Consumed(q[1..], b - q[0].amount, edge), now, p);
      } else {
        PartOfFirstLot(q, a, b, now, p);
      }
    }
  }

  lemma FloorGrows(a: nat, b: nat, r: nat)
    requires a <= b
    ensures a * r / BPS_DENOMINATOR <= b * r / BPS_DENOMINATOR
  {
    MulMono(a, b, r);
  }

  lemma PartOfFirstLot(q: Queue, a: nat, b: nat, now: int, p: Tiers)
    requires q != [] && 0 < a <= b && a < q[0].amount
    ensures RedeemPenalty(q, a, now, p) <= RedeemPenalty(q, b, now, p)
  {
    var edge, r := now - p.threshold, BpsOf(q[0], now, p);
    PenaltySingle(a, q[0].acquiredAt, now, p);
    if q[0].amount <= b {
      PenaltyHead(q[0], Consumed(q[1..], b - q[0].amount, edge), now, p);
      FloorGrows(a, q[0].amount, r);
    } else {
      PenaltySingle(b, q[0].acquiredAt, now, p);
      FloorGrows(a, b, r);
    }
  }

  predicate AtMostOneCharged(q: Queue, now: int, p: Tiers) {
    forall i, j :: 0 <= i < j < |q| ==> BpsOf(q[i], now, p) == 0 || BpsOf(q[j], now, p) == 0
  }

  /** The head of a queue is free, so what counts is what is taken behind it. */
  lemma FreeHead(q: Queue, amount: nat, now: int, p: Tiers)
    requires q != [] && BpsOf(q[0], now, p) == 0
    ensures RedeemPenalty(q, amount, now, p) == RedeemPenalty(q[1..], Max(amount - q[0].amount, 0), now, p)
  {
    var edge := now - p.threshold;
    if amount > 0 {
      if q[0].amount <= amount {
        PenaltyHead(q[0], Consumed(q[1..], amount - q[0].amount, edge), now, p);
      } else {
        PenaltySingle(amount, q[0].acquiredAt, now, p);
      }
    }
  }

  lemma RatesGrow(l: Lot, l': Lot, now: int, p: Tiers)
    requires l.acquiredAt <= l'.acquiredAt && p.oldBps <= p.youngBps
    ensures BpsOf(l, now, p) <= BpsOf(l', now, p)
  {}

  lemma ChargedHeadIsAlone(q: Queue, now: int, p: Tiers)
    requires q != [] && OldestFirst(q) && p.oldBps <= p.youngBps && AtMostOneCharged(q, now, p)
    requires BpsOf(q[0], now, p) > 0
    ensures |q| == 1
  {
    if |q| > 1 {
      RatesGrow(q[0], q[1], now, p);
    }
  }

  lemma OneLot(l: Lot, t: nat, now: int, p: Tiers)
    requires t <= l.amount
    ensures RedeemPenalty([l], t, now, p) == t * BpsOf(l, now, p) / BPS_DENOMINATOR
  {
    var edge := now - p.threshold;
    if t > 0 {
      assert Consumed([l][1..], 0, edge) == [];
      assert Consumed([l], t, edge) == [Lot(t, l.acquiredAt)];
      PenaltySingle(t, l.acquiredAt, now, p);
    }
  }

  /** With at most one lot at a positive rate, oldest-first is cheapest among all allocations. */
  lemma {:induction false} OneChargedLotIsOptimal(q: Queue, take: seq<nat>, now: int, p: Tiers)
    requires OldestFirst(q) && p.oldBps <= p.youngBps && IsAllocation(q, take) && AtMostOneCharged(q, now, p)
    ensures RedeemPenalty(q, Sum(take), now, p) <= AllocationPenalty(q, take, now, p)
    decreases |q|
  {
    if q == [] {
      assert RedeemPenalty(q, 0, now, p) == 0;
    } else if BpsOf(q[0], now, p) > 0 {
      ChargedHeadIsAlone(q, now, p);
      assert q == [q[0]] && take == [take[0]] && take[1..] == [] && q[1..] == [];
      OneLot(q[0], take[0], now, p);
    } else {
      OneChargedLotIsOptimal(q[1..], take[1..], now, p);
      FreeHead(q, Sum(take), now, p);
      PenaltyGrows(q[1..], Max(Sum(take) - q[0].amount, 0), Sum(take[1..]), now, p);
    }
  }

  /** A redemption too small to owe a whole uphi anywhere owes nothing. */
  lemma {:induction false} SmallRedemptionIsFree(q: Queue, amount: nat, now: int, p: Tiers)
    requires p.oldBps <= p.youngBps && amount * p.youngBps < BPS_DENOMINATOR
    ensures RedeemPenalty(q, amount, now, p) == 0
    decreases |q|
  {
    var edge := now - p.threshold;
    if amount > 0 {
      if q != [] && q[0].amount <= amount {
        SmallShare(q[0].amount, amount, BpsOf(q[0], now, p), p.youngBps);
        MulMono(amount - q[0].amount, amount, p.youngBps);
        SmallRedemptionIsFree(q[1..], amount - q[0].amount, now, p);
        PenaltyHead(q[0], Consumed(q[1..], amount - q[0].amount, edge), now, p);
      } else {
        var at := if q == [] then edge else q[0].acquiredAt;
        PenaltySingle(amount, at, now, p);
        SmallShare(amount, amount, BpsOf(Lot(amount, at), now, p), p.youngBps);
      }
    }
  }

  lemma SmallShare(n: nat, amount: nat, r: nat, top: nat)
    requires n <= amount && r <= top && amount * top < BPS_DENOMINATOR
    ensures n * r / BPS_DENOMINATOR == 0
  {
    MulMono(n, amount, r);
    MulMono(r, top, amount);
  }
}
