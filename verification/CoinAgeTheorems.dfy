/**
 What the coin-age queue operations guarantee.

 Three independent readings of a queue carry the statements: its unit coins (one timestamp per uphi), its
 age moment (the sum of amount times timestamp) and its bps-weighted charge (the penalty before any floor).
 */
module CoinAgeTheorems {
  import opened Arith
  import Bytes
  import opened CoinAge

  predicate OldestFirst(q: Queue) {
    forall i, j :: 0 <= i < j < |q| ==> q[i].acquiredAt <= q[j].acquiredAt
  }

  predicate Within(q: Queue, lo: int, hi: int) {
    forall i :: 0 <= i < |q| ==> lo <= q[i].acquiredAt <= hi
  }

  // ----- unit coins: spending is taking a prefix

  function Copies(n: nat, at: int): seq<int> { seq(n, _ => at) }

  /** One timestamp per uphi, in queue order. */
  function Coins(q: Queue): seq<int> {
    if q == [] then [] else Copies(q[0].amount, q[0].acquiredAt) + Coins(q[1..])
  }

  lemma {:induction false} CoinsLength(q: Queue)
    ensures |Coins(q)| == TotalLots(q)
  {
    if q != [] { CoinsLength(q[1..]); }
  }

  lemma CoinsHead(l: Lot, rest: Queue)
    ensures Coins([l] + rest) == Copies(l.amount, l.acquiredAt) + Coins(rest)
  {
    assert ([l] + rest)[1..] == rest;
  }

  lemma CopiesSplit(n: nat, k: nat, at: int)
    requires k <= n
    ensures Copies(n, at) == Copies(k, at) + Copies(n - k, at)
  {}

  lemma Regroup(a: seq<int>, b: seq<int>, c: seq<int>)
    ensures (a + b) + c == a + (b + c)
  {}

  /** What a spend consumes, followed by what it leaves, is the queue followed by the untracked surplus. */
  lemma {:induction false} SpendCutsTheCoins(q: Queue, amount: nat, boundary: int)
    ensures Coins(Consumed(q, amount, boundary)) + Coins(Remaining(q, amount))
         == Coins(q) + Copies(Max(amount - TotalLots(q), 0), boundary)
    decreases |q|
  {
    if amount == 0 {
      assert [] + Coins(q) == Coins(q) + Copies(0, boundary);
    } else if q == [] {
      CoinsHead(Lot(amount, boundary), []);
    } else if q[0].amount <= amount {
      SpendCutsTheCoins(q[1..], amount - q[0].amount, boundary);
      WholeLotCutsTheCoins(q, amount, boundary);
    } else {
      PartialLotCutsTheCoins(q, amount, boundary);
    }
  }

  lemma WholeLotCutsTheCoins(q: Queue, amount: nat, boundary: int)
    requires q != [] && 0 < amount && q[0].amount <= amount
    requires var left := amount - q[0].amount;
             Coins(Consumed(q[1..], left, boundary)) + Coins(Remaining(q[1..], left))
             == Coins(q[1..]) + Copies(Max(left - TotalLots(q[1..]), 0), boundary)
    ensures Coins(Consumed(q, amount, boundary)) + Coins(Remaining(q, amount))
         == Coins(q) + Copies(Max(amount - TotalLots(q), 0), boundary)
  {
    var rest := Consumed(q[1..], amount - q[0].amount, boundary);
    var head := Copies(q[0].amount, q[0].acquiredAt);
    CoinsHead(q[0], rest);
    Regroup(head, Coins(rest), Coins(Remaining(q, amount)));
    Regroup(head, Coins(q[1..]), Copies(Max(amount - TotalLots(q), 0), boundary));
  }

  lemma PartialLotCutsTheCoins(q: Queue, amount: nat, boundary: int)
    requires q != [] && 0 < amount < q[0].amount
    ensures Coins(Consumed(q, amount, boundary)) + Coins(Remaining(q, amount)) == Coins(q) + Copies(0, boundary)
  {
    var at, n := q[0].acquiredAt, q[0].amount;
    CoinsHead(Lot(amount, at), []);
    CoinsHead(Lot(n - amount, at), q[1..]);
    CopiesSplit(n, amount, at);
    Regroup(Copies(amount, at), Copies(n - amount, at), Coins(q[1..]));
  }

  lemma TakePrefix(a: seq<int>, b: seq<int>, c: seq<int>, d: seq<int>)
    requires a + b == c + d && |a| <= |c|
    ensures a == c[..|a|] && b == c[|a|..] + d
  {
    assert a == (a + b)[..|a|] && b == (a + b)[|a|..];
  }

  /** Spending `amount` takes exactly the first `amount` coins of the queue, completed by coins dated at
      the old-tier boundary, and leaves exactly the other coins behind in order. */
  lemma SpendTakesTheOldestCoins(q: Queue, amount: nat, boundary: int)
    ensures |Coins(q)| == TotalLots(q)
    ensures var k := Min(amount, TotalLots(q));
            && Coins(Consumed(q, amount, boundary)) == Coins(q)[..k] + Copies(amount - k, boundary)
            && Coins(Remaining(q, amount)) == Coins(q)[k..]
  {
    var c, r := Coins(Consumed(q, amount, boundary)), Coins(Remaining(q, amount));
    CoinsLength(q);
    CoinsLength(Consumed(q, amount, boundary));
    CoinsLength(Remaining(q, amount));
    SpendTotals(q, amount, boundary);
    SpendCutsTheCoins(q, amount, boundary);
    if amount <= TotalLots(q) {
      TakePrefix(c, r, Coins(q), Copies(0, boundary));
    } else {
      assert r == [] && c == c + r;
    }
  }

  lemma {:induction false} SpendTotals(q: Queue, amount: int, boundary: int)
    ensures TotalLots(Consumed(q, amount, boundary)) == Max(amount, 0)
    ensures TotalLots(Remaining(q, amount)) == TotalLots(q) - Min(Max(amount, 0), TotalLots(q))
    decreases |q|
  {
    if amount <= 0 || q == [] {
    } else if q[0].amount <= amount {
      SpendTotals(q[1..], amount - q[0].amount, boundary);
      assert ([q[0]] + Consumed(q[1..], amount - q[0].amount, boundary))[1..] == Consumed(q[1..], amount - q[0].amount, boundary);
    } else {
      var left := [Lot(q[0].amount - amount, q[0].acquiredAt)] + q[1..];
      assert left[1..] == q[1..];
      assert [Lot(amount, q[0].acquiredAt)][1..] == [];
    }
  }

  /** Every consumed or remaining lot keeps the date of the lot it came from, and the order survives. */
  lemma {:induction false} SpendKeepsDates(q: Queue, amount: int, lo: int, hi: int, boundary: int)
    requires OldestFirst(q) && Within(q, lo, hi)
    ensures OldestFirst(Remaining(q, amount)) && Within(Remaining(q, amount), lo, hi)
    ensures |Remaining(q, amount)| <= |q|
    ensures lo <= boundary <= hi ==> Within(Consumed(q, amount, boundary), lo, hi)
    decreases |q|
  {
    if amount > 0 && q != [] && q[0].amount <= amount {
      SpendKeepsDates(q[1..], amount - q[0].amount, lo, hi, boundary);
    }
  }

  // ----- redeeming in parts

  lemma FloorSplit(x: int, y: int)
    ensures x / BPS_DENOMINATOR + y / BPS_DENOMINATOR
         <= (x + y) / BPS_DENOMINATOR
         <= x / BPS_DENOMINATOR + y / BPS_DENOMINATOR + 1
  {}

  /** The penalty EarlyRedeemPenalty charges for `amount` on queue `q`. */
  function RedeemPenalty(q: Queue, amount: int, now: int, p: Tiers): nat {
    PenaltyForLots(Consumed(q, amount, now - p.threshold), now, p)
  }

  lemma RemainingHead(l: Lot, rest: Queue, amount: nat)
    requires amount > 0
    ensures Remaining([l] + rest, amount)
         == if l.amount <= amount then Remaining(rest, amount - l.amount)
            else [Lot(l.amount - amount, l.acquiredAt)] + rest
  {
    assert ([l] + rest)[1..] == rest;
  }

  lemma {:induction false} SplitLeavesTheSameQueue(q: Queue, a: nat, b: nat)
    ensures Remaining(Remaining(q, a), b) == Remaining(q, a + b)
    decreases |q|
  {
    if a > 0 && b > 0 && q != [] {
      var l, rest := q[0], q[1..];
      assert q == [l] + rest;
      RemainingHead(l, rest, a);
      RemainingHead(l, rest, a + b);
      if l.amount <= a {
        SplitLeavesTheSameQueue(rest, a - l.amount, b);
      } else {
        RemainingHead(Lot(l.amount - a, l.acquiredAt), rest, b);
      }
    }
  }

  lemma PenaltyHead(l: Lot, rest: Queue, now: int, p: Tiers)
    ensures PenaltyForLots([l] + rest, now, p)
         == l.amount * BpsOf(l, now, p) / BPS_DENOMINATOR + PenaltyForLots(rest, now, p)
  {
    assert ([l] + rest)[1..] == rest;
  }

  lemma PenaltySingle(n: nat, at: int, now: int, p: Tiers)
    ensures PenaltyForLots([Lot(n, at)], now, p) == n * BpsOf(Lot(n, at), now, p) / BPS_DENOMINATOR
  {
    assert [Lot(n, at)][1..] == [];
  }

  /** Splitting one lot between two redemptions costs the chain at most one floor. */
  lemma SplitOneLot(a: nat, b: nat, at: int, now: int, p: Tiers)
    ensures var bps := BpsOf(Lot(a, at), now, p);
            && BpsOf(Lot(b, at), now, p) == bps && BpsOf(Lot(a + b, at), now, p) == bps
            && a * bps / BPS_DENOMINATOR + b * bps / BPS_DENOMINATOR
                 <= (a + b) * bps / BPS_DENOMINATOR
                 <= a * bps / BPS_DENOMINATOR + b * bps / BPS_DENOMINATOR + 1
  {
    var bps := BpsOf(Lot(a, at), now, p);
    FloorSplit(a * bps, b * bps);
    assert (a + b) * bps == a * bps + b * bps;
  }

  /** Redeeming `a` then `b` at one instant charges what redeeming `a + b` charges, or exactly 1 uphi less:
      only the lot (or the surplus) that the first redemption cuts in two is floored twice. */
  lemma {:induction false} SplitRedemption(q: Queue, a: nat, b: nat, now: int, p: Tiers)
    ensures Remaining(Remaining(q, a), b) == Remaining(q, a + b)
    ensures var parts := RedeemPenalty(q, a, now, p) + RedeemPenalty(Remaining(q, a), b, now, p);
            RedeemPenalty(q, a + b, now, p) - 1 <= parts <= RedeemPenalty(q, a + b, now, p)
    decreases |q|
  {
    SplitLeavesTheSameQueue(q, a, b);
    if a == 0 || b == 0 {
    } else if q == [] {
      SplitSurplus(a, b, now, p);
    } else if q[0].amount <= a {
      SplitRedemption(q[1..], a - q[0].amount, b, now, p);
      SplitBehindTheFirstLot(q, a, b, now, p);
    } else {
      SplitInsideTheFirstLot(q, a, b, now, p);
    }
  }

  lemma SplitSurplus(a: nat, b: nat, now: int, p: Tiers)
    requires a > 0 && b > 0
    ensures var parts := RedeemPenalty([], a, now, p) + RedeemPenalty(Remaining([], a), b, now, p);
            RedeemPenalty([], a + b, now, p) - 1 <= parts <= RedeemPenalty([], a + b, now, p)
  {
    var edge := now - p.threshold;
    SplitOneLot(a, b, edge, now, p);
    PenaltySingle(a, edge, now, p);
    PenaltySingle(b, edge, now, p);
    PenaltySingle(a + b, edge, now, p);
  }

  lemma SplitBehindTheFirstLot(q: Queue, a: nat, b: nat, now: int, p: Tiers)
    requires q != [] && q[0].amount <= a && a > 0 && b > 0
    requires var rest, c := q[1..], a - q[0].amount;
             var parts := RedeemPenalty(rest, c, now, p) + RedeemPenalty(Remaining(rest, c), b, now, p);
             RedeemPenalty(rest, c + b, now, p) - 1 <= parts <= RedeemPenalty(rest, c + b, now, p)
    ensures var parts := RedeemPenalty(q, a, now, p) + RedeemPenalty(Remaining(q, a), b, now, p);
            RedeemPenalty(q, a + b, now, p) - 1 <= parts <= RedeemPenalty(q, a + b, now, p)
  {
    var edge, n := now - p.threshold, q[0].amount;
    PenaltyHead(q[0], Consumed(q[1..], a - n, edge), now, p);
    PenaltyHead(q[0], Consumed(q[1..], a + b - n, edge), now, p);
  }

  lemma SplitInsideTheFirstLot(q: Queue, a: nat, b: nat, now: int, p: Tiers)
    requires q != [] && 0 < a < q[0].amount && b > 0
    ensures var parts := RedeemPenalty(q, a, now, p) + RedeemPenalty(Remaining(q, a), b, now, p);
            RedeemPenalty(q, a + b, now, p) - 1 <= parts <= RedeemPenalty(q, a + b, now, p)
  {
    var edge, at := now - p.threshold, q[0].acquiredAt;
    var n := q[0].amount - a;
    var left := [Lot(n, at)] + q[1..];
    assert Remaining(q, a) == left && left[1..] == q[1..];
    PenaltySingle(a, at, now, p);
    if n <= b {
      SplitOneLot(a, n, at, now, p);
      PenaltyHead(Lot(n, at), Consumed(q[1..], b - n, edge), now, p);
      PenaltyHead(q[0], Consumed(q[1..], b - n, edge), now, p);
      assert Consumed(q, a + b, edge) == [q[0]] + Consumed(q[1..], b - n, edge);
      assert Consumed(left, b, edge) == [Lot(n, at)] + Consumed(q[1..], b - n, edge);
    } else {
      SplitOneLot(a, b, at, now, p);
      PenaltySingle(b, at, now, p);
      PenaltySingle(a + b, at, now, p);
    }
  }

  function Sum(parts: seq<nat>): nat {
    if parts == [] then 0 else parts[0] + Sum(parts[1..])
  }

  /** The penalties of a list of redemptions made one after the other at one instant. */
  function PenaltyInParts(q: Queue, parts: seq<nat>, now: int, p: Tiers): nat
    decreases |parts|
  {
    if parts == [] then 0
    else RedeemPenalty(q, parts[0], now, p) + PenaltyInParts(Remaining(q, parts[0]), parts[1..], now, p)
  }

  function RemainingInParts(q: Queue, parts: seq<nat>): Queue
    decreases |parts|
  {
    if parts == [] then q else RemainingInParts(Remaining(q, parts[0]), parts[1..])
  }

  /** Cutting one redemption into n of them leaves the same queue and saves at most n - 1 uphi. */
  lemma {:induction false} SplitIntoMany(q: Queue, parts: seq<nat>, now: int, p: Tiers)
    requires parts != []
    ensures RemainingInParts(q, parts) == Remaining(q, Sum(parts))
    ensures RedeemPenalty(q, Sum(parts), now, p) - (|parts| - 1)
         <= PenaltyInParts(q, parts, now, p)
         <= RedeemPenalty(q, Sum(parts), now, p)
    decreases |parts|
  {
    if |parts| == 1 {
      assert parts[1..] == [];
    } else {
      SplitIntoMany(Remaining(q, parts[0]), parts[1..], now, p);
      SplitRedemption(q, parts[0], Sum(parts[1..]), now, p);
    }
  }

  // ----- FIFO is the cheapest way to spend

  /** The penalty before any floor, in units of 1/10000 uphi. */
  function Charge(q: Queue, now: int, p: Tiers): nat {
    if q == [] then 0 else q[0].amount * BpsOf(q[0], now, p) + Charge(q[1..], now, p)
  }

  /** `take[i]` uphi out of lot i, for every i. */
  predicate IsAllocation(q: Queue, take: seq<nat>) {
    |take| == |q| && forall i :: 0 <= i < |q| ==> take[i] <= q[i].amount
  }

  function AllocationCharge(q: Queue, take: seq<nat>, now: int, p: Tiers): nat
    requires |take| == |q|
  {
    if q == [] then 0
    else take[0] * BpsOf(q[0], now, p) + AllocationCharge(q[1..], take[1..], now, p)
  }

  predicate AllAtLeast(q: Queue, rate: nat, now: int, p: Tiers) {
    forall i :: 0 <= i < |q| ==> BpsOf(q[i], now, p) >= rate
  }

  lemma ChargeHead(l: Lot, rest: Queue, now: int, p: Tiers)
    ensures Charge([l] + rest, now, p) == l.amount * BpsOf(l, now, p) + Charge(rest, now, p)
  {
    assert ([l] + rest)[1..] == rest;
  }

  /** Each further uphi spent costs at least the lowest rate left in the queue. */
  lemma {:induction false} MarginalCharge(q: Queue, a: nat, b: nat, rate: nat, now: int, p: Tiers, edge: int)
    requires AllAtLeast(q, rate, now, p)
    requires a + b <= TotalLots(q)
    ensures Charge(Consumed(q, a, edge), now, p) + b * rate <= Charge(Consumed(q, a + b, edge), now, p)
    decreases |q|
  {
    if b == 0 || q == [] {
    } else if q[0].amount <= a {
      var n := q[0].amount;
      MarginalCharge(q[1..], a - n, b, rate, now, p, edge);
      ChargeHead(q[0], Consumed(q[1..], a + b - n, edge), now, p);
      if a > 0 { ChargeHead(q[0], Consumed(q[1..], a - n, edge), now, p); }
    } else if q[0].amount <= a + b {
      MarginalCharge(q[1..], 0, a + b - q[0].amount, rate, now, p, edge);
      MarginalAcrossLots(q, a, b, rate, now, p, edge);
    } else {
      MarginalInsideLot(q, a, b, rate, now, p, edge);
    }
  }

  /** Spending `a` out of a larger first lot charges a at that lot's rate. */
  lemma ChargeInsideLot(q: Queue, a: nat, now: int, p: Tiers, edge: int)
    requires q != [] && a < q[0].amount
    ensures Charge(Consumed(q, a, edge), now, p) == a * BpsOf(q[0], now, p)
  {
    if a > 0 { ChargeHead(Lot(a, q[0].acquiredAt), [], now, p); }
  }

  lemma MarginalInsideLot(q: Queue, a: nat, b: nat, rate: nat, now: int, p: Tiers, edge: int)
    requires q != [] && a + b < q[0].amount && rate <= BpsOf(q[0], now, p)
    ensures Charge(Consumed(q, a, edge), now, p) + b * rate <= Charge(Consumed(q, a + b, edge), now, p)
  {
    var r := BpsOf(q[0], now, p);
    ChargeInsideLot(q, a, now, p, edge);
    ChargeInsideLot(q, a + b, now, p, edge);
    Distribute(a, b, r);
    MulMono(rate, r, b);
  }

  lemma MarginalAcrossLots(q: Queue, a: nat, b: nat, rate: nat, now: int, p: Tiers, edge: int)
    requires q != [] && a < q[0].amount <= a + b && rate <= BpsOf(q[0], now, p)
    requires (a + b - q[0].amount) * rate <= Charge(Consumed(q[1..], a + b - q[0].amount, edge), now, p)
    ensures Charge(Consumed(q, a, edge), now, p) + b * rate <= Charge(Consumed(q, a + b, edge), now, p)
  {
    var n, r := q[0].amount, BpsOf(q[0], now, p);
    ChargeInsideLot(q, a, now, p, edge);
    ChargeHead(q[0], Consumed(q[1..], a + b - n, edge), now, p);
    Distribute(a, n - a, r);
    MulMono(rate, r, n - a);
    Distribute(n - a, a + b - n, rate);
  }

  /** On an oldest-first queue with old_bps <= young_bps, no way of choosing which coin to spend is
      charged less than the oldest-first choice. */
  lemma {:induction false} FifoIsOptimal(q: Queue, take: seq<nat>, now: int, p: Tiers, edge: int)
    requires OldestFirst(q) && p.oldBps <= p.youngBps
    requires IsAllocation(q, take)
    ensures Sum(take) <= TotalLots(q)
    ensures Charge(Consumed(q, Sum(take), edge), now, p) <= AllocationCharge(q, take, now, p)
    decreases |q|
  {
    if q != [] {
      var rest := Sum(take[1..]);
      FifoIsOptimal(q[1..], take[1..], now, p, edge);
      var r := BpsOf(q[0], now, p);
      assert AllAtLeast(q[1..], r, now, p);
      if q[0].amount <= take[0] + rest {
        MarginalCharge(q[1..], take[0] + rest - q[0].amount, q[0].amount - take[0], r, now, p, edge);
      } else {
        MarginalCharge(q[1..], 0, rest, r, now, p, edge);
      }
      FifoStep(q, take[0], rest, now, p, edge);
    }
  }

  /** Taking `k` from the first lot and the rest oldest-first is charged at least as much as taking
      everything oldest-first. */
  lemma FifoStep(q: Queue, k: nat, rest: nat, now: int, p: Tiers, edge: int)
    requires q != [] && k <= q[0].amount
    requires var n, r, tail := q[0].amount, BpsOf(q[0], now, p), Charge(Consumed(q[1..], rest, edge), now, p);
             if n <= k + rest
             then Charge(Consumed(q[1..], k + rest - n, edge), now, p) + (n - k) * r <= tail
             else rest * r <= tail
    ensures Charge(Consumed(q, k + rest, edge), now, p)
         <= k * BpsOf(q[0], now, p) + Charge(Consumed(q[1..], rest, edge), now, p)
  {
    var n, r := q[0].amount, BpsOf(q[0], now, p);
    if k + rest == 0 {
    } else if n <= k + rest {
      ChargeHead(q[0], Consumed(q[1..], k + rest - n, edge), now, p);
      Distribute(k, n - k, r);
    } else {
      ChargeInsideLot(q, k + rest, now, p, edge);
      Distribute(k, rest, r);
    }
  }

  /** The floored penalty of an allocation. */
  function AllocationPenalty(q: Queue, take: seq<nat>, now: int, p: Tiers): nat
    requires |take| == |q|
  {
    if q == [] then 0
    else take[0] * BpsOf(q[0], now, p) / BPS_DENOMINATOR + AllocationPenalty(q[1..], take[1..], now, p)
  }

  /** Once each lot is floored, oldest-first can cost more than another choice: 500 old uphi cost 1 uphi,
      401 old with 99 young cost nothing. */
  lemma FlooringBreaksOptimality()
    ensures var p, q, take := Tiers(10, 100, 20), [Lot(500, 0), Lot(99, 95)], [401, 99];
            && OldestFirst(q) && IsAllocation(q, take) && Sum(take) == 500
            && AllocationPenalty(q, take, 100, p) < RedeemPenalty(q, 500, 100, p)
  {
    var p, q, take := Tiers(10, 100, 20), [Lot(500, 0), Lot(99, 95)], [401, 99];
    assert q[1..] == [Lot(99, 95)] && take[1..] == [99] && q[1..][1..] == [] && take[1..][1..] == [];
    assert Consumed(q, 500, 90) == [q[0]] + Consumed(q[1..], 0, 90) == [q[0]];
    PenaltySingle(500, 0, 100, p);
    assert AllocationPenalty(q[1..], [99], 100, p) == 0;
  }

  lemma {:induction false} ChargeAgainstPenalty(q: Queue, take: seq<nat>, now: int, p: Tiers)
    requires |take| == |q|
    ensures PenaltyForLots(q, now, p) * BPS_DENOMINATOR <= Charge(q, now, p)
    ensures AllocationCharge(q, take, now, p)
         <= AllocationPenalty(q, take, now, p) * BPS_DENOMINATOR + |q| * (BPS_DENOMINATOR - 1)
  {
    if q != [] {
      ChargeAgainstPenalty(q[1..], take[1..], now, p);
    }
  }

  /** The floors can cost oldest-first less than one uphi per lot against any other choice. */
  lemma FlooredFifoIsNearlyOptimal(q: Queue, take: seq<nat>, now: int, p: Tiers)
    requires OldestFirst(q) && p.oldBps <= p.youngBps && IsAllocation(q, take) && q != []
    ensures RedeemPenalty(q, Sum(take), now, p) < AllocationPenalty(q, take, now, p) + |q|
  {
    var edge := now - p.threshold;
    FifoIsOptimal(q, take, now, p, edge);
    ChargeAgainstPenalty(q, take, now, p);
    var spent := Consumed(q, Sum(take), edge);
    ChargeAgainstPenalty(spent, seq(|spent|, _ => 0), now, p);
  }

  // ----- redemption always returns value

  const MAX_PROTOCOL_FEE_BPS: int := 1_000

  /** The penalty clause of Params.Validate. */
  predicate ValidTiers(p: Tiers) {
    p.threshold >= 0 && p.youngBps + p.oldBps < BPS_DENOMINATOR - MAX_PROTOCOL_FEE_BPS
  }

  lemma {:induction false} PenaltyBound(q: Queue, now: int, p: Tiers)
    ensures PenaltyForLots(q, now, p) * BPS_DENOMINATOR <= TotalLots(q) * (p.youngBps + p.oldBps)
  {
    if q != [] {
      PenaltyBound(q[1..], now, p);
      var n, r, top := q[0].amount, BpsOf(q[0], now, p), p.youngBps + p.oldBps;
      MulMono(r, top, n);
      Distribute(n, TotalLots(q[1..]), top);
      FloorBelow(n * r);
    }
  }

  lemma FloorBelow(x: nat)
    ensures x / BPS_DENOMINATOR * BPS_DENOMINATOR <= x
  {}

  lemma ShareBelowWhole(penalty: nat, amount: nat, top: nat, feeBps: nat)
    requires amount > 0 && top + feeBps < BPS_DENOMINATOR
    requires penalty * BPS_DENOMINATOR <= amount * top
    ensures penalty + amount * feeBps / BPS_DENOMINATOR < amount
  {
    Distribute(top, feeBps, amount);
    MulMono(top + feeBps, BPS_DENOMINATOR - 1, amount);
    var fee := amount * feeBps;
    assert fee / BPS_DENOMINATOR * BPS_DENOMINATOR <= fee;
  }

  /** Whatever the queue holds, the consumed lots add up to the redeemed amount, and the penalty with a
      protocol fee of up to 10% on top is strictly less than that amount. */
  lemma RedemptionIsAlwaysOpen(q: Queue, amount: int, now: int, p: Tiers, feeBps: nat)
    requires ValidTiers(p) && amount > 0 && feeBps <= MAX_PROTOCOL_FEE_BPS
    ensures TotalLots(Consumed(q, amount, now - p.threshold)) == amount
    ensures RedeemPenalty(q, amount, now, p) + amount * feeBps / BPS_DENOMINATOR < amount
  {
    SpendTotals(q, amount, now - p.threshold);
    PenaltyBound(Consumed(q, amount, now - p.threshold), now, p);
    ShareBelowWhole(RedeemPenalty(q, amount, now, p), amount, p.youngBps + p.oldBps, feeBps);
  }

  // ----- merging never makes coin older

  function Moment(q: Queue): int {
    if q == [] then 0 else q[0].amount * q[0].acquiredAt + Moment(q[1..])
  }

  function SumInts(s: seq<int>): int {
    if s == [] then 0 else s[0] + SumInts(s[1..])
  }

  lemma {:induction false} SumIntsAppend(s: seq<int>, t: seq<int>)
    ensures SumInts(s + t) == SumInts(s) + SumInts(t)
  {
    if s == [] {
      assert s + t == t;
    } else {
      SumIntsAppend(s[1..], t);
      assert (s + t)[1..] == s[1..] + t;
    }
  }

  lemma {:induction false} SumCopies(n: nat, at: int)
    ensures SumInts(Copies(n, at)) == n * at
  {
    if n > 0 {
      SumCopies(n - 1, at);
      assert Copies(n, at)[1..] == Copies(n - 1, at);
    }
  }

  /** The age moment is the sum of the timestamps of the unit coins. */
  lemma {:induction false} MomentIsTheSumOfCoins(q: Queue)
    ensures Moment(q) == SumInts(Coins(q))
  {
    if q != [] {
      MomentIsTheSumOfCoins(q[1..]);
      SumCopies(q[0].amount, q[0].acquiredAt);
      SumIntsAppend(Copies(q[0].amount, q[0].acquiredAt), Coins(q[1..]));
    }
  }

  /** The ceiling of a weighted part: between 0 and the whole gap, and rounded up by less than one. */
  lemma CeilShare(part: nat, total: nat, gap: nat)
    requires part <= total && total > 0
    ensures var c := (part * gap + total - 1) / total;
            0 <= c <= gap && part * gap <= c * total <= part * gap + total - 1
  {
    var x := part * gap;
    var c, m := (x + total - 1) / total, (x + total - 1) % total;
    assert x + total - 1 == total * c + m;
    assert x <= c * total <= x + total - 1;
    assert x <= gap * total by { MulMono(part, total, gap); }
    if c >= gap + 1 {
      MulMono(gap + 1, c, total);
      assert false;
    }
    if c <= -1 {
      MulMono(c, -1, total);
      assert false;
    }
  }

  /** The merged timestamp lies between its inputs, and the merge raises the moment by 0 to total - 1. */
  lemma MergeMoment(older: Lot, newer: Lot)
    requires older.acquiredAt <= newer.acquiredAt
    ensures older.acquiredAt <= MergedAcquiredAt(older, newer) <= newer.acquiredAt
    ensures var m := Merge(older, newer);
            var before := older.amount * older.acquiredAt + newer.amount * newer.acquiredAt;
            before <= m.amount * m.acquiredAt <= before + Max(m.amount - 1, 0)
  {
    var d, total := newer.acquiredAt - older.acquiredAt, older.amount + newer.amount;
    Distribute(older.amount, newer.amount, older.acquiredAt);
    if d > 0 && total > 0 {
      CeilShare(newer.amount, total, d);
      var c := (newer.amount * d + total - 1) / total;
      Distribute(older.acquiredAt, c, total);
      Distribute(older.acquiredAt, d, newer.amount);
    }
  }

  /** The merged timestamp is the oldest whole second that does not overstate the age of the coin. */
  lemma MergeIsTheLeastHonestTimestamp(older: Lot, newer: Lot, t: int)
    requires older.acquiredAt <= newer.acquiredAt && older.amount + newer.amount > 0
    ensures t >= MergedAcquiredAt(older, newer)
       <==> (older.amount + newer.amount) * t >= older.amount * older.acquiredAt + newer.amount * newer.acquiredAt
  {
    MergeMoment(older, newer);
    var total, at := older.amount + newer.amount, MergedAcquiredAt(older, newer);
    if t >= at {
      MulMono(at, t, total);
    } else {
      MulMono(t, at - 1, total);
      Distribute(at, -1, total);
    }
  }

  lemma HeadOf(l: Lot, rest: Queue)
    ensures TotalLots([l] + rest) == l.amount + TotalLots(rest)
    ensures Moment([l] + rest) == l.amount * l.acquiredAt + Moment(rest)
  {
    assert ([l] + rest)[1..] == rest;
  }

  /** One merge step at the old end. */
  lemma MergeStepTotals(q: Queue)
    requires |q| >= 2 && q[0].acquiredAt <= q[1].acquiredAt
    ensures var s := [Merge(q[0], q[1])] + q[2..];
            TotalLots(s) == TotalLots(q) && Moment(q) <= Moment(s) <= Moment(q) + TotalLots(q)
  {
    MergeMoment(q[0], q[1]);
    assert q == [q[0]] + ([q[1]] + q[2..]);
    HeadOf(q[0], [q[1]] + q[2..]);
    HeadOf(q[1], q[2..]);
    HeadOf(Merge(q[0], q[1]), q[2..]);
  }

  lemma MergeStepOrder(q: Queue, lo: int, hi: int)
    requires OldestFirst(q) && Within(q, lo, hi) && |q| >= 2
    ensures var s := [Merge(q[0], q[1])] + q[2..]; OldestFirst(s) && Within(s, lo, hi)
  {
    MergeMoment(q[0], q[1]);
    var s := [Merge(q[0], q[1])] + q[2..];
    assert forall i :: 1 <= i < |s| ==> s[i] == q[i + 1];
  }

  lemma Len32Facts(q: Queue)
    ensures Len32(q) <= |q| && (|q| < Bytes.TWO32 ==> Len32(q) == |q|)
  {}

  lemma {:induction false} BoundedLength(q: Queue, maxLots: nat)
    ensures var b := Bounded(q, maxLots);
            && |b| <= |q| && (q != [] ==> b != [])
            && (|q| < Bytes.TWO32 ==> |b| <= Max(EffectiveCap(maxLots), 1))
            && (|q| <= EffectiveCap(maxLots) ==> b == q)
    decreases |q|
  {
    Len32Facts(q);
    if Len32(q) > EffectiveCap(maxLots) && |q| >= 2 {
      BoundedLength([Merge(q[0], q[1])] + q[2..], maxLots);
    }
  }

  lemma {:induction false} BoundedOrder(q: Queue, maxLots: nat, lo: int, hi: int)
    requires OldestFirst(q) && Within(q, lo, hi)
    ensures OldestFirst(Bounded(q, maxLots)) && Within(Bounded(q, maxLots), lo, hi)
    decreases |q|
  {
    if Len32(q) > EffectiveCap(maxLots) && |q| >= 2 {
      MergeStepOrder(q, lo, hi);
      BoundedOrder([Merge(q[0], q[1])] + q[2..], maxLots, lo, hi);
    }
  }

  lemma {:induction false} BoundedTotals(q: Queue, maxLots: nat, lo: int, hi: int)
    requires OldestFirst(q) && Within(q, lo, hi)
    ensures var b := Bounded(q, maxLots);
            && |b| <= |q| && TotalLots(b) == TotalLots(q)
            && Moment(q) <= Moment(b) <= Moment(q) + (|q| - |b|) * TotalLots(q)
    decreases |q|
  {
    if Len32(q) > EffectiveCap(maxLots) && |q| >= 2 {
      var shorter := [Merge(q[0], q[1])] + q[2..];
      MergeStepTotals(q);
      MergeStepOrder(q, lo, hi);
      BoundedTotals(shorter, maxLots, lo, hi);
      Distribute(|shorter| - |Bounded(q, maxLots)|, 1, TotalLots(q));
    }
  }

  /** Bounding merges at the old end until the queue fits. A length past 2^32 is compared truncated. */
  lemma BoundedProperties(q: Queue, maxLots: nat, lo: int, hi: int)
    requires OldestFirst(q) && Within(q, lo, hi)
    ensures var b := Bounded(q, maxLots);
            && OldestFirst(b) && Within(b, lo, hi)
            && (|q| < Bytes.TWO32 ==> |b| <= Max(EffectiveCap(maxLots), 1)) && |b| <= |q| && (q != [] ==> b != [])
            && (|q| <= EffectiveCap(maxLots) ==> b == q)
            && TotalLots(b) == TotalLots(q)
            && Moment(q) <= Moment(b) <= Moment(q) + (|q| - |b|) * TotalLots(q)
  {
    BoundedLength(q, maxLots);
    BoundedOrder(q, maxLots, lo, hi);
    BoundedTotals(q, maxLots, lo, hi);
  }

  lemma {:induction false} InsertPosSplits(q: Queue, at: int)
    requires OldestFirst(q)
    ensures var pos := InsertPos(q, at);
            && (forall i :: 0 <= i < pos ==> q[i].acquiredAt <= at)
            && (forall i :: pos <= i < |q| ==> at < q[i].acquiredAt)
  {
    if q != [] && q[0].acquiredAt <= at {
      InsertPosSplits(q[1..], at);
      assert forall i :: 1 <= i < |q| ==> q[i] == q[1..][i - 1];
    }
  }

  lemma PlacedOrder(q: Queue, lot: Lot, lo: int, hi: int)
    requires OldestFirst(q) && Within(q, lo, hi) && lo <= lot.acquiredAt <= hi
    ensures var r := Placed(q, lot); OldestFirst(r) && Within(r, lo, hi) && |r| == |q| + 1
  {
    InsertPosSplits(q, lot.acquiredAt);
  }

  lemma {:induction false} SumsAppend(q: Queue, t: Queue)
    ensures TotalLots(q + t) == TotalLots(q) + TotalLots(t)
    ensures Moment(q + t) == Moment(q) + Moment(t)
  {
    if q == [] {
      assert q + t == t;
    } else {
      SumsAppend(q[1..], t);
      assert q + t == [q[0]] + (q[1..] + t);
      HeadOf(q[0], q[1..] + t);
    }
  }

  lemma PlacedTotals(q: Queue, lot: Lot)
    ensures TotalLots(Placed(q, lot)) == TotalLots(q) + lot.amount
    ensures Moment(Placed(q, lot)) == Moment(q) + lot.amount * lot.acquiredAt
  {
    var pos := InsertPos(q, lot.acquiredAt);
    assert q == q[..pos] + q[pos..];
    SumsAppend(q[..pos], q[pos..]);
    assert Placed(q, lot) == q[..pos] + ([lot] + q[pos..]);
    SumsAppend(q[..pos], [lot] + q[pos..]);
    HeadOf(lot, q[pos..]);
  }

  /** InsertLot: no uphi created or lost, oldest-first kept, the bound enforced, and the coin as a whole
      never reported older than its parts. */
  lemma InsertProperties(q: Queue, lot: Lot, maxLots: nat, lo: int, hi: int)
    requires OldestFirst(q) && Within(q, lo, hi) && lo <= lot.acquiredAt <= hi
    ensures var r := Inserted(q, lot, maxLots);
            && OldestFirst(r) && Within(r, lo, hi)
            && TotalLots(r) == TotalLots(q) + lot.amount
            && Moment(q) + lot.amount * lot.acquiredAt <= Moment(r)
            && (lot.amount > 0 ==> 0 < |r| && (|q| + 1 < Bytes.TWO32 ==> |r| <= Max(EffectiveCap(maxLots), 1)))
  {
    if lot.amount > 0 {
      PlacedOrder(q, lot, lo, hi);
      PlacedTotals(q, lot);
      BoundedProperties(Placed(q, lot), maxLots, lo, hi);
    }
  }
}
