/**
 The FIFO coin-age queue of x/coin/types/coin_age.go.

 A queue is a list of lots, oldest first. Each loop of the source is a method here, and each method
 is proved equal to a recursive function on queues; CoinAgeTheorems.dfy proves what those functions mean.
 */
module CoinAge {
  import Bytes

  /** A parcel of coin acquired at one moment; `amount` is the value LotAmount reads, so never negative. */
  datatype Lot = Lot(amount: nat, acquiredAt: int)

  type Queue = seq<Lot>

  /** The two tier rates and the tier boundary of the coin params. */
  datatype Tiers = Tiers(threshold: int, youngBps: nat, oldBps: nat)

  const BPS_DENOMINATOR: int := 10_000
  const DEFAULT_MAX_COIN_AGE_LOTS: nat := 64

  function TotalLots(q: Queue): nat {
    if q == [] then 0 else q[0].amount + TotalLots(q[1..])
  }

  predicate IsOld(acquiredAt: int, now: int, threshold: int) {
    now - acquiredAt >= threshold
  }

  function BpsOf(l: Lot, now: int, p: Tiers): nat {
    if IsOld(l.acquiredAt, now, p.threshold) then p.oldBps else p.youngBps
  }

  /** The penalty of a list of consumed lots: each lot at its own tier, each product floored. */
  function PenaltyForLots(q: Queue, now: int, p: Tiers): nat {
    if q == [] then 0
    else q[0].amount * BpsOf(q[0], now, p) / BPS_DENOMINATOR + PenaltyForLots(q[1..], now, p)
  }

  /** The lots that leave when `amount` is spent from the old end; what the queue cannot cover becomes
      one last lot dated exactly at the old-tier boundary. */
  function Consumed(q: Queue, amount: int, boundary: int): Queue
    decreases |q|
  {
    if amount <= 0 then []
    else if q == [] then [Lot(amount, boundary)]
    else if q[0].amount <= amount then [q[0]] + Consumed(q[1..], amount - q[0].amount, boundary)
    else [Lot(amount, q[0].acquiredAt)]
  }

  /** The lots that stay behind. */
  function Remaining(q: Queue, amount: int): Queue
    decreases |q|
  {
    if amount <= 0 || q == [] then q
    else if q[0].amount <= amount then Remaining(q[1..], amount - q[0].amount)
    else [Lot(q[0].amount - amount, q[0].acquiredAt)] + q[1..]
  }

  /** Where an insertion lands: before the first lot that is strictly younger. */
  function InsertPos(q: Queue, at: int): (pos: nat)
    ensures pos <= |q|
  {
    if q == [] || at < q[0].acquiredAt then 0 else 1 + InsertPos(q[1..], at)
  }

  function Placed(q: Queue, lot: Lot): Queue {
    var pos := InsertPos(q, lot.acquiredAt);
    q[..pos] + [lot] + q[pos..]
  }

  /** The timestamp of two merged lots: the amount-weighted mean, rounded up. */
  function MergedAcquiredAt(older: Lot, newer: Lot): int {
    var delta := newer.acquiredAt - older.acquiredAt;
    var total := older.amount + newer.amount;
    if delta <= 0 || total <= 0 then older.acquiredAt
    else older.acquiredAt + (newer.amount * delta + total - 1) / total
  }

  function Merge(older: Lot, newer: Lot): Lot {
    Lot(older.amount + newer.amount, MergedAcquiredAt(older, newer))
  }

  function EffectiveCap(maxLots: nat): nat {
    if maxLots == 0 then DEFAULT_MAX_COIN_AGE_LOTS else maxLots
  }

  /** uint32(len(lots)), the length the bound is compared with. */
  function Len32(q: Queue): nat { |q| % Bytes.TWO32 }

  /** The queue after merging its two oldest lots for as long as it is too long. */
  function Bounded(q: Queue, maxLots: nat): Queue
    decreases |q|
  {
    if Len32(q) > EffectiveCap(maxLots) && |q| >= 2
    then Bounded([Merge(q[0], q[1])] + q[2..], maxLots)
    else q
  }

  function Inserted(q: Queue, lot: Lot, maxLots: nat): Queue {
    if lot.amount <= 0 then q else Bounded(Placed(q, lot), maxLots)
  }

  // ----- the loops of the source, each refining its function

  method ComputeTotal(lots: Queue) returns (total: nat)
    ensures total == TotalLots(lots)
  {
    total := 0;
    for i := 0 to |lots|
      invariant total + TotalLots(lots[i..]) == TotalLots(lots)
    {
      assert lots[i..][1..] == lots[i+1..];
      total := total + lots[i].amount;
    }
  }

  method ComputePenalty(lots: Queue, now: int, p: Tiers) returns (penalty: nat)
    ensures penalty == PenaltyForLots(lots, now, p)
  {
    penalty := 0;
    for i := 0 to |lots|
      invariant penalty + PenaltyForLots(lots[i..], now, p) == PenaltyForLots(lots, now, p)
    {
      assert lots[i..][1..] == lots[i+1..];
      var bps := p.youngBps;
      if IsOld(lots[i].acquiredAt, now, p.threshold) {
        bps := p.oldBps;
      }
      penalty := penalty + lots[i].amount * bps / BPS_DENOMINATOR;
    }
  }

  method SpendOldestFirst(lots: Queue, amount: int, now: int, threshold: int)
    returns (consumed: Queue, remaining: Queue)
    ensures consumed == Consumed(lots, amount, now - threshold)
    ensures remaining == Remaining(lots, amount)
  {
    consumed, remaining := [], [];
    var left, i := amount, 0;
    while i < |lots| && left > 0
      invariant 0 <= i <= |lots|
      invariant consumed + Consumed(lots[i..], left, now - threshold) == Consumed(lots, amount, now - threshold)
      invariant remaining + Remaining(lots[i..], left) == Remaining(lots, amount)
      invariant remaining == [] || left == 0
    {
      var lotAmt := lots[i].amount;
      assert lots[i..][1..] == lots[i+1..];
      if lotAmt <= left {
        consumed := consumed + [Lot(lotAmt, lots[i].acquiredAt)];
        left := left - lotAmt;
        i := i + 1;
        continue;
      }
      consumed := consumed + [Lot(left, lots[i].acquiredAt)];
      remaining := remaining + [Lot(lotAmt - left, lots[i].acquiredAt)];
      left := 0;
      i := i + 1;
      break;
    }
    remaining := remaining + lots[i..];
    if left > 0 {
      consumed := consumed + [Lot(left, now - threshold)];
    }
  }

  method BoundLots(lots: Queue, maxLots: nat) returns (out: Queue)
    ensures out == Bounded(lots, maxLots)
  {
    var cap := maxLots;
    if cap == 0 {
      cap := DEFAULT_MAX_COIN_AGE_LOTS;
    }
    out := lots;
    while Len32(out) > cap && |out| >= 2
      invariant Bounded(out, maxLots) == Bounded(lots, maxLots)
      decreases |out|
    {
      var merged := Lot(out[0].amount + out[1].amount, MergedAcquiredAt(out[0], out[1]));
      out := [merged] + out[2..];
    }
  }

  method InsertLot(lots: Queue, lot: Lot, maxLots: nat) returns (out: Queue)
    ensures out == Inserted(lots, lot, maxLots)
  {
    if !(lot.amount > 0) {
      return lots;
    }
    var pos := |lots|;
    var i := 0;
    while i < |lots|
      invariant 0 <= i <= |lots| && pos == |lots|
      invariant InsertPos(lots, lot.acquiredAt) == i + InsertPos(lots[i..], lot.acquiredAt)
    {
      assert lots[i..][1..] == lots[i+1..];
      if lot.acquiredAt < lots[i].acquiredAt {
        pos := i;
        break;
      }
      i := i + 1;
    }
    var grown := lots[..pos] + [lot] + lots[pos..];
    out := BoundLots(grown, maxLots);
  }
}
