/**
 Which lots bounding a queue merges: the oldest ones, into one lot, and never more of them than the cap asks for.
 */
module MergedLots {
  import opened Arith
  import Bytes
  import opened CoinAge
  import opened CoinAgeTheorems

  /** A non-empty list of lots merged into one, each next lot into what the ones before it became. */
  function Folded(q: Queue): Lot
    requires q != []
  {
    if |q| == 1 then q[0] else Merge(Folded(q[..|q|-1]), q[|q|-1])
  }

  /** Merging the first two beforehand changes nothing. */
  lemma {:induction false} FoldedFront(a: Lot, b: Lot, t: Queue)
    ensures Folded([Merge(a, b)] + t) == Folded([a, b] + t)
    decreases |t|
  {
    var q, m := [a, b] + t, [Merge(a, b)] + t;
    if t == [] {
      assert q[..1] == [a];
    } else {
      FoldedFront(a, b, t[..|t|-1]);
      assert q[..|q|-1] == [a, b] + t[..|t|-1];
      assert m[..|m|-1] == [Merge(a, b)] + t[..|t|-1];
    }
  }

  /** How many lots too long the queue is, its length read as a uint32. */
  function Excess(q: Queue, maxLots: nat): nat { Max(Len32(q) - EffectiveCap(maxLots), 0) }

  lemma ExcessDrops(q: Queue, maxLots: nat, shorter: Queue)
    requires Excess(q, maxLots) > 0 && |shorter| == |q| - 1
    ensures |q| >= 2 && Excess(q, maxLots) < |q| && Excess(shorter, maxLots) == Excess(q, maxLots) - 1
  {
    assert 0 < Len32(q) <= |q|;
    assert |shorter| % Bytes.TWO32 == |q| % Bytes.TWO32 - 1;
  }

  /** For every queue: exactly the excess and one more of the oldest lots become one; all younger lots stay as they are. */
  lemma {:induction false} BoundingMergesTheOldest(q: Queue, maxLots: nat)
    ensures var b, n := Bounded(q, maxLots), Excess(q, maxLots);
            if n == 0 then b == q
            else n < |q| && |b| == |q| - n && b[0] == Folded(q[..n+1]) && b[1..] == q[n+1..]
    decreases |q|
  {
    var n := Excess(q, maxLots);
    if n > 0 {
      var shorter := [Merge(q[0], q[1])] + q[2..];
      ExcessDrops(q, maxLots, shorter);
      BoundingMergesTheOldest(shorter, maxLots);
      FoldedFront(q[0], q[1], q[2..n+1]);
      assert shorter[..n] == [Merge(q[0], q[1])] + q[2..n+1];
      assert q[..n+1] == [q[0], q[1]] + q[2..n+1];
      assert shorter[n..] == q[n+1..];
    }
  }

  /** The one lot: all the merged coin, dated between the first and the last of them, and no younger on the whole than
      they were by more than one second a merge. */
  lemma {:induction false} FoldedIsBetween(q: Queue)
    requires q != [] && OldestFirst(q)
    ensures var l, n := Folded(q), |q|;
            && l.amount == TotalLots(q) && q[0].acquiredAt <= l.acquiredAt <= q[n-1].acquiredAt
            && Moment(q) <= l.amount * l.acquiredAt <= Moment(q) + (n - 1) * TotalLots(q)
    decreases |q|
  {
    var n := |q|;
    if n == 1 {
      assert q == [q[0]] + [];
      HeadOf(q[0], []);
    } else {
      var t, last := q[..n-1], q[n-1];
      FoldedIsBetween(t);
      MergeMoment(Folded(t), last);
      assert q == t + [last] && [last] == [last] + [];
      SumsAppend(t, [last]);
      HeadOf(last, []);
      MulMono(TotalLots(t), TotalLots(q), n - 2);
      Distribute(n - 2, 1, TotalLots(q));
    }
  }

  /** A queue below 2^32 lots that is too long comes out exactly at its cap. */
  lemma BoundedIsTheCap(q: Queue, maxLots: nat)
    requires OldestFirst(q) && EffectiveCap(maxLots) < |q| < Bytes.TWO32
    ensures var b := Bounded(q, maxLots);
            && |b| == EffectiveCap(maxLots) > 0
            && var k := |q| - |b| + 1;
            && b[1..] == q[k..] && b[0].amount == TotalLots(q[..k])
            && q[0].acquiredAt <= b[0].acquiredAt <= q[k-1].acquiredAt
            && Moment(q[..k]) <= b[0].amount * b[0].acquiredAt <= Moment(q[..k]) + (k - 1) * TotalLots(q[..k])
  {
    assert Len32(q) == |q|;
    BoundingMergesTheOldest(q, maxLots);
    FoldedIsBetween(q[..Excess(q, maxLots)+1]);
  }
}
