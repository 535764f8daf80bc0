/** Sums over the values of a finite map, and the bank balances built on them. */
module MapSums {

  ghost function SumOf<K(!new)>(m: map<K, int>): int
    decreases |m|
  {
    if m == map[] then 0
    else
      var k :| k in m;
      m[k] + SumOf(m - {k})
  }

  function At<K>(m: map<K, int>, k: K): int {
    if k in m then m[k] else 0
  }

  lemma {:induction false} SumWithout<K(!new)>(m: map<K, int>, k: K)
    ensures SumOf(m) == At(m, k) + SumOf(m - {k})
    decreases |m|
  {
    if k !in m {
      assert m - {k} == m;
    } else {
      var c :| c in m && SumOf(m) == m[c] + SumOf(m - {c});
      if c != k {
        SumWithout(m - {c}, k);
        SumWithout(m - {k}, c);
        assert m - {c} - {k} == m - {k} - {c};
      }
    }
  }

  lemma SumUpdate<K(!new)>(m: map<K, int>, k: K, v: int)
    ensures SumOf(m[k := v]) == SumOf(m) - At(m, k) + v
  {
    SumWithout(m, k);
    SumWithout(m[k := v], k);
    assert m[k := v] - {k} == m - {k};
  }

  lemma {:induction false} SumIsNonNegative<K(!new)>(m: map<K, int>)
    requires forall k :: k in m ==> m[k] >= 0
    ensures SumOf(m) >= 0
    decreases |m|
  {
    if m != map[] {
      var k :| k in m && SumOf(m) == m[k] + SumOf(m - {k});
      SumIsNonNegative(m - {k});
    }
  }

  lemma EntryWithinSum<K(!new)>(m: map<K, int>, k: K)
    requires forall j :: j in m ==> m[j] >= 0
    ensures At(m, k) <= SumOf(m)
  {
    SumWithout(m, k);
    SumIsNonNegative(m - {k});
  }
}

/** uphi balances under the one operation the modelled modules use: a send between two accounts. */
module Bank {
  import opened MapSums
  import Bytes

  /** The bytes of a bech32 text; which texts are addresses is not this model's concern. */
  type Address = Bytes.Bytes
  type Balances = map<Address, int>

  predicate ValidBalances(b: Balances) {
    forall a :: a in b ==> b[a] >= 0
  }

  /** SendCoins of a positive amount; None when the sender cannot cover it. */
  datatype SendResult = Refused | Sent(balances: Balances)

  function Send(b: Balances, from: Address, to: Address, amount: int): SendResult {
    if At(b, from) < amount then Refused
    else
      var debited := b[from := At(b, from) - amount];
      Sent(debited[to := At(debited, to) + amount])
  }

  /** A send moves exactly `amount`, touches two accounts and keeps the supply. */
  lemma SendConserves(b: Balances, from: Address, to: Address, amount: nat)
    requires ValidBalances(b)
    requires Send(b, from, to, amount).Sent?
    ensures var b' := Send(b, from, to, amount).balances;
            && ValidBalances(b') && SumOf(b') == SumOf(b)
            && (from != to ==> At(b', from) == At(b, from) - amount && At(b', to) == At(b, to) + amount)
            && (from == to ==> At(b', to) == At(b, to))
            && forall a :: a != from && a != to ==> At(b', a) == At(b, a)
  {
    var debited := b[from := At(b, from) - amount];
    SumUpdate(b, from, At(b, from) - amount);
    SumUpdate(debited, to, At(debited, to) + amount);
  }
}
