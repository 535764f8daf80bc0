/**
 The daily micro-exemption counters: the key layout of x/coin/types/keys.go and the counter and pruning
 operations of x/coin/keeper/keeper.go over the module's raw KV store.
 */
module Quota {
  import opened Arith
  import opened Bytes
  import opened Sets

  type Store = map<Bytes, Bytes>

  const COIN_AGE_PREFIX: Bytes := [0x10]
  const MICRO_QUOTA_PREFIX: Bytes := [0x11]
  const RETENTION_DAYS: int := 7
  const PRUNE_BUDGET: nat := 256
  const SECONDS_PER_DAY: nat := 86400

  function CoinAgeKey(address: Bytes): Bytes { COIN_AGE_PREFIX + address }

  /** The exclusive upper bound for the keys strictly older than `day`. */
  function DayBound(day: nat): Bytes { MICRO_QUOTA_PREFIX + BigEndian(day, 8) }

  function MicroQuotaKey(day: nat, did: Bytes): Bytes { DayBound(day) + did }

  predicate UnderQuotaPrefix(k: Bytes) { k != [] && k[0] == 0x11 }

  /** Two quota keys are equal only for the same day and the same identity. */
  lemma QuotaKeyInjective(d: nat, did: Bytes, e: nat, eid: Bytes)
    requires d < TWO64 && e < TWO64
    ensures MicroQuotaKey(d, did) == MicroQuotaKey(e, eid) <==> d == e && did == eid
  {
    Capacities();
    BigEndianOrder(d, e, 8);
    var a, b := MicroQuotaKey(d, did), MicroQuotaKey(e, eid);
    assert a[1..9] == BigEndian(d, 8) && b[1..9] == BigEndian(e, 8);
    assert a[9..] == did && b[9..] == eid;
  }

  /** Byte order of quota keys is day order: a key lies below the bound of a day exactly when its own day
      is earlier, and an earlier day sorts before a later one whatever the identities are. */
  lemma QuotaKeyOrder(d: nat, did: Bytes, e: nat, eid: Bytes)
    requires d < TWO64 && e < TWO64
    ensures Less(MicroQuotaKey(d, did), DayBound(e)) <==> d < e
    ensures d < e ==> Less(MicroQuotaKey(d, did), MicroQuotaKey(e, eid))
    ensures !Less(MicroQuotaKey(d, did), MICRO_QUOTA_PREFIX)
  {
    Capacities();
    BigEndianOrder(d, e, 8);
    var a, b := BigEndian(d, 8), BigEndian(e, 8);
    assert MicroQuotaKey(d, did) == MICRO_QUOTA_PREFIX + (a + did);
    assert MicroQuotaKey(e, eid) == MICRO_QUOTA_PREFIX + (b + eid);
    LessUnderPrefix(MICRO_QUOTA_PREFIX, a + did, b);
    LessUnderPrefix(MICRO_QUOTA_PREFIX, a + did, b + eid);
    NotLessThanPrefix(MICRO_QUOTA_PREFIX, a + did);
    if d == e {
      NotLessThanPrefix(a, did);
    } else {
      LessDecidedByHead(a, b, did, []);
      assert b + [] == b;
      LessDecidedByHead(a, b, did, eid);
    }
  }

  /** The keys a prune may look at: the store range [prefix, bound of the cutoff day). */
  function Stale(store: Store, cutoff: nat): set<Bytes> {
    set k | k in store && !Less(k, MICRO_QUOTA_PREFIX) && Less(k, DayBound(cutoff))
  }

  /** That range never leaves the quota prefix. */
  lemma StaleIsUnderPrefix(k: Bytes, cutoff: nat)
    requires !Less(k, MICRO_QUOTA_PREFIX) && Less(k, DayBound(cutoff))
    ensures UnderQuotaPrefix(k)
  {
    assert DayBound(cutoff)[0] == 0x11;
  }

  function CounterOf(store: Store, day: nat, did: Bytes): nat {
    var k := MicroQuotaKey(day, did);
    if k in store then FromBigEndian(store[k]) else 0
  }

  /** uint64 addition of one, written back as eight bytes. */
  function Incremented(store: Store, day: nat, did: Bytes): Store {
    store[MicroQuotaKey(day, did) := BigEndian((CounterOf(store, day, did) + 1) % TWO64, 8)]
  }

  /** An increment adds one to its own counter and leaves every other key of the store alone. */
  lemma IncrementCounts(store: Store, day: nat, did: Bytes)
    requires day < TWO64 && CounterOf(store, day, did) + 1 < TWO64
    ensures var after := Incremented(store, day, did);
            && CounterOf(after, day, did) == CounterOf(store, day, did) + 1
            && (forall e: nat, eid :: e < TWO64 && (e != day || eid != did) ==> CounterOf(after, e, eid) == CounterOf(store, e, eid))
            && (forall k :: k != MicroQuotaKey(day, did) ==> (k in after <==> k in store) && (k in store ==> after[k] == store[k]))
  {
    Capacities();
    var n := CounterOf(store, day, did) + 1;
    assert n % TWO64 == n;
    DecodeEncode(n, 8);
    forall e: nat, eid | e < TWO64 && (e != day || eid != did)
      ensures CounterOf(Incremented(store, day, did), e, eid) == CounterOf(store, e, eid)
    {
      QuotaKeyInjective(day, did, e, eid);
    }
  }

  /** `removed` is the budget's worth of least stale keys. */
  predicate LowestStale(store: Store, cutoff: nat, removed: set<Bytes>) {
    && removed <= Stale(store, cutoff)
    && |removed| == Min(PRUNE_BUDGET, |Stale(store, cutoff)|)
    && forall r, k :: r in removed && k in Stale(store, cutoff) && k !in removed ==> Less(r, k)
  }

  lemma SameSizeDiffer(r: set<Bytes>, s: set<Bytes>)
    requires |r| == |s| && r != s
    ensures r - s != {} && s - r != {}
  {
    assert |r - s| == |r| - |r * s| && |s - r| == |s| - |s * r|;
    assert r * s == s * r;
    assert r - s == {} && s - r == {} ==> r == s;
  }

  /** The description above leaves no choice. */
  lemma LowestStaleIsUnique(store: Store, cutoff: nat, r: set<Bytes>, s: set<Bytes>)
    requires LowestStale(store, cutoff, r) && LowestStale(store, cutoff, s)
    ensures r == s
  {
    if r != s {
      SameSizeDiffer(r, s);
      var x :| x in r - s;
      var y :| y in s - r;
      LessTrichotomy(x, y);
    }
  }

  /** The day a prune at `now` counts back from. */
  function CutoffDay(now: nat): int { now / SECONDS_PER_DAY - RETENTION_DAYS }

  /** The relation between the store before and after one PruneMicroQuota. */
  ghost predicate Pruned(store: Store, after: Store, now: nat) {
    if CutoffDay(now) <= 0 then after == store
    else exists removed :: LowestStale(store, CutoffDay(now), removed) && after == store - removed
  }

  predicate Ascending(ks: seq<Bytes>) {
    forall i, j :: 0 <= i < j < |ks| ==> Less(ks[i], ks[j])
  }

  function Keys(ks: seq<Bytes>): set<Bytes> { set k | k in ks }

  class Keeper {
    var store: Store

    method GetMicroUsed(day: nat, did: Bytes) returns (n: nat)
      ensures n == CounterOf(store, day, did)
    {
      var k := MicroQuotaKey(day, did);
      if k !in store {
        return 0;
      }
      n := FromBigEndian(store[k]);
    }

    method IncrMicroUsed(day: nat, did: Bytes)
      modifies this
      ensures store == Incremented(old(store), day, did)
    {
      var used := GetMicroUsed(day, did);
      var n := (used + 1) % TWO64;
      store := store[MicroQuotaKey(day, did) := BigEndian(n, 8)];
    }

    method PruneMicroQuota(now: nat)
      modifies this
      ensures Pruned(old(store), store, now)
    {
      var cutoff := now / SECONDS_PER_DAY - RETENTION_DAYS;
      if cutoff <= 0 {
        return;
      }
      var it := Iterate(store, cutoff);
      var stale: seq<Bytes> := [];
      var n := 0;
      while n < |it| && n < PRUNE_BUDGET
        invariant 0 <= n <= |it| && n <= PRUNE_BUDGET
        invariant stale == it[..n]
      {
        stale := stale + [it[n]];
        n := n + 1;
      }
      FirstKeysAreLowest(store, cutoff, it, n);
      DeleteAll(stale);
    }

    method DeleteAll(ks: seq<Bytes>)
      modifies this
      ensures store == old(store) - Keys(ks)
    {
      for i := 0 to |ks|
        invariant store == old(store) - Keys(ks[..i])
      {
        assert Keys(ks[..i+1]) == Keys(ks[..i]) + {ks[i]};
        store := store - {ks[i]};
      }
      assert ks[..|ks|] == ks;
    }
  }

  /** The store's ascending iterator over the stale range. */
  method Iterate(store: Store, cutoff: nat) returns (ks: seq<Bytes>)
    ensures Ascending(ks) && Keys(ks) == Stale(store, cutoff)
  {
    var todo := Stale(store, cutoff);
    ks := [];
    while todo != {}
      invariant Ascending(ks) && Keys(ks) !! todo && Keys(ks) + todo == Stale(store, cutoff)
      decreases |todo|
    {
      var k :| k in todo;
      ks := InsertKey(ks, k);
      todo := todo - {k};
    }
  }

  method InsertKey(ks: seq<Bytes>, k: Bytes) returns (out: seq<Bytes>)
    requires Ascending(ks) && k !in ks
    ensures Ascending(out) && Keys(out) == Keys(ks) + {k}
  {
    var pos := 0;
    while pos < |ks| && Less(ks[pos], k)
      invariant 0 <= pos <= |ks|
      invariant forall i :: 0 <= i < pos ==> Less(ks[i], k)
    {
      pos := pos + 1;
    }
    forall i | pos <= i < |ks|
      ensures Less(k, ks[i])
    {
      LessTrichotomy(k, ks[pos]);
      if i > pos { LessTransitive(k, ks[pos], ks[i]); }
    }
    out := ks[..pos] + [k] + ks[pos..];
    assert ks == ks[..pos] + ks[pos..];
  }

  lemma {:induction false} AscendingIsDistinct(ks: seq<Bytes>)
    requires Ascending(ks)
    ensures |Keys(ks)| == |ks|
  {
    if ks != [] {
      var last := ks[|ks|-1];
      var init := ks[..|ks|-1];
      AscendingIsDistinct(init);
      forall i | 0 <= i < |init|
        ensures init[i] != last
      {
        LessTrichotomy(ks[i], last);
      }
      assert Keys(ks) == Keys(init) + {last};
    }
  }

  lemma FirstKeysAreLowest(store: Store, cutoff: nat, it: seq<Bytes>, n: nat)
    requires Ascending(it) && Keys(it) == Stale(store, cutoff) && n == Min(PRUNE_BUDGET, |it|)
    ensures LowestStale(store, cutoff, Keys(it[..n]))
  {
    AscendingIsDistinct(it);
    AscendingIsDistinct(it[..n]);
    forall r, k | r in Keys(it[..n]) && k in Stale(store, cutoff) && k !in Keys(it[..n])
      ensures Less(r, k)
    {
      var i :| 0 <= i < n && it[..n][i] == r;
      var j :| 0 <= j < |it| && it[j] == k;
      assert forall m :: 0 <= m < n ==> it[m] in it[..n];
    }
  }

  // ----- what one prune does, in days

  /** A prune touches no key at or after the cutoff day and no key outside the quota prefix, and of the
      counters it does remove none is younger than one it keeps. */
  lemma PruneIsSafe(store: Store, after: Store, now: nat)
    requires Pruned(store, after, now) && now < TWO63
    ensures forall k :: k in after ==> k in store && after[k] == store[k]
    ensures forall k :: k in store && !UnderQuotaPrefix(k) ==> k in after
    ensures forall d: nat, did :: CutoffDay(now) <= d < TWO64 ==> CounterOf(after, d, did) == CounterOf(store, d, did)
    ensures forall d, did, e, eid ::
              (&& 0 <= d < TWO64 && 0 <= e < TWO64
               && MicroQuotaKey(d, did) in store && MicroQuotaKey(d, did) !in after
               && MicroQuotaKey(e, eid) in after)
              ==> d <= e
  {
    var c := CutoffDay(now);
    if c > 0 {
      var removed :| LowestStale(store, c, removed) && after == store - removed;
      forall k | k in store && !UnderQuotaPrefix(k)
        ensures k in after
      {
        if k in removed { StaleIsUnderPrefix(k, c); }
      }
      forall d: nat, did | c <= d < TWO64
        ensures CounterOf(after, d, did) == CounterOf(store, d, did)
      {
        QuotaKeyOrder(d, did, c, []);
      }
      forall d, did, e, eid | 0 <= d < TWO64 && 0 <= e < TWO64
          && MicroQuotaKey(d, did) in store && MicroQuotaKey(d, did) !in after && MicroQuotaKey(e, eid) in after
        ensures d <= e
      {
        RemovedIsNoYounger(store, c, removed, d, did, e, eid);
      }
    }
  }

  lemma RemovedIsNoYounger(store: Store, c: nat, removed: set<Bytes>, d: nat, did: Bytes, e: nat, eid: Bytes)
    requires LowestStale(store, c, removed) && 0 < c < TWO64 && d < TWO64 && e < TWO64
    requires MicroQuotaKey(d, did) in removed
    requires MicroQuotaKey(e, eid) in store && MicroQuotaKey(e, eid) !in removed
    ensures d <= e
  {
    if e < d {
      QuotaKeyOrder(d, did, c, []);
      QuotaKeyOrder(e, eid, c, []);
      QuotaKeyOrder(e, eid, d, did);
      LessTrichotomy(MicroQuotaKey(d, did), MicroQuotaKey(e, eid));
      assert false;
    }
  }

  /** A prune whose cutoff is positive removes exactly min(256, n) of the n stale keys. */
  lemma PruneCount(store: Store, after: Store, now: nat)
    requires Pruned(store, after, now) && CutoffDay(now) > 0
    ensures Stale(after, CutoffDay(now)) <= Stale(store, CutoffDay(now))
    ensures |Stale(after, CutoffDay(now))| == |Stale(store, CutoffDay(now))| - Min(PRUNE_BUDGET, |Stale(store, CutoffDay(now))|)
  {
    var c := CutoffDay(now);
    var removed :| LowestStale(store, c, removed) && after == store - removed;
    assert Stale(after, c) == Stale(store, c) - removed;
    assert |Stale(store, c) - removed| == |Stale(store, c)| - |removed|;
  }

  /** The quota keys of the store that sort before `key`. */
  function Before(store: Store, key: Bytes): set<Bytes> { set k | k in store && !Less(k, [0x11]) && Less(k, key) }

  lemma StaleBefore(store: Store, cutoff: nat, key: Bytes)
    requires key in Stale(store, cutoff)
    ensures Before(store, key) == set k | k in Stale(store, cutoff) && Less(k, key)
  {
    forall k | k in Before(store, key)
      ensures k in Stale(store, cutoff)
    {
      LessTransitive(k, key, DayBound(cutoff));
    }
  }

  lemma LowestIsEarly(store: Store, cutoff: nat, removed: set<Bytes>, key: Bytes)
    requires LowestStale(store, cutoff, removed) && key in Stale(store, cutoff)
    ensures key in removed <==> |Before(store, key)| < PRUNE_BUDGET
  {
    StaleBefore(store, cutoff, key);
    var before := Before(store, key);
    LessIrreflexive(key);
    if key in removed {
      forall k | k in before
        ensures k in removed - {key}
      {
        if k !in removed { LessTransitive(key, k, key); }
      }
      SizeWithin(before, removed - {key});
    } else {
      assert removed <= before;
      SizeWithin(removed, before);
      SizeWithin(removed + {key}, Stale(store, cutoff));
    }
  }

  /** By day: a prune removes a counter exactly when its day is more than seven days back and fewer than 256 quota keys
      sort before it. */
  lemma PrunedByDay(store: Store, after: Store, now: nat, d: nat, did: Bytes)
    requires Pruned(store, after, now) && now < TWO63 && d < TWO64 && [0x11] + BigEndian(d, 8) + did in store
    ensures var key := [0x11] + BigEndian(d, 8) + did;
            key !in after <==> d + 7 < now / 86400 && |Before(store, key)| < 256
  {
    var key, c := [0x11] + BigEndian(d, 8) + did, CutoffDay(now);
    assert key == MicroQuotaKey(d, did);
    if c > 0 {
      var removed :| LowestStale(store, c, removed) && after == store - removed;
      QuotaKeyOrder(d, did, c, []);
      assert key in Stale(store, c) <==> d < c;
      if d < c {
        LowestIsEarly(store, c, removed, key);
      }
    }
  }
}
