/**
 The raw micro-quota records the coin genesis carries: their rule, their export and their import
 (x/coin/types/genesis.go, x/coin/keeper/genesis.go).
 */
module QuotaGenesis {
  import opened Bytes
  import opened Quota
  import opened StoreEntry
  import opened Ante

  const QUOTA_RULE := Rule("micro-exemption quota", MICRO_QUOTA_PREFIX, BoundedUint64(TWO64 - 1))

  /** ExportGenesis lists every record under the quota prefix once, in some order. */
  ghost predicate IsExport(store: Store, entries: seq<Entry>) {
    && DistinctKeys(entries)
    && (forall i :: 0 <= i < |entries| ==>
          && UnderQuotaPrefix(entries[i].key)
          && entries[i].key in store && store[entries[i].key] == entries[i].value)
    && (forall k :: k in store && UnderQuotaPrefix(k) ==> exists i :: 0 <= i < |entries| && entries[i].key == k)
  }

  /** The quota records the genesis rule accepts. */
  predicate GoodCounters(store: Store) {
    forall k :: k in store && UnderQuotaPrefix(k) ==> GoodCounter(k, store[k])
  }

  predicate GoodCounter(k: Bytes, v: Bytes) {
    |k| > 1 && |v| == 8 && FromBigEndian(v) < TWO64 - 1
  }

  lemma OneRuleJudges(e: Entry)
    requires UnderQuotaPrefix(e.key)
    ensures Good(e, [QUOTA_RULE]) <==> GoodCounter(e.key, e.value)
  {
    assert Ordered([QUOTA_RULE][1..]) == [];
    assert Ordered([QUOTA_RULE]) == [QUOTA_RULE];
    assert e.key[..1] == MICRO_QUOTA_PREFIX;
    assert Under(e.key, QUOTA_RULE) <==> |e.key| > 1;
    assert FirstHit(e.key, [QUOTA_RULE][1..]) == NoRule;
  }

  /** An export validates exactly when every counter is eight bytes wide and one increment short of wrapping. */
  lemma ExportValidatesIff(store: Store, entries: seq<Entry>)
    requires IsExport(store, entries)
    ensures Acceptable(entries, [QUOTA_RULE]) <==> GoodCounters(store)
  {
    forall i | 0 <= i < |entries|
      ensures Good(entries[i], [QUOTA_RULE]) <==> GoodCounter(entries[i].key, entries[i].value)
    {
      OneRuleJudges(entries[i]);
    }
  }

  /** InitGenesis writes the records verbatim. */
  function Written(store: Store, entries: seq<Entry>): Store {
    if entries == [] then store
    else var n := |entries| - 1; Written(store, entries[..n])[entries[n].key := entries[n].value]
  }

  /** IsGenesisStoreKey: strictly under the quota prefix. */
  predicate IsGenesisKey(k: Bytes) { UnderQuotaPrefix(k) && |k| > 1 }

  /** The import loop stops at a key outside the quota prefix. */
  method WriteEntries(store: Store, entries: seq<Entry>) returns (ok: bool, out: Store)
    ensures ok <==> forall i :: 0 <= i < |entries| ==> IsGenesisKey(entries[i].key)
    ensures ok ==> out == Written(store, entries)
  {
    out := store;
    for i := 0 to |entries|
      invariant out == Written(store, entries[..i])
      invariant forall k :: 0 <= k < i ==> IsGenesisKey(entries[k].key)
    {
      assert entries[..i + 1][..i] == entries[..i];
      if !(|entries[i].key| > 1 && entries[i].key[..1] == MICRO_QUOTA_PREFIX) {
        assert !IsGenesisKey(entries[i].key) by {
          assert |entries[i].key| > 1 ==> entries[i].key[..1] == [entries[i].key[0]];
        }
        return false, out;
      }
      assert entries[i].key[0] == entries[i].key[..1][0];
      out := out[entries[i].key := entries[i].value];
    }
    assert entries[..|entries|] == entries;
    ok := true;
  }

  /** Validation leaves that refusal nothing to refuse. */
  lemma AcceptableKeysAreGenesisKeys(entries: seq<Entry>)
    requires Acceptable(entries, [QUOTA_RULE])
    ensures forall i :: 0 <= i < |entries| ==> IsGenesisKey(entries[i].key)
  {
    forall i | 0 <= i < |entries|
      ensures IsGenesisKey(entries[i].key)
    {
      assert Good(entries[i], [QUOTA_RULE]);
      LongestMember(entries[i].key, [QUOTA_RULE]);
      assert Under(entries[i].key, QUOTA_RULE);
      assert entries[i].key[..1][0] == entries[i].key[0];
    }
  }

  lemma {:induction false} WrittenRecords(store: Store, entries: seq<Entry>, k: Bytes)
    requires DistinctKeys(entries)
    ensures forall i :: 0 <= i < |entries| && entries[i].key == k ==>
              k in Written(store, entries) && Written(store, entries)[k] == entries[i].value
    ensures (forall i :: 0 <= i < |entries| ==> entries[i].key != k) ==>
              (k in Written(store, entries) <==> k in store) && (k in store ==> Written(store, entries)[k] == store[k])
  {
    if entries != [] {
      WrittenRecords(store, entries[..|entries| - 1], k);
    }
  }

  /** Importing an export into a store without quota records restores every one of them and nothing else. */
  lemma ImportUndoesExport(store: Store, entries: seq<Entry>, blank: Store)
    requires IsExport(store, entries) && forall k :: k in blank ==> !UnderQuotaPrefix(k)
    ensures SameQuotaKeys(Written(blank, entries), store)
    ensures forall k :: !UnderQuotaPrefix(k) ==>
              (k in Written(blank, entries) <==> k in blank) && (k in blank ==> Written(blank, entries)[k] == blank[k])
  {
    forall k
      ensures UnderQuotaPrefix(k) ==> (k in Written(blank, entries) <==> k in store)
                                      && (k in store ==> Written(blank, entries)[k] == store[k])
      ensures !UnderQuotaPrefix(k) ==> (k in Written(blank, entries) <==> k in blank)
                                       && (k in blank ==> Written(blank, entries)[k] == blank[k])
    {
      WrittenRecords(blank, entries, k);
    }
  }

  // ----- runs

  lemma IncrementKeepsCounters(store: Store, day: nat, did: Bytes)
    requires GoodCounters(store) && CounterOf(store, day, did) + 2 < TWO64
    ensures GoodCounters(Incremented(store, day, did))
  {
    Capacities();
    var n := CounterOf(store, day, did) + 1;
    assert n % TWO64 == n;
    DecodeEncode(n, 8);
  }

  lemma StepKeepsCounters(h: Recorded, e: Event, h': Recorded)
    requires QuotaInv(h) && Next(h, e, h') && GoodCounters(h.chain.store)
    ensures GoodCounters(h'.chain.store)
  {
    match e {
      case Deliver(env, tx) =>
        if AnteStep(h.chain, env, tx).Accepted? && Consumes(h.chain, env, tx) {
          var did := Subject(env, tx.payer).value;
          assert CounterOf(h.chain.store, Day(h.chain.now), did) <= h.dayPeak;
          IncrementKeepsCounters(h.chain.store, Day(h.chain.now), did);
        }
      case _ =>
    }
  }

  lemma RunStepKeepsCounters(hs: seq<Recorded>, es: seq<Event>, k: nat)
    requires IsRun(hs, es) && k < |es| && QuotaInv(hs[0]) && GoodCounters(hs[k].chain.store)
    ensures GoodCounters(hs[k + 1].chain.store)
  {
    RunKeepsQuota(hs, es, k);
    StepKeepsCounters(hs[k], es[k], hs[k + 1]);
  }

  /** Whatever the chain does, its quota records export to a list that validates and imports back exactly. */
  lemma {:induction false} RunKeepsCounters(hs: seq<Recorded>, es: seq<Event>, k: nat)
    requires IsRun(hs, es) && QuotaInv(hs[0]) && GoodCounters(hs[0].chain.store) && k <= |es|
    ensures GoodCounters(hs[k].chain.store)
  {
    if k > 0 {
      RunKeepsCounters(hs, es, k - 1);
      RunStepKeepsCounters(hs, es, k - 1);
    }
  }

  lemma RunExportsItsQuota(hs: seq<Recorded>, es: seq<Event>, k: nat, entries: seq<Entry>)
    requires IsRun(hs, es) && QuotaInv(hs[0]) && GoodCounters(hs[0].chain.store) && k <= |es|
    requires IsExport(hs[k].chain.store, entries)
    ensures Acceptable(entries, [QUOTA_RULE])
    ensures SameQuotaKeys(Written(map[], entries), hs[k].chain.store)
  {
    RunKeepsCounters(hs, es, k);
    ExportValidatesIff(hs[k].chain.store, entries);
    ImportUndoesExport(hs[k].chain.store, entries, map[]);
  }
}
