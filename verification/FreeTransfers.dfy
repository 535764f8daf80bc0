/**
 Which transactions are free of charge, told from the transaction, the identities and the bytes of the store, and how
 much one identity can move free of charge in a day.
 */
module FreeTransfers {
  import opened Arith
  import opened Ante
  import opened Bank
  import opened Bytes
  import opened Fees
  import opened MapSums
  import opened Quota

  // ----- who pays nothing

  /** The address belongs to an identified human. */
  predicate Identified(env: Env, a: Address) { a in env.subjects && env.subjects[a] != [] }

  /** The eight-byte counter stored for an identity and a day, zero when there is none. */
  function Used(store: Store, day: nat, did: Bytes): nat {
    var key := [0x11] + BigEndian(day, 8) + did;
    if key in store then FromBigEndian(store[key]) else 0
  }

  /** The messages are one transfer of `v` uphi to `to`, an identified human, and `v` is below the threshold. */
  predicate Micro(p: FeeParams, env: Env, msgs: seq<Msg>, to: Address, v: int) {
    && msgs == [TransferMsg(to, Number(v))] && Identified(env, to)
    && p.microThreshold.Number? && v < p.microThreshold.value
  }

  /** Exactly one transfer, of an amount below the threshold, between two identified humans, the payer with quota left. */
  ghost predicate Free(c: Chain, env: Env, tx: Tx) {
    && (exists to, v :: Micro(c.params, env, tx.msgs, to, v))
    && Identified(env, tx.payer) && Used(c.store, c.now / 86400, env.subjects[tx.payer]) < c.params.microDailyQuota
  }

  lemma UsedIsTheCounter(store: Store, day: nat, did: Bytes)
    ensures Used(store, day, did) == CounterOf(store, day, did)
  {
    assert MicroQuotaKey(day, did) == [0x11] + BigEndian(day, 8) + did;
  }

  lemma ExemptIff(c: Chain, env: Env, tx: Tx)
    requires c.params.microThreshold.Number?
    ensures IsMicroExempt(c, env, tx.payer, tx.msgs) <==> Free(c, env, tx)
  {
    if Identified(env, tx.payer) {
      UsedIsTheCounter(c.store, c.now / 86400, env.subjects[tx.payer]);
    }
    if IsMicroExempt(c, env, tx.payer, tx.msgs) {
      var m := tx.msgs[0];
      assert Micro(c.params, env, tx.msgs, m.to, m.amount.value);
    }
  }

  /** A transaction that owes a fee is charged none exactly when it is free. */
  lemma FreeIff(c: Chain, env: Env, tx: Tx)
    requires ValidFeeParams(c.params) && FeesOwed(c.params, tx.msgs) > 0
    ensures Due(c, env, tx).total == 0 <==> Free(c, env, tx)
    ensures Due(c, env, tx).total != 0 ==> Due(c, env, tx).total == FeesOwed(c.params, tx.msgs)
  {
    DueIsBalanced(c, env, tx);
    ExemptIff(c, env, tx);
  }

  /** What the transaction has to pay, and who pays it: the granter of a fee that is not nothing, else the payer. */
  ghost function FeeOf(c: Chain, env: Env, tx: Tx): int { if Free(c, env, tx) then 0 else FeesOwed(c.params, tx.msgs) }

  ghost function ChargedAccount(c: Chain, env: Env, tx: Tx): Address {
    if tx.granter.Some? && FeeOf(c, env, tx) > 0 then tx.granter.value else tx.payer
  }

  /** What the company and the validators get of it. */
  ghost function CompanyPart(c: Chain, env: Env, tx: Tx): int {
    if Free(c, env, tx) then 0 else Split(c.params, tx.msgs).company
  }

  /** The routing `due` is the fee, and the company's part of it. */
  predicate Routes(due: FeeSplit, fee: int, company: int) { Balanced(due) && due.total == fee && due.company == company }

  lemma DueRoutes(c: Chain, env: Env, tx: Tx)
    requires ValidFeeParams(c.params)
    ensures Routes(Due(c, env, tx), FeeOf(c, env, tx), CompanyPart(c, env, tx))
  {
    ExemptIff(c, env, tx);
    SplitConserves(c.params, tx.msgs);
  }

  lemma DeductsFrom(c: Chain, env: Env, tx: Tx)
    requires ValidFeeParams(c.params)
    ensures DeductFrom(tx, Due(c, env, tx)) == ChargedAccount(c, env, tx)
  {
    DueRoutes(c, env, tx);
  }

  /** Accepted exactly when the fee collector is set, a granter who pays may and does grant it, the account charged exists
      and it holds the fee; the fee collector itself needs only the larger of the two shares. */
  lemma TxAcceptedIff(c: Chain, env: Env, tx: Tx)
    requires ValidFeeParams(c.params) && ValidBalances(c.bank)
    ensures var fee, company, from := FeeOf(c, env, tx), CompanyPart(c, env, tx), ChargedAccount(c, env, tx);
            AnteStep(c, env, tx).Accepted?
            <==> && env.collectorSet
                 && (tx.granter.Some? && fee > 0 ==> env.grantsEnabled && (tx.granter.value == tx.payer || env.grantAllows))
                 && from in env.accounts
                 && At(c.bank, from) >= if from == FEE_COLLECTOR then Max(fee - company, company) else fee
  {
    DueRoutes(c, env, tx);
    DeductsFrom(c, env, tx);
    ChargedIff(c.bank, DeductFrom(tx, Due(c, env, tx)), Due(c, env, tx));
  }

  /** `from` lost the fee, the fee collector and the revenue account gained its two parts, nobody else's balance and not
      the supply changed. */
  ghost predicate PaidBy(b: Balances, b': Balances, from: Address, fee: int, company: int) {
    && SumOf(b') == SumOf(b)
    && forall a :: At(b', a) == At(b, a) - (if a == from then fee else 0)
                                + (if a == FEE_COLLECTOR then fee - company else 0) + (if a == REVENUE then company else 0)
  }

  lemma MovedIsPaid(b: Balances, b': Balances, from: Address, due: FeeSplit)
    requires Balanced(due) && Moved(b, b', from, due)
    ensures PaidBy(b, b', from, due.total, due.company)
  {}

  /** An accepted transaction moves nothing when it is free, and otherwise exactly the fees its messages owe, from the
      account charged to the two module accounts. */
  lemma AcceptedPays(c: Chain, env: Env, tx: Tx)
    requires ValidFeeParams(c.params) && ValidBalances(c.bank) && AnteStep(c, env, tx).Accepted?
    ensures PaidBy(c.bank, AnteStep(c, env, tx).chain.bank, ChargedAccount(c, env, tx), FeeOf(c, env, tx), CompanyPart(c, env, tx))
  {
    DueRoutes(c, env, tx);
    DeductsFrom(c, env, tx);
    AcceptedMovesExactlyTheFee(c, env, tx);
    MovedIsPaid(c.bank, AnteStep(c, env, tx).chain.bank, ChargedAccount(c, env, tx), Due(c, env, tx));
  }

  predicate Finalized(tx: Tx) { !tx.simulate && !tx.checkTx }

  /** A finalized free transaction uses up one of the payer's exemptions of the day; any other leaves the store alone. */
  lemma AcceptedUses(c: Chain, env: Env, tx: Tx)
    requires ValidFeeParams(c.params) && AnteStep(c, env, tx).Accepted? && c.now < TWO63
    ensures var c' := AnteStep(c, env, tx).chain;
            if Free(c, env, tx) && Finalized(tx) then
              var day, did := c.now / 86400, env.subjects[tx.payer];
              && Used(c'.store, day, did) == Used(c.store, day, did) + 1
              && c'.store - {MicroQuotaKey(day, did)} == c.store - {MicroQuotaKey(day, did)}
            else c'.store == c.store
  {
    ExemptIff(c, env, tx);
    if Free(c, env, tx) && Finalized(tx) {
      var day, did := c.now / 86400, env.subjects[tx.payer];
      UsedIsTheCounter(c.store, day, did);
      UsedIsTheCounter(AnteStep(c, env, tx).chain.store, day, did);
      IncrementCounts(c.store, day, did);
    }
  }

  // ----- how much moves free of charge

  /** The event is an accepted, finalized, free transfer of this identity on this day. */
  ghost predicate FreeDelivery(h: Recorded, e: Event, day: nat, did: Bytes) {
    && e.Deliver?
    && AnteStep(h.chain, e.env, e.tx).Accepted? && Finalized(e.tx) && Free(h.chain, e.env, e.tx)
    && h.chain.now / 86400 == day && e.env.subjects[e.tx.payer] == did
  }

  ghost function FreeAmount(h: Recorded, e: Event, day: nat, did: Bytes): int {
    if FreeDelivery(h, e, day, did) then e.tx.msgs[0].amount.value else 0
  }

  /** What this identity moved free of charge on this day in the first k events. */
  ghost function FreelyMoved(hs: seq<Recorded>, es: seq<Event>, k: nat, day: nat, did: Bytes): int
    requires |hs| == |es| + 1 && k <= |es|
  {
    if k == 0 then 0 else FreelyMoved(hs, es, k - 1, day, did) + FreeAmount(hs[k-1], es[k-1], day, did)
  }

  function One(yes: bool): nat { if yes then 1 else 0 }

  ghost function FreeCount(hs: seq<Recorded>, es: seq<Event>, k: nat, day: nat, did: Bytes): nat
    requires |hs| == |es| + 1 && k <= |es|
  {
    if k == 0 then 0 else FreeCount(hs, es, k - 1, day, did) + One(FreeDelivery(hs[k-1], es[k-1], day, did))
  }

  /** Bounds on the quotas and the thresholds in force on a day. */
  ghost predicate InForce(hs: seq<Recorded>, day: nat, quota: nat, threshold: int) {
    forall i :: 0 <= i < |hs| && hs[i].chain.now / 86400 == day && hs[i].chain.params.microThreshold.Number? ==>
      hs[i].chain.params.microDailyQuota <= quota && hs[i].chain.params.microThreshold.value <= threshold
  }

  /** The step appends a grant of this identity and day exactly when it is such a transfer. */
  lemma GrantsCountFree(h: Recorded, e: Event, h': Recorded, day: nat, did: Bytes)
    requires QuotaInv(h) && Next(h, e, h')
    ensures Granted(h'.grants, day, did) == Granted(h.grants, day, did) + One(FreeDelivery(h, e, day, did))
  {
    if e.Deliver? && AnteStep(h.chain, e.env, e.tx).Accepted? {
      ExemptIff(h.chain, e.env, e.tx);
      if Consumes(h.chain, e.env, e.tx) {
        GrantedSnoc(h.grants, Grant(Day(h.chain.now), Subject(e.env, e.tx.payer).value), day, did);
      }
    }
  }

  ghost predicate GrantedAt(hs: seq<Recorded>, es: seq<Event>, k: nat, day: nat, did: Bytes)
    requires |hs| == |es| + 1 && k < |es|
  {
    Granted(hs[k+1].grants, day, did) == Granted(hs[k].grants, day, did) + One(FreeDelivery(hs[k], es[k], day, did))
  }

  lemma {:induction false} GrantsAddUp(hs: seq<Recorded>, es: seq<Event>, k: nat, day: nat, did: Bytes)
    requires |hs| == |es| + 1 && k <= |es| && forall i: nat :: i < |es| ==> GrantedAt(hs, es, i, day, did)
    ensures Granted(hs[k].grants, day, did) == Granted(hs[0].grants, day, did) + FreeCount(hs, es, k, day, did)
  {
    if k > 0 {
      GrantsAddUp(hs, es, k - 1, day, did);
      assert GrantedAt(hs, es, k - 1, day, did);
    }
  }

  lemma GrantsBound(hs: seq<Recorded>, es: seq<Event>, k: nat, day: nat, did: Bytes)
    requires IsRun(hs, es) && QuotaInv(hs[0]) && k <= |es|
    ensures FreeCount(hs, es, k, day, did) <= Granted(hs[k].grants, day, did)
  {
    forall i: nat | i < |es|
      ensures GrantedAt(hs, es, i, day, did)
    {
      RunKeepsQuota(hs, es, i);
      GrantsCountFree(hs[i], es[i], hs[i+1], day, did);
    }
    GrantsAddUp(hs, es, k, day, did);
  }

  lemma FreeLeavesRoom(h: Recorded, e: Event, day: nat, did: Bytes)
    requires QuotaInv(h) && FreeDelivery(h, e, day, did)
    ensures Granted(h.grants, day, did) < h.chain.params.microDailyQuota
    ensures FreeAmount(h, e, day, did) < h.chain.params.microThreshold.value
  {
    UsedIsTheCounter(h.chain.store, day, did);
    assert CounterOf(h.chain.store, day, did) == Granted(h.grants, day, did);
  }

  lemma OneMoreFree(hs: seq<Recorded>, es: seq<Event>, k: nat, day: nat, did: Bytes, quota: nat, threshold: int)
    requires IsRun(hs, es) && QuotaInv(hs[0]) && k < |es| && InForce(hs, day, quota, threshold)
    requires FreeDelivery(hs[k], es[k], day, did)
    ensures FreeCount(hs, es, k, day, did) < quota && FreeAmount(hs[k], es[k], day, did) <= threshold - 1
  {
    RunKeepsQuota(hs, es, k);
    GrantsBound(hs, es, k, day, did);
    FreeLeavesRoom(hs[k], es[k], day, did);
  }

  lemma AddsUp(moved: int, v: int, n: nat, top: int)
    requires moved <= n * top && v <= top
    ensures moved + v <= (n + 1) * top
  {
    Distribute(n, 1, top);
  }

  /** Every free delivery finds fewer than `quota` before it and moves at most `top`. */
  ghost predicate Limited(hs: seq<Recorded>, es: seq<Event>, day: nat, did: Bytes, quota: nat, top: int)
    requires |hs| == |es| + 1
  {
    forall k :: 0 <= k < |es| && FreeDelivery(hs[k], es[k], day, did) ==>
      FreeCount(hs, es, k, day, did) < quota && FreeAmount(hs[k], es[k], day, did) <= top
  }

  lemma {:induction false} FewFree(hs: seq<Recorded>, es: seq<Event>, k: nat, day: nat, did: Bytes, quota: nat, top: int)
    requires |hs| == |es| + 1 && k <= |es| && Limited(hs, es, day, did, quota, top)
    ensures FreeCount(hs, es, k, day, did) <= quota
    ensures FreelyMoved(hs, es, k, day, did) <= FreeCount(hs, es, k, day, did) * top
  {
    if k > 0 {
      FewFree(hs, es, k - 1, day, did, quota, top);
      if FreeDelivery(hs[k-1], es[k-1], day, did) {
        AddsUp(FreelyMoved(hs, es, k - 1, day, did), FreeAmount(hs[k-1], es[k-1], day, did),
               FreeCount(hs, es, k - 1, day, did), top);
      }
    }
  }

  lemma Times(moved: int, n: nat, quota: nat, threshold: int)
    requires n <= quota && moved <= n * (threshold - 1)
    ensures moved <= quota * Max(threshold - 1, 0) && (quota > 0 && threshold > 0 ==> moved < quota * threshold)
  {
    if threshold >= 1 {
      MulMono(n, quota, threshold - 1);
      Distribute(threshold - 1, 1, quota);
    } else {
      MulMono(threshold - 1, 0, n);
    }
  }

  /** Over every interleaving of blocks, transactions, parameter changes and other execution, what one identity moves free
      of charge in a day is below the day's largest quota times the largest threshold in force. */
  lemma FreeMovesAreBounded(hs: seq<Recorded>, es: seq<Event>, k: nat, day: nat, did: Bytes, quota: nat, threshold: int)
    requires IsRun(hs, es) && QuotaInv(hs[0]) && k <= |es| && InForce(hs, day, quota, threshold)
    ensures FreelyMoved(hs, es, k, day, did) <= quota * Max(threshold - 1, 0)
    ensures quota > 0 && threshold > 0 ==> FreelyMoved(hs, es, k, day, did) < quota * threshold
  {
    forall i | 0 <= i < |es| && FreeDelivery(hs[i], es[i], day, did)
      ensures FreeCount(hs, es, i, day, did) < quota && FreeAmount(hs[i], es[i], day, did) <= threshold - 1
    {
      OneMoreFree(hs, es, i, day, did, quota, threshold);
    }
    FewFree(hs, es, k, day, did, quota, threshold - 1);
    Times(FreelyMoved(hs, es, k, day, did), FreeCount(hs, es, k, day, did), quota, threshold);
  }
}
