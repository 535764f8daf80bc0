/**
 The fixed-fee ante handler of app/ante/fee.go with the micro-exemption decision of x/coin/keeper/fee.go,
 and the runs of a chain that interleaves transactions, begin-block prunes and parameter changes.
 */
module Ante {
  import opened Arith
  import opened Bytes
  import opened MapSums
  import opened Bank
  import opened Fees
  import opened Quota

  /** The two module accounts, by name. */
  const FEE_COLLECTOR: Address := Ascii("fee_collector")
  const REVENUE: Address := Ascii("phi_revenue")

  datatype Option<T> = None | Some(value: T)

  datatype Chain = Chain(bank: Balances, store: Store, now: nat, params: FeeParams)

  datatype Tx = Tx(payer: Address, granter: Option<Address>, msgs: seq<Msg>, simulate: bool, checkTx: bool)

  /** What the other modules answer during one transaction: the DID of an address, the accounts that
      exist, whether fee grants are wired and allow this fee, and whether the collector account is set. */
  datatype Env = Env(subjects: map<Address, Bytes>, accounts: set<Address>, grantsEnabled: bool, grantAllows: bool, collectorSet: bool)

  datatype Outcome = Rejected | Accepted(chain: Chain)

  function Day(now: nat): nat { now / SECONDS_PER_DAY }

  function Subject(env: Env, a: Address): Option<Bytes> {
    if a in env.subjects && env.subjects[a] != [] then Some(env.subjects[a]) else None
  }

  function ThresholdOf(p: FeeParams): int {
    if p.microThreshold.Number? then p.microThreshold.value else 0
  }

  predicate IsMicroExempt(c: Chain, env: Env, payer: Address, msgs: seq<Msg>) {
    && c.params.microDailyQuota != 0
    && |msgs| == 1 && msgs[0].TransferMsg?
    && msgs[0].amount.Number? && msgs[0].amount.value < ThresholdOf(c.params)
    && Subject(env, payer).Some? && Subject(env, msgs[0].to).Some?
    && CounterOf(c.store, Day(c.now), Subject(env, payer).value) < c.params.microDailyQuota
  }

  /** The fee routing this transaction is charged: nothing when exempt. */
  function Due(c: Chain, env: Env, tx: Tx): FeeSplit {
    if IsMicroExempt(c, env, tx.payer, tx.msgs) then NO_FEE else Split(c.params, tx.msgs)
  }

  function PaysWithGrant(tx: Tx, due: FeeSplit): bool { tx.granter.Some? && due.total > 0 }

  function DeductFrom(tx: Tx, due: FeeSplit): Address {
    if PaysWithGrant(tx, due) then tx.granter.value else tx.payer
  }

  predicate GrantOk(env: Env, tx: Tx, due: FeeSplit) {
    PaysWithGrant(tx, due) ==> env.grantsEnabled && (tx.granter.value != tx.payer ==> env.grantAllows)
  }

  function SendIfPositive(b: Balances, from: Address, to: Address, amount: int): SendResult {
    if amount > 0 then Send(b, from, to, amount) else Sent(b)
  }

  function Charged(b: Balances, from: Address, due: FeeSplit): SendResult {
    if due.total <= 0 then Sent(b)
    else
      var first := SendIfPositive(b, from, FEE_COLLECTOR, due.validator);
      if first.Refused? then Refused else SendIfPositive(first.balances, from, REVENUE, due.company)
  }

  /** What the account charged must hold; a send by the fee collector to itself costs it nothing. */
  function Needed(from: Address, due: FeeSplit): int {
    if from == FEE_COLLECTOR then Max(due.validator, due.company) else due.total
  }

  /** What charging `from` adds to account `a`, module accounts included. */
  function Change(a: Address, from: Address, due: FeeSplit): int {
    (if a == FEE_COLLECTOR then due.validator else 0) + (if a == REVENUE then due.company else 0)
    - (if a == from then due.total else 0)
  }

  /** Exactly the fee moved: every account by its change, and no supply. */
  ghost predicate Moved(b: Balances, b': Balances, from: Address, due: FeeSplit) {
    && ValidBalances(b') && SumOf(b') == SumOf(b)
    && forall a :: At(b', a) == At(b, a) + Change(a, from, due)
  }

  /** The events of an accepted transaction: its fee and payer, then one record for each leg of the split. */
  datatype Notice = TxFee(fee: int, payer: Address) | RevenueCollected(stream: Stream, url: string, amount: int)

  function Revenues(legs: seq<Leg>): seq<Notice> {
    seq(|legs|, i requires 0 <= i < |legs| => RevenueCollected(legs[i].stream, legs[i].url, legs[i].amount))
  }

  function Announced(from: Address, due: FeeSplit): seq<Notice> {
    [TxFee(due.total, from)] + Revenues(due.legs)
  }

  /** A granted exemption is recorded only when the transaction is finalized. */
  predicate Consumes(c: Chain, env: Env, tx: Tx) {
    IsMicroExempt(c, env, tx.payer, tx.msgs) && !tx.simulate && !tx.checkTx
  }

  function AnteStep(c: Chain, env: Env, tx: Tx): Outcome {
    var due := Due(c, env, tx);
    var from := DeductFrom(tx, due);
    if !env.collectorSet || !GrantOk(env, tx, due) || from !in env.accounts then Rejected
    else
      match Charged(c.bank, from, due)
      case Refused => Rejected
      case Sent(b) =>
        Accepted(c.(bank := b,
                    store := if Consumes(c, env, tx)
                             then Incremented(c.store, Day(c.now), Subject(env, tx.payer).value)
                             else c.store))
  }

  class FixedFeeDecorator {
    var bank: Balances
    const coin: Quota.Keeper

    constructor (b: Balances, k: Quota.Keeper)
      ensures bank == b && coin == k
    {
      bank, coin := b, k;
    }

    ghost function View(now: nat, params: FeeParams): Chain
      reads this, coin
    {
      Chain(bank, coin.store, now, params)
    }

    /** Works on a cached bank that is written back only when nothing failed. */
    method AnteHandle(now: nat, params: FeeParams, env: Env, tx: Tx) returns (ok: bool, events: seq<Notice>)
      modifies this, coin
      ensures match AnteStep(old(View(now, params)), env, tx)
              case Rejected => !ok && View(now, params) == old(View(now, params)) && events == []
              case Accepted(c) =>
                var due := Due(old(View(now, params)), env, tx);
                ok && View(now, params) == c && events == Announced(DeductFrom(tx, due), due)
    {
      if !env.collectorSet {
        return false, [];
      }
      var deductFrom, due := tx.payer, NO_FEE;
      var exempt := IsMicroExempt(Chain(bank, coin.store, now, params), env, tx.payer, tx.msgs);
      if !exempt {
        due := ComputeFeeSplit(params, tx.msgs);
      }
      if tx.granter.Some? && due.total > 0 {
        if !env.grantsEnabled {
          return false, [];
        } else if tx.granter.value != tx.payer {
          if !env.grantAllows {
            return false, [];
          }
        }
        deductFrom := tx.granter.value;
      }
      if deductFrom !in env.accounts {
        return false, [];
      }
      var charged := ChargeFee(bank, deductFrom, due);
      if charged.Refused? {
        return false, [];
      }
      bank := charged.balances;
      events := EmitEvents(deductFrom, due);
      if exempt && !tx.simulate && !tx.checkTx {
        ConsumeMicroExemption(now, env, tx.payer);
      }
      ok := true;
    }

    /** Both legs are sends on a cached bank; one that fails discards them. */
    static method ChargeFee(b: Balances, from: Address, due: FeeSplit) returns (r: SendResult)
      ensures r == Charged(b, from, due)
      ensures ValidBalances(b) && Balanced(due) ==>
                match r
                case Refused => At(b, from) < Needed(from, due)
                case Sent(b') => At(b, from) >= Needed(from, due) && Moved(b, b', from, due)
    {
      r := Sent(b);
      if due.total > 0 {
        if due.validator > 0 {
          r := Send(b, from, FEE_COLLECTOR, due.validator);
        }
        if r.Sent? && due.company > 0 {
          r := Send(r.balances, from, REVENUE, due.company);
        }
      }
      if ValidBalances(b) && Balanced(due) {
        ChargedIff(b, from, due);
      }
    }

    static method EmitEvents(from: Address, due: FeeSplit) returns (events: seq<Notice>)
      ensures events == Announced(from, due)
    {
      events := [TxFee(due.total, from)];
      for i := 0 to |due.legs|
        invariant events == [TxFee(due.total, from)] + Revenues(due.legs[..i])
      {
        var leg := due.legs[i];
        events := events + [RevenueCollected(leg.stream, leg.url, leg.amount)];
        assert Revenues(due.legs[..i+1]) == Revenues(due.legs[..i]) + [RevenueCollected(leg.stream, leg.url, leg.amount)];
      }
      assert due.legs[..|due.legs|] == due.legs;
    }

    method ConsumeMicroExemption(now: nat, env: Env, payer: Address)
      modifies coin
      ensures coin.store == match Subject(env, payer)
                            case None => old(coin.store)
                            case Some(did) => Incremented(old(coin.store), Day(now), did)
    {
      var subject := Subject(env, payer);
      if subject.None? {
        return;
      }
      coin.IncrMicroUsed(now / SECONDS_PER_DAY, subject.value);
    }
  }

  // ----- an accepted transaction moves exactly its fee

  /** A send moves `amount` from one account to the other, even when they are the same. */
  lemma SendIfPositiveMoves(b: Balances, from: Address, to: Address, amount: nat)
    requires ValidBalances(b)
    ensures SendIfPositive(b, from, to, amount).Refused? <==> At(b, from) < amount
    ensures At(b, from) >= amount ==>
              var b' := SendIfPositive(b, from, to, amount).balances;
              && ValidBalances(b') && SumOf(b') == SumOf(b)
              && forall a :: At(b', a) == At(b, a) + (if a == to then amount else 0) - (if a == from then amount else 0)
  {
    if 0 < amount <= At(b, from) { SendConserves(b, from, to, amount); }
  }

  /** The fee is refused exactly when the account charged does not hold it; otherwise exactly the fee moves. */
  lemma ChargedIff(b: Balances, from: Address, due: FeeSplit)
    requires ValidBalances(b) && Balanced(due)
    ensures match Charged(b, from, due)
            case Refused => At(b, from) < Needed(from, due)
            case Sent(b') => At(b, from) >= Needed(from, due) && Moved(b, b', from, due)
  {
    if due.total > 0 {
      SendIfPositiveMoves(b, from, FEE_COLLECTOR, due.validator);
      var first := SendIfPositive(b, from, FEE_COLLECTOR, due.validator);
      if first.Sent? {
        SendIfPositiveMoves(first.balances, from, REVENUE, due.company);
      }
    }
  }

  lemma DueIsBalanced(c: Chain, env: Env, tx: Tx)
    requires ValidFeeParams(c.params)
    ensures var due := Due(c, env, tx);
            Balanced(due) && due.total == if IsMicroExempt(c, env, tx.payer, tx.msgs) then 0 else FeesOwed(c.params, tx.msgs)
  {
    SplitConserves(c.params, tx.msgs);
  }

  lemma AcceptedIsCharged(c: Chain, env: Env, tx: Tx)
    requires AnteStep(c, env, tx).Accepted?
    ensures var due := Due(c, env, tx);
            Charged(c.bank, DeductFrom(tx, due), due) == Sent(AnteStep(c, env, tx).chain.bank)
  {}

  /** Whoever pays, be it one of the two module accounts, loses exactly the sum of the per-message fees (nothing when
      exempt), the module accounts gain exactly their shares, nobody else is touched and the uphi supply is unchanged. */
  lemma AcceptedMovesExactlyTheFee(c: Chain, env: Env, tx: Tx)
    requires ValidFeeParams(c.params) && ValidBalances(c.bank)
    requires AnteStep(c, env, tx).Accepted?
    ensures var c', due := AnteStep(c, env, tx).chain, Due(c, env, tx);
            && due.total == (if IsMicroExempt(c, env, tx.payer, tx.msgs) then 0 else FeesOwed(c.params, tx.msgs))
            && due.total == due.validator + due.company
            && Moved(c.bank, c'.bank, DeductFrom(tx, due), due)
  {
    var due := Due(c, env, tx);
    DueIsBalanced(c, env, tx);
    AcceptedIsCharged(c, env, tx);
    ChargedIff(c.bank, DeductFrom(tx, due), due);
  }

  /** What the events say was collected for a stream. */
  function Collected(events: seq<Notice>, s: Stream): int {
    if events == [] then 0
    else (if events[0].RevenueCollected? && events[0].stream == s then events[0].amount else 0) + Collected(events[1..], s)
  }

  lemma {:induction false} RevenuesCollect(legs: seq<Leg>, s: Stream)
    ensures Collected(Revenues(legs), s) == LegSum(legs, s)
  {
    if legs != [] {
      RevenuesCollect(legs[1..], s);
      assert Revenues(legs)[1..] == Revenues(legs[1..]);
    }
  }

  lemma AnnouncedCollects(from: Address, due: FeeSplit, s: Stream)
    ensures Collected(Announced(from, due), s) == LegSum(due.legs, s)
  {
    RevenuesCollect(due.legs, s);
    assert Announced(from, due)[1..] == Revenues(due.legs);
  }

  lemma AnnouncedArePositive(from: Address, due: FeeSplit, i: nat)
    requires Balanced(due) && 0 < i < |Announced(from, due)|
    ensures var e := Announced(from, due)[i]; e.RevenueCollected? && e.amount > 0
  {
    assert Announced(from, due)[i] == Revenues(due.legs)[i - 1];
    assert due.legs[i - 1].amount > 0;
  }

  /** The events account for the fee stream by stream, and each record is of a positive amount. */
  predicate AccountFor(events: seq<Notice>, from: Address, due: FeeSplit) {
    && Collected(events, Validator) == due.validator && Collected(events, Company) == due.company
    && |events| > 0 && events[0] == TxFee(due.validator + due.company, from)
    && forall i :: 0 < i < |events| ==> events[i].RevenueCollected? && events[i].amount > 0
  }

  lemma AnnouncedAccountFor(from: Address, due: FeeSplit)
    requires Balanced(due)
    ensures AccountFor(Announced(from, due), from, due)
  {
    AnnouncedCollects(from, due, Validator);
    AnnouncedCollects(from, due, Company);
    forall i | 0 < i < |Announced(from, due)|
      ensures var e := Announced(from, due)[i]; e.RevenueCollected? && e.amount > 0
    {
      AnnouncedArePositive(from, due, i);
    }
  }

  lemma EventsAccountForTheFee(c: Chain, env: Env, tx: Tx)
    requires ValidFeeParams(c.params)
    ensures var due := Due(c, env, tx);
            AccountFor(Announced(DeductFrom(tx, due), due), DeductFrom(tx, due), due)
  {
    DueIsBalanced(c, env, tx);
    AnnouncedAccountFor(DeductFrom(tx, Due(c, env, tx)), Due(c, env, tx));
  }

  // ----- runs

  datatype Grant = Grant(day: nat, did: Bytes)

  /** A chain with its history: the exemptions granted so far, and the largest quota in force since the
      current day began. */
  datatype Recorded = Recorded(chain: Chain, grants: seq<Grant>, dayPeak: nat)

  function Granted(grants: seq<Grant>, day: nat, did: Bytes): nat {
    if grants == [] then 0
    else Granted(grants[..|grants|-1], day, did) + (if grants[|grants|-1] == Grant(day, did) then 1 else 0)
  }

  datatype Event =
    | BeginBlock(time: nat)
    | Deliver(env: Env, tx: Tx)
    | UpdateParams(params: FeeParams)
    | Elsewhere

  /** The two stores agree on every quota key. */
  ghost predicate SameQuotaKeys(a: Store, b: Store) {
    forall k :: UnderQuotaPrefix(k) ==> (k in a <==> k in b) && (k in a ==> a[k] == b[k])
  }

  ghost predicate Next(h: Recorded, e: Event, h': Recorded) {
    match e
    case BeginBlock(t) =>
      && h.chain.now <= t < TWO63
      && h'.chain.now == t && h'.chain.params == h.chain.params && h'.chain.bank == h.chain.bank
      && Pruned(h.chain.store, h'.chain.store, t)
      && h'.grants == h.grants
      && h'.dayPeak == if Day(t) == Day(h.chain.now) then h.dayPeak else h.chain.params.microDailyQuota
    case Deliver(env, tx) =>
      (match AnteStep(h.chain, env, tx)
       case Rejected => h' == h
       case Accepted(c) =>
         && h'.chain == c && h'.dayPeak == h.dayPeak
         && h'.grants == if Consumes(h.chain, env, tx)
                         then h.grants + [Grant(Day(h.chain.now), Subject(env, tx.payer).value)]
                         else h.grants)
    case UpdateParams(p) =>
      && ValidFeeParams(p)
      && h' == h.(chain := h.chain.(params := p), dayPeak := if h.dayPeak < p.microDailyQuota then p.microDailyQuota else h.dayPeak)
    case Elsewhere =>
      // message execution: anything may change but the quota keys, the clock and the fee params
      && SameQuotaKeys(h.chain.store, h'.chain.store)
      && h'.chain.now == h.chain.now && h'.chain.params == h.chain.params
      && h'.grants == h.grants && h'.dayPeak == h.dayPeak
  }

  ghost predicate IsRun(hs: seq<Recorded>, es: seq<Event>) {
    |hs| == |es| + 1 && forall i :: 0 <= i < |es| ==> Next(hs[i], es[i], hs[i+1])
  }

  /** The counter of every identity for the current day is the number of exemptions granted to it today,
      which never exceeds the largest quota in force today; no later day has a counter yet. */
  ghost predicate QuotaInv(h: Recorded) {
    var today := Day(h.chain.now);
    && h.chain.now < TWO63
    && ValidFeeParams(h.chain.params) && h.chain.params.microDailyQuota <= h.dayPeak <= MAX_MICRO_DAILY_QUOTA
    && (forall did :: CounterOf(h.chain.store, today, did) == Granted(h.grants, today, did) <= h.dayPeak)
    && (forall d: nat, did :: today < d < TWO64 ==> CounterOf(h.chain.store, d, did) == 0)
    && (forall i :: 0 <= i < |h.grants| ==> h.grants[i].day <= today)
  }

  lemma {:induction false} NoGrantsAfter(grants: seq<Grant>, day: nat, did: Bytes)
    requires forall i :: 0 <= i < |grants| ==> grants[i].day < day
    ensures Granted(grants, day, did) == 0
  {
    if grants != [] { NoGrantsAfter(grants[..|grants|-1], day, did); }
  }

  lemma GrantedSnoc(grants: seq<Grant>, g: Grant, day: nat, did: Bytes)
    ensures Granted(grants + [g], day, did) == Granted(grants, day, did) + (if g == Grant(day, did) then 1 else 0)
  {
    assert (grants + [g])[..|grants|] == grants;
  }

  lemma BlockKeepsQuota(h: Recorded, t: nat, h': Recorded)
    requires QuotaInv(h) && Next(h, BeginBlock(t), h')
    ensures QuotaInv(h')
  {
    PruneIsSafe(h.chain.store, h'.chain.store, t);
    var today, next := Day(h.chain.now), Day(t);
    assert today <= next && CutoffDay(t) <= next;
    if next > today {
      forall did
        ensures CounterOf(h'.chain.store, next, did) == Granted(h'.grants, next, did) <= h'.dayPeak
      {
        NoGrantsAfter(h.grants, next, did);
        assert CounterOf(h.chain.store, next, did) == 0;
      }
    }
  }

  lemma GrantKeepsQuota(h: Recorded, did: Bytes, h': Recorded)
    requires QuotaInv(h)
    requires var today := Day(h.chain.now);
             && CounterOf(h.chain.store, today, did) < h.chain.params.microDailyQuota
             && h'.chain.store == Incremented(h.chain.store, today, did)
             && h'.chain.now == h.chain.now && h'.chain.params == h.chain.params
             && h'.grants == h.grants + [Grant(today, did)] && h'.dayPeak == h.dayPeak
    ensures QuotaInv(h')
  {
    var today := Day(h.chain.now);
    IncrementCounts(h.chain.store, today, did);
    forall other
      ensures CounterOf(h'.chain.store, today, other) == Granted(h'.grants, today, other) <= h'.dayPeak
    {
      GrantedSnoc(h.grants, Grant(today, did), today, other);
    }
  }

  lemma ElsewhereKeepsQuota(h: Recorded, h': Recorded)
    requires QuotaInv(h) && Next(h, Elsewhere, h')
    ensures QuotaInv(h')
  {
    forall d: nat, did
      ensures CounterOf(h'.chain.store, d, did) == CounterOf(h.chain.store, d, did)
    {
      assert UnderQuotaPrefix(MicroQuotaKey(d, did));
    }
  }

  lemma StepKeepsQuota(h: Recorded, e: Event, h': Recorded)
    requires QuotaInv(h) && Next(h, e, h')
    ensures QuotaInv(h')
  {
    match e
    case BeginBlock(t) => BlockKeepsQuota(h, t, h');
    case Deliver(env, tx) =>
      if AnteStep(h.chain, env, tx).Accepted? && Consumes(h.chain, env, tx) {
        GrantKeepsQuota(h, Subject(env, tx.payer).value, h');
      }
    case UpdateParams(_) =>
    case Elsewhere => ElsewhereKeepsQuota(h, h');
  }

  /** Quota safety in every state of every interleaving of blocks, transactions and parameter changes. */
  lemma {:induction false} RunKeepsQuota(hs: seq<Recorded>, es: seq<Event>, k: nat)
    requires IsRun(hs, es) && QuotaInv(hs[0]) && k <= |es|
    ensures QuotaInv(hs[k])
  {
    if k > 0 {
      RunKeepsQuota(hs, es, k - 1);
      StepKeepsQuota(hs[k-1], es[k-1], hs[k]);
    }
  }

  /** A store without quota keys and an empty history start such a run. */
  lemma EmptyStoreStartsARun(c: Chain)
    requires ValidFeeParams(c.params) && c.now < TWO63
    requires forall k :: k in c.store ==> !UnderQuotaPrefix(k)
    ensures QuotaInv(Recorded(c, [], c.params.microDailyQuota))
  {
    forall d: nat, did
      ensures CounterOf(c.store, d, did) == 0
    {
      assert UnderQuotaPrefix(MicroQuotaKey(d, did));
    }
  }

  // ----- draining the stale keys

  /** The number of blocks begun in the first `k` events. */
  function Blocks(es: seq<Event>, k: nat): nat
    requires k <= |es|
  {
    if k == 0 then 0 else Blocks(es, k - 1) + (if es[k-1].BeginBlock? then 1 else 0)
  }

  lemma StepDrains(h: Recorded, e: Event, h': Recorded, cutoff: nat)
    requires Next(h, e, h') && h.chain.now < TWO63 && 0 < cutoff
    requires CutoffDay(h.chain.now) == cutoff == CutoffDay(h'.chain.now)
    ensures |Stale(h'.chain.store, cutoff)|
         == if e.BeginBlock? then Max(|Stale(h.chain.store, cutoff)| - PRUNE_BUDGET, 0) else |Stale(h.chain.store, cutoff)|
  {
    match e
    case BeginBlock(t) => PruneCount(h.chain.store, h'.chain.store, t);
    case Deliver(env, tx) =>
      if AnteStep(h.chain, env, tx).Accepted? && Consumes(h.chain, env, tx) {
        WritesTodayAreNotStale(h.chain.store, Day(h.chain.now), Subject(env, tx.payer).value, cutoff);
      }
    case UpdateParams(_) =>
    case Elsewhere =>
      assert forall k :: k in Stale(h.chain.store, cutoff) <==> k in Stale(h'.chain.store, cutoff) by {
        forall k | !Less(k, MICRO_QUOTA_PREFIX) && Less(k, DayBound(cutoff))
          ensures UnderQuotaPrefix(k)
        {
          StaleIsUnderPrefix(k, cutoff);
        }
      }
      assert Stale(h.chain.store, cutoff) == Stale(h'.chain.store, cutoff);
  }

  lemma WritesTodayAreNotStale(store: Store, today: nat, did: Bytes, cutoff: nat)
    requires cutoff <= today < TWO64
    ensures Stale(Incremented(store, today, did), cutoff) == Stale(store, cutoff)
  {
    QuotaKeyOrder(today, did, cutoff, []);
  }

  /** What one step of a run leaves of a backlog of `n` stale keys. */
  function LeftOf(n: nat, e: Event): nat { if e.BeginBlock? then Max(n - PRUNE_BUDGET, 0) else n }

  lemma RunStepDrains(hs: seq<Recorded>, es: seq<Event>, cutoff: nat, k: nat)
    requires IsRun(hs, es) && 0 < cutoff && k < |es|
    requires hs[k].chain.now < TWO63 && CutoffDay(hs[k].chain.now) == cutoff == CutoffDay(hs[k+1].chain.now)
    ensures |Stale(hs[k+1].chain.store, cutoff)| == LeftOf(|Stale(hs[k].chain.store, cutoff)|, es[k])
  {
    StepDrains(hs[k], es[k], hs[k+1], cutoff);
  }

  lemma {:induction false} CountsDrain(counts: seq<nat>, es: seq<Event>, k: nat)
    requires |counts| == |es| + 1 && k <= |es|
    requires forall i :: 0 <= i < |es| ==> counts[i+1] == LeftOf(counts[i], es[i])
    ensures counts[k] == Max(counts[0] - PRUNE_BUDGET * Blocks(es, k), 0)
  {
    if k > 0 { CountsDrain(counts, es, k - 1); }
  }

  /** Within one day, whatever transactions run between them, b blocks remove exactly min(n, 256 b) of the
      n stale keys: the backlog is gone after ceil(n / 256) blocks and not before. */
  lemma BacklogDrains(hs: seq<Recorded>, es: seq<Event>, cutoff: nat, k: nat)
    requires IsRun(hs, es) && 0 < cutoff && k <= |es|
    requires forall i :: 0 <= i < |hs| ==> hs[i].chain.now < TWO63 && CutoffDay(hs[i].chain.now) == cutoff
    ensures |Stale(hs[k].chain.store, cutoff)| == Max(|Stale(hs[0].chain.store, cutoff)| - PRUNE_BUDGET * Blocks(es, k), 0)
  {
    var counts := BacklogCounts(hs, es, cutoff);
    CountsDrain(counts, es, k);
  }

  lemma BacklogCounts(hs: seq<Recorded>, es: seq<Event>, cutoff: nat) returns (counts: seq<nat>)
    requires IsRun(hs, es) && 0 < cutoff
    requires forall i :: 0 <= i < |hs| ==> hs[i].chain.now < TWO63 && CutoffDay(hs[i].chain.now) == cutoff
    ensures |counts| == |hs|
    ensures forall i :: 0 <= i < |hs| ==> counts[i] == |Stale(hs[i].chain.store, cutoff)|
    ensures forall i :: 0 <= i < |es| ==> counts[i+1] == LeftOf(counts[i], es[i])
  {
    counts := seq(|hs|, i requires 0 <= i < |hs| => |Stale(hs[i].chain.store, cutoff)|);
    forall i: nat | i < |es|
      ensures counts[i+1] == LeftOf(counts[i], es[i])
    {
      RunStepDrains(hs, es, cutoff, i);
    }
  }
}
