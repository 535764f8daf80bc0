/**
 Genesis of the coin module: the checks of x/coin/types/genesis.go and the import and export loops of
 x/coin/keeper/genesis.go. Which texts are bech32 addresses is a parameter.
 */
module CoinGenesis {
  import opened Bytes
  import opened CoinAge
  import opened CoinAgeTheorems
  import opened Bank
  import opened Fees
  import opened Ledger
  import Quota
  import opened QuotaGenesis
  import opened StoreEntry

  /** A lot as the genesis file carries it, its amount still a text. */
  datatype RawLot = RawLot(amount: Text, acquiredAt: int)
  datatype Holding = Holding(address: Address, lots: seq<RawLot>)
  datatype Genesis = Genesis(
    params: Params, fees: FeeParams, payout: Address, coinAges: seq<Holding>, entries: seq<Entry>)

  /** parseAmount: anything but a non-negative number reads as zero. */
  function LotOf(l: RawLot): Lot {
    Lot(if l.amount.Number? && l.amount.value >= 0 then l.amount.value else 0, l.acquiredAt)
  }

  function QueueIn(lots: seq<RawLot>): Queue {
    seq(|lots|, i requires 0 <= i < |lots| => LotOf(lots[i]))
  }

  function RawOf(q: Queue): seq<RawLot> {
    seq(|q|, i requires 0 <= i < |q| => RawLot(Number(q[i].amount), q[i].acquiredAt))
  }

  /** A text that is empty or a non-negative number. */
  predicate ValidAmount(t: Text) { t.Empty? || NonNegative(t) }

  predicate ValidLots(lots: seq<RawLot>, maxLots: nat) {
    && |lots| % TWO32 <= maxLots
    && (forall i :: 0 <= i < |lots| ==> ValidAmount(lots[i].amount) && lots[i].acquiredAt >= 0)
    && (forall i, j :: 0 <= i < j < |lots| ==> lots[i].acquiredAt <= lots[j].acquiredAt)
  }

  predicate DistinctAddresses(hs: seq<Holding>) {
    forall i, j :: 0 <= i < j < |hs| ==> hs[i].address != hs[j].address
  }

  /** No company payout address, or a proper one. */
  predicate ValidPayout(bech32: Address -> bool, payout: Address) { payout == [] || bech32(payout) }

  predicate ValidGenesis(bech32: Address -> bool, g: Genesis) {
    && ValidParams(g.params) && ValidFeeParams(g.fees) && ValidPayout(bech32, g.payout)
    && (forall i :: 0 <= i < |g.coinAges| ==> bech32(g.coinAges[i].address))
    && DistinctAddresses(g.coinAges)
    && (forall i :: 0 <= i < |g.coinAges| ==> ValidLots(g.coinAges[i].lots, g.params.maxLots))
    && Acceptable(g.entries, [QUOTA_RULE])
  }

  predicate LotsSoFar(lots: seq<RawLot>, n: nat)
    requires n <= |lots|
  {
    && (forall i :: 0 <= i < n ==> ValidAmount(lots[i].amount) && lots[i].acquiredAt >= 0)
    && (forall i, j :: 0 <= i < j < n ==> lots[i].acquiredAt <= lots[j].acquiredAt)
  }

  lemma OneMoreLot(lots: seq<RawLot>, n: nat)
    requires n < |lots| && LotsSoFar(lots, n) && ValidAmount(lots[n].amount) && lots[n].acquiredAt >= 0
    requires n > 0 ==> lots[n-1].acquiredAt <= lots[n].acquiredAt
    ensures LotsSoFar(lots, n + 1)
  {
    forall i | 0 <= i < n
      ensures lots[i].acquiredAt <= lots[n].acquiredAt
    {
      assert lots[i].acquiredAt <= lots[n-1].acquiredAt;
    }
  }

  /** The inner loop: adjacent comparison against `prev` decides the order of the whole queue. */
  method ValidateLots(lots: seq<RawLot>, maxLots: nat) returns (ok: bool)
    ensures ok <==> ValidLots(lots, maxLots)
  {
    if |lots| % TWO32 > maxLots {
      return false;
    }
    var prev := 0;
    for i := 0 to |lots|
      invariant LotsSoFar(lots, i)
      invariant i > 0 ==> prev == lots[i-1].acquiredAt
    {
      if !lots[i].amount.Empty? && !NonNegative(lots[i].amount) {
        return false;
      }
      if lots[i].acquiredAt < 0 {
        return false;
      }
      if i > 0 && lots[i].acquiredAt < prev {
        assert lots[i-1].acquiredAt > lots[i].acquiredAt;
        return false;
      }
      prev := lots[i].acquiredAt;
      OneMoreLot(lots, i);
    }
    ok := true;
  }

  method ValidateHoldings(bech32: Address -> bool, hs: seq<Holding>, maxLots: nat) returns (ok: bool)
    ensures ok <==> && (forall i :: 0 <= i < |hs| ==> bech32(hs[i].address)) && DistinctAddresses(hs)
                    && (forall i :: 0 <= i < |hs| ==> ValidLots(hs[i].lots, maxLots))
  {
    var seen: set<Address> := {};
    for i := 0 to |hs|
      invariant seen == set k | 0 <= k < i :: hs[k].address
      invariant DistinctAddresses(hs[..i])
      invariant forall k :: 0 <= k < i ==> bech32(hs[k].address) && ValidLots(hs[k].lots, maxLots)
    {
      var h := hs[i];
      if !bech32(h.address) {
        return false;
      }
      if h.address in seen {
        return false;
      }
      seen := seen + {h.address};
      var good := ValidateLots(h.lots, maxLots);
      if !good {
        return false;
      }
    }
    assert hs[..|hs|] == hs;
    ok := true;
  }

  method Validate(bech32: Address -> bool, g: Genesis) returns (ok: bool)
    ensures ok <==> ValidGenesis(bech32, g)
  {
    if !ValidParams(g.params) || !ValidFeeParams(g.fees) {
      return false;
    }
    if g.payout != [] && !bech32(g.payout) {
      return false;
    }
    var good := ValidateHoldings(bech32, g.coinAges, g.params.maxLots);
    if !good {
      return false;
    }
    var verdict := StoreEntry.Validate(g.entries, [QUOTA_RULE]);
    ok := verdict.Valid?;
  }

  /** InitGenesis: SetCoinAge for every record in turn. */
  function Imported(hs: seq<Holding>): Ages
    decreases |hs|
  {
    if hs == [] then map[]
    else Stored(Imported(hs[..|hs|-1]), hs[|hs|-1].address, QueueIn(hs[|hs|-1].lots))
  }

  lemma ImportedNext(hs: seq<Holding>, i: nat)
    requires i < |hs|
    ensures Imported(hs[..i+1]) == Stored(Imported(hs[..i]), hs[i].address, QueueIn(hs[i].lots))
  {
    assert hs[..i+1][..i] == hs[..i];
  }

  /** Refuses an invalid genesis with nothing stored; a valid one is stored completely, its raw records included. */
  method InitGenesis(bech32: Address -> bool, g: Genesis) returns (ok: bool, ages: Ages, store: Quota.Store)
    ensures ok <==> ValidGenesis(bech32, g)
    ensures ok ==> ages == Imported(g.coinAges) && store == Written(map[], g.entries)
    ensures !ok ==> ages == map[] && store == map[]
  {
    ok := Validate(bech32, g);
    ages, store := map[], map[];
    if !ok {
      return;
    }
    for i := 0 to |g.coinAges|
      invariant ages == Imported(g.coinAges[..i])
    {
      ImportedNext(g.coinAges, i);
      ages := Stored(ages, g.coinAges[i].address, QueueIn(g.coinAges[i].lots));
    }
    assert g.coinAges[..|g.coinAges|] == g.coinAges;
    var written;
    written, store := WriteEntries(map[], g.entries);
    AcceptableKeysAreGenesisKeys(g.entries);
  }

  /** ExportGenesis lists each stored record once, in some order. */
  predicate IsExport(ages: Ages, hs: seq<Holding>) {
    && DistinctAddresses(hs)
    && (forall i :: 0 <= i < |hs| ==> hs[i].address in ages && hs[i].lots == RawOf(ages[hs[i].address]))
    && (forall a :: a in ages ==> exists i :: 0 <= i < |hs| && hs[i].address == a)
  }

  lemma ReadsBack(q: Queue)
    ensures QueueIn(RawOf(q)) == q
  {}

  lemma {:induction false} ImportedAt(hs: seq<Holding>, n: nat, a: Address)
    requires n <= |hs| && DistinctAddresses(hs) && forall i :: 0 <= i < |hs| ==> hs[i].lots != []
    ensures forall i :: 0 <= i < n && hs[i].address == a ==> a in Imported(hs[..n]) && Imported(hs[..n])[a] == QueueIn(hs[i].lots)
    ensures a in Imported(hs[..n]) ==> exists i :: 0 <= i < n && hs[i].address == a
  {
    if n > 0 {
      ImportedAt(hs, n - 1, a);
      ImportedNext(hs, n - 1);
    }
  }

  /** Importing an export gives back exactly the ledger it was taken from. */
  lemma ImportUndoesExport(s: State, hs: seq<Holding>, peak: nat, floor: int)
    requires Inv(s, peak, floor) && IsExport(s.ages, hs)
    ensures Imported(hs) == s.ages
  {
    assert hs[..|hs|] == hs;
    forall i | 0 <= i < |hs|
      ensures hs[i].lots != []
    {
      assert GoodQueue(s.ages[hs[i].address], peak, floor, s.now);
    }
    forall a
      ensures a in Imported(hs) <==> a in s.ages
      ensures a in s.ages ==> Imported(hs)[a] == s.ages[a]
    {
      ImportedAt(hs, |hs|, a);
      if a in s.ages {
        ReadsBack(s.ages[a]);
        var i :| 0 <= i < |hs| && hs[i].address == a;
      }
    }
  }

  /** A queue whose export passes the lot checks. */
  predicate Exportable(q: Queue, maxLots: nat) {
    Len32(q) <= maxLots && forall i :: 0 <= i < |q| ==> q[i].acquiredAt >= 0
  }

  lemma LotsValidateIff(q: Queue, maxLots: nat)
    requires OldestFirst(q)
    ensures ValidLots(RawOf(q), maxLots) <==> Exportable(q, maxLots)
  {
    var raw := RawOf(q);
    assert forall i :: 0 <= i < |q| ==> raw[i].acquiredAt == q[i].acquiredAt && ValidAmount(raw[i].amount);
  }

  /**
   Of the ledgers a run can reach, exactly those export a genesis that validates whose lots are all dated at or after
   the epoch and whose queues fit the cap in force now, given addresses, fee params and quota records that pass.
   */
  lemma ExportValidatesIff(bech32: Address -> bool, s: State, g: Genesis, peak: nat, floor: int)
    requires Inv(s, peak, floor) && IsExport(s.ages, g.coinAges) && g.params == s.params
    requires ValidFeeParams(g.fees) && ValidPayout(bech32, g.payout) && Acceptable(g.entries, [QUOTA_RULE])
    requires forall a :: a in s.ages ==> bech32(a)
    ensures ValidGenesis(bech32, g) <==> forall a :: a in s.ages ==> Exportable(s.ages[a], s.params.maxLots)
  {
    var hs := g.coinAges;
    forall i | 0 <= i < |hs|
      ensures ValidLots(hs[i].lots, s.params.maxLots) <==> Exportable(s.ages[hs[i].address], s.params.maxLots)
    {
      assert GoodQueue(s.ages[hs[i].address], peak, floor, s.now);
      LotsValidateIff(s.ages[hs[i].address], s.params.maxLots);
    }
    if ValidGenesis(bech32, g) {
      forall a | a in s.ages
        ensures Exportable(s.ages[a], s.params.maxLots)
      {
        var i :| 0 <= i < |hs| && hs[i].address == a;
        assert ValidLots(hs[i].lots, s.params.maxLots);
      }
    }
  }

  // ----- runs that never lower the cap

  /** An accepted update does not lower the cap; coins and transfers are dated as the ledger theorems ask. */
  predicate CapKept(s: State, op: Op) {
    match op
    case UpdateParams(p) => ValidParams(p) ==> s.params.maxLots <= p.maxLots
    case _ => Admissible(s, op, s.params.maxLots, 0)
  }

  predicate CapNeverLowered(s: State, ops: seq<Op>)
    decreases |ops|
  {
    ops == [] || (CapKept(s, ops[0]) && CapNeverLowered(Step(s, ops[0]), ops[1..]))
  }

  lemma StepFitsCap(s: State, op: Op)
    requires Inv(s, s.params.maxLots, 0) && CapKept(s, op)
    ensures Inv(Step(s, op), Step(s, op).params.maxLots, 0)
  {
    if op.UpdateParams? {
      assert forall a :: a in s.ages ==> GoodQueue(s.ages[a], s.params.maxLots, 0, s.now);
    } else {
      StepKeepsInvariant(s, op, s.params.maxLots, 0);
    }
  }

  lemma {:induction false} RunFitsCap(s: State, ops: seq<Op>)
    requires Inv(s, s.params.maxLots, 0) && CapNeverLowered(s, ops)
    ensures Inv(Run(s, ops), Run(s, ops).params.maxLots, 0)
    decreases |ops|
  {
    if ops != [] {
      StepFitsCap(s, ops[0]);
      RunFitsCap(Step(s, ops[0]), ops[1..]);
    }
  }

  /**
   Hence a run that never transfers before the threshold has elapsed since the epoch, dates no coin before the epoch
   and never lowers the cap can always be exported and re-imported.
   */
  lemma RunExportsAndReimports(bech32: Address -> bool, s: State, ops: seq<Op>, g: Genesis)
    requires Inv(s, s.params.maxLots, 0) && CapNeverLowered(s, ops)
    requires IsExport(Run(s, ops).ages, g.coinAges) && g.params == Run(s, ops).params
    requires ValidFeeParams(g.fees) && ValidPayout(bech32, g.payout) && Acceptable(g.entries, [QUOTA_RULE])
    requires forall a :: a in Run(s, ops).ages ==> bech32(a)
    ensures ValidGenesis(bech32, g) && Imported(g.coinAges) == Run(s, ops).ages
  {
    var end := Run(s, ops);
    RunFitsCap(s, ops);
    forall a | a in end.ages
      ensures Exportable(end.ages[a], end.params.maxLots)
    {
      assert GoodQueue(end.ages[a], end.params.maxLots, 0, end.now);
    }
    ExportValidatesIff(bech32, end, g, end.params.maxLots, 0);
    ImportUndoesExport(end, g.coinAges, end.params.maxLots, 0);
  }

  // ----- both exclusions are real

  lemma RefusedFor(bech32: Address -> bool, ages: Ages, g: Genesis, a: Address)
    requires IsExport(ages, g.coinAges) && a in ages && OldestFirst(ages[a]) && !Exportable(ages[a], g.params.maxLots)
    ensures !ValidGenesis(bech32, g)
  {
    var i :| 0 <= i < |g.coinAges| && g.coinAges[i].address == a;
    LotsValidateIff(ages[a], g.params.maxLots);
    assert !ValidLots(g.coinAges[i].lots, g.params.maxLots);
  }

  const RATES := Tiers(20, 100, 20)

  /** Ten seconds after the epoch, an untracked balance of five. */
  const EARLY := State(map[], map[[1] := 5], 10, Params(RATES, 64))

  lemma EarlyTransfer()
    ensures Inv(EARLY, 64, -10) && Step(EARLY, Transfer([1], [2], 5)).ages == map[[2] := [Lot(5, -10)]]
  {
    assert Consumed([], 5, -10) == [Lot(5, -10)];
    assert Inserted([], Lot(5, -10), 64) == [Lot(5, -10)];
    assert Spent(map[], [1], 5) == map[];
    assert [Lot(5, -10)][1..] == [];
    assert CreditedAll(map[], [2], [Lot(5, -10)], 64) == CreditedAll(map[[2] := [Lot(5, -10)]], [2], [], 64);
  }

  /** A transfer of untracked coin while block time is below the threshold stores a lot dated before the epoch, and no
      export of the chain validates any more. */
  lemma EarlySurplusBreaksExport(bech32: Address -> bool, g: Genesis)
    requires IsExport(Step(EARLY, Transfer([1], [2], 5)).ages, g.coinAges)
    ensures Inv(EARLY, 64, -10) && !ValidGenesis(bech32, g)
  {
    EarlyTransfer();
    RefusedFor(bech32, map[[2] := [Lot(5, -10)]], g, [2]);
  }

  /** A holder with one lot under a cap of three. */
  const HOLDER := State(map[[1] := [Lot(1, 0)]], map[], 10, Params(RATES, 3))

  const THREE: Queue := [Lot(1, 0), Lot(1, 1), Lot(1, 2)]

  lemma ThreeUnderTwo()
    ensures OldestFirst(THREE) && !Exportable(THREE, 2)
  {}

  lemma ThreeLots()
    ensures Inv(HOLDER, 3, 0)
    ensures Step(Step(HOLDER, AddCoins([1], 1, 1)), AddCoins([1], 1, 2)).ages == map[[1] := THREE]
  {
    var one, two := [Lot(1, 0)], [Lot(1, 0), Lot(1, 1)];
    assert one[1..] == [] && two[1..] == [Lot(1, 1)] && [Lot(1, 1)][1..] == [];
    assert InsertPos(one, 1) == 1 && InsertPos(two[1..], 2) == 1 && InsertPos(two, 2) == 2;
    assert Inserted(one, Lot(1, 1), 3) == two;
    assert Inserted(two, Lot(1, 2), 3) == THREE;
    assert Step(HOLDER, AddCoins([1], 1, 1)).ages == map[[1] := two];
  }

  /** Two insertions and a lower cap: the queue of three lots under a cap of two is refused. */
  lemma LoweredCapBreaksExport(bech32: Address -> bool, g: Genesis)
    requires var s := Step(Step(HOLDER, AddCoins([1], 1, 1)), AddCoins([1], 1, 2));
             var end := Step(s, UpdateParams(Params(RATES, 2)));
             IsExport(end.ages, g.coinAges) && g.params == end.params
    ensures Inv(HOLDER, 3, 0) && !ValidGenesis(bech32, g)
  {
    ThreeLots();
    ThreeUnderTwo();
    RefusedFor(bech32, map[[1] := THREE], g, [1]);
  }
}
