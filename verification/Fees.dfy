/**
 The fixed fee and its routing: the fee tables of x/coin/types/params.go and ComputeFeeSplit of
 x/coin/keeper/fee.go.
 */
module Fees {
  import opened Bank
  import Seqs

  /** What math.NewIntFromString makes of a decimal text; an empty text is told apart from a malformed one
      because Params.Validate does. */
  datatype Text = Empty | Malformed | Number(value: int)

  datatype FeeEntry = FeeEntry(url: string, fee: Text)
  datatype SplitEntry = SplitEntry(url: string, validatorBps: nat, companyBps: nat)

  datatype FeeParams = FeeParams(
    fees: seq<FeeEntry>, splits: seq<SplitEntry>, defaultFee: Text,
    extraSignerFee: Text, freeSigners: nat, microThreshold: Text, microDailyQuota: nat)

  datatype Msg =
    | TransferMsg(to: Address, amount: Text)
    | AgreementMsg(signers: nat)
    | OtherMsg(otherUrl: string)

  const BPS: int := 10_000
  const TRANSFER_URL := "/phi.coin.MsgTransfer"
  const AGREEMENT_URL := "/phi.credentials.MsgCreateAgreement"
  const MAX_MICRO_THRESHOLD: int := 1_000_000
  const MAX_MICRO_DAILY_QUOTA: nat := 1000

  function Url(m: Msg): string {
    match m
    case TransferMsg(_, _) => TRANSFER_URL
    case AgreementMsg(_) => AGREEMENT_URL
    case OtherMsg(u) => u
  }

  predicate NonNegative(t: Text) { t.Number? && t.value >= 0 }

  predicate DistinctSplits(s: seq<SplitEntry>) {
    forall i, j :: 0 <= i < j < |s| ==> s[i].url != s[j].url
  }

  /** The fee clauses of Params.Validate. */
  predicate ValidFeeParams(p: FeeParams) {
    && p.defaultFee.Number? && p.defaultFee.value > 0
    && NonNegative(p.microThreshold) && p.microThreshold.value <= MAX_MICRO_THRESHOLD
    && p.microDailyQuota <= MAX_MICRO_DAILY_QUOTA
    && (forall i :: 0 <= i < |p.fees| ==> p.fees[i].url != "" && NonNegative(p.fees[i].fee))
    && (p.extraSignerFee.Empty? || NonNegative(p.extraSignerFee))
    && (forall i :: 0 <= i < |p.splits| ==> p.splits[i].url != "" && p.splits[i].validatorBps + p.splits[i].companyBps <= BPS)
    && DistinctSplits(p.splits)
  }

  function FeeIn(fees: seq<FeeEntry>, url: string, fallback: Text): int {
    if fees == [] then (if fallback.Number? then fallback.value else 0)
    else if fees[0].url == url && fees[0].fee.Number? then fees[0].fee.value
    else FeeIn(fees[1..], url, fallback)
  }

  function Surcharge(p: FeeParams, m: Msg): int {
    if m.AgreementMsg? && m.signers > p.freeSigners && p.extraSignerFee.Number? && p.extraSignerFee.value > 0
    then p.extraSignerFee.value * (m.signers - p.freeSigners)
    else 0
  }

  function FeeForMsg(p: FeeParams, m: Msg): int {
    FeeIn(p.fees, Url(m), p.defaultFee) + Surcharge(p, m)
  }

  function SplitIn(splits: seq<SplitEntry>, url: string): SplitEntry {
    if splits == [] then SplitEntry(url, BPS, 0)
    else if splits[0].url == url then splits[0]
    else SplitIn(splits[1..], url)
  }

  function CompanyShare(s: SplitEntry, fee: nat): int {
    fee * s.companyBps / BPS
  }

  datatype Stream = Validator | Company
  datatype Leg = Leg(url: string, stream: Stream, amount: int)
  datatype FeeSplit = FeeSplit(total: int, validator: int, company: int, legs: seq<Leg>)

  const NO_FEE := FeeSplit(0, 0, 0, [])

  function Plus(a: FeeSplit, b: FeeSplit): FeeSplit {
    FeeSplit(a.total + b.total, a.validator + b.validator, a.company + b.company, a.legs + b.legs)
  }

  /** One fee cut in two, with a leg for each part that is not empty. */
  function Routed(url: string, fee: int, company: int): FeeSplit {
    FeeSplit(fee, fee - company, company,
             (if fee - company > 0 then [Leg(url, Validator, fee - company)] else []) +
             (if company > 0 then [Leg(url, Company, company)] else []))
  }

  /** The routing of one message. */
  function SplitOne(p: FeeParams, m: Msg): FeeSplit {
    var fee := FeeForMsg(p, m);
    if fee <= 0 then NO_FEE
    else Routed(Url(m), fee, CompanyShare(SplitIn(p.splits, Url(m)), fee))
  }

  function SumSplits(parts: seq<FeeSplit>): FeeSplit {
    if parts == [] then NO_FEE else Plus(parts[0], SumSplits(parts[1..]))
  }

  function EachSplit(p: FeeParams, msgs: seq<Msg>): seq<FeeSplit> {
    seq(|msgs|, i requires 0 <= i < |msgs| => SplitOne(p, msgs[i]))
  }

  /** The routing of a transaction: the sum of the routings of its messages. */
  function Split(p: FeeParams, msgs: seq<Msg>): FeeSplit {
    SumSplits(EachSplit(p, msgs))
  }

  // ----- the loops of the source

  method FeeFor(p: FeeParams, url: string) returns (fee: int)
    ensures fee == FeeIn(p.fees, url, p.defaultFee)
  {
    for i := 0 to |p.fees|
      invariant FeeIn(p.fees, url, p.defaultFee) == FeeIn(p.fees[i..], url, p.defaultFee)
    {
      assert p.fees[i..][1..] == p.fees[i+1..];
      if p.fees[i].url == url {
        if p.fees[i].fee.Number? {
          return p.fees[i].fee.value;
        }
      }
    }
    fee := if p.defaultFee.Number? then p.defaultFee.value else 0;
  }

  method SplitFor(p: FeeParams, url: string) returns (entry: SplitEntry, found: bool)
    ensures entry == SplitIn(p.splits, url)
    ensures found <==> exists i :: 0 <= i < |p.splits| && p.splits[i].url == url
  {
    for i := 0 to |p.splits|
      invariant SplitIn(p.splits, url) == SplitIn(p.splits[i..], url)
      invariant forall k :: 0 <= k < i ==> p.splits[k].url != url
    {
      assert p.splits[i..][1..] == p.splits[i+1..];
      if p.splits[i].url == url {
        return p.splits[i], true;
      }
    }
    return SplitEntry(url, BPS, 0), false;
  }

  lemma PlusAssociates(a: FeeSplit, b: FeeSplit, c: FeeSplit)
    ensures Plus(Plus(a, b), c) == Plus(a, Plus(b, c))
    ensures Plus(a, NO_FEE) == a == Plus(NO_FEE, a)
  {
    assert (a.legs + b.legs) + c.legs == a.legs + (b.legs + c.legs);
    assert a.legs + [] == a.legs == [] + a.legs;
  }

  lemma {:induction false} SumSplitsAppend(a: seq<FeeSplit>, b: seq<FeeSplit>)
    ensures SumSplits(a + b) == Plus(SumSplits(a), SumSplits(b))
  {
    if a == [] {
      Seqs.NothingAdded(b);
      PlusAssociates(SumSplits(b), NO_FEE, NO_FEE);
    } else {
      SumSplitsAppend(a[1..], b);
      Seqs.TailOfAppend(a, b);
      PlusAssociates(a[0], SumSplits(a[1..]), SumSplits(b));
    }
  }

  /** The split of a concatenation is the sum of the splits. */
  lemma SplitAppend(p: FeeParams, a: seq<Msg>, b: seq<Msg>)
    ensures Split(p, a + b) == Plus(Split(p, a), Split(p, b))
  {
    SumSplitsAppend(EachSplit(p, a), EachSplit(p, b));
    EachSplitAppend(p, a, b);
  }

  lemma EachSplitAppend(p: FeeParams, a: seq<Msg>, b: seq<Msg>)
    ensures EachSplit(p, a + b) == EachSplit(p, a) + EachSplit(p, b)
  {}

  lemma SplitSnoc(p: FeeParams, a: seq<Msg>, m: Msg)
    ensures Split(p, a + [m]) == Plus(Split(p, a), SplitOne(p, m))
  {
    SumSplitsAppend(EachSplit(p, a), [SplitOne(p, m)]);
    assert EachSplit(p, a + [m]) == EachSplit(p, a) + [SplitOne(p, m)];
    assert [SplitOne(p, m)][1..] == [];
    PlusAssociates(SplitOne(p, m), NO_FEE, NO_FEE);
  }

  lemma SplitNext(p: FeeParams, msgs: seq<Msg>, i: nat)
    requires i < |msgs|
    ensures Split(p, msgs[..i+1]) == Plus(Split(p, msgs[..i]), SplitOne(p, msgs[i]))
  {
    SplitSnoc(p, msgs[..i], msgs[i]);
    assert msgs[..i+1] == msgs[..i] + [msgs[i]];
  }

  method ComputeFeeSplit(p: FeeParams, msgs: seq<Msg>) returns (out: FeeSplit)
    ensures out == Split(p, msgs)
  {
    out := NO_FEE;
    for i := 0 to |msgs|
      invariant out == Split(p, msgs[..i])
    {
      SplitNext(p, msgs, i);
      out := AddMessage(p, out, msgs[i]);
    }
    assert msgs[..|msgs|] == msgs;
  }

  /** The body of the loop. */
  method AddMessage(p: FeeParams, sofar: FeeSplit, m: Msg) returns (out: FeeSplit)
    ensures out == Plus(sofar, SplitOne(p, m))
  {
    var base := FeeFor(p, Url(m));
    var fee := base + Surcharge(p, m);
    if !(fee > 0) {
      NothingOwed(p, sofar, m);
      return sofar;
    }
    var entry, _ := SplitFor(p, Url(m));
    out := AddRouted(sofar, Url(m), fee, CompanyShare(entry, fee));
  }

  lemma NothingOwed(p: FeeParams, sofar: FeeSplit, m: Msg)
    requires FeeForMsg(p, m) <= 0
    ensures Plus(sofar, SplitOne(p, m)) == sofar
  {
    PlusAssociates(sofar, NO_FEE, NO_FEE);
  }

  /** The body of the loop for a message that owes a fee. */
  method AddRouted(sofar: FeeSplit, url: string, fee: int, company: int) returns (out: FeeSplit)
    ensures out == Plus(sofar, Routed(url, fee, company))
  {
    var validator, legs := fee - company, sofar.legs;
    if validator > 0 {
      legs := legs + [Leg(url, Validator, validator)];
    }
    if company > 0 {
      legs := legs + [Leg(url, Company, company)];
    }
    out := FeeSplit(sofar.total + fee, sofar.validator + validator, sofar.company + company, legs);
  }

  // ----- conservation

  function LegSum(legs: seq<Leg>, s: Stream): int {
    if legs == [] then 0 else (if legs[0].stream == s then legs[0].amount else 0) + LegSum(legs[1..], s)
  }

  lemma {:induction false} LegSumAppend(a: seq<Leg>, b: seq<Leg>, s: Stream)
    ensures LegSum(a + b, s) == LegSum(a, s) + LegSum(b, s)
  {
    if a == [] {
      assert a + b == b;
    } else {
      LegSumAppend(a[1..], b, s);
      assert (a + b)[1..] == a[1..] + b;
    }
  }

  function Sum(xs: seq<int>): int {
    if xs == [] then 0 else xs[0] + Sum(xs[1..])
  }

  /** The fee a message list owes, message by message. */
  function FeesOwed(p: FeeParams, msgs: seq<Msg>): int {
    Sum(seq(|msgs|, i requires 0 <= i < |msgs| => FeeForMsg(p, msgs[i])))
  }

  lemma {:induction false} FeeInIsNonNegative(fees: seq<FeeEntry>, url: string, fallback: Text)
    requires forall i :: 0 <= i < |fees| ==> NonNegative(fees[i].fee)
    requires fallback.Number? && fallback.value >= 0
    ensures FeeIn(fees, url, fallback) >= 0
  {
    if fees != [] { FeeInIsNonNegative(fees[1..], url, fallback); }
  }

  lemma {:induction false} SplitInIsValid(splits: seq<SplitEntry>, url: string)
    requires forall i :: 0 <= i < |splits| ==> splits[i].validatorBps + splits[i].companyBps <= BPS
    ensures SplitIn(splits, url).companyBps <= BPS
  {
    if splits != [] { SplitInIsValid(splits[1..], url); }
  }

  /** The company is paid its rate rounded down; what the floor drops stays with the validators. */
  lemma CompanyShareBounds(s: SplitEntry, fee: nat)
    requires s.companyBps <= BPS
    ensures 0 <= CompanyShare(s, fee) <= fee
    ensures CompanyShare(s, fee) * BPS <= fee * s.companyBps < CompanyShare(s, fee) * BPS + BPS
  {
    var x := fee * s.companyBps;
    assert 0 <= x <= fee * BPS;
    assert x == x / BPS * BPS + x % BPS;
  }

  predicate Balanced(s: FeeSplit) {
    && s.validator >= 0 && s.company >= 0
    && s.total == s.validator + s.company
    && LegSum(s.legs, Validator) == s.validator
    && LegSum(s.legs, Company) == s.company
    && forall i :: 0 <= i < |s.legs| ==> s.legs[i].amount > 0
  }

  lemma RoutedIsBalanced(url: string, fee: int, company: int)
    requires 0 <= company <= fee
    ensures Balanced(Routed(url, fee, company))
  {
    var v := if fee - company > 0 then [Leg(url, Validator, fee - company)] else [];
    var k := if company > 0 then [Leg(url, Company, company)] else [];
    LegSumAppend(v, k, Validator);
    LegSumAppend(v, k, Company);
  }

  lemma PlusIsBalanced(a: FeeSplit, b: FeeSplit)
    requires Balanced(a) && Balanced(b)
    ensures Balanced(Plus(a, b))
  {
    LegSumAppend(a.legs, b.legs, Validator);
    LegSumAppend(a.legs, b.legs, Company);
  }

  lemma FeeForMsgIsNonNegative(p: FeeParams, m: Msg)
    requires ValidFeeParams(p)
    ensures FeeForMsg(p, m) >= 0
  {
    FeeInIsNonNegative(p.fees, Url(m), p.defaultFee);
  }

  lemma SplitOneIsBalanced(p: FeeParams, m: Msg)
    requires ValidFeeParams(p)
    ensures Balanced(SplitOne(p, m)) && SplitOne(p, m).total == FeeForMsg(p, m)
  {
    FeeForMsgIsNonNegative(p, m);
    var fee, entry := FeeForMsg(p, m), SplitIn(p.splits, Url(m));
    if fee > 0 {
      SplitInIsValid(p.splits, Url(m));
      CompanyShareBounds(entry, fee);
      RoutedIsBalanced(Url(m), fee, CompanyShare(entry, fee));
    }
  }

  lemma {:induction false} SumSplitsIsBalanced(parts: seq<FeeSplit>, owed: seq<int>)
    requires |owed| == |parts|
    requires forall i :: 0 <= i < |parts| ==> Balanced(parts[i]) && parts[i].total == owed[i]
    ensures Balanced(SumSplits(parts)) && SumSplits(parts).total == Sum(owed)
  {
    if parts != [] {
      SumSplitsIsBalanced(parts[1..], owed[1..]);
      PlusIsBalanced(parts[0], SumSplits(parts[1..]));
    }
  }

  /** Under validated params, for every message list: the legs of each stream add up to that stream, the
      two streams add up to the total, and the total is the sum of the per-message fees. */
  lemma SplitConserves(p: FeeParams, msgs: seq<Msg>)
    requires ValidFeeParams(p)
    ensures Balanced(Split(p, msgs)) && Split(p, msgs).total == FeesOwed(p, msgs)
  {
    var owed := seq(|msgs|, i requires 0 <= i < |msgs| => FeeForMsg(p, msgs[i]));
    forall i | 0 <= i < |msgs|
      ensures Balanced(EachSplit(p, msgs)[i]) && EachSplit(p, msgs)[i].total == owed[i]
    {
      SplitOneIsBalanced(p, msgs[i]);
    }
    SumSplitsIsBalanced(EachSplit(p, msgs), owed);
  }
}
