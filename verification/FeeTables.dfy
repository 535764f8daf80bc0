/**
 What a message pays and where its fee goes, by position in the fee and split tables.
 */
module FeeTables {
  import opened Fees

  // ----- the fee of a message

  /** The i-th entry is the first of this type whose fee can be read. */
  predicate Sets(fees: seq<FeeEntry>, url: string, i: nat) {
    && i < |fees| && fees[i].url == url && fees[i].fee.Number?
    && forall j :: 0 <= j < i && fees[j].url == url ==> !fees[j].fee.Number?
  }

  predicate Unlisted(fees: seq<FeeEntry>, url: string) {
    forall j :: 0 <= j < |fees| && fees[j].url == url ==> !fees[j].fee.Number?
  }

  lemma {:induction false} ListedFee(fees: seq<FeeEntry>, url: string, fallback: Text, i: nat)
    requires Sets(fees, url, i)
    ensures FeeIn(fees, url, fallback) == fees[i].fee.value
    decreases |fees|
  {
    if i > 0 {
      assert forall j :: 1 <= j < |fees| ==> fees[j] == fees[1..][j - 1];
      ListedFee(fees[1..], url, fallback, i - 1);
    }
  }

  lemma {:induction false} UnlistedFee(fees: seq<FeeEntry>, url: string, fallback: Text)
    requires Unlisted(fees, url)
    ensures FeeIn(fees, url, fallback) == if fallback.Number? then fallback.value else 0
    decreases |fees|
  {
    if fees != [] {
      assert forall j :: 1 <= j < |fees| ==> fees[j] == fees[1..][j - 1];
      UnlistedFee(fees[1..], url, fallback);
    }
  }

  /** The price per signer above the free ones; none when the text is empty or no positive number. */
  function PerExtraSigner(p: FeeParams): nat {
    match p.extraSignerFee
    case Number(v) => if v > 0 then v else 0
    case Empty => 0
    case Malformed => 0
  }

  function ExtraSigners(p: FeeParams, m: Msg): nat {
    match m
    case AgreementMsg(n) => if n > p.freeSigners then n - p.freeSigners else 0
    case TransferMsg(_, _) => 0
    case OtherMsg(_) => 0
  }

  /** A message type listed in the fee table pays the fee of its first readable entry, any other the default fee; an
      agreement pays for each signer above the free ones on top. */
  lemma MessagePays(p: FeeParams, m: Msg, i: nat)
    requires ValidFeeParams(p)
    ensures Sets(p.fees, Url(m), i) ==> FeeForMsg(p, m) == p.fees[i].fee.value + PerExtraSigner(p) * ExtraSigners(p, m)
    ensures (forall j :: 0 <= j < |p.fees| ==> p.fees[j].url != Url(m)) ==>
              FeeForMsg(p, m) == p.defaultFee.value + PerExtraSigner(p) * ExtraSigners(p, m)
  {
    if Sets(p.fees, Url(m), i) {
      ListedFee(p.fees, Url(m), p.defaultFee, i);
    }
    if forall j :: 0 <= j < |p.fees| ==> p.fees[j].url != Url(m) {
      UnlistedFee(p.fees, Url(m), p.defaultFee);
    }
    SurchargeIs(p, m);
  }

  lemma SurchargeIs(p: FeeParams, m: Msg)
    ensures Surcharge(p, m) == PerExtraSigner(p) * ExtraSigners(p, m)
  {}

  /** Under validated params every listed type has such an entry: its first. */
  lemma {:induction false} FirstEntry(fees: seq<FeeEntry>, url: string, k: nat) returns (i: nat)
    requires k < |fees| && fees[k].url == url && forall j :: 0 <= j < |fees| ==> fees[j].fee.Number?
    ensures i <= k && Sets(fees, url, i)
    decreases k
  {
    if j :| 0 <= j < k && fees[j].url == url {
      i := FirstEntry(fees, url, j);
    } else {
      i := k;
    }
  }

  // ----- where it goes

  lemma {:induction false} ListedSplit(splits: seq<SplitEntry>, i: nat)
    requires DistinctSplits(splits) && i < |splits|
    ensures SplitIn(splits, splits[i].url) == splits[i]
    decreases |splits|
  {
    if i > 0 {
      assert splits[0].url != splits[i].url;
      ListedSplit(splits[1..], i - 1);
    }
  }

  lemma {:induction false} UnlistedSplit(splits: seq<SplitEntry>, url: string)
    requires forall j :: 0 <= j < |splits| ==> splits[j].url != url
    ensures SplitIn(splits, url).companyBps == 0
    decreases |splits|
  {
    if splits != [] {
      UnlistedSplit(splits[1..], url);
    }
  }

  /** The company's part of `fee` under the tables: its rate in the type's own entry, rounded down, or nothing. */
  predicate CompanyGets(p: FeeParams, m: Msg, fee: int, company: int) {
    || (exists i :: 0 <= i < |p.splits| && p.splits[i].url == Url(m) && company == fee * p.splits[i].companyBps / 10_000)
    || ((forall i :: 0 <= i < |p.splits| ==> p.splits[i].url != Url(m)) && company == 0)
  }

  /** What the tables give the company of a message's fee. */
  function CompanyOf(p: FeeParams, m: Msg): int {
    var fee := FeeForMsg(p, m);
    if fee <= 0 then 0 else CompanyShare(SplitIn(p.splits, Url(m)), fee)
  }

  lemma ListedCompany(p: FeeParams, m: Msg, i: nat)
    requires DistinctSplits(p.splits) && i < |p.splits| && p.splits[i].url == Url(m) && FeeForMsg(p, m) >= 0
    ensures CompanyOf(p, m) == FeeForMsg(p, m) * p.splits[i].companyBps / 10_000
  {
    ListedSplit(p.splits, i);
  }

  lemma CompanyIs(p: FeeParams, m: Msg)
    requires ValidFeeParams(p) && FeeForMsg(p, m) >= 0
    ensures CompanyGets(p, m, FeeForMsg(p, m), CompanyOf(p, m))
  {
    if i :| 0 <= i < |p.splits| && p.splits[i].url == Url(m) {
      ListedCompany(p, m, i);
    } else {
      UnlistedSplit(p.splits, Url(m));
    }
  }

  lemma PartsAre(p: FeeParams, m: Msg)
    requires FeeForMsg(p, m) >= 0
    ensures var part, fee, company := SplitOne(p, m), FeeForMsg(p, m), CompanyOf(p, m);
            && part.total == fee && part.company == company && part.validator == fee - company
            && part.legs == (if fee - company > 0 then [Leg(Url(m), Validator, fee - company)] else [])
                            + (if company > 0 then [Leg(Url(m), Company, company)] else [])
  {}

  /** The split entry of its own type routes a message: the company gets its rate, rounded down, the validators the rest,
      and each part that is not empty is one leg. A type without an entry goes to the validators. */
  lemma MessageIsRouted(p: FeeParams, m: Msg)
    requires ValidFeeParams(p)
    ensures var part, fee := SplitOne(p, m), FeeForMsg(p, m);
            && fee >= 0 && part.total == fee && part.validator == fee - part.company
            && CompanyGets(p, m, fee, part.company)
            && part.legs == (if part.validator > 0 then [Leg(Url(m), Validator, part.validator)] else [])
                            + (if part.company > 0 then [Leg(Url(m), Company, part.company)] else [])
  {
    FeeForMsgIsNonNegative(p, m);
    CompanyIs(p, m);
    PartsAre(p, m);
  }

  // ----- a whole transaction

  function CompanyList(p: FeeParams, msgs: seq<Msg>): seq<int> {
    seq(|msgs|, i requires 0 <= i < |msgs| => SplitOne(p, msgs[i]).company)
  }

  lemma {:induction false} CompanyAdds(parts: seq<FeeSplit>, company: seq<int>)
    requires |parts| == |company| && forall i :: 0 <= i < |parts| ==> parts[i].company == company[i]
    ensures SumSplits(parts).company == Sum(company)
  {
    if parts != [] {
      CompanyAdds(parts[1..], company[1..]);
    }
  }

  lemma CompanyTotal(p: FeeParams, msgs: seq<Msg>)
    ensures Split(p, msgs).company == Sum(CompanyList(p, msgs))
  {
    CompanyAdds(EachSplit(p, msgs), CompanyList(p, msgs));
  }

  /** A transaction pays the sum of its messages' fees, of which the company gets the sum of its parts, each rounded on
      its own, and the validators everything else. */
  lemma TransactionIsRouted(p: FeeParams, msgs: seq<Msg>)
    requires ValidFeeParams(p)
    ensures Split(p, msgs).total == FeesOwed(p, msgs) && Split(p, msgs).company == Sum(CompanyList(p, msgs))
    ensures Split(p, msgs).validator == Split(p, msgs).total - Split(p, msgs).company
  {
    SplitConserves(p, msgs);
    CompanyTotal(p, msgs);
  }
}
