/** The vote counting of x/governance/tally_live.go and x/governance/tally.go. */
module Tally {
  import opened Arith
  import opened Dec
  import opened MapSums
  import Bank
  import opened Seqs

  /** A vote option by its wire number. */
  datatype VoteOption = VoteOption(number: int)

  const YES := VoteOption(1)
  const ABSTAIN := VoteOption(2)
  const NO := VoteOption(3)
  const NO_WITH_VETO := VoteOption(4)

  /** A weight text as LegacyNewDecFromStr reads it. */
  datatype Weight = Unparsable | Parsed(units: int)

  datatype Choice = Choice(option: VoteOption, weight: Weight)

  /** A validator's ballot with the tokens bonded to it. */
  datatype Ballot = Ballot(bonded: nat, options: seq<Choice>)

  function EmptyResults(): map<VoteOption, int> {
    map[YES := 0, ABSTAIN := 0, NO := 0, NO_WITH_VETO := 0]
  }

  predicate IsVoteOption(o: VoteOption) { 1 <= o.number <= 4 }

  // ----- dominantOption

  /** The one choice of a positive weight that no other choice reaches. */
  ghost predicate UniqueTop(m: multiset<Choice>, c: Choice) {
    && m[c] == 1 && c.weight.Parsed? && c.weight.units > 0
    && forall d :: d in m && d != c && d.weight.Parsed? ==> d.weight.units < c.weight.units
  }

  /** What a split ballot counts as. It depends on the multiset of choices, not on their order. */
  ghost function Dominant(m: multiset<Choice>): VoteOption {
    if c: Choice :| UniqueTop(m, c) then c.option else ABSTAIN
  }

  lemma TopIsUnique(m: multiset<Choice>, c: Choice)
    requires UniqueTop(m, c)
    ensures forall d :: UniqueTop(m, d) ==> d == c
    ensures Dominant(m) == c.option
  {
    forall d | UniqueTop(m, d)
      ensures d == c
    {
      assert d in m && c in m;
    }
  }

  lemma NoTopAbstains(m: multiset<Choice>)
    requires forall c :: !UniqueTop(m, c)
    ensures Dominant(m) == ABSTAIN
  {}

  /** What the scan knows after a prefix: the best weight, the first choice that reached it, whether another did too. */
  ghost predicate Scanned(seen: seq<Choice>, best: VoteOption, bestW: int, tie: bool) {
    && bestW >= 0
    && (forall i :: 0 <= i < |seen| && seen[i].weight.Parsed? ==> seen[i].weight.units <= bestW)
    && (bestW == 0 ==> best == ABSTAIN && !tie)
    && (bestW > 0 ==>
          exists f :: FirstAt(seen, f, best, bestW) && (tie <==> exists g :: Reaches(seen, g, bestW) && g != f))
  }

  ghost predicate Reaches(seen: seq<Choice>, i: int, w: int) {
    0 <= i < |seen| && seen[i].weight == Parsed(w)
  }

  ghost predicate FirstAt(seen: seq<Choice>, f: int, best: VoteOption, w: int) {
    Reaches(seen, f, w) && seen[f].option == best
  }

  /** One turn of the scan. */
  lemma ScanStep(seen: seq<Choice>, c: Choice, best: VoteOption, bestW: int, tie: bool)
    requires Scanned(seen, best, bestW, tie)
    ensures c.weight.Unparsable? ==> Scanned(seen + [c], best, bestW, tie)
    ensures c.weight.Parsed? && c.weight.units > bestW ==> Scanned(seen + [c], c.option, c.weight.units, false)
    ensures c.weight.Parsed? && c.weight.units == bestW && bestW != 0 ==> Scanned(seen + [c], best, bestW, true)
    ensures c.weight.Parsed? && (c.weight.units < bestW || c.weight.units == bestW == 0)
      ==> Scanned(seen + [c], best, bestW, tie)
  {
    var next := seen + [c];
    if c.weight.Parsed? && c.weight.units > bestW {
      assert FirstAt(next, |seen|, c.option, c.weight.units);
    } else if bestW > 0 {
      var f :| FirstAt(seen, f, best, bestW) && (tie <==> exists g :: Reaches(seen, g, bestW) && g != f);
      assert FirstAt(next, f, best, bestW);
      if c.weight == Parsed(bestW) {
        assert Reaches(next, |seen|, bestW);
      } else if tie {
        var g :| Reaches(seen, g, bestW) && g != f;
        assert Reaches(next, g, bestW);
      } else {
        forall g | Reaches(next, g, bestW)
          ensures g == f
        {
          assert Reaches(seen, g, bestW);
        }
      }
    }
  }

  /** What the scan ends with is the dominant option. */
  lemma ScanEnds(opts: seq<Choice>, best: VoteOption, bestW: int, tie: bool)
    requires Scanned(opts, best, bestW, tie)
    ensures Dominant(multiset(opts)) == if tie then ABSTAIN else best
  {
    var m := multiset(opts);
    if bestW == 0 {
      forall c | c in m && c.weight.Parsed?
        ensures c.weight.units <= 0
      {
        var i :| 0 <= i < |opts| && opts[i] == c;
      }
      NoTopAbstains(m);
    } else {
      var f :| FirstAt(opts, f, best, bestW) && (tie <==> exists g :: Reaches(opts, g, bestW) && g != f);
      CountedOnce(opts, f);
      if tie {
        TieHasNoTop(opts, f, bestW);
      } else {
        SoleMaximumIsTop(opts, f, bestW);
        TopIsUnique(m, opts[f]);
      }
    }
  }

  lemma TieHasNoTop(opts: seq<Choice>, f: nat, w: int)
    requires w > 0 && Reaches(opts, f, w) && exists g :: Reaches(opts, g, w) && g != f
    requires forall i :: 0 <= i < |opts| && opts[i].weight.Parsed? ==> opts[i].weight.units <= w
    ensures Dominant(multiset(opts)) == ABSTAIN
  {
    var m := multiset(opts);
    var g :| Reaches(opts, g, w) && g != f;
    forall c
      ensures !UniqueTop(m, c)
    {
      if UniqueTop(m, c) {
        assert opts[f] in m && opts[g] in m;
        var i :| 0 <= i < |opts| && opts[i] == c;
        CountedOnce(opts, i);
      }
    }
    NoTopAbstains(m);
  }

  lemma SoleMaximumIsTop(opts: seq<Choice>, f: nat, w: int)
    requires w > 0 && Reaches(opts, f, w) && forall g :: Reaches(opts, g, w) ==> g == f
    requires forall i :: 0 <= i < |opts| && opts[i].weight.Parsed? ==> opts[i].weight.units <= w
    ensures UniqueTop(multiset(opts), opts[f])
  {
    var m, c := multiset(opts), opts[f];
    CountedOnce(opts, f);
    forall g | 0 <= g < |opts| && opts[g] == c
      ensures g == f
    {
      assert Reaches(opts, g, w);
    }
    forall d | d in m && d != c && d.weight.Parsed?
      ensures d.weight.units < w
    {
      var i :| 0 <= i < |opts| && opts[i] == d;
      assert !Reaches(opts, i, w);
    }
  }

  method DominantOption(opts: seq<Choice>) returns (r: VoteOption)
    ensures r == Dominant(multiset(opts))
  {
    var best, bestW, tie := ABSTAIN, 0, false;
    for i := 0 to |opts|
      invariant Scanned(opts[..i], best, bestW, tie)
    {
      ScanStep(opts[..i], opts[i], best, bestW, tie);
      assert opts[..i] + [opts[i]] == opts[..i + 1];
      if opts[i].weight.Parsed? {
        var w := opts[i].weight.units;
        if w > bestW {
          bestW, best, tie := w, opts[i].option, false;
        } else if w == bestW && bestW != 0 {
          tie := true;
        }
      }
    }
    assert opts[..|opts|] == opts;
    ScanEnds(opts, best, bestW, tie);
    r := if tie then ABSTAIN else best;
  }

  // ----- scalePublicResults

  /** Every option of the empty results or of the counts, its head count times the scale. */
  function Scaled(counts: map<VoteOption, int>, scale: int): map<VoteOption, int> {
    map o | o in EmptyResults().Keys + counts.Keys :: At(counts, o) * scale
  }

  lemma {:induction false} SumOfZeros(m: map<VoteOption, int>)
    requires forall o :: o in m ==> m[o] == 0
    ensures SumOf(m) == 0
    decreases |m|
  {
    if m != map[] {
      var k :| k in m;
      SumWithout(m, k);
      SumOfZeros(m - {k});
    }
  }

  lemma ScaledStep(counts: map<VoteOption, int>, o: VoteOption, n: int, scale: int)
    ensures Scaled(counts[o := n], scale) == Scaled(counts, scale)[o := n * scale]
  {}

  lemma SumScaledStep(rest: map<VoteOption, int>, k: VoteOption, n: int, scale: int)
    requires k !in rest
    ensures SumOf(rest[k := n]) == SumOf(rest) + n
    ensures SumOf(Scaled(rest[k := n], scale)) == SumOf(Scaled(rest, scale)) + n * scale
  {
    SumUpdate(rest, k, n);
    ScaledStep(rest, k, n, scale);
    SumUpdate(Scaled(rest, scale), k, n * scale);
    assert At(Scaled(rest, scale), k) == 0;
  }

  lemma {:induction false} SumScaled(counts: map<VoteOption, int>, scale: int)
    ensures SumOf(Scaled(counts, scale)) == SumOf(counts) * scale
    decreases |counts|
  {
    if counts == map[] {
      SumOfZeros(Scaled(counts, scale));
    } else {
      var k :| k in counts;
      var rest, n := counts - {k}, counts[k];
      assert counts == rest[k := n];
      SumScaledStep(rest, k, n, scale);
      var sum := SumOf(rest);
      assert SumOf(Scaled(rest, scale)) == sum * scale by {
        SumScaled(rest, scale);
      }
      Distribute(sum, n, scale);
    }
  }

  predicate NothingToScale(turnout: nat, totalEligible: nat, totalBonded: nat) {
    turnout == 0 || totalEligible == 0 || totalBonded == 0
  }

  /** The loop over the counts, in whatever order the map yields them. */
  method ScaleCounts(counts: map<VoteOption, int>, scale: int) returns (results: map<VoteOption, int>)
    ensures results == Scaled(counts, scale)
  {
    results := EmptyResults();
    var todo := counts.Keys;
    ghost var done: map<VoteOption, int> := map[];
    while todo != {}
      invariant todo <= counts.Keys && done.Keys == counts.Keys - todo
      invariant forall o :: o in done ==> done[o] == counts[o]
      invariant results == Scaled(done, scale)
      decreases |todo|
    {
      var opt :| opt in todo;
      var n := counts[opt];
      MulByIntIsExact(n, scale);
      ScaledStep(done, opt, n, scale);
      results := results[opt := Mul(FromInt(n), scale)];
      done := done[opt := n];
      todo := todo - {opt};
    }
    assert done == counts;
  }

  method ScalePublicResults(counts: map<VoteOption, int>, turnout: nat, totalEligible: nat, totalBonded: nat)
    returns (totalPower: int, results: map<VoteOption, int>)
    ensures NothingToScale(turnout, totalEligible, totalBonded) ==> totalPower == 0 && results == EmptyResults()
    ensures !NothingToScale(turnout, totalEligible, totalBonded) ==>
              && totalPower == turnout * Ratio(totalBonded, totalEligible)
              && results == Scaled(counts, Ratio(totalBonded, totalEligible))
  {
    results := EmptyResults();
    if NothingToScale(turnout, totalEligible, totalBonded) {
      return 0, results;
    }
    var scale := Quo(FromInt(totalBonded), FromInt(totalEligible));
    results := ScaleCounts(counts, scale);
    MulByIntIsExact(turnout, scale);
    totalPower := Mul(FromInt(turnout), scale);
  }

  lemma PowerBounds(turnout: nat, eligible: nat, bonded: nat, scale: nat)
    requires 0 < eligible && FromInt(bonded) - eligible < scale * eligible < FromInt(bonded) + eligible
    ensures turnout * scale * eligible <= turnout * FromInt(bonded) + turnout * eligible
    ensures turnout * scale * eligible >= turnout * FromInt(bonded) - turnout * eligible
    ensures turnout <= eligible ==> turnout * scale < FromInt(bonded) + eligible
  {
    MulMono(scale * eligible, FromInt(bonded) + eligible, turnout);
    MulMono(FromInt(bonded) - eligible, scale * eligible, turnout);
    assert scale * eligible * turnout == turnout * scale * eligible;
    assert (FromInt(bonded) + eligible) * turnout == turnout * FromInt(bonded) + turnout * eligible;
    assert (FromInt(bonded) - eligible) * turnout == turnout * FromInt(bonded) - turnout * eligible;
    if turnout <= eligible {
      MulMono(turnout, eligible, scale);
      assert eligible * scale == scale * eligible;
    }
  }

  /**
   The public tally conserves: the scaled results add up to the total power, every option keeps its exact share of the
   head count, and the power stands to the bonded stake as the turnout to the eligible, to within one unit of the 18th
   decimal per head.
   */
  lemma PublicTallyConserves(counts: map<VoteOption, int>, turnout: nat, eligible: nat, bonded: nat)
    requires !NothingToScale(turnout, eligible, bonded)
    ensures var scale := Ratio(bonded, eligible);
            var power, results := turnout * scale, Scaled(counts, scale);
            && SumOf(results) == SumOf(counts) * scale
            && (SumOf(counts) == turnout ==> SumOf(results) == power)
            && (forall o :: o in results ==> results[o] * turnout == At(counts, o) * power)
            && turnout * FromInt(bonded) - turnout * eligible <= power * eligible
            && power * eligible <= turnout * FromInt(bonded) + turnout * eligible
            && (turnout <= eligible ==> power < FromInt(bonded) + eligible)
  {
    var scale := Ratio(bonded, eligible);
    SumScaled(counts, scale);
    RatioError(bonded, eligible);
    PowerBounds(turnout, eligible, bonded, scale);
    forall o | o in Scaled(counts, scale)
      ensures Scaled(counts, scale)[o] * turnout == At(counts, o) * (turnout * scale)
    {
      ShareArithmetic(At(counts, o), scale, turnout);
    }
  }

  lemma ShareArithmetic(c: int, scale: int, turnout: int)
    ensures c * scale * turnout == c * (turnout * scale)
  {}

  // ----- tallyValidatorBallots

  function Units(c: Choice): int { if c.weight.Parsed? then c.weight.units else 0 }

  function WeightOn(opts: seq<Choice>, o: VoteOption): int {
    if opts == [] then 0
    else
      var n := |opts| - 1;
      WeightOn(opts[..n], o) + if opts[n].option == o then Units(opts[n]) else 0
  }

  function WeightSum(opts: seq<Choice>): int {
    if opts == [] then 0 else var n := |opts| - 1; WeightSum(opts[..n]) + Units(opts[n])
  }

  /** The power `ballots` put on option o. */
  function PowerOn(ballots: seq<Ballot>, o: VoteOption): int {
    if ballots == [] then 0
    else
      var n := |ballots| - 1;
      PowerOn(ballots[..n], o) + ballots[n].bonded * WeightOn(ballots[n].options, o)
  }

  /** The power `ballots` put on all options together. */
  function PowerCast(ballots: seq<Ballot>): int {
    if ballots == [] then 0
    else
      var n := |ballots| - 1;
      PowerCast(ballots[..n]) + ballots[n].bonded * WeightSum(ballots[n].options)
  }

  function BondedSum(ballots: seq<Ballot>): nat {
    if ballots == [] then 0 else var n := |ballots| - 1; BondedSum(ballots[..n]) + ballots[n].bonded
  }

  predicate Parses(opts: seq<Choice>) {
    forall i :: 0 <= i < |opts| ==> opts[i].weight.Parsed?
  }

  predicate AllParse(ballots: seq<Ballot>) {
    forall i :: 0 <= i < |ballots| ==> Parses(ballots[i].options)
  }

  /** x/gov stores only ballots over its four options; any other option would meet a missing result. */
  predicate OverFourOptions(opts: seq<Choice>) {
    forall i :: 0 <= i < |opts| ==> IsVoteOption(opts[i].option)
  }

  predicate IsResults(results: map<VoteOption, int>) { results.Keys == EmptyResults().Keys }

  /** The power of the first i choices of a ballot, and the part of it on option o. */
  function PowerGiven(b: Ballot, i: nat): int
    requires i <= |b.options|
  {
    b.bonded * WeightSum(b.options[..i])
  }

  function PowerGivenTo(b: Ballot, i: nat, o: VoteOption): int
    requires i <= |b.options|
  {
    b.bonded * WeightOn(b.options[..i], o)
  }

  /** The inner loop: one ballot added to the results, or the first weight that does not parse. */
  method AddBallot(results: map<VoteOption, int>, b: Ballot) returns (ok: bool, out: map<VoteOption, int>)
    requires IsResults(results) && OverFourOptions(b.options)
    ensures ok == Parses(b.options)
    ensures ok ==> IsResults(out) && SumOf(out) == SumOf(results) + b.bonded * WeightSum(b.options)
    ensures ok ==> forall o :: o in out ==> out[o] == results[o] + b.bonded * WeightOn(b.options, o)
  {
    out := results;
    for i := 0 to |b.options|
      invariant Parses(b.options[..i])
      invariant IsResults(out) && SumOf(out) == SumOf(results) + PowerGiven(b, i)
      invariant forall o :: o in out ==> out[o] == results[o] + PowerGivenTo(b, i, o)
    {
      var c := b.options[i];
      if c.weight.Unparsable? {
        return false, map[];
      }
      var gain := Mul(FromInt(b.bonded), c.weight.units);
      WeightStep(b, i);
      MulByIntIsExact(b.bonded, c.weight.units);
      SumUpdate(out, c.option, out[c.option] + gain);
      out := out[c.option := out[c.option] + gain];
    }
    assert b.options[..|b.options|] == b.options;
    ok := true;
  }

  lemma WeightStep(b: Ballot, i: nat)
    requires i < |b.options|
    ensures var next, prev, c := b.options[..i + 1], b.options[..i], b.options[i];
            && PowerGiven(b, i + 1) == PowerGiven(b, i) + b.bonded * Units(c)
            && (forall o :: PowerGivenTo(b, i + 1, o)
                            == PowerGivenTo(b, i, o) + if c.option == o then b.bonded * Units(c) else 0)
            && (Parses(next) <==> Parses(prev) && c.weight.Parsed?)
  {
    var next, prev, c := b.options[..i + 1], b.options[..i], b.options[i];
    assert next[..i] == prev;
    assert next == prev + [c];
    Distribute(WeightSum(prev), Units(c), b.bonded);
    forall o
      ensures PowerGivenTo(b, i + 1, o) == PowerGivenTo(b, i, o) + if c.option == o then b.bonded * Units(c) else 0
    {
      Distribute(WeightOn(prev, o), Units(c), b.bonded);
    }
  }

  /**
   The technical route. An unparsable weight anywhere refuses the count; otherwise every option gets each voter's
   bonded tokens times its weight, without rounding.
   */
  method TallyValidatorBallots(ballots: seq<Ballot>) returns (ok: bool, totalPower: int, results: map<VoteOption, int>)
    requires forall i :: 0 <= i < |ballots| ==> OverFourOptions(ballots[i].options)
    ensures ok == AllParse(ballots)
    ensures !ok ==> totalPower == 0 && results == map[]
    ensures ok ==> totalPower == FromInt(BondedSum(ballots)) && SumOf(results) == PowerCast(ballots)
    ensures ok ==> IsResults(results) && forall o :: o in results ==> results[o] == PowerOn(ballots, o)
  {
    results, totalPower := EmptyResults(), 0;
    SumOfZeros(results);
    for i := 0 to |ballots|
      invariant AllParse(ballots[..i])
      invariant totalPower == FromInt(BondedSum(ballots[..i]))
      invariant IsResults(results) && SumOf(results) == PowerCast(ballots[..i])
      invariant forall o :: o in results ==> results[o] == PowerOn(ballots[..i], o)
    {
      assert ballots[..i + 1][..i] == ballots[..i];
      var added, next := AddBallot(results, ballots[i]);
      if !added {
        return false, 0, map[];
      }
      results := next;
      totalPower := totalPower + FromInt(ballots[i].bonded);
    }
    assert ballots[..|ballots|] == ballots;
    ok := true;
  }

  /** When every ballot's weights add up to one, the power cast is the power bonded. */
  lemma {:induction false} WholeBallotsCastAllTheirPower(ballots: seq<Ballot>)
    requires forall i :: 0 <= i < |ballots| ==> WeightSum(ballots[i].options) == ONE
    ensures PowerCast(ballots) == FromInt(BondedSum(ballots))
  {
    if ballots != [] {
      var n := |ballots| - 1;
      WholeBallotsCastAllTheirPower(ballots[..n]);
      assert WeightSum(ballots[n].options) == ONE;
    }
  }

  /** sumBonded. */
  method SumBonded(validators: map<Bank.Address, int>) returns (t: int)
    ensures t == SumOf(validators)
  {
    t := 0;
    var left := validators;
    while left != map[]
      invariant t + SumOf(left) == SumOf(validators)
      decreases |left|
    {
      var v :| v in left;
      SumWithout(left, v);
      t, left := t + left[v], left - {v};
    }
  }
}
