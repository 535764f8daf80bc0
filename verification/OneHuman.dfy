/** The one-human-one-vote count and the approval rule of x/governance/tally.go. */
module OneHuman {
  import opened Arith
  import opened Sets
  import opened Dec
  import opened Tally
  import opened Bank
  import opened Eligibility

  datatype VoteRecord = VoteRecord(voter: Address, option: VoteOption)

  datatype OneHumanTally = OneHumanTally(yes: nat, no: nat, noWithVeto: nat, abstain: nat, totalEligible: nat) {
    function Votes(): nat { yes + no + noWithVeto + abstain }

    function NonAbstain(): nat { yes + no + noWithVeto }

    function Passes(quorum: int, threshold: int, vetoThreshold: int): bool {
      if totalEligible == 0 || Votes() == 0 then false
      else if Ratio(Votes(), totalEligible) < quorum then false
      else if Ratio(noWithVeto, Votes()) > vetoThreshold then false
      else if NonAbstain() == 0 then false
      else Ratio(yes, NonAbstain()) > threshold
    }
  }

  // ----- Who is counted, and for what

  /** The first vote `votes` holds from u is for o. */
  ghost predicate FirstVoteIs(votes: seq<VoteRecord>, u: Address, o: VoteOption) {
    exists i :: 0 <= i < |votes| && votes[i] == VoteRecord(u, o) && forall j :: 0 <= j < i ==> votes[j].voter != u
  }

  ghost predicate HasVoted(votes: seq<VoteRecord>, u: Address) {
    exists i :: 0 <= i < |votes| && votes[i].voter == u
  }

  /** The eligible whose first vote is for o. */
  ghost function VotersFor(votes: seq<VoteRecord>, eligible: set<Address>, o: VoteOption): set<Address> {
    set u | u in eligible && FirstVoteIs(votes, u, o)
  }

  ghost function Voters(votes: seq<VoteRecord>, eligible: set<Address>): set<Address> {
    set u | u in eligible && HasVoted(votes, u)
  }

  lemma FirstVoteAppend(votes: seq<VoteRecord>, v: VoteRecord, u: Address, o: VoteOption)
    ensures FirstVoteIs(votes + [v], u, o) <==> FirstVoteIs(votes, u, o) || (v == VoteRecord(u, o) && !HasVoted(votes, u))
    ensures HasVoted(votes + [v], u) <==> HasVoted(votes, u) || v.voter == u
  {
    var next := votes + [v];
    if FirstVoteIs(votes, u, o) {
      var i :| 0 <= i < |votes| && votes[i] == VoteRecord(u, o) && forall j :: 0 <= j < i ==> votes[j].voter != u;
      assert next[i] == VoteRecord(u, o);
    }
    if HasVoted(votes, u) {
      var i :| 0 <= i < |votes| && votes[i].voter == u;
      assert next[i].voter == u;
    }
    assert next[|votes|] == v;
    if FirstVoteIs(next, u, o) {
      var i :| 0 <= i < |next| && next[i] == VoteRecord(u, o) && forall j :: 0 <= j < i ==> next[j].voter != u;
      if i < |votes| {
        assert votes[i] == VoteRecord(u, o) && forall j :: 0 <= j < i ==> votes[j].voter == next[j].voter;
      } else {
        assert forall j :: 0 <= j < |votes| ==> votes[j].voter == next[j].voter;
      }
    }
  }

  /** A vote changes the voters for an option only when it is its voter's first and the voter is eligible. */
  lemma VotersStep(votes: seq<VoteRecord>, v: VoteRecord, eligible: set<Address>, o: VoteOption)
    ensures v.voter in Voters(votes, eligible) || v.voter !in eligible || v.option != o
            ==> VotersFor(votes + [v], eligible, o) == VotersFor(votes, eligible, o)
    ensures v.voter !in Voters(votes, eligible) && v.voter in eligible && v.option == o
            ==> VotersFor(votes + [v], eligible, o) == VotersFor(votes, eligible, o) + {v.voter}
                && v.voter !in VotersFor(votes, eligible, o)
  {
    forall u | u in eligible
      ensures FirstVoteIs(votes + [v], u, o)
              <==> FirstVoteIs(votes, u, o) || (v == VoteRecord(u, o) && !HasVoted(votes, u))
    {
      FirstVoteAppend(votes, v, u, o);
    }
  }

  lemma VotersGrow(votes: seq<VoteRecord>, v: VoteRecord, eligible: set<Address>)
    ensures Voters(votes + [v], eligible)
            == if v.voter in eligible then Voters(votes, eligible) + {v.voter} else Voters(votes, eligible)
  {
    forall u | u in eligible
      ensures HasVoted(votes + [v], u) <==> HasVoted(votes, u) || v.voter == u
    {
      FirstVoteAppend(votes, v, u, YES);
    }
  }

  /** What the running result says of a prefix of the votes. */
  ghost predicate Counts(res: OneHumanTally, votes: seq<VoteRecord>, eligible: set<Address>) {
    && res.yes == |VotersFor(votes, eligible, YES)|
    && res.no == |VotersFor(votes, eligible, NO)|
    && res.noWithVeto == |VotersFor(votes, eligible, NO_WITH_VETO)|
    && res.abstain == |VotersFor(votes, eligible, ABSTAIN)|
  }

  /** Whether v counts towards o after `votes`. */
  ghost function Adds(votes: seq<VoteRecord>, v: VoteRecord, eligible: set<Address>, o: VoteOption): nat {
    if v.voter !in Voters(votes, eligible) && v.voter in eligible && v.option == o then 1 else 0
  }

  lemma SizeStep(votes: seq<VoteRecord>, v: VoteRecord, eligible: set<Address>, o: VoteOption)
    ensures |VotersFor(votes + [v], eligible, o)| == |VotersFor(votes, eligible, o)| + Adds(votes, v, eligible, o)
  {
    VotersStep(votes, v, eligible, o);
  }

  lemma CountsStep(res: OneHumanTally, votes: seq<VoteRecord>, v: VoteRecord, eligible: set<Address>)
    requires Counts(res, votes, eligible)
    ensures v.voter in Voters(votes, eligible) || v.voter !in eligible ==> Counts(res, votes + [v], eligible)
    ensures v.voter !in Voters(votes, eligible) && v.voter in eligible ==> Counts(Bump(res, v.option), votes + [v], eligible)
  {
    SizeStep(votes, v, eligible, YES);
    SizeStep(votes, v, eligible, NO);
    SizeStep(votes, v, eligible, NO_WITH_VETO);
    SizeStep(votes, v, eligible, ABSTAIN);
  }

  function Bump(res: OneHumanTally, o: VoteOption): OneHumanTally {
    if o == YES then res.(yes := res.yes + 1)
    else if o == NO then res.(no := res.no + 1)
    else if o == NO_WITH_VETO then res.(noWithVeto := res.noWithVeto + 1)
    else if o == ABSTAIN then res.(abstain := res.abstain + 1)
    else res
  }

  /**
   Every eligible controller is counted once, for the first option the list holds from it; nobody else is. `idk` is the
   identity keeper, `newestFirst` what its age index yields.
   */
  method TallyOneHumanOneVote(idk: Eligibility.Keeper, newestFirst: seq<Age>, votingStart: int, minAge: int, votes: seq<VoteRecord>)
    returns (res: OneHumanTally)
    requires MirrorAgrees(idk.View()) && ListsNewestFirst(newestFirst, idk.mirror)
    ensures Counts(res, votes, MembersAt(idk.View(), votingStart - minAge))
    ensures res.totalEligible == CountAt(idk.View(), votingStart - minAge)
    ensures res.Votes() <= |MembersAt(idk.View(), votingStart - minAge)| <= res.totalEligible
  {
    var cutoff := votingStart - minAge;
    CountIsMembers(idk.View(), cutoff);
    var total := idk.CountEligibleControllersAt(newestFirst, cutoff);
    res := CountVotes(idk, cutoff, votes, total);
    CountedVotesAreVoters(res, votes, MembersAt(idk.View(), cutoff));
  }

  /** The loop over the votes. */
  method CountVotes(idk: Eligibility.Keeper, cutoff: int, votes: seq<VoteRecord>, total: nat) returns (res: OneHumanTally)
    ensures Counts(res, votes, MembersAt(idk.View(), cutoff)) && res.totalEligible == total
  {
    ghost var eligible, done := MembersAt(idk.View(), cutoff), votes[..0];
    res := OneHumanTally(0, 0, 0, 0, total);
    var counted: set<Address> := {};
    for i := 0 to |votes|
      invariant done == votes[..i] && TalliedSoFar(res, counted, done, eligible) && res.totalEligible == total
    {
      var v := votes[i];
      TallyStep(res, counted, done, v, eligible);
      done := done + [v];
      if v.voter in counted {
        continue;
      }
      var isEligible := idk.IsEligibleControllerAt(v.voter, cutoff);
      if isEligible {
        counted := counted + {v.voter};
        res := Bump(res, v.option);
      }
    }
    assert votes[..|votes|] == votes;
  }

  ghost predicate TalliedSoFar(res: OneHumanTally, counted: set<Address>, votes: seq<VoteRecord>, eligible: set<Address>) {
    Counts(res, votes, eligible) && counted == Voters(votes, eligible)
  }

  /** One turn of the loop: a vote counts when its voter is eligible and not counted yet. */
  lemma TallyStep(res: OneHumanTally, counted: set<Address>, votes: seq<VoteRecord>, v: VoteRecord, eligible: set<Address>)
    requires TalliedSoFar(res, counted, votes, eligible)
    ensures if v.voter !in counted && v.voter in eligible
            then TalliedSoFar(Bump(res, v.option), counted + {v.voter}, votes + [v], eligible)
            else TalliedSoFar(res, counted, votes + [v], eligible)
  {
    CountsStep(res, votes, v, eligible);
    VotersGrow(votes, v, eligible);
  }

  lemma FirstVoteIsOne(votes: seq<VoteRecord>, u: Address, o: VoteOption, o': VoteOption)
    requires FirstVoteIs(votes, u, o) && FirstVoteIs(votes, u, o')
    ensures o == o'
  {
    var i :| 0 <= i < |votes| && votes[i] == VoteRecord(u, o) && forall j :: 0 <= j < i ==> votes[j].voter != u;
    var k :| 0 <= k < |votes| && votes[k] == VoteRecord(u, o') && forall j :: 0 <= j < k ==> votes[j].voter != u;
    assert !(i < k) && !(k < i);
  }

  lemma OptionsAreDisjoint(votes: seq<VoteRecord>, eligible: set<Address>, o: VoteOption, o': VoteOption)
    requires o != o'
    ensures VotersFor(votes, eligible, o) !! VotersFor(votes, eligible, o')
  {
    forall u | u in VotersFor(votes, eligible, o) && u in VotersFor(votes, eligible, o')
      ensures false
    {
      FirstVoteIsOne(votes, u, o, o');
    }
  }

  /** The heads counted are the heads that voted for one of the four options, all of them eligible. */
  lemma CountedVotesAreVoters(res: OneHumanTally, votes: seq<VoteRecord>, eligible: set<Address>)
    requires Counts(res, votes, eligible)
    ensures var heads := set u | u in eligible && exists o :: IsVoteOption(o) && FirstVoteIs(votes, u, o);
            res.Votes() == |heads| <= |eligible|
  {
    var y, n := VotersFor(votes, eligible, YES), VotersFor(votes, eligible, NO);
    var w, a := VotersFor(votes, eligible, NO_WITH_VETO), VotersFor(votes, eligible, ABSTAIN);
    OptionsAreDisjoint(votes, eligible, YES, NO);
    OptionsAreDisjoint(votes, eligible, YES, NO_WITH_VETO);
    OptionsAreDisjoint(votes, eligible, YES, ABSTAIN);
    OptionsAreDisjoint(votes, eligible, NO, NO_WITH_VETO);
    OptionsAreDisjoint(votes, eligible, NO, ABSTAIN);
    OptionsAreDisjoint(votes, eligible, NO_WITH_VETO, ABSTAIN);
    SizeOfUnion(y, n);
    SizeOfUnion(y + n, w);
    SizeOfUnion(y + n + w, a);
    var heads := set u | u in eligible && exists o :: IsVoteOption(o) && FirstVoteIs(votes, u, o);
    forall u | u in heads
      ensures u in y + n + w + a
    {
      var o :| IsVoteOption(o) && FirstVoteIs(votes, u, o);
      assert o == YES || o == NO || o == NO_WITH_VETO || o == ABSTAIN;
    }
    assert IsVoteOption(YES) && IsVoteOption(NO) && IsVoteOption(NO_WITH_VETO) && IsVoteOption(ABSTAIN);
    assert heads == y + n + w + a;
    SizeWithin(heads, eligible);
  }

  // ----- Passes

  /**
   Rounding never makes a proposal pass on its threshold: the true share of yes is above it. The true turnout and the
   true share of vetoes are within one unit of the 18th decimal of the side they were judged to be on.
   */
  lemma PassIsReal(t: OneHumanTally, quorum: int, threshold: int, vetoThreshold: int)
    requires t.Passes(quorum, threshold, vetoThreshold)
    ensures FromInt(t.yes) > threshold * t.NonAbstain()
    ensures 2 * FromInt(t.Votes()) >= 2 * (quorum * t.totalEligible) - t.totalEligible
    ensures FromInt(t.noWithVeto) < vetoThreshold * t.Votes() + t.Votes()
  {
    RatioAboveIsReal(t.yes, t.NonAbstain(), threshold);
    RatioError(t.Votes(), t.totalEligible);
    MulMono(quorum, Ratio(t.Votes(), t.totalEligible), t.totalEligible);
    RatioError(t.noWithVeto, t.Votes());
    MulMono(Ratio(t.noWithVeto, t.Votes()), vetoThreshold, t.Votes());
  }

  /** Heads that move from no, or from veto, to yes never turn an approval into a refusal. */
  lemma MoreYesStillPasses(t: OneHumanTally, fromNo: nat, fromVeto: nat, quorum: int, threshold: int, vetoThreshold: int)
    requires t.Passes(quorum, threshold, vetoThreshold) && fromNo <= t.no && fromVeto <= t.noWithVeto
    ensures t.(yes := t.yes + fromNo + fromVeto, no := t.no - fromNo, noWithVeto := t.noWithVeto - fromVeto)
              .Passes(quorum, threshold, vetoThreshold)
  {
    RatioMonotone(t.yes, t.yes + fromNo + fromVeto, t.NonAbstain());
    RatioMonotone(t.noWithVeto - fromVeto, t.noWithVeto, t.Votes());
  }

  lemma HalfIsExceeded(a: nat, b: nat, t: int)
    requires b > 0 && 2 * t >= ONE && FromInt(a) > t * b
    ensures 2 * a > b
  {
    MulMono(ONE, 2 * t, b);
    assert 2 * t * b == 2 * (t * b);
  }

  /** At a threshold of one half or more, approval needs a true majority. */
  lemma PassIsMajority(t: OneHumanTally, quorum: int, threshold: int, vetoThreshold: int)
    requires 2 * threshold >= ONE && t.Passes(quorum, threshold, vetoThreshold)
    ensures 2 * t.yes > t.NonAbstain()
  {
    RatioAboveIsReal(t.yes, t.NonAbstain(), threshold);
    HalfIsExceeded(t.yes, t.NonAbstain(), threshold);
  }

  /** So yes and no cannot both carry. */
  lemma OnlyOneSideCarries(t: OneHumanTally, quorum: int, threshold: int, vetoThreshold: int)
    requires 2 * threshold >= ONE && t.Passes(quorum, threshold, vetoThreshold)
    ensures !t.(yes := t.no, no := t.yes).Passes(quorum, threshold, vetoThreshold)
  {
    PassIsMajority(t, quorum, threshold, vetoThreshold);
    var swapped := t.(yes := t.no, no := t.yes);
    if swapped.Passes(quorum, threshold, vetoThreshold) {
      PassIsMajority(swapped, quorum, threshold, vetoThreshold);
    }
  }
}
