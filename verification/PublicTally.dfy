/**
 The public route end to end: what the tally reads out of the running counts, how it compares with a recount, and the
 module invariant that guards it.
 */
module PublicTally {
  import opened Bank
  import opened Bytes
  import opened Dec
  import opened Eligibility
  import opened MapSums
  import opened OneHuman
  import opened RunningTally
  import opened Sets
  import opened Tally

  // ----- Running counts against a recount

  /** `votes` lists every counted voter of `latest` once, with its latest option. */
  ghost predicate Lists(votes: seq<VoteRecord>, latest: map<Address, VoteOption>) {
    && (forall i :: 0 <= i < |votes| ==> votes[i].voter in latest && latest[votes[i].voter] == votes[i].option)
    && (forall v :: v in latest ==> HasVoted(votes, v))
  }

  lemma ListedFirst(votes: seq<VoteRecord>, latest: map<Address, VoteOption>, u: Address, o: VoteOption)
    requires Lists(votes, latest)
    ensures FirstVoteIs(votes, u, o) <==> u in latest && latest[u] == o
  {
    if u in latest {
      var i := FirstFrom(votes, u);
      assert votes[i] == VoteRecord(u, latest[u]);
      assert FirstVoteIs(votes, u, latest[u]);
      if FirstVoteIs(votes, u, o) {
        FirstVoteIsOne(votes, u, o, latest[u]);
      }
    }
  }

  lemma {:induction false} FirstFrom(votes: seq<VoteRecord>, u: Address) returns (i: nat)
    requires HasVoted(votes, u)
    ensures i < |votes| && votes[i].voter == u && forall j :: 0 <= j < i ==> votes[j].voter != u
  {
    i := 0;
    while votes[i].voter != u
      invariant i < |votes| && forall j :: 0 <= j < i ==> votes[j].voter != u
      decreases |votes| - i
    {
      i := i + 1;
    }
  }

  /**
   The tally kept ballot by ballot, with retractions, equals the per-head recount of the latest ballots over the
   frozen basis, as long as the basis holds.
   */
  lemma RunningTallyEqualsRecount(w: World, es: seq<Event>, k: nat, votes: seq<VoteRecord>, res: OneHumanTally)
    requires w.proposal == UNTOUCHED && AdmissibleRun(w, es) && k <= |es| < TWO64
    requires var end := After(w, es, k);
             end.proposal.basis.Frozen? && BasisHolds(end) && Counts(res, votes, end.members)
    requires Lists(votes, Latest(w, es, k))
    ensures var t := After(w, es, k).proposal.tally;
            && res.yes == At(t.counts, YES) && res.no == At(t.counts, NO)
            && res.noWithVeto == At(t.counts, NO_WITH_VETO) && res.abstain == At(t.counts, ABSTAIN)
            && res.Votes() == t.turnout
  {
    RunCountsLatestBallots(w, es, k);
    RecordsAreLatest(w, es, k);
    RecountsLatest(After(w, es, k).proposal.tally.counts, Latest(w, es, k), After(w, es, k).members, votes, res);
  }

  lemma RecountsLatest(counts: map<VoteOption, int>, latest: map<Address, VoteOption>, members: set<Address>,
                       votes: seq<VoteRecord>, res: OneHumanTally)
    requires Lists(votes, latest) && latest.Keys <= members && Counts(res, votes, members)
    requires forall v :: v in latest ==> IsVoteOption(latest[v])
    requires forall o :: IsVoteOption(o) ==> At(counts, o) == |VotersOfOption(latest, o)|
    ensures res.yes == At(counts, YES) && res.no == At(counts, NO)
    ensures res.noWithVeto == At(counts, NO_WITH_VETO) && res.abstain == At(counts, ABSTAIN)
    ensures res.Votes() == |latest|
  {
    forall o | IsVoteOption(o)
      ensures |VotersFor(votes, members, o)| == At(counts, o)
    {
      forall u
        ensures FirstVoteIs(votes, u, o) <==> u in latest && latest[u] == o
      {
        ListedFirst(votes, latest, u, o);
      }
      assert VotersFor(votes, members, o) == VotersOfOption(latest, o);
    }
    assert IsVoteOption(YES) && IsVoteOption(NO) && IsVoteOption(NO_WITH_VETO) && IsVoteOption(ABSTAIN);
    HeadsAreLatest(latest, votes, members);
    CountedVotesAreVoters(res, votes, members);
  }

  lemma HeadsAreLatest(latest: map<Address, VoteOption>, votes: seq<VoteRecord>, members: set<Address>)
    requires Lists(votes, latest) && latest.Keys <= members
    requires forall v :: v in latest ==> IsVoteOption(latest[v])
    ensures (set u | u in members && exists o :: IsVoteOption(o) && FirstVoteIs(votes, u, o)) == latest.Keys
  {
    forall u | u in latest
      ensures exists o :: IsVoteOption(o) && FirstVoteIs(votes, u, o)
    {
      ListedFirst(votes, latest, u, latest[u]);
    }
    forall u, o | FirstVoteIs(votes, u, o)
      ensures u in latest
    {
      ListedFirst(votes, latest, u, o);
    }
  }

  // ----- tallyPublicLive

  /** The result the tally function hands to x/gov. Without a basis it falls back on the eligible total. */
  method TallyPublicLive(p: Proposal, eligibleTotal: nat, totalBonded: nat)
    returns (totalPower: int, results: map<VoteOption, int>)
    requires p.tally.turnout >= 0 && (p.basis.Frozen? ==> p.basis.denominator >= 0)
    ensures var eligible := if p.basis.Frozen? then p.basis.denominator else eligibleTotal;
            var scaled := !NothingToScale(p.tally.turnout, eligible, totalBonded);
            && (!scaled ==> totalPower == 0 && results == EmptyResults())
            && (scaled ==> totalPower == p.tally.turnout * Ratio(totalBonded, eligible)
                           && results == Scaled(p.tally.counts, Ratio(totalBonded, eligible)))
  {
    var eligible := if p.basis.Frozen? then p.basis.denominator else eligibleTotal;
    totalPower, results := ScalePublicResults(p.tally.counts, p.tally.turnout, eligible, totalBonded);
  }

  /**
   At every point of every run the results handed to x/gov add up to the total power and every option holds its voters'
   exact share of it. While the basis holds, the turnout is within the denominator and the power never exceeds the
   bonded stake by a unit of the 18th decimal per head.
   */
  lemma PublicResultsAddUp(w: World, es: seq<Event>, k: nat, totalBonded: nat)
    requires Sound(w) && w.proposal == UNTOUCHED && AdmissibleRun(w, es) && k <= |es| < TWO64
    requires var b := After(w, es, k).proposal.basis;
             b.Frozen? && 0 <= b.denominator && !NothingToScale(|Latest(w, es, k)|, b.denominator, totalBonded)
    ensures var p, latest := After(w, es, k).proposal, Latest(w, es, k);
            var scale := Ratio(totalBonded, p.basis.denominator);
            var power, results := p.tally.turnout * scale, Scaled(p.tally.counts, scale);
            && p.tally.turnout == |latest| && SumOf(results) == power
            && (forall o :: IsVoteOption(o) ==>
                  o in results && results[o] * |latest| == |VotersOfOption(latest, o)| * power)
            && (BasisHolds(After(w, es, k)) ==>
                  |latest| <= p.basis.denominator && power < FromInt(totalBonded) + p.basis.denominator)
  {
    RunCountsLatestBallots(w, es, k);
    RunIsSound(w, es, k);
    var end, latest := After(w, es, k), Latest(w, es, k);
    if BasisHolds(end) {
      SizeWithin(latest.Keys, end.members);
    }
    ResultsFollow(end.proposal.tally.counts, latest, end.proposal.basis.denominator, totalBonded);
  }

  lemma ResultsFollow(counts: map<VoteOption, int>, latest: map<Address, VoteOption>, eligible: nat, totalBonded: nat)
    requires !NothingToScale(|latest|, eligible, totalBonded)
    requires SumOf(counts) == |latest|
    requires forall o :: IsVoteOption(o) ==> At(counts, o) == |VotersOfOption(latest, o)|
    ensures var scale := Ratio(totalBonded, eligible);
            var power, results := |latest| * scale, Scaled(counts, scale);
            && SumOf(results) == power && (|latest| <= eligible ==> power < FromInt(totalBonded) + eligible)
            && forall o :: IsVoteOption(o) ==>
                 o in results && results[o] * |latest| == |VotersOfOption(latest, o)| * power
  {
    PublicTallyConserves(counts, |latest|, eligible, totalBonded);
    forall o | IsVoteOption(o)
      ensures o in EmptyResults()
    {
      assert o == YES || o == ABSTAIN || o == NO || o == NO_WITH_VETO;
    }
  }

  // ----- The module invariant

  method SumCounts(counts: map<VoteOption, int>) returns (total: int)
    ensures total == SumOf(counts)
  {
    total := 0;
    var left := counts;
    while left != map[]
      invariant total + SumOf(left) == SumOf(counts)
      decreases |left|
    {
      var o :| o in left;
      SumWithout(left, o);
      total, left := total + left[o], left - {o};
    }
  }

  method CountRecorded(records: map<Address, int>) returns (counted: nat)
    ensures counted == |CountedVoters(records)|
  {
    counted := 0;
    var left := records;
    ghost var done: set<Address> := {};
    while left != map[]
      invariant forall v :: v in left ==> v in records && left[v] == records[v]
      invariant done == CountedVoters(records) - left.Keys
      invariant counted == |done|
      decreases |left|
    {
      var v :| v in left;
      if left[v] != INELIGIBLE {
        counted, done := counted + 1, done + {v};
      }
      left := left - {v};
    }
    assert done == CountedVoters(records);
  }

  /** What the turnout-within-frozen-basis check accepts. */
  ghost predicate Consistent(p: Proposal) {
    var counted := |CountedVoters(p.tally.records)|;
    if p.basis.NotTaken? then counted == 0 && p.tally.turnout == 0 && SumOf(p.tally.counts) == 0
    else p.tally.turnout <= p.basis.denominator && SumOf(p.tally.counts) == p.tally.turnout == counted
  }

  /** The turnout-within-frozen-basis check on one proposal. */
  method TurnoutInvariantBroken(p: Proposal) returns (broken: bool)
    ensures broken <==> !Consistent(p)
  {
    var counted := CountRecorded(p.tally.records);
    var total := SumCounts(p.tally.counts);
    if p.basis.NotTaken? {
      return !(counted == 0 && p.tally.turnout == 0 && total == 0);
    }
    if p.tally.turnout > p.basis.denominator {
      return true;
    }
    if total != p.tally.turnout {
      return true;
    }
    broken := counted != p.tally.turnout;
  }

  /** Whatever happens to identities and ballots, the check fails only when the turnout passes the denominator. */
  lemma ConsistentIffWithinDenominator(w: World, es: seq<Event>, k: nat)
    requires Sound(w) && w.proposal == UNTOUCHED && AdmissibleRun(w, es) && k <= |es| < TWO64
    ensures var p := After(w, es, k).proposal;
            Consistent(p) <==> (p.basis.Frozen? ==> |Latest(w, es, k)| <= p.basis.denominator)
  {
    RunCountsLatestBallots(w, es, k);
    RunIsSound(w, es, k);
    if After(w, es, k).proposal.basis.NotTaken? {
      EmptyIsExact({});
    }
  }

  /** A run in which nobody joins a frozen basis late never trips the invariant. */
  lemma InvariantHoldsWithoutLateJoins(w: World, es: seq<Event>, k: nat)
    requires Sound(w) && w.proposal == UNTOUCHED && AdmissibleRun(w, es) && k <= |es| < TWO64
    requires NoLateJoin(w, es, |es|)
    ensures Consistent(After(w, es, k).proposal)
  {
    RunKeepsBasisIff(w, es, |es|);
    var end := After(w, es, k);
    assert BasisHolds(end);
    RunIsSound(w, es, k);
    RunCountsLatestBallots(w, es, k);
    ConsistentIffWithinDenominator(w, es, k);
    if end.proposal.basis.Frozen? {
      SizeWithin(Latest(w, es, k).Keys, end.members);
    }
  }

  lemma NewVoterRaisesTurnout(s: State, voter: Address, option: int, members: set<Address>)
    requires Inv(s, members) && voter !in s.records && voter in members && option % 256 != INELIGIBLE
    ensures Record(s, voter, option, true).0.turnout == s.turnout + 1
  {
    RoomForNewVoter(s, voter, option % 256, members);
    AddsOne(s.turnout);
  }

  /** One late voter is enough once everybody the denominator counts has voted. */
  lemma LateVoteTripsFullBasis(w: World, t: Terms, b: Cast, members: set<Address>)
    requires Inv(w.proposal.tally, members) && b.voter in members
    requires w.proposal.basis.Frozen? && w.proposal.tally.turnout == w.proposal.basis.denominator
    requires !b.technical && b.voter !in w.proposal.tally.records && OverFourOptions(b.options)
    requires EligibleSince(w.reg, b.voter, w.proposal.basis.cutoff, w.proposal.basis.frozenAt)
    ensures !Consistent(Next(w, Vote(t, b)).proposal)
  {
    DominantIsVoteOption(b.options);
    NewVoterRaisesTurnout(w.proposal.tally, b.voter, Dominant(multiset(b.options)).number, members);
  }

  // ----- A recovery in the second of the freeze

  const ALICE: Address := [1]
  const BOB: Address := [2]
  const DID_A: Did := [9]
  const TERMS := Terms(Some(10), 0)
  const START := World(NO_ONE, 5, UNTOUCHED, {})

  function YesBallot(voter: Address): Cast {
    Cast(voter, [Choice(YES, Parsed(ONE))], false, false)
  }

  /** ALICE registers, a proposal opens in second 10 and ALICE votes; in the same second ALICE's identity is recovered
      by BOB, who votes too. */
  function FreezeSecondRun(): seq<Event> {
    [SetIdentity(DID_A, Document(ALICE, Active, 5)), NewBlock(10), Deposit(TERMS), Vote(TERMS, YesBallot(ALICE)),
     SetIdentity(DID_A, Document(BOB, Active, 5)), Vote(TERMS, YesBallot(BOB))]
  }

  lemma NobodyIsSound()
    ensures RegistryInv(NO_ONE) && Sound(START) && BasisHolds(START)
  {
    forall c
      ensures InLine(NO_ONE, c)
    {
      assert Standing(NO_ONE.docs, NO_ONE.index, c) == {};
    }
  }

  lemma SoleHolder(reg: Registry, did: Did, a: Address, t: int)
    requires RegistryInv(reg) && reg.docs == map[did := Document(a, Active, t)]
    ensures reg.records.Keys == {a} && reg.records[a].oldest == t
  {
    forall c
      ensures c in reg.records <==> c == a
    {
      assert InLine(reg, c);
      assert Standing(reg.docs, reg.index, c) == if c == a then {did} else {};
    }
    assert InLine(reg, a);
    assert Standing(reg.docs, reg.index, a) == {did};
  }

  /** After the first identity is written, at time 5. */
  ghost function Registered(): Registry { WithIdentity(NO_ONE, DID_A, Document(ALICE, Active, 5), 5) }

  lemma OneMember()
    ensures var reg := Registered();
            && RegistryInv(reg) && reg.records.Keys == {ALICE} && EligibleSince(reg, ALICE, 10, 10)
            && MembersAt(reg, 10) == {ALICE} && CountAt(reg, 10) == 1
            && StampedBy(reg, 10) && reg.docs == map[DID_A := Document(ALICE, Active, 5)]
  {
    var reg := Registered();
    NobodyIsSound();
    SetIdentityKeepsRegistry(NO_ONE, DID_A, Document(ALICE, Active, 5), 5);
    SetIdentityStamps(NO_ONE, DID_A, Document(ALICE, Active, 5), 5);
    WrittenDocs(NO_ONE, DID_A, Document(ALICE, Active, 5), 5);
    SoleHolder(reg, DID_A, ALICE, 5);
    assert MembersAt(reg, 10) == {ALICE};
    assert NewerThan(reg.mirror, 10) == {};
    CountIsMembers(reg, 10);
  }

  lemma YesCounts(voter: Address)
    ensures Dominant(multiset(YesBallot(voter).options)) == YES && OverFourOptions(YesBallot(voter).options)
  {
    var c := Choice(YES, Parsed(ONE));
    assert UniqueTop(multiset([c]), c);
    TopIsUnique(multiset([c]), c);
  }

  lemma Deposited(reg: Registry)
    requires CountAt(reg, 10) == 1 && MembersAt(reg, 10) == {ALICE}
    ensures Next(World(reg, 10, UNTOUCHED, {}), Deposit(TERMS))
            == World(reg, 10, Proposal(Frozen(1, 10, 10), EMPTY), {ALICE})
  {}

  const ONE_YES := State(map[YES := 1], 1, map[ALICE := 1])
  const TWO_YES := State(map[YES := 2], 2, map[ALICE := 1, BOB := 1])

  lemma YesRecords()
    ensures Record(EMPTY, ALICE, 1, true).0 == ONE_YES && Record(ONE_YES, BOB, 1, true).0 == TWO_YES
  {
    assert CountKey(1) == YES;
  }

  lemma Voted(w: World, voter: Address)
    requires w.proposal.basis == Frozen(1, 10, 10) && EligibleSince(w.reg, voter, 10, 10)
    ensures Next(w, Vote(TERMS, YesBallot(voter)))
            == w.(proposal := w.proposal.(tally := Record(w.proposal.tally, voter, 1, true).0))
  {
    YesCounts(voter);
  }

  /** The six worlds of the run. */
  lemma Unrolled(w: World, es: seq<Event>)
    requires |es| == 6
    ensures After(w, es, 0) == w && After(w, es, 1) == Next(w, es[0])
    ensures After(w, es, 2) == Next(After(w, es, 1), es[1]) && After(w, es, 3) == Next(After(w, es, 2), es[2])
    ensures After(w, es, 4) == Next(After(w, es, 3), es[3]) && After(w, es, 5) == Next(After(w, es, 4), es[4])
    ensures After(w, es, 6) == Next(After(w, es, 5), es[5])
  {}

  /** The world after ALICE's ballot: one member, one voter. */
  lemma AfterAlice()
    ensures After(START, FreezeSecondRun(), 4)
            == World(Registered(), 10, Proposal(Frozen(1, 10, 10), ONE_YES), {ALICE})
  {
    var es, reg := FreezeSecondRun(), Registered();
    OneMember();
    Unrolled(START, es);
    Deposited(reg);
    Voted(World(reg, 10, Proposal(Frozen(1, 10, 10), EMPTY), {ALICE}), ALICE);
    YesRecords();
  }

  ghost function Recovered(): Registry { WithIdentity(Registered(), DID_A, Document(BOB, Active, 5), 10) }

  lemma BobPasses()
    ensures EligibleSince(Recovered(), BOB, 10, 10)
  {
    OneMember();
    JoinsIff(Registered(), DID_A, Document(BOB, Active, 5), 10, 10, 10, BOB);
  }

  lemma AfterBob()
    ensures LateJoin(After(START, FreezeSecondRun(), 4), FreezeSecondRun()[4])
    ensures After(START, FreezeSecondRun(), 6)
            == World(Recovered(), 10, Proposal(Frozen(1, 10, 10), TWO_YES), {ALICE})
  {
    AfterAlice();
    Unrolled(START, FreezeSecondRun());
    BobPasses();
    Voted(World(Recovered(), 10, Proposal(Frozen(1, 10, 10), ONE_YES), {ALICE}), BOB);
    YesRecords();
  }

  lemma NoClockNoCondition(w: World, e: Event)
    requires !e.NewBlock? && (e.SetIdentity? ==> e.doc.controller != []) && (e.Vote? ==> OverFourOptions(e.cast.options))
    ensures Admissible(w, e)
  {}

  lemma FirstBlockIsLater()
    ensures Admissible(After(START, FreezeSecondRun(), 1), FreezeSecondRun()[1])
  {
    assert After(START, FreezeSecondRun(), 0) == START;
    assert After(START, FreezeSecondRun(), 1).now == 5;
  }

  lemma FreezeSecondIsAdmissible()
    ensures AdmissibleRun(START, FreezeSecondRun())
  {
    YesCounts(ALICE);
    YesCounts(BOB);
    var es := FreezeSecondRun();
    forall k: nat | k < |es|
      ensures Admissible(After(START, es, k), es[k])
    {
      if k == 1 {
        FirstBlockIsLater();
      } else {
        NoClockNoCondition(After(START, es, k), es[k]);
      }
    }
  }

  /**
   A recovery that lands in the second of the freeze lets two voters in against a denominator of one, and the module
   invariant trips.
   */
  lemma FreezeSecondRecoveryTripsInvariant()
    ensures Sound(START) && AdmissibleRun(START, FreezeSecondRun())
    ensures LateJoin(After(START, FreezeSecondRun(), 4), FreezeSecondRun()[4])
    ensures var p := After(START, FreezeSecondRun(), 6).proposal;
            p.basis == Frozen(1, 10, 10) && p.tally.turnout == 2 && !Consistent(p)
  {
    NobodyIsSound();
    FreezeSecondIsAdmissible();
    AfterBob();
  }
}
