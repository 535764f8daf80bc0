/**
 The running tally of one public proposal: x/governance/keeper/tally_state.go, the vote hook of x/governance/hooks.go
 that feeds it, and whom it may count: runs in which identities change while the proposal is voted on.
 */
module RunningTally {
  import opened Bank
  import opened Bytes
  import opened Eligibility
  import opened MapSums
  import opened Sets
  import opened Tally

  /** The mark of a voter turned away at cast time. */
  const INELIGIBLE: int := 0xFF

  /** Counts per option, the turnout, and the byte each voter was last recorded with. */
  datatype State = State(counts: map<VoteOption, int>, turnout: int, records: map<Address, int>)

  const EMPTY := State(map[], 0, map[])

  /** uint64 arithmetic: a subtraction stops at zero, an addition wraps. */
  function ApplyDelta(cur: int, delta: int): int {
    if delta < 0 then (if -delta > cur then 0 else cur + delta) else (cur + delta) % TWO64
  }

  /** Counts are keyed by the low byte of the option. */
  function CountKey(option: int): VoteOption { VoteOption(option % 256) }

  function AddCount(counts: map<VoteOption, int>, option: int, delta: int): map<VoteOption, int> {
    counts[CountKey(option) := ApplyDelta(At(counts, CountKey(option)), delta)]
  }

  /** What recording one ballot does to the state, and whether the ballot was counted. */
  function Record(s: State, voter: Address, option: int, eligible: bool): (State, bool) {
    if voter in s.records && s.records[voter] == INELIGIBLE then (s, false)
    else if voter !in s.records && !eligible then (s.(records := s.records[voter := INELIGIBLE]), false)
    else if voter in s.records && s.records[voter] == option then (s, true)
    else
      var records := s.records[voter := option % 256];
      if voter in s.records then
        (State(AddCount(AddCount(s.counts, s.records[voter], -1), option, 1), s.turnout, records), true)
      else
        (State(AddCount(s.counts, option, 1), ApplyDelta(s.turnout, 1), records), true)
  }

  class Keeper {
    var counts: map<VoteOption, int>
    var turnout: int
    var records: map<Address, int>

    ghost function View(): State
      reads this
    {
      State(counts, turnout, records)
    }

    constructor ()
      ensures View() == EMPTY
    {
      counts, turnout, records := map[], 0, map[];
    }

    method AddOptionCount(option: int, delta: int)
      modifies `counts
      ensures counts == AddCount(old(counts), option, delta)
    {
      counts := AddCount(counts, option, delta);
    }

    method RecordVote(voter: Address, option: int, eligible: bool) returns (counted: bool)
      modifies this
      ensures (View(), counted) == Record(old(View()), voter, option, eligible)
    {
      var had := voter in records;
      if had && records[voter] == INELIGIBLE {
        return false;
      }
      if !had && !eligible {
        records := records[voter := INELIGIBLE];
        return false;
      }
      if had {
        if records[voter] == option {
          return true;
        }
        AddOptionCount(records[voter], -1);
      } else {
        turnout := ApplyDelta(turnout, 1);
      }
      AddOptionCount(option, 1);
      records := records[voter := option % 256];
      return true;
    }
  }

  // ----- The invariant

  ghost function VotersOf(records: map<Address, int>, mark: int): set<Address> {
    set v | v in records && records[v] == mark
  }

  ghost function CountedVoters(records: map<Address, int>): set<Address> {
    set v | v in records && records[v] != INELIGIBLE
  }

  ghost predicate CountsAreVoters(s: State) {
    forall o: VoteOption :: At(s.counts, o) == if o.number == INELIGIBLE then 0 else |VotersOf(s.records, o.number)|
  }

  /**
   Each count is the number of voters recorded with that option, the turnout is the sum of the counts and the number
   of voters counted, and those voters belong to the basis.
   */
  ghost predicate Inv(s: State, members: set<Address>) {
    && |members| < TWO64
    && (forall v :: v in s.records ==> 0 <= s.records[v] < 256)
    && CountsAreVoters(s)
    && s.turnout == |CountedVoters(s.records)|
    && SumOf(s.counts) == s.turnout
    && CountedVoters(s.records) <= members
  }

  /** The ballot reaches the counters. */
  predicate Writes(s: State, voter: Address, option: int, eligible: bool) {
    if voter in s.records then s.records[voter] != INELIGIBLE && s.records[voter] != option else eligible
  }

  function One(b: bool): int { if b then 1 else 0 }

  lemma VotersAfter(records: map<Address, int>, voter: Address, mark: int, k: int)
    ensures |VotersOf(records[voter := mark], k)|
            == |VotersOf(records, k)| - One(voter in records && records[voter] == k) + One(mark == k)
  {
    var before, after := VotersOf(records, k), VotersOf(records[voter := mark], k);
    if mark == k {
      assert after == before + {voter};
    } else {
      assert after == before - {voter};
    }
  }

  lemma CountedAfter(records: map<Address, int>, voter: Address, mark: int)
    ensures CountedVoters(records[voter := mark])
            == if mark == INELIGIBLE then CountedVoters(records) - {voter} else CountedVoters(records) + {voter}
  {}

  lemma AddsOne(cur: int)
    requires 0 <= cur && cur + 1 < TWO64
    ensures ApplyDelta(cur, 1) == cur + 1
  {}

  /** Counts that follow one voter from its old mark, if any, to its new one stay exact. */
  lemma CountsFollow(s: State, s': State, voter: Address, m: int)
    requires CountsAreVoters(s) && m != INELIGIBLE && s'.records == s.records[voter := m]
    requires voter in s.records ==> s.records[voter] != INELIGIBLE
    requires forall o: VoteOption :: At(s'.counts, o)
                     == At(s.counts, o) - One(voter in s.records && s.records[voter] == o.number) + One(m == o.number)
    ensures CountsAreVoters(s')
  {
    forall o: VoteOption
      ensures At(s'.counts, o) == if o.number == INELIGIBLE then 0 else |VotersOf(s'.records, o.number)|
    {
      VotersAfter(s.records, voter, m, o.number);
    }
  }

  lemma RoomForNewVoter(s: State, voter: Address, m: int, members: set<Address>)
    requires CountedVoters(s.records) <= members && voter !in s.records && voter in members && m != INELIGIBLE
    ensures |VotersOf(s.records, m)| <= |CountedVoters(s.records)| < |members|
    ensures |CountedVoters(s.records[voter := m])| == |CountedVoters(s.records)| + 1
    ensures CountedVoters(s.records[voter := m]) <= members
  {
    CountedAfter(s.records, voter, m);
    SizeWithin(CountedVoters(s.records) + {voter}, members);
    SizeWithin(VotersOf(s.records, m), CountedVoters(s.records));
  }

  /** A voter never counted before: one more head, in range because the electorate has room for it. */
  lemma NewVoter(s: State, voter: Address, option: int, members: set<Address>)
    requires Inv(s, members) && voter !in s.records && voter in members && option % 256 != INELIGIBLE
    ensures Inv(Record(s, voter, option, true).0, members)
  {
    var s', m, key := Record(s, voter, option, true).0, option % 256, CountKey(option);
    RoomForNewVoter(s, voter, m, members);
    assert At(s.counts, key) == |VotersOf(s.records, m)|;
    AddsOne(At(s.counts, key));
    AddsOne(s.turnout);
    SumUpdate(s.counts, key, At(s.counts, key) + 1);
    CountsFollow(s, s', voter, m);
  }

  lemma RoomForChange(s: State, voter: Address, m: int, members: set<Address>)
    requires CountedVoters(s.records) <= members && m != INELIGIBLE
    requires voter in s.records && s.records[voter] != INELIGIBLE
    ensures |VotersOf(s.records, s.records[voter])| >= 1
    ensures |VotersOf(s.records, m)| - One(s.records[voter] == m) + 1 <= |members|
    ensures CountedVoters(s.records[voter := m]) == CountedVoters(s.records)
  {
    CountedAfter(s.records, voter, m);
    assert voter in CountedVoters(s.records);
    SizeWithin({voter}, VotersOf(s.records, s.records[voter]));
    VotersAfter(s.records, voter, m, m);
    SizeWithin(VotersOf(s.records[voter := m], m), members);
  }

  /** Taking one from an option and giving one to an option, which may be the same. */
  lemma MoveOne(counts: map<VoteOption, int>, prev: int, option: int)
    requires At(counts, CountKey(prev)) >= 1
    requires 0 <= At(counts, CountKey(option)) - One(CountKey(prev) == CountKey(option))
    requires At(counts, CountKey(option)) - One(CountKey(prev) == CountKey(option)) + 1 < TWO64
    ensures var moved := AddCount(AddCount(counts, prev, -1), option, 1);
            && SumOf(moved) == SumOf(counts)
            && forall o :: At(moved, o) == At(counts, o) - One(o == CountKey(prev)) + One(o == CountKey(option))
  {
    var from, to, mid := CountKey(prev), CountKey(option), AddCount(counts, prev, -1);
    assert mid == counts[from := At(counts, from) - 1];
    AddsOne(At(mid, to));
    SumUpdate(counts, from, At(counts, from) - 1);
    SumUpdate(mid, to, At(mid, to) + 1);
  }

  /** A changed ballot: one head moves from its old option, which still holds it, to the new one. */
  lemma ChangedVote(s: State, voter: Address, option: int, members: set<Address>)
    requires Inv(s, members) && voter in s.records && s.records[voter] != INELIGIBLE && s.records[voter] != option
    requires option % 256 != INELIGIBLE
    ensures Inv(Record(s, voter, option, true).0, members)
  {
    var s', m, prev := Record(s, voter, option, true).0, option % 256, s.records[voter];
    RoomForChange(s, voter, m, members);
    assert At(s.counts, CountKey(prev)) == |VotersOf(s.records, prev)|;
    assert At(s.counts, CountKey(option)) == |VotersOf(s.records, m)|;
    MoveOne(s.counts, prev, option);
    CountsFollow(s, s', voter, m);
  }

  lemma NewIneligible(s: State, voter: Address, members: set<Address>)
    requires Inv(s, members) && voter !in s.records
    ensures Inv(s.(records := s.records[voter := INELIGIBLE]), members)
  {
    var s' := s.(records := s.records[voter := INELIGIBLE]);
    CountedAfter(s.records, voter, INELIGIBLE);
    assert CountedVoters(s'.records) == CountedVoters(s.records);
    forall o: VoteOption
      ensures At(s'.counts, o) == if o.number == INELIGIBLE then 0 else |VotersOf(s'.records, o.number)|
    {
      VotersAfter(s.records, voter, INELIGIBLE, o.number);
    }
  }

  /** An option whose low byte is the ineligible mark is counted and then forgotten. */
  lemma MarkedVoteIsLost(s: State, voter: Address, option: int, members: set<Address>)
    requires Inv(s, members) && Writes(s, voter, option, true) && option % 256 == INELIGIBLE
    requires voter !in s.records ==> voter in members
    ensures !Inv(Record(s, voter, option, true).0, members)
  {
    CountedAfter(s.records, voter, INELIGIBLE);
    if voter in s.records {
      assert voter in CountedVoters(s.records);
    } else {
      assert CountedVoters(s.records[voter := INELIGIBLE]) == CountedVoters(s.records);
      SizeWithin(CountedVoters(s.records) + {voter}, members);
    }
  }

  /**
   Recording a ballot keeps the running tally exact, unless the ballot reaches the counters with an option whose low
   byte is 0xFF; then it always breaks it.
   */
  lemma RecordKeepsInvariantIff(s: State, voter: Address, option: int, eligible: bool, members: set<Address>)
    requires Inv(s, members) && (voter !in s.records && eligible ==> voter in members)
    ensures Inv(Record(s, voter, option, eligible).0, members)
            <==> !(Writes(s, voter, option, eligible) && option % 256 == INELIGIBLE)
  {
    if Writes(s, voter, option, eligible) {
      assert Record(s, voter, option, eligible) == Record(s, voter, option, true);
      if option % 256 == INELIGIBLE {
        MarkedVoteIsLost(s, voter, option, members);
      } else if voter in s.records {
        ChangedVote(s, voter, option, members);
      } else {
        NewVoter(s, voter, option, members);
      }
    } else if voter !in s.records {
      NewIneligible(s, voter, members);
    }
  }

  // ----- The vote hook

  /** The frozen basis: a count of controllers, the age they had to reach, and when they were counted. */
  datatype Basis = NotTaken | Frozen(denominator: int, cutoff: int, frozenAt: int)

  datatype Proposal = Proposal(basis: Basis, tally: State)

  /** When the voting period started, if it has, and the minimum identity age then in force. */
  datatype Terms = Terms(votingStart: Date, minAge: int)

  /** One cast ballot, with the route of its proposal and the staking module's answer about the voter. */
  datatype Cast = Cast(voter: Address, options: seq<Choice>, technical: bool, validator: bool)

  const UNTOUCHED := Proposal(NotTaken, EMPTY)

  function Cutoff(t: Terms): int {
    if t.votingStart.None? then 0 else t.votingStart.at - t.minAge
  }

  ghost function BasisFor(p: Proposal, reg: Registry, now: int, t: Terms): Basis {
    if p.basis.Frozen? then p.basis else Frozen(CountAt(reg, Cutoff(t)), Cutoff(t), now)
  }

  /** The ballot is folded into the public tally. */
  ghost predicate Counted(p: Proposal, reg: Registry, now: int, t: Terms, b: Cast) {
    var basis := BasisFor(p, reg, now, t);
    !b.technical && EligibleSince(reg, b.voter, basis.cutoff, basis.frozenAt)
  }

  ghost predicate Accepted(p: Proposal, reg: Registry, now: int, t: Terms, b: Cast) {
    if b.technical then b.validator else Counted(p, reg, now, t, b)
  }

  /** The proposal after the hook ran, whether or not it accepted the ballot. */
  ghost function AfterHook(p: Proposal, reg: Registry, now: int, t: Terms, b: Cast): Proposal {
    var basis := BasisFor(p, reg, now, t);
    if Counted(p, reg, now, t, b)
    then Proposal(basis, Record(p.tally, b.voter, Dominant(multiset(b.options)).number, true).0)
    else p.(basis := basis)
  }

  class VoteHooks {
    var basis: Basis
    const keeper: Keeper
    const idk: Eligibility.Keeper

    constructor (k: Keeper, i: Eligibility.Keeper)
      ensures keeper == k && idk == i && basis == NotTaken
    {
      keeper, idk, basis := k, i, NotTaken;
    }

    ghost function View(): Proposal
      reads this, keeper
    {
      Proposal(basis, keeper.View())
    }

    /** `newestFirst` is what the age index yields when walked backwards. */
    method FreezeEligibilityOnce(t: Terms, now: int, newestFirst: seq<Age>) returns (b: Basis)
      requires ListsNewestFirst(newestFirst, idk.mirror)
      modifies `basis
      ensures basis == BasisFor(old(View()), idk.View(), now, t)
      ensures b == basis
      ensures match old(basis)
              case Frozen(_, _, _) => basis == old(basis)
              case NotTaken =>
                && basis.Frozen? && basis.frozenAt == now
                && basis.cutoff == (if t.votingStart.Some? then t.votingStart.at - t.minAge else 0)
                && basis.denominator == CountAt(idk.View(), basis.cutoff)
    {
      if basis.NotTaken? {
        var cutoff := if t.votingStart.Some? then t.votingStart.at - t.minAge else 0;
        var denominator := idk.CountEligibleControllersAt(newestFirst, cutoff);
        basis := Frozen(denominator, cutoff, now);
      }
      b := basis;
    }

    method RecordBallot(t: Terms, now: int, newestFirst: seq<Age>, b: Cast) returns (ok: bool)
      requires ListsNewestFirst(newestFirst, idk.mirror)
      modifies this, keeper
      ensures ok == Accepted(old(View()), idk.View(), now, t, b)
      ensures View() == AfterHook(old(View()), idk.View(), now, t, b)
    {
      var frozen := FreezeEligibilityOnce(t, now, newestFirst);
      if b.technical {
        return b.validator;
      }
      var eligible := idk.IsEligibleControllerSince(b.voter, frozen.cutoff, frozen.frozenAt);
      if !eligible {
        return false;
      }
      var option := DominantOption(b.options);
      var _ := keeper.RecordVote(b.voter, option.number, true);
      return true;
    }
  }

  // ----- Runs: identities change while a proposal is voted on

  datatype Event =
    | NewBlock(time: int)
    | SetIdentity(did: Did, doc: Document)
    | Deposit(depositTerms: Terms)
    | Vote(terms: Terms, cast: Cast)

  /** The chain as one proposal sees it. `members` remembers whom the frozen denominator counted. */
  datatype World = World(reg: Registry, now: int, proposal: Proposal, members: set<Address>)

  /** The basis taken, if it was not before. */
  ghost function Froze(w: World, t: Terms): World {
    if w.proposal.basis.Frozen? then w
    else w.(proposal := w.proposal.(basis := BasisFor(w.proposal, w.reg, w.now, t)), members := MembersAt(w.reg, Cutoff(t)))
  }

  /** A refused ballot fails its transaction, which discards the writes. */
  ghost function Next(w: World, e: Event): World {
    match e
    case NewBlock(t) => w.(now := t)
    case SetIdentity(did, doc) => w.(reg := WithIdentity(w.reg, did, doc, w.now))
    case Deposit(t) => Froze(w, t)
    case Vote(t, b) =>
      if Accepted(w.proposal, w.reg, w.now, t, b)
      then Froze(w, t).(proposal := AfterHook(w.proposal, w.reg, w.now, t, b)) else w
  }

  /** The world after the first k events. */
  ghost function After(w: World, es: seq<Event>, k: nat): World
    requires k <= |es|
  {
    if k == 0 then w else Next(After(w, es, k - 1), es[k - 1])
  }

  /** Block time never falls, an identity has a controller address, and x/gov admits only its four options. */
  ghost predicate Admissible(w: World, e: Event) {
    match e
    case NewBlock(t) => w.now <= t
    case SetIdentity(_, doc) => doc.controller != []
    case Vote(_, b) => OverFourOptions(b.options)
    case Deposit(_) => true
  }

  ghost predicate AdmissibleRun(w: World, es: seq<Event>) {
    forall k: nat :: k < |es| ==> Admissible(After(w, es, k), es[k])
  }

  /** What holds before anything is known of who voted. */
  ghost predicate Sound(w: World) {
    && RegistryInv(w.reg) && Addressed(w.reg) && StampedBy(w.reg, w.now)
    && (w.proposal.basis.NotTaken? ==> w.proposal.tally == EMPTY)
    && (w.proposal.basis.Frozen? ==> |w.members| <= w.proposal.basis.denominator)
  }

  lemma NextIsSound(w: World, e: Event)
    requires Sound(w) && Admissible(w, e)
    ensures Sound(Next(w, e))
  {
    match e {
      case SetIdentity(did, doc) =>
        SetIdentityKeepsRegistry(w.reg, did, doc, w.now);
        SetIdentityStamps(w.reg, did, doc, w.now);
      case Deposit(t) => CountIsMembers(w.reg, Cutoff(t));
      case Vote(t, _) => CountIsMembers(w.reg, Cutoff(t));
      case NewBlock(_) =>
    }
  }

  lemma {:induction false} RunIsSound(w: World, es: seq<Event>, k: nat)
    requires Sound(w) && AdmissibleRun(w, es) && k <= |es|
    ensures Sound(After(w, es, k))
  {
    if k > 0 {
      RunIsSound(w, es, k - 1);
      NextIsSound(After(w, es, k - 1), es[k - 1]);
    }
  }

  // ----- The counted voters against the basis

  /** Everyone counted, and everyone who would be, belongs to the frozen basis. */
  ghost predicate BasisHolds(w: World) {
    var b := w.proposal.basis;
    b.Frozen? ==>
      && CountedVoters(w.proposal.tally.records) <= w.members
      && forall c :: EligibleSince(w.reg, c, b.cutoff, b.frozenAt) ==> c in w.members
  }

  /**
   A controller the basis did not count receives a standing DID older than the cutoff, while the second of the freeze
   lasts or against a basis that carries no freeze time.
   */
  ghost predicate LateJoin(w: World, e: Event) {
    var b := w.proposal.basis;
    && e.SetIdentity? && b.Frozen? && e.doc.controller !in w.members
    && e.doc.status != Revoked && e.doc.createdAt <= b.cutoff && (b.frozenAt == 0 || w.now <= b.frozenAt)
  }

  lemma WriteKeepsBasisIff(w: World, did: Did, doc: Document)
    requires Sound(w) && BasisHolds(w)
    ensures BasisHolds(Next(w, SetIdentity(did, doc))) <==> !LateJoin(w, SetIdentity(did, doc))
  {
    var b := w.proposal.basis;
    if b.Frozen? {
      var reg' := WithIdentity(w.reg, did, doc, w.now);
      forall c | c !in w.members
        ensures EligibleSince(reg', c, b.cutoff, b.frozenAt) <==> c == doc.controller && LateJoin(w, SetIdentity(did, doc))
      {
        JoinsIff(w.reg, did, doc, w.now, b.cutoff, b.frozenAt, c);
      }
    }
  }

  lemma RecordedVoters(s: State, voter: Address, option: int)
    ensures CountedVoters(Record(s, voter, option, true).0.records) <= CountedVoters(s.records) + {voter}
  {}

  /** Every step but a late join keeps the counted voters within the basis. */
  lemma NextKeepsBasisIff(w: World, e: Event)
    requires Sound(w) && BasisHolds(w)
    ensures BasisHolds(Next(w, e)) <==> !LateJoin(w, e)
  {
    match e {
      case SetIdentity(did, doc) => WriteKeepsBasisIff(w, did, doc);
      case Vote(t, b) =>
        RecordedVoters(w.proposal.tally, b.voter, Dominant(multiset(b.options)).number);
      case NewBlock(_) =>
      case Deposit(_) =>
    }
  }

  ghost predicate NoLateJoin(w: World, es: seq<Event>, n: nat)
    requires n <= |es|
  {
    forall k: nat :: k < n ==> !LateJoin(After(w, es, k), es[k])
  }

  ghost predicate BasisHoldsUpTo(w: World, es: seq<Event>, n: nat)
    requires n <= |es|
  {
    forall k: nat :: k <= n ==> BasisHolds(After(w, es, k))
  }

  /** Over every run, the counted voters stay within the frozen basis exactly when nobody joins late. */
  lemma {:induction false} RunKeepsBasisIff(w: World, es: seq<Event>, n: nat)
    requires Sound(w) && BasisHolds(w) && AdmissibleRun(w, es) && n <= |es|
    ensures BasisHoldsUpTo(w, es, n) <==> NoLateJoin(w, es, n)
  {
    if n > 0 {
      RunKeepsBasisIff(w, es, n - 1);
      if BasisHolds(After(w, es, n - 1)) {
        StepInRun(w, es, n - 1);
      }
    }
  }

  lemma StepInRun(w: World, es: seq<Event>, k: nat)
    requires Sound(w) && AdmissibleRun(w, es) && k < |es| && BasisHolds(After(w, es, k))
    ensures BasisHolds(After(w, es, k + 1)) <==> !LateJoin(After(w, es, k), es[k])
  {
    RunIsSound(w, es, k);
    NextKeepsBasisIff(After(w, es, k), es[k]);
  }

  lemma OutsiderIsCounted(w: World, t: Terms, b: Cast)
    requires w.proposal.basis.Frozen? && !b.technical && b.voter !in w.members && b.voter !in w.proposal.tally.records
    requires EligibleSince(w.reg, b.voter, w.proposal.basis.cutoff, w.proposal.basis.frozenAt)
    requires OverFourOptions(b.options)
    ensures b.voter in CountedVoters(Next(w, Vote(t, b)).proposal.tally.records)
  {
    DominantIsVoteOption(b.options);
  }

  /** One who joined late can vote: whatever ballot it casts next counts somebody the basis does not. */
  lemma LateJoinIsCounted(w: World, e: Event, t: Terms, b: Cast)
    requires Sound(w) && BasisHolds(w) && LateJoin(w, e)
    requires !b.technical && b.voter == e.doc.controller && b.voter !in w.proposal.tally.records && OverFourOptions(b.options)
    ensures var w' := Next(Next(w, e), Vote(t, b));
            b.voter in CountedVoters(w'.proposal.tally.records) - w'.members
  {
    var basis := w.proposal.basis;
    JoinsIff(w.reg, e.did, e.doc, w.now, basis.cutoff, basis.frozenAt, b.voter);
    OutsiderIsCounted(Next(w, e), t, b);
  }

  // ----- The tally is exact, whoever votes

  lemma DominantIsVoteOption(opts: seq<Choice>)
    requires OverFourOptions(opts)
    ensures IsVoteOption(Dominant(multiset(opts)))
  {
    if c :| UniqueTop(multiset(opts), c) {
      TopIsUnique(multiset(opts), c);
      assert c in opts;
    }
  }

  lemma EmptyIsExact(members: set<Address>)
    requires |members| < TWO64
    ensures Inv(EMPTY, members)
  {
    var none: map<Address, int> := map[];
    assert CountedVoters(none) == {};
    forall o: VoteOption
      ensures At(EMPTY.counts, o) == |VotersOf(none, o.number)|
    {
      assert VotersOf(none, o.number) == {};
    }
  }

  /** Who cast a ballot in the first k events. */
  ghost function VotersIn(es: seq<Event>, k: nat): set<Address>
    requires k <= |es|
  {
    if k == 0 then {}
    else VotersIn(es, k - 1) + if es[k - 1].Vote? then {es[k - 1].cast.voter} else {}
  }

  lemma {:induction false} VotersAreFew(es: seq<Event>, k: nat)
    requires k <= |es|
    ensures |VotersIn(es, k)| <= k
  {
    if k > 0 {
      VotersAreFew(es, k - 1);
    }
  }

  lemma WiderElectorate(s: State, members: set<Address>, more: set<Address>)
    requires Inv(s, members) && members <= more && |more| < TWO64
    ensures Inv(s, more)
  {}

  lemma NextIsExact(w: World, e: Event, members: set<Address>)
    requires Inv(w.proposal.tally, members) && Admissible(w, e) && (e.Vote? ==> e.cast.voter in members)
    ensures Inv(Next(w, e).proposal.tally, members)
  {
    if e.Vote? && Counted(w.proposal, w.reg, w.now, e.terms, e.cast) {
      DominantIsVoteOption(e.cast.options);
      RecordKeepsInvariantIff(w.proposal.tally, e.cast.voter, Dominant(multiset(e.cast.options)).number, true, members);
    }
  }

  /** After every run from an untouched proposal the counts, their sum, the turnout and the records agree. */
  lemma {:induction false} RunIsExact(w: World, es: seq<Event>, k: nat)
    requires w.proposal == UNTOUCHED && AdmissibleRun(w, es) && k <= |es| < TWO64
    ensures Inv(After(w, es, k).proposal.tally, VotersIn(es, k))
  {
    VotersAreFew(es, k);
    if k == 0 {
      EmptyIsExact({});
    } else {
      RunIsExact(w, es, k - 1);
      WiderElectorate(After(w, es, k - 1).proposal.tally, VotersIn(es, k - 1), VotersIn(es, k));
      NextIsExact(After(w, es, k - 1), es[k - 1], VotersIn(es, k));
    }
  }

  // ----- The running tally counts the latest ballots

  /** The event is a ballot that is folded into the tally. */
  ghost predicate CountedEvent(w: World, e: Event) {
    e.Vote? && Counted(w.proposal, w.reg, w.now, e.terms, e.cast)
  }

  /** The reference: remember every counted voter's latest ballot and count at the end. */
  ghost function Latest(w: World, es: seq<Event>, k: nat): map<Address, VoteOption>
    requires k <= |es|
  {
    if k == 0 then map[]
    else
      var before, e := Latest(w, es, k - 1), es[k - 1];
      if CountedEvent(After(w, es, k - 1), e) then before[e.cast.voter := Dominant(multiset(e.cast.options))] else before
  }

  ghost function VotersOfOption(latest: map<Address, VoteOption>, o: VoteOption): set<Address> {
    set v | v in latest && latest[v] == o
  }

  ghost predicate Matches(records: map<Address, int>, latest: map<Address, VoteOption>) {
    && records.Keys == latest.Keys
    && forall v :: v in latest ==> IsVoteOption(latest[v]) && records[v] == latest[v].number
  }

  lemma RecordMatches(s: State, latest: map<Address, VoteOption>, voter: Address, o: VoteOption)
    requires Matches(s.records, latest) && IsVoteOption(o)
    ensures Matches(Record(s, voter, o.number, true).0.records, latest[voter := o])
  {}

  lemma {:induction false} RecordsAreLatest(w: World, es: seq<Event>, k: nat)
    requires w.proposal == UNTOUCHED && AdmissibleRun(w, es) && k <= |es|
    ensures Matches(After(w, es, k).proposal.tally.records, Latest(w, es, k))
  {
    if k > 0 {
      var now, e := After(w, es, k - 1), es[k - 1];
      RecordsAreLatest(w, es, k - 1);
      if CountedEvent(now, e) {
        assert Admissible(now, e);
        DominantIsVoteOption(e.cast.options);
        RecordMatches(now.proposal.tally, Latest(w, es, k - 1), e.cast.voter, Dominant(multiset(e.cast.options)));
      }
    }
  }

  /** The counts kept ballot by ballot are those of the latest ballots, and nobody is counted twice. */
  lemma RunCountsLatestBallots(w: World, es: seq<Event>, k: nat)
    requires w.proposal == UNTOUCHED && AdmissibleRun(w, es) && k <= |es| < TWO64
    ensures var t, latest := After(w, es, k).proposal.tally, Latest(w, es, k);
            && SumOf(t.counts) == t.turnout == |latest|
            && CountedVoters(t.records) == latest.Keys
            && forall o :: IsVoteOption(o) ==> At(t.counts, o) == |VotersOfOption(latest, o)|
  {
    var t, latest := After(w, es, k).proposal.tally, Latest(w, es, k);
    RunIsExact(w, es, k);
    RecordsAreLatest(w, es, k);
    assert CountedVoters(t.records) == latest.Keys;
    forall o | IsVoteOption(o)
      ensures At(t.counts, o) == |VotersOfOption(latest, o)|
    {
      assert VotersOf(t.records, o.number) == VotersOfOption(latest, o);
    }
  }
}
