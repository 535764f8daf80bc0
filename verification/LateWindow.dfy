/**
 When the turnout-within-frozen-basis check can still fail: over the writes the identity messages make, exactly as long
 as enough controllers can still come to pass the membership test of the frozen basis.
 */
module LateWindow {
  import opened Bank
  import opened Bytes
  import opened Eligibility
  import opened PublicTally
  import opened RunningTally
  import opened Sets
  import opened Tally

  // ----- the writes of the identity messages

  /** A world, and the identities registered or recovered in its present second. The recovery delay is at least a second
      and an executed recovery ends all others of its identity, so none of these can change hands again before the next. */
  datatype Scene = Scene(world: World, settled: set<Did>)

  predicate Settles(reg: Registry, did: Did, doc: Document) {
    did !in reg.docs || reg.docs[did].controller != doc.controller
  }

  ghost function Play(sc: Scene, e: Event): Scene {
    Scene(Next(sc.world, e),
          match e
          case NewBlock(t) => if t > sc.world.now then {} else sc.settled
          case SetIdentity(did, doc) => if Settles(sc.world.reg, did, doc) then sc.settled + {did} else sc.settled
          case Deposit(_) => sc.settled
          case Vote(_, _) => sc.settled)
  }

  ghost function Played(sc: Scene, es: seq<Event>): Scene
    decreases |es|
  {
    if es == [] then sc else Played(Play(sc, es[0]), es[1..])
  }

  /** Registration dates a new identity by the block; revocation, suspension and reinstatement change the status of one
      that is not revoked; key rotation changes nothing seen here, and recovery the controller of an active one. */
  predicate IdentityWrite(reg: Registry, now: int, settled: set<Did>, did: Did, doc: Document) {
    if did !in reg.docs then doc.status == Active && doc.createdAt == now
    else
      var before := reg.docs[did];
      || (before.status != Revoked && before.status != doc.status && doc == before.(status := doc.status))
      || (before.status == Active && doc == before)
      || (before.status == Active && did !in settled && doc == before.(controller := doc.controller))
  }

  ghost predicate Genuine(sc: Scene, e: Event) {
    && Admissible(sc.world, e)
    && (e.SetIdentity? ==> IdentityWrite(sc.world.reg, sc.world.now, sc.settled, e.did, e.doc))
  }

  ghost predicate GenuineRun(sc: Scene, es: seq<Event>)
    decreases |es|
  {
    es == [] || (Genuine(sc, es[0]) && GenuineRun(Play(sc, es[0]), es[1..]))
  }

  // ----- who can still be counted

  /** An identity that stands and is no newer than the cutoff. */
  predicate OldEnough(reg: Registry, cutoff: int, d: Did) {
    d in reg.docs && reg.docs[d].status != Revoked && reg.docs[d].createdAt <= cutoff
  }

  ghost predicate SomeOldEnough(reg: Registry, cutoff: int) { exists d :: OldEnough(reg, cutoff, d) }

  ghost function EligibleNow(w: World): set<Address>
    requires w.proposal.basis.Frozen?
  {
    set c | c in w.reg.records && EligibleSince(w.reg, c, w.proposal.basis.cutoff, w.proposal.basis.frozenAt)
  }

  ghost function CountedNow(w: World): set<Address> { CountedVoters(w.proposal.tally.records) }

  /** The identities old enough that can still change hands in this second. */
  ghost function Movable(sc: Scene): set<Did>
    requires sc.world.proposal.basis.Frozen?
  {
    set d | d in sc.world.reg.docs && OldEnough(sc.world.reg, sc.world.proposal.basis.cutoff, d) && d !in sc.settled
  }

  /** The most voters that can be counted in this second without a registration. */
  ghost function MostVoters(sc: Scene): nat
    requires sc.world.proposal.basis.Frozen?
  {
    |CountedNow(sc.world) + EligibleNow(sc.world)| + |Movable(sc)|
  }

  /** A controller can still join the frozen basis. */
  predicate Joinable(w: World) {
    w.proposal.basis.Frozen? && (w.proposal.basis.frozenAt == 0 || w.now <= w.proposal.basis.frozenAt)
  }

  /** Without a freeze time: an identity old enough stands, or could be registered. With one: the second of the freeze is
      not over, and registrations are old enough or the identities left to recover are too many. */
  ghost predicate WindowOpen(sc: Scene) {
    var w := sc.world;
    var b := w.proposal.basis;
    && Joinable(w)
    && (|| w.now <= b.cutoff
        || (if b.frozenAt == 0 then SomeOldEnough(w.reg, b.cutoff) else MostVoters(sc) > b.denominator))
  }

  /** The basis is frozen, not in the future, and the tally is exact. */
  ghost predicate Counting(w: World) {
    && Sound(w) && w.proposal.basis.Frozen? && (w.proposal.basis.frozenAt == 0 || w.proposal.basis.frozenAt <= w.now)
    && Inv(w.proposal.tally, CountedNow(w)) && CountedNow(w) == w.proposal.tally.records.Keys
  }

  // ----- what one write does

  predicate Joins(w: World, doc: Document) {
    Joinable(w) && doc.status != Revoked && doc.createdAt <= w.proposal.basis.cutoff
  }

  lemma WriteAdmits(w: World, did: Did, doc: Document)
    requires Sound(w) && w.proposal.basis.Frozen?
    ensures var w' := Next(w, SetIdentity(did, doc));
            && EligibleNow(w') <= EligibleNow(w) + (if Joins(w, doc) then {doc.controller} else {})
            && (Joins(w, doc) && doc.controller !in EligibleNow(w) ==> doc.controller in EligibleNow(w'))
  {
    var w', b := Next(w, SetIdentity(did, doc)), w.proposal.basis;
    forall c | c !in EligibleNow(w)
      ensures c in EligibleNow(w') <==> c == doc.controller && Joins(w, doc)
    {
      JoinsIff(w.reg, did, doc, w.now, b.cutoff, b.frozenAt, c);
    }
  }

  /** While the basis can be joined, whoever holds an identity old enough passes. */
  lemma HolderIsEligible(w: World, d: Did)
    requires Sound(w) && Joinable(w) && OldEnough(w.reg, w.proposal.basis.cutoff, d)
    ensures w.reg.docs[d].controller in EligibleNow(w)
  {
    var c := w.reg.docs[d].controller;
    assert InLine(w.reg, c);
    assert Link(c, d) in w.reg.index;
    assert d in Standing(w.reg.docs, w.reg.index, c);
    assert IsEarliest(w.reg.docs, Standing(w.reg.docs, w.reg.index, c), OldestOf(w.reg, c));
  }

  lemma WriteMoves(sc: Scene, did: Did, doc: Document)
    requires sc.world.proposal.basis.Frozen?
    ensures var cutoff, sc' := sc.world.proposal.basis.cutoff, Play(sc, SetIdentity(did, doc));
            && sc'.world.reg.docs == sc.world.reg.docs[did := doc]
            && Movable(sc') - {did} == Movable(sc) - {did}
            && (did in Movable(sc') <==> doc.status != Revoked && doc.createdAt <= cutoff && did !in sc'.settled)
  {
    WrittenDocs(sc.world.reg, did, doc, sc.world.now);
  }

  lemma WriteKeepsCounting(w: World, did: Did, doc: Document)
    requires Counting(w) && Admissible(w, SetIdentity(did, doc))
    ensures var w' := Next(w, SetIdentity(did, doc));
            Counting(w') && w'.proposal == w.proposal && w'.now == w.now
  {
    NextIsSound(w, SetIdentity(did, doc));
  }

  // ----- once shut, never tripped

  /** Nobody can come to be counted beyond the denominator. */
  ghost predicate Shut(sc: Scene) {
    var b := sc.world.proposal.basis;
    && Counting(sc.world) && b.denominator < TWO64
    && |CountedNow(sc.world) + EligibleNow(sc.world)| <= b.denominator && !WindowOpen(sc)
  }

  lemma ShutIsConsistent(sc: Scene)
    requires Shut(sc)
    ensures Consistent(sc.world.proposal)
  {
    SizeWithin(CountedNow(sc.world), CountedNow(sc.world) + EligibleNow(sc.world));
  }

  lemma BlockStaysShut(sc: Scene, t: int)
    requires Shut(sc) && sc.world.now <= t
    ensures Shut(Play(sc, NewBlock(t)))
  {
    var sc' := Play(sc, NewBlock(t));
    assert Sound(sc'.world) by { NextIsSound(sc.world, NewBlock(t)); }
    assert EligibleNow(sc'.world) == EligibleNow(sc.world);
    if Joinable(sc'.world) && sc.world.proposal.basis.frozenAt != 0 {
      assert Movable(sc') == Movable(sc);
    }
  }

  /** The hook never stores the ineligible mark. */
  lemma RecordKeys(s: State, voter: Address, opts: seq<Choice>)
    requires CountedVoters(s.records) == s.records.Keys && OverFourOptions(opts)
    ensures var s' := Record(s, voter, Dominant(multiset(opts)).number, true).0;
            CountedVoters(s'.records) == s'.records.Keys == s.records.Keys + {voter}
  {
    DominantIsVoteOption(opts);
  }

  /** A counted ballot keeps the tally exact over whoever includes everybody counted and the voter. */
  lemma CountedStaysExact(w: World, t: Terms, b: Cast, all: set<Address>)
    requires Counting(w) && Admissible(w, Vote(t, b)) && Counted(w.proposal, w.reg, w.now, t, b)
    requires CountedNow(w) + {b.voter} <= all && |all| < TWO64
    ensures var w' := Next(w, Vote(t, b));
            && CountedNow(w') == CountedNow(w) + {b.voter} == w'.proposal.tally.records.Keys
            && Inv(w'.proposal.tally, CountedNow(w'))
  {
    WiderElectorate(w.proposal.tally, CountedNow(w), all);
    NextIsExact(w, Vote(t, b), all);
    RecordKeys(w.proposal.tally, b.voter, b.options);
    SizeWithin(CountedNow(Next(w, Vote(t, b))), all);
  }

  lemma BallotStaysExact(w: World, t: Terms, b: Cast, all: set<Address>)
    requires Counting(w) && Admissible(w, Vote(t, b)) && CountedNow(w) + EligibleNow(w) <= all && |all| < TWO64
    ensures var w' := Next(w, Vote(t, b));
            && w'.reg == w.reg && w'.now == w.now && w'.proposal.basis == w.proposal.basis
            && CountedNow(w') <= all && CountedNow(w) <= CountedNow(w') && Counting(w')
  {
    NextIsSound(w, Vote(t, b));
    if Counted(w.proposal, w.reg, w.now, t, b) {
      assert b.voter in EligibleNow(w);
      CountedStaysExact(w, t, b, all);
    }
  }

  lemma BallotStaysShut(sc: Scene, t: Terms, b: Cast)
    requires Shut(sc) && Admissible(sc.world, Vote(t, b))
    ensures Shut(Play(sc, Vote(t, b)))
  {
    var w, sc' := sc.world, Play(sc, Vote(t, b));
    BallotStaysExact(w, t, b, CountedNow(w) + EligibleNow(w));
    assert EligibleNow(sc'.world) == EligibleNow(w) && Movable(sc') == Movable(sc);
    assert CountedNow(sc'.world) + EligibleNow(w) == CountedNow(w) + EligibleNow(w);
  }

  /** What it takes for a step within one second to leave the window shut. */
  lemma ShutCarries(sc: Scene, sc': Scene)
    requires Shut(sc) && Counting(sc'.world)
    requires sc'.world.proposal.basis == sc.world.proposal.basis && sc'.world.now == sc.world.now
    requires |CountedNow(sc'.world) + EligibleNow(sc'.world)| <= sc.world.proposal.basis.denominator
    requires var cutoff := sc.world.proposal.basis.cutoff;
             Joinable(sc.world) ==> MostVoters(sc') <= MostVoters(sc)
                                    && (SomeOldEnough(sc'.world.reg, cutoff) ==> SomeOldEnough(sc.world.reg, cutoff))
    ensures Shut(sc')
  {}

  lemma QuietWriteBounds(sc: Scene, did: Did, doc: Document)
    requires Counting(sc.world) && !Joins(sc.world, doc)
    ensures var w, sc' := sc.world, Play(sc, SetIdentity(did, doc));
            && |CountedNow(w) + EligibleNow(sc'.world)| <= |CountedNow(w) + EligibleNow(w)|
            && (Joinable(w) ==> |Movable(sc')| <= |Movable(sc)|)
  {
    var w, sc' := sc.world, Play(sc, SetIdentity(did, doc));
    WriteAdmits(w, did, doc);
    SizeWithin(CountedNow(w) + EligibleNow(sc'.world), CountedNow(w) + EligibleNow(w));
    if Joinable(w) {
      WriteMoves(sc, did, doc);
      assert did !in Movable(sc');
      SizeWithin(Movable(sc'), Movable(sc));
    }
  }

  lemma QuietWriteStaysShut(sc: Scene, did: Did, doc: Document)
    requires Shut(sc) && Genuine(sc, SetIdentity(did, doc)) && !Joins(sc.world, doc)
    ensures Shut(Play(sc, SetIdentity(did, doc)))
  {
    WriteKeepsCounting(sc.world, did, doc);
    QuietWriteBounds(sc, did, doc);
    if Joinable(sc.world) {
      StillNoneOld(sc.world, did, doc);
    }
    ShutCarries(sc, Play(sc, SetIdentity(did, doc)));
  }

  lemma StillNoneOld(w: World, did: Did, doc: Document)
    requires w.proposal.basis.Frozen? && !(doc.status != Revoked && doc.createdAt <= w.proposal.basis.cutoff)
    ensures var reg', cutoff := Next(w, SetIdentity(did, doc)).reg, w.proposal.basis.cutoff;
            SomeOldEnough(reg', cutoff) ==> SomeOldEnough(w.reg, cutoff)
  {
    var reg', cutoff := Next(w, SetIdentity(did, doc)).reg, w.proposal.basis.cutoff;
    WrittenDocs(w.reg, did, doc, w.now);
    if d :| OldEnough(reg', cutoff, d) {
      assert OldEnough(w.reg, cutoff, d);
    }
  }

  /** With the window shut, a write that gives someone an identity old enough is of one that was, in the freeze second. */
  lemma JoiningWriteIsOld(sc: Scene, did: Did, doc: Document)
    requires Shut(sc) && Genuine(sc, SetIdentity(did, doc)) && Joins(sc.world, doc)
    ensures var b := sc.world.proposal.basis;
            && OldEnough(sc.world.reg, b.cutoff, did) && sc.world.now > b.cutoff
            && b.frozenAt != 0 && MostVoters(sc) <= b.denominator
  {
    assert OldEnough(sc.world.reg, sc.world.proposal.basis.cutoff, did);
  }

  /** Nobody new passes when the holder keeps it. */
  lemma KeptWriteBounds(sc: Scene, did: Did, doc: Document)
    requires Counting(sc.world) && Joinable(sc.world) && OldEnough(sc.world.reg, sc.world.proposal.basis.cutoff, did)
    requires sc.world.reg.docs[did].controller == doc.controller
    ensures MostVoters(Play(sc, SetIdentity(did, doc))) <= MostVoters(sc)
  {
    var w, sc' := sc.world, Play(sc, SetIdentity(did, doc));
    HolderIsEligible(w, did);
    WriteAdmits(w, did, doc);
    WriteMoves(sc, did, doc);
    SizeWithin(CountedNow(w) + EligibleNow(sc'.world), CountedNow(w) + EligibleNow(w));
    SizeWithin(Movable(sc'), Movable(sc));
  }

  /** One identity fewer is movable when it changes hands. */
  lemma MovingWriteBounds(sc: Scene, did: Did, doc: Document)
    requires Counting(sc.world) && did in Movable(sc) && sc.world.reg.docs[did].controller != doc.controller
    ensures MostVoters(Play(sc, SetIdentity(did, doc))) <= MostVoters(sc)
  {
    var w, sc' := sc.world, Play(sc, SetIdentity(did, doc));
    WriteAdmits(w, did, doc);
    WriteMoves(sc, did, doc);
    SizeWithin(CountedNow(w) + EligibleNow(sc'.world), CountedNow(w) + EligibleNow(w) + {doc.controller});
    SizeWithin(Movable(sc'), Movable(sc) - {did});
  }

  lemma JoiningWriteStaysShut(sc: Scene, did: Did, doc: Document)
    requires Shut(sc) && Genuine(sc, SetIdentity(did, doc)) && Joins(sc.world, doc)
    ensures Shut(Play(sc, SetIdentity(did, doc)))
  {
    JoiningWriteIsOld(sc, did, doc);
    WriteKeepsCounting(sc.world, did, doc);
    if sc.world.reg.docs[did].controller == doc.controller {
      KeptWriteBounds(sc, did, doc);
    } else {
      MovingWriteBounds(sc, did, doc);
    }
    ShutCarries(sc, Play(sc, SetIdentity(did, doc)));
  }

  lemma StaysShut(sc: Scene, e: Event)
    requires Shut(sc) && Genuine(sc, e)
    ensures Shut(Play(sc, e))
  {
    match e
    case NewBlock(t) => BlockStaysShut(sc, t);
    case Deposit(_) => NextIsSound(sc.world, e);
    case Vote(t, b) => BallotStaysShut(sc, t, b);
    case SetIdentity(did, doc) =>
      if Joins(sc.world, doc) {
        JoiningWriteStaysShut(sc, did, doc);
      } else {
        QuietWriteStaysShut(sc, did, doc);
      }
  }

  lemma {:induction false} ShutNeverTrips(sc: Scene, es: seq<Event>)
    requires Shut(sc) && GenuineRun(sc, es)
    ensures Shut(Played(sc, es)) && Consistent(Played(sc, es).world.proposal)
    decreases |es|
  {
    if es == [] {
      ShutIsConsistent(sc);
    } else {
      StaysShut(sc, es[0]);
      ShutNeverTrips(Play(sc, es[0]), es[1..]);
    }
  }

  // ----- while open, some continuation trips

  ghost predicate Trips(sc: Scene, es: seq<Event>) {
    GenuineRun(sc, es) && !Consistent(Played(sc, es).world.proposal)
  }

  lemma TripsLater(sc: Scene, e: Event, es: seq<Event>)
    requires Genuine(sc, e) && Trips(Play(sc, e), es)
    ensures Trips(sc, [e] + es)
  {
    assert ([e] + es)[1..] == es;
  }

  lemma {:induction false} LongerThanAll(s: set<Bytes>) returns (n: nat)
    ensures forall b :: b in s ==> |b| < n
    decreases |s|
  {
    n := 1;
    if s != {} {
      var b :| b in s;
      var m := LongerThanAll(s - {b});
      n := if |b| < m then m else |b| + 1;
    }
  }

  /** There is always another byte string. */
  lemma Fresh(s: set<Bytes>) returns (b: Bytes)
    ensures b !in s && b != []
  {
    var n := LongerThanAll(s);
    b := seq(n + 1, _ => 0);
  }

  /** A controller that has neither a record nor a vote. */
  predicate IsNew(w: World, c: Address) { c != [] && c !in w.reg.records && c !in w.proposal.tally.records }

  lemma NewController(w: World) returns (c: Address)
    ensures IsNew(w, c)
  {
    c := Fresh(w.reg.records.Keys + w.proposal.tally.records.Keys);
  }

  const ANY_TERMS := Terms(Some(0), 0)

  function Ballot(c: Address): Event { Vote(ANY_TERMS, YesBallot(c)) }

  lemma ExactAfterNewVoter(s: State, c: Address)
    requires Inv(s, CountedVoters(s.records)) && c !in s.records && s.turnout + 1 < TWO64
    ensures Record(s, c, 1, true).0.turnout == s.turnout + 1
    ensures CountedVoters(Record(s, c, 1, true).0.records) == CountedVoters(s.records) + {c}
  {
    var all := CountedVoters(s.records) + {c};
    assert |all| == s.turnout + 1;
    WiderElectorate(s, CountedVoters(s.records), all);
    NewVoterRaisesTurnout(s, c, 1, all);
  }

  /** Whoever passes and has not voted can vote, and the turnout goes up by one. */
  lemma Votes(sc: Scene, c: Address)
    requires Counting(sc.world) && c in EligibleNow(sc.world) && c !in sc.world.proposal.tally.records
    requires sc.world.proposal.tally.turnout + 1 < TWO64
    ensures var w, sc' := sc.world, Play(sc, Ballot(c));
            && Genuine(sc, Ballot(c)) && Counting(sc'.world)
            && sc' == Scene(w.(proposal := sc'.world.proposal), sc.settled)
            && sc'.world.proposal.basis == w.proposal.basis && CountedNow(sc'.world) == CountedNow(w) + {c}
            && sc'.world.proposal.tally.turnout == w.proposal.tally.turnout + 1
  {
    var w, s := sc.world, sc.world.proposal.tally;
    YesCounts(c);
    ExactAfterNewVoter(s, c);
    NextIsSound(w, Ballot(c));
    var all := CountedNow(w) + {c};
    WiderElectorate(s, CountedNow(w), all);
    NextIsExact(w, Ballot(c), all);
    RecordKeys(s, c, YesBallot(c).options);
  }

  lemma OverTheDenominator(sc: Scene)
    requires sc.world.proposal.basis.Frozen? && sc.world.proposal.tally.turnout > sc.world.proposal.basis.denominator
    ensures Trips(sc, [])
  {}

  // A registration in time for the cutoff.

  lemma Registers(sc: Scene, d: Did, c: Address)
    requires Counting(sc.world) && Joinable(sc.world) && sc.world.now <= sc.world.proposal.basis.cutoff
    requires d !in sc.world.reg.docs && IsNew(sc.world, c)
    ensures var e := SetIdentity(d, Document(c, Active, sc.world.now));
            var w' := Play(sc, e).world;
            && Genuine(sc, e) && Counting(w') && w'.proposal == sc.world.proposal && w'.now == sc.world.now
            && c in EligibleNow(w') && OldEnough(w'.reg, w'.proposal.basis.cutoff, d) && w'.reg.docs[d].status == Active
  {
    var doc := Document(c, Active, sc.world.now);
    WriteKeepsCounting(sc.world, d, doc);
    WriteAdmits(sc.world, d, doc);
    WriteMoves(sc, d, doc);
  }

  /** New controllers register, each voting, until the turnout passes the denominator. */
  lemma {:induction false} RegistersUntilTripped(sc: Scene) returns (es: seq<Event>)
    requires Counting(sc.world) && Joinable(sc.world) && sc.world.now <= sc.world.proposal.basis.cutoff
    requires sc.world.proposal.basis.denominator + 1 < TWO64
    ensures Trips(sc, es)
    decreases sc.world.proposal.basis.denominator - sc.world.proposal.tally.turnout
  {
    if sc.world.proposal.tally.turnout > sc.world.proposal.basis.denominator {
      OverTheDenominator(sc);
      es := [];
    } else {
      var c := NewController(sc.world);
      var d := Fresh(sc.world.reg.docs.Keys);
      var e := SetIdentity(d, Document(c, Active, sc.world.now));
      Registers(sc, d, c);
      Votes(Play(sc, e), c);
      var rest := RegistersUntilTripped(Play(Play(sc, e), Ballot(c)));
      TripsLater(Play(sc, e), Ballot(c), rest);
      TripsLater(sc, e, [Ballot(c)] + rest);
      es := [e] + ([Ballot(c)] + rest);
    }
  }

  // A recovery.

  /** `d` is active and old enough, and can change hands in this second. */
  ghost predicate Ready(sc: Scene, d: Did) {
    Counting(sc.world) && Joinable(sc.world) && d in Movable(sc) && sc.world.reg.docs[d].status == Active
  }

  function Handover(reg: Registry, d: Did, c: Address): Event
    requires d in reg.docs
  {
    SetIdentity(d, reg.docs[d].(controller := c))
  }

  lemma HandsOver(sc: Scene, d: Did, c: Address)
    requires Ready(sc, d) && IsNew(sc.world, c)
    ensures var w, e := sc.world, Handover(sc.world.reg, d, c);
            var sc' := Play(sc, e);
            && Genuine(sc, e) && Counting(sc'.world) && sc'.world.proposal == w.proposal && sc'.world.now == w.now
            && c in EligibleNow(sc'.world) && EligibleNow(sc'.world) <= EligibleNow(w) + {c}
            && Movable(sc') == Movable(sc) - {d}
            && OldEnough(sc'.world.reg, w.proposal.basis.cutoff, d) && sc'.world.reg.docs[d].status == Active
  {
    var w, doc := sc.world, sc.world.reg.docs[d].(controller := c);
    HolderIsEligible(w, d);
    WriteKeepsCounting(w, d, doc);
    WriteAdmits(w, d, doc);
    WriteMoves(sc, d, doc);
    assert Movable(Play(sc, SetIdentity(d, doc))) == Movable(sc) - {d};
  }

  function Reinstatement(reg: Registry, d: Did): Event
    requires d in reg.docs
  {
    SetIdentity(d, reg.docs[d].(status := Active))
  }

  lemma Reinstates(sc: Scene, d: Did)
    requires Counting(sc.world) && Joinable(sc.world)
    requires OldEnough(sc.world.reg, sc.world.proposal.basis.cutoff, d) && sc.world.reg.docs[d].status == Suspended
    ensures var w, e := sc.world, Reinstatement(sc.world.reg, d);
            var sc' := Play(sc, e);
            && Genuine(sc, e) && Counting(sc'.world) && sc'.world.proposal == w.proposal && sc'.world.now == w.now
            && sc'.settled == sc.settled && Movable(sc') == Movable(sc) && EligibleNow(sc'.world) <= EligibleNow(w)
            && OldEnough(sc'.world.reg, w.proposal.basis.cutoff, d) && sc'.world.reg.docs[d].status == Active
  {
    var w, doc := sc.world, sc.world.reg.docs[d].(status := Active);
    HolderIsEligible(w, d);
    WriteKeepsCounting(w, d, doc);
    WriteAdmits(w, d, doc);
    WriteMoves(sc, d, doc);
    assert Movable(Play(sc, SetIdentity(d, doc))) == Movable(sc);
  }

  // Without a freeze time one identity is enough: it changes hands every second.

  lemma NextSecond(sc: Scene, d: Did)
    requires Counting(sc.world) && sc.world.proposal.basis.frozenAt == 0
    requires OldEnough(sc.world.reg, sc.world.proposal.basis.cutoff, d) && sc.world.reg.docs[d].status == Active
    ensures var e := NewBlock(sc.world.now + 1);
            Genuine(sc, e) && Ready(Play(sc, e), d) && Play(sc, e).world.proposal == sc.world.proposal
  {
    NextIsSound(sc.world, NewBlock(sc.world.now + 1));
  }

  lemma {:induction false} HandsOnUntilTripped(sc: Scene, d: Did) returns (es: seq<Event>)
    requires Counting(sc.world) && sc.world.proposal.basis.frozenAt == 0
    requires OldEnough(sc.world.reg, sc.world.proposal.basis.cutoff, d) && sc.world.reg.docs[d].status == Active
    requires sc.world.proposal.basis.denominator + 1 < TWO64
    ensures Trips(sc, es)
    decreases sc.world.proposal.basis.denominator - sc.world.proposal.tally.turnout
  {
    if sc.world.proposal.tally.turnout > sc.world.proposal.basis.denominator {
      OverTheDenominator(sc);
      es := [];
    } else {
      var e0 := NewBlock(sc.world.now + 1);
      var sc1 := Play(sc, e0);
      NextSecond(sc, d);
      var c := NewController(sc1.world);
      var e1 := Handover(sc1.world.reg, d, c);
      HandsOver(sc1, d, c);
      Votes(Play(sc1, e1), c);
      var rest := HandsOnUntilTripped(Play(Play(sc1, e1), Ballot(c)), d);
      TripsLater(Play(sc1, e1), Ballot(c), rest);
      TripsLater(sc1, e1, [Ballot(c)] + rest);
      TripsLater(sc, e0, [e1] + ([Ballot(c)] + rest));
      es := [e0] + ([e1] + ([Ballot(c)] + rest));
    }
  }

  lemma UndatedWindowTrips(sc: Scene, d: Did) returns (es: seq<Event>)
    requires Counting(sc.world) && sc.world.proposal.basis.frozenAt == 0
    requires OldEnough(sc.world.reg, sc.world.proposal.basis.cutoff, d)
    requires sc.world.proposal.basis.denominator + 1 < TWO64
    ensures Trips(sc, es)
  {
    if sc.world.reg.docs[d].status == Active {
      es := HandsOnUntilTripped(sc, d);
    } else {
      var e := Reinstatement(sc.world.reg, d);
      Reinstates(sc, d);
      var rest := HandsOnUntilTripped(Play(sc, e), d);
      TripsLater(sc, e, rest);
      es := [e] + rest;
    }
  }

  // In the second of the freeze: everybody who passes votes, then every movable identity changes hands once.

  ghost function Waiting(w: World): set<Address>
    requires w.proposal.basis.Frozen?
  {
    EligibleNow(w) - CountedNow(w)
  }

  ghost predicate Enough(sc: Scene) {
    && Counting(sc.world) && Joinable(sc.world) && sc.world.proposal.basis.denominator + 1 < TWO64
    && MostVoters(sc) > sc.world.proposal.basis.denominator
  }

  lemma WaitingVotes(sc: Scene, c: Address)
    requires Counting(sc.world) && c in Waiting(sc.world) && sc.world.proposal.tally.turnout + 1 < TWO64
    ensures var w, sc' := sc.world, Play(sc, Ballot(c));
            && Genuine(sc, Ballot(c)) && Counting(sc'.world) && Movable(sc') == Movable(sc)
            && sc'.world.proposal.basis == w.proposal.basis && sc'.world.now == w.now
            && CountedNow(sc'.world) + EligibleNow(sc'.world) == CountedNow(w) + EligibleNow(w)
            && Waiting(sc'.world) == Waiting(w) - {c}
  {
    var w, sc' := sc.world, Play(sc, Ballot(c));
    Votes(sc, c);
    assert EligibleNow(sc'.world) == EligibleNow(w) && Movable(sc') == Movable(sc);
    assert CountedNow(sc'.world) + EligibleNow(w) == CountedNow(w) + EligibleNow(w);
  }

  /** Those who already pass are too many: it is enough that they vote. */
  lemma {:induction false} TooManyPass(sc: Scene) returns (es: seq<Event>)
    requires Counting(sc.world) && sc.world.proposal.basis.denominator + 1 < TWO64
    requires |CountedNow(sc.world) + EligibleNow(sc.world)| > sc.world.proposal.basis.denominator
    ensures Trips(sc, es)
    decreases |Waiting(sc.world)|
  {
    if sc.world.proposal.tally.turnout > sc.world.proposal.basis.denominator {
      OverTheDenominator(sc);
      es := [];
    } else {
      assert Waiting(sc.world) != {} by {
        SizeWithin(CountedNow(sc.world) + EligibleNow(sc.world), CountedNow(sc.world) + Waiting(sc.world));
      }
      var c :| c in Waiting(sc.world);
      WaitingVotes(sc, c);
      var rest := TooManyPass(Play(sc, Ballot(c)));
      TripsLater(sc, Ballot(c), rest);
      es := [Ballot(c)] + rest;
    }
  }

  lemma NobodyWaiting(w: World)
    requires w.proposal.basis.Frozen?
    ensures Waiting(w) == {} <==> EligibleNow(w) <= CountedNow(w)
    ensures Waiting(w) == {} ==> CountedNow(w) + EligibleNow(w) == CountedNow(w)
  {
    assert forall c :: c in EligibleNow(w) ==> c in Waiting(w) || c in CountedNow(w);
  }

  /** The two steps of a recovery and the new holder's vote. */
  lemma MovesAndVotes(sc: Scene, d: Did, c: Address)
    requires Ready(sc, d) && IsNew(sc.world, c) && sc.world.proposal.tally.turnout + 1 < TWO64
    ensures var w, e := sc.world, Handover(sc.world.reg, d, c);
            var sc' := Play(Play(sc, e), Ballot(c));
            && Genuine(sc, e) && Genuine(Play(sc, e), Ballot(c)) && Counting(sc'.world)
            && sc'.world.proposal.basis == w.proposal.basis && sc'.world.now == w.now
            && CountedNow(sc'.world) == CountedNow(w) + {c} && EligibleNow(sc'.world) <= EligibleNow(w) + {c}
            && Movable(sc') == Movable(sc) - {d}
  {
    var sc1 := Play(sc, Handover(sc.world.reg, d, c));
    HandsOver(sc, d, c);
    Votes(sc1, c);
    var sc' := Play(sc1, Ballot(c));
    assert EligibleNow(sc'.world) == EligibleNow(sc1.world) && Movable(sc') == Movable(sc1);
  }

  /** With nobody waiting: one identity fewer is movable, and its new holder has been counted. */
  lemma MovedOnceVotes(sc: Scene, d: Did, c: Address)
    requires Enough(sc) && Waiting(sc.world) == {} && Ready(sc, d) && IsNew(sc.world, c)
    requires sc.world.proposal.tally.turnout + 1 < TWO64
    ensures var sc' := Play(Play(sc, Handover(sc.world.reg, d, c)), Ballot(c));
            Enough(sc') && Waiting(sc'.world) == {} && Movable(sc') == Movable(sc) - {d}
  {
    var sc' := Play(Play(sc, Handover(sc.world.reg, d, c)), Ballot(c));
    MovesAndVotes(sc, d, c);
    NobodyWaiting(sc.world);
    NobodyWaiting(sc'.world);
  }

  lemma ReinstatedIsReady(sc: Scene, d: Did)
    requires Enough(sc) && Waiting(sc.world) == {} && d in Movable(sc) && sc.world.reg.docs[d].status == Suspended
    ensures var e := Reinstatement(sc.world.reg, d);
            var sc' := Play(sc, e);
            && Genuine(sc, e) && Enough(sc') && Waiting(sc'.world) == {} && Ready(sc', d) && Movable(sc') == Movable(sc)
            && sc'.world.proposal == sc.world.proposal
  {
    var w, sc' := sc.world, Play(sc, Reinstatement(sc.world.reg, d));
    Reinstates(sc, d);
    NobodyWaiting(w);
    NobodyWaiting(sc'.world);
  }

  /** Nobody waiting and nothing movable leaves only the counted, who are then too many. */
  lemma NoneLeft(sc: Scene)
    requires Enough(sc) && Waiting(sc.world) == {} && Movable(sc) == {}
    ensures sc.world.proposal.tally.turnout > sc.world.proposal.basis.denominator
  {
    NobodyWaiting(sc.world);
  }

  lemma {:induction false} UsesUpActive(sc: Scene, d: Did) returns (es: seq<Event>)
    requires Enough(sc) && Waiting(sc.world) == {} && Ready(sc, d)
    ensures Trips(sc, es)
    decreases |Movable(sc)|, 0
  {
    if sc.world.proposal.tally.turnout > sc.world.proposal.basis.denominator {
      OverTheDenominator(sc);
      es := [];
    } else {
      var c := NewController(sc.world);
      var e := Handover(sc.world.reg, d, c);
      MovesAndVotes(sc, d, c);
      MovedOnceVotes(sc, d, c);
      var rest := UsesUpMovable(Play(Play(sc, e), Ballot(c)));
      TripsLater(Play(sc, e), Ballot(c), rest);
      TripsLater(sc, e, [Ballot(c)] + rest);
      es := [e] + ([Ballot(c)] + rest);
    }
  }

  lemma {:induction false} UsesUpMovable(sc: Scene) returns (es: seq<Event>)
    requires Enough(sc) && Waiting(sc.world) == {}
    ensures Trips(sc, es)
    decreases |Movable(sc)|, 1
  {
    if Movable(sc) == {} {
      NoneLeft(sc);
      OverTheDenominator(sc);
      es := [];
    } else {
      var d :| d in Movable(sc);
      if sc.world.reg.docs[d].status == Active {
        es := UsesUpActive(sc, d);
      } else {
        var e := Reinstatement(sc.world.reg, d);
        ReinstatedIsReady(sc, d);
        var rest := UsesUpActive(Play(sc, e), d);
        TripsLater(sc, e, rest);
        es := [e] + rest;
      }
    }
  }

  lemma {:induction false} FreezeSecondTrips(sc: Scene) returns (es: seq<Event>)
    requires Enough(sc)
    ensures Trips(sc, es)
    decreases |Waiting(sc.world)|
  {
    var left := Waiting(sc.world);
    if sc.world.proposal.tally.turnout > sc.world.proposal.basis.denominator {
      OverTheDenominator(sc);
      es := [];
    } else if left == {} {
      es := UsesUpMovable(sc);
    } else {
      var c :| c in left;
      WaitingVotes(sc, c);
      var rest := FreezeSecondTrips(Play(sc, Ballot(c)));
      TripsLater(sc, Ballot(c), rest);
      es := [Ballot(c)] + rest;
    }
  }

  lemma OpenWindowTrips(sc: Scene) returns (es: seq<Event>)
    requires Counting(sc.world) && WindowOpen(sc) && sc.world.proposal.basis.denominator + 1 < TWO64
    ensures Trips(sc, es)
  {
    var w := sc.world;
    if w.now <= w.proposal.basis.cutoff {
      es := RegistersUntilTripped(sc);
    } else if w.proposal.basis.frozenAt == 0 {
      var d :| OldEnough(w.reg, w.proposal.basis.cutoff, d);
      es := UndatedWindowTrips(sc, d);
    } else {
      es := FreezeSecondTrips(sc);
    }
  }

  // ----- exactly then

  /** Some continuation fails the check if and only if those counted and those who pass are already more than the
      denominator, or the window is open. */
  lemma TripsIff(sc: Scene)
    requires Counting(sc.world) && sc.world.proposal.basis.denominator + 1 < TWO64
    ensures (exists es :: Trips(sc, es))
       <==> |CountedNow(sc.world) + EligibleNow(sc.world)| > sc.world.proposal.basis.denominator || WindowOpen(sc)
  {
    if |CountedNow(sc.world) + EligibleNow(sc.world)| > sc.world.proposal.basis.denominator {
      var es := TooManyPass(sc);
    } else if WindowOpen(sc) {
      var es := OpenWindowTrips(sc);
    } else {
      forall es | GenuineRun(sc, es)
        ensures !Trips(sc, es)
      {
        ShutNeverTrips(sc, es);
      }
    }
  }

  lemma BasisCoversReach(w: World)
    requires Counting(w) && BasisHolds(w)
    ensures |CountedNow(w) + EligibleNow(w)| <= w.proposal.basis.denominator
  {
    SizeWithin(CountedNow(w) + EligibleNow(w), w.members);
  }

  lemma {:induction false} FrozenInThePast(w: World, es: seq<Event>, k: nat)
    requires w.proposal == UNTOUCHED && AdmissibleRun(w, es) && k <= |es|
    ensures var w' := After(w, es, k);
            && (w'.proposal.basis.Frozen? ==> w'.proposal.basis.frozenAt <= w'.now)
            && CountedNow(w') == w'.proposal.tally.records.Keys
  {
    if k > 0 {
      FrozenInThePast(w, es, k - 1);
      var w0, e := After(w, es, k - 1), es[k - 1];
      if e.Vote? && Counted(w0.proposal, w0.reg, w0.now, e.terms, e.cast) {
        RecordKeys(w0.proposal.tally, e.cast.voter, e.cast.options);
      }
    }
  }

  /** Every run from an untouched proposal reaches such states, and without a late join those who pass are within the
      denominator, so that there only the window decides. */
  lemma RunsAreCounting(w: World, es: seq<Event>, k: nat)
    requires Sound(w) && w.proposal == UNTOUCHED && AdmissibleRun(w, es) && k <= |es| < TWO64
    requires After(w, es, k).proposal.basis.Frozen?
    ensures var w' := After(w, es, k);
            && Counting(w')
            && (NoLateJoin(w, es, |es|) ==> |CountedNow(w') + EligibleNow(w')| <= w'.proposal.basis.denominator)
  {
    var w' := After(w, es, k);
    RunIsSound(w, es, k);
    RunIsExact(w, es, k);
    SizeWithin(CountedNow(w'), VotersIn(es, k));
    FrozenInThePast(w, es, k);
    if NoLateJoin(w, es, |es|) {
      RunKeepsBasisIff(w, es, |es|);
      BasisCoversReach(w');
    }
  }
}
