/**
 Who may be counted: the eligibility records that x/identity/keeper/keeper.go derives from the identity documents, and
 the count and the membership tests governance asks of them.
 */
module Eligibility {
  import opened Arith
  import opened Bank
  import opened Bytes
  import opened Sets
  import opened Sorting

  type Did = Bytes

  datatype Status = Active | Suspended | Revoked

  datatype Document = Document(controller: Address, status: Status, createdAt: int)

  /** A controller's record: the creation time of its oldest standing DID, and when it last gained or bettered it. */
  datatype Tenure = Tenure(oldest: int, since: int)

  /** A pair of the controller-to-DID index. */
  datatype Link = Link(controller: Address, did: Did)

  /** An entry of the age-ordered mirror of the records. */
  datatype Age = Age(createdAt: int, controller: Address)

  datatype Registry = Registry(
    docs: map<Did, Document>, index: set<Link>, records: map<Address, Tenure>, mirror: set<Age>, total: int)

  datatype Date = None | Some(at: int)

  const NO_ONE := Registry(map[], {}, map[], {}, 0)

  // ----- the oldest standing DID

  /** The DIDs of c that are not revoked, as the index yields them. */
  ghost function Standing(docs: map<Did, Document>, index: set<Link>, c: Address): set<Did> {
    set d | d in docs && Link(c, d) in index && docs[d].status != Revoked
  }

  /** `r` is the earliest creation time among `dids`. */
  ghost predicate IsEarliest(docs: map<Did, Document>, dids: set<Did>, r: Date) {
    match r
    case None => dids == {}
    case Some(t) =>
      && (exists d :: d in dids && d in docs && docs[d].createdAt == t)
      && forall d :: d in dids && d in docs ==> t <= docs[d].createdAt
  }

  lemma EarliestIsUnique(docs: map<Did, Document>, dids: set<Did>, r: Date, r': Date)
    requires IsEarliest(docs, dids, r) && IsEarliest(docs, dids, r')
    ensures r == r'
  {}

  function Earlier(r: Date, t: int): Date {
    if r.None? || t < r.at then Some(t) else r
  }

  ghost function Earliest(docs: map<Did, Document>, dids: set<Did>): (r: Date)
    requires forall d :: d in dids ==> d in docs
    ensures IsEarliest(docs, dids, r)
    decreases |dids|
  {
    if dids == {} then None
    else
      var d :| d in dids;
      var r := Earlier(Earliest(docs, dids - {d}), docs[d].createdAt);
      assert IsEarliest(docs, dids, r) by { EarliestGrows(docs, dids - {d}, d, Earliest(docs, dids - {d})); assert dids - {d} + {d} == dids; }
      r
  }

  lemma EarliestGrows(docs: map<Did, Document>, dids: set<Did>, d: Did, r: Date)
    requires d in docs && IsEarliest(docs, dids, r)
    ensures IsEarliest(docs, dids + {d}, Earlier(r, docs[d].createdAt))
  {
    if r.Some? {
      var e :| e in dids && e in docs && docs[e].createdAt == r.at;
      assert e in dids + {d};
    }
    assert d in dids + {d};
  }

  predicate IsStanding(docs: map<Did, Document>, l: Link, c: Address) {
    l.controller == c && l.did in docs && docs[l.did].status != Revoked
  }

  /** One entry of the scan over a controller's DIDs. */
  lemma ScanOne(docs: map<Did, Document>, done: set<Link>, l: Link, c: Address, r: Date)
    requires IsEarliest(docs, Standing(docs, done, c), r)
    ensures IsEarliest(docs, Standing(docs, done + {l}, c),
                       if IsStanding(docs, l, c) then Earlier(r, docs[l.did].createdAt) else r)
  {
    var before, after := Standing(docs, done, c), Standing(docs, done + {l}, c);
    if IsStanding(docs, l, c) {
      EarliestGrows(docs, before, l.did, r);
      assert after == before + {l.did};
    } else {
      assert after == before;
    }
  }

  ghost function OldestOf(reg: Registry, c: Address): Date {
    Earliest(reg.docs, Standing(reg.docs, reg.index, c))
  }

  // ----- refreshControllerEligibility and SetIdentity

  /** The registry after c's record was brought in line with its oldest standing DID at time `now`. */
  function Reconciled(reg: Registry, c: Address, oldest: Date, now: int): Registry {
    if c in reg.records && oldest.None? then
      reg.(records := reg.records - {c}, mirror := reg.mirror - {Age(reg.records[c].oldest, c)}, total := reg.total - 1)
    else if c !in reg.records && oldest.Some? then
      reg.(records := reg.records[c := Tenure(oldest.at, now)], mirror := reg.mirror + {Age(oldest.at, c)},
           total := reg.total + 1)
    else if c in reg.records && reg.records[c].oldest != oldest.at then
      var prev := reg.records[c];
      var since := if oldest.at < prev.oldest then now else prev.since;
      reg.(records := reg.records[c := Tenure(oldest.at, since)],
           mirror := reg.mirror - {Age(prev.oldest, c)} + {Age(oldest.at, c)})
    else reg
  }

  ghost function Refreshed(reg: Registry, c: Address, now: int): Registry {
    Reconciled(reg, c, OldestOf(reg, c), now)
  }

  /** The document and its index entry, before any record is refreshed. */
  function Written(reg: Registry, did: Did, doc: Document): Registry {
    var index := if did in reg.docs && reg.docs[did].controller != doc.controller
                 then reg.index - {Link(reg.docs[did].controller, did)} else reg.index;
    reg.(docs := reg.docs[did := doc], index := index + {Link(doc.controller, did)})
  }

  /** The write takes the DID from a controller that has an address, so that one is refreshed too. */
  predicate TakesFrom(reg: Registry, did: Did, doc: Document) {
    did in reg.docs && reg.docs[did].controller != doc.controller && reg.docs[did].controller != []
  }

  ghost function WithIdentity(reg: Registry, did: Did, doc: Document, now: int): Registry {
    var refreshed := Refreshed(Written(reg, did, doc), doc.controller, now);
    if TakesFrom(reg, did, doc)
    then Refreshed(refreshed, reg.docs[did].controller, now) else refreshed
  }

  // ----- the count and the tests

  const MAX_ELIGIBILITY_TAIL_SCAN: nat := 5_000_000

  ghost function NewerThan(mirror: set<Age>, cutoff: int): set<Age> {
    set a | a in mirror && a.createdAt > cutoff
  }

  /** What walking the age index backwards yields. */
  ghost predicate ListsNewestFirst(list: seq<Age>, mirror: set<Age>) {
    && Distinct(list) && (forall a :: a in list <==> a in mirror)
    && forall i, j :: 0 <= i < j < |list| ==> list[i].createdAt >= list[j].createdAt
  }

  /** CountEligibleControllersAt: the total less the scanned tail of newer controllers. */
  ghost function CountAt(reg: Registry, cutoff: int): int {
    var tail := Min(|NewerThan(reg.mirror, cutoff)|, MAX_ELIGIBILITY_TAIL_SCAN);
    if tail > reg.total then reg.total else reg.total - tail
  }

  predicate EligibleAt(reg: Registry, c: Address, cutoff: int) {
    c in reg.records && reg.records[c].oldest <= cutoff
  }

  /** Membership in a basis frozen at `since`; a basis without a freeze time asks only for the age. */
  predicate EligibleSince(reg: Registry, c: Address, cutoff: int, since: int) {
    EligibleAt(reg, c, cutoff) && (since == 0 || reg.records[c].since <= since)
  }

  /** The controllers a basis with this cutoff stands for. */
  ghost function MembersAt(reg: Registry, cutoff: int): set<Address> {
    set c | c in reg.records && reg.records[c].oldest <= cutoff
  }

  class Keeper {
    var docs: map<Did, Document>
    var index: set<Link>
    var records: map<Address, Tenure>
    var mirror: set<Age>
    var total: int

    ghost function View(): Registry
      reads this
    {
      Registry(docs, index, records, mirror, total)
    }

    constructor ()
      ensures View() == NO_ONE
    {
      docs, index, records, mirror, total := map[], {}, map[], {}, 0;
    }

    /** The scan over one controller's index entries. */
    method OldestStanding(controller: Address) returns (oldest: Date)
      ensures oldest == OldestOf(View(), controller)
    {
      oldest := None;
      var todo := index;
      ghost var done: set<Link> := {};
      while todo != {}
        invariant done + todo == index
        invariant IsEarliest(docs, Standing(docs, done, controller), oldest)
        decreases |todo|
      {
        var l :| l in todo;
        ScanOne(docs, done, l, controller, oldest);
        if IsStanding(docs, l, controller) {
          oldest := Earlier(oldest, docs[l.did].createdAt);
        }
        todo, done := todo - {l}, done + {l};
      }
      EarliestIsUnique(docs, Standing(docs, index, controller), oldest, OldestOf(View(), controller));
    }

    method RefreshControllerEligibility(controller: Address, now: int)
      modifies this
      ensures View() == Refreshed(old(View()), controller, now)
    {
      var oldest := OldestStanding(controller);
      if controller in records {
        var prev := records[controller];
        if oldest.None? {
          mirror := mirror - {Age(prev.oldest, controller)};
          records := records - {controller};
          total := total - 1;
        } else if prev.oldest != oldest.at {
          var since := prev.since;
          if oldest.at < prev.oldest {
            since := now;
          }
          mirror := mirror - {Age(prev.oldest, controller)};
          records := records[controller := Tenure(oldest.at, since)];
          mirror := mirror + {Age(oldest.at, controller)};
        }
      } else if oldest.Some? {
        records := records[controller := Tenure(oldest.at, now)];
        mirror := mirror + {Age(oldest.at, controller)};
        total := total + 1;
      }
    }

    method SetIdentity(did: Did, doc: Document, now: int)
      modifies this
      ensures View() == WithIdentity(old(View()), did, doc, now)
    {
      var moved := did in docs && docs[did].controller != doc.controller;
      var prevController := if moved then docs[did].controller else [];
      if moved {
        index := index - {Link(prevController, did)};
      }
      docs := docs[did := doc];
      index := index + {Link(doc.controller, did)};
      RefreshControllerEligibility(doc.controller, now);
      if prevController != [] {
        RefreshControllerEligibility(prevController, now);
      }
    }

    /** The reverse scan of the age index, newest first, given as the sequence the iterator yields. */
    method CountNewerCapped(newestFirst: seq<Age>, cutoff: int, ceiling: nat) returns (n: nat, truncated: bool)
      requires ListsNewestFirst(newestFirst, mirror)
      ensures n == Min(|NewerThan(mirror, cutoff)|, ceiling)
      ensures truncated <==> |mirror| > ceiling && |NewerThan(mirror, cutoff)| >= ceiling
    {
      DistinctSize(newestFirst);
      assert (set a | a in newestFirst) == mirror;
      n := 0;
      for i := 0 to |newestFirst|
        invariant n == i <= ceiling
        invariant forall k :: 0 <= k < i ==> newestFirst[k].createdAt > cutoff
      {
        if n >= ceiling {
          NewestAreNewer(newestFirst, mirror, i, cutoff, false);
          return n, true;
        }
        if newestFirst[i].createdAt <= cutoff {
          NewestAreNewer(newestFirst, mirror, i, cutoff, true);
          return n, false;
        }
        n := n + 1;
      }
      NewestAreNewer(newestFirst, mirror, |newestFirst|, cutoff, true);
      truncated := false;
    }

    method CountEligibleControllersAt(newestFirst: seq<Age>, cutoff: int) returns (n: int)
      requires ListsNewestFirst(newestFirst, mirror)
      ensures n == CountAt(View(), cutoff)
    {
      var tail, _ := CountNewerCapped(newestFirst, cutoff, MAX_ELIGIBILITY_TAIL_SCAN);
      n := if tail > total then total else total - tail;
    }

    method IsEligibleControllerAt(controller: Address, cutoff: int) returns (ok: bool)
      ensures ok == EligibleAt(View(), controller, cutoff)
    {
      ok := controller in records && records[controller].oldest <= cutoff;
    }

    method IsEligibleControllerSince(controller: Address, cutoff: int, since: int) returns (ok: bool)
      ensures ok == EligibleSince(View(), controller, cutoff, since)
    {
      if controller !in records || records[controller].oldest > cutoff {
        return false;
      }
      if since == 0 {
        return true;
      }
      ok := records[controller].since <= since;
    }
  }

  /** The first i entries of a newest-first listing are newer than the cutoff; all the newer ones when the rest is not. */
  lemma NewestAreNewer(list: seq<Age>, mirror: set<Age>, i: nat, cutoff: int, stop: bool)
    requires i <= |list| && ListsNewestFirst(list, mirror)
    requires forall k :: 0 <= k < i ==> list[k].createdAt > cutoff
    requires stop ==> i == |list| || list[i].createdAt <= cutoff
    ensures |NewerThan(mirror, cutoff)| >= i
    ensures stop ==> |NewerThan(mirror, cutoff)| == i
  {
    var first := set a | a in list[..i];
    DistinctSize(list[..i]);
    var newer := NewerThan(mirror, cutoff);
    assert first <= newer;
    SizeWithin(first, newer);
    if stop {
      forall a | a in newer
        ensures a in first
      {
        var k :| 0 <= k < |list| && list[k] == a;
        assert k < i;
        assert list[..i][k] == a;
      }
      assert first == newer;
    }
  }

  // ----- the byte order of the age index

  const ELIGIBILITY_BY_AGE_PREFIX: Bytes := [0x1C]

  /** A signed time with its sign bit flipped, big-endian. */
  function SortableInt64(v: int): Bytes
    requires -TWO63 <= v < TWO63
  {
    BigEndian(v + TWO63, 8)
  }

  function AgeKey(a: Age): Bytes
    requires -TWO63 <= a.createdAt < TWO63
  {
    ELIGIBILITY_BY_AGE_PREFIX + (SortableInt64(a.createdAt) + a.controller)
  }

  lemma AgeKeyParts(a: Age)
    requires -TWO63 <= a.createdAt < TWO63
    ensures |AgeKey(a)| == 9 + |a.controller|
    ensures AgeKey(a)[1..9] == SortableInt64(a.createdAt) && AgeKey(a)[9..] == a.controller
  {
    var x := SortableInt64(a.createdAt);
    assert |x| == 8 && |x + a.controller| == 8 + |a.controller|;
    assert AgeKey(a)[1..] == x + a.controller;
    assert AgeKey(a)[1..9] == AgeKey(a)[1..][..8] == x;
    assert AgeKey(a)[9..] == AgeKey(a)[1..][8..] == a.controller;
  }

  /** Walking the age index backwards never meets a newer controller after an older one. */
  lemma AgeKeyOrder(a: Age, b: Age)
    requires -TWO63 <= a.createdAt < TWO63 && -TWO63 <= b.createdAt < TWO63
    ensures a.createdAt < b.createdAt ==> Less(AgeKey(a), AgeKey(b))
    ensures Less(AgeKey(a), AgeKey(b)) ==> a.createdAt <= b.createdAt
    ensures AgeKey(a) == AgeKey(b) ==> a == b
  {
    Capacities();
    var x, y := SortableInt64(a.createdAt), SortableInt64(b.createdAt);
    BigEndianOrder(a.createdAt + TWO63, b.createdAt + TWO63, 8);
    BigEndianOrder(b.createdAt + TWO63, a.createdAt + TWO63, 8);
    LessUnderPrefix(ELIGIBILITY_BY_AGE_PREFIX, x + a.controller, y + b.controller);
    LessUnderPrefix(ELIGIBILITY_BY_AGE_PREFIX, y + b.controller, x + a.controller);
    if a.createdAt < b.createdAt {
      LessDecidedByHead(x, y, a.controller, b.controller);
    } else if b.createdAt < a.createdAt {
      LessDecidedByHead(y, x, b.controller, a.controller);
      LessAsymmetric(AgeKey(a), AgeKey(b));
    }
    AgeKeyParts(a);
    AgeKeyParts(b);
  }

  lemma LessAsymmetric(a: Bytes, b: Bytes)
    requires Less(b, a)
    ensures !Less(a, b) && a != b
  {
    LessTrichotomy(a, b);
  }

  // ----- the derived structures agree with the documents, whatever is written

  /** c's record is its oldest standing DID, or absent. */
  ghost predicate InLine(reg: Registry, c: Address) {
    OldestOf(reg, c) == if c in reg.records then Some(reg.records[c].oldest) else None
  }

  /** The index lists exactly each DID under its controller. */
  ghost predicate IndexAgrees(reg: Registry) {
    forall l: Link :: l in reg.index <==> l.did in reg.docs && reg.docs[l.did].controller == l.controller
  }

  /** The mirror and the total describe the records. */
  ghost predicate MirrorAgrees(reg: Registry) {
    && (forall a: Age :: a in reg.mirror <==> a.controller in reg.records && reg.records[a.controller].oldest == a.createdAt)
    && reg.total == |reg.records.Keys|
  }

  ghost predicate RegistryInv(reg: Registry) {
    IndexAgrees(reg) && MirrorAgrees(reg) && forall c :: InLine(reg, c)
  }

  lemma ReconciledRecords(reg: Registry, c: Address, oldest: Date, now: int)
    ensures var r := Reconciled(reg, c, oldest, now);
            && r.docs == reg.docs && r.index == reg.index
            && (c in r.records <==> oldest.Some?) && (oldest.Some? ==> r.records[c].oldest == oldest.at)
            && forall x :: x != c ==> (x in r.records <==> x in reg.records) && (x in reg.records ==> r.records[x] == reg.records[x])
  {}

  lemma ReconciledMirror(reg: Registry, c: Address, oldest: Date, now: int, a: Age)
    requires MirrorAgrees(reg)
    ensures var r := Reconciled(reg, c, oldest, now);
            a in r.mirror <==> a.controller in r.records && r.records[a.controller].oldest == a.createdAt
  {}

  lemma ReconciledKeys(reg: Registry, c: Address, oldest: Date, now: int)
    ensures Reconciled(reg, c, oldest, now).records.Keys
            == if oldest.Some? then reg.records.Keys + {c} else reg.records.Keys - {c}
  {}

  lemma ReconciledTotal(reg: Registry, c: Address, oldest: Date, now: int)
    requires reg.total == |reg.records.Keys|
    ensures Reconciled(reg, c, oldest, now).total == |Reconciled(reg, c, oldest, now).records.Keys|
  {
    ReconciledKeys(reg, c, oldest, now);
  }

  lemma ReconciledAgrees(reg: Registry, c: Address, oldest: Date, now: int)
    requires MirrorAgrees(reg)
    ensures MirrorAgrees(Reconciled(reg, c, oldest, now))
  {
    ReconciledTotal(reg, c, oldest, now);
    var r := Reconciled(reg, c, oldest, now);
    forall a: Age
      ensures a in r.mirror <==> a.controller in r.records && r.records[a.controller].oldest == a.createdAt
    {
      ReconciledMirror(reg, c, oldest, now, a);
    }
  }

  lemma RefreshedAgrees(reg: Registry, c: Address, now: int)
    requires MirrorAgrees(reg)
    ensures var r := Refreshed(reg, c, now);
            && MirrorAgrees(r) && r.docs == reg.docs && r.index == reg.index && InLine(r, c)
            && forall x :: x != c ==> (InLine(r, x) <==> InLine(reg, x))
  {
    ReconciledAgrees(reg, c, OldestOf(reg, c), now);
    ReconciledRecords(reg, c, OldestOf(reg, c), now);
  }

  /** A write touches the standing DIDs of the old and the new controller only. */
  lemma WriteIsLocal(reg: Registry, did: Did, doc: Document, c: Address)
    requires IndexAgrees(reg)
    ensures IndexAgrees(Written(reg, did, doc))
    ensures c != doc.controller && (did in reg.docs ==> c != reg.docs[did].controller)
            ==> OldestOf(Written(reg, did, doc), c) == OldestOf(reg, c)
  {
    var w := Written(reg, did, doc);
    if c != doc.controller && (did in reg.docs ==> c != reg.docs[did].controller) {
      var s := Standing(reg.docs, reg.index, c);
      assert Standing(w.docs, w.index, c) == s && did !in s;
      SameEarliest(reg.docs, w.docs, s, OldestOf(reg, c));
      EarliestIsUnique(w.docs, s, OldestOf(reg, c), OldestOf(w, c));
    }
  }

  lemma SameEarliest(docs: map<Did, Document>, docs': map<Did, Document>, dids: set<Did>, r: Date)
    requires forall d :: d in dids ==> d in docs && d in docs' && docs[d] == docs'[d]
    requires IsEarliest(docs, dids, r)
    ensures IsEarliest(docs', dids, r)
  {}

  /** The controllers a write concerns. */
  predicate Concerned(reg: Registry, did: Did, doc: Document, c: Address) {
    c == doc.controller || (did in reg.docs && c == reg.docs[did].controller)
  }

  lemma WriteKeepsTheRest(reg: Registry, did: Did, doc: Document)
    requires RegistryInv(reg)
    ensures var w := Written(reg, did, doc);
            IndexAgrees(w) && MirrorAgrees(w) && forall c :: !Concerned(reg, did, doc, c) ==> InLine(w, c)
  {
    WriteIsLocal(reg, did, doc, doc.controller);
    forall c | !Concerned(reg, did, doc, c)
      ensures InLine(Written(reg, did, doc), c)
    {
      WriteIsLocal(reg, did, doc, c);
      assert InLine(reg, c);
    }
  }

  /** The write takes the DID from the empty controller, whose record nobody refreshes. */
  predicate TakesFromNobody(reg: Registry, did: Did, doc: Document) {
    did in reg.docs && reg.docs[did].controller != doc.controller && reg.docs[did].controller == []
  }

  lemma OrdinaryWriteKeepsRegistry(reg: Registry, did: Did, doc: Document, now: int)
    requires RegistryInv(reg) && !TakesFromNobody(reg, did, doc)
    ensures RegistryInv(WithIdentity(reg, did, doc, now))
  {
    var w := Written(reg, did, doc);
    WriteKeepsTheRest(reg, did, doc);
    var r := Refreshed(w, doc.controller, now);
    RefreshedAgrees(w, doc.controller, now);
    if TakesFrom(reg, did, doc) {
      RefreshedAgrees(r, reg.docs[did].controller, now);
    }
  }

  lemma SkippedRefresh(reg: Registry, did: Did, doc: Document, now: int)
    requires RegistryInv(reg) && TakesFromNobody(reg, did, doc)
    ensures RegistryInv(WithIdentity(reg, did, doc, now)) <==> OldestOf(Written(reg, did, doc), []) == OldestOf(reg, [])
  {
    var w := Written(reg, did, doc);
    WriteKeepsTheRest(reg, did, doc);
    RefreshedAgrees(w, doc.controller, now);
    assert InLine(reg, []);
    assert InLine(WithIdentity(reg, did, doc, now), []) <==> InLine(w, []);
  }

  /** Registration, rotation, suspension, revocation and recovery are all writes of one document: none of them leaves
      the derived structures behind, unless it takes the DID that decided the empty controller's record. */
  lemma SetIdentityKeepsRegistryIff(reg: Registry, did: Did, doc: Document, now: int)
    requires RegistryInv(reg)
    ensures RegistryInv(WithIdentity(reg, did, doc, now))
       <==> (TakesFromNobody(reg, did, doc) ==> OldestOf(Written(reg, did, doc), []) == OldestOf(reg, []))
  {
    if TakesFromNobody(reg, did, doc) {
      SkippedRefresh(reg, did, doc, now);
    } else {
      OrdinaryWriteKeepsRegistry(reg, did, doc, now);
    }
  }

  /** Registration, recovery and the identity genesis all demand a controller address. */
  ghost predicate Addressed(reg: Registry) {
    forall d :: d in reg.docs ==> reg.docs[d].controller != []
  }

  lemma WrittenDocs(reg: Registry, did: Did, doc: Document, now: int)
    ensures WithIdentity(reg, did, doc, now).docs == reg.docs[did := doc]
  {}

  lemma WriteStaysAddressed(reg: Registry, did: Did, doc: Document, now: int)
    requires Addressed(reg) && doc.controller != []
    ensures Addressed(WithIdentity(reg, did, doc, now))
  {
    WrittenDocs(reg, did, doc, now);
  }

  lemma SetIdentityKeepsRegistry(reg: Registry, did: Did, doc: Document, now: int)
    requires RegistryInv(reg) && Addressed(reg) && doc.controller != []
    ensures RegistryInv(WithIdentity(reg, did, doc, now)) && Addressed(WithIdentity(reg, did, doc, now))
  {
    assert !TakesFromNobody(reg, did, doc);
    OrdinaryWriteKeepsRegistry(reg, did, doc, now);
    WriteStaysAddressed(reg, did, doc, now);
  }

  // ----- the denominator counts the members

  lemma {:induction false} MirrorImage(reg: Registry, cs: set<Address>)
    requires cs <= reg.records.Keys
    ensures |set c | c in cs :: Age(reg.records[c].oldest, c)| == |cs|
    decreases |cs|
  {
    if cs != {} {
      var c :| c in cs;
      MirrorImage(reg, cs - {c});
      var rest := set x | x in cs - {c} :: Age(reg.records[x].oldest, x);
      assert (set x | x in cs :: Age(reg.records[x].oldest, x)) == rest + {Age(reg.records[c].oldest, c)};
    }
  }

  /** The denominator is never below the number of members, and equals it exactly when at most
      5,000,000 controllers are newer than the cutoff. */
  lemma CountIsMembers(reg: Registry, cutoff: int)
    requires MirrorAgrees(reg)
    ensures |MembersAt(reg, cutoff)| <= CountAt(reg, cutoff) <= reg.total
    ensures CountAt(reg, cutoff) == |MembersAt(reg, cutoff)|
            <==> |NewerThan(reg.mirror, cutoff)| <= MAX_ELIGIBILITY_TAIL_SCAN
    ensures CountAt(reg, cutoff) == |MembersAt(reg, cutoff)| + Max(|NewerThan(reg.mirror, cutoff)| - 5_000_000, 0)
  {
    var members := MembersAt(reg, cutoff);
    var others := reg.records.Keys - members;
    MirrorImage(reg, others);
    assert NewerThan(reg.mirror, cutoff) == set c | c in others :: Age(reg.records[c].oldest, c);
    SizeOfUnion(members, others);
    assert members + others == reg.records.Keys;
  }

  // ----- who starts to pass the membership test

  ghost predicate StampedBy(reg: Registry, now: int) {
    forall c :: c in reg.records ==> reg.records[c].since <= now
  }

  lemma ReconciledStamps(reg: Registry, c: Address, oldest: Date, now: int)
    requires StampedBy(reg, now)
    ensures StampedBy(Reconciled(reg, c, oldest, now), now)
  {}

  lemma SetIdentityStamps(reg: Registry, did: Did, doc: Document, now: int)
    requires StampedBy(reg, now)
    ensures StampedBy(WithIdentity(reg, did, doc, now), now)
  {
    var w := Written(reg, did, doc);
    ReconciledStamps(w, doc.controller, OldestOf(w, doc.controller), now);
    var r := Refreshed(w, doc.controller, now);
    if TakesFrom(reg, did, doc) {
      ReconciledStamps(r, reg.docs[did].controller, OldestOf(r, reg.docs[did].controller), now);
    }
  }

  /** A refresh that does not better the record admits nobody new. */
  lemma LaterAdmitsNobody(reg: Registry, c: Address, oldest: Date, now: int, cutoff: int, since: int, x: Address)
    requires oldest.Some? ==> c in reg.records && reg.records[c].oldest <= oldest.at
    ensures EligibleSince(Reconciled(reg, c, oldest, now), x, cutoff, since) ==> EligibleSince(reg, x, cutoff, since)
  {}

  lemma FewerIsNoEarlier(docs: map<Did, Document>, dids: set<Did>, r: Date, docs': map<Did, Document>, dids': set<Did>, r': Date)
    requires IsEarliest(docs, dids, r) && IsEarliest(docs', dids', r')
    requires forall d :: d in dids' ==> d in dids && d in docs && d in docs' && docs[d] == docs'[d]
    ensures r'.Some? ==> r.Some? && r.at <= r'.at
  {}

  lemma LosesStanding(reg: Registry, did: Did, doc: Document, d: Did)
    requires IndexAgrees(reg) && did in reg.docs && reg.docs[did].controller != doc.controller
    requires var w := Written(reg, did, doc); d in Standing(w.docs, w.index, reg.docs[did].controller)
    ensures d != did && d in Standing(reg.docs, reg.index, reg.docs[did].controller)
  {}

  /** The controller that loses a DID keeps none older than it had. */
  lemma LosingIsNoBetter(reg: Registry, did: Did, doc: Document, now: int)
    requires RegistryInv(reg) && did in reg.docs && reg.docs[did].controller != doc.controller
    ensures var r, c := Refreshed(Written(reg, did, doc), doc.controller, now), reg.docs[did].controller;
            OldestOf(r, c).Some? ==> c in r.records && r.records[c].oldest <= OldestOf(r, c).at
  {
    var w, c := Written(reg, did, doc), reg.docs[did].controller;
    ReconciledRecords(w, doc.controller, OldestOf(w, doc.controller), now);
    assert InLine(reg, c);
    var before, after := Standing(reg.docs, reg.index, c), Standing(w.docs, w.index, c);
    forall d | d in after
      ensures d != did && d in before
    {
      LosesStanding(reg, did, doc, d);
    }
    FewerIsNoEarlier(reg.docs, before, OldestOf(reg, c), w.docs, after, OldestOf(w, c));
  }

  /** A DID that stands under the receiving controller is the one received, or stood there with the same document. */
  lemma GainsOnlyReceived(reg: Registry, did: Did, doc: Document, d: Did)
    requires IndexAgrees(reg)
    requires var w := Written(reg, did, doc); d in Standing(w.docs, w.index, doc.controller)
    ensures d == did || d in Standing(reg.docs, reg.index, doc.controller)
    ensures Written(reg, did, doc).docs[d] == if d == did then doc else reg.docs[d]
  {}

  lemma ReceivedStandsIff(reg: Registry, did: Did, doc: Document)
    ensures var w := Written(reg, did, doc);
            did in Standing(w.docs, w.index, doc.controller) <==> doc.status != Revoked
  {}

  lemma NoneOldEnough(reg: Registry, c: Address, cutoff: int, d: Did)
    requires InLine(reg, c) && !EligibleAt(reg, c, cutoff) && d in Standing(reg.docs, reg.index, c)
    ensures reg.docs[d].createdAt > cutoff
  {
    assert IsEarliest(reg.docs, Standing(reg.docs, reg.index, c), OldestOf(reg, c));
  }

  lemma EarliestIsTaken(docs: map<Did, Document>, dids: set<Did>, r: Date) returns (d: Did)
    requires IsEarliest(docs, dids, r) && r.Some?
    ensures d in dids && d in docs && docs[d].createdAt == r.at
  {
    d :| d in dids && d in docs && docs[d].createdAt == r.at;
  }

  lemma OldEnoughIsReceived(reg: Registry, did: Did, doc: Document, cutoff: int)
    requires IndexAgrees(reg) && InLine(reg, doc.controller) && !EligibleAt(reg, doc.controller, cutoff)
    requires var oldest := OldestOf(Written(reg, did, doc), doc.controller); oldest.Some? && oldest.at <= cutoff
    ensures doc.status != Revoked && doc.createdAt <= cutoff
  {
    var w, c := Written(reg, did, doc), doc.controller;
    var d := EarliestIsTaken(w.docs, Standing(w.docs, w.index, c), OldestOf(w, c));
    GainsOnlyReceived(reg, did, doc, d);
    if d != did {
      NoneOldEnough(reg, c, cutoff, d);
    }
    ReceivedStandsIff(reg, did, doc);
  }

  lemma ReceivedIsOldEnough(reg: Registry, did: Did, doc: Document, cutoff: int)
    requires doc.status != Revoked && doc.createdAt <= cutoff
    ensures var oldest := OldestOf(Written(reg, did, doc), doc.controller); oldest.Some? && oldest.at <= cutoff
  {
    var w, c := Written(reg, did, doc), doc.controller;
    ReceivedStandsIff(reg, did, doc);
    assert IsEarliest(w.docs, Standing(w.docs, w.index, c), OldestOf(w, c));
  }

  /** When the receiving controller had no DID old enough, the one it receives decides. */
  lemma ReceivedDidDecides(reg: Registry, did: Did, doc: Document, cutoff: int)
    requires RegistryInv(reg) && !EligibleAt(reg, doc.controller, cutoff)
    ensures var oldest := OldestOf(Written(reg, did, doc), doc.controller);
            (oldest.Some? && oldest.at <= cutoff) <==> (doc.status != Revoked && doc.createdAt <= cutoff)
  {
    var oldest := OldestOf(Written(reg, did, doc), doc.controller);
    assert InLine(reg, doc.controller);
    if oldest.Some? && oldest.at <= cutoff {
      OldEnoughIsReceived(reg, did, doc, cutoff);
    }
    if doc.status != Revoked && doc.createdAt <= cutoff {
      ReceivedIsOldEnough(reg, did, doc, cutoff);
    }
  }

  /**
   A controller that fails the membership test of a basis passes it after a write exactly when the write gives it a
   standing DID older than the cutoff, and the basis is not from before the present second.
   */
  lemma JoinsIff(reg: Registry, did: Did, doc: Document, now: int, cutoff: int, since: int, c: Address)
    requires RegistryInv(reg) && StampedBy(reg, now) && !EligibleSince(reg, c, cutoff, since)
    ensures EligibleSince(WithIdentity(reg, did, doc, now), c, cutoff, since)
            <==> c == doc.controller && doc.status != Revoked && doc.createdAt <= cutoff && (since == 0 || now <= since)
  {
    var w := Written(reg, did, doc);
    var r := Refreshed(w, doc.controller, now);
    ReconciledRecords(w, doc.controller, OldestOf(w, doc.controller), now);
    if !EligibleAt(reg, doc.controller, cutoff) {
      ReceivedDidDecides(reg, did, doc, cutoff);
    }
    if TakesFrom(reg, did, doc) {
      var prev := reg.docs[did].controller;
      LosingIsNoBetter(reg, did, doc, now);
      LaterAdmitsNobody(r, prev, OldestOf(r, prev), now, cutoff, since, c);
      ReconciledRecords(r, prev, OldestOf(r, prev), now);
    }
  }
}
