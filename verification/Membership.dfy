/**
 The membership test of a frozen basis told from the documents: who passes the age test, and who stops passing the whole
 test when an identity is written. Eligibility says who starts to.
 */
module Membership {
  import opened Bank
  import opened Eligibility

  /** `c` controls a standing identity created at or before the cutoff. */
  predicate Holds(docs: map<Did, Document>, c: Address, cutoff: int, d: Did) {
    d in docs && docs[d].controller == c && docs[d].status != Revoked && docs[d].createdAt <= cutoff
  }

  ghost predicate HoldsSome(docs: map<Did, Document>, c: Address, cutoff: int) { exists d :: Holds(docs, c, cutoff, d) }

  lemma StandingIff(reg: Registry, c: Address, d: Did)
    requires IndexAgrees(reg)
    ensures d in Standing(reg.docs, reg.index, c) <==> d in reg.docs && reg.docs[d].controller == c && reg.docs[d].status != Revoked
  {
    assert Link(c, d) in reg.index <==> d in reg.docs && reg.docs[d].controller == c;
  }

  lemma HolderPasses(reg: Registry, c: Address, cutoff: int, d: Did)
    requires RegistryInv(reg) && Holds(reg.docs, c, cutoff, d)
    ensures c in reg.records && reg.records[c].oldest <= reg.docs[d].createdAt
  {
    StandingIff(reg, c, d);
    assert InLine(reg, c);
    assert IsEarliest(reg.docs, Standing(reg.docs, reg.index, c), OldestOf(reg, c));
  }

  /** The record of a controller names one of its identities. */
  lemma RecordNames(reg: Registry, c: Address) returns (d: Did)
    requires RegistryInv(reg) && c in reg.records
    ensures Holds(reg.docs, c, reg.records[c].oldest, d) && reg.docs[d].createdAt == reg.records[c].oldest
  {
    assert InLine(reg, c);
    d := EarliestIsTaken(reg.docs, Standing(reg.docs, reg.index, c), OldestOf(reg, c));
    StandingIff(reg, c, d);
  }

  /** The age test, read off the documents. */
  lemma EligibleAtIff(reg: Registry, c: Address, cutoff: int)
    requires RegistryInv(reg)
    ensures EligibleAt(reg, c, cutoff) <==> HoldsSome(reg.docs, c, cutoff)
  {
    if EligibleAt(reg, c, cutoff) {
      var d := RecordNames(reg, c);
      assert Holds(reg.docs, c, cutoff, d);
    }
    if d :| Holds(reg.docs, c, cutoff, d) {
      HolderPasses(reg, c, cutoff, d);
    }
  }

  /** The stamp of a record moves to the present exactly when its oldest identity became an older one. */
  predicate StampKept(before: Registry, after: Registry, c: Address, now: int) {
    c in before.records && c in after.records ==>
      after.records[c].since == if before.records[c].oldest <= after.records[c].oldest then before.records[c].since else now
  }

  lemma ReconciledStamp(reg: Registry, c: Address, oldest: Date, now: int, x: Address)
    ensures StampKept(reg, Reconciled(reg, c, oldest, now), x, now)
    ensures x != c ==> (x in Reconciled(reg, c, oldest, now).records <==> x in reg.records)
    ensures x != c && x in reg.records ==> Reconciled(reg, c, oldest, now).records[x] == reg.records[x]
  {}

  lemma WriteStamps(reg: Registry, did: Did, doc: Document, now: int, c: Address)
    ensures StampKept(reg, WithIdentity(reg, did, doc, now), c, now)
  {
    var w := Written(reg, did, doc);
    var r := Refreshed(w, doc.controller, now);
    ReconciledStamp(w, doc.controller, OldestOf(w, doc.controller), now, c);
    if TakesFrom(reg, did, doc) {
      var prev := reg.docs[did].controller;
      ReconciledStamp(r, prev, OldestOf(r, prev), now, c);
    }
  }

  /** Only an identity received can make a record older, and one that is older does. */
  lemma GrowsOlderIff(reg: Registry, did: Did, doc: Document, now: int, c: Address)
    requires RegistryInv(reg) && Addressed(reg) && doc.controller != []
    requires c in reg.records && c in WithIdentity(reg, did, doc, now).records
    ensures WithIdentity(reg, did, doc, now).records[c].oldest < reg.records[c].oldest
       <==> c == doc.controller && doc.status != Revoked && doc.createdAt < reg.records[c].oldest
  {
    var after := WithIdentity(reg, did, doc, now);
    SetIdentityKeepsRegistry(reg, did, doc, now);
    WrittenDocs(reg, did, doc, now);
    var d := RecordNames(after, c);
    if d != did {
      HolderPasses(reg, c, after.records[c].oldest, d);
    }
    if c == doc.controller && doc.status != Revoked {
      HolderPasses(after, c, doc.createdAt, did);
    }
  }

  /** A controller that passes the test of a basis still passes it after a write exactly when it holds a standing identity
      old enough, and the write did not better its record after the freeze. */
  lemma StaysIff(reg: Registry, did: Did, doc: Document, now: int, cutoff: int, since: int, c: Address)
    requires RegistryInv(reg) && Addressed(reg) && doc.controller != [] && EligibleSince(reg, c, cutoff, since)
    ensures EligibleSince(WithIdentity(reg, did, doc, now), c, cutoff, since)
       <==> && HoldsSome(reg.docs[did := doc], c, cutoff)
            && !(since != 0 && since < now && c == doc.controller && doc.status != Revoked && doc.createdAt < reg.records[c].oldest)
  {
    var after := WithIdentity(reg, did, doc, now);
    SetIdentityKeepsRegistry(reg, did, doc, now);
    WrittenDocs(reg, did, doc, now);
    EligibleAtIff(after, c, cutoff);
    if c in after.records {
      GrowsOlderIff(reg, did, doc, now, c);
      WriteStamps(reg, did, doc, now, c);
    }
  }
}
