/**
 When a credentials message must be accepted and what it is refused for, told from the records, the documents and the
 message alone; and that an agreement nobody cancels completes once everybody has signed in time.
 */
module CredentialsAcceptance {
  import opened Bytes
  import opened Sorting
  import opened Policy
  import opened Credentials
  import opened CredentialsTheorems

  // ----- the objections, in the order the handlers raise them

  datatype Objection = Objection(error: Error, raised: bool)

  predicate Active(env: Env, did: Did) { did in env.docs && env.docs[did].active }

  predicate Controls(env: Env, account: Account, did: Did) { did in env.docs && env.docs[did].controller == account }

  predicate SignedBy(env: Env, did: Did, message: Bytes, signature: Bytes) {
    did in env.docs && env.verify(env.docs[did].key, message, signature)
  }

  /** More than 64 claims, more indices than claims, an index past the claims, or one listed twice. */
  predicate BadPolicy(count: nat, indices: seq<nat>) {
    || count > 64 || |indices| > count
    || (exists i :: 0 <= i < |indices| && indices[i] >= count)
    || (exists i, j :: 0 <= i < j < |indices| && indices[i] == indices[j])
  }

  predicate HasSigned(a: Agreement, did: Did) { exists i :: 0 <= i < |a.signatures| && a.signatures[i].did == did }

  function Objections(s: State, env: Env, m: Msg): seq<Objection> {
    match m
    case Register(creator, id, owner, _, key, _, count, indices) =>
      [Objection(TemplateExists, id in s.templates),
       Objection(DidNotActive, !Active(env, owner)),
       Objection(Unauthorized, !Controls(env, creator, owner)),
       Objection(InvalidRequest, key == [] || |key| > 256 || BadPolicy(count, indices))]
    case Update(creator, id, _, _, count, indices) =>
      [Objection(TemplateNotFound, id !in s.templates),
       Objection(DidNotActive, id in s.templates && !Active(env, s.templates[id].ownerDid)),
       Objection(Unauthorized, id in s.templates && !Controls(env, creator, s.templates[id].ownerDid)),
       Objection(TemplateIsDeprecated, id in s.templates && s.templates[id].status == TemplateDeprecated),
       Objection(InvalidRequest, BadPolicy(count, indices))]
    case Deprecate(creator, id) =>
      [Objection(TemplateNotFound, id !in s.templates),
       Objection(DidNotActive, id in s.templates && !Active(env, s.templates[id].ownerDid)),
       Objection(Unauthorized, id in s.templates && !Controls(env, creator, s.templates[id].ownerDid)),
       Objection(TemplateIsDeprecated, id in s.templates && s.templates[id].status == TemplateDeprecated)]
    case AnchorCredential(issuer, issuerDid, subjectDid, id, version, hash, signature) =>
      [Objection(CredentialExists, hash in s.anchors),
       Objection(DidNotActive, !Active(env, issuerDid)),
       Objection(Unauthorized, !Controls(env, issuer, issuerDid)),
       Objection(DidNotActive, !Active(env, subjectDid)),
       Objection(TemplateNotFound, id !in s.templates),
       Objection(TemplateIsDeprecated, id in s.templates && s.templates[id].status != TemplateActive),
       Objection(VersionMismatch, id in s.templates && s.templates[id].version != version),
       Objection(InvalidSignature, !SignedBy(env, issuerDid, hash, signature))]
    case Revoke(issuer, hash) =>
      [Objection(CredentialNotFound, hash !in s.anchors),
       Objection(CredentialIsRevoked, hash in s.anchors && s.anchors[hash].status == CredentialRevoked),
       Objection(DidNotActive, hash in s.anchors && !Active(env, s.anchors[hash].issuerDid)),
       Objection(Unauthorized, hash in s.anchors && !Controls(env, issuer, s.anchors[hash].issuerDid))]
    case CreateAgreement(_, hash, required, _) =>
      [Objection(AgreementExists, hash in s.agreements),
       Objection(InvalidRequest, |required| % 0x1_0000_0000 > s.maxSigners)]
    case Sign(signer, did, hash, signature) =>
      [Objection(AgreementNotFound, hash !in s.agreements),
       Objection(AgreementClosed, hash in s.agreements && s.agreements[hash].status != Pending),
       Objection(AgreementIsExpired, hash in s.agreements && 0 != s.agreements[hash].deadline < env.now),
       Objection(NotRequiredSigner, hash in s.agreements && did !in s.agreements[hash].required),
       Objection(AlreadySigned, hash in s.agreements && HasSigned(s.agreements[hash], did)),
       Objection(DidNotActive, !Active(env, did)),
       Objection(Unauthorized, !Controls(env, signer, did)),
       Objection(InvalidSignature, !SignedBy(env, did, hash, signature))]
    case Cancel(creator, hash) =>
      [Objection(AgreementNotFound, hash !in s.agreements),
       Objection(AgreementClosed, hash in s.agreements && s.agreements[hash].status != Pending),
       Objection(Unauthorized, hash in s.agreements && s.agreements[hash].creator != creator)]
    case AnchorPersonal(owner, did, hash, signature) =>
      [Objection(PersonalAnchorExists, [0x40] + ([|did| % 256] + (did + hash)) in s.personals),
       Objection(DidNotActive, !Active(env, did)),
       Objection(Unauthorized, !Controls(env, owner, did)),
       Objection(InvalidSignature, !SignedBy(env, did, hash, signature))]
    case UpdateParams(caller, cap) =>
      [Objection(InvalidSigner, caller != env.authority),
       Objection(InvalidRequest, cap == 0)]
  }

  predicate Unopposed(os: seq<Objection>) { forall i :: 0 <= i < |os| ==> !os[i].raised }

  /** The first `i` objections are not raised, and the next one, if there is one, is. */
  predicate Stops(os: seq<Objection>, i: nat) {
    i <= |os| && (forall j :: 0 <= j < i ==> !os[j].raised) && (i < |os| ==> os[i].raised)
  }

  lemma {:induction false} StopsSomewhere(os: seq<Objection>) returns (i: nat)
    ensures Stops(os, i)
    decreases |os|
  {
    if os == [] || os[0].raised {
      i := 0;
    } else {
      var k := StopsSomewhere(os[1..]);
      i := k + 1;
      assert forall j :: 1 <= j < |os| ==> os[j] == os[1..][j - 1];
    }
  }

  /** `r` is acceptance after the last objection, or the error of the objection raised first. */
  predicate Answer(r: Result<State>, os: seq<Objection>, i: nat) {
    i <= |os| && if i < |os| then r == Err(os[i].error) else r.Ok?
  }

  lemma BadPolicyIff(count: nat, indices: seq<nat>)
    ensures BadPolicy(count, indices) <==> !ValidPolicy(count, indices)
  {}

  lemma HasSignedIff(a: Agreement, did: Did)
    ensures HasSigned(a, did) <==> did in Signers(a)
  {
    if HasSigned(a, did) {
      var i :| 0 <= i < |a.signatures| && a.signatures[i].did == did;
      assert Signers(a)[i] == did;
    }
  }

  /** The objections one by one; no handler has more than eight. */
  lemma OneByOne(os: seq<Objection>, i: nat)
    requires Stops(os, i)
    ensures 0 < |os| && 0 <= i ==> (os[0].raised <==> i == 0)
    ensures 1 < |os| && 1 <= i ==> (os[1].raised <==> i == 1)
    ensures 2 < |os| && 2 <= i ==> (os[2].raised <==> i == 2)
    ensures 3 < |os| && 3 <= i ==> (os[3].raised <==> i == 3)
    ensures 4 < |os| && 4 <= i ==> (os[4].raised <==> i == 4)
    ensures 5 < |os| && 5 <= i ==> (os[5].raised <==> i == 5)
    ensures 6 < |os| && 6 <= i ==> (os[6].raised <==> i == 6)
    ensures 7 < |os| && 7 <= i ==> (os[7].raised <==> i == 7)
  {}

  lemma TemplateAnswer(sha: Bytes -> Hash, s: State, env: Env, m: Msg, i: nat)
    requires (m.Register? || m.Update? || m.Deprecate?) && Stops(Objections(s, env, m), i)
    ensures Answer(Handle(sha, s, env, m), Objections(s, env, m), i)
  {
    OneByOne(Objections(s, env, m), i);
    if !m.Deprecate? {
      BadPolicyIff(m.count, m.indices);
    }
  }

  lemma AnchorAnswer(sha: Bytes -> Hash, s: State, env: Env, m: Msg, i: nat)
    requires (m.AnchorCredential? || m.Revoke? || m.AnchorPersonal?) && Stops(Objections(s, env, m), i)
    ensures Answer(Handle(sha, s, env, m), Objections(s, env, m), i)
  {
    OneByOne(Objections(s, env, m), i);
  }

  lemma AgreementAnswer(sha: Bytes -> Hash, s: State, env: Env, m: Msg, i: nat)
    requires (m.CreateAgreement? || m.Cancel? || m.UpdateParams?) && Stops(Objections(s, env, m), i)
    ensures Answer(Handle(sha, s, env, m), Objections(s, env, m), i)
  {
    OneByOne(Objections(s, env, m), i);
  }

  lemma SignAnswer(sha: Bytes -> Hash, s: State, env: Env, m: Msg, i: nat)
    requires m.Sign? && Stops(Objections(s, env, m), i)
    ensures Answer(Handle(sha, s, env, m), Objections(s, env, m), i)
  {
    OneByOne(Objections(s, env, m), i);
    if m.hash in s.agreements {
      HasSignedIff(s.agreements[m.hash], m.signerDid);
    }
  }

  lemma AnswersInOrder(sha: Bytes -> Hash, s: State, env: Env, m: Msg, i: nat)
    requires Stops(Objections(s, env, m), i)
    ensures Answer(Handle(sha, s, env, m), Objections(s, env, m), i)
  {
    match m
    case Register(_, _, _, _, _, _, _, _) => TemplateAnswer(sha, s, env, m, i);
    case Update(_, _, _, _, _, _) => TemplateAnswer(sha, s, env, m, i);
    case Deprecate(_, _) => TemplateAnswer(sha, s, env, m, i);
    case AnchorCredential(_, _, _, _, _, _, _) => AnchorAnswer(sha, s, env, m, i);
    case Revoke(_, _) => AnchorAnswer(sha, s, env, m, i);
    case AnchorPersonal(_, _, _, _) => AnchorAnswer(sha, s, env, m, i);
    case CreateAgreement(_, _, _, _) => AgreementAnswer(sha, s, env, m, i);
    case Cancel(_, _) => AgreementAnswer(sha, s, env, m, i);
    case UpdateParams(_, _) => AgreementAnswer(sha, s, env, m, i);
    case Sign(_, _, _, _) => SignAnswer(sha, s, env, m, i);
  }

  /** Every handler accepts exactly the messages that none of its objections is raised against, and refuses the others
      with the error of the first that is. */
  lemma AcceptedIffUnopposed(sha: Bytes -> Hash, s: State, env: Env, m: Msg)
    ensures Handle(sha, s, env, m).Ok? <==> Unopposed(Objections(s, env, m))
    ensures Handle(sha, s, env, m).Err? ==>
              exists i: nat :: Stops(Objections(s, env, m), i) && i < |Objections(s, env, m)|
                               && Handle(sha, s, env, m).error == Objections(s, env, m)[i].error
  {
    var os := Objections(s, env, m);
    var i := StopsSomewhere(os);
    AnswersInOrder(sha, s, env, m, i);
  }

  /** Spelled out for a signature: the agreement is pending and not past its deadline, if it has one, the DID is required
      and has not signed, the sender controls it while it is active, and its key signed the agreement's hash. */
  lemma SignAcceptedIff(sha: Bytes -> Hash, s: State, env: Env, m: Msg)
    requires m.Sign?
    ensures Handle(sha, s, env, m).Ok?
       <==> && m.hash in s.agreements
            && var a := s.agreements[m.hash];
            && a.status == Pending && (a.deadline == 0 || env.now <= a.deadline)
            && m.signerDid in a.required && !HasSigned(a, m.signerDid)
            && Active(env, m.signerDid) && Controls(env, m.signer, m.signerDid) && SignedBy(env, m.signerDid, m.hash, m.signature)
  {
    AcceptedIffUnopposed(sha, s, env, m);
    var os := Objections(s, env, m);
    assert Unopposed(os) <==> !os[0].raised && !os[1].raised && !os[2].raised && !os[3].raised
                              && !os[4].raised && !os[5].raised && !os[6].raised && !os[7].raised;
  }

  // ----- everybody signs in time

  /** A delivered signature of `d` that meets every demand not about the agreement's own progress. */
  predicate SignsFor(dl: Delivery, h: Hash, d: Did, deadline: int) {
    && dl.msg.Sign? && dl.msg.hash == h && dl.msg.signerDid == d && d != [] && dl.msg.signature != []
    && (deadline == 0 || dl.env.now <= deadline)
    && Active(dl.env, d) && Controls(dl.env, dl.msg.signer, d) && SignedBy(dl.env, d, h, dl.msg.signature)
  }

  /** Everybody required has signed, or will. */
  predicate Covered(a: Agreement, h: Hash, ds: seq<Delivery>) {
    forall d :: d in a.required ==> HasSigned(a, d) || exists i :: 0 <= i < |ds| && SignsFor(ds[i], h, d, a.deadline)
  }

  predicate CancelledBy(ds: seq<Delivery>, h: Hash, creator: Account) {
    exists i :: 0 <= i < |ds| && ds[i].msg == Cancel(creator, h)
  }

  predicate Open(s: State, h: Hash) { h in s.agreements && (s.agreements[h].status == Pending || s.agreements[h].status == Completed) }

  /** The agreement is still open, with its terms and its signatures. */
  predicate KeptOpen(s: State, s': State, h: Hash)
    requires h in s.agreements
  {
    && Open(s', h)
    && var a, a' := s.agreements[h], s'.agreements[h];
    a' == a.(signatures := a'.signatures, status := a'.status) && a.signatures <= a'.signatures
  }

  lemma AgreementsElsewhere(sha: Bytes -> Hash, s: State, env: Env, m: Msg)
    requires !m.Sign? && !m.Cancel? && !m.CreateAgreement?
    ensures Step(sha, s, env, m).agreements == s.agreements
  {}

  lemma SignKeepsOpen(sha: Bytes -> Hash, s: State, env: Env, m: Msg, h: Hash)
    requires Inv(sha, s) && Open(s, h) && m.Sign?
    ensures KeptOpen(s, Step(sha, s, env, m), h)
  {
    assert m.hash in s.agreements ==> GoodAgreement(m.hash, s.agreements[m.hash]);
  }

  lemma CancelKeepsOpen(sha: Bytes -> Hash, s: State, env: Env, m: Msg, h: Hash)
    requires Inv(sha, s) && Open(s, h) && m.Cancel? && m != Cancel(s.agreements[h].creator, h)
    ensures KeptOpen(s, Step(sha, s, env, m), h)
  {
    assert m.hash in s.agreements ==> GoodAgreement(m.hash, s.agreements[m.hash]);
  }

  /** A message that is not its creator's cancellation leaves an agreement open. */
  lemma StaysOpen(sha: Bytes -> Hash, s: State, env: Env, m: Msg, h: Hash)
    requires Inv(sha, s) && Open(s, h) && m != Cancel(s.agreements[h].creator, h)
    ensures KeptOpen(s, Step(sha, s, env, m), h)
  {
    if m.Sign? {
      SignKeepsOpen(sha, s, env, m, h);
    } else if m.Cancel? {
      CancelKeepsOpen(sha, s, env, m, h);
    } else if !m.CreateAgreement? {
      AgreementsElsewhere(sha, s, env, m);
    }
  }

  lemma SignTakes(sha: Bytes -> Hash, s: State, dl: Delivery, h: Hash, d: Did)
    requires Inv(sha, s) && h in s.agreements && s.agreements[h].status == Pending && d in s.agreements[h].required
    requires SignsFor(dl, h, d, s.agreements[h].deadline)
    ensures var s' := Step(sha, s, dl.env, dl.msg); h in s'.agreements && HasSigned(s'.agreements[h], d)
  {
    var a := s.agreements[h];
    assert GoodAgreement(h, a);
    SignAcceptedIff(sha, s, dl.env, dl.msg);
    if !HasSigned(a, d) {
      var a' := Step(sha, s, dl.env, dl.msg).agreements[h];
      assert a'.signatures[|a.signatures|].did == d;
    }
  }

  lemma HasSignedStays(a: Agreement, a': Agreement, d: Did)
    requires a.signatures <= a'.signatures && HasSigned(a, d)
    ensures HasSigned(a', d)
  {
    var i :| 0 <= i < |a.signatures| && a.signatures[i].did == d;
    assert a'.signatures[i].did == d;
  }

  lemma CompletedIffAllHaveSigned(h: Hash, a: Agreement)
    requires GoodAgreement(h, a)
    ensures a.status == Completed <==> forall d :: d in a.required ==> HasSigned(a, d)
  {
    forall d | d in a.required
      ensures HasSigned(a, d) <==> d in Elems(Signers(a))
    {
      HasSignedIff(a, d);
    }
  }

  lemma CoverageMovesOn(sha: Bytes -> Hash, s: State, ds: seq<Delivery>, h: Hash)
    requires Inv(sha, s) && ds != [] && Open(s, h) && ds[0].msg != Cancel(s.agreements[h].creator, h)
    requires Covered(s.agreements[h], h, ds)
    ensures var s' := Step(sha, s, ds[0].env, ds[0].msg); Open(s', h) && Covered(s'.agreements[h], h, ds[1..])
  {
    var s', a := Step(sha, s, ds[0].env, ds[0].msg), s.agreements[h];
    StaysOpen(sha, s, ds[0].env, ds[0].msg, h);
    CompletedIffAllHaveSigned(h, a);
    forall d | d in a.required
      ensures HasSigned(s'.agreements[h], d) || exists i :: 0 <= i < |ds[1..]| && SignsFor(ds[1..][i], h, d, a.deadline)
    {
      if HasSigned(a, d) {
        HasSignedStays(a, s'.agreements[h], d);
      } else {
        var i :| 0 <= i < |ds| && SignsFor(ds[i], h, d, a.deadline);
        if i == 0 {
          SignTakes(sha, s, ds[0], h, d);
        } else {
          assert ds[1..][i - 1] == ds[i];
        }
      }
    }
  }

  /** Whatever else is delivered in between: an agreement that its creator does not cancel ends completed once a valid
      signature in time has been delivered for everybody who had not signed. */
  lemma {:induction false} SignedByAllCompletes(sha: Bytes -> Hash, s: State, ds: seq<Delivery>, h: Hash)
    requires Inv(sha, s) && NoWrapRun(sha, s, ds) && Open(s, h)
    requires Covered(s.agreements[h], h, ds) && !CancelledBy(ds, h, s.agreements[h].creator)
    ensures var end := Run(sha, s, ds); h in end.agreements && end.agreements[h].status == Completed
    decreases |ds|
  {
    if ds == [] {
      CompletedIffAllHaveSigned(h, s.agreements[h]);
    } else {
      var s' := Step(sha, s, ds[0].env, ds[0].msg);
      StepForward(sha, s, ds[0].env, ds[0].msg);
      StaysOpen(sha, s, ds[0].env, ds[0].msg, h);
      CoverageMovesOn(sha, s, ds, h);
      assert !CancelledBy(ds[1..], h, s.agreements[h].creator) by {
        forall i | 0 <= i < |ds[1..]|
          ensures ds[1..][i].msg != Cancel(s.agreements[h].creator, h)
        {
          assert ds[1..][i] == ds[i + 1];
        }
      }
      SignedByAllCompletes(sha, s', ds[1..], h);
    }
  }
}
