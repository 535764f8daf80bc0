/**
 Who can do what in the credentials module, message by message and over runs: every record a run leaves behind traces
 back to a delivered message whose sender was entitled to write it.
 */
module CredentialsProvenance {
  import opened Bytes
  import opened Sorting
  import opened Credentials
  import opened CredentialsTheorems

  /** The account speaks for the DID. */
  predicate SpeaksFor(env: Env, account: Account, did: Did) {
    did in env.docs && env.docs[did].active && env.docs[did].controller == account
  }

  /** It also signed `hash` with the DID's key. */
  predicate Attests(env: Env, account: Account, did: Did, hash: Hash, signature: Bytes) {
    SpeaksFor(env, account, did) && env.verify(env.docs[did].key, hash, signature)
  }

  // ----- one message

  /** The message entitles its sender to write template t', in place of t where there was one. */
  predicate MayWriteTemplate(env: Env, m: Msg, t': Template) {
    (m.Register? || m.Update? || m.Deprecate?) && m.id == t'.id && SpeaksFor(env, m.creator, t'.ownerDid)
  }

  predicate MayAnchor(s: State, env: Env, m: Msg, a: Anchor) {
    && m.AnchorCredential? && m.hash == a.hash && a.status == CredentialActive && a.issuedAt == env.now
    && Attests(env, m.issuer, a.issuerDid, a.hash, m.signature) && ActiveDid(env, a.subjectDid)
    && a.templateId in s.templates
    && s.templates[a.templateId].status == TemplateActive && s.templates[a.templateId].version == a.version
  }

  predicate MayRevoke(env: Env, m: Msg, a: Anchor) {
    m.Revoke? && m.hash == a.hash && SpeaksFor(env, m.issuer, a.issuerDid)
  }

  predicate MaySign(env: Env, m: Msg, h: Hash, sig: Signature) {
    m.Sign? && m.hash == h && sig.at == env.now && Attests(env, m.signer, sig.did, h, m.signature)
  }

  /** The one way an agreement changes: one more attested signature, or its creator cancels it. */
  predicate MayChangeAgreement(env: Env, m: Msg, a: Agreement, a': Agreement) {
    || (&& a'.signatures != [] && a'.signatures[..|a'.signatures| - 1] == a.signatures
        && MaySign(env, m, a.hash, a'.signatures[|a'.signatures| - 1]))
    || (m.Cancel? && m.hash == a.hash && m.creator == a.creator && a' == a.(status := Cancelled))
  }

  predicate MayAnchorPersonal(env: Env, m: Msg, p: Personal) {
    && m.AnchorPersonal? && m.ownerDid == p.ownerDid && m.hash == p.hash && p.anchoredAt == env.now
    && Attests(env, m.owner, p.ownerDid, p.hash, m.signature)
  }

  predicate TemplatesAuthorised(s: State, env: Env, m: Msg, s': State) {
    forall id :: id in s'.templates && (id !in s.templates || s.templates[id] != s'.templates[id])
      ==> MayWriteTemplate(env, m, s'.templates[id]) && (id in s.templates <==> !m.Register?)
  }

  predicate AnchorsAuthorised(s: State, env: Env, m: Msg, s': State) {
    forall h :: h in s'.anchors && (h !in s.anchors || s.anchors[h] != s'.anchors[h])
      ==> if h in s.anchors then MayRevoke(env, m, s'.anchors[h]) else MayAnchor(s, env, m, s'.anchors[h])
  }

  predicate AgreementsAuthorised(s: State, env: Env, m: Msg, s': State) {
    forall h :: h in s'.agreements && (h !in s.agreements || s.agreements[h] != s'.agreements[h])
      ==> if h in s.agreements then MayChangeAgreement(env, m, s.agreements[h], s'.agreements[h])
          else m.CreateAgreement? && m.creator == s'.agreements[h].creator && s'.agreements[h].signatures == []
  }

  predicate PersonalsAuthorised(s: State, env: Env, m: Msg, s': State) {
    forall k :: k in s'.personals && (k !in s.personals || s.personals[k] != s'.personals[k])
      ==> k !in s.personals && MayAnchorPersonal(env, m, s'.personals[k])
  }

  predicate StepAuthorised(s: State, env: Env, m: Msg, s': State) {
    && TemplatesAuthorised(s, env, m, s') && AnchorsAuthorised(s, env, m, s')
    && AgreementsAuthorised(s, env, m, s') && PersonalsAuthorised(s, env, m, s')
    && (s.maxSigners != s'.maxSigners ==> m.UpdateParams? && m.caller == env.authority)
  }

  lemma NothingToAuthorise(s: State, env: Env, m: Msg)
    ensures StepAuthorised(s, env, m, s)
  {}

  lemma TemplateMessageAuthorised(sha: Bytes -> Hash, s: State, env: Env, m: Msg)
    requires GoodTemplates(sha, s.templates) && (m.Register? || m.Update? || m.Deprecate?)
    requires Handle(sha, s, env, m).Ok?
    ensures StepAuthorised(s, env, m, Handle(sha, s, env, m).value)
  {}

  lemma AnchorMessageAuthorised(sha: Bytes -> Hash, s: State, env: Env, m: Msg)
    requires GoodAnchors(s.templates, s.anchors) && (m.AnchorCredential? || m.Revoke?)
    requires Handle(sha, s, env, m).Ok?
    ensures StepAuthorised(s, env, m, Handle(sha, s, env, m).value)
  {}

  lemma SignAuthorised(s: State, env: Env, m: Msg)
    requires GoodAgreements(s.agreements) && m.Sign? && OnSign(s, env, m).Ok?
    ensures StepAuthorised(s, env, m, OnSign(s, env, m).value)
  {
    var a := s.agreements[m.hash];
    var a' := Signed(a, m.signerDid, env.now);
    assert a'.signatures[..|a'.signatures| - 1] == a.signatures;
    assert MayChangeAgreement(env, m, a, a');
  }

  lemma AgreementMessageAuthorised(sha: Bytes -> Hash, s: State, env: Env, m: Msg)
    requires GoodAgreements(s.agreements) && (m.CreateAgreement? || m.Cancel?)
    requires Handle(sha, s, env, m).Ok?
    ensures StepAuthorised(s, env, m, Handle(sha, s, env, m).value)
  {}

  lemma OtherMessageAuthorised(sha: Bytes -> Hash, s: State, env: Env, m: Msg)
    requires (m.AnchorPersonal? || m.UpdateParams?) && Handle(sha, s, env, m).Ok?
    ensures StepAuthorised(s, env, m, Handle(sha, s, env, m).value)
  {}

  /** A delivered message changes a record only when its sender was entitled to that change. */
  lemma StepIsAuthorised(sha: Bytes -> Hash, s: State, env: Env, m: Msg)
    requires Inv(sha, s)
    ensures StepAuthorised(s, env, m, Step(sha, s, env, m))
  {
    if !ValidateBasic(m) || Handle(sha, s, env, m).Err? {
      NothingToAuthorise(s, env, m);
    } else if m.Register? || m.Update? || m.Deprecate? {
      TemplateMessageAuthorised(sha, s, env, m);
    } else if m.AnchorCredential? || m.Revoke? {
      AnchorMessageAuthorised(sha, s, env, m);
    } else if m.Sign? {
      SignAuthorised(s, env, m);
    } else if m.CreateAgreement? || m.Cancel? {
      AgreementMessageAuthorised(sha, s, env, m);
    } else {
      OtherMessageAuthorised(sha, s, env, m);
    }
  }

  // ----- runs

  /** Somewhere in the run, this signature on agreement h was given. */
  ghost predicate GivenIn(ds: seq<Delivery>, h: Hash, sig: Signature) {
    exists i :: 0 <= i < |ds| && MaySign(ds[i].env, ds[i].msg, h, sig)
  }

  /** Somewhere in the run, the issuer attested this credential. */
  ghost predicate IssuedIn(ds: seq<Delivery>, a: Anchor) {
    exists i :: 0 <= i < |ds| && IssuedBy(ds[i], a)
  }

  predicate IssuedBy(d: Delivery, a: Anchor) {
    && d.msg.AnchorCredential? && d.msg.hash == a.hash && a.issuedAt == d.env.now
    && Attests(d.env, d.msg.issuer, a.issuerDid, a.hash, d.msg.signature) && ActiveDid(d.env, a.subjectDid)
  }

  ghost predicate RevokedIn(ds: seq<Delivery>, a: Anchor) {
    exists i :: 0 <= i < |ds| && MayRevoke(ds[i].env, ds[i].msg, a)
  }

  ghost predicate KeptIn(ds: seq<Delivery>, p: Personal) {
    exists i :: 0 <= i < |ds| && MayAnchorPersonal(ds[i].env, ds[i].msg, p)
  }

  /** Every signature in `end` was in `s` or was given during the run. */
  ghost predicate SignaturesTrace(s: State, ds: seq<Delivery>, end: State) {
    forall h, k :: h in end.agreements && 0 <= k < |end.agreements[h].signatures| ==>
      SignatureTraces(s, ds, h, end.agreements[h].signatures[k])
  }

  ghost predicate SignatureTraces(s: State, ds: seq<Delivery>, h: Hash, sig: Signature) {
    (h in s.agreements && sig in s.agreements[h].signatures) || GivenIn(ds, h, sig)
  }

  ghost predicate AnchorTraces(s: State, ds: seq<Delivery>, h: Hash, a: Anchor) {
    || (h in s.anchors && s.anchors[h].(status := a.status) == a && (s.anchors[h].status == a.status || RevokedIn(ds, a)))
    || (IssuedIn(ds, a) && (a.status == CredentialActive || RevokedIn(ds, a)))
  }

  ghost predicate AnchorsTrace(s: State, ds: seq<Delivery>, end: State) {
    forall h :: h in end.anchors ==> AnchorTraces(s, ds, h, end.anchors[h])
  }

  ghost predicate PersonalsTrace(s: State, ds: seq<Delivery>, end: State) {
    forall k :: k in end.personals ==> (k in s.personals && s.personals[k] == end.personals[k]) || KeptIn(ds, end.personals[k])
  }

  lemma Earlier(d: Delivery, ds: seq<Delivery>, h: Hash, sig: Signature, a: Anchor, p: Personal)
    ensures GivenIn(ds, h, sig) || MaySign(d.env, d.msg, h, sig) ==> GivenIn([d] + ds, h, sig)
    ensures IssuedIn(ds, a) || IssuedBy(d, a) ==> IssuedIn([d] + ds, a)
    ensures RevokedIn(ds, a) || MayRevoke(d.env, d.msg, a) ==> RevokedIn([d] + ds, a)
    ensures KeptIn(ds, p) || MayAnchorPersonal(d.env, d.msg, p) ==> KeptIn([d] + ds, p)
  {
    var all := [d] + ds;
    assert all[0] == d && forall i :: 0 <= i < |ds| ==> all[i + 1] == ds[i];
    if i :| 0 <= i < |ds| && MaySign(ds[i].env, ds[i].msg, h, sig) {
      assert MaySign(all[i + 1].env, all[i + 1].msg, h, sig);
    }
    if i :| 0 <= i < |ds| && IssuedBy(ds[i], a) {
      assert IssuedBy(all[i + 1], a);
    }
    if i :| 0 <= i < |ds| && MayRevoke(ds[i].env, ds[i].msg, a) {
      assert MayRevoke(all[i + 1].env, all[i + 1].msg, a);
    }
    if i :| 0 <= i < |ds| && MayAnchorPersonal(ds[i].env, ds[i].msg, p) {
      assert MayAnchorPersonal(all[i + 1].env, all[i + 1].msg, p);
    }
  }

  lemma SignaturesTraceBack(s: State, d: Delivery, s1: State, ds: seq<Delivery>, end: State)
    requires AgreementsAuthorised(s, d.env, d.msg, s1) && SignaturesTrace(s1, ds, end)
    requires forall h :: h in s.agreements ==> s.agreements[h].hash == h
    ensures SignaturesTrace(s, [d] + ds, end)
  {
    forall h, k | h in end.agreements && 0 <= k < |end.agreements[h].signatures|
      ensures SignatureTraces(s, [d] + ds, h, end.agreements[h].signatures[k])
    {
      SignatureTracesBack(s, d, s1, ds, h, end.agreements[h].signatures[k]);
    }
  }

  lemma SignatureTracesBack(s: State, d: Delivery, s1: State, ds: seq<Delivery>, h: Hash, sig: Signature)
    requires AgreementsAuthorised(s, d.env, d.msg, s1) && SignatureTraces(s1, ds, h, sig)
    requires h in s.agreements ==> s.agreements[h].hash == h
    ensures SignatureTraces(s, [d] + ds, h, sig)
  {
    Earlier(d, ds, h, sig, Anchor([], [], 0, [], [], 0, CredentialActive), Personal([], [], 0));
    if h in s1.agreements && sig in s1.agreements[h].signatures {
      if h in s.agreements && s.agreements[h] != s1.agreements[h] {
        OneMoreSignature(d.env, d.msg, s.agreements[h], s1.agreements[h], sig);
      }
    }
  }

  lemma OneMoreSignature(env: Env, m: Msg, a: Agreement, a': Agreement, sig: Signature)
    requires MayChangeAgreement(env, m, a, a') && sig in a'.signatures
    ensures sig in a.signatures || MaySign(env, m, a.hash, sig)
  {
    if a'.signatures != [] {
      var n := |a'.signatures| - 1;
      assert a'.signatures == a'.signatures[..n] + [a'.signatures[n]];
    }
  }

  lemma AnchorTracesBack(s: State, d: Delivery, s1: State, ds: seq<Delivery>, h: Hash, a: Anchor)
    requires AnchorsAuthorised(s, d.env, d.msg, s1) && AnchorTraces(s1, ds, h, a)
    requires h in s.anchors && h in s1.anchors ==> AnchorEvolves(s.anchors[h], s1.anchors[h])
    requires h in s.anchors ==> s.anchors[h].hash == h
    ensures AnchorTraces(s, [d] + ds, h, a)
  {
    Earlier(d, ds, h, Signature([], 0), a, Personal([], [], 0));
  }

  lemma AnchorsTraceBack(s: State, d: Delivery, s1: State, ds: seq<Delivery>, end: State)
    requires AnchorsAuthorised(s, d.env, d.msg, s1) && AnchorsTrace(s1, ds, end) && AnchorsEvolve(s.anchors, s1.anchors)
    requires forall h :: h in s.anchors ==> s.anchors[h].hash == h
    ensures AnchorsTrace(s, [d] + ds, end)
  {
    forall h | h in end.anchors
      ensures AnchorTraces(s, [d] + ds, h, end.anchors[h])
    {
      AnchorTracesBack(s, d, s1, ds, h, end.anchors[h]);
    }
  }

  lemma PersonalsTraceBack(s: State, d: Delivery, s1: State, ds: seq<Delivery>, end: State)
    requires PersonalsAuthorised(s, d.env, d.msg, s1) && PersonalsTrace(s1, ds, end)
    ensures PersonalsTrace(s, [d] + ds, end)
  {
    forall k | k in end.personals
      ensures (k in s.personals && s.personals[k] == end.personals[k]) || KeptIn([d] + ds, end.personals[k])
    {
      Earlier(d, ds, [], Signature([], 0), Anchor([], [], 0, [], [], 0, CredentialActive), end.personals[k]);
    }
  }

  /** Every signature, credential, revocation and personal anchor at the end of a run was there before or was rightly
      written during it. */
  lemma {:induction false} RunTraces(sha: Bytes -> Hash, s: State, ds: seq<Delivery>)
    requires Inv(sha, s) && NoWrapRun(sha, s, ds)
    ensures var end := Run(sha, s, ds); SignaturesTrace(s, ds, end) && AnchorsTrace(s, ds, end) && PersonalsTrace(s, ds, end)
    decreases |ds|
  {
    if ds != [] {
      var d, rest := ds[0], ds[1..];
      var s1, end := Step(sha, s, d.env, d.msg), Run(sha, s, ds);
      StepForward(sha, s, d.env, d.msg);
      StepIsAuthorised(sha, s, d.env, d.msg);
      RunTraces(sha, s1, rest);
      assert ds == [d] + rest;
      SignaturesTraceBack(s, d, s1, rest, end);
      AnchorsTraceBack(s, d, s1, rest, end);
      PersonalsTraceBack(s, d, s1, rest, end);
    }
  }

  lemma RunFromEmptyTraces(sha: Bytes -> Hash, ds: seq<Delivery>)
    requires |ds| < TWO32
    ensures var end := Run(sha, EMPTY, ds);
            GoodAgreements(end.agreements) && SignaturesTrace(EMPTY, ds, end) && AnchorsTrace(EMPTY, ds, end)
  {
    RunFromEmpty(sha, ds);
    EmptyIsGood(sha);
    ShortRunsNeverWrap(sha, EMPTY, ds, 0);
    RunTraces(sha, EMPTY, ds);
  }

  lemma CompletedCarriesAll(ds: seq<Delivery>, end: State, h: Hash, did: Did)
    requires GoodAgreements(end.agreements) && SignaturesTrace(EMPTY, ds, end)
    requires h in end.agreements && end.agreements[h].status == Completed && did in end.agreements[h].required
    ensures exists sig :: sig in end.agreements[h].signatures && sig.did == did && GivenIn(ds, h, sig)
  {
    var a := end.agreements[h];
    assert GoodAgreement(h, a);
    assert did in Elems(Signers(a));
    var k :| 0 <= k < |Signers(a)| && Signers(a)[k] == did;
    assert SignatureTraces(EMPTY, ds, h, a.signatures[k]);
  }

  /** An agreement completed in a run from the empty state carries the attested signature of every required DID. */
  lemma CompletionIsUnanimous(sha: Bytes -> Hash, ds: seq<Delivery>, h: Hash, did: Did)
    requires |ds| < TWO32
    requires var end := Run(sha, EMPTY, ds);
             h in end.agreements && end.agreements[h].status == Completed && did in end.agreements[h].required
    ensures exists sig :: sig in Run(sha, EMPTY, ds).agreements[h].signatures && sig.did == did && GivenIn(ds, h, sig)
  {
    RunFromEmptyTraces(sha, ds);
    CompletedCarriesAll(ds, Run(sha, EMPTY, ds), h, did);
  }

  lemma TracedAnchorIsIssued(ds: seq<Delivery>, end: State, h: Hash)
    requires AnchorsTrace(EMPTY, ds, end) && h in end.anchors
    ensures IssuedIn(ds, end.anchors[h]) && (end.anchors[h].status != CredentialActive ==> RevokedIn(ds, end.anchors[h]))
  {
    assert AnchorTraces(EMPTY, ds, h, end.anchors[h]);
  }

  /** A credential in such a run was attested by its issuer, and is revoked only if its issuer revoked it. */
  lemma CredentialsAreIssued(sha: Bytes -> Hash, ds: seq<Delivery>, h: Hash)
    requires |ds| < TWO32 && h in Run(sha, EMPTY, ds).anchors
    ensures var a := Run(sha, EMPTY, ds).anchors[h];
            IssuedIn(ds, a) && (a.status != CredentialActive ==> RevokedIn(ds, a))
  {
    RunFromEmptyTraces(sha, ds);
    TracedAnchorIsIssued(ds, Run(sha, EMPTY, ds), h);
  }
}
