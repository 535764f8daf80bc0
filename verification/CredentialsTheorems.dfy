/** What every run of the credentials state machine keeps, and what it can never undo. */
module CredentialsTheorems {
  import opened Bytes
  import opened Sets
  import opened Sorting
  import opened Policy
  import opened Credentials

  // ----- the invariant

  predicate GoodTemplate(sha: Bytes -> Hash, id: Bytes, t: Template) {
    && t.id == id && id != [] && t.version < TWO32
    && ValidPolicy(t.count, t.indices)
    && t.policyHash == PolicyHashOf(sha, t)
  }

  predicate GoodAnchor(templates: map<Bytes, Template>, h: Hash, a: Anchor) {
    && a.hash == h && h != []
    && a.templateId in templates && a.version <= templates[a.templateId].version
  }

  predicate AllSigned(a: Agreement) { Elems(a.required) <= Elems(Signers(a)) }

  predicate GoodAgreement(h: Hash, a: Agreement) {
    && a.hash == h && h != []
    && a.required != [] && Distinct(a.required)
    && Distinct(Signers(a)) && Elems(Signers(a)) <= Elems(a.required)
    && (forall i :: 0 <= i < |a.signatures| && a.deadline != 0 ==> a.signatures[i].at <= a.deadline)
    && (a.status == Pending || a.status == Completed || a.status == Cancelled)
    && (a.status == Completed <==> AllSigned(a))
  }

  predicate GoodPersonal(k: Bytes, p: Personal) {
    k == PersonalKey(p.ownerDid, p.hash) && p.ownerDid != [] && p.hash != []
  }

  predicate GoodTemplates(sha: Bytes -> Hash, ts: map<Bytes, Template>) {
    forall id :: id in ts ==> GoodTemplate(sha, id, ts[id])
  }

  predicate GoodAnchors(ts: map<Bytes, Template>, as_: map<Hash, Anchor>) {
    forall h :: h in as_ ==> GoodAnchor(ts, h, as_[h])
  }

  predicate GoodAgreements(ags: map<Hash, Agreement>) {
    forall h :: h in ags ==> GoodAgreement(h, ags[h])
  }

  predicate GoodPersonals(ps: map<Bytes, Personal>) {
    forall k :: k in ps ==> GoodPersonal(k, ps[k])
  }

  predicate Inv(sha: Bytes -> Hash, s: State) {
    && s.maxSigners > 0
    && GoodTemplates(sha, s.templates) && GoodAnchors(s.templates, s.anchors)
    && GoodAgreements(s.agreements) && GoodPersonals(s.personals)
  }

  /** The uint32 version of an updated template does not wrap. */
  predicate NoWrap(s: State, m: Msg) {
    m.Update? && m.id in s.templates ==> s.templates[m.id].version + 1 < TWO32
  }

  // ----- agreements: the pigeonhole

  /** Counting signatures decides completeness: with distinct required signers and distinct signers drawn
      from them, the two counts meet exactly when everybody has signed. */
  lemma CountsMeetIffAllSigned(required: seq<Did>, signers: seq<Did>)
    requires Distinct(required) && Distinct(signers) && Elems(signers) <= Elems(required)
    ensures |signers| <= |required|
    ensures |signers| == |required| <==> Elems(required) <= Elems(signers)
  {
    DistinctSize(required);
    DistinctSize(signers);
    SizeWithin(Elems(signers), Elems(required));
  }

  lemma SignedSigners(a: Agreement, did: Did, now: int)
    ensures Signers(Signed(a, did, now)) == Signers(a) + [did]
    ensures Elems(Signers(Signed(a, did, now))) == Elems(Signers(a)) + {did}
  {
    assert Signers(Signed(a, did, now)) == Signers(a) + [did];
  }

  lemma SigningKeepsAgreementGood(h: Hash, a: Agreement, did: Did, now: int)
    requires GoodAgreement(h, a) && a.status == Pending
    requires did in a.required && did !in Signers(a)
    requires a.deadline != 0 ==> now <= a.deadline
    ensures GoodAgreement(h, Signed(a, did, now))
  {
    SignedSigners(a, did, now);
    CountsMeetIffAllSigned(a.required, Signers(Signed(a, did, now)));
  }

  // ----- what a step can never undo

  predicate TemplateEvolves(t: Template, t': Template) {
    && t'.id == t.id && t'.ownerDid == t.ownerDid && t'.bbsKey == t.bbsKey && t'.createdAt == t.createdAt
    && t.version <= t'.version
    && (t.version == t'.version ==> t'.count == t.count && t'.indices == t.indices && t'.policyHash == t.policyHash)
    && (t.status == TemplateDeprecated ==> t' == t)
  }

  predicate AnchorEvolves(a: Anchor, a': Anchor) {
    a' == a || (a.status != CredentialRevoked && a' == a.(status := CredentialRevoked))
  }

  /** Completed, cancelled and any other closed agreement is frozen; a pending one only gains signatures or
      closes. */
  predicate AgreementEvolves(a: Agreement, a': Agreement) {
    || a' == a
    || (&& a.status == Pending
        && a' == a.(signatures := a'.signatures, status := a'.status)
        && a.signatures <= a'.signatures)
  }

  predicate TemplatesEvolve(ts: map<Bytes, Template>, ts': map<Bytes, Template>) {
    forall id :: id in ts ==> id in ts' && TemplateEvolves(ts[id], ts'[id])
  }

  predicate AnchorsEvolve(as_: map<Hash, Anchor>, as': map<Hash, Anchor>) {
    forall h :: h in as_ ==> h in as' && AnchorEvolves(as_[h], as'[h])
  }

  predicate AgreementsEvolve(ags: map<Hash, Agreement>, ags': map<Hash, Agreement>) {
    forall h :: h in ags ==> h in ags' && AgreementEvolves(ags[h], ags'[h])
  }

  predicate PersonalsEvolve(ps: map<Bytes, Personal>, ps': map<Bytes, Personal>) {
    forall k :: k in ps ==> k in ps' && ps'[k] == ps[k]
  }

  /** Every record of `s` is still there, and has only moved forward. */
  predicate Evolves(s: State, s': State) {
    && TemplatesEvolve(s.templates, s'.templates) && AnchorsEvolve(s.anchors, s'.anchors)
    && AgreementsEvolve(s.agreements, s'.agreements) && PersonalsEvolve(s.personals, s'.personals)
  }

  lemma NothingChanged(s: State)
    ensures Evolves(s, s)
  {}

  lemma EvolvesTransitively(s: State, t: State, u: State)
    requires Evolves(s, t) && Evolves(t, u)
    ensures Evolves(s, u)
  {
    forall h | h in s.agreements
      ensures h in u.agreements && AgreementEvolves(s.agreements[h], u.agreements[h])
    {
      assert AgreementEvolves(s.agreements[h], t.agreements[h]) && AgreementEvolves(t.agreements[h], u.agreements[h]);
    }
    forall h | h in s.anchors
      ensures h in u.anchors && AnchorEvolves(s.anchors[h], u.anchors[h])
    {
      assert AnchorEvolves(s.anchors[h], t.anchors[h]) && AnchorEvolves(t.anchors[h], u.anchors[h]);
    }
    forall id | id in s.templates
      ensures id in u.templates && TemplateEvolves(s.templates[id], u.templates[id])
    {
      assert TemplateEvolves(s.templates[id], t.templates[id]) && TemplateEvolves(t.templates[id], u.templates[id]);
    }
  }

  // ----- every message keeps the invariant and moves forward

  predicate VersionsStep(ts: map<Bytes, Template>, ts': map<Bytes, Template>) {
    forall id :: id in ts' ==> ts'[id].version <= (if id in ts then ts[id].version else 0) + 1
  }

  /** From `s` to `s'`: the invariant holds, records only moved forward, and a template by at most one
      version, a new one to version one at most. */
  predicate Forward(sha: Bytes -> Hash, s: State, s': State) {
    Inv(sha, s') && Evolves(s, s') && VersionsStep(s.templates, s'.templates)
  }

  lemma AnchorsFollowTemplate(sha: Bytes -> Hash, s: State, t: Template)
    requires Inv(sha, s) && GoodTemplate(sha, t.id, t)
    requires t.id in s.templates ==> s.templates[t.id].version <= t.version
    ensures Inv(sha, s.(templates := s.templates[t.id := t]))
  {
    var ts := s.templates[t.id := t];
    forall h | h in s.anchors
      ensures GoodAnchor(ts, h, s.anchors[h])
    {
      assert GoodAnchor(s.templates, h, s.anchors[h]);
    }
  }

  lemma SetTemplateForward(sha: Bytes -> Hash, s: State, t: Template)
    requires Inv(sha, s) && GoodTemplate(sha, t.id, t)
    requires t.id in s.templates ==> TemplateEvolves(s.templates[t.id], t) && t.version <= s.templates[t.id].version + 1
    requires t.id !in s.templates ==> t.version == 1
    ensures Forward(sha, s, s.(templates := s.templates[t.id := t]))
  {
    NothingChanged(s);
    AnchorsFollowTemplate(sha, s, t);
    assert TemplatesEvolve(s.templates, s.templates[t.id := t]);
  }

  lemma SetAnchorForward(sha: Bytes -> Hash, s: State, a: Anchor)
    requires Inv(sha, s) && GoodAnchor(s.templates, a.hash, a)
    requires a.hash in s.anchors ==> AnchorEvolves(s.anchors[a.hash], a)
    ensures Forward(sha, s, s.(anchors := s.anchors[a.hash := a]))
  {
    NothingChanged(s);
    assert GoodAnchors(s.templates, s.anchors[a.hash := a]);
    assert AnchorsEvolve(s.anchors, s.anchors[a.hash := a]);
  }

  lemma SetAgreementForward(sha: Bytes -> Hash, s: State, a: Agreement)
    requires Inv(sha, s) && GoodAgreement(a.hash, a)
    requires a.hash in s.agreements ==> AgreementEvolves(s.agreements[a.hash], a)
    ensures Forward(sha, s, s.(agreements := s.agreements[a.hash := a]))
  {
    NothingChanged(s);
    assert GoodAgreements(s.agreements[a.hash := a]);
    assert AgreementsEvolve(s.agreements, s.agreements[a.hash := a]);
  }

  lemma SetPersonalForward(sha: Bytes -> Hash, s: State, k: Bytes, p: Personal)
    requires Inv(sha, s) && GoodPersonal(k, p) && k !in s.personals
    ensures Forward(sha, s, s.(personals := s.personals[k := p]))
  {
    NothingChanged(s);
    assert GoodPersonals(s.personals[k := p]);
  }

  lemma RegisterForward(sha: Bytes -> Hash, s: State, env: Env, m: Msg)
    requires Inv(sha, s) && m.Register? && ValidateBasic(m) && OnRegister(sha, s, env, m).Ok?
    ensures Forward(sha, s, OnRegister(sha, s, env, m).value)
  {
    SetTemplateForward(sha, s, NewTemplate(sha, env, m));
  }

  lemma UpdateForward(sha: Bytes -> Hash, s: State, env: Env, m: Msg)
    requires Inv(sha, s) && m.Update? && OnUpdate(sha, s, env, m).Ok? && NoWrap(s, m)
    ensures Forward(sha, s, OnUpdate(sha, s, env, m).value)
  {
    assert GoodTemplate(sha, m.id, s.templates[m.id]);
    SetTemplateForward(sha, s, UpdatedTemplate(sha, env, s.templates[m.id], m));
  }

  lemma DeprecateForward(sha: Bytes -> Hash, s: State, env: Env, m: Msg)
    requires Inv(sha, s) && m.Deprecate? && OnDeprecate(s, env, m).Ok?
    ensures Forward(sha, s, OnDeprecate(s, env, m).value)
  {
    assert GoodTemplate(sha, m.id, s.templates[m.id]);
    SetTemplateForward(sha, s, s.templates[m.id].(status := TemplateDeprecated, updatedAt := env.now));
  }

  lemma AnchorForward(sha: Bytes -> Hash, s: State, env: Env, m: Msg)
    requires Inv(sha, s) && m.AnchorCredential? && ValidateBasic(m) && OnAnchor(s, env, m).Ok?
    ensures Forward(sha, s, OnAnchor(s, env, m).value)
  {
    SetAnchorForward(sha, s, Anchor(m.hash, m.templateId, m.version, m.issuerDid, m.subjectDid, env.now, CredentialActive));
  }

  lemma RevokeForward(sha: Bytes -> Hash, s: State, env: Env, m: Msg)
    requires Inv(sha, s) && m.Revoke? && OnRevoke(s, env, m).Ok?
    ensures Forward(sha, s, OnRevoke(s, env, m).value)
  {
    assert GoodAnchor(s.templates, m.hash, s.anchors[m.hash]);
    SetAnchorForward(sha, s, s.anchors[m.hash].(status := CredentialRevoked));
  }

  lemma NewAgreementIsGood(a: Agreement)
    requires a.hash != [] && a.required != [] && Distinct(a.required) && a.signatures == [] && a.status == Pending
    ensures GoodAgreement(a.hash, a)
  {
    assert a.required[0] in Elems(a.required);
  }

  lemma CreateAgreementForward(sha: Bytes -> Hash, s: State, env: Env, m: Msg)
    requires Inv(sha, s) && m.CreateAgreement? && ValidateBasic(m) && OnCreateAgreement(s, env, m).Ok?
    ensures Forward(sha, s, OnCreateAgreement(s, env, m).value)
  {
    var a := Agreement(m.hash, m.creator, m.required, [], m.deadline, Pending, env.now);
    NewAgreementIsGood(a);
    SetAgreementForward(sha, s, a);
  }

  lemma SignForward(sha: Bytes -> Hash, s: State, env: Env, m: Msg)
    requires Inv(sha, s) && m.Sign? && OnSign(s, env, m).Ok?
    ensures Forward(sha, s, OnSign(s, env, m).value)
  {
    var a := s.agreements[m.hash];
    assert GoodAgreement(m.hash, a);
    SigningKeepsAgreementGood(m.hash, a, m.signerDid, env.now);
    SetAgreementForward(sha, s, Signed(a, m.signerDid, env.now));
  }

  lemma CancelForward(sha: Bytes -> Hash, s: State, m: Msg)
    requires Inv(sha, s) && m.Cancel? && OnCancel(s, m).Ok?
    ensures Forward(sha, s, OnCancel(s, m).value)
  {
    assert GoodAgreement(m.hash, s.agreements[m.hash]);
    SetAgreementForward(sha, s, s.agreements[m.hash].(status := Cancelled));
  }

  lemma PersonalForward(sha: Bytes -> Hash, s: State, env: Env, m: Msg)
    requires Inv(sha, s) && m.AnchorPersonal? && ValidateBasic(m) && OnAnchorPersonal(s, env, m).Ok?
    ensures Forward(sha, s, OnAnchorPersonal(s, env, m).value)
  {
    SetPersonalForward(sha, s, PersonalKey(m.ownerDid, m.hash), Personal(m.ownerDid, m.hash, env.now));
  }

  lemma ParamsForward(sha: Bytes -> Hash, s: State, cap: nat)
    requires Inv(sha, s) && cap > 0
    ensures Forward(sha, s, s.(maxSigners := cap)) && Forward(sha, s, s)
  {
    NothingChanged(s);
  }

  lemma HandleForward(sha: Bytes -> Hash, s: State, env: Env, m: Msg)
    requires Inv(sha, s) && NoWrap(s, m) && ValidateBasic(m) && Handle(sha, s, env, m).Ok?
    ensures Forward(sha, s, Handle(sha, s, env, m).value)
  {
    match m
    case Register(_, _, _, _, _, _, _, _) => RegisterForward(sha, s, env, m);
    case Update(_, _, _, _, _, _) => UpdateForward(sha, s, env, m);
    case Deprecate(_, _) => DeprecateForward(sha, s, env, m);
    case AnchorCredential(_, _, _, _, _, _, _) => AnchorForward(sha, s, env, m);
    case Revoke(_, _) => RevokeForward(sha, s, env, m);
    case CreateAgreement(_, _, _, _) => CreateAgreementForward(sha, s, env, m);
    case Sign(_, _, _, _) => SignForward(sha, s, env, m);
    case Cancel(_, _) => CancelForward(sha, s, m);
    case AnchorPersonal(_, _, _, _) => PersonalForward(sha, s, env, m);
    case UpdateParams(_, cap) => ParamsForward(sha, s, cap);
  }

  /** One message keeps the invariant, moves every record forward, and a template by at most one version. */
  lemma StepForward(sha: Bytes -> Hash, s: State, env: Env, m: Msg)
    requires Inv(sha, s) && NoWrap(s, m)
    ensures Forward(sha, s, Step(sha, s, env, m))
  {
    if ValidateBasic(m) && Handle(sha, s, env, m).Ok? {
      HandleForward(sha, s, env, m);
    } else {
      ParamsForward(sha, s, 1);
    }
  }

  /** An accepted update keeps the invariant exactly when the version does not wrap or no credential is
      anchored to the template at a version above zero. */
  lemma UpdateKeepsInvariantIff(sha: Bytes -> Hash, s: State, env: Env, m: Msg)
    requires Inv(sha, s) && m.Update? && OnUpdate(sha, s, env, m).Ok?
    ensures var t := s.templates[m.id];
            Inv(sha, OnUpdate(sha, s, env, m).value)
            <==> t.version + 1 < TWO32 || forall h :: h in s.anchors && s.anchors[h].templateId == m.id ==> s.anchors[h].version == 0
  {
    var t := s.templates[m.id];
    var t' := UpdatedTemplate(sha, env, t, m);
    var s' := OnUpdate(sha, s, env, m).value;
    assert GoodTemplate(sha, m.id, t) && s'.templates == s.templates[m.id := t'];
    if t.version + 1 < TWO32 {
      AnchorsFollowTemplate(sha, s, t');
    } else {
      assert t'.version == 0 && GoodTemplate(sha, m.id, t');
      forall h | h in s.anchors
        ensures GoodAnchor(s'.templates, h, s.anchors[h]) <==> (s.anchors[h].templateId == m.id ==> s.anchors[h].version == 0)
      {
        assert GoodAnchor(s.templates, h, s.anchors[h]);
      }
    }
  }

  /** The wrap is real: an accepted update of a template at version 2^32 - 1 with a credential anchored to it
      leaves an anchor ahead of its template. */
  lemma VersionWrapBreaksAnchors(sha: Bytes -> Hash)
    ensures var t := Sealed(sha, Template([1], TWO32 - 1, [2], [3], [4], [], TemplateActive, 0, 0, 0, [], []));
            var a := Anchor([5], [1], TWO32 - 1, [2], [2], 0, CredentialActive);
            var s := State(100, map[[1] := t], map[[5] := a], map[], map[]);
            var env := Env(0, map[[2] := Doc(true, [6], [])], (_, _, _) => true, []);
            var m := Update([6], [1], [3], [], 0, []);
            Inv(sha, s) && ValidateBasic(m) && OnUpdate(sha, s, env, m).Ok? && !Inv(sha, OnUpdate(sha, s, env, m).value)
  {
    var t := Sealed(sha, Template([1], TWO32 - 1, [2], [3], [4], [], TemplateActive, 0, 0, 0, [], []));
    var a := Anchor([5], [1], TWO32 - 1, [2], [2], 0, CredentialActive);
    var s := State(100, map[[1] := t], map[[5] := a], map[], map[]);
    var env := Env(0, map[[2] := Doc(true, [6], [])], (_, _, _) => true, []);
    var m := Update([6], [1], [3], [], 0, []);
    assert GoodTemplate(sha, [1], t);
    UpdateKeepsInvariantIff(sha, s, env, m);
    assert [5] in s.anchors && s.anchors[[5]].version != 0;
  }

  // ----- runs

  datatype Delivery = Delivery(env: Env, msg: Msg)

  function Run(sha: Bytes -> Hash, s: State, ds: seq<Delivery>): State
    decreases |ds|
  {
    if ds == [] then s else Run(sha, Step(sha, s, ds[0].env, ds[0].msg), ds[1..])
  }

  predicate NoWrapRun(sha: Bytes -> Hash, s: State, ds: seq<Delivery>)
    decreases |ds|
  {
    ds == [] || (NoWrap(s, ds[0].msg) && NoWrapRun(sha, Step(sha, s, ds[0].env, ds[0].msg), ds[1..]))
  }

  /** Every state a run reaches satisfies the invariant, and every record of an earlier state is still there
      and has only moved forward: owners and BBS keys fixed, versions rising, revoked, deprecated, completed
      and cancelled for good. */
  lemma {:induction false} RunKeepsAndEvolves(sha: Bytes -> Hash, s: State, ds: seq<Delivery>)
    requires Inv(sha, s) && NoWrapRun(sha, s, ds)
    ensures Inv(sha, Run(sha, s, ds)) && Evolves(s, Run(sha, s, ds))
    decreases |ds|
  {
    if ds != [] {
      var t := Step(sha, s, ds[0].env, ds[0].msg);
      StepForward(sha, s, ds[0].env, ds[0].msg);
      RunKeepsAndEvolves(sha, t, ds[1..]);
      EvolvesTransitively(s, t, Run(sha, t, ds[1..]));
    }
  }

  const EMPTY := State(100, map[], map[], map[], map[])

  lemma EmptyIsGood(sha: Bytes -> Hash)
    ensures Inv(sha, EMPTY)
  {}

  predicate VersionsWithin(s: State, n: nat) { forall id :: id in s.templates ==> s.templates[id].version <= n }

  lemma VersionsGrowSlowly(sha: Bytes -> Hash, s: State, env: Env, m: Msg, n: nat)
    requires Inv(sha, s) && VersionsWithin(s, n) && NoWrap(s, m)
    ensures Inv(sha, Step(sha, s, env, m)) && VersionsWithin(Step(sha, s, env, m), n + 1)
  {
    StepForward(sha, s, env, m);
    ForwardVersions(sha, s, Step(sha, s, env, m), n);
  }

  lemma ForwardVersions(sha: Bytes -> Hash, s: State, s': State, n: nat)
    requires Forward(sha, s, s') && VersionsWithin(s, n)
    ensures VersionsWithin(s', n + 1)
  {}

  /** A run of fewer than 2^32 - 1 messages in all never wraps a version, so the theorem above holds of it
      outright. */
  lemma {:induction false} ShortRunsNeverWrap(sha: Bytes -> Hash, s: State, ds: seq<Delivery>, n: nat)
    requires Inv(sha, s) && VersionsWithin(s, n) && n + |ds| < TWO32
    ensures NoWrapRun(sha, s, ds)
    decreases |ds|
  {
    if ds != [] {
      var env, m := ds[0].env, ds[0].msg;
      assert NoWrap(s, m);
      VersionsGrowSlowly(sha, s, env, m, n);
      ShortRunsNeverWrap(sha, Step(sha, s, env, m), ds[1..], n + 1);
    }
  }

  lemma RunFromEmpty(sha: Bytes -> Hash, ds: seq<Delivery>)
    requires |ds| < TWO32
    ensures Inv(sha, Run(sha, EMPTY, ds))
  {
    EmptyIsGood(sha);
    ShortRunsNeverWrap(sha, EMPTY, ds, 0);
    RunKeepsAndEvolves(sha, EMPTY, ds);
  }

  /** Spelled out: closed agreements, revoked credentials and deprecated templates never change again. */
  lemma ClosedRecordsAreFrozen(sha: Bytes -> Hash, s: State, ds: seq<Delivery>)
    requires Inv(sha, s) && NoWrapRun(sha, s, ds)
    ensures var end := Run(sha, s, ds);
            && (forall h :: h in s.agreements && s.agreements[h].status != Pending ==> h in end.agreements && end.agreements[h] == s.agreements[h])
            && (forall h :: h in s.anchors && s.anchors[h].status == CredentialRevoked ==> h in end.anchors && end.anchors[h] == s.anchors[h])
            && (forall id :: id in s.templates && s.templates[id].status == TemplateDeprecated ==> id in end.templates && end.templates[id] == s.templates[id])
  {
    RunKeepsAndEvolves(sha, s, ds);
    var end := Run(sha, s, ds);
    assert forall h :: h in s.agreements ==> AgreementEvolves(s.agreements[h], end.agreements[h]);
    assert forall h :: h in s.anchors ==> AnchorEvolves(s.anchors[h], end.anchors[h]);
    assert forall id :: id in s.templates ==> TemplateEvolves(s.templates[id], end.templates[id]);
  }

  // ----- the composite key of personal anchors

  lemma PersonalKeyParts(o: Did, h: Hash, p: Did, g: Hash)
    ensures PersonalKey(o, h) == PersonalKey(p, g) <==> |o| % 256 == |p| % 256 && o + h == p + g
  {
    var x, y := PersonalKey(o, h), PersonalKey(p, g);
    assert x[1] == |o| % 256 && y[1] == |p| % 256 && x[2..] == o + h && y[2..] == p + g;
  }

  /** Two different personal anchors share a store key exactly when their owner DIDs differ in length by a
      multiple of 256 and owner and hash read the same end to end; in particular never below 256 bytes. */
  lemma PersonalKeyCollidesIff(o: Did, h: Hash, p: Did, g: Hash)
    ensures PersonalKey(o, h) == PersonalKey(p, g) && (o, h) != (p, g)
       <==> |o| != |p| && |o| % 256 == |p| % 256 && o + h == p + g
    ensures |o| < 256 && |p| < 256 && PersonalKey(o, h) == PersonalKey(p, g) ==> o == p && h == g
  {
    PersonalKeyParts(o, h, p, g);
    if o + h == p + g && |o| == |p| {
      assert o == (o + h)[..|o|] && p == (p + g)[..|p|];
      assert h == (o + h)[|o|..] && g == (p + g)[|p|..];
    }
  }
}
