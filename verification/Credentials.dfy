/**
 The credentials state machine: the handlers of x/credentials/keeper/msg_server.go over the records of
 x/credentials/keeper/keeper.go, with the stateless checks of x/credentials/types/msgs.go.

 The identity keeper and the signature check are inputs of each step, and SHA-256 is a parameter `sha`.
 */
module Credentials {
  import opened Bytes
  import opened Sorting
  import opened Policy

  type Did = Bytes
  type Hash = Bytes
  type Account = Bytes

  datatype TemplateStatus = TemplateUnspecified | TemplateActive | TemplateDeprecated
  datatype CredentialStatus = CredentialUnspecified | CredentialActive | CredentialRevoked
  datatype AgreementStatus = AgreementUnspecified | Pending | Completed | Cancelled | AgreementExpired

  datatype Template = Template(
    id: Bytes, version: nat, ownerDid: Did, schemaHash: Hash, bbsKey: Bytes, name: Bytes, status: TemplateStatus,
    createdAt: int, updatedAt: int, count: nat, indices: seq<nat>, policyHash: Hash)

  datatype Anchor = Anchor(
    hash: Hash, templateId: Bytes, version: nat, issuerDid: Did, subjectDid: Did, issuedAt: int, status: CredentialStatus)

  datatype Signature = Signature(did: Did, at: int)

  datatype Agreement = Agreement(
    hash: Hash, creator: Account, required: seq<Did>, signatures: seq<Signature>, deadline: int,
    status: AgreementStatus, createdAt: int)

  datatype Personal = Personal(ownerDid: Did, hash: Hash, anchoredAt: int)

  /** The module's records; `personals` is keyed by the composite store key because that key is not injective. */
  datatype State = State(
    maxSigners: nat, templates: map<Bytes, Template>, anchors: map<Hash, Anchor>,
    agreements: map<Hash, Agreement>, personals: map<Bytes, Personal>)

  datatype Doc = Doc(active: bool, controller: Account, key: Bytes)

  /** What the other modules answer during one message; `verify` checks a signature of a key over a message. */
  datatype Env = Env(now: int, docs: map<Did, Doc>, verify: (Bytes, Bytes, Bytes) -> bool, authority: Account)

  datatype Msg =
    | Register(creator: Account, id: Bytes, ownerDid: Did, schemaHash: Hash, bbsKey: Bytes, name: Bytes, count: nat, indices: seq<nat>)
    | Update(creator: Account, id: Bytes, schemaHash: Hash, name: Bytes, count: nat, indices: seq<nat>)
    | Deprecate(creator: Account, id: Bytes)
    | AnchorCredential(issuer: Account, issuerDid: Did, subjectDid: Did, templateId: Bytes, version: nat, hash: Hash, signature: Bytes)
    | Revoke(issuer: Account, hash: Hash)
    | CreateAgreement(creator: Account, hash: Hash, required: seq<Did>, deadline: int)
    | Sign(signer: Account, signerDid: Did, hash: Hash, signature: Bytes)
    | Cancel(creator: Account, hash: Hash)
    | AnchorPersonal(owner: Account, ownerDid: Did, hash: Hash, signature: Bytes)
    | UpdateParams(caller: Account, maxSigners: nat)

  datatype Error =
    | TemplateExists | TemplateNotFound | TemplateIsDeprecated | VersionMismatch | InvalidRequest | DidNotActive
    | Unauthorized | InvalidSignature | CredentialExists | CredentialNotFound | CredentialIsRevoked
    | AgreementExists | AgreementNotFound | AgreementClosed | AgreementIsExpired | NotRequiredSigner | AlreadySigned
    | PersonalAnchorExists | InvalidSigner

  datatype Result<+T> = Ok(value: T) | Err(error: Error)

  const MAX_BBS_PUBKEY_LEN := 256

  // ----- stateless checks

  predicate ValidateBasic(m: Msg) {
    match m
    case Register(_, id, owner, schema, _, _, _, _) => id != [] && owner != [] && schema != []
    case Update(_, id, schema, _, _, _) => id != [] && schema != []
    case Deprecate(_, id) => id != []
    case AnchorCredential(_, issuerDid, subjectDid, templateId, _, hash, sig) =>
      issuerDid != [] && subjectDid != [] && templateId != [] && hash != [] && sig != []
    case Revoke(_, hash) => hash != []
    case CreateAgreement(_, hash, required, deadline) =>
      hash != [] && required != [] && [] !in required && Distinct(required) && deadline >= 0
    case Sign(_, did, hash, sig) => hash != [] && did != [] && sig != []
    case Cancel(_, hash) => hash != []
    case AnchorPersonal(_, owner, hash, sig) => owner != [] && hash != [] && sig != []
    case UpdateParams(_, cap) => cap != 0
  }

  /** The signer loop of MsgCreateAgreement.ValidateBasic. */
  method ValidateSigners(required: seq<Did>) returns (ok: bool)
    ensures ok <==> required != [] && [] !in required && Distinct(required)
  {
    if |required| == 0 {
      return false;
    }
    var seen: set<Did> := {};
    for i := 0 to |required|
      invariant seen == Elems(required[..i]) && [] !in required[..i] && Distinct(required[..i])
    {
      assert required[..i+1] == required[..i] + [required[i]];
      if required[i] == [] {
        return false;
      }
      if required[i] in seen {
        var j :| 0 <= j < i && required[..i][j] == required[i];
        assert required[j] == required[i];
        return false;
      }
      seen := seen + {required[i]};
    }
    assert required[..|required|] == required;
    ok := true;
  }

  // ----- lookups

  /** authDID: the DID is active and controlled by the signer; otherwise the error it fails with. */
  function Auth(env: Env, did: Did, signer: Account): Result<()> {
    if did !in env.docs || !env.docs[did].active then Err(DidNotActive)
    else if env.docs[did].controller != signer then Err(Unauthorized)
    else Ok(())
  }

  predicate ActiveDid(env: Env, did: Did) { did in env.docs && env.docs[did].active }

  /** byte(len(owner)), owner, hash under the personal prefix. */
  function PersonalKey(owner: Did, hash: Hash): Bytes {
    [0x40] + ([|owner| % 256] + (owner + hash))
  }

  function PolicyHashOf(sha: Bytes -> Hash, t: Template): Hash {
    sha(Preimage(t.id, t.version, t.count, t.indices))
  }

  /** The template with its policy hash recomputed. */
  function Sealed(sha: Bytes -> Hash, t: Template): Template { t.(policyHash := PolicyHashOf(sha, t)) }

  function Signers(a: Agreement): seq<Did> {
    seq(|a.signatures|, i requires 0 <= i < |a.signatures| => a.signatures[i].did)
  }

  // ----- the handlers as functions on states, checks in source order

  function NewTemplate(sha: Bytes -> Hash, env: Env, m: Msg): Template
    requires m.Register?
  {
    Sealed(sha, Template(m.id, 1, m.ownerDid, m.schemaHash, m.bbsKey, m.name, TemplateActive,
                         env.now, env.now, m.count, m.indices, []))
  }

  function OnRegister(sha: Bytes -> Hash, s: State, env: Env, m: Msg): Result<State>
    requires m.Register?
  {
    if m.id in s.templates then Err(TemplateExists)
    else if Auth(env, m.ownerDid, m.creator).Err? then Err(Auth(env, m.ownerDid, m.creator).error)
    else if |m.bbsKey| == 0 || |m.bbsKey| > MAX_BBS_PUBKEY_LEN then Err(InvalidRequest)
    else if !ValidPolicy(m.count, m.indices) then Err(InvalidRequest)
    else Ok(s.(templates := s.templates[m.id := NewTemplate(sha, env, m)]))
  }

  /** The uint32 version goes up by one and wraps at 2^32. */
  function UpdatedTemplate(sha: Bytes -> Hash, env: Env, t: Template, m: Msg): Template
    requires m.Update?
  {
    Sealed(sha, t.(version := (t.version + 1) % TWO32, schemaHash := m.schemaHash, name := m.name,
                   updatedAt := env.now, count := m.count, indices := m.indices))
  }

  function OnUpdate(sha: Bytes -> Hash, s: State, env: Env, m: Msg): Result<State>
    requires m.Update?
  {
    if m.id !in s.templates then Err(TemplateNotFound)
    else
      var t := s.templates[m.id];
      if Auth(env, t.ownerDid, m.creator).Err? then Err(Auth(env, t.ownerDid, m.creator).error)
      else if t.status == TemplateDeprecated then Err(TemplateIsDeprecated)
      else if !ValidPolicy(m.count, m.indices) then Err(InvalidRequest)
      else Ok(s.(templates := s.templates[t.id := UpdatedTemplate(sha, env, t, m)]))
  }

  function OnDeprecate(s: State, env: Env, m: Msg): Result<State>
    requires m.Deprecate?
  {
    if m.id !in s.templates then Err(TemplateNotFound)
    else
      var t := s.templates[m.id];
      if Auth(env, t.ownerDid, m.creator).Err? then Err(Auth(env, t.ownerDid, m.creator).error)
      else if t.status == TemplateDeprecated then Err(TemplateIsDeprecated)
      else Ok(s.(templates := s.templates[t.id := t.(status := TemplateDeprecated, updatedAt := env.now)]))
  }

  function OnAnchor(s: State, env: Env, m: Msg): Result<State>
    requires m.AnchorCredential?
  {
    if m.hash in s.anchors then Err(CredentialExists)
    else if Auth(env, m.issuerDid, m.issuer).Err? then Err(Auth(env, m.issuerDid, m.issuer).error)
    else if !ActiveDid(env, m.subjectDid) then Err(DidNotActive)
    else if m.templateId !in s.templates then Err(TemplateNotFound)
    else if s.templates[m.templateId].status != TemplateActive then Err(TemplateIsDeprecated)
    else if m.version != s.templates[m.templateId].version then Err(VersionMismatch)
    else if !env.verify(env.docs[m.issuerDid].key, m.hash, m.signature) then Err(InvalidSignature)
    else
      var a := Anchor(m.hash, m.templateId, m.version, m.issuerDid, m.subjectDid, env.now, CredentialActive);
      Ok(s.(anchors := s.anchors[m.hash := a]))
  }

  function OnRevoke(s: State, env: Env, m: Msg): Result<State>
    requires m.Revoke?
  {
    if m.hash !in s.anchors then Err(CredentialNotFound)
    else
      var a := s.anchors[m.hash];
      if a.status == CredentialRevoked then Err(CredentialIsRevoked)
      else if Auth(env, a.issuerDid, m.issuer).Err? then Err(Auth(env, a.issuerDid, m.issuer).error)
      else Ok(s.(anchors := s.anchors[a.hash := a.(status := CredentialRevoked)]))
  }

  function OnCreateAgreement(s: State, env: Env, m: Msg): Result<State>
    requires m.CreateAgreement?
  {
    if m.hash in s.agreements then Err(AgreementExists)
    else if |m.required| % TWO32 > s.maxSigners then Err(InvalidRequest)
    else
      var a := Agreement(m.hash, m.creator, m.required, [], m.deadline, Pending, env.now);
      Ok(s.(agreements := s.agreements[m.hash := a]))
  }

  /** The agreement with one more signature; it completes when the counts meet. */
  function Signed(a: Agreement, did: Did, now: int): Agreement {
    var sigs := a.signatures + [Signature(did, now)];
    a.(signatures := sigs, status := if |sigs| == |a.required| then Completed else a.status)
  }

  function OnSign(s: State, env: Env, m: Msg): Result<State>
    requires m.Sign?
  {
    if m.hash !in s.agreements then Err(AgreementNotFound)
    else
      var a := s.agreements[m.hash];
      if a.status != Pending then Err(AgreementClosed)
      else if a.deadline != 0 && env.now > a.deadline then Err(AgreementIsExpired)
      else if m.signerDid !in a.required then Err(NotRequiredSigner)
      else if m.signerDid in Signers(a) then Err(AlreadySigned)
      else if Auth(env, m.signerDid, m.signer).Err? then Err(Auth(env, m.signerDid, m.signer).error)
      else if !env.verify(env.docs[m.signerDid].key, m.hash, m.signature) then Err(InvalidSignature)
      else Ok(s.(agreements := s.agreements[a.hash := Signed(a, m.signerDid, env.now)]))
  }

  function OnCancel(s: State, m: Msg): Result<State>
    requires m.Cancel?
  {
    if m.hash !in s.agreements then Err(AgreementNotFound)
    else
      var a := s.agreements[m.hash];
      if a.status != Pending then Err(AgreementClosed)
      else if a.creator != m.creator then Err(Unauthorized)
      else Ok(s.(agreements := s.agreements[a.hash := a.(status := Cancelled)]))
  }

  function OnAnchorPersonal(s: State, env: Env, m: Msg): Result<State>
    requires m.AnchorPersonal?
  {
    if PersonalKey(m.ownerDid, m.hash) in s.personals then Err(PersonalAnchorExists)
    else if Auth(env, m.ownerDid, m.owner).Err? then Err(Auth(env, m.ownerDid, m.owner).error)
    else if !env.verify(env.docs[m.ownerDid].key, m.hash, m.signature) then Err(InvalidSignature)
    else Ok(s.(personals := s.personals[PersonalKey(m.ownerDid, m.hash) := Personal(m.ownerDid, m.hash, env.now)]))
  }

  function OnUpdateParams(s: State, env: Env, m: Msg): Result<State>
    requires m.UpdateParams?
  {
    if m.caller != env.authority then Err(InvalidSigner)
    else if m.maxSigners == 0 then Err(InvalidRequest)
    else Ok(s.(maxSigners := m.maxSigners))
  }

  function Handle(sha: Bytes -> Hash, s: State, env: Env, m: Msg): Result<State> {
    match m
    case Register(_, _, _, _, _, _, _, _) => OnRegister(sha, s, env, m)
    case Update(_, _, _, _, _, _) => OnUpdate(sha, s, env, m)
    case Deprecate(_, _) => OnDeprecate(s, env, m)
    case AnchorCredential(_, _, _, _, _, _, _) => OnAnchor(s, env, m)
    case Revoke(_, _) => OnRevoke(s, env, m)
    case CreateAgreement(_, _, _, _) => OnCreateAgreement(s, env, m)
    case Sign(_, _, _, _) => OnSign(s, env, m)
    case Cancel(_, _) => OnCancel(s, m)
    case AnchorPersonal(_, _, _, _) => OnAnchorPersonal(s, env, m)
    case UpdateParams(_, _) => OnUpdateParams(s, env, m)
  }

  /** A delivered message: rejected ones leave the state alone. */
  function Step(sha: Bytes -> Hash, s: State, env: Env, m: Msg): State {
    if !ValidateBasic(m) then s
    else
      match Handle(sha, s, env, m)
      case Err(_) => s
      case Ok(s') => s'
  }

  // ----- the keeper

  /** A handler that should give `expected` answered `r` and left the records as `after`. */
  predicate Answers(before: State, expected: Result<State>, after: State, r: Result<()>) {
    match expected
    case Err(e) => r == Err(e) && after == before
    case Ok(s) => r == Ok(()) && after == s
  }

  /** Nothing changed but the template under `id`. */
  predicate OnlyTemplate(s: State, s': State, id: Bytes) {
    s' == s.(templates := s'.templates) && s'.templates - {id} == s.templates - {id} && id in s'.templates
  }

  predicate OnlyAnchor(s: State, s': State, h: Hash) {
    s' == s.(anchors := s'.anchors) && s'.anchors - {h} == s.anchors - {h} && h in s'.anchors
  }

  predicate OnlyAgreement(s: State, s': State, h: Hash) {
    s' == s.(agreements := s'.agreements) && s'.agreements - {h} == s.agreements - {h} && h in s'.agreements
  }

  predicate OnlyPersonal(s: State, s': State, k: Bytes) {
    s' == s.(personals := s'.personals) && s'.personals - {k} == s.personals - {k} && k in s'.personals
  }

  class Keeper {
    const sha: Bytes -> Hash
    var maxSigners: nat
    var templates: map<Bytes, Template>
    var anchors: map<Hash, Anchor>
    var agreements: map<Hash, Agreement>
    var personals: map<Bytes, Personal>

    constructor (h: Bytes -> Hash, s: State)
      ensures View() == s && sha == h
    {
      sha := h;
      maxSigners, templates, anchors, agreements, personals := s.maxSigners, s.templates, s.anchors, s.agreements, s.personals;
    }

    ghost function View(): State
      reads this
    {
      State(maxSigners, templates, anchors, agreements, personals)
    }

    method RegisterCredentialTemplate(env: Env, m: Msg) returns (r: Result<()>)
      requires m.Register?
      modifies this
      ensures Answers(old(View()), OnRegister(sha, old(View()), env, m), View(), r)
      ensures r.Ok? ==>
                && OnlyTemplate(old(View()), View(), m.id) && m.id !in old(templates)
                && var t := templates[m.id];
                && t.id == m.id && t.schemaHash == m.schemaHash && t.name == m.name
                && t.version == 1 && t.status == TemplateActive && t.ownerDid == m.ownerDid && t.bbsKey == m.bbsKey
                && t.createdAt == t.updatedAt == env.now
                && t.count == m.count && t.indices == m.indices && t.policyHash == PolicyHashOf(sha, t)
    {
      if m.id in templates {
        return Err(TemplateExists);
      }
      var auth := Auth(env, m.ownerDid, m.creator);
      if auth.Err? {
        return auth;
      }
      if |m.bbsKey| == 0 || |m.bbsKey| > MAX_BBS_PUBKEY_LEN {
        return Err(InvalidRequest);
      }
      var ok := ValidateDisclosurePolicy(m.count, m.indices);
      if !ok {
        return Err(InvalidRequest);
      }
      var t := Template(m.id, 1, m.ownerDid, m.schemaHash, m.bbsKey, m.name, TemplateActive,
                        env.now, env.now, m.count, m.indices, []);
      var preimage := WritePreimage(t.id, t.version, t.count, t.indices);
      t := t.(policyHash := sha(preimage));
      templates := templates[t.id := t];
      r := Ok(());
    }

    method UpdateCredentialTemplate(env: Env, m: Msg) returns (r: Result<()>)
      requires m.Update?
      modifies this
      ensures Answers(old(View()), OnUpdate(sha, old(View()), env, m), View(), r)
      ensures r.Ok? ==>
                && var was := old(templates)[m.id];
                && OnlyTemplate(old(View()), View(), was.id)
                && var t := templates[was.id];
                && t.version == (was.version + 1) % TWO32 && t.policyHash == PolicyHashOf(sha, t)
                && t.count == m.count && t.indices == m.indices && t.schemaHash == m.schemaHash && t.name == m.name
                && t.ownerDid == was.ownerDid && t.bbsKey == was.bbsKey && t.createdAt == was.createdAt && t.status == was.status
                && t.id == was.id && t.updatedAt == env.now
    {
      if m.id !in templates {
        return Err(TemplateNotFound);
      }
      var t := templates[m.id];
      var auth := Auth(env, t.ownerDid, m.creator);
      if auth.Err? {
        return auth;
      }
      if t.status == TemplateDeprecated {
        return Err(TemplateIsDeprecated);
      }
      var ok := ValidateDisclosurePolicy(m.count, m.indices);
      if !ok {
        return Err(InvalidRequest);
      }
      t := t.(version := (t.version + 1) % TWO32);
      t := t.(schemaHash := m.schemaHash, name := m.name, updatedAt := env.now);
      t := t.(count := m.count, indices := m.indices);
      var preimage := WritePreimage(t.id, t.version, t.count, t.indices);
      t := t.(policyHash := sha(preimage));
      templates := templates[t.id := t];
      r := Ok(());
    }

    method DeprecateCredentialTemplate(env: Env, m: Msg) returns (r: Result<()>)
      requires m.Deprecate?
      modifies this
      ensures Answers(old(View()), OnDeprecate(old(View()), env, m), View(), r)
      ensures r.Ok? ==>
                && var was := old(templates)[m.id];
                && OnlyTemplate(old(View()), View(), was.id) && was.status != TemplateDeprecated
                && templates[was.id] == was.(status := TemplateDeprecated, updatedAt := env.now)
    {
      if m.id !in templates {
        return Err(TemplateNotFound);
      }
      var t := templates[m.id];
      var auth := Auth(env, t.ownerDid, m.creator);
      if auth.Err? {
        return auth;
      }
      if t.status == TemplateDeprecated {
        return Err(TemplateIsDeprecated);
      }
      t := t.(status := TemplateDeprecated);
      t := t.(updatedAt := env.now);
      templates := templates[t.id := t];
      r := Ok(());
    }

    method AnchorCredential(env: Env, m: Msg) returns (r: Result<()>)
      requires m.AnchorCredential?
      modifies this
      ensures Answers(old(View()), OnAnchor(old(View()), env, m), View(), r)
      ensures r.Ok? ==>
                && OnlyAnchor(old(View()), View(), m.hash) && m.hash !in old(anchors)
                && var a := anchors[m.hash];
                && a.hash == m.hash && a.status == CredentialActive && a.issuedAt == env.now
                && a.issuerDid == m.issuerDid && a.subjectDid == m.subjectDid
                && a.templateId == m.templateId && a.version == templates[m.templateId].version
    {
      if m.hash in anchors {
        return Err(CredentialExists);
      }
      var auth := Auth(env, m.issuerDid, m.issuer);
      if auth.Err? {
        return auth;
      }
      if !ActiveDid(env, m.subjectDid) {
        return Err(DidNotActive);
      }
      if m.templateId !in templates {
        return Err(TemplateNotFound);
      }
      var t := templates[m.templateId];
      if t.status != TemplateActive {
        return Err(TemplateIsDeprecated);
      }
      if m.version != t.version {
        return Err(VersionMismatch);
      }
      if !env.verify(env.docs[m.issuerDid].key, m.hash, m.signature) {
        return Err(InvalidSignature);
      }
      anchors := anchors[m.hash := Anchor(m.hash, m.templateId, m.version, m.issuerDid, m.subjectDid, env.now, CredentialActive)];
      r := Ok(());
    }

    method RevokeCredential(env: Env, m: Msg) returns (r: Result<()>)
      requires m.Revoke?
      modifies this
      ensures Answers(old(View()), OnRevoke(old(View()), env, m), View(), r)
      ensures r.Ok? ==>
                && var was := old(anchors)[m.hash];
                && OnlyAnchor(old(View()), View(), was.hash) && was.status != CredentialRevoked
                && anchors[was.hash] == was.(status := CredentialRevoked)
    {
      if m.hash !in anchors {
        return Err(CredentialNotFound);
      }
      var a := anchors[m.hash];
      if a.status == CredentialRevoked {
        return Err(CredentialIsRevoked);
      }
      var auth := Auth(env, a.issuerDid, m.issuer);
      if auth.Err? {
        return auth;
      }
      a := a.(status := CredentialRevoked);
      anchors := anchors[a.hash := a];
      r := Ok(());
    }

    method CreateAgreement(env: Env, m: Msg) returns (r: Result<()>)
      requires m.CreateAgreement?
      modifies this
      ensures Answers(old(View()), OnCreateAgreement(old(View()), env, m), View(), r)
      ensures r.Ok? ==>
                && OnlyAgreement(old(View()), View(), m.hash) && m.hash !in old(agreements)
                && var a := agreements[m.hash];
                && a.status == Pending && a.signatures == [] && a.required == m.required && a.creator == m.creator
                && a.hash == m.hash && a.createdAt == env.now && a.deadline == m.deadline && |a.required| % TWO32 <= maxSigners
    {
      if m.hash in agreements {
        return Err(AgreementExists);
      }
      if |m.required| % TWO32 > maxSigners {
        return Err(InvalidRequest);
      }
      agreements := agreements[m.hash := Agreement(m.hash, m.creator, m.required, [], m.deadline, Pending, env.now)];
      r := Ok(());
    }

    method SignAgreement(env: Env, m: Msg) returns (r: Result<()>)
      requires m.Sign?
      modifies this
      ensures Answers(old(View()), OnSign(old(View()), env, m), View(), r)
      ensures r.Ok? ==>
                && var was := old(agreements)[m.hash];
                && OnlyAgreement(old(View()), View(), was.hash) && was.status == Pending
                && (was.deadline == 0 || env.now <= was.deadline)
                && m.signerDid in was.required && m.signerDid !in Signers(was)
                && var a := agreements[was.hash];
                && a.signatures == was.signatures + [Signature(m.signerDid, env.now)]
                && a == was.(signatures := a.signatures, status := if |a.signatures| == |a.required| then Completed else Pending)
    {
      if m.hash !in agreements {
        return Err(AgreementNotFound);
      }
      var a := agreements[m.hash];
      if a.status != Pending {
        return Err(AgreementClosed);
      }
      if a.deadline != 0 && env.now > a.deadline {
        return Err(AgreementIsExpired);
      }
      if m.signerDid !in a.required {
        return Err(NotRequiredSigner);
      }
      for i := 0 to |a.signatures|
        invariant forall k :: 0 <= k < i ==> Signers(a)[k] != m.signerDid
        invariant View() == old(View())
      {
        if a.signatures[i].did == m.signerDid {
          assert Signers(a)[i] == m.signerDid;
          return Err(AlreadySigned);
        }
      }
      var auth := Auth(env, m.signerDid, m.signer);
      if auth.Err? {
        return auth;
      }
      if !env.verify(env.docs[m.signerDid].key, m.hash, m.signature) {
        return Err(InvalidSignature);
      }
      a := a.(signatures := a.signatures + [Signature(m.signerDid, env.now)]);
      if |a.signatures| == |a.required| {
        a := a.(status := Completed);
      }
      agreements := agreements[a.hash := a];
      r := Ok(());
    }

    method CancelAgreement(m: Msg) returns (r: Result<()>)
      requires m.Cancel?
      modifies this
      ensures Answers(old(View()), OnCancel(old(View()), m), View(), r)
      ensures r.Ok? ==>
                && var was := old(agreements)[m.hash];
                && OnlyAgreement(old(View()), View(), was.hash) && was.status == Pending && was.creator == m.creator
                && agreements[was.hash] == was.(status := Cancelled)
    {
      if m.hash !in agreements {
        return Err(AgreementNotFound);
      }
      var a := agreements[m.hash];
      if a.status != Pending {
        return Err(AgreementClosed);
      }
      if a.creator != m.creator {
        return Err(Unauthorized);
      }
      a := a.(status := Cancelled);
      agreements := agreements[a.hash := a];
      r := Ok(());
    }

    method AnchorPersonal(env: Env, m: Msg) returns (r: Result<()>)
      requires m.AnchorPersonal?
      modifies this
      ensures Answers(old(View()), OnAnchorPersonal(old(View()), env, m), View(), r)
      ensures r.Ok? ==>
                && var k := PersonalKey(m.ownerDid, m.hash);
                && OnlyPersonal(old(View()), View(), k) && k !in old(personals)
                && personals[k] == Personal(m.ownerDid, m.hash, env.now)
    {
      var key := PersonalKey(m.ownerDid, m.hash);
      if key in personals {
        return Err(PersonalAnchorExists);
      }
      var auth := Auth(env, m.ownerDid, m.owner);
      if auth.Err? {
        return auth;
      }
      if !env.verify(env.docs[m.ownerDid].key, m.hash, m.signature) {
        return Err(InvalidSignature);
      }
      personals := personals[key := Personal(m.ownerDid, m.hash, env.now)];
      r := Ok(());
    }

    method UpdateModuleParams(env: Env, m: Msg) returns (r: Result<()>)
      requires m.UpdateParams?
      modifies this
      ensures Answers(old(View()), OnUpdateParams(old(View()), env, m), View(), r)
      ensures r.Ok? ==> View() == old(View()).(maxSigners := m.maxSigners) && m.maxSigners > 0 && m.caller == env.authority
    {
      if m.caller != env.authority {
        return Err(InvalidSigner);
      }
      if m.maxSigners == 0 {
        return Err(InvalidRequest);
      }
      maxSigners := m.maxSigners;
      r := Ok(());
    }
  }
}
