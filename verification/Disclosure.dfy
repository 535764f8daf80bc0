/**
 VerifyDisclosure of x/disclosure/keeper/grpc_query.go: when a selective-disclosure proof is accepted, and
 why a policy hash pinned before a template update never verifies after it.
 */
module Disclosure {
  import opened Bytes
  import opened Sorting
  import opened Policy
  import opened Credentials
  import opened CredentialsTheorems
  import P = ProofEnvelope

  datatype Request = Request(credentialHash: Hash, proof: Bytes, nonce: Bytes, pinnedHash: Hash)

  /** The BBS+ verifier: proof, issuer key, nonce. */
  type Verifier = (Bytes, Bytes, Bytes) -> bool

  datatype Reason =
    | Accepted | ProofTooLarge | NotAnchored | NotActive | TemplateMissing | NoBbsKey | PolicyChanged
    | MalformedProof | CountMismatch | NotDisclosable(index: nat) | ProofFailed

  datatype Response = Response(
    valid: bool, reason: Reason, issuerDid: Did, templateId: Bytes, policyHash: Hash, level: P.Level, revealed: seq<nat>)

  datatype Reply = InvalidArgument | Answer(response: Response)

  /** The answer for a proof that was refused at the point where these fields were already filled in. */
  function Refused(reason: Reason, issuerDid: Did, templateId: Bytes, policyHash: Hash): Reply {
    Answer(Response(false, reason, issuerDid, templateId, policyHash, P.Predicate, []))
  }

  /** Every revealed index of the proof is one the template declares disclosable. */
  predicate OnlyDisclosable(e: P.Envelope, t: Template) {
    Elems(P.Indices(e.entries)) <= Elems(t.indices)
  }

  /** The condition under which a disclosure is valid; `bbs` verifies a proof for a key and a nonce. */
  predicate Discloses(s: State, maxProof: nat, req: Request, bbs: Verifier) {
    && |req.proof| % TWO32 <= maxProof
    && req.credentialHash in s.anchors
    && var a := s.anchors[req.credentialHash];
    && a.status == CredentialActive && a.templateId in s.templates
    && var t := s.templates[a.templateId];
    && t.bbsKey != []
    && (req.pinnedHash == [] || req.pinnedHash == t.policyHash)
    && P.Decoded(req.proof).Accepted?
    && var e := P.Decoded(req.proof).envelope;
    && e.count == t.count && OnlyDisclosable(e, t) && bbs(req.proof, t.bbsKey, req.nonce)
  }

  /** What a reason about the proof itself says is true of it, and the checks made before it passed. */
  predicate ProofReasonHolds(t: Template, req: Request, bbs: Verifier, reason: Reason) {
    var parsed := P.Decoded(req.proof);
    match reason
    case MalformedProof => !parsed.Accepted?
    case CountMismatch => parsed.Accepted? && parsed.envelope.count != t.count
    case NotDisclosable(i) =>
      && parsed.Accepted? && parsed.envelope.count == t.count
      && i in Elems(P.Indices(parsed.envelope.entries)) && i !in Elems(t.indices)
    case ProofFailed =>
      parsed.Accepted? && parsed.envelope.count == t.count && OnlyDisclosable(parsed.envelope, t)
      && !bbs(req.proof, t.bbsKey, req.nonce)
    case Accepted =>
      parsed.Accepted? && parsed.envelope.count == t.count && OnlyDisclosable(parsed.envelope, t)
      && bbs(req.proof, t.bbsKey, req.nonce)
    case _ => false
  }

  /** What a reason says is true of the request, and the checks made before it passed. */
  predicate ReasonHolds(s: State, maxProof: nat, req: Request, bbs: Verifier, reason: Reason) {
    if |req.proof| % TWO32 > maxProof then reason == ProofTooLarge
    else if req.credentialHash !in s.anchors then reason == NotAnchored
    else
      var a := s.anchors[req.credentialHash];
      if a.status != CredentialActive then reason == NotActive
      else if a.templateId !in s.templates then reason == TemplateMissing
      else
        var t := s.templates[a.templateId];
        if t.bbsKey == [] then reason == NoBbsKey
        else if req.pinnedHash != [] && req.pinnedHash != t.policyHash then reason == PolicyChanged
        else ProofReasonHolds(t, req, bbs, reason)
  }

  /** A valid answer is given exactly under `Discloses`; it carries the revealed indices in ascending order,
      the level they imply, and the policy they were judged under. */
  method VerifyDisclosure(s: State, maxProof: nat, req: Request, bbs: Verifier) returns (r: Reply)
    ensures r == InvalidArgument <==> req.credentialHash == [] || req.proof == []
    ensures r.Answer? ==> (r.response.valid <==> Discloses(s, maxProof, req, bbs))
    ensures r.Answer? ==> (r.response.valid <==> r.response.reason == Accepted)
    ensures r.Answer? ==> ReasonHolds(s, maxProof, req, bbs, r.response.reason)
    ensures r.Answer? && r.response.valid ==>
              var a, e := s.anchors[req.credentialHash], P.Decoded(req.proof).envelope;
              && r.response.issuerDid == a.issuerDid && r.response.templateId == a.templateId
              && r.response.policyHash == s.templates[a.templateId].policyHash
              && StrictlyAscending(r.response.revealed)
              && multiset(r.response.revealed) == multiset(P.Indices(e.entries))
              && r.response.level == if e.entries == [] then P.Predicate else P.Partial
  {
    if |req.credentialHash| == 0 || |req.proof| == 0 {
      return InvalidArgument;
    }
    if |req.proof| % TWO32 > maxProof {
      return Refused(ProofTooLarge, [], [], []);
    }
    if req.credentialHash !in s.anchors {
      return Refused(NotAnchored, [], [], []);
    }
    var anchor := s.anchors[req.credentialHash];
    if anchor.status != CredentialActive {
      return Refused(NotActive, anchor.issuerDid, anchor.templateId, []);
    }
    if anchor.templateId !in s.templates {
      return Refused(TemplateMissing, anchor.issuerDid, anchor.templateId, []);
    }
    var tmpl := s.templates[anchor.templateId];
    if |tmpl.bbsKey| == 0 {
      return Refused(NoBbsKey, anchor.issuerDid, anchor.templateId, []);
    }
    if |req.pinnedHash| != 0 && req.pinnedHash != tmpl.policyHash {
      return Refused(PolicyChanged, anchor.issuerDid, anchor.templateId, tmpl.policyHash);
    }
    r := JudgeProof(anchor, tmpl, req, bbs);
  }

  /** The checks that need the proof itself. */
  method JudgeProof(anchor: Anchor, tmpl: Template, req: Request, bbs: Verifier) returns (r: Reply)
    ensures r.Answer?
    ensures r.response.valid <==>
              && P.Decoded(req.proof).Accepted? && P.Decoded(req.proof).envelope.count == tmpl.count
              && OnlyDisclosable(P.Decoded(req.proof).envelope, tmpl)
              && bbs(req.proof, tmpl.bbsKey, req.nonce)
    ensures r.response.valid <==> r.response.reason == Accepted
    ensures ProofReasonHolds(tmpl, req, bbs, r.response.reason)
    ensures r.response.issuerDid == anchor.issuerDid && r.response.templateId == anchor.templateId
    ensures r.response.policyHash == tmpl.policyHash
    ensures r.response.valid ==>
              var e := P.Decoded(req.proof).envelope;
              && StrictlyAscending(r.response.revealed)
              && multiset(r.response.revealed) == multiset(P.Indices(e.entries))
              && r.response.level == if e.entries == [] then P.Predicate else P.Partial
  {
    var parsed := P.ParseDisclosedProof(req.proof);
    if parsed.Malformed? {
      return Refused(MalformedProof, anchor.issuerDid, anchor.templateId, tmpl.policyHash);
    }
    var disclosed := parsed.value;
    ghost var e := P.Decoded(req.proof).envelope;
    SameElements(disclosed.revealedIndices, P.Indices(e.entries));
    if disclosed.messageCount != tmpl.count {
      return Refused(CountMismatch, anchor.issuerDid, anchor.templateId, tmpl.policyHash);
    }
    var bad := FirstHidden(disclosed.revealedIndices, tmpl.indices);
    if bad < |disclosed.revealedIndices| {
      assert disclosed.revealedIndices[bad] in Elems(disclosed.revealedIndices);
      return Refused(NotDisclosable(disclosed.revealedIndices[bad]), anchor.issuerDid, anchor.templateId, tmpl.policyHash);
    }
    if !bbs(req.proof, tmpl.bbsKey, req.nonce) {
      return Refused(ProofFailed, anchor.issuerDid, anchor.templateId, tmpl.policyHash);
    }
    r := Answer(Response(true, Accepted, anchor.issuerDid, anchor.templateId, tmpl.policyHash,
                         disclosed.Level(), disclosed.revealedIndices));
  }

  /** The loop over the revealed indices: the position of the first one that may not be revealed. */
  method FirstHidden(revealed: seq<nat>, disclosable: seq<nat>) returns (k: nat)
    ensures k <= |revealed|
    ensures k == |revealed| <==> Elems(revealed) <= Elems(disclosable)
    ensures k < |revealed| ==> revealed[k] !in Elems(disclosable) && forall j :: 0 <= j < k ==> revealed[j] in Elems(disclosable)
  {
    k := 0;
    while k < |revealed|
      invariant k <= |revealed|
      invariant forall j :: 0 <= j < k ==> revealed[j] in Elems(disclosable)
    {
      var yes := IsDisclosable(disclosable, revealed[k]);
      if !yes {
        assert revealed[k] in Elems(revealed);
        return;
      }
      k := k + 1;
    }
  }

  lemma SameElements(s: seq<nat>, t: seq<nat>)
    requires multiset(s) == multiset(t)
    ensures Elems(s) == Elems(t) && |s| == |t|
  {
    assert forall x :: x in s <==> x in multiset(s);
    assert forall x :: x in t <==> x in multiset(t);
    assert |s| == |multiset(s)| && |t| == |multiset(t)|;
  }

  // ----- what validity implies

  /** A template that declares no claims admits no valid proof at all, not even one revealing nothing. */
  lemma NoClaimsNoProof(s: State, maxProof: nat, req: Request, bbs: Verifier)
    requires req.credentialHash in s.anchors && s.anchors[req.credentialHash].templateId in s.templates
    requires s.templates[s.anchors[req.credentialHash].templateId].count == 0
    ensures !Discloses(s, maxProof, req, bbs)
  {
    if P.Decoded(req.proof).Accepted? {
      P.AcceptedIsEncoded(req.proof, P.Decoded(req.proof).envelope);
    }
  }

  /** Over any run, a template's policy hash is still the one pinned at `s` exactly when the template has not
      been updated since; only the two preimages involved must not collide. */
  lemma PinMatchesIffNotUpdated(sha: Bytes -> Hash, s: State, ds: seq<Delivery>, id: Bytes)
    requires Inv(sha, s) && NoWrapRun(sha, s, ds) && id in s.templates
    requires var t := s.templates[id];
             forall x :: sha(x) == sha(Preimage(t.id, t.version, t.count, t.indices)) ==> x == Preimage(t.id, t.version, t.count, t.indices)
    ensures var end := Run(sha, s, ds);
            id in end.templates
            && (end.templates[id].policyHash == s.templates[id].policyHash <==> end.templates[id].version == s.templates[id].version)
  {
    RunKeepsAndEvolves(sha, s, ds);
    var t, t' := s.templates[id], Run(sha, s, ds).templates[id];
    assert TemplateEvolves(t, t') && GoodTemplate(sha, id, t) && GoodTemplate(sha, id, t');
    if t'.policyHash == t.policyHash {
      PreimageIsInjectivePerTemplate(id, t.version, t.count, t.indices, t'.version, t'.count, t'.indices);
    }
  }

  /** So a verifier that pinned the policy it audited is never answered "valid" under a later one, whatever
      the run did in between. */
  lemma PinnedPolicyNeverWidens(sha: Bytes -> Hash, s: State, ds: seq<Delivery>, id: Bytes, maxProof: nat, req: Request, bbs: Verifier)
    requires Inv(sha, s) && NoWrapRun(sha, s, ds) && id in s.templates
    requires var t := s.templates[id];
             forall x :: sha(x) == sha(Preimage(t.id, t.version, t.count, t.indices)) ==> x == Preimage(t.id, t.version, t.count, t.indices)
    requires req.pinnedHash == s.templates[id].policyHash != []
    requires var end := Run(sha, s, ds);
             && req.credentialHash in end.anchors && end.anchors[req.credentialHash].templateId == id
             && Discloses(end, maxProof, req, bbs)
    ensures var t, t' := s.templates[id], Run(sha, s, ds).templates[id];
            t'.version == t.version && t'.count == t.count && t'.indices == t.indices
  {
    PinMatchesIffNotUpdated(sha, s, ds, id);
    RunKeepsAndEvolves(sha, s, ds);
    assert TemplateEvolves(s.templates[id], Run(sha, s, ds).templates[id]);
  }
}
