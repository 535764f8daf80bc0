/**
 Which personal anchors a store key stands for once owners are DIDs that the identity module accepts: ValidateDID of
 x/identity/types/keys.go guards both registration and the identity genesis, and bounds a DID to 256 bytes.
 */
module PersonalAnchors {
  import opened Bytes
  import opened Credentials
  import opened CredentialsTheorems
  import opened CredentialsGenesis
  import opened CredentialsRestart

  // ----- DIDs the identity module accepts

  const MAX_DID_LEN := 256
  const DID_METHOD_PREFIX: Bytes := Ascii("did:phi:")

  predicate IdentifierByte(b: Byte) {
    || 'a' as int <= b <= 'z' as int || 'A' as int <= b <= 'Z' as int || '0' as int <= b <= '9' as int
    || b == '-' as int || b == '_' as int || b == '.' as int || b == ':' as int
  }

  predicate AcceptedDid(did: Did) {
    && |DID_METHOD_PREFIX| < |did| <= MAX_DID_LEN
    && DID_METHOD_PREFIX <= did
    && forall i :: |DID_METHOD_PREFIX| <= i < |did| ==> IdentifierByte(did[i])
  }

  method ValidateDid(did: Did) returns (ok: bool)
    ensures ok <==> AcceptedDid(did)
  {
    if |did| == 0 || |did| > MAX_DID_LEN {
      return false;
    }
    if !(DID_METHOD_PREFIX <= did) {
      return false;
    }
    var id := did[|DID_METHOD_PREFIX|..];
    if id == [] {
      return false;
    }
    for i := 0 to |id|
      invariant forall j :: |DID_METHOD_PREFIX| <= j < |DID_METHOD_PREFIX| + i ==> IdentifierByte(did[j])
    {
      if !IdentifierByte(id[i]) {
        assert did[|DID_METHOD_PREFIX| + i] == id[i];
        return false;
      }
    }
    ok := true;
  }

  /** Between owners of 1 to 256 bytes the one length byte tells the lengths apart, so no two anchors share a key. */
  lemma PersonalKeyIsInjective(o: Did, h: Hash, p: Did, g: Hash)
    requires 1 <= |o| <= MAX_DID_LEN && 1 <= |p| <= MAX_DID_LEN
    ensures PersonalKey(o, h) == PersonalKey(p, g) <==> o == p && h == g
  {
    PersonalKeyCollidesIff(o, h, p, g);
  }

  // ----- runs

  /** The identity module knows only DIDs it accepted. */
  predicate OnlyAcceptedDids(env: Env) { forall d :: d in env.docs ==> AcceptedDid(d) }

  predicate OnlyAcceptedRun(ds: seq<Delivery>) {
    forall i :: 0 <= i < |ds| ==> OnlyAcceptedDids(ds[i].env)
  }

  /** Every record is under its own key and owned by an accepted DID. */
  predicate AllAccepted(ps: map<Bytes, Personal>) {
    forall k :: k in ps ==> k == PersonalKey(ps[k].ownerDid, ps[k].hash) && AcceptedDid(ps[k].ownerDid)
  }

  predicate Among(ps: map<Bytes, Personal>, owner: Did, h: Hash) {
    exists k :: k in ps && ps[k].ownerDid == owner && ps[k].hash == h
  }

  predicate AcceptedOwners(s: State) { AllAccepted(s.personals) }

  /** This owner has anchored this hash. */
  predicate Anchored(s: State, owner: Did, h: Hash) { Among(s.personals, owner, h) }

  /** The message anchors this hash for this owner. */
  predicate Anchors(s: State, env: Env, m: Msg, owner: Did, h: Hash) {
    m.AnchorPersonal? && m.ownerDid == owner && m.hash == h && ValidateBasic(m) && OnAnchorPersonal(s, env, m).Ok?
  }

  lemma PersonalsAfter(sha: Bytes -> Hash, s: State, env: Env, m: Msg)
    ensures Step(sha, s, env, m).personals
            == if m.AnchorPersonal? && Anchors(s, env, m, m.ownerDid, m.hash)
               then s.personals[PersonalKey(m.ownerDid, m.hash) := Personal(m.ownerDid, m.hash, env.now)] else s.personals
  {}

  lemma OneMore(ps: map<Bytes, Personal>, p: Personal, o: Did, h: Hash)
    requires AllAccepted(ps) && AcceptedDid(p.ownerDid) && PersonalKey(p.ownerDid, p.hash) !in ps
    ensures var ps' := ps[PersonalKey(p.ownerDid, p.hash) := p];
            AllAccepted(ps') && (Among(ps', o, h) <==> Among(ps, o, h) || (o == p.ownerDid && h == p.hash))
  {
    var k := PersonalKey(p.ownerDid, p.hash);
    var ps' := ps[k := p];
    assert k in ps' && ps'[k] == p;
    if Among(ps, o, h) {
      var j :| j in ps && ps[j].ownerDid == o && ps[j].hash == h;
      assert j in ps' && ps'[j] == ps[j];
    }
  }

  lemma StepKeepsOwners(sha: Bytes -> Hash, s: State, env: Env, m: Msg, o: Did, h: Hash)
    requires AcceptedOwners(s) && OnlyAcceptedDids(env)
    ensures AcceptedOwners(Step(sha, s, env, m))
    ensures Anchored(Step(sha, s, env, m), o, h) <==> Anchored(s, o, h) || Anchors(s, env, m, o, h)
  {
    PersonalsAfter(sha, s, env, m);
    if m.AnchorPersonal? && Anchors(s, env, m, m.ownerDid, m.hash) {
      OneMore(s.personals, Personal(m.ownerDid, m.hash, env.now), o, h);
    }
  }

  /** Anchors of accepted owners stay, and an anchor is never undone. */
  lemma {:induction false} RunKeepsOwners(sha: Bytes -> Hash, s: State, ds: seq<Delivery>, o: Did, h: Hash)
    requires AcceptedOwners(s) && OnlyAcceptedRun(ds)
    ensures AcceptedOwners(Run(sha, s, ds))
    ensures Anchored(s, o, h) ==> Anchored(Run(sha, s, ds), o, h)
    decreases |ds|
  {
    if ds != [] {
      StepKeepsOwners(sha, s, ds[0].env, ds[0].msg, o, h);
      RunKeepsOwners(sha, Step(sha, s, ds[0].env, ds[0].msg), ds[1..], o, h);
    }
  }

  lemma ExistsIff(s: State, owner: Did, h: Hash)
    requires AcceptedOwners(s) && AcceptedDid(owner)
    ensures PersonalKey(owner, h) in s.personals <==> Anchored(s, owner, h)
  {
    var k := PersonalKey(owner, h);
    if k in s.personals {
      PersonalKeyIsInjective(owner, h, s.personals[k].ownerDid, s.personals[k].hash);
    }
  }

  /** After any run over accepted DIDs, a DID's controller is refused an anchor as existing exactly when that very
      owner has already anchored that very hash. */
  lemma OnlyRepeatsAreRefused(sha: Bytes -> Hash, s: State, ds: seq<Delivery>, env: Env, m: Msg)
    requires AcceptedOwners(s) && OnlyAcceptedRun(ds) && OnlyAcceptedDids(env)
    requires m.AnchorPersonal? && Auth(env, m.ownerDid, m.owner).Ok?
    ensures var end := Run(sha, s, ds);
            OnAnchorPersonal(end, env, m) == Err(PersonalAnchorExists) <==> Anchored(end, m.ownerDid, m.hash)
  {
    RunKeepsOwners(sha, s, ds, m.ownerDid, m.hash);
    ExistsIff(Run(sha, s, ds), m.ownerDid, m.hash);
  }

  // ----- owners that no one checked

  /** Without a check on owners: refused as existing exactly when some stored anchor's owner differs in length by a
      multiple of 256 and owner and hash read the same end to end. */
  lemma RefusedIff(s: State, env: Env, m: Msg)
    requires GoodPersonals(s.personals) && m.AnchorPersonal? && Auth(env, m.ownerDid, m.owner).Ok?
    ensures OnAnchorPersonal(s, env, m) == Err(PersonalAnchorExists)
       <==> exists k :: k in s.personals && |s.personals[k].ownerDid| % 256 == |m.ownerDid| % 256
                        && s.personals[k].ownerDid + s.personals[k].hash == m.ownerDid + m.hash
  {
    forall k | k in s.personals
      ensures k == PersonalKey(m.ownerDid, m.hash)
         <==> |s.personals[k].ownerDid| % 256 == |m.ownerDid| % 256
              && s.personals[k].ownerDid + s.personals[k].hash == m.ownerDid + m.hash
    {
      PersonalKeyParts(s.personals[k].ownerDid, s.personals[k].hash, m.ownerDid, m.hash);
    }
  }

  /** The credentials genesis does not check owners: it admits one 256 bytes longer than an accepted DID, which then
      blocks an anchor that DID has never made. */
  lemma ImportedOwnerBlocksAnother(sha: Bytes -> Hash, env: Env)
    requires env.docs == map[Ascii("did:phi:a") := Doc(true, [3], [4])] && env.verify == ((_, _, _) => true)
    ensures var o := Ascii("did:phi:a");
            var g, m := Genesis(5, [], [], [], [Personal(o + MID, [9], 0)]), AnchorPersonal([3], o, MID + [9], [0]);
            && OnlyAcceptedDids(env) && GenesisOk(sha, g) && ValidateBasic(m)
            && !Anchored(Imported(g), o, MID + [9])
            && OnAnchorPersonal(Imported(g), env, m) == Err(PersonalAnchorExists)
            && OnAnchorPersonal(EMPTY, env, m).Ok?
  {
    var o := Ascii("did:phi:a");
    var p := Personal(o + MID, [9], 0);
    assert AcceptedDid(o) by {
      assert o[8] == 'a' as int;
      assert o[..8] == DID_METHOD_PREFIX;
    }
    assert o + (MID + [9]) == (o + MID) + [9] && |o + MID| == |o| + 256;
    assert PersonalKey(o, MID + [9]) == PersonalKeyOf(p);
    assert [p][..0] == [];
    assert Loaded([p], PersonalKeyOf) == map[PersonalKeyOf(p) := p];
  }

  /** A validated genesis whose owners are accepted DIDs loses no anchor: its import exports back to it. */
  lemma AcceptedOwnersImportWhole(sha: Bytes -> Hash, g: Genesis)
    requires GenesisOk(sha, g) && forall i :: 0 <= i < |g.personals| ==> AcceptedDid(g.personals[i].ownerDid)
    ensures IsExport(Imported(g), g) && AcceptedOwners(Imported(g))
  {
    forall i, j | 0 <= i < j < |g.personals|
      ensures PersonalKeyOf(g.personals[i]) != PersonalKeyOf(g.personals[j])
    {
      var p, q := g.personals[i], g.personals[j];
      PersonalKeyIsInjective(p.ownerDid, p.hash, q.ownerDid, q.hash);
    }
    ExportUndoesImportIff(sha, g);
    forall k | k in Imported(g).personals
      ensures var p := Imported(g).personals[k]; k == PersonalKey(p.ownerDid, p.hash) && AcceptedDid(p.ownerDid)
    {
      LoadedAny(g.personals, PersonalKeyOf, k);
    }
  }
}
