/**
 Genesis of the credentials module: the checks of x/credentials/types/genesis.go and the import and export
 of x/credentials/keeper/genesis.go.
 */
module CredentialsGenesis {
  import opened Bytes
  import opened Sorting
  import opened Policy
  import opened Credentials
  import opened CredentialsTheorems

  datatype Genesis = Genesis(
    maxSigners: nat, templates: seq<Template>, anchors: seq<Anchor>, agreements: seq<Agreement>, personals: seq<Personal>)

  // ----- what validation demands

  function HexDigit(n: nat): Byte
    requires n < 16
  {
    if n < 10 then 0x30 + n else 0x57 + n
  }

  /** hex.EncodeToString */
  function Hex(b: Bytes): Bytes {
    if b == [] then [] else [HexDigit(b[0] / 16), HexDigit(b[0] % 16)] + Hex(b[1..])
  }

  /** The duplicate-detection key of a personal anchor: owner, "/", hexadecimal hash. */
  function SeenKey(p: Personal): Bytes { p.ownerDid + ([0x2f] + Hex(p.hash)) }

  predicate TemplateOk(sha: Bytes -> Hash, t: Template) {
    t.id != [] && ValidPolicy(t.count, t.indices) && t.policyHash == PolicyHashOf(sha, t)
  }

  predicate TemplatesOk(sha: Bytes -> Hash, ts: seq<Template>) {
    && (forall i :: 0 <= i < |ts| ==> TemplateOk(sha, ts[i]))
    && (forall i, j :: 0 <= i < j < |ts| ==> ts[i].id != ts[j].id)
  }

  predicate KnownTemplate(ts: seq<Template>, a: Anchor) {
    exists k :: 0 <= k < |ts| && ts[k].id == a.templateId && a.version <= ts[k].version
  }

  predicate AnchorsOk(ts: seq<Template>, as_: seq<Anchor>) {
    && (forall i :: 0 <= i < |as_| ==> as_[i].hash != [] && KnownTemplate(ts, as_[i]))
    && (forall i, j :: 0 <= i < j < |as_| ==> as_[i].hash != as_[j].hash)
  }

  predicate AgreementOk(a: Agreement, maxSigners: nat) {
    && a.hash != [] && a.required != [] && |a.required| % TWO32 <= maxSigners
    && Elems(Signers(a)) <= Elems(a.required) && Distinct(Signers(a))
  }

  predicate AgreementsOk(ags: seq<Agreement>, maxSigners: nat) {
    && (forall i :: 0 <= i < |ags| ==> AgreementOk(ags[i], maxSigners))
    && (forall i, j :: 0 <= i < j < |ags| ==> ags[i].hash != ags[j].hash)
  }

  predicate PersonalsOk(ps: seq<Personal>) {
    && (forall i :: 0 <= i < |ps| ==> ps[i].ownerDid != [] && ps[i].hash != [])
    && (forall i, j :: 0 <= i < j < |ps| ==> (ps[i].ownerDid, ps[i].hash) != (ps[j].ownerDid, ps[j].hash))
  }

  predicate GenesisOk(sha: Bytes -> Hash, g: Genesis) {
    && g.maxSigners > 0
    && TemplatesOk(sha, g.templates) && AnchorsOk(g.templates, g.anchors)
    && AgreementsOk(g.agreements, g.maxSigners) && PersonalsOk(g.personals)
  }

  // ----- the duplicate-detection keys are injective

  lemma {:induction false} HexIsInjective(a: Bytes, b: Bytes)
    requires Hex(a) == Hex(b)
    ensures a == b
  {
    if a != [] && b != [] {
      assert Hex(a)[0] == HexDigit(a[0] / 16) && Hex(a)[1] == HexDigit(a[0] % 16) && Hex(a)[2..] == Hex(a[1..]);
      assert Hex(b)[0] == HexDigit(b[0] / 16) && Hex(b)[1] == HexDigit(b[0] % 16) && Hex(b)[2..] == Hex(b[1..]);
      assert a[0] == a[0] / 16 * 16 + a[0] % 16 && b[0] == b[0] / 16 * 16 + b[0] % 16;
      HexIsInjective(a[1..], b[1..]);
      assert a == [a[0]] + a[1..] && b == [b[0]] + b[1..];
    }
  }

  lemma {:induction false} HexHasNoSlash(b: Bytes)
    ensures 0x2f !in Hex(b)
  {
    if b != [] { HexHasNoSlash(b[1..]); }
  }

  lemma LastSlash(o: Bytes, x: Bytes, p: Bytes, y: Bytes)
    requires 0x2f !in x && o + ([0x2f] + x) == p + ([0x2f] + y)
    ensures |x| <= |y|
  {
    var l := o + ([0x2f] + x);
    assert (p + ([0x2f] + y))[|p|] == 0x2f;
    assert forall k :: |o| < k < |l| ==> l[k] == x[k - |o| - 1] != 0x2f;
  }

  lemma SeenKeyIsInjective(p: Personal, q: Personal)
    requires SeenKey(p) == SeenKey(q)
    ensures p.ownerDid == q.ownerDid && p.hash == q.hash
  {
    var x, y := Hex(p.hash), Hex(q.hash);
    HexHasNoSlash(p.hash);
    HexHasNoSlash(q.hash);
    LastSlash(p.ownerDid, x, q.ownerDid, y);
    LastSlash(q.ownerDid, y, p.ownerDid, x);
    assert SeenKey(p)[..|p.ownerDid|] == p.ownerDid && SeenKey(q)[..|q.ownerDid|] == q.ownerDid;
    assert SeenKey(p)[|p.ownerDid| + 1..] == x && SeenKey(q)[|q.ownerDid| + 1..] == y;
    HexIsInjective(p.hash, q.hash);
  }

  // ----- the validation loops

  method ValidateTemplate(sha: Bytes -> Hash, t: Template) returns (ok: bool)
    ensures ok <==> TemplateOk(sha, t)
  {
    if t.id == [] {
      return false;
    }
    var valid := ValidateDisclosurePolicy(t.count, t.indices);
    if !valid {
      return false;
    }
    var preimage := WritePreimage(t.id, t.version, t.count, t.indices);
    ok := t.policyHash == sha(preimage);
  }

  method ValidateTemplates(sha: Bytes -> Hash, ts: seq<Template>) returns (ok: bool, known: map<Bytes, nat>)
    ensures ok <==> TemplatesOk(sha, ts)
    ensures ok ==> Indexes(known, ts)
  {
    known := map[];
    for i := 0 to |ts|
      invariant TemplatesOk(sha, ts[..i])
      invariant forall id :: id in known <==> exists k :: 0 <= k < i && ts[k].id == id
      invariant forall k :: 0 <= k < i ==> ts[k].id in known && known[ts[k].id] == ts[k].version
    {
      var t := ts[i];
      if t.id in known {
        return false, known;
      }
      var valid := ValidateTemplate(sha, t);
      if !valid {
        return false, known;
      }
      known := known[t.id := t.version];
    }
    assert ts[..|ts|] == ts;
    ok := true;
  }

  /** `known` maps each template id to its version. */
  ghost predicate Indexes(known: map<Bytes, nat>, ts: seq<Template>) {
    && (forall id :: id in known <==> exists k :: 0 <= k < |ts| && ts[k].id == id)
    && (forall k :: 0 <= k < |ts| ==> ts[k].id in known && known[ts[k].id] == ts[k].version)
  }

  method CheckTemplateOf(ts: seq<Template>, known: map<Bytes, nat>, a: Anchor) returns (ok: bool)
    requires Indexes(known, ts)
    ensures ok <==> KnownTemplate(ts, a)
  {
    if a.templateId !in known {
      return false;
    } else if a.version > known[a.templateId] {
      return false;
    }
    assert KnownTemplate(ts, a) by {
      var k :| 0 <= k < |ts| && ts[k].id == a.templateId;
    }
    ok := true;
  }

  lemma AnchorsGrow(ts: seq<Template>, as_: seq<Anchor>, i: nat)
    requires i < |as_| && AnchorsOk(ts, as_[..i]) && as_[i].hash != [] && KnownTemplate(ts, as_[i])
    requires forall k :: 0 <= k < i ==> as_[k].hash != as_[i].hash
    ensures AnchorsOk(ts, as_[..i+1])
  {
    var next := as_[..i+1];
    assert forall k :: 0 <= k < i ==> next[k] == as_[..i][k];
  }

  /** The hexadecimal hashes of the first i anchors. */
  ghost predicate SeenHashes(seen: set<Bytes>, as_: seq<Anchor>, i: nat)
    requires i <= |as_|
  {
    forall x :: x in seen <==> exists k :: 0 <= k < i && Hex(as_[k].hash) == x
  }

  lemma SeenMeansEqualHash(seen: set<Bytes>, as_: seq<Anchor>, i: nat)
    requires i < |as_| && SeenHashes(seen, as_, i)
    ensures Hex(as_[i].hash) in seen <==> exists k :: 0 <= k < i && as_[k].hash == as_[i].hash
    ensures SeenHashes(seen + {Hex(as_[i].hash)}, as_, i + 1)
  {
    if Hex(as_[i].hash) in seen {
      var k :| 0 <= k < i && Hex(as_[k].hash) == Hex(as_[i].hash);
      HexIsInjective(as_[k].hash, as_[i].hash);
    }
  }

  method ValidateAnchors(ts: seq<Template>, known: map<Bytes, nat>, as_: seq<Anchor>) returns (ok: bool)
    requires Indexes(known, ts)
    ensures ok <==> AnchorsOk(ts, as_)
  {
    var seen: set<Bytes> := {};
    for i := 0 to |as_|
      invariant AnchorsOk(ts, as_[..i])
      invariant SeenHashes(seen, as_, i)
    {
      var a := as_[i];
      if |a.hash| == 0 {
        return false;
      }
      SeenMeansEqualHash(seen, as_, i);
      if Hex(a.hash) in seen {
        return false;
      }
      seen := seen + {Hex(a.hash)};
      var known' := CheckTemplateOf(ts, known, a);
      if !known' {
        return false;
      }
      AnchorsGrow(ts, as_, i);
    }
    assert as_[..|as_|] == as_;
    ok := true;
  }

  method ValidateAgreement(a: Agreement, maxSigners: nat) returns (ok: bool)
    ensures ok <==> AgreementOk(a, maxSigners)
  {
    if |a.hash| == 0 || |a.required| == 0 || |a.required| % TWO32 > maxSigners {
      return false;
    }
    var required: set<Did> := Elems(a.required);
    var signed: set<Did> := {};
    for i := 0 to |a.signatures|
      invariant signed == Elems(Signers(a)[..i]) && signed <= required && Distinct(Signers(a)[..i])
    {
      var did := a.signatures[i].did;
      assert Signers(a)[..i+1] == Signers(a)[..i] + [did];
      if did !in required {
        assert Signers(a)[i] == did;
        return false;
      }
      if did in signed {
        var j :| 0 <= j < i && Signers(a)[..i][j] == did;
        assert Signers(a)[j] == Signers(a)[i];
        return false;
      }
      signed := signed + {did};
    }
    assert Signers(a)[..|a.signatures|] == Signers(a);
    ok := true;
  }

  method ValidateAgreements(ags: seq<Agreement>, maxSigners: nat) returns (ok: bool)
    ensures ok <==> AgreementsOk(ags, maxSigners)
  {
    var seen: set<Bytes> := {};
    for i := 0 to |ags|
      invariant AgreementsOk(ags[..i], maxSigners)
      invariant forall x :: x in seen <==> exists k :: 0 <= k < i && Hex(ags[k].hash) == x
    {
      var key := Hex(ags[i].hash);
      if key in seen {
        var k :| 0 <= k < i && Hex(ags[k].hash) == key;
        HexIsInjective(ags[k].hash, ags[i].hash);
        return false;
      }
      seen := seen + {key};
      var good := ValidateAgreement(ags[i], maxSigners);
      if !good {
        return false;
      }
    }
    assert ags[..|ags|] == ags;
    ok := true;
  }

  method ValidatePersonals(ps: seq<Personal>) returns (ok: bool)
    ensures ok <==> PersonalsOk(ps)
  {
    var seen: set<Bytes> := {};
    for i := 0 to |ps|
      invariant PersonalsOk(ps[..i])
      invariant forall x :: x in seen <==> exists k :: 0 <= k < i && SeenKey(ps[k]) == x
    {
      if ps[i].ownerDid == [] || |ps[i].hash| == 0 {
        return false;
      }
      var key := SeenKey(ps[i]);
      if key in seen {
        var k :| 0 <= k < i && SeenKey(ps[k]) == key;
        SeenKeyIsInjective(ps[k], ps[i]);
        return false;
      }
      seen := seen + {key};
    }
    assert ps[..|ps|] == ps;
    ok := true;
  }

  method Validate(sha: Bytes -> Hash, g: Genesis) returns (ok: bool)
    ensures ok <==> GenesisOk(sha, g)
  {
    if g.maxSigners == 0 {
      return false;
    }
    var known;
    ok, known := ValidateTemplates(sha, g.templates);
    if !ok {
      return false;
    }
    ok := ValidateAnchors(g.templates, known, g.anchors);
    if !ok {
      return false;
    }
    ok := ValidateAgreements(g.agreements, g.maxSigners);
    if !ok {
      return false;
    }
    ok := ValidatePersonals(g.personals);
  }

  // ----- import and export

  /** Setting every record of a list under its key. */
  function Loaded<K, V>(l: seq<V>, key: V -> K): map<K, V>
    decreases |l|
  {
    if l == [] then map[] else Loaded(l[..|l|-1], key)[key(l[|l|-1]) := l[|l|-1]]
  }

  method Load<K, V>(l: seq<V>, key: V -> K) returns (m: map<K, V>)
    ensures m == Loaded(l, key)
  {
    m := map[];
    for i := 0 to |l|
      invariant m == Loaded(l[..i], key)
    {
      assert l[..i+1][..i] == l[..i];
      m := m[key(l[i]) := l[i]];
    }
    assert l[..|l|] == l;
  }

  function TemplateKeyOf(t: Template): Bytes { t.id }
  function AnchorKeyOf(a: Anchor): Hash { a.hash }
  function AgreementKeyOf(a: Agreement): Hash { a.hash }
  function PersonalKeyOf(p: Personal): Bytes { PersonalKey(p.ownerDid, p.hash) }

  /** InitGenesis on a validated genesis. */
  function Imported(g: Genesis): State {
    State(g.maxSigners, Loaded(g.templates, TemplateKeyOf), Loaded(g.anchors, AnchorKeyOf),
          Loaded(g.agreements, AgreementKeyOf), Loaded(g.personals, PersonalKeyOf))
  }

  method InitGenesis(sha: Bytes -> Hash, g: Genesis) returns (ok: bool, s: State)
    ensures ok <==> GenesisOk(sha, g)
    ensures ok ==> s == Imported(g)
  {
    ok := Validate(sha, g);
    if !ok {
      return false, EMPTY;
    }
    var ts := Load(g.templates, TemplateKeyOf);
    var as_ := Load(g.anchors, AnchorKeyOf);
    var ags := Load(g.agreements, AgreementKeyOf);
    var ps := Load(g.personals, PersonalKeyOf);
    s := State(g.maxSigners, ts, as_, ags, ps);
  }

  /** `l` lists each record of `m` once, in some order; each record knows its own key. */
  ghost predicate Lists<K(!new), V(!new)>(m: map<K, V>, l: seq<V>, key: V -> K) {
    && (forall i :: 0 <= i < |l| ==> key(l[i]) in m && m[key(l[i])] == l[i])
    && (forall i, j :: 0 <= i < j < |l| ==> key(l[i]) != key(l[j]))
    && (forall k :: k in m ==> exists i :: 0 <= i < |l| && key(l[i]) == k)
  }

  lemma {:induction false} LoadedRecords<K(!new), V(!new)>(l: seq<V>, key: V -> K)
    requires forall i, j :: 0 <= i < j < |l| ==> key(l[i]) != key(l[j])
    ensures forall i :: 0 <= i < |l| ==> key(l[i]) in Loaded(l, key) && Loaded(l, key)[key(l[i])] == l[i]
    ensures forall k :: k in Loaded(l, key) ==> exists i :: 0 <= i < |l| && key(l[i]) == k
    decreases |l|
  {
    if l != [] {
      var n := |l| - 1;
      var init := l[..n];
      assert forall i :: 0 <= i < n ==> init[i] == l[i];
      LoadedRecords(init, key);
      forall k | k in Loaded(l, key)
        ensures exists i :: 0 <= i < |l| && key(l[i]) == k
      {
        if k != key(l[n]) {
          var i :| 0 <= i < n && key(init[i]) == k;
          assert key(l[i]) == k;
        }
      }
    }
  }

  lemma LoadUndoesListing<K(!new), V(!new)>(m: map<K, V>, l: seq<V>, key: V -> K)
    requires Lists(m, l, key)
    ensures Loaded(l, key) == m
  {
    LoadedRecords(l, key);
    forall k | k in m
      ensures k in Loaded(l, key) && Loaded(l, key)[k] == m[k]
    {
      var i :| 0 <= i < |l| && key(l[i]) == k;
      assert Loaded(l, key)[key(l[i])] == l[i];
    }
  }

  /** ExportGenesis collects every record. */
  ghost predicate IsExport(s: State, g: Genesis) {
    && g.maxSigners == s.maxSigners
    && Lists(s.templates, g.templates, TemplateKeyOf) && Lists(s.anchors, g.anchors, AnchorKeyOf)
    && Lists(s.agreements, g.agreements, AgreementKeyOf) && Lists(s.personals, g.personals, PersonalKeyOf)
  }

  /** Importing an export gives back exactly the state it was taken from, with no condition on the length of
      owner DIDs: colliding personal anchors never get into the store to begin with. */
  lemma ImportUndoesExport(s: State, g: Genesis)
    requires IsExport(s, g)
    ensures Imported(g) == s
  {
    LoadUndoesListing(s.templates, g.templates, TemplateKeyOf);
    LoadUndoesListing(s.anchors, g.anchors, AnchorKeyOf);
    LoadUndoesListing(s.agreements, g.agreements, AgreementKeyOf);
    LoadUndoesListing(s.personals, g.personals, PersonalKeyOf);
  }

  lemma ExportedTemplates(sha: Bytes -> Hash, s: State, g: Genesis)
    requires Inv(sha, s) && IsExport(s, g)
    ensures TemplatesOk(sha, g.templates) && AnchorsOk(g.templates, g.anchors)
  {
    forall i | 0 <= i < |g.templates|
      ensures TemplateOk(sha, g.templates[i])
    {
      assert GoodTemplate(sha, TemplateKeyOf(g.templates[i]), g.templates[i]);
    }
    forall i, j | 0 <= i < j < |g.templates|
      ensures g.templates[i].id != g.templates[j].id
    {
      assert TemplateKeyOf(g.templates[i]) != TemplateKeyOf(g.templates[j]);
    }
    forall i | 0 <= i < |g.anchors|
      ensures g.anchors[i].hash != [] && KnownTemplate(g.templates, g.anchors[i])
    {
      var a := g.anchors[i];
      assert GoodAnchor(s.templates, AnchorKeyOf(a), a);
      var k :| 0 <= k < |g.templates| && TemplateKeyOf(g.templates[k]) == a.templateId;
      assert g.templates[k].id == a.templateId && a.version <= g.templates[k].version;
    }
    forall i, j | 0 <= i < j < |g.anchors|
      ensures g.anchors[i].hash != g.anchors[j].hash
    {
      assert AnchorKeyOf(g.anchors[i]) != AnchorKeyOf(g.anchors[j]);
    }
  }

  lemma ExportedPersonals(sha: Bytes -> Hash, s: State, g: Genesis)
    requires Inv(sha, s) && IsExport(s, g)
    ensures PersonalsOk(g.personals)
  {
    forall i | 0 <= i < |g.personals|
      ensures g.personals[i].ownerDid != [] && g.personals[i].hash != []
    {
      assert GoodPersonal(PersonalKeyOf(g.personals[i]), g.personals[i]);
    }
    forall i, j | 0 <= i < j < |g.personals|
      ensures (g.personals[i].ownerDid, g.personals[i].hash) != (g.personals[j].ownerDid, g.personals[j].hash)
    {
      assert PersonalKeyOf(g.personals[i]) != PersonalKeyOf(g.personals[j]);
    }
  }

  predicate SignersFit(s: State) {
    forall h :: h in s.agreements ==> |s.agreements[h].required| % TWO32 <= s.maxSigners
  }

  lemma ExportedAgreementsIff(sha: Bytes -> Hash, s: State, g: Genesis)
    requires Inv(sha, s) && IsExport(s, g)
    ensures AgreementsOk(g.agreements, g.maxSigners) <==> SignersFit(s)
  {
    forall i, j | 0 <= i < j < |g.agreements|
      ensures g.agreements[i].hash != g.agreements[j].hash
    {
      assert AgreementKeyOf(g.agreements[i]) != AgreementKeyOf(g.agreements[j]);
    }
    forall i | 0 <= i < |g.agreements|
      ensures AgreementOk(g.agreements[i], g.maxSigners) <==> |g.agreements[i].required| % TWO32 <= s.maxSigners
    {
      assert GoodAgreement(AgreementKeyOf(g.agreements[i]), g.agreements[i]);
    }
    if AgreementsOk(g.agreements, g.maxSigners) {
      forall h | h in s.agreements
        ensures |s.agreements[h].required| % TWO32 <= s.maxSigners
      {
        var i :| 0 <= i < |g.agreements| && AgreementKeyOf(g.agreements[i]) == h;
        assert AgreementOk(g.agreements[i], g.maxSigners);
      }
    }
    if SignersFit(s) {
      forall i | 0 <= i < |g.agreements|
        ensures AgreementOk(g.agreements[i], g.maxSigners)
      {
        assert AgreementKeyOf(g.agreements[i]) in s.agreements;
      }
    }
  }

  /** The export of a reachable state validates exactly when no agreement has more required signers than the
      cap now in force. */
  lemma ExportValidatesIff(sha: Bytes -> Hash, s: State, g: Genesis)
    requires Inv(sha, s) && IsExport(s, g)
    ensures GenesisOk(sha, g) <==> SignersFit(s)
  {
    ExportedTemplates(sha, s, g);
    ExportedPersonals(sha, s, g);
    ExportedAgreementsIff(sha, s, g);
  }
}
