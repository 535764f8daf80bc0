/**
 The credentials module across a restart: when a run's export validates and imports back, and what a validated genesis
 does and does not guarantee.
 */
module CredentialsRestart {
  import opened Bytes
  import opened Sorting
  import opened Credentials
  import opened CredentialsTheorems
  import opened CredentialsGenesis

  // ----- runs that never lower the signer cap

  /** An accepted parameter update keeps the cap at least where it is. */
  predicate CapKept(sha: Bytes -> Hash, s: State, env: Env, m: Msg) {
    m.UpdateParams? && OnUpdateParams(s, env, m).Ok? ==> s.maxSigners <= m.maxSigners
  }

  predicate CapNeverLowered(sha: Bytes -> Hash, s: State, ds: seq<Delivery>)
    decreases |ds|
  {
    ds == [] || (CapKept(sha, s, ds[0].env, ds[0].msg)
                 && CapNeverLowered(sha, Step(sha, s, ds[0].env, ds[0].msg), ds[1..]))
  }

  lemma StepKeepsSigners(sha: Bytes -> Hash, s: State, env: Env, m: Msg)
    requires GoodAgreements(s.agreements) && SignersFit(s) && CapKept(sha, s, env, m)
    ensures SignersFit(Step(sha, s, env, m))
  {}

  lemma {:induction false} RunKeepsSigners(sha: Bytes -> Hash, s: State, ds: seq<Delivery>)
    requires Inv(sha, s) && NoWrapRun(sha, s, ds) && SignersFit(s) && CapNeverLowered(sha, s, ds)
    ensures SignersFit(Run(sha, s, ds))
    decreases |ds|
  {
    if ds != [] {
      StepForward(sha, s, ds[0].env, ds[0].msg);
      StepKeepsSigners(sha, s, ds[0].env, ds[0].msg);
      RunKeepsSigners(sha, Step(sha, s, ds[0].env, ds[0].msg), ds[1..]);
    }
  }

  /** As long as the signer cap is not lowered, every run ends in a state whose export validates and imports back. */
  lemma RunExportsAndReimports(sha: Bytes -> Hash, s: State, ds: seq<Delivery>, g: Genesis)
    requires Inv(sha, s) && NoWrapRun(sha, s, ds) && SignersFit(s) && CapNeverLowered(sha, s, ds)
    requires IsExport(Run(sha, s, ds), g)
    ensures GenesisOk(sha, g) && Imported(g) == Run(sha, s, ds)
  {
    RunKeepsAndEvolves(sha, s, ds);
    RunKeepsSigners(sha, s, ds);
    ExportValidatesIff(sha, Run(sha, s, ds), g);
    ImportUndoesExport(Run(sha, s, ds), g);
  }

  /** From the empty genesis, fewer than 2^32 messages and a cap never lowered are all it takes. */
  lemma EveryReachableStateRestarts(sha: Bytes -> Hash, ds: seq<Delivery>, g: Genesis)
    requires |ds| < TWO32 && CapNeverLowered(sha, EMPTY, ds) && IsExport(Run(sha, EMPTY, ds), g)
    ensures GenesisOk(sha, g) && Imported(g) == Run(sha, EMPTY, ds)
  {
    EmptyIsGood(sha);
    ShortRunsNeverWrap(sha, EMPTY, ds, 0);
    RunExportsAndReimports(sha, EMPTY, ds, g);
  }

  lemma RunOfTwo(sha: Bytes -> Hash, s: State, d: Delivery, d': Delivery)
    ensures Run(sha, s, [d, d']) == Step(sha, Step(sha, s, d.env, d.msg), d'.env, d'.msg)
  {
    assert [d, d'][1..] == [d'] && [d'][1..] == [];
    assert Run(sha, Step(sha, s, d.env, d.msg), [d']) == Step(sha, Step(sha, s, d.env, d.msg), d'.env, d'.msg);
  }

  /** Create an agreement for two, then lower the cap to one: every export of the result is refused. */
  lemma LoweredCapRefusesExport(sha: Bytes -> Hash, g: Genesis)
    requires var env := Env(0, map[], (_, _, _) => true, [7]);
             var ds := [Delivery(env, CreateAgreement([6], [5], [[1], [2]], 0)), Delivery(env, UpdateParams([7], 1))];
             IsExport(Run(sha, EMPTY, ds), g)
    ensures !GenesisOk(sha, g)
  {
    var env := Env(0, map[], (_, _, _) => true, [7]);
    var d0, d1 := Delivery(env, CreateAgreement([6], [5], [[1], [2]], 0)), Delivery(env, UpdateParams([7], 1));
    var a := Agreement([5], [6], [[1], [2]], [], 0, Pending, 0);
    var s1 := EMPTY.(agreements := map[[5] := a]);
    assert Step(sha, EMPTY, env, d0.msg) == s1;
    assert Step(sha, s1, env, d1.msg) == s1.(maxSigners := 1);
    RunOfTwo(sha, EMPTY, d0, d1);
    RunFromEmpty(sha, [d0, d1]);
    ExportValidatesIff(sha, s1.(maxSigners := 1), g);
    assert [5] in s1.agreements && |s1.agreements[[5]].required| == 2;
  }

  // ----- what validation leaves unchecked

  /** What the registry invariant asks of an agreement beyond what validation tests. */
  predicate Settled(a: Agreement) {
    && Distinct(a.required)
    && (forall i :: 0 <= i < |a.signatures| && a.deadline != 0 ==> a.signatures[i].at <= a.deadline)
    && (a.status == Pending || a.status == Completed || a.status == Cancelled)
    && (a.status == Completed <==> AllSigned(a))
  }

  lemma LoadedLists<K(!new), V(!new)>(l: seq<V>, key: V -> K)
    requires forall i, j :: 0 <= i < j < |l| ==> key(l[i]) != key(l[j])
    ensures Lists(Loaded(l, key), l, key)
  {
    LoadedRecords(l, key);
  }

  /** Every key of a loaded map holds some listed record of that key. */
  lemma {:induction false} LoadedAny<K(!new), V(!new)>(l: seq<V>, key: V -> K, k: K)
    requires k in Loaded(l, key)
    ensures exists i :: 0 <= i < |l| && key(l[i]) == k && Loaded(l, key)[k] == l[i]
    decreases |l|
  {
    var n := |l| - 1;
    if key(l[n]) != k {
      LoadedAny(l[..n], key, k);
      var i :| 0 <= i < n && key(l[..n][i]) == k && Loaded(l[..n], key)[k] == l[..n][i];
      assert l[i] == l[..n][i];
    }
  }

  lemma ListedTemplate(g: Genesis, k: nat)
    requires k < |g.templates| && forall i, j :: 0 <= i < j < |g.templates| ==> g.templates[i].id != g.templates[j].id
    ensures g.templates[k].id in Imported(g).templates && Imported(g).templates[g.templates[k].id] == g.templates[k]
  {
    assert forall i, j :: 0 <= i < j < |g.templates| ==> TemplateKeyOf(g.templates[i]) != TemplateKeyOf(g.templates[j]);
    LoadedLists(g.templates, TemplateKeyOf);
    assert TemplateKeyOf(g.templates[k]) in Imported(g).templates;
  }

  lemma ImportedTemplatesGood(sha: Bytes -> Hash, g: Genesis)
    requires GenesisOk(sha, g)
    ensures GoodTemplates(sha, Imported(g).templates) <==> forall i :: 0 <= i < |g.templates| ==> g.templates[i].version < TWO32
  {
    var ts := Imported(g).templates;
    forall i: nat | i < |g.templates|
      ensures g.templates[i].id in ts && ts[g.templates[i].id] == g.templates[i]
      ensures GoodTemplate(sha, g.templates[i].id, g.templates[i]) <==> g.templates[i].version < TWO32
    {
      ListedTemplate(g, i);
      assert TemplateOk(sha, g.templates[i]);
    }
    forall id | id in ts
      ensures exists i :: 0 <= i < |g.templates| && g.templates[i].id == id && ts[id] == g.templates[i]
    {
      LoadedAny(g.templates, TemplateKeyOf, id);
    }
  }

  lemma ImportedAnchorGood(g: Genesis, h: Hash)
    requires AnchorsOk(g.templates, g.anchors) && h in Imported(g).anchors
    requires forall i, j :: 0 <= i < j < |g.templates| ==> g.templates[i].id != g.templates[j].id
    ensures GoodAnchor(Imported(g).templates, h, Imported(g).anchors[h])
  {
    LoadedAny(g.anchors, AnchorKeyOf, h);
    var i :| 0 <= i < |g.anchors| && AnchorKeyOf(g.anchors[i]) == h && Imported(g).anchors[h] == g.anchors[i];
    var a := g.anchors[i];
    assert KnownTemplate(g.templates, a);
    var k :| 0 <= k < |g.templates| && g.templates[k].id == a.templateId && a.version <= g.templates[k].version;
    ListedTemplate(g, k);
  }

  lemma ImportedAnchorsGood(sha: Bytes -> Hash, g: Genesis)
    requires GenesisOk(sha, g)
    ensures GoodAnchors(Imported(g).templates, Imported(g).anchors)
  {
    forall h | h in Imported(g).anchors
      ensures GoodAnchor(Imported(g).templates, h, Imported(g).anchors[h])
    {
      ImportedAnchorGood(g, h);
    }
  }

  lemma ListedAgreement(g: Genesis, k: nat)
    requires k < |g.agreements| && AgreementsOk(g.agreements, g.maxSigners)
    ensures g.agreements[k].hash in Imported(g).agreements && Imported(g).agreements[g.agreements[k].hash] == g.agreements[k]
    ensures GoodAgreement(g.agreements[k].hash, g.agreements[k]) <==> Settled(g.agreements[k])
  {
    assert forall i, j :: 0 <= i < j < |g.agreements| ==> AgreementKeyOf(g.agreements[i]) != AgreementKeyOf(g.agreements[j]);
    LoadedLists(g.agreements, AgreementKeyOf);
    assert AgreementKeyOf(g.agreements[k]) in Imported(g).agreements;
    assert AgreementOk(g.agreements[k], g.maxSigners);
  }

  lemma ImportedAgreementsGood(sha: Bytes -> Hash, g: Genesis)
    requires GenesisOk(sha, g)
    ensures GoodAgreements(Imported(g).agreements) <==> forall i :: 0 <= i < |g.agreements| ==> Settled(g.agreements[i])
  {
    var ags := Imported(g).agreements;
    forall i: nat | i < |g.agreements|
      ensures g.agreements[i].hash in ags && ags[g.agreements[i].hash] == g.agreements[i]
      ensures GoodAgreement(g.agreements[i].hash, g.agreements[i]) <==> Settled(g.agreements[i])
    {
      ListedAgreement(g, i);
    }
    forall h | h in ags
      ensures exists i :: 0 <= i < |g.agreements| && g.agreements[i].hash == h && ags[h] == g.agreements[i]
    {
      LoadedAny(g.agreements, AgreementKeyOf, h);
    }
  }

  lemma ImportedPersonalsGood(sha: Bytes -> Hash, g: Genesis)
    requires GenesisOk(sha, g)
    ensures GoodPersonals(Imported(g).personals)
  {
    var ps := Imported(g).personals;
    forall k | k in ps
      ensures GoodPersonal(k, ps[k])
    {
      LoadedAny(g.personals, PersonalKeyOf, k);
    }
  }

  /** A validated genesis starts the run theorems exactly when its agreements are settled and its versions are uint32. */
  lemma ImportMeetsInvariantIff(sha: Bytes -> Hash, g: Genesis)
    requires GenesisOk(sha, g)
    ensures Inv(sha, Imported(g))
            <==> (forall i :: 0 <= i < |g.agreements| ==> Settled(g.agreements[i]))
                 && (forall i :: 0 <= i < |g.templates| ==> g.templates[i].version < TWO32)
  {
    ImportedTemplatesGood(sha, g);
    ImportedAnchorsGood(sha, g);
    ImportedAgreementsGood(sha, g);
    ImportedPersonalsGood(sha, g);
  }

  /** An agreement that lists one signer twice passes validation and can never complete. */
  lemma RepeatedSignerPassesValidation(sha: Bytes -> Hash)
    ensures var g := Genesis(5, [], [], [Agreement([1], [], [[2], [2]], [], 0, Pending, 0)], []);
            GenesisOk(sha, g) && !Inv(sha, Imported(g))
  {
    var a := Agreement([1], [], [[2], [2]], [], 0, Pending, 0);
    var g := Genesis(5, [], [], [a], []);
    assert Signers(a) == [];
    assert !Distinct(a.required) by { assert a.required[0] == a.required[1]; }
    assert GenesisOk(sha, g);
    ImportMeetsInvariantIff(sha, g);
    assert !Settled(g.agreements[0]);
  }

  lemma ImportedLists(sha: Bytes -> Hash, g: Genesis)
    requires GenesisOk(sha, g)
    ensures var s := Imported(g);
            && Lists(s.templates, g.templates, TemplateKeyOf) && Lists(s.anchors, g.anchors, AnchorKeyOf)
            && Lists(s.agreements, g.agreements, AgreementKeyOf)
  {
    assert forall i, j :: 0 <= i < j < |g.templates| ==> TemplateKeyOf(g.templates[i]) != TemplateKeyOf(g.templates[j]);
    LoadedLists(g.templates, TemplateKeyOf);
    assert forall i, j :: 0 <= i < j < |g.anchors| ==> AnchorKeyOf(g.anchors[i]) != AnchorKeyOf(g.anchors[j]);
    LoadedLists(g.anchors, AnchorKeyOf);
    assert forall i, j :: 0 <= i < j < |g.agreements| ==> AgreementKeyOf(g.agreements[i]) != AgreementKeyOf(g.agreements[j]);
    LoadedLists(g.agreements, AgreementKeyOf);
  }

  lemma ListsIffDistinctKeys<K(!new), V(!new)>(l: seq<V>, key: V -> K)
    ensures Lists(Loaded(l, key), l, key) <==> forall i, j :: 0 <= i < j < |l| ==> key(l[i]) != key(l[j])
  {
    if forall i, j :: 0 <= i < j < |l| ==> key(l[i]) != key(l[j]) {
      LoadedLists(l, key);
    }
  }

  /** Exporting what was imported lists the genesis again exactly when no two of its personal anchors share a key. */
  lemma ExportUndoesImportIff(sha: Bytes -> Hash, g: Genesis)
    requires GenesisOk(sha, g)
    ensures IsExport(Imported(g), g)
            <==> forall i, j :: 0 <= i < j < |g.personals| ==> PersonalKeyOf(g.personals[i]) != PersonalKeyOf(g.personals[j])
  {
    ImportedLists(sha, g);
    ListsIffDistinctKeys(g.personals, PersonalKeyOf);
  }

  /** 256 bytes, the difference in length the key's length byte cannot see. */
  const MID: Bytes := seq(256, _ => 0)

  /** A validated genesis with two anchors of one key imports to one record. */
  lemma SharedKeyLosesAnAnchor(sha: Bytes -> Hash)
    ensures var g := Genesis(5, [], [], [], [Personal([1], MID + [9], 0), Personal([1] + MID, [9], 0)]);
            GenesisOk(sha, g) && |Imported(g).personals| == 1
  {
    var p, q := Personal([1], MID + [9], 0), Personal([1] + MID, [9], 0);
    assert [1] + (MID + [9]) == ([1] + MID) + [9];
    assert PersonalKeyOf(p) == PersonalKeyOf(q);
    assert [1] != [1] + MID;
    assert [p, q][..1] == [p] && [p][..0] == [];
    assert Loaded([p], PersonalKeyOf) == map[PersonalKeyOf(p) := p];
    assert Loaded([p, q], PersonalKeyOf) == map[PersonalKeyOf(p) := q];
  }
}
