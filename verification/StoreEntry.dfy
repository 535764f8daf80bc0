/** The raw genesis records of internal/storeentry/storeentry.go: which rule judges a key, and which lists pass. */
module StoreEntry {
  import opened Bytes
  import opened Seqs

  const MAX_VALUE_LEN := 4096

  datatype Entry = Entry(key: Bytes, value: Bytes)

  /** How values under a prefix must decode. `Anything` stands for a rule without a value check. */
  datatype ValueRule = Anything | FixedLen(n: nat) | NonEmpty | BoundedUint64(ceiling: nat) | OneOfLen(ns: seq<nat>)

  predicate Accepts(rule: ValueRule, v: Bytes) {
    match rule
    case Anything => true
    case FixedLen(n) => |v| == n
    case NonEmpty => |v| != 0
    case BoundedUint64(ceiling) => |v| == 8 && FromBigEndian(v) < ceiling
    case OneOfLen(ns) => |v| in ns
  }

  datatype Rule = Rule(name: string, prefix: Bytes, value: ValueRule)

  datatype Match = NoRule | By(rule: Rule)

  /** The key lies strictly under the rule's prefix. */
  predicate Under(key: Bytes, r: Rule) {
    |key| > |r.prefix| && key[..|r.prefix|] == r.prefix
  }

  // ----- Which rule judges a key

  /** Stable order, longest prefix first. */
  function Insert(r: Rule, sorted: seq<Rule>): seq<Rule> {
    if sorted == [] || |r.prefix| >= |sorted[0].prefix| then [r] + sorted
    else [sorted[0]] + Insert(r, sorted[1..])
  }

  function Ordered(rules: seq<Rule>): seq<Rule> {
    if rules == [] then [] else Insert(rules[0], Ordered(rules[1..]))
  }

  function FirstHit(key: Bytes, rules: seq<Rule>): Match {
    if rules == [] then NoRule
    else if Under(key, rules[0]) then By(rules[0])
    else FirstHit(key, rules[1..])
  }

  /** The longest matching rule; among equal prefixes, the one listed first. */
  ghost predicate IsLongest(key: Bytes, rules: seq<Rule>, m: Match) {
    match m
    case NoRule => forall i :: 0 <= i < |rules| ==> !Under(key, rules[i])
    case By(r) =>
      exists i ::
        && 0 <= i < |rules| && rules[i] == r && Under(key, r)
        && forall j :: 0 <= j < |rules| && Under(key, rules[j]) ==>
             if j < i then |rules[j].prefix| < |r.prefix| else |rules[j].prefix| <= |r.prefix|
  }

  predicate LongestFirst(rules: seq<Rule>) {
    forall i, j :: 0 <= i < j < |rules| ==> |rules[i].prefix| >= |rules[j].prefix|
  }

  lemma {:induction false} OrderedIsSorted(rules: seq<Rule>)
    ensures LongestFirst(Ordered(rules)) && multiset(Ordered(rules)) == multiset(rules)
  {
    if rules != [] {
      OrderedIsSorted(rules[1..]);
      InsertKeeps(rules[0], Ordered(rules[1..]));
      InsertSorts(rules[0], Ordered(rules[1..]));
      assert rules == [rules[0]] + rules[1..];
    }
  }

  lemma {:induction false} InsertKeeps(r: Rule, sorted: seq<Rule>)
    ensures multiset(Insert(r, sorted)) == multiset(sorted) + multiset{r}
  {
    if !(sorted == [] || |r.prefix| >= |sorted[0].prefix|) {
      InsertKeeps(r, sorted[1..]);
      assert sorted == [sorted[0]] + sorted[1..];
    }
  }

  lemma {:induction false} InsertSorts(r: Rule, sorted: seq<Rule>)
    requires LongestFirst(sorted)
    ensures LongestFirst(Insert(r, sorted))
  {
    if !(sorted == [] || |r.prefix| >= |sorted[0].prefix|) {
      InsertSorts(r, sorted[1..]);
      InsertStaysBelow(r, sorted[1..], |sorted[0].prefix|);
    }
  }

  lemma {:induction false} InsertStaysBelow(r: Rule, sorted: seq<Rule>, n: nat)
    requires |r.prefix| <= n && forall k :: 0 <= k < |sorted| ==> |sorted[k].prefix| <= n
    ensures forall k :: 0 <= k < |Insert(r, sorted)| ==> |Insert(r, sorted)[k].prefix| <= n
  {
    if !(sorted == [] || |r.prefix| >= |sorted[0].prefix|) {
      InsertStaysBelow(r, sorted[1..], n);
    }
  }

  /** In a longest-first list the first hit is no shorter than any other hit. */
  lemma {:induction false} FirstHitIsLongest(key: Bytes, sorted: seq<Rule>)
    requires LongestFirst(sorted)
    ensures FirstHit(key, sorted).NoRule? ==> forall k :: 0 <= k < |sorted| ==> !Under(key, sorted[k])
    ensures FirstHit(key, sorted).By? ==> var r := FirstHit(key, sorted).rule;
              r in sorted && Under(key, r) && forall k :: 0 <= k < |sorted| && Under(key, sorted[k]) ==> |sorted[k].prefix| <= |r.prefix|
  {
    if sorted != [] && !Under(key, sorted[0]) {
      FirstHitIsLongest(key, sorted[1..]);
      assert forall k :: 0 < k < |sorted| ==> sorted[k] == sorted[1..][k - 1];
    }
  }

  /** Inserting a rule changes the first hit exactly when it matches and no longer rule does. */
  lemma {:induction false} HitAfterInsert(key: Bytes, r: Rule, sorted: seq<Rule>)
    requires LongestFirst(sorted)
    ensures var hit := FirstHit(key, sorted);
            FirstHit(key, Insert(r, sorted))
            == if Under(key, r) && (hit.NoRule? || |hit.rule.prefix| <= |r.prefix|) then By(r) else hit
  {
    if sorted == [] || |r.prefix| >= |sorted[0].prefix| {
      FirstHitIsLongest(key, sorted);
      assert ([r] + sorted)[1..] == sorted;
      if FirstHit(key, sorted).By? {
        var k :| 0 <= k < |sorted| && sorted[k] == FirstHit(key, sorted).rule;
        assert |sorted[k].prefix| <= |sorted[0].prefix|;
      }
    } else {
      HitAfterInsert(key, r, sorted[1..]);
      assert ([sorted[0]] + Insert(r, sorted[1..]))[1..] == Insert(r, sorted[1..]);
    }
  }

  /** The stable sort and the first hit together pick the longest matching rule, first listed among equals. */
  lemma {:induction false} MatchPicksLongest(key: Bytes, rules: seq<Rule>)
    ensures IsLongest(key, rules, FirstHit(key, Ordered(rules)))
  {
    if rules != [] {
      var r, rest := rules[0], rules[1..];
      MatchPicksLongest(key, rest);
      OrderedIsSorted(rest);
      HitAfterInsert(key, r, Ordered(rest));
      LongestExtends(key, r, rest, FirstHit(key, Ordered(rest)));
    }
  }

  lemma LongestExtends(key: Bytes, r: Rule, rest: seq<Rule>, hit: Match)
    requires IsLongest(key, rest, hit)
    ensures IsLongest(key, [r] + rest,
                      if Under(key, r) && (hit.NoRule? || |hit.rule.prefix| <= |r.prefix|) then By(r) else hit)
  {
    var rules := [r] + rest;
    if Under(key, r) && (hit.NoRule? || |hit.rule.prefix| <= |r.prefix|) {
      assert rules[0] == r;
    } else if hit.By? {
      var i :| 0 <= i < |rest| && rest[i] == hit.rule && Under(key, hit.rule)
        && forall j :: 0 <= j < |rest| && Under(key, rest[j]) ==>
             if j < i then |rest[j].prefix| < |hit.rule.prefix| else |rest[j].prefix| <= |hit.rule.prefix|;
      assert rules[i + 1] == hit.rule;
    }
  }

  // ----- Validation

  predicate Good(e: Entry, rules: seq<Rule>) {
    var hit := FirstHit(e.key, Ordered(rules));
    |e.value| <= MAX_VALUE_LEN && hit.By? && Accepts(hit.rule.value, e.value)
  }

  predicate DistinctKeys(entries: seq<Entry>) {
    forall i, j :: 0 <= i < j < |entries| ==> entries[i].key != entries[j].key
  }

  predicate Acceptable(entries: seq<Entry>, rules: seq<Rule>) {
    DistinctKeys(entries) && forall i :: 0 <= i < |entries| ==> Good(entries[i], rules)
  }

  datatype Verdict = Valid | Duplicate(at: nat, previous: nat) | TooLong(at: nat) | Unmatched(at: nat)
                   | BadValue(at: nat, rule: string)

  /** The complaint a verdict makes about its entry is true. */
  ghost predicate True(v: Verdict, entries: seq<Entry>, rules: seq<Rule>)
    requires v.Valid? || v.at < |entries|
  {
    match v
    case Valid => Acceptable(entries, rules)
    case Duplicate(i, p) => p < i && entries[p].key == entries[i].key
    case TooLong(i) => |entries[i].value| > MAX_VALUE_LEN
    case Unmatched(i) => forall k :: 0 <= k < |rules| ==> !Under(entries[i].key, rules[k])
    case BadValue(i, name) =>
      var hit := FirstHit(entries[i].key, Ordered(rules));
      hit.By? && hit.rule.name == name && !Accepts(hit.rule.value, entries[i].value)
  }

  method FindRule(key: Bytes, rules: seq<Rule>) returns (m: Match)
    ensures m == FirstHit(key, rules)
  {
    for i := 0 to |rules|
      invariant FirstHit(key, rules) == FirstHit(key, rules[i..])
    {
      if Under(key, rules[i]) {
        return By(rules[i]);
      }
      assert rules[i..][1..] == rules[i + 1..];
    }
    m := NoRule;
  }

  /** Accepts exactly the acceptable lists, and otherwise complains, truly, about the first entry that is at fault. */
  method Validate(entries: seq<Entry>, rules: seq<Rule>) returns (v: Verdict)
    ensures v.Valid? <==> Acceptable(entries, rules)
    ensures !v.Valid? ==> v.at < |entries| && Acceptable(entries[..v.at], rules)
    ensures True(v, entries, rules)
  {
    var ordered := Ordered(rules);
    var seen: map<Bytes, nat> := map[];
    for i := 0 to |entries|
      invariant Acceptable(entries[..i], rules)
      invariant forall k :: 0 <= k < i ==> entries[k].key in seen
      invariant forall key :: key in seen ==> seen[key] < i && entries[seen[key]].key == key
    {
      var e := entries[i];
      if e.key in seen {
        return Duplicate(i, seen[e.key]);
      }
      seen := seen[e.key := i];
      if |e.value| > MAX_VALUE_LEN {
        return TooLong(i);
      }
      var hit := FindRule(e.key, ordered);
      MatchPicksLongest(e.key, rules);
      if hit.NoRule? {
        return Unmatched(i);
      }
      if !hit.rule.value.Anything? && !Accepts(hit.rule.value, e.value) {
        return BadValue(i, hit.rule.name);
      }
      AcceptableGrows(entries, i, rules);
    }
    assert entries[..|entries|] == entries;
    v := Valid;
  }

  lemma AcceptableGrows(entries: seq<Entry>, i: nat, rules: seq<Rule>)
    requires i < |entries| && Acceptable(entries[..i], rules) && Good(entries[i], rules)
    requires forall k :: 0 <= k < i ==> entries[k].key != entries[i].key
    ensures Acceptable(entries[..i + 1], rules)
  {
    var next := entries[..i + 1];
    forall k | 0 <= k < i
      ensures next[k] == entries[..i][k]
    {}
  }

  // ----- The order of entries does not matter

  lemma DistinctAsMultiset(entries: seq<Entry>)
    ensures DistinctKeys(entries) <==>
              && (forall e :: e in multiset(entries) ==> multiset(entries)[e] == 1)
              && (forall e, f :: e in multiset(entries) && f in multiset(entries) && e.key == f.key ==> e == f)
  {
    var m := multiset(entries);
    if DistinctKeys(entries) {
      forall e | e in m
        ensures m[e] == 1
      {
        var i :| 0 <= i < |entries| && entries[i] == e;
        CountedOnce(entries, i);
      }
    }
    if (forall e :: e in m ==> m[e] == 1) && (forall e, f :: e in m && f in m && e.key == f.key ==> e == f) {
      forall i, j | 0 <= i < j < |entries|
        ensures entries[i].key != entries[j].key
      {
        assert entries[i] in m && entries[j] in m;
        CountedOnce(entries, i);
      }
    }
  }

  /** Reordering the entries never changes the answer. */
  lemma EntryOrderIsIrrelevant(entries: seq<Entry>, entries': seq<Entry>, rules: seq<Rule>)
    requires multiset(entries) == multiset(entries')
    ensures Acceptable(entries, rules) == Acceptable(entries', rules)
  {
    DistinctAsMultiset(entries);
    DistinctAsMultiset(entries');
    AllGoodAsMultiset(entries, rules);
    AllGoodAsMultiset(entries', rules);
  }

  lemma AllGoodAsMultiset(entries: seq<Entry>, rules: seq<Rule>)
    ensures (forall i :: 0 <= i < |entries| ==> Good(entries[i], rules))
            <==> forall e :: e in multiset(entries) ==> Good(e, rules)
  {
    if forall e :: e in multiset(entries) ==> Good(e, rules) {
      forall i | 0 <= i < |entries|
        ensures Good(entries[i], rules)
      {
        assert entries[i] in multiset(entries);
      }
    }
  }

  // ----- When the order of rules does not matter

  /** Rules of one prefix agree on every value that fits. */
  ghost predicate PrefixesAgree(rules: multiset<Rule>) {
    forall r, r', v: Bytes :: r in rules && r' in rules && r.prefix == r'.prefix && |v| <= MAX_VALUE_LEN
      ==> Accepts(r.value, v) == Accepts(r'.value, v)
  }

  ghost predicate SameAnswers(rules: seq<Rule>, rules': seq<Rule>) {
    forall entries: seq<Entry> :: Acceptable(entries, rules) == Acceptable(entries, rules')
  }

  /** The choice, as far as the multiset of rules determines it. */
  lemma LongestMember(key: Bytes, rules: seq<Rule>)
    ensures var hit := FirstHit(key, Ordered(rules));
            && (hit.NoRule? ==> forall r :: r in multiset(rules) ==> !Under(key, r))
            && (hit.By? ==> hit.rule in multiset(rules) && Under(key, hit.rule)
                            && forall r :: r in multiset(rules) && Under(key, r) ==> |r.prefix| <= |hit.rule.prefix|)
  {
    var sorted := Ordered(rules);
    OrderedIsSorted(rules);
    FirstHitIsLongest(key, sorted);
    forall r | r in multiset(rules)
      ensures exists k :: 0 <= k < |sorted| && sorted[k] == r
    {
      assert r in multiset(sorted);
    }
    if FirstHit(key, sorted).By? {
      assert FirstHit(key, sorted).rule in multiset(sorted);
    }
  }

  lemma LongestAgree(key: Bytes, rules: multiset<Rule>, r: Rule, r': Rule, v: Bytes)
    requires PrefixesAgree(rules) && r in rules && r' in rules && Under(key, r) && Under(key, r')
    requires |r.prefix| == |r'.prefix| && |v| <= MAX_VALUE_LEN
    ensures Accepts(r.value, v) == Accepts(r'.value, v)
  {
    assert r.prefix == r'.prefix;
  }

  lemma GoodSurvivesReordering(e: Entry, rules: seq<Rule>, rules': seq<Rule>)
    requires multiset(rules) == multiset(rules') && PrefixesAgree(multiset(rules)) && Good(e, rules)
    ensures Good(e, rules')
  {
    LongestMember(e.key, rules);
    LongestMember(e.key, rules');
    var r, hit' := FirstHit(e.key, Ordered(rules)).rule, FirstHit(e.key, Ordered(rules'));
    LongestAgree(e.key, multiset(rules), r, hit'.rule, e.value);
  }

  lemma AgreementMakesOrderIrrelevant(rules: seq<Rule>, rules': seq<Rule>)
    requires multiset(rules) == multiset(rules') && PrefixesAgree(multiset(rules))
    ensures SameAnswers(rules, rules')
  {
    forall e: Entry
      ensures Good(e, rules) == Good(e, rules')
    {
      if Good(e, rules) {
        GoodSurvivesReordering(e, rules, rules');
      }
      if Good(e, rules') {
        GoodSurvivesReordering(e, rules', rules);
      }
    }
  }

  /** Moving rule i to the front. */
  function Fronted(rules: seq<Rule>, i: nat): seq<Rule>
    requires i < |rules|
  {
    [rules[i]] + rules[..i] + rules[i + 1..]
  }

  lemma FrontedIsReordering(rules: seq<Rule>, i: nat)
    requires i < |rules|
    ensures multiset(Fronted(rules, i)) == multiset(rules)
  {
    assert rules == rules[..i] + [rules[i]] + rules[i + 1..];
  }

  /** A key one byte below a prefix is judged by the first rule of that prefix: no longer prefix lies strictly above it. */
  lemma FrontRuleJudges(rules: seq<Rule>, v: Bytes)
    requires rules != [] && |v| <= MAX_VALUE_LEN
    ensures Acceptable([Entry(rules[0].prefix + [0], v)], rules) == Accepts(rules[0].value, v)
  {
    var key := rules[0].prefix + [0];
    var e := Entry(key, v);
    MatchPicksLongest(key, rules);
    assert Under(key, rules[0]);
    var hit := FirstHit(key, Ordered(rules));
    var i :| 0 <= i < |rules| && rules[i] == hit.rule && Under(key, hit.rule)
      && forall j :: 0 <= j < |rules| && Under(key, rules[j]) ==>
           if j < i then |rules[j].prefix| < |hit.rule.prefix| else |rules[j].prefix| <= |hit.rule.prefix|;
    assert i == 0;
    assert Good(e, rules) == Accepts(rules[0].value, v);
    assert [e][0] == e;
  }

  lemma SameAnswersAgree(rules: seq<Rule>, i: nat, j: nat, v: Bytes)
    requires i < |rules| && j < |rules| && rules[i].prefix == rules[j].prefix && |v| <= MAX_VALUE_LEN
    requires SameAnswers(rules, Fronted(rules, i)) && SameAnswers(rules, Fronted(rules, j))
    ensures Accepts(rules[i].value, v) == Accepts(rules[j].value, v)
  {
    var entries := [Entry(rules[i].prefix + [0], v)];
    FrontRuleJudges(Fronted(rules, i), v);
    FrontRuleJudges(Fronted(rules, j), v);
    assert Acceptable(entries, rules) == Acceptable(entries, Fronted(rules, i));
    assert Acceptable(entries, rules) == Acceptable(entries, Fronted(rules, j));
  }

  lemma OrderIrrelevanceMeansAgreement(rules: seq<Rule>)
    requires forall i :: 0 <= i < |rules| ==> SameAnswers(rules, Fronted(rules, i))
    ensures PrefixesAgree(multiset(rules))
  {
    var m := multiset(rules);
    forall r, r', v: Bytes | r in m && r' in m && r.prefix == r'.prefix && |v| <= MAX_VALUE_LEN
      ensures Accepts(r.value, v) == Accepts(r'.value, v)
    {
      var i :| 0 <= i < |rules| && rules[i] == r;
      var j :| 0 <= j < |rules| && rules[j] == r';
      SameAnswersAgree(rules, i, j, v);
    }
  }

  /** The answers are independent of the order of the rules exactly when rules of one prefix agree. */
  lemma RuleOrderIsIrrelevantIff(rules: seq<Rule>)
    ensures PrefixesAgree(multiset(rules))
            <==> forall rules' :: multiset(rules') == multiset(rules) ==> SameAnswers(rules, rules')
  {
    if PrefixesAgree(multiset(rules)) {
      forall rules' | multiset(rules') == multiset(rules)
        ensures SameAnswers(rules, rules')
      {
        AgreementMakesOrderIrrelevant(rules, rules');
      }
    }
    if forall rules' :: multiset(rules') == multiset(rules) ==> SameAnswers(rules, rules') {
      forall i | 0 <= i < |rules|
        ensures SameAnswers(rules, Fronted(rules, i))
      {
        FrontedIsReordering(rules, i);
      }
      OrderIrrelevanceMeansAgreement(rules);
    }
  }

  /** In particular it never matters when all prefixes differ. */
  lemma DistinctPrefixesAreOrderFree(rules: seq<Rule>, rules': seq<Rule>)
    requires forall i, j :: 0 <= i < j < |rules| ==> rules[i].prefix != rules[j].prefix
    requires multiset(rules') == multiset(rules)
    ensures SameAnswers(rules, rules')
  {
    forall r, r' | r in multiset(rules) && r' in multiset(rules) && r.prefix == r'.prefix
      ensures r == r'
    {
      var i :| 0 <= i < |rules| && rules[i] == r;
      var j :| 0 <= j < |rules| && rules[j] == r';
    }
    AgreementMakesOrderIrrelevant(rules, rules');
  }

  /** Two rules of one prefix that disagree: whichever is listed first decides. */
  lemma SharedPrefixOrderMatters()
    ensures var r, r' := Rule("one byte", [1], FixedLen(1)), Rule("two bytes", [1], FixedLen(2));
            var entries := [Entry([1, 0], [7])];
            Acceptable(entries, [r, r']) && !Acceptable(entries, [r', r])
  {
    var r, r' := Rule("one byte", [1], FixedLen(1)), Rule("two bytes", [1], FixedLen(2));
    FrontRuleJudges([r, r'], [7]);
    FrontRuleJudges([r', r], [7]);
    assert [1] + [0] == [1, 0];
  }
}
