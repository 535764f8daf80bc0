/** The disclosure policy of a credential template: x/credentials/types/policy.go. */
module Policy {
  import opened Bytes
  import opened Sorting
  import Seqs

  const MAX_BBS_MESSAGES: nat := 64

  /** "phi-disclosure-policy-v1" */
  const DOMAIN: Bytes := Ascii("phi-disclosure-policy-v1")

  predicate InRange(idx: seq<nat>, count: nat) { forall i :: 0 <= i < |idx| ==> idx[i] < count }

  predicate ValidPolicy(count: nat, idx: seq<nat>) {
    count <= MAX_BBS_MESSAGES && |idx| <= count && InRange(idx, count) && Distinct(idx)
  }

  method ValidateDisclosurePolicy(count: nat, idx: seq<nat>) returns (ok: bool)
    ensures ok <==> ValidPolicy(count, idx)
  {
    if count > MAX_BBS_MESSAGES {
      return false;
    }
    if count == 0 && |idx| > 0 {
      return false;
    }
    if |idx| > count {
      return false;
    }
    var seen: set<nat> := {};
    for i := 0 to |idx|
      invariant seen == Elems(idx[..i])
      invariant InRange(idx[..i], count) && Distinct(idx[..i])
    {
      assert idx[..i+1] == idx[..i] + [idx[i]];
      if idx[i] >= count {
        return false;
      }
      if idx[i] in seen {
        var j :| 0 <= j < i && idx[..i][j] == idx[i];
        assert idx[j] == idx[i];
        return false;
      }
      seen := seen + {idx[i]};
    }
    assert idx[..|idx|] == idx;
    ok := true;
  }

  method IsDisclosable(idx: seq<nat>, i: nat) returns (yes: bool)
    ensures yes <==> i in Elems(idx)
  {
    for k := 0 to |idx|
      invariant i !in idx[..k]
    {
      if idx[k] == i {
        return true;
      }
    }
    assert idx[..|idx|] == idx;
    yes := false;
  }

  function InsertUnique(s: seq<nat>, x: nat): seq<nat> {
    if s == [] || x < s[0] then [x] + s
    else if x == s[0] then s
    else [s[0]] + InsertUnique(s[1..], x)
  }

  /** The strictly ascending list of the indices in `idx`. */
  function Canonical(idx: seq<nat>): seq<nat> {
    if idx == [] then [] else InsertUnique(Canonical(idx[1..]), idx[0])
  }

  lemma {:induction false} InsertUniqueInserts(s: seq<nat>, x: nat)
    requires StrictlyAscending(s)
    ensures StrictlyAscending(InsertUnique(s, x)) && Elems(InsertUnique(s, x)) == Elems(s) + {x}
  {
    if s == [] || x < s[0] {
      ConsAscending(x, s);
    } else if x > s[0] {
      var t := InsertUnique(s[1..], x);
      InsertUniqueInserts(s[1..], x);
      TailElems(s);
      TailIsAbove(s);
      ConsAscending(s[0], t);
    }
  }

  lemma ConsAscending(h: nat, t: seq<nat>)
    requires StrictlyAscending(t) && forall y :: y in Elems(t) ==> h < y
    ensures StrictlyAscending([h] + t) && Elems([h] + t) == {h} + Elems(t)
  {
    assert forall k :: 0 <= k < |t| ==> t[k] in Elems(t);
  }

  lemma TailIsAbove(s: seq<nat>)
    requires StrictlyAscending(s) && s != []
    ensures forall y :: y in Elems(s[1..]) ==> s[0] < y
  {}

  lemma {:induction false} CanonicalIsAscending(idx: seq<nat>)
    ensures StrictlyAscending(Canonical(idx)) && Elems(Canonical(idx)) == Elems(idx)
  {
    if idx != [] {
      CanonicalIsAscending(idx[1..]);
      InsertUniqueInserts(Canonical(idx[1..]), idx[0]);
      assert idx == [idx[0]] + idx[1..];
    }
  }

  /** De-duplicate with a seen set, then sort in place. */
  method CanonicalIndices(idx: seq<nat>) returns (out: seq<nat>)
    ensures out == Canonical(idx)
  {
    var list: seq<nat>, seen: set<nat> := [], {};
    for i := 0 to |idx|
      invariant seen == Elems(list) == Elems(idx[..i]) && Distinct(list)
    {
      assert idx[..i+1] == idx[..i] + [idx[i]];
      if idx[i] in seen {
        continue;
      }
      seen := seen + {idx[i]};
      list := list + [idx[i]];
    }
    assert idx[..|idx|] == idx;
    var a := new nat[|list|](k requires 0 <= k < |list| => list[k]);
    assert a[..] == list;
    SortAscending(a);
    SortedDistinct(a[..], list);
    out := a[..];
    CanonicalIsAscending(idx);
    AscendingIsUnique(out, Canonical(idx));
  }

  function Packed(s: seq<nat>): Bytes {
    if s == [] then [] else BigEndian(s[0], 4) + Packed(s[1..])
  }

  function Numbers(version: nat, count: nat, idx: seq<nat>): Bytes {
    Packed([version, count] + Canonical(idx))
  }

  /** What DisclosurePolicyHash feeds to SHA-256. */
  function Preimage(id: Bytes, version: nat, count: nat, idx: seq<nat>): Bytes {
    DOMAIN + [0] + (id + ([0] + Numbers(version, count, idx)))
  }

  /** The bytes written into the hash, in the order the source writes them. */
  method WritePreimage(id: Bytes, version: nat, count: nat, idx: seq<nat>) returns (h: Bytes)
    ensures h == Preimage(id, version, count, idx)
  {
    var canon := CanonicalIndices(idx);
    h := DOMAIN + [0];
    h := h + id;
    h := h + [0];
    h := h + BigEndian(version, 4);
    h := h + BigEndian(count, 4);
    ghost var head := h;
    var body: Bytes := [];
    for i := 0 to |canon|
      invariant body + Packed(canon[i..]) == Packed(canon)
    {
      assert canon[i..][1..] == canon[i+1..];
      Seqs.AppendAssociates(body, BigEndian(canon[i], 4), Packed(canon[i+1..]));
      body := body + BigEndian(canon[i], 4);
    }
    h := h + body;
    assert Packed(canon[|canon|..]) == [];
    Seqs.NothingAdded(body);
    PackedHead(version, count, canon);
    Layout(id, BigEndian(version, 4), BigEndian(count, 4), Packed(canon));
  }

  lemma PackedHead(v: nat, c: nat, s: seq<nat>)
    ensures Packed([v, c] + s) == BigEndian(v, 4) + (BigEndian(c, 4) + Packed(s))
  {
    assert ([v, c] + s)[1..] == [c] + s;
    assert ([c] + s)[1..] == s;
  }

  lemma Layout(id: Bytes, v: Bytes, c: Bytes, p: Bytes)
    ensures DOMAIN + [0] + id + [0] + v + c + p == DOMAIN + [0] + (id + ([0] + (v + (c + p))))
  {}

  // ----- the preimage names the policy

  predicate All32(s: seq<nat>) { forall i :: 0 <= i < |s| ==> s[i] < TWO32 }

  lemma {:induction false} PackedIsInjective(s: seq<nat>, t: seq<nat>)
    requires All32(s) && All32(t) && Packed(s) == Packed(t)
    ensures s == t
  {
    if s != [] && t != [] {
      Capacities();
      var a, b := BigEndian(s[0], 4), BigEndian(t[0], 4);
      assert Packed(s)[..4] == a && Packed(t)[..4] == b;
      assert Packed(s)[4..] == Packed(s[1..]) && Packed(t)[4..] == Packed(t[1..]);
      BigEndianOrder(s[0], t[0], 4);
      PackedIsInjective(s[1..], t[1..]);
      assert s == [s[0]] + s[1..] && t == [t[0]] + t[1..];
    }
  }

  /** A policy as the chain holds it: uint32 numbers. */
  predicate Wide32(version: nat, count: nat, idx: seq<nat>) {
    version < TWO32 && count < TWO32 && All32(idx)
  }

  lemma NumbersAreInjective(v: nat, c: nat, s: seq<nat>, w: nat, d: nat, t: seq<nat>)
    requires Wide32(v, c, s) && Wide32(w, d, t) && Numbers(v, c, s) == Numbers(w, d, t)
    ensures v == w && c == d && Elems(s) == Elems(t)
  {
    CanonicalIsAscending(s);
    CanonicalIsAscending(t);
    var x, y := [v, c] + Canonical(s), [w, d] + Canonical(t);
    forall i | 0 <= i < |Canonical(s)| ensures Canonical(s)[i] < TWO32 { assert Canonical(s)[i] in Elems(s); }
    forall i | 0 <= i < |Canonical(t)| ensures Canonical(t)[i] < TWO32 { assert Canonical(t)[i] in Elems(t); }
    PackedIsInjective(x, y);
    assert x[0] == y[0] && x[1] == y[1] && x[2..] == Canonical(s) && y[2..] == Canonical(t);
  }

  lemma CutEqual(p: Bytes, a: Bytes, b: Bytes)
    requires p + a == p + b
    ensures a == b
  {
    assert (p + a)[|p|..] == a && (p + b)[|p|..] == b;
  }

  /** The order and repetition of the declared indices do not matter. */
  lemma PreimageDependsOnTheSet(id: Bytes, version: nat, count: nat, s: seq<nat>, t: seq<nat>)
    requires Elems(s) == Elems(t)
    ensures Preimage(id, version, count, s) == Preimage(id, version, count, t)
  {
    CanonicalIsAscending(s);
    CanonicalIsAscending(t);
    AscendingIsUnique(Canonical(s), Canonical(t));
  }

  /** For one template id, equal preimages mean the same version, claim count and index set. */
  lemma PreimageIsInjectivePerTemplate(id: Bytes, v: nat, c: nat, s: seq<nat>, w: nat, d: nat, t: seq<nat>)
    requires Wide32(v, c, s) && Wide32(w, d, t)
    requires Preimage(id, v, c, s) == Preimage(id, w, d, t)
    ensures v == w && c == d && Elems(s) == Elems(t)
  {
    CutEqual(DOMAIN + [0], id + ([0] + Numbers(v, c, s)), id + ([0] + Numbers(w, d, t)));
    CutEqual(id, [0] + Numbers(v, c, s), [0] + Numbers(w, d, t));
    CutEqual([0], Numbers(v, c, s), Numbers(w, d, t));
    NumbersAreInjective(v, c, s, w, d, t);
  }

  lemma SeparatorEndsTheId(a: Bytes, x: Bytes, b: Bytes, y: Bytes)
    requires 0 !in a && 0 !in b && a + ([0] + x) == b + ([0] + y)
    ensures a == b
  {
    NotLonger(a, x, b, y);
    NotLonger(b, y, a, x);
    assert a == (a + ([0] + x))[..|a|] && b == (b + ([0] + y))[..|b|];
  }

  lemma NotLonger(a: Bytes, x: Bytes, b: Bytes, y: Bytes)
    requires 0 !in a && a + ([0] + x) == b + ([0] + y)
    ensures |a| <= |b|
  {
    assert (b + ([0] + y))[|b|] == 0;
    assert forall k :: 0 <= k < |a| ==> (a + ([0] + x))[k] == a[k] != 0;
  }

  /** Across templates too, as long as no id contains a NUL byte. */
  lemma PreimageIsInjectiveForNulFreeIds(a: Bytes, v: nat, c: nat, s: seq<nat>, b: Bytes, w: nat, d: nat, t: seq<nat>)
    requires Wide32(v, c, s) && Wide32(w, d, t) && 0 !in a && 0 !in b
    requires Preimage(a, v, c, s) == Preimage(b, w, d, t)
    ensures a == b && v == w && c == d && Elems(s) == Elems(t)
  {
    CutEqual(DOMAIN + [0], a + ([0] + Numbers(v, c, s)), b + ([0] + Numbers(w, d, t)));
    SeparatorEndsTheId(a, Numbers(v, c, s), b, Numbers(w, d, t));
    PreimageIsInjectivePerTemplate(a, v, c, s, w, d, t);
  }

  lemma Version256()
    ensures BigEndian(256, 4) == [0, 0, 1, 0]
  {
    assert BigEndian(0, 1) == [0] && BigEndian(0, 2) == [0, 0] && BigEndian(1, 3) == [0, 0, 1];
  }

  lemma PackedOne(n: nat)
    ensures Packed([n]) == BigEndian(n, 4)
  {
    assert [n][1..] == [];
    assert BigEndian(n, 4) + [] == BigEndian(n, 4);
  }

  lemma CanonicalOne(n: nat)
    ensures Canonical([n]) == [n]
  {
    assert [n][1..] == [];
  }

  lemma NumbersOne(v: nat, c: nat, i: nat)
    ensures Numbers(v, c, [i]) == BigEndian(v, 4) + BigEndian(c, 4) + BigEndian(i, 4)
  {
    CanonicalOne(i);
    PackedOne(i);
    PackedHead(v, c, [i]);
  }

  lemma NumbersOfA()
    ensures Numbers(256, 5, [3]) == [0, 0, 1, 0, 0, 0, 0, 5, 0, 0, 0, 3]
  {
    NumbersOne(256, 5, 3);
    SmallU32(5);
    SmallU32(3);
    Version256();
  }

  lemma NumbersOfB()
    ensures Numbers(5, 3, []) == [0, 0, 0, 5, 0, 0, 0, 3]
  {
    SmallU32(5);
    SmallU32(3);
    PackedHead(5, 3, []);
  }

  /** A NUL in an id does break the separation: template "a" at version 256 and template "a\0\0\0\1" at
      version 5 declare different valid policies and have one preimage. */
  lemma NulIdsCollide()
    ensures ValidPolicy(5, [3]) && ValidPolicy(3, [])
    ensures Preimage([97], 256, 5, [3]) == Preimage([97, 0, 0, 0, 1], 5, 3, [])
  {
    NumbersOfA();
    NumbersOfB();
    assert [97] + ([0] + Numbers(256, 5, [3])) == [97, 0, 0, 0, 1] + ([0] + Numbers(5, 3, []));
  }

  /** A preimage byte for byte: domain, id, version, claim count, then the indices. */
  lemma PreimageBytes()
    ensures Preimage([97], 256, 5, [3])
         == Ascii("phi-disclosure-policy-v1") + [0] + ([97] + ([0] + [0, 0, 1, 0, 0, 0, 0, 5, 0, 0, 0, 3]))
  {
    NumbersOfA();
  }
}
