/**
 Which pairs of template ids can share a policy preimage: the separator that DisclosurePolicyHash of
 x/credentials/types/policy.go writes after an id is also a byte an id may hold.
 */
module PolicyCollisions {
  import opened Bytes
  import opened Sorting
  import opened Policy
  import Seqs

  /** A version and a policy as a template can carry them. */
  predicate Carried(version: nat, count: nat, idx: seq<nat>) {
    version < TWO32 && ValidPolicy(count, idx)
  }

  /** Some policy of template a and some policy of template b have one preimage. */
  ghost predicate Collide(a: Bytes, b: Bytes) {
    exists v, c, s, w, d, t :: Carried(v, c, s) && Carried(w, d, t) && Preimage(a, v, c, s) == Preimage(b, w, d, t)
  }

  /** b is a, a NUL and any three bytes: they read as the version of a policy of a. */
  predicate VersionTail(a: Bytes, b: Bytes) {
    |b| == |a| + 4 && b[..|a|] == a && b[|a|] == 0
  }

  /** b is a, a NUL, four bytes, a claim count of at least three, and three NULs: a version, a count and the index 0. */
  predicate CountTail(a: Bytes, b: Bytes) {
    && |b| == |a| + 12 && b[..|a|] == a && b[|a|] == 0
    && 3 <= FromBigEndian(b[|a| + 5..|a| + 9]) <= MAX_BBS_MESSAGES && b[|a| + 9..] == [0, 0, 0]
  }

  // ----- such ids do collide

  lemma Ascending(s: seq<nat>)
    requires StrictlyAscending(s)
    ensures Canonical(s) == s
  {
    CanonicalIsAscending(s);
    AscendingIsUnique(Canonical(s), s);
  }

  lemma ReadBack(b: Bytes)
    requires |b| == 4
    ensures FromBigEndian(b) < TWO32 && BigEndian(FromBigEndian(b), 4) == b
  {
    Capacities();
    EncodeDecode(b);
  }

  lemma Zero32()
    ensures BigEndian(0, 4) == [0, 0, 0, 0]
  {
    SmallU32(0);
  }

  lemma CollidesBy(a: Bytes, v: nat, c: nat, s: seq<nat>, b: Bytes, w: nat, d: nat, t: seq<nat>)
    requires Carried(v, c, s) && Carried(w, d, t)
    requires a + ([0] + Numbers(v, c, s)) == b + ([0] + Numbers(w, d, t))
    ensures Collide(a, b)
  {
    assert Preimage(a, v, c, s) == Preimage(b, w, d, t);
  }

  lemma NumbersWithoutIndices(w: nat, d: nat)
    ensures Numbers(w, d, []) == BigEndian(w, 4) + BigEndian(d, 4)
  {
    Ascending([]);
    PackedHead(w, d, []);
    Seqs.NothingAdded(BigEndian(d, 4));
  }

  lemma NumbersWithIndexZero(v: nat)
    ensures Numbers(v, 1, [0]) == BigEndian(v, 4) + (BigEndian(1, 4) + BigEndian(0, 4))
  {
    Ascending([0]);
    PackedHead(v, 1, [0]);
    assert [0][1..] == [];
    Seqs.NothingAdded(BigEndian(0, 4));
  }

  lemma VersionLayout(a: Bytes, u: Bytes, m: Bytes)
    ensures a + ([0] + ((u + [0]) + m)) == (a + [0] + u) + ([0] + m)
  {}

  lemma VersionTailParts(a: Bytes, b: Bytes)
    requires VersionTail(a, b)
    ensures b == a + [0] + b[|a| + 1..]
  {}

  lemma SmallPolicies(v: nat)
    requires v < TWO32
    ensures Carried(v, 1, [0]) && Carried(1, 0, [])
  {}

  lemma VersionTailCollides(a: Bytes, b: Bytes)
    requires VersionTail(a, b)
    ensures Collide(a, b)
  {
    var u := b[|a| + 1..];
    var v := FromBigEndian(u + [0]);
    ReadBack(u + [0]);
    NumbersWithIndexZero(v);
    NumbersWithoutIndices(1, 0);
    VersionLayout(a, u, BigEndian(1, 4) + BigEndian(0, 4));
    VersionTailParts(a, b);
    SmallPolicies(v);
    CollidesBy(a, v, 1, [0], b, 1, 0, []);
  }

  lemma NumbersWithThree(v: nat, c: nat)
    ensures Numbers(v, c, [0, 1, 2])
            == BigEndian(v, 4) + (BigEndian(c, 4) + ([0, 0, 0, 0] + (BigEndian(1, 4) + BigEndian(2, 4))))
  {
    Ascending([0, 1, 2]);
    PackedHead(v, c, [0, 1, 2]);
    Zero32();
    assert [0, 1, 2][1..] == [1, 2] && [1, 2][1..] == [2] && [2][1..] == [];
    assert Packed([2]) == BigEndian(2, 4) + [];
    Seqs.NothingAdded(BigEndian(2, 4));
    assert Packed([1, 2]) == BigEndian(1, 4) + Packed([2]);
    assert Packed([0, 1, 2]) == BigEndian(0, 4) + Packed([1, 2]);
  }

  lemma CountLayout(a: Bytes, v: Bytes, c: Bytes, m: Bytes)
    ensures a + ([0] + (v + (c + ([0, 0, 0, 0] + m)))) == (a + [0] + v + c + [0, 0, 0]) + ([0] + m)
  {}

  lemma CountTailParts(a: Bytes, b: Bytes)
    requires CountTail(a, b)
    ensures b == a + [0] + b[|a| + 1..|a| + 5] + b[|a| + 5..|a| + 9] + [0, 0, 0]
  {}

  lemma CountTailCollides(a: Bytes, b: Bytes)
    requires CountTail(a, b)
    ensures Collide(a, b)
  {
    var V, C := b[|a| + 1..|a| + 5], b[|a| + 5..|a| + 9];
    var v, c := FromBigEndian(V), FromBigEndian(C);
    ReadBack(V);
    ReadBack(C);
    CountTailParts(a, b);
    NumbersWithThree(v, c);
    NumbersWithoutIndices(1, 2);
    CountLayout(a, V, C, BigEndian(1, 4) + BigEndian(2, 4));
    CollidesBy(a, v, c, [0, 1, 2], b, 1, 2, []);
  }

  // ----- and no others

  /** When the longer id continues past the shorter one's separator, what follows begins the shorter one's numbers. */
  lemma LongerId(a: Bytes, x: Bytes, b: Bytes, y: Bytes)
    requires |a| < |b| && a + ([0] + x) == b + ([0] + y)
    ensures b[..|a|] == a && b[|a|] == 0
    ensures x == (b[|a| + 1..] + [0]) + y
  {
    var all, n := a + ([0] + x), |a|;
    assert all[..n] == a && all[n] == 0 && all[n + 1..] == x;
    assert all == b + ([0] + y);
    assert (b + ([0] + y))[..n] == b[..n] && (b + ([0] + y))[n] == b[n];
    assert (b + ([0] + y))[n + 1..] == b[n + 1..] + ([0] + y);
  }

  lemma SameLengthSameId(a: Bytes, x: Bytes, b: Bytes, y: Bytes)
    requires |a| == |b| && a + ([0] + x) == b + ([0] + y)
    ensures a == b
  {
    assert (a + ([0] + x))[..|a|] == a && (b + ([0] + y))[..|b|] == b;
  }

  lemma {:induction false} PackedSplits(s: seq<nat>, n: nat)
    requires n <= |s|
    ensures |Packed(s)| == 4 * |s| && Packed(s) == Packed(s[..n]) + Packed(s[n..])
  {
    if n == 0 {
      assert s[..0] == [] && s[0..] == s;
      if s != [] {
        PackedSplits(s[1..], 0);
      }
    } else {
      PackedSplits(s[1..], n - 1);
      assert s[..n][1..] == s[1..][..n - 1] && s[1..][n - 1..] == s[n..];
      Seqs.AppendAssociates(BigEndian(s[0], 4), Packed(s[1..][..n - 1]), Packed(s[n..]));
    }
  }

  lemma PackedLast(s: seq<nat>, n: nat)
    requires 0 < n == |s|
    ensures |Packed(s)| == 4 * n && Packed(s)[4 * n - 4..] == BigEndian(s[n - 1], 4)
  {
    PackedSplits(s, n - 1);
    PackedSplits(s[..n - 1], 0);
    assert s[n - 1..] == [s[n - 1]] && [s[n - 1]][1..] == [];
    assert Packed([s[n - 1]]) == BigEndian(s[n - 1], 4) + [];
  }

  lemma LastByteZero(k: nat)
    requires k < TWO32 && BigEndian(k, 4)[3] == 0
    ensures k % 256 == 0
  {}

  /** Where the shorter id's numbers end inside the longer id: after n of them, the last a multiple of 256. */
  lemma NumbersOverlap(xs: seq<nat>, ys: seq<nat>, u: Bytes) returns (n: nat)
    requires All32(xs) && All32(ys) && Packed(xs) == (u + [0]) + Packed(ys)
    ensures 0 < n <= |xs| && |u| + 1 == 4 * n && u + [0] == Packed(xs[..n]) && xs[n..] == ys
    ensures xs[n - 1] % 256 == 0
  {
    PackedSplits(xs, 0);
    PackedSplits(ys, 0);
    n := |xs| - |ys|;
    PackedSplits(xs, n);
    PackedSplits(xs[..n], 0);
    var head := Packed(xs[..n]);
    assert ((u + [0]) + Packed(ys))[..4 * n] == u + [0] && (head + Packed(xs[n..]))[..4 * n] == head;
    assert ((u + [0]) + Packed(ys))[4 * n..] == Packed(ys) && (head + Packed(xs[n..]))[4 * n..] == Packed(xs[n..]);
    PackedIsInjective(xs[n..], ys);
    PackedLast(xs[..n], n);
    assert head[4 * n - 4..][3] == (u + [0])[4 * n - 1] == 0;
    LastByteZero(xs[n - 1]);
  }

  /** The numbers of a policy, and what is known of them. */
  lemma NumbersOf(v: nat, c: nat, s: seq<nat>) returns (xs: seq<nat>)
    requires Carried(v, c, s)
    ensures |xs| >= 2 && xs[0] == v && xs[1] == c <= MAX_BBS_MESSAGES && All32(xs) && Packed(xs) == Numbers(v, c, s)
    ensures StrictlyAscending(xs[2..]) && forall i :: 2 <= i < |xs| ==> xs[i] < c
  {
    CanonicalIsAscending(s);
    var S := Canonical(s);
    xs := [v, c] + S;
    assert xs[2..] == S;
    forall i | 2 <= i < |xs|
      ensures xs[i] < c
    {
      assert S[i - 2] in Elems(s);
      var k :| 0 <= k < |s| && s[k] == S[i - 2];
    }
  }

  lemma {:induction false} Climbs(s: seq<nat>, k: nat)
    requires StrictlyAscending(s) && k < |s|
    ensures s[k] >= k
  {
    if k > 0 {
      Climbs(s, k - 1);
      assert s[k - 1] < s[k];
    }
  }

  /** Only the version, or the index 0, can be a multiple of 256 there. */
  lemma OverlapIsShort(xs: seq<nat>, n: nat, c: nat)
    requires 0 < n && n + 2 <= |xs| && xs[1] == c <= MAX_BBS_MESSAGES && xs[n - 1] % 256 == 0
    requires StrictlyAscending(xs[2..]) && forall i :: 2 <= i < |xs| ==> xs[i] < c
    ensures n == 1 || (n == 3 && xs[2] == 0 && c >= 3)
  {
    assert xs[|xs| - 1] < c;
    if n >= 3 {
      var S := xs[2..];
      Climbs(S, n - 3);
      Climbs(S, n - 1);
      assert S[n - 3] == xs[n - 1] && S[n - 1] == xs[n + 1];
    }
  }

  lemma CollisionHasATail(a: Bytes, v: nat, c: nat, s: seq<nat>, b: Bytes, w: nat, d: nat, t: seq<nat>)
    requires Carried(v, c, s) && Carried(w, d, t) && |a| < |b|
    requires a + ([0] + Numbers(v, c, s)) == b + ([0] + Numbers(w, d, t))
    ensures VersionTail(a, b) || CountTail(a, b)
  {
    var u := b[|a| + 1..];
    LongerId(a, Numbers(v, c, s), b, Numbers(w, d, t));
    var xs := NumbersOf(v, c, s);
    var ys := NumbersOf(w, d, t);
    var n := NumbersOverlap(xs, ys, u);
    OverlapIsShort(xs, n, c);
    if n == 3 {
      var head := xs[..3];
      assert head == [v, c] + [0];
      PackedHead(v, c, [0]);
      assert [0][1..] == [] && Packed([0]) == BigEndian(0, 4) + [];
      Zero32();
      Capacities();
      DecodeEncode(c, 4);
      assert u + [0] == BigEndian(v, 4) + (BigEndian(c, 4) + [0, 0, 0, 0]);
      assert b[|a| + 5..|a| + 9] == (u + [0])[4..8] == BigEndian(c, 4);
      assert b[|a| + 9..] == (u + [0])[8..11] == [0, 0, 0];
    }
  }

  /**
   Two different ids can share a policy preimage exactly when one is the other with a NUL and a version's three bytes
   behind it, or with a NUL, a version, a claim count of 3 to 64 and three NULs.
   */
  lemma IdsCollideIff(a: Bytes, b: Bytes)
    requires a != b
    ensures Collide(a, b) <==> VersionTail(a, b) || CountTail(a, b) || VersionTail(b, a) || CountTail(b, a)
  {
    if v, c, s, w, d, t :| Carried(v, c, s) && Carried(w, d, t) && Preimage(a, v, c, s) == Preimage(b, w, d, t) {
      var x, y := Numbers(v, c, s), Numbers(w, d, t);
      CutEqual(DOMAIN + [0], a + ([0] + x), b + ([0] + y));
      if |a| < |b| {
        CollisionHasATail(a, v, c, s, b, w, d, t);
      } else if |b| < |a| {
        CollisionHasATail(b, w, d, t, a, v, c, s);
      } else {
        SameLengthSameId(a, x, b, y);
      }
    }
    if VersionTail(a, b) {
      VersionTailCollides(a, b);
    } else if CountTail(a, b) {
      CountTailCollides(a, b);
    } else if VersionTail(b, a) {
      VersionTailCollides(b, a);
      CollideIsSymmetric(b, a);
    } else if CountTail(b, a) {
      CountTailCollides(b, a);
      CollideIsSymmetric(b, a);
    }
  }

  lemma CollideIsSymmetric(a: Bytes, b: Bytes)
    requires Collide(a, b)
    ensures Collide(b, a)
  {
    var v, c, s, w, d, t :| Carried(v, c, s) && Carried(w, d, t) && Preimage(a, v, c, s) == Preimage(b, w, d, t);
    assert Carried(w, d, t) && Carried(v, c, s) && Preimage(b, w, d, t) == Preimage(a, v, c, s);
  }
}
