/** Sequence identities the solver does not find on its own. */
module Seqs {
  lemma TailOfAppend<T>(a: seq<T>, b: seq<T>)
    requires a != []
    ensures a + b != [] && (a + b)[0] == a[0] && (a + b)[1..] == a[1..] + b
  {}

  lemma TailOfCons<T>(x: T, rest: seq<T>)
    ensures ([x] + rest)[0] == x && ([x] + rest)[1..] == rest
  {}

  lemma NothingAdded<T>(a: seq<T>)
    ensures a + [] == a && [] + a == a
  {}

  lemma AppendAssociates<T>(a: seq<T>, b: seq<T>, c: seq<T>)
    ensures (a + b) + c == a + (b + c)
  {}

  /** An element occurs once exactly when no other index holds it. */
  lemma CountedOnce<T>(s: seq<T>, f: nat)
    requires f < |s|
    ensures multiset(s)[s[f]] >= 1
    ensures multiset(s)[s[f]] == 1 <==> forall g :: 0 <= g < |s| && s[g] == s[f] ==> g == f
  {
    assert s == s[..f] + [s[f]] + s[f + 1..];
    assert multiset(s) == multiset(s[..f]) + multiset{s[f]} + multiset(s[f + 1..]);
    if multiset(s)[s[f]] > 1 {
      if s[f] in s[..f] {
        var g :| 0 <= g < f && s[..f][g] == s[f];
        assert s[g] == s[f];
      } else {
        assert s[f] in s[f + 1..];
        var g :| 0 <= g < |s[f + 1..]| && s[f + 1..][g] == s[f];
        assert s[f + 1 + g] == s[f];
      }
    }
    if g :| 0 <= g < |s| && s[g] == s[f] && g != f {
      if g < f {
        assert s[..f][g] == s[f];
      } else {
        assert s[f + 1..][g - f - 1] == s[f];
      }
    }
  }
}
