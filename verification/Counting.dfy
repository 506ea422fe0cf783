/** Counting facts about finite sets, maps and duplicate-free lists. */
module Counting {

  /** An injective map sends a set to one of the same size. */
  lemma {:induction false} InjectiveImageSize<K, V>(s: set<K>, m: map<K, V>)
    requires s <= m.Keys
    requires forall k, l :: k in s && l in s && m[k] == m[l] ==> k == l
    ensures |set k | k in s :: m[k]| == |s|
  {
    var image := set k | k in s :: m[k];
    if s == {} {
      assert image == {};
    } else {
      var x :| x in s;
      var rest := set k | k in s - {x} :: m[k];
      InjectiveImageSize(s - {x}, m);
      assert image == rest + {m[x]};
    }
  }

  lemma SubsetSize<T>(a: set<T>, b: set<T>)
    requires a <= b
    ensures |a| <= |b|
  {
    assert b == a + (b - a);
  }

  lemma ProperSubsetSize<T>(a: set<T>, b: set<T>, x: T)
    requires a <= b && x in b && x !in a
    ensures |a| < |b|
  {
    SubsetSize(a + {x}, b);
  }

  lemma {:induction false} NoDupSize<T>(s: seq<T>, elems: set<T>)
    requires forall i, j :: 0 <= i < j < |s| ==> s[i] != s[j]
    requires forall x :: x in s <==> x in elems
    ensures |s| == |elems|
  {
    if s != [] {
      var last := s[|s| - 1];
      NoDupSize(s[..|s| - 1], elems - {last});
      assert elems == (elems - {last}) + {last};
    } else {
      assert elems == {};
    }
  }
}
