/** Facts about lists and their multisets of elements. */
module Seqs {

  /**
   * When `t` is a reordering of `s`, the last element of `s` sits somewhere
   * in `t`, and the rest of `s` is a reordering of `t` without it.
   */
  lemma LastInPermutation<T>(s: seq<T>, t: seq<T>) returns (i: nat)
    requires s != [] && multiset(s) == multiset(t)
    ensures i < |t| && t[i] == s[|s| - 1]
    ensures multiset(s[..|s| - 1]) == multiset(t[..i] + t[i + 1..])
    ensures t == t[..i] + [t[i]] + t[i + 1..]
  {
    var x := s[|s| - 1];
    assert s == s[..|s| - 1] + [x];
    assert multiset(s) == multiset(s[..|s| - 1]) + multiset([x]);
    assert x in multiset(t);
    i :| 0 <= i < |t| && t[i] == x;
    assert t == t[..i] + [x] + t[i + 1..];
    assert multiset(t) == multiset(t[..i]) + multiset([x]) + multiset(t[i + 1..]);
    var m, r := multiset(s[..|s| - 1]), multiset(t[..i] + t[i + 1..]);
    assert r == multiset(t[..i]) + multiset(t[i + 1..]);
    assert m + multiset{x} == r + multiset{x};
    assert m == (m + multiset{x}) - multiset{x};
    assert r == (r + multiset{x}) - multiset{x};
  }

  /** A reordering of the empty list is empty. */
  lemma EmptyPermutation<T>(t: seq<T>)
    requires multiset(t) == multiset{}
    ensures t == []
  {
    assert |t| == |multiset(t)|;
  }
}
