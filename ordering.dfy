/**
 * Python's ordering of strings (lexicographic by code point) and
 * `sorted(list(s))` for a set of strings: the one strictly ascending list
 * whose elements are exactly `s`.
 */
module Ordering {

  /** `a < b` on Python strings. */
  predicate Lt(a: string, b: string) {
    if a == [] then b != []
    else b != [] && (a[0] < b[0] || (a[0] == b[0] && Lt(a[1..], b[1..])))
  }

  lemma {:induction false} LtIrreflexive(a: string)
    ensures !Lt(a, a)
  {
    if a != [] { LtIrreflexive(a[1..]); }
  }

  lemma {:induction false} LtAsymmetric(a: string, b: string)
    requires Lt(a, b)
    ensures !Lt(b, a)
  {
    if a != [] && b != [] && a[0] == b[0] { LtAsymmetric(a[1..], b[1..]); }
  }

  lemma {:induction false} LtTransitive(a: string, b: string, c: string)
    requires Lt(a, b) && Lt(b, c)
    ensures Lt(a, c)
  {
    if a != [] && a[0] == b[0] && b[0] == c[0] { LtTransitive(a[1..], b[1..], c[1..]); }
  }

  lemma {:induction false} LtTotal(a: string, b: string)
    ensures a == b || Lt(a, b) || Lt(b, a)
  {
    if a != [] && b != [] && a[0] == b[0] {
      LtTotal(a[1..], b[1..]);
      assert a == [a[0]] + a[1..] && b == [b[0]] + b[1..];
    }
  }

  /** Strictly ascending, so also free of duplicates. */
  predicate StrictlySorted(xs: seq<string>) {
    forall i, j :: 0 <= i < j < |xs| ==> Lt(xs[i], xs[j])
  }

  function SetOf(xs: seq<string>): set<string> {
    set x | x in xs
  }

  lemma {:induction false} SortedHeadNotInTail(xs: seq<string>)
    requires StrictlySorted(xs) && xs != []
    ensures xs[0] !in xs[1..]
    ensures SetOf(xs) == {xs[0]} + SetOf(xs[1..])
  {
    if xs[0] in xs[1..] {
      var j :| 0 <= j < |xs[1..]| && xs[1..][j] == xs[0];
      assert Lt(xs[0], xs[j + 1]);
      LtIrreflexive(xs[0]);
    }
    assert xs == [xs[0]] + xs[1..];
  }

  /** A duplicate-free list is as long as its set is large. */
  lemma {:induction false} SortedCard(xs: seq<string>)
    requires StrictlySorted(xs)
    ensures |SetOf(xs)| == |xs|
  {
    if xs != [] {
      SortedHeadNotInTail(xs);
      SortedCard(xs[1..]);
    }
  }

  /** Two strictly ascending lists with the same elements are the same list. */
  lemma {:induction false} SortedUnique(a: seq<string>, b: seq<string>)
    requires StrictlySorted(a) && StrictlySorted(b) && SetOf(a) == SetOf(b)
    ensures a == b
  {
    if a != [] { assert a[0] in SetOf(a); }
    if b != [] { assert b[0] in SetOf(b); }
    if a != [] && b != [] {
      if a[0] != b[0] {
        assert a[0] in SetOf(b);
        var j :| 0 <= j < |b| && b[j] == a[0];
        assert b[0] in SetOf(a);
        var i :| 0 <= i < |a| && a[i] == b[0];
        assert Lt(b[0], a[0]) && Lt(a[0], b[0]);
        LtAsymmetric(a[0], b[0]);
      }
      SortedHeadNotInTail(a);
      SortedHeadNotInTail(b);
      assert SetOf(a[1..]) == SetOf(a) - {a[0]};
      assert SetOf(b[1..]) == SetOf(b) - {b[0]};
      SortedUnique(a[1..], b[1..]);
      assert a == [a[0]] + a[1..] && b == [b[0]] + b[1..];
    }
  }

  /** The least element of a non-empty set. */
  ghost function MinOf(s: set<string>): (m: string)
    requires s != {}
    ensures m in s && forall x :: x in s && x != m ==> Lt(m, x)
    decreases |s|
  {
    var y :| y in s;
    if s == {y} then y
    else
      var m := MinOf(s - {y});
      MinStep(s, y, m);
      if Lt(y, m) then y else m
  }

  /** Adding `y` to a set whose least element is `m`. */
  lemma MinStep(s: set<string>, y: string, m: string)
    requires y in s && m in s - {y}
    requires forall x :: x in s - {y} && x != m ==> Lt(m, x)
    ensures Lt(y, m) ==> forall x :: x in s && x != y ==> Lt(y, x)
    ensures !Lt(y, m) ==> forall x :: x in s && x != m ==> Lt(m, x)
  {
    LtTotal(y, m);
    if Lt(y, m) {
      forall x | x in s && x != y
        ensures Lt(y, x)
      {
        if x != m { LtTransitive(y, m, x); }
      }
    }
  }

  /** A list stays strictly ascending when an element below all of it is put in front. */
  lemma ConsSorted(m: string, rest: seq<string>)
    requires StrictlySorted(rest)
    requires forall x :: x in rest ==> Lt(m, x)
    ensures StrictlySorted([m] + rest)
    ensures SetOf([m] + rest) == {m} + SetOf(rest)
  {
    var r := [m] + rest;
    forall i, j | 0 <= i < j < |r|
      ensures Lt(r[i], r[j])
    {
      assert r[j] == rest[j - 1];
      if i == 0 {
        assert rest[j - 1] in rest;
      } else {
        assert r[i] == rest[i - 1];
      }
    }
  }

  /** `sorted(list(s))`, the reference every sorting in the model is proved against. */
  ghost function SortedSet(s: set<string>): (r: seq<string>)
    ensures StrictlySorted(r) && SetOf(r) == s && |r| == |s|
    decreases |s|
  {
    if s == {} then []
    else
      var m := MinOf(s);
      var rest := SortedSet(s - {m});
      SortedSetStep(s, m, rest);
      [m] + rest
  }

  /** Putting the least element in front of the sorted rest sorts the whole set. */
  lemma SortedSetStep(s: set<string>, m: string, rest: seq<string>)
    requires m in s && forall x :: x in s && x != m ==> Lt(m, x)
    requires StrictlySorted(rest) && SetOf(rest) == s - {m} && |rest| == |s - {m}|
    ensures StrictlySorted([m] + rest) && SetOf([m] + rest) == s && |[m] + rest| == |s|
  {
    forall x | x in rest ensures Lt(m, x) { assert x in SetOf(rest); }
    ConsSorted(m, rest);
  }

  /** The sorted list of a set is the only strictly ascending list of its elements. */
  lemma SortedSetIsOnly(xs: seq<string>, s: set<string>)
    requires StrictlySorted(xs) && SetOf(xs) == s
    ensures xs == SortedSet(s)
  {
    SortedUnique(xs, SortedSet(s));
  }

  /** Inserts `x` into a strictly ascending list, unless it is already there. */
  function Insert(xs: seq<string>, x: string): (r: seq<string>)
    requires StrictlySorted(xs)
    ensures StrictlySorted(r) && SetOf(r) == SetOf(xs) + {x}
  {
    if xs == [] then [x]
    else if x == xs[0] then xs
    else if Lt(x, xs[0]) then
      BelowHead(xs, x);
      ConsSorted(x, xs);
      [x] + xs
    else
      LtTotal(x, xs[0]);
      var tail := Insert(xs[1..], x);
      AboveHead(xs, x, tail);
      [xs[0]] + tail
  }

  /** Below the head of a strictly ascending list is below all of it. */
  lemma BelowHead(xs: seq<string>, x: string)
    requires StrictlySorted(xs) && xs != [] && Lt(x, xs[0])
    ensures forall y :: y in xs ==> Lt(x, y)
  {
    forall y | y in xs ensures Lt(x, y) {
      if y != xs[0] {
        var j :| 0 <= j < |xs| && xs[j] == y;
        LtTransitive(x, xs[0], xs[j]);
      }
    }
  }

  /** The head stays in front when `x`, above it, goes into the tail. */
  lemma AboveHead(xs: seq<string>, x: string, tail: seq<string>)
    requires StrictlySorted(xs) && xs != [] && Lt(xs[0], x)
    requires StrictlySorted(tail) && SetOf(tail) == SetOf(xs[1..]) + {x}
    ensures StrictlySorted([xs[0]] + tail) && SetOf([xs[0]] + tail) == SetOf(xs) + {x}
  {
    forall y | y in tail ensures Lt(xs[0], y) {
      assert y in SetOf(tail);
      if y != x {
        var j :| 0 <= j < |xs[1..]| && xs[1..][j] == y;
        assert xs[j + 1] == y;
      }
    }
    ConsSorted(xs[0], tail);
    assert xs == [xs[0]] + xs[1..];
    assert SetOf(xs) == {xs[0]} + SetOf(xs[1..]);
  }

  /** `sorted(set(xs))` for a list: the same as sorting the set of its elements. */
  function SortUnique(xs: seq<string>): (r: seq<string>)
    ensures StrictlySorted(r) && SetOf(r) == SetOf(xs)
  {
    if xs == [] then []
    else
      assert SetOf(xs) == SetOf(xs[..|xs| - 1]) + {xs[|xs| - 1]} by {
        assert xs == xs[..|xs| - 1] + [xs[|xs| - 1]];
      }
      Insert(SortUnique(xs[..|xs| - 1]), xs[|xs| - 1])
  }

  /** `sorted(list(s))` for a set, one element at a time. */
  method SortSet(s: set<string>) returns (r: seq<string>)
    ensures r == SortedSet(s)
  {
    r := [];
    var todo := s;
    while todo != {}
      invariant todo <= s
      invariant StrictlySorted(r) && SetOf(r) == s - todo
      decreases |todo|
    {
      var x :| x in todo;
      r := Insert(r, x);
      todo := todo - {x};
    }
    SortedSetIsOnly(r, s);
  }
}
