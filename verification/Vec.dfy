/** Sorting of vectors and removal of adjacent duplicates. */
module Vectors {

  function InsertBy<X(!new)>(key: X -> int, x: X, s: seq<X>): (r: seq<X>)
    ensures |r| == |s| + 1
    ensures forall y :: y in r <==> y == x || y in s
  {
    if s == [] then [x]
    else if key(x) <= key(s[0]) then [x] + s
    else
      assert s == [s[0]] + s[1..];
      [s[0]] + InsertBy(key, x, s[1..])
  }

  function SortBy<X(!new)>(key: X -> int, s: seq<X>): (r: seq<X>)
    ensures |r| == |s|
    ensures forall y :: y in r <==> y in s
  {
    if s == [] then []
    else
      assert s == [s[0]] + s[1..];
      InsertBy(key, s[0], SortBy(key, s[1..]))
  }

  ghost predicate SortedBy<X(!new)>(key: X -> int, s: seq<X>) {
    forall i, j | 0 <= i < j < |s| :: key(s[i]) <= key(s[j])
  }

  lemma {:induction false} InsertSorted<X(!new)>(key: X -> int, x: X, s: seq<X>)
    requires SortedBy(key, s)
    ensures SortedBy(key, InsertBy(key, x, s))
  {
    if s != [] && key(x) > key(s[0]) {
      InsertSorted(key, x, s[1..]);
      var r := InsertBy(key, x, s[1..]);
      forall i | 0 <= i < |r| ensures key(s[0]) <= key(r[i]) {
        assert r[i] in r;
        assert r[i] != x ==> r[i] in s[1..];
      }
    }
  }

  lemma {:induction false} SortSorted<X(!new)>(key: X -> int, s: seq<X>)
    ensures SortedBy(key, SortBy(key, s))
  {
    if s != [] {
      SortSorted(key, s[1..]);
      InsertSorted(key, s[0], SortBy(key, s[1..]));
    }
  }

  /** The keys of the elements grow from each to the next. */
  ghost predicate Ascends<X(!new)>(key: X -> int, s: seq<X>) {
    forall i, j | 0 <= i < j < |s| :: key(s[i]) < key(s[j])
  }

  lemma AscendsMore<X(!new)>(key: X -> int, s: seq<X>, x: X)
    requires Ascends(key, s) && (s != [] ==> key(s[|s| - 1]) < key(x))
    ensures Ascends(key, s + [x])
  {
  }

  lemma HeadIsIn<X(!new)>(s: seq<X>)
    ensures s == [] || s[0] in s
  {
  }

  /** An ascending sequence is determined by its elements. */
  lemma {:induction false} AscendingUnique<X(!new)>(key: X -> int, s: seq<X>, t: seq<X>)
    requires Ascends(key, s) && Ascends(key, t) && forall x :: x in s <==> x in t
    ensures s == t
    decreases |s|
  {
    HeadIsIn(s);
    HeadIsIn(t);
    if s != [] {
      var i :| 0 <= i < |t| && t[i] == s[0];
      var j :| 0 <= j < |s| && s[j] == t[0];
      assert s[0] == t[0];
      forall x ensures x in s[1..] <==> x in t[1..] {
        assert x in s[1..] ==> x in s && x != s[0];
        assert x in t[1..] ==> x in t && x != t[0];
      }
      AscendingUnique(key, s[1..], t[1..]);
      assert s == [s[0]] + s[1..] && t == [t[0]] + t[1..];
    }
  }

  function Ascending(x: nat): int {
    x
  }

  /** The order that the source defines on references is the opposite of the order of their numbers. */
  function Descending(x: nat): int {
    0 - x
  }

  /** Keeps the first of every run of equal elements. */
  method Uniq<T(==)>(v: seq<T>) returns (r: seq<T>)
    ensures forall x :: x in r <==> x in v
    ensures forall i | 0 <= i < |r| - 1 :: r[i] != r[i + 1]
    ensures |r| <= |v| && (v != [] ==> r != [])
  {
    if v == [] {
      return v;
    }
    r := [v[0]];
    var prev := v[0];
    for i := 1 to |v|
      invariant 0 < |r| <= i && prev == r[|r| - 1] == v[i - 1]
      invariant forall x :: x in r <==> x in v[..i]
      invariant forall k | 0 <= k < |r| - 1 :: r[k] != r[k + 1]
    {
      assert v[..i + 1] == v[..i] + [v[i]];
      if v[i] != prev {
        r := r + [v[i]];
        prev := v[i];
      }
    }
    assert v[..|v|] == v;
  }
}
