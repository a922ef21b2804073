/** Sequence operations shared by both dashboards: the JavaScript array
    operation `filter` and the insertion-ordered de-duplication that
    `[...new Set(xs)]` performs, with the first-position helper that states
    that order. */
module Seqs {

  /** `a` is obtained from `b` by deleting elements, keeping the order of the rest. */
  predicate IsSubsequence<T(==)>(a: seq<T>, b: seq<T>)
  {
    if a == [] then true
    else if b == [] then false
    else (a[0] == b[0] && IsSubsequence(a[1..], b[1..])) || IsSubsequence(a, b[1..])
  }

  /** No element occurs twice. */
  predicate NoDuplicates<T(==)>(s: seq<T>)
  {
    forall i, j :: 0 <= i < j < |s| ==> s[i] != s[j]
  }

  /** JavaScript's `xs.filter(keep)`: the elements satisfying `keep`, in order. */
  function Filter<T>(s: seq<T>, keep: T -> bool): (r: seq<T>)
    ensures |r| <= |s|
  {
    if s == [] then []
    else (if keep(s[0]) then [s[0]] else []) + Filter(s[1..], keep)
  }

  /** Soundness and completeness: the filter holds exactly the input's
      elements that satisfy `keep`. */
  lemma {:induction false} FilterMembership<T>(s: seq<T>, keep: T -> bool)
    ensures forall x :: x in Filter(s, keep) ==> x in s && keep(x)
    ensures forall x :: x in s && keep(x) ==> x in Filter(s, keep)
  {
    if s != [] {
      FilterMembership(s[1..], keep);
      assert s == [s[0]] + s[1..];
    }
  }

  lemma {:induction false} FilterIsSubsequence<T>(s: seq<T>, keep: T -> bool)
    ensures IsSubsequence(Filter(s, keep), s)
  {
    if s != [] {
      var r := Filter(s, keep);
      FilterIsSubsequence(s[1..], keep);
      if keep(s[0]) {
        assert r[0] == s[0] && r[1..] == Filter(s[1..], keep);
      } else {
        assert r == Filter(s[1..], keep);
        if r != [] {
          assert !(r[0] == s[0] && IsSubsequence(r[1..], s[1..])) ==> IsSubsequence(r, s[1..]);
        }
      }
    }
  }

  /** The filter keeps every copy of an accepted value and no copy of a rejected one. */
  lemma {:induction false} FilterCount<T>(s: seq<T>, keep: T -> bool, x: T)
    ensures multiset(Filter(s, keep))[x] == if keep(x) then multiset(s)[x] else 0
  {
    if s != [] {
      FilterCount(s[1..], keep, x);
      assert s == [s[0]] + s[1..];
      assert multiset(s) == multiset([s[0]]) + multiset(s[1..]);
      var head := if keep(s[0]) then [s[0]] else [];
      assert multiset(Filter(s, keep)) == multiset(head) + multiset(Filter(s[1..], keep));
    }
  }

  /** A filter that rejects nothing returns its input unchanged. */
  lemma {:induction false} FilterKeepsAll<T>(s: seq<T>, keep: T -> bool)
    requires forall x :: x in s ==> keep(x)
    ensures Filter(s, keep) == s
  {
    if s != [] {
      assert forall x :: x in s[1..] ==> x in s;
      FilterKeepsAll(s[1..], keep);
      assert s == [s[0]] + s[1..];
    }
  }

  /** Filtering distributes over concatenation. */
  lemma {:induction false} FilterAppend<T>(a: seq<T>, b: seq<T>, keep: T -> bool)
    ensures Filter(a + b, keep) == Filter(a, keep) + Filter(b, keep)
  {
    if a != [] {
      assert (a + b)[1..] == a[1..] + b;
      FilterAppend(a[1..], b, keep);
    } else {
      assert a + b == b;
    }
  }

  /** Filtering a four-element sequence, written out. */
  lemma FilterOfFour<T>(a: T, b: T, c: T, d: T, keep: T -> bool)
    ensures Filter([a, b, c, d], keep) ==
            (if keep(a) then [a] else []) + (if keep(b) then [b] else []) +
            (if keep(c) then [c] else []) + (if keep(d) then [d] else [])
  {
    var s := [a, b, c, d];
    assert s[1..] == [b, c, d] && s[1..][1..] == [c, d] && s[1..][1..][1..] == [d];
    assert Filter([d], keep) == (if keep(d) then [d] else []);
    assert Filter([c, d], keep) == (if keep(c) then [c] else []) + Filter([d], keep);
    assert Filter([b, c, d], keep) == (if keep(b) then [b] else []) + Filter([c, d], keep);
  }

  /** Filtering a three-element sequence, written out. */
  lemma FilterOfThree<T>(a: T, b: T, c: T, keep: T -> bool)
    ensures Filter([a, b, c], keep) ==
            (if keep(a) then [a] else []) + (if keep(b) then [b] else []) + (if keep(c) then [c] else [])
  {
    var s := [a, b, c];
    assert s[1..] == [b, c] && s[1..][1..] == [c];
    assert Filter([c], keep) == (if keep(c) then [c] else []);
    assert Filter([b, c], keep) == (if keep(b) then [b] else []) + Filter([c], keep);
  }

  /** Filtering never introduces a duplicate. */
  lemma {:induction false} FilterNoDuplicates<T>(s: seq<T>, keep: T -> bool)
    requires NoDuplicates(s)
    ensures NoDuplicates(Filter(s, keep))
  {
    if s != [] {
      FilterNoDuplicates(s[1..], keep);
      FilterMembership(s[1..], keep);
      var rest := Filter(s[1..], keep);
      assert s[0] !in s[1..] by {
        forall k | 0 <= k < |s[1..]| ensures s[1..][k] != s[0] {
          assert s[1..][k] == s[k + 1];
        }
      }
      assert s[0] !in rest;
    }
  }

  /** The first position of an element that is present; used to state the
      insertion order of a de-duplicated list. */
  function IndexOf<T(==)>(s: seq<T>, x: T): (k: nat)
    requires x in s
    ensures k < |s| && s[k] == x
    ensures x !in s[..k]
  {
    if s[0] == x then 0
    else
      assert x in s[1..] by { assert s == [s[0]] + s[1..]; }
      var k' := IndexOf(s[1..], x);
      assert s[..k' + 1] == [s[0]] + s[1..][..k'];
      k' + 1
  }

  /** The first position of an element does not move when elements are appended. */
  lemma IndexOfPrefix<T>(s: seq<T>, t: seq<T>, x: T)
    requires x in s
    ensures x in s + t && IndexOf(s + t, x) == IndexOf(s, x)
  {
    var k, k' := IndexOf(s, x), IndexOf(s + t, x);
    assert (s + t)[k] == x;
  }

  /** The distinct elements of `s`, each kept where it first occurs:
      the contents of `[...new Set(s)]`. */
  function Distinct<T(==)>(s: seq<T>): (r: seq<T>)
    ensures |r| <= |s|
    ensures NoDuplicates(r)
    ensures forall x :: x in r ==> x in s
    ensures forall x :: x in s ==> x in r
  {
    if s == [] then []
    else
      var init, last := s[..|s| - 1], s[|s| - 1];
      assert s == init + [last];
      var rest := Distinct(init);
      if last in rest then rest else rest + [last]
  }

  /** Distinct keeps first occurrences: earlier entries of the result first
      occur earlier in the input. */
  lemma {:induction false} DistinctFirstOccurrenceOrder<T>(s: seq<T>)
    ensures forall i, j :: 0 <= i < j < |Distinct(s)| ==>
              IndexOf(s, Distinct(s)[i]) < IndexOf(s, Distinct(s)[j])
  {
    if s != [] {
      var init, last := s[..|s| - 1], s[|s| - 1];
      assert s == init + [last];
      var rest := Distinct(init);
      DistinctFirstOccurrenceOrder(init);
      forall x | x in rest
        ensures IndexOf(s, x) == IndexOf(init, x)
      {
        IndexOfPrefix(init, [last], x);
      }
      if last !in rest {
        var r := Distinct(s);
        assert r == rest + [last];
        assert IndexOf(s, last) == |s| - 1 by {
          assert last !in init;
        }
        forall i, j | 0 <= i < j < |r|
          ensures IndexOf(s, r[i]) < IndexOf(s, r[j])
        {
          if j < |rest| {
            assert r[i] == rest[i] && r[j] == rest[j];
          } else {
            assert r[i] == rest[i] && r[i] in rest;
          }
        }
      }
    }
  }

  /** Distinct selects, in order, some of the input's elements. */
  lemma {:induction false} DistinctIsSubsequence<T>(s: seq<T>)
    ensures IsSubsequence(Distinct(s), s)
  {
    if s != [] {
      var init, last := s[..|s| - 1], s[|s| - 1];
      assert s == init + [last];
      DistinctIsSubsequence(init);
      SubsequenceAppend(Distinct(init), init, last);
    }
  }

  /** Appending to the longer sequence keeps a subsequence; appending to both keeps it too. */
  lemma {:induction false} SubsequenceAppend<T>(a: seq<T>, b: seq<T>, x: T)
    requires IsSubsequence(a, b)
    ensures IsSubsequence(a, b + [x]) && IsSubsequence(a + [x], b + [x])
  {
    if a == [] {
      assert IsSubsequence([x], [x]) by { assert [x][1..] == []; }
      if b != [] {
        SubsequenceAppend(a, b[1..], x);
        assert (b + [x])[1..] == b[1..] + [x];
      }
    } else {
      assert b != [];
      assert (b + [x])[1..] == b[1..] + [x];
      assert (a + [x])[1..] == a[1..] + [x];
      if a[0] == b[0] && IsSubsequence(a[1..], b[1..]) {
        SubsequenceAppend(a[1..], b[1..], x);
      } else {
        SubsequenceAppend(a, b[1..], x);
      }
    }
  }
}
