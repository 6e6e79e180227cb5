/** Order-preserving filtering, the one list primitive the data-access layer
    and the history screen both rely on (`Array.prototype.filter`). */
module Seqs {

  /** `a` can be obtained from `b` by deleting elements, without reordering. */
  predicate IsSubsequence<T(==)>(a: seq<T>, b: seq<T>)
    decreases |b|
  {
    a == [] || (b != [] && ((a[0] == b[0] && IsSubsequence(a[1..], b[1..])) || IsSubsequence(a, b[1..])))
  }

  /** `s.filter(p)`: the elements satisfying `p`, in their original order. */
  function Filter<T(==,!new)>(s: seq<T>, p: T -> bool): (r: seq<T>)
    ensures |r| <= |s|
    ensures forall i :: 0 <= i < |r| ==> p(r[i])
    ensures IsSubsequence(r, s)
  {
    if s == [] then []
    else
      var rest := Filter(s[1..], p);
      assert s == [s[0]] + s[1..];
      if p(s[0]) then [s[0]] + rest else rest
  }

  /** Filtering keeps exactly the elements that satisfy the predicate. */
  lemma {:induction false} FilterMembership<T(!new)>(s: seq<T>, p: T -> bool, x: T)
    ensures x in Filter(s, p) <==> x in s && p(x)
  {
    if s != [] {
      FilterMembership(s[1..], p, x);
      assert s == [s[0]] + s[1..];
    }
  }

  /** Filtering keeps every copy of an element that satisfies the predicate
      and no copy of one that does not. */
  lemma {:induction false} FilterMultiplicity<T(!new)>(s: seq<T>, p: T -> bool, x: T)
    ensures multiset(Filter(s, p))[x] == if p(x) then multiset(s)[x] else 0
  {
    if s != [] {
      FilterMultiplicity(s[1..], p, x);
      assert s == [s[0]] + s[1..];
    }
  }

  /** Filtering a list with one more element at its end. */
  lemma {:induction false} FilterAppend<T(!new)>(s: seq<T>, x: T, p: T -> bool)
    ensures Filter(s + [x], p) == Filter(s, p) + (if p(x) then [x] else [])
  {
    if s == [] {
      assert [x][1..] == [];
      assert s + [x] == [x];
    } else {
      var t := s + [x];
      assert t[0] == s[0] && t[1..] == s[1..] + [x];
      FilterAppend(s[1..], x, p);
      var tail := if p(x) then [x] else [];
      if p(s[0]) {
        calc {
          Filter(t, p);
          [s[0]] + Filter(s[1..] + [x], p);
          [s[0]] + (Filter(s[1..], p) + tail);
          ([s[0]] + Filter(s[1..], p)) + tail;
        }
      } else {
        assert Filter(t, p) == Filter(s[1..] + [x], p);
      }
    }
  }

  /** `s.reverse()`: the same elements, last first. */
  function Reverse<T>(s: seq<T>): (r: seq<T>)
    ensures |r| == |s|
  {
    seq(|s|, i requires 0 <= i < |s| => s[|s| - 1 - i])
  }

  /** Reversal changes the order, not the elements. */
  lemma ReverseMembership<T>(s: seq<T>, x: T)
    ensures x in Reverse(s) <==> x in s
  {
    if x in s {
      var i :| 0 <= i < |s| && s[i] == x;
      assert Reverse(s)[|s| - 1 - i] == x;
    }
  }

  /** Reversing twice gives the list back. */
  lemma ReverseReverse<T>(s: seq<T>)
    ensures Reverse(Reverse(s)) == s
  {
  }

  /** A filter that every element passes returns the list itself. */
  lemma {:induction false} FilterAll<T(!new)>(s: seq<T>, p: T -> bool)
    requires forall i :: 0 <= i < |s| ==> p(s[i])
    ensures Filter(s, p) == s
  {
    if s != [] {
      FilterAll(s[1..], p);
    }
  }
}
