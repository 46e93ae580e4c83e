/** `java.util.Arrays.sort` on `int[]`: an ascending sort in place. The
    library's algorithm is not part of this model; its result is, and a
    sorted permutation is unique, so any correct sort yields `Sort(s)`. */
module Sorting {

  predicate Sorted(s: seq<int>)
  {
    forall a, b :: 0 <= a < b < |s| ==> s[a] <= s[b]
  }

  /** Puts `x` into its place in the sorted sequence `s`. */
  function Insert(x: int, s: seq<int>): (r: seq<int>)
    requires Sorted(s)
    ensures Sorted(r)
    ensures multiset(r) == multiset(s) + multiset{x}
    ensures |r| == |s| + 1
  {
    if s == [] || x <= s[0] then
      SortedBelowHead(x, s);
      [x] + s
    else
      SortedTail(s);
      var rest := Insert(x, s[1..]);
      assert s == [s[0]] + s[1..];
      InsertBound(x, s, rest);
      SortedCons(s[0], rest);
      [s[0]] + rest
  }

  /** Everything in `rest`, the insertion of `x > s[0]` into `s[1..]`, is at least `s[0]`. */
  lemma InsertBound(x: int, s: seq<int>, rest: seq<int>)
    requires Sorted(s) && s != [] && s[0] < x
    requires multiset(rest) == multiset(s[1..]) + multiset{x}
    ensures forall e :: e in rest ==> s[0] <= e
  {
    forall e | e in rest ensures s[0] <= e {
      assert e in multiset(rest);
      if e != x {
        assert e in s[1..];
        var t :| 0 <= t < |s[1..]| && s[1..][t] == e;
        assert s[t + 1] == e;
      }
    }
  }

  /** An `x` no larger than the head of a sorted `s` can go in front of it. */
  lemma SortedBelowHead(x: int, s: seq<int>)
    requires Sorted(s) && (s == [] || x <= s[0])
    ensures Sorted([x] + s)
  {
    forall e | e in s ensures x <= e {
      SortedHead(s, e);
    }
    SortedCons(x, s);
  }

  lemma SortedTail(s: seq<int>)
    requires Sorted(s) && s != []
    ensures Sorted(s[1..])
  {
    forall a, b | 0 <= a < b < |s| - 1 ensures s[1..][a] <= s[1..][b] {
      assert s[1..][a] == s[a + 1] && s[1..][b] == s[b + 1];
    }
  }

  lemma SortedCons(h: int, t: seq<int>)
    requires Sorted(t)
    requires forall e :: e in t ==> h <= e
    ensures Sorted([h] + t)
  {
    forall a, b | 0 <= a < b < |t| + 1 ensures ([h] + t)[a] <= ([h] + t)[b] {
      if a == 0 {
        assert t[b - 1] in t;
      }
    }
  }

  /** Ascending insertion sort: the reference for what `Arrays.sort` leaves. */
  function Sort(s: seq<int>): (r: seq<int>)
    ensures Sorted(r)
    ensures multiset(r) == multiset(s)
    ensures |r| == |s|
  {
    if s == [] then
      []
    else
      assert s == [s[0]] + s[1..];
      Insert(s[0], Sort(s[1..]))
  }

  /** Two sorted sequences with the same elements are equal: the sorted
      permutation of a sequence does not depend on the algorithm. */
  lemma {:induction false} SortedUnique(a: seq<int>, b: seq<int>)
    requires Sorted(a) && Sorted(b)
    requires multiset(a) == multiset(b)
    ensures a == b
  {
    if a != [] {
      SameHead(a, b);
      SameTail(a, b);
      SortedUnique(a[1..], b[1..]);
      assert a == [a[0]] + a[1..] && b == [b[0]] + b[1..];
    } else {
      assert |b| == |multiset(b)| == 0;
    }
  }

  /** The first element of a sorted sequence is its least element. */
  lemma SortedHead(s: seq<int>, e: int)
    requires Sorted(s) && e in s
    ensures s[0] <= e
  {
    var t :| 0 <= t < |s| && s[t] == e;
  }

  lemma SameHead(a: seq<int>, b: seq<int>)
    requires Sorted(a) && Sorted(b) && a != []
    requires multiset(a) == multiset(b)
    ensures b != [] && a[0] == b[0]
  {
    assert a[0] in multiset(b);
    assert b != [];
    assert b[0] in multiset(a);
    SortedHead(a, b[0]);
    SortedHead(b, a[0]);
  }

  lemma SameTail(a: seq<int>, b: seq<int>)
    requires a != [] && b != [] && a[0] == b[0]
    requires multiset(a) == multiset(b)
    ensures multiset(a[1..]) == multiset(b[1..])
  {
    assert a == [a[0]] + a[1..] && b == [b[0]] + b[1..];
    assert multiset(a[1..]) == multiset(a) - multiset{a[0]};
    assert multiset(b[1..]) == multiset(b) - multiset{b[0]};
  }

  /** Every sorted permutation of `s` is `Sort(s)`. */
  lemma SortIsTheSortedPermutation(s: seq<int>, t: seq<int>)
    requires Sorted(t) && multiset(t) == multiset(s)
    ensures t == Sort(s)
  {
    SortedUnique(t, Sort(s));
  }

  /** The in-place sort of an `int[]` leaves its elements in ascending order. */
  method SortArray(a: array<int>)
    modifies a
    ensures Sorted(a[..])
    ensures multiset(a[..]) == multiset(old(a[..]))
    ensures a[..] == Sort(old(a[..]))
  {
    var sorted := Sort(a[..]);
    forall k | 0 <= k < a.Length {
      a[k] := sorted[k];
    }
    assert a[..] == sorted;
  }
}
