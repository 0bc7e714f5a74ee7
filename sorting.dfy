/**
 * The descending std::sort calls of the analysis (community_homology_engine.hpp:1004-1008,
 * 1125-1129, 1252-1254): an in-place sort of an array by a real-valued key,
 * largest first. std::sort is not stable, so only the order of the keys and
 * the multiset of elements are promised, never the order among equal keys.
 */
module Sorting {
  /** The keys of s never increase from left to right. */
  predicate Descending<T>(s: seq<T>, key: T -> real) {
    forall p, q | 0 <= p < q < |s| :: key(s[p]) >= key(s[q])
  }

  /** Insertion sort by key, largest key first. */
  method SortDescending<T>(a: array<T>, key: T -> real)
    modifies a
    ensures Descending(a[..], key)
    ensures multiset(a[..]) == multiset(old(a[..]))
  {
    var i := 0;
    while i < a.Length
      invariant i <= a.Length
      invariant forall p, q | 0 <= p < q < i :: key(a[p]) >= key(a[q])
      invariant multiset(a[..]) == multiset(old(a[..]))
    {
      Sink(a, key, i);
      i := i + 1;
    }
  }

  /** Move a[i] left past every smaller key, a[..i] being sorted already. */
  method Sink<T>(a: array<T>, key: T -> real, i: nat)
    requires i < a.Length
    requires forall p, q | 0 <= p < q < i :: key(a[p]) >= key(a[q])
    modifies a
    ensures forall p, q | 0 <= p < q <= i :: key(a[p]) >= key(a[q])
    ensures multiset(a[..]) == multiset(old(a[..]))
  {
    var j := i;
    while j > 0 && key(a[j - 1]) < key(a[j])
      invariant j <= i
      invariant forall p, q | 0 <= p < q <= i && q != j :: key(a[p]) >= key(a[q])
      invariant multiset(a[..]) == multiset(old(a[..]))
      decreases j
    {
      a[j - 1], a[j] := a[j], a[j - 1];
      j := j - 1;
    }
  }

  /** A sorted copy of s: the elements of s, largest key first. */
  method SortedCopy<T>(s: seq<T>, key: T -> real) returns (r: seq<T>)
    ensures Descending(r, key)
    ensures multiset(r) == multiset(s)
    ensures |r| == |s|
  {
    if |s| == 0 {
      return [];
    }
    var a := new T[|s|](k requires 0 <= k < |s| => s[k]);
    assert a[..] == s;
    SortDescending(a, key);
    r := a[..];
    assert |multiset(r)| == |multiset(s)|;
  }
}
