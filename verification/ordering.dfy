/** Ordering rows by an integer key, as `ORDER BY key DESC LIMIT n` does. */
module Ordering {

  predicate SortedDesc<T>(s: seq<T>, key: T -> int) {
    forall i, j :: 0 <= i < j < |s| ==> key(s[i]) >= key(s[j])
  }

  /** Everything after the head of a descending sequence, plus a smaller `x`, is bounded by the head. */
  lemma HeadBoundsRest<T>(s: seq<T>, t: seq<T>, x: T, key: T -> int)
    requires |s| > 0 && SortedDesc(s, key) && key(x) < key(s[0])
    requires multiset(t) == multiset(s[1..]) + multiset{x}
    ensures forall k :: 0 <= k < |t| ==> key(t[k]) <= key(s[0])
  {
    forall k | 0 <= k < |t|
      ensures key(t[k]) <= key(s[0])
    {
      assert t[k] in multiset(t);
      if t[k] != x {
        assert t[k] in multiset(s[1..]);
        var j :| 0 <= j < |s| - 1 && s[1..][j] == t[k];
        assert s[j + 1] == t[k];
      }
    }
  }

  /** Places `x` before the first element whose key is smaller. */
  function InsertDesc<T>(x: T, s: seq<T>, key: T -> int): (r: seq<T>)
    requires SortedDesc(s, key)
    ensures SortedDesc(r, key)
    ensures multiset(r) == multiset(s) + multiset{x}
    ensures |r| == |s| + 1
  {
    if |s| == 0 then [x]
    else if key(x) >= key(s[0]) then [x] + s
    else
      var t := InsertDesc(x, s[1..], key);
      assert s == [s[0]] + s[1..];
      HeadBoundsRest(s, t, x, key);
      [s[0]] + t
  }

  /** An ordering by descending key that keeps every element (insertion sort). */
  function SortDesc<T>(s: seq<T>, key: T -> int): (r: seq<T>)
    ensures SortedDesc(r, key)
    ensures multiset(r) == multiset(s)
    ensures |r| == |s|
  {
    if |s| == 0 then []
    else
      assert s == [s[0]] + s[1..];
      InsertDesc(s[0], SortDesc(s[1..], key), key)
  }

  /** The first `n` elements, or all of them when fewer (`LIMIT n`). */
  function Limit<T>(s: seq<T>, n: nat): (r: seq<T>)
    ensures |r| == if |s| < n then |s| else n
    ensures r == s[..|r|]
  {
    if |s| <= n then s else s[..n]
  }

  /** In a descending sequence, every element of a prefix has a key at least that of any later element. */
  lemma PrefixDominates<T>(sorted: seq<T>, r: seq<T>, x: T, key: T -> int)
    requires SortedDesc(sorted, key)
    requires |r| <= |sorted| && r == sorted[..|r|]
    requires x in sorted[|r|..]
    ensures forall k :: 0 <= k < |r| ==> key(r[k]) >= key(x)
  {
    var j :| 0 <= j < |sorted| - |r| && sorted[|r|..][j] == x;
    assert sorted[|r| + j] == x;
    forall k | 0 <= k < |r|
      ensures key(r[k]) >= key(x)
    {
      assert r[k] == sorted[k];
    }
  }

  /**
   * The top `n` by descending key: ordered, drawn from `s`, and no element
   * left out has a larger key than any element kept.
   */
  function TopDesc<T>(s: seq<T>, key: T -> int, n: nat): (r: seq<T>)
    ensures SortedDesc(r, key)
    ensures |r| == if |s| < n then |s| else n
    ensures multiset(r) <= multiset(s)
    ensures forall x :: x in r ==> x in s
    ensures forall x :: x in s && x !in r ==> forall k :: 0 <= k < |r| ==> key(r[k]) >= key(x)
  {
    var sorted := SortDesc(s, key);
    var r := Limit(sorted, n);
    PrefixKeeps(s, sorted, r, key);
    r
  }

  /** A prefix of a descending permutation of `s` is drawn from `s` and dominates what it leaves out. */
  lemma PrefixKeeps<T>(s: seq<T>, sorted: seq<T>, r: seq<T>, key: T -> int)
    requires SortedDesc(sorted, key) && multiset(sorted) == multiset(s)
    requires |r| <= |sorted| && r == sorted[..|r|]
    ensures SortedDesc(r, key)
    ensures multiset(r) <= multiset(s)
    ensures forall x :: x in r ==> x in s
    ensures forall x :: x in s && x !in r ==> forall k :: 0 <= k < |r| ==> key(r[k]) >= key(x)
  {
    var rest := sorted[|r|..];
    assert sorted == r + rest;
    assert multiset(sorted) == multiset(r) + multiset(rest);
    forall x | x in s && x !in r
      ensures forall k :: 0 <= k < |r| ==> key(r[k]) >= key(x)
    {
      assert x in multiset(sorted);
      assert x in multiset(rest);
      PrefixDominates(sorted, r, x, key);
    }
    forall x | x in r
      ensures x in s
    {
      assert x in multiset(r);
      assert x in multiset(s);
    }
  }
}
