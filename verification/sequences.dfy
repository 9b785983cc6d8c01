/**
 * Sequence helpers shared by the ledger: filtering (list comprehensions and
 * SQL WHERE clauses), prefixes (Python slices) and sorting by a key (Python's
 * list.sort and SQL ORDER BY, whose tie order is left open).
 */
module Sequences {

  /** The elements of s that satisfy p, in their original order. */
  function Filter<T>(s: seq<T>, p: T -> bool): (r: seq<T>)
    ensures |r| <= |s|
    ensures forall x :: x in r ==> x in s && p(x)
    ensures forall x :: x in s && p(x) ==> x in r
  {
    if s == [] then []
    else if p(s[0]) then [s[0]] + Filter(s[1..], p)
    else Filter(s[1..], p)
  }

  /** Filtering a sequence extended at the back extends the filtered sequence at the back. */
  lemma {:induction false} FilterAppend<T>(s: seq<T>, x: T, p: T -> bool)
    ensures Filter(s + [x], p) == Filter(s, p) + (if p(x) then [x] else [])
  {
    if s == [] {
      assert [] + [x] == [x];
      assert [x][1..] == [];
    } else {
      assert (s + [x])[0] == s[0];
      assert (s + [x])[1..] == s[1..] + [x];
      FilterAppend(s[1..], x, p);
    }
  }

  /** Filtering by two predicates that agree on every element of s gives the same result. */
  lemma {:induction false} FilterAgrees<T>(s: seq<T>, p: T -> bool, q: T -> bool)
    requires forall x :: x in s ==> p(x) == q(x)
    ensures Filter(s, p) == Filter(s, q)
  {
    if s != [] {
      assert forall x :: x in s[1..] ==> x in s;
      FilterAgrees(s[1..], p, q);
    }
  }

  /** Python's s[:n] for n >= 0: the first n elements, or all of them when there are fewer. */
  function Take<T>(s: seq<T>, n: nat): (r: seq<T>)
    ensures |r| <= n && |r| <= |s|
    ensures |s| <= n ==> r == s
    ensures |s| > n ==> |r| == n
    ensures forall x :: x in r ==> x in s
  {
    if |s| <= n then s else s[..n]
  }

  /** The elements of s are in non-decreasing order of key. */
  predicate SortedBy<T>(s: seq<T>, key: T -> real)
  {
    forall i, j :: 0 <= i < j < |s| ==> key(s[i]) <= key(s[j])
  }

  /** No two elements of s share the same id. */
  predicate DistinctBy<T>(s: seq<T>, id: T -> int)
  {
    forall i, j :: 0 <= i < j < |s| ==> id(s[i]) != id(s[j])
  }

  /** Inserts x into the sorted sequence s after every element whose key is smaller. */
  function InsertBy<T>(x: T, s: seq<T>, key: T -> real): (r: seq<T>)
    requires SortedBy(s, key)
    ensures |r| == |s| + 1
    ensures SortedBy(r, key)
    ensures multiset(r) == multiset(s) + multiset{x}
    ensures forall y :: y in r ==> y == x || y in s
    ensures x in r && forall y :: y in s ==> y in r
  {
    if s == [] || key(x) <= key(s[0]) then [x] + s
    else
      var t := InsertBy(x, s[1..], key);
      assert s == [s[0]] + s[1..];
      ConsSorted(s[0], t, key, x, s[1..]);
      [s[0]] + t
  }

  /** Putting a in front of the sorted t, whose elements are x or come from u, all with keys at least a's, keeps it sorted. */
  lemma ConsSorted<T>(a: T, t: seq<T>, key: T -> real, x: T, u: seq<T>)
    requires SortedBy(t, key) && key(a) <= key(x)
    requires forall y :: y in u ==> key(a) <= key(y)
    requires forall y :: y in t ==> y == x || y in u
    ensures SortedBy([a] + t, key)
  {
    forall i, j | 0 <= i < j < |[a] + t|
      ensures key(([a] + t)[i]) <= key(([a] + t)[j])
    {
      if i == 0 {
        assert ([a] + t)[j] == t[j - 1] && t[j - 1] in t;
      } else {
        assert ([a] + t)[i] == t[i - 1] && ([a] + t)[j] == t[j - 1];
      }
    }
  }

  /** Insertion sort: a permutation of s in non-decreasing order of key. */
  function SortBy<T>(s: seq<T>, key: T -> real): (r: seq<T>)
    ensures |r| == |s|
    ensures SortedBy(r, key)
    ensures multiset(r) == multiset(s)
    ensures forall y :: y in r ==> y in s
    ensures forall y :: y in s ==> y in r
  {
    if s == [] then []
    else
      var t := SortBy(s[1..], key);
      assert s == [s[0]] + s[1..];
      InsertBy(s[0], t, key)
  }

  lemma {:induction false} InsertKeepsDistinct<T>(x: T, s: seq<T>, key: T -> real, id: T -> int)
    requires SortedBy(s, key) && DistinctBy(s, id)
    requires forall y :: y in s ==> id(y) != id(x)
    ensures DistinctBy(InsertBy(x, s, key), id)
  {
    if s == [] || key(x) <= key(s[0]) {
    } else {
      InsertKeepsDistinct(x, s[1..], key, id);
      var t := InsertBy(x, s[1..], key);
      assert forall y :: y in t ==> id(y) != id(s[0]);
    }
  }

  /** Sorting never makes two elements share an id. */
  lemma {:induction false} SortKeepsDistinct<T>(s: seq<T>, key: T -> real, id: T -> int)
    requires DistinctBy(s, id)
    ensures DistinctBy(SortBy(s, key), id)
  {
    if s != [] {
      SortKeepsDistinct(s[1..], key, id);
      var t := SortBy(s[1..], key);
      assert forall y :: y in t ==> id(y) != id(s[0]);
      InsertKeepsDistinct(s[0], t, key, id);
    }
  }

  /** A non-empty set has an element (the witness every `:|` choice over a set needs). */
  lemma HasElement(s: set<int>)
    requires s != {}
    ensures exists x :: x in s
  {
    if forall x :: x !in s {
      assert false;
    }
  }

  /** Appending an element whose id no element has keeps the ids distinct. */
  lemma AppendKeepsDistinct<T>(s: seq<T>, x: T, id: T -> int)
    requires DistinctBy(s, id)
    requires forall y :: y in s ==> id(y) != id(x)
    ensures DistinctBy(s + [x], id)
  {
    var t := s + [x];
    forall i, j | 0 <= i < j < |t|
      ensures id(t[i]) != id(t[j])
    {
      assert t[i] == s[i];
      if j < |s| {
        assert t[j] == s[j];
      } else {
        assert s[i] in s;
      }
    }
  }
}
