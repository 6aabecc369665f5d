/** Sequence utilities standing for the store's query primitives: `findFirst`
    (first row that matches a `where`), `findMany` (all matching rows) and
    `orderBy` (a total preorder on rows). */
module Seqs {
  import opened Wrappers

  /** The rows of `s` that satisfy `p`, in table order. */
  function Filter<T(!new)>(s: seq<T>, p: T -> bool): (r: seq<T>)
    ensures |r| <= |s|
    ensures forall i :: 0 <= i < |r| ==> p(r[i])
    ensures forall x :: x in r <==> x in s && p(x)
  {
    if s == [] then []
    else
      var init, last := s[..|s| - 1], s[|s| - 1];
      assert s == init + [last];
      Filter(init, p) + (if p(last) then [last] else [])
  }

  /** The index of the first row that satisfies `p`, if any. */
  function FindFirst<T>(s: seq<T>, p: T -> bool): (r: Option<nat>)
    ensures r.Some? ==> r.value < |s| && p(s[r.value])
    ensures r.Some? ==> forall j :: 0 <= j < r.value ==> !p(s[j])
    ensures r.None? <==> forall j :: 0 <= j < |s| ==> !p(s[j])
  {
    if s == [] then None
    else if p(s[0]) then Some(0)
    else
      match FindFirst(s[1..], p)
      case None => None
      case Some(k) => Some(k + 1)
  }

  /** The lookup depends only on which rows match: two tables that match
      row for row give the same answer. */
  lemma FindFirstSame<T>(s: seq<T>, t: seq<T>, p: T -> bool)
    requires |s| == |t| && forall i :: 0 <= i < |s| ==> p(s[i]) == p(t[i])
    ensures FindFirst(s, p) == FindFirst(t, p)
  {
    var a, b := FindFirst(s, p), FindFirst(t, p);
    if a.Some? && b.Some? {
      assert !(a.value < b.value) && !(b.value < a.value);
    }
  }

  ghost predicate SortedBy<T>(s: seq<T>, le: (T, T) -> bool) {
    forall i, j :: 0 <= i < j < |s| ==> le(s[i], s[j])
  }

  ghost predicate TotalPreorder<T(!new)>(le: (T, T) -> bool) {
    && (forall a, b :: le(a, b) || le(b, a))
    && (forall a, b, c :: le(a, b) && le(b, c) ==> le(a, c))
  }

  /** Inserts `x` into the sorted `s` after every element that may precede it. */
  method InsertSorted<T(!new)>(s: seq<T>, x: T, le: (T, T) -> bool) returns (r: seq<T>)
    requires TotalPreorder(le)
    requires SortedBy(s, le)
    ensures SortedBy(r, le)
    ensures multiset(r) == multiset(s) + multiset{x}
  {
    var i := 0;
    while i < |s| && le(s[i], x)
      invariant 0 <= i <= |s|
      invariant forall k :: 0 <= k < i ==> le(s[k], x)
    {
      i := i + 1;
    }
    assert i < |s| ==> le(x, s[i]);
    InsertedSorted(s, i, x, le);
    r := s[..i] + [x] + s[i..];
    assert s == s[..i] + s[i..];
  }

  /** Placing `x` after every element that may precede it, and before one
      it may precede, keeps the sequence sorted. */
  lemma InsertedSorted<T(!new)>(s: seq<T>, i: nat, x: T, le: (T, T) -> bool)
    requires TotalPreorder(le) && SortedBy(s, le) && i <= |s|
    requires forall k :: 0 <= k < i ==> le(s[k], x)
    requires i < |s| ==> le(x, s[i])
    ensures SortedBy(s[..i] + [x] + s[i..], le)
  {
    var r := s[..i] + [x] + s[i..];
    forall a, b | 0 <= a < b < |r|
      ensures le(r[a], r[b])
    {
      if b < i {
        assert r[a] == s[a] && r[b] == s[b];
      } else if b == i {
        assert r[a] == s[a] && r[b] == x;
      } else if a == i {
        assert r[b] == s[b - 1];
        if i < b - 1 {
          assert le(x, s[i]) && le(s[i], s[b - 1]);
        }
      } else if a < i {
        assert r[a] == s[a] && r[b] == s[b - 1];
      } else {
        assert r[a] == s[a - 1] && r[b] == s[b - 1];
      }
    }
  }

  /** `findMany` with `orderBy`: the rows of `s` that satisfy `p`, sorted by `le`. */
  method SelectSorted<T(!new)>(s: seq<T>, p: T -> bool, le: (T, T) -> bool) returns (r: seq<T>)
    requires TotalPreorder(le)
    ensures SortedBy(r, le)
    ensures multiset(r) == multiset(Filter(s, p))
    ensures forall x :: x in r <==> x in s && p(x)
  {
    r := [];
    var k := 0;
    while k < |s|
      invariant 0 <= k <= |s|
      invariant SortedBy(r, le)
      invariant multiset(r) == multiset(Filter(s[..k], p))
    {
      FilterStep(s, k, p);
      if p(s[k]) {
        r := InsertSorted(r, s[k], le);
      }
      k := k + 1;
    }
    assert s[..|s|] == s;
    SameElements(r, Filter(s, p));
  }

  /** Extending a prefix by one row extends its filter by that row if it
      matches. */
  lemma FilterStep<T(!new)>(s: seq<T>, k: nat, p: T -> bool)
    requires k < |s|
    ensures Filter(s[..k + 1], p) == Filter(s[..k], p) + (if p(s[k]) then [s[k]] else [])
  {
    assert s[..k + 1][..k] == s[..k];
  }

  /** Sequences with the same multiset have the same elements. */
  lemma SameElements<T>(a: seq<T>, b: seq<T>)
    requires multiset(a) == multiset(b)
    ensures forall x :: x in a <==> x in b
  {
    forall x ensures x in a <==> x in b {
      assert x in a <==> x in multiset(a);
      assert x in b <==> x in multiset(b);
    }
  }
}
