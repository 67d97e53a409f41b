/** Sequence helpers shared by the server and the client pages: `Array.prototype.filter`,
    ordering by a numeric key (`ORDER BY` and `Array.prototype.sort`), and how a listing
    relates to the set of rows it lists. */
module Lists {
  import opened Options

  /** `s.filter(p)`: the elements of `s` that satisfy `p`, in their original order. */
  function Filter<T(==)>(s: seq<T>, p: T -> bool): (r: seq<T>)
    ensures |r| <= |s|
    ensures forall x :: x in r ==> x in s && p(x)
    ensures forall x :: x in s && p(x) ==> x in r
  {
    if s == [] then []
    else if p(s[0]) then [s[0]] + Filter(s[1..], p)
    else Filter(s[1..], p)
  }

  /** `r` is obtained from `s` by deleting elements and keeping the order of the others. */
  predicate IsSubsequence<T(==)>(r: seq<T>, s: seq<T>)
    decreases |s|
  {
    if r == [] then true
    else if s == [] then false
    else (r[0] == s[0] && IsSubsequence(r[1..], s[1..])) || IsSubsequence(r, s[1..])
  }

  lemma {:induction false} FilterIsSubsequence<T>(s: seq<T>, p: T -> bool)
    ensures IsSubsequence(Filter(s, p), s)
  {
    if s != [] {
      FilterIsSubsequence(s[1..], p);
    }
  }

  /** How many times each value occurs in a filtered sequence. */
  lemma {:induction false} FilterMultiset<T>(s: seq<T>, p: T -> bool)
    ensures forall x :: multiset(Filter(s, p))[x] == if p(x) then multiset(s)[x] else 0
  {
    if s != [] {
      FilterMultiset(s[1..], p);
      assert s == [s[0]] + s[1..];
    }
  }

  lemma {:induction false} FilterAppend<T>(s: seq<T>, t: seq<T>, p: T -> bool)
    ensures Filter(s + t, p) == Filter(s, p) + Filter(t, p)
  {
    if s == [] {
      assert s + t == t;
    } else {
      assert (s + t)[1..] == s[1..] + t;
      FilterAppend(s[1..], t, p);
    }
  }

  /** Filtering with a predicate that every element satisfies changes nothing, and
      filtering with one that no element satisfies leaves nothing. */
  lemma {:induction false} FilterAllOrNone<T>(s: seq<T>, p: T -> bool)
    ensures (forall x :: x in s ==> p(x)) <==> Filter(s, p) == s
    ensures (forall x :: x in s ==> !p(x)) <==> Filter(s, p) == []
  {
    if s != [] {
      FilterAllOrNone(s[1..], p);
      if Filter(s, p) == s {
        assert forall x :: x in s ==> p(x);
      }
    }
  }

  /** Two filters with disjoint predicates select at most all the elements, and exactly all
      of them when every element satisfies one of the two. */
  lemma {:induction false} FilterDisjointSum<T>(s: seq<T>, p: T -> bool, q: T -> bool)
    requires forall x :: x in s ==> !(p(x) && q(x))
    ensures |Filter(s, p)| + |Filter(s, q)| <= |s|
    ensures |Filter(s, p)| + |Filter(s, q)| == |s| <==> forall x :: x in s ==> p(x) || q(x)
  {
    if s != [] {
      FilterDisjointSum(s[1..], p, q);
      assert forall x :: x in s[1..] ==> x in s;
      if |Filter(s, p)| + |Filter(s, q)| == |s| {
        assert p(s[0]) || q(s[0]);
        forall x | x in s ensures p(x) || q(x) {
          if x != s[0] { assert x in s[1..]; }
        }
      }
    }
  }

  /** A listing of a finite set: each member exactly once, in some order. */
  predicate IsListing<T(==)>(r: seq<T>, s: set<T>)
  {
    multiset(r) == multiset(s)
  }

  lemma ListsLength<T>(r: seq<T>, s: set<T>)
    requires IsListing(r, s)
    ensures |r| == |s|
    ensures forall x :: x in r <==> x in s
  {
    assert |multiset(r)| == |r|;
    assert forall x :: x in r <==> x in multiset(r);
  }

  lemma ListsAdd<T>(r: seq<T>, s: set<T>, x: T)
    requires IsListing(r, s) && x !in s
    ensures multiset(r) + multiset{x} == multiset(s + {x})
  {
    assert multiset(s + {x}) == multiset(s) + multiset{x};
  }

  /** Filtering a listing of a set lists the subset that satisfies the predicate. */
  lemma FilterLists<T>(r: seq<T>, s: set<T>, p: T -> bool)
    requires IsListing(r, s)
    ensures IsListing(Filter(r, p), set x | x in s && p(x))
  {
    FilterMultiset(r, p);
    var sub := set x | x in s && p(x);
    var f := Filter(r, p);
    forall x ensures multiset(f)[x] == multiset(sub)[x] {
      assert x in sub <==> x in s && p(x);
      assert multiset(r)[x] == multiset(s)[x];
    }
    SameCounts(f, sub);
  }

  lemma SameCounts<T>(r: seq<T>, s: set<T>)
    requires forall x :: multiset(r)[x] == multiset(s)[x]
    ensures IsListing(r, s)
  {
  }

  /** The number of elements of a listing that satisfy a predicate is the size of that subset. */
  lemma FilterListsCount<T>(r: seq<T>, s: set<T>, p: T -> bool, sub: set<T>)
    requires IsListing(r, s)
    requires forall x :: x in sub <==> x in s && p(x)
    ensures |Filter(r, p)| == |sub|
  {
    FilterLists(r, s, p);
    assert sub == set x | x in s && p(x);
    ListsLength(Filter(r, p), sub);
  }

  /** Ascending order of `key`, as `ORDER BY ... ASC` or `sort((a, b) => key(a) - key(b))` leave it. */
  predicate SortedBy<T>(s: seq<T>, key: T -> int)
  {
    forall i, j :: 0 <= i < j < |s| ==> key(s[i]) <= key(s[j])
  }

  /** Inserts `x` after every element whose key is not greater, so that equal keys keep their order. */
  function InsertBy<T(==)>(s: seq<T>, x: T, key: T -> int): (r: seq<T>)
    requires SortedBy(s, key)
    ensures SortedBy(r, key)
    ensures multiset(r) == multiset(s) + multiset{x}
    ensures forall y :: y in r ==> y == x || y in s
  {
    if s == [] then [x]
    else if key(x) < key(s[0]) then
      InsertAfterLower(x, s, x, s, key);
      ConsMultiset(x, s);
      [x] + s
    else
      var rest := InsertBy(s[1..], x, key);
      InsertAfterLower(s[0], rest, x, s[1..], key);
      InsertMultiset(s, rest, x);
      [s[0]] + rest
  }

  lemma ConsMultiset<T>(x: T, s: seq<T>)
    ensures multiset([x] + s) == multiset(s) + multiset{x}
  {
  }

  lemma InsertMultiset<T>(s: seq<T>, rest: seq<T>, x: T)
    requires |s| > 0 && multiset(rest) == multiset(s[1..]) + multiset{x}
    ensures multiset([s[0]] + rest) == multiset(s) + multiset{x}
    ensures forall y :: y in [s[0]] + rest ==> y in rest || y in s
  {
    assert s == [s[0]] + s[1..];
  }

  /** Putting `y` in front of a sorted sequence whose elements are `x` or elements of `t`,
      all with keys no smaller than `y`'s, keeps it sorted. */
  lemma InsertAfterLower<T>(y: T, rest: seq<T>, x: T, t: seq<T>, key: T -> int)
    requires SortedBy(rest, key)
    requires forall z :: z in rest ==> z == x || z in t
    requires key(y) <= key(x) && forall z :: z in t ==> key(y) <= key(z)
    ensures SortedBy([y] + rest, key)
  {
    assert forall k :: 0 <= k < |rest| ==> rest[k] in rest;
  }

  /** A stable insertion sort: `Array.prototype.sort` with a numeric comparator. */
  function SortBy<T(==)>(s: seq<T>, key: T -> int): (r: seq<T>)
    ensures SortedBy(r, key)
    ensures multiset(r) == multiset(s)
  {
    if s == [] then []
    else
      assert s == s[..|s| - 1] + [s[|s| - 1]];
      InsertBy(SortBy(s[..|s| - 1], key), s[|s| - 1], key)
  }

  lemma {:induction false} FilterSorted<T>(s: seq<T>, p: T -> bool, key: T -> int)
    requires SortedBy(s, key)
    ensures SortedBy(Filter(s, p), key)
  {
    if s != [] {
      FilterSorted(s[1..], p, key);
      var rest := Filter(s[1..], p);
      assert forall k :: 0 <= k < |rest| ==> rest[k] in s[1..];
    }
  }

  /** `s.findIndex(p)`, with `|s|` in place of -1: the position of the first element that
      satisfies `p`. */
  function FirstIndex<T>(s: seq<T>, p: T -> bool): (i: nat)
    ensures i <= |s|
    ensures i < |s| ==> p(s[i])
    ensures forall j :: 0 <= j < i ==> !p(s[j])
  {
    if s == [] then 0
    else if p(s[0]) then 0
    else 1 + FirstIndex(s[1..], p)
  }

  /** `s.find(p)`: the first element that satisfies `p`, or `None` (`undefined`). */
  function Find<T>(s: seq<T>, p: T -> bool): (r: Option<T>)
    ensures r.None? <==> forall j :: 0 <= j < |s| ==> !p(s[j])
    ensures r.Some? ==> r.value == s[FirstIndex(s, p)] && p(r.value)
  {
    var i := FirstIndex(s, p);
    if i < |s| then Some(s[i]) else None
  }

  /** Predicates that agree on the elements of `s` select the same elements. */
  lemma {:induction false} FilterSameOn<T>(s: seq<T>, p: T -> bool, q: T -> bool)
    requires forall x :: x in s ==> p(x) == q(x)
    ensures Filter(s, p) == Filter(s, q)
  {
    if s != [] {
      FilterSameOn(s[1..], p, q);
    }
  }

  /** A filter that rejects some element of `s` keeps fewer elements than `s` has. */
  lemma {:induction false} FilterDrops<T>(s: seq<T>, p: T -> bool, x: T)
    requires x in s && !p(x)
    ensures |Filter(s, p)| < |s|
  {
    if s[0] != x {
      FilterDrops(s[1..], p, x);
    } else {
      assert |Filter(s[1..], p)| <= |s| - 1;
    }
  }

  /** Inserting an element whose key is not below any other appends it. */
  lemma {:induction false} InsertLast<T>(s: seq<T>, x: T, key: T -> int)
    requires SortedBy(s, key)
    requires forall i :: 0 <= i < |s| ==> key(s[i]) <= key(x)
    ensures InsertBy(s, x, key) == s + [x]
  {
    if s != [] {
      InsertLast(s[1..], x, key);
      assert s == [s[0]] + s[1..];
    }
  }

  /** Sorting a sorted list leaves it as it is. */
  lemma {:induction false} SortSorted<T>(s: seq<T>, key: T -> int)
    requires SortedBy(s, key)
    ensures SortBy(s, key) == s
  {
    if s != [] {
      var init := s[..|s| - 1];
      SortSorted(init, key);
      InsertLast(init, s[|s| - 1], key);
      assert init + [s[|s| - 1]] == s;
    }
  }
}
