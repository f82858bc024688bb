/**
 The two queries every reader in the repository uses: `WHERE` (Filter) and
 `ORDER BY` (SortBy, a stable sort), with the facts that relate them.
 */
module Sequences {

  /** The elements of `s` that satisfy `p`, in order. */
  function Filter<T>(p: T -> bool, s: seq<T>): seq<T> {
    if s == [] then []
    else
      var rest := Filter(p, s[..|s| - 1]);
      if p(s[|s| - 1]) then rest + [s[|s| - 1]] else rest
  }

  /** Apply `f` to every element. */
  function Map<T, U>(f: T -> U, s: seq<T>): (r: seq<U>)
    ensures |r| == |s|
    ensures forall i :: 0 <= i < |s| ==> r[i] == f(s[i])
  {
    seq(|s|, i requires 0 <= i < |s| => f(s[i]))
  }

  /** SQL `LIMIT`. */
  function Take<T>(s: seq<T>, limit: nat): seq<T> {
    if |s| <= limit then s else s[..limit]
  }

  lemma FilterSnoc<T>(p: T -> bool, s: seq<T>, x: T)
    ensures Filter(p, s + [x]) == if p(x) then Filter(p, s) + [x] else Filter(p, s)
  {
    assert (s + [x])[..|s|] == s;
  }

  lemma {:induction false} FilterMembers<T>(p: T -> bool, s: seq<T>)
    ensures forall x :: x in Filter(p, s) <==> x in s && p(x)
  {
    if s != [] {
      var n := |s| - 1;
      FilterMembers(p, s[..n]);
      assert s == s[..n] + [s[n]];
      assert forall x :: x in s <==> x in s[..n] || x == s[n];
    }
  }

  lemma {:induction false} FilterLength<T>(p: T -> bool, s: seq<T>)
    ensures |Filter(p, s)| <= |s|
  {
    if s != [] {
      FilterLength(p, s[..|s| - 1]);
    }
  }

  /** All elements are kept exactly when all satisfy `p`, and none exactly when none does. */
  lemma {:induction false} FilterExtremes<T>(p: T -> bool, s: seq<T>)
    ensures |Filter(p, s)| <= |s|
    ensures |Filter(p, s)| == |s| <==> forall i :: 0 <= i < |s| ==> p(s[i])
    ensures |Filter(p, s)| == 0 <==> forall i :: 0 <= i < |s| ==> !p(s[i])
  {
    if s != [] {
      var init := s[..|s| - 1];
      FilterExtremes(p, init);
      assert forall i :: 0 <= i < |init| ==> init[i] == s[i];
    }
  }

  /** The places whose elements are selected. */
  ghost function Selected<T>(p: T -> bool, s: seq<T>): set<int> {
    set i | 0 <= i < |s| && p(s[i])
  }

  lemma {:induction false} FilterCount<T>(p: T -> bool, s: seq<T>)
    ensures |Filter(p, s)| == |Selected(p, s)|
  {
    if s == [] {
      assert Selected(p, s) == {};
    } else {
      var n := |s| - 1;
      FilterCount(p, s[..n]);
      if p(s[n]) {
        assert Selected(p, s) == Selected(p, s[..n]) + {n};
      } else {
        assert Selected(p, s) == Selected(p, s[..n]);
      }
    }
  }

  lemma {:induction false} FilterConcat<T>(p: T -> bool, a: seq<T>, b: seq<T>)
    ensures Filter(p, a + b) == Filter(p, a) + Filter(p, b)
  {
    if b == [] {
      assert a + b == a;
    } else {
      var n := |b| - 1;
      assert (a + b)[..|a + b| - 1] == a + b[..n];
      FilterConcat(p, a, b[..n]);
    }
  }

  lemma {:induction false} FilterNone<T>(p: T -> bool, s: seq<T>)
    requires forall x :: x in s ==> !p(x)
    ensures Filter(p, s) == []
  {
    if s != [] {
      FilterNone(p, s[..|s| - 1]);
    }
  }

  lemma {:induction false} FilterAll<T>(p: T -> bool, s: seq<T>)
    requires forall x :: x in s ==> p(x)
    ensures Filter(p, s) == s
  {
    if s != [] {
      FilterAll(p, s[..|s| - 1]);
      assert s == s[..|s| - 1] + [s[|s| - 1]];
    }
  }

  // ---------------------------------------------------------------- ORDER BY

  ghost predicate TotalPreorder<T(!new)>(le: (T, T) -> bool) {
    && (forall a, b :: le(a, b) || le(b, a))
    && (forall a, b, c :: le(a, b) && le(b, c) ==> le(a, c))
  }

  ghost predicate Sorted<T>(le: (T, T) -> bool, s: seq<T>) {
    forall i, j :: 0 <= i < j < |s| ==> le(s[i], s[j])
  }

  /** Put `x` after the last element that may precede it. */
  function Insert<T>(le: (T, T) -> bool, s: seq<T>, x: T): seq<T> {
    if s == [] || le(s[|s| - 1], x) then s + [x]
    else Insert(le, s[..|s| - 1], x) + [s[|s| - 1]]
  }

  function SortBy<T>(le: (T, T) -> bool, s: seq<T>): seq<T> {
    if s == [] then [] else Insert(le, SortBy(le, s[..|s| - 1]), s[|s| - 1])
  }

  lemma {:induction false} InsertMultiset<T>(le: (T, T) -> bool, s: seq<T>, x: T)
    ensures multiset(Insert(le, s, x)) == multiset(s) + multiset{x}
  {
    if s == [] || le(s[|s| - 1], x) {
    } else {
      InsertMultiset(le, s[..|s| - 1], x);
      assert s == s[..|s| - 1] + [s[|s| - 1]];
    }
  }

  /** `x` goes to the place after which every element has to follow it. */
  lemma {:induction false} InsertAt<T>(le: (T, T) -> bool, s: seq<T>, x: T, m: nat)
    requires m <= |s| && (m > 0 ==> le(s[m - 1], x)) && forall i :: m <= i < |s| ==> !le(s[i], x)
    ensures Insert(le, s, x) == s[..m] + [x] + s[m..]
  {
    if m < |s| {
      var n := |s| - 1;
      InsertAt(le, s[..n], x, m);
      assert s[m..] == s[..n][m..] + [s[n]];
      assert s[..n][..m] == s[..m];
    } else {
      assert s[..m] == s && s[m..] == [];
    }
  }

  lemma {:induction false} SortMultiset<T>(le: (T, T) -> bool, s: seq<T>)
    ensures multiset(SortBy(le, s)) == multiset(s)
    ensures |SortBy(le, s)| == |s|
    ensures forall x :: x in SortBy(le, s) <==> x in s
  {
    if s != [] {
      var n := |s| - 1;
      SortMultiset(le, s[..n]);
      InsertMultiset(le, SortBy(le, s[..n]), s[n]);
      assert s == s[..n] + [s[n]];
    }
    assert |multiset(SortBy(le, s))| == |multiset(s)|;
    assert forall x :: x in SortBy(le, s) <==> x in multiset(SortBy(le, s));
  }

  lemma {:induction false} InsertSorted<T(!new)>(le: (T, T) -> bool, s: seq<T>, x: T)
    requires TotalPreorder(le) && Sorted(le, s)
    ensures Sorted(le, Insert(le, s, x))
  {
    if s == [] {
    } else if le(s[|s| - 1], x) {
      forall i | 0 <= i < |s| ensures le(s[i], x) {
        assert i < |s| - 1 ==> le(s[i], s[|s| - 1]);
      }
    } else {
      var init, last := s[..|s| - 1], s[|s| - 1];
      InsertSorted(le, init, x);
      InsertMultiset(le, init, x);
      var r := Insert(le, init, x);
      forall i | 0 <= i < |r| ensures le(r[i], last) {
        assert r[i] in multiset(r);
        assert r[i] in init || r[i] == x;
      }
    }
  }

  lemma {:induction false} SortSorted<T(!new)>(le: (T, T) -> bool, s: seq<T>)
    requires TotalPreorder(le)
    ensures Sorted(le, SortBy(le, s))
  {
    if s != [] {
      SortSorted(le, s[..|s| - 1]);
      InsertSorted(le, SortBy(le, s[..|s| - 1]), s[|s| - 1]);
    }
  }

  /** A sequence already in order is left as it is. */
  lemma {:induction false} SortOfSorted<T>(le: (T, T) -> bool, s: seq<T>)
    requires Sorted(le, s)
    ensures SortBy(le, s) == s
  {
    if s != [] {
      var n := |s| - 1;
      SortOfSorted(le, s[..n]);
      assert n > 0 ==> le(s[n - 1], s[n]);
      assert s == s[..n] + [s[n]];
    }
  }

  /** Where the last element may precede `x`, so may the last one that is selected. */
  lemma FilteredMayPrecede<T(!new)>(p: T -> bool, le: (T, T) -> bool, s: seq<T>, x: T)
    requires TotalPreorder(le) && Sorted(le, s) && s != [] && le(s[|s| - 1], x)
    ensures Insert(le, Filter(p, s), x) == Filter(p, s) + [x]
  {
    FilterMembers(p, s);
    var f := Filter(p, s);
    if f != [] {
      var z := f[|f| - 1];
      assert z in s;
      var i :| 0 <= i < |s| && s[i] == z;
      assert i < |s| - 1 ==> le(s[i], s[|s| - 1]);
    }
  }

  lemma {:induction false} FilterInsert<T(!new)>(p: T -> bool, le: (T, T) -> bool, s: seq<T>, x: T)
    requires TotalPreorder(le) && Sorted(le, s)
    ensures Filter(p, Insert(le, s, x)) ==
            if p(x) then Insert(le, Filter(p, s), x) else Filter(p, s)
  {
    if s == [] {
      FilterSnoc(p, s, x);
    } else {
      var init, last := s[..|s| - 1], s[|s| - 1];
      if le(last, x) {
        FilterSnoc(p, s, x);
        FilteredMayPrecede(p, le, s, x);
      } else {
        FilterInsert(p, le, init, x);
        FilterSnoc(p, Insert(le, init, x), last);
        assert Filter(p, s) == if p(last) then Filter(p, init) + [last] else Filter(p, init);
        if p(last) {
          assert (Filter(p, init) + [last])[..|Filter(p, init)|] == Filter(p, init);
        }
      }
    }
  }

  /** Filtering commutes with sorting: `WHERE` before or after `ORDER BY`. */
  lemma {:induction false} FilterSort<T(!new)>(p: T -> bool, le: (T, T) -> bool, s: seq<T>)
    requires TotalPreorder(le)
    ensures Filter(p, SortBy(le, s)) == SortBy(le, Filter(p, s))
  {
    if s != [] {
      var n := |s| - 1;
      FilterSort(p, le, s[..n]);
      SortSorted(le, s[..n]);
      FilterInsert(p, le, SortBy(le, s[..n]), s[n]);
      var f := Filter(p, s[..n]);
      assert (f + [s[n]])[..|f|] == f;
    }
  }

  lemma FilterAt<T>(p: T -> bool, s: seq<T>, i: nat)
    requires i < |Filter(p, s)|
    ensures p(Filter(p, s)[i]) && Filter(p, s)[i] in s
  {
    FilterMembers(p, s);
    assert Filter(p, s)[i] in Filter(p, s);
  }

  lemma SortAt<T>(le: (T, T) -> bool, s: seq<T>, i: nat)
    requires i < |SortBy(le, s)|
    ensures SortBy(le, s)[i] in s
  {
    var sorted := SortBy(le, s);
    SortMultiset(le, s);
    assert sorted[i] in multiset(sorted);
  }

  /** `WHERE p ORDER BY le DESC LIMIT 1`: nothing that is selected comes after the last one. */
  lemma LastOfSelected<T(!new)>(p: T -> bool, le: (T, T) -> bool, s: seq<T>)
    requires TotalPreorder(le)
    ensures var r := SortBy(le, Filter(p, s));
      if r == [] then forall y :: y in s ==> !p(y)
      else r[|r| - 1] in s && p(r[|r| - 1]) && forall y :: y in s && p(y) ==> le(y, r[|r| - 1])
  {
    var found := Filter(p, s);
    var r := SortBy(le, found);
    FilterMembers(p, s);
    SortMultiset(le, found);
    SortSorted(le, found);
    if r == [] {
      forall y | y in s ensures !p(y) {
        assert y !in found;
      }
    } else {
      assert r[|r| - 1] in found;
      forall y | y in found ensures le(y, r[|r| - 1]) {
        var i :| 0 <= i < |r| && r[i] == y;
        assert i < |r| - 1 ==> le(r[i], r[|r| - 1]);
      }
    }
  }

  /** A weaker predicate selects at least as many. */
  lemma {:induction false} FilterMonotone<T>(p: T -> bool, q: T -> bool, s: seq<T>)
    requires forall i :: 0 <= i < |s| && p(s[i]) ==> q(s[i])
    ensures |Filter(p, s)| <= |Filter(q, s)|
  {
    if s != [] {
      FilterMonotone(p, q, s[..|s| - 1]);
    }
  }

  lemma {:induction false} FilterAgree<T>(p: T -> bool, q: T -> bool, s: seq<T>)
    requires forall i :: 0 <= i < |s| ==> p(s[i]) == q(s[i])
    ensures Filter(p, s) == Filter(q, s)
  {
    if s != [] {
      FilterAgree(p, q, s[..|s| - 1]);
    }
  }

  lemma {:induction false} FilterFinds<T>(p: T -> bool, s: seq<T>, i: nat) returns (j: nat)
    requires i < |s| && p(s[i])
    ensures j < |Filter(p, s)| && Filter(p, s)[j] == s[i]
  {
    if i == |s| - 1 {
      j := |Filter(p, s)| - 1;
    } else {
      j := FilterFinds(p, s[..|s| - 1], i);
    }
  }

  lemma SortFinds<T>(le: (T, T) -> bool, s: seq<T>, i: nat) returns (j: nat)
    requires i < |s|
    ensures j < |SortBy(le, s)| && SortBy(le, s)[j] == s[i]
  {
    var sorted := SortBy(le, s);
    SortMultiset(le, s);
    assert s[i] in multiset(sorted);
    j :| 0 <= j < |sorted| && sorted[j] == s[i];
  }

  lemma {:induction false} InsertAgree<T>(le: (T, T) -> bool, le': (T, T) -> bool, s: seq<T>, x: T)
    requires forall i :: 0 <= i < |s| ==> le(s[i], x) == le'(s[i], x)
    ensures Insert(le, s, x) == Insert(le', s, x)
  {
    if s != [] && !le(s[|s| - 1], x) {
      InsertAgree(le, le', s[..|s| - 1], x);
    }
  }

  ghost predicate AgreeOn<T>(le: (T, T) -> bool, le': (T, T) -> bool, s: seq<T>) {
    forall i, j :: 0 <= i < |s| && 0 <= j < |s| ==> le(s[i], s[j]) == le'(s[i], s[j])
  }

  /** Two orders that agree on the elements sort them alike. */
  lemma {:induction false} SortAgree<T>(le: (T, T) -> bool, le': (T, T) -> bool, s: seq<T>)
    requires AgreeOn(le, le', s)
    ensures SortBy(le, s) == SortBy(le', s)
  {
    if s != [] {
      var init, n := s[..|s| - 1], |s| - 1;
      SortAgree(le, le', init);
      var sorted := SortBy(le, init);
      forall i | 0 <= i < |sorted| ensures le(sorted[i], s[n]) == le'(sorted[i], s[n]) {
        SortAt(le, init, i);
        var j :| 0 <= j < n && init[j] == sorted[i];
        assert s[j] == sorted[i];
      }
      InsertAgree(le, le', sorted, s[n]);
    }
  }

  /** Mapping and filtering commute when the map keeps what the filter looks at. */
  lemma {:induction false} FilterMap<T, U>(f: T -> U, p: T -> bool, q: U -> bool, s: seq<T>)
    requires forall x :: x in s ==> p(x) == q(f(x))
    ensures Filter(q, Map(f, s)) == Map(f, Filter(p, s))
  {
    if s != [] {
      var n := |s| - 1;
      FilterMap(f, p, q, s[..n]);
      assert Map(f, s)[..n] == Map(f, s[..n]);
    }
  }

  lemma {:induction false} InsertMap<T, U>(f: T -> U, le: (T, T) -> bool, le': (U, U) -> bool, s: seq<T>, x: T)
    requires forall i :: 0 <= i < |s| ==> le(s[i], x) == le'(f(s[i]), f(x))
    ensures Insert(le', Map(f, s), f(x)) == Map(f, Insert(le, s, x))
  {
    if s != [] && !le(s[|s| - 1], x) {
      InsertMap(f, le, le', s[..|s| - 1], x);
      assert Map(f, s)[..|s| - 1] == Map(f, s[..|s| - 1]);
    }
  }

  /** Sorting and mapping commute when the map keeps the order. */
  lemma {:induction false} SortMap<T, U>(f: T -> U, le: (T, T) -> bool, le': (U, U) -> bool, s: seq<T>)
    requires forall i, j :: 0 <= i < |s| && 0 <= j < |s| ==> le(s[i], s[j]) == le'(f(s[i]), f(s[j]))
    ensures SortBy(le', Map(f, s)) == Map(f, SortBy(le, s))
  {
    if s != [] {
      var init, n := s[..|s| - 1], |s| - 1;
      SortMap(f, le, le', init);
      assert Map(f, s)[..n] == Map(f, init);
      var sorted := SortBy(le, init);
      forall i | 0 <= i < |sorted| ensures le(sorted[i], s[n]) == le'(f(sorted[i]), f(s[n])) {
        SortAt(le, init, i);
        var j :| 0 <= j < n && init[j] == sorted[i];
        assert s[j] == sorted[i];
      }
      InsertMap(f, le, le', sorted, s[n]);
    }
  }

  /** Selected elements stand together. */
  ghost predicate Contiguous<T>(p: T -> bool, s: seq<T>) {
    forall i, j, k :: 0 <= i < j < k < |s| && p(s[i]) && p(s[k]) ==> p(s[j])
  }

  lemma {:induction false} FilterSlice<T>(p: T -> bool, s: seq<T>, lo: nat, hi: nat)
    requires lo <= hi <= |s|
    requires forall i :: 0 <= i < |s| ==> (p(s[i]) <==> lo <= i < hi)
    ensures Filter(p, s) == s[lo..hi]
  {
    if lo == hi {
      FilterNoneAt(p, s);
    } else {
      var n := |s| - 1;
      var init, top := s[..n], if hi == |s| then n else hi;
      FilterSlice(p, init, lo, top);
      assert init[lo..top] == s[lo..top];
      assert hi == |s| ==> s[lo..hi] == s[lo..n] + [s[n]];
    }
  }

  lemma FilterNoneAt<T>(p: T -> bool, s: seq<T>)
    requires forall i :: 0 <= i < |s| ==> !p(s[i])
    ensures Filter(p, s) == []
  {
    FilterNone(p, s);
  }

  lemma FilterAllAt<T>(p: T -> bool, s: seq<T>)
    requires forall i :: 0 <= i < |s| ==> p(s[i])
    ensures Filter(p, s) == s
  {
    FilterAll(p, s);
  }

  /** Where the selected elements stand together, filtering takes a slice. */
  lemma FilterContiguous<T>(p: T -> bool, s: seq<T>) returns (lo: nat, hi: nat)
    requires Contiguous(p, s)
    ensures lo <= hi <= |s| && Filter(p, s) == s[lo..hi]
    ensures forall i :: 0 <= i < |s| ==> (p(s[i]) <==> lo <= i < hi)
  {
    lo := 0;
    while lo < |s| && !p(s[lo])
      invariant lo <= |s| && forall i :: 0 <= i < lo ==> !p(s[i])
    {
      lo := lo + 1;
    }
    hi := |s|;
    while lo < hi && !p(s[hi - 1])
      invariant lo <= hi <= |s| && forall i :: hi <= i < |s| ==> !p(s[i])
    {
      hi := hi - 1;
    }
    SelectedBetween(p, s, lo, hi);
    FilterSlice(p, s, lo, hi);
  }

  lemma SelectedBetween<T>(p: T -> bool, s: seq<T>, lo: nat, hi: nat)
    requires Contiguous(p, s) && lo <= hi <= |s|
    requires lo < hi ==> p(s[lo]) && p(s[hi - 1])
    ensures forall i :: lo <= i < hi ==> p(s[i])
  {
    forall i | lo <= i < hi ensures p(s[i]) {
      if lo < i < hi - 1 {
        assert p(s[lo]) && p(s[hi - 1]);
      }
    }
  }

  // ------------------------------------------------------- ORDER BY key, number

  ghost predicate TotalOrder<K(!new)>(le: (K, K) -> bool) {
    TotalPreorder(le) && forall a, b :: le(a, b) && le(b, a) ==> a == b
  }

  /** Rows by key, and rows with the same key by number. */
  function KeyThen<T, K(==)>(key: T -> K, le: (K, K) -> bool, number: T -> int): (T, T) -> bool {
    (x: T, y: T) => if key(x) == key(y) then number(x) <= number(y) else le(key(x), key(y))
  }

  lemma KeyThenIsTotal<T(!new), K(!new)>(key: T -> K, le: (K, K) -> bool, number: T -> int)
    requires TotalOrder(le)
    ensures TotalPreorder(KeyThen(key, le, number))
  {
    var r := KeyThen(key, le, number);
    forall a, b ensures r(a, b) || r(b, a) {
      assert le(key(a), key(b)) || le(key(b), key(a));
    }
    forall a, b, c | r(a, b) && r(b, c) ensures r(a, c) {
      var x, y, z := key(a), key(b), key(c);
      assert le(x, y) && le(y, z) ==> le(x, z);
      assert x == z && le(x, y) && le(y, z) ==> x == y;
    }
  }

  /** In such an order, rows with the same key stand together. */
  lemma SameKeyTogether<T, K(!new)>(key: T -> K, le: (K, K) -> bool, number: T -> int, s: seq<T>,
                                           i: nat, j: nat, k: nat)
    requires TotalOrder(le) && Sorted(KeyThen(key, le, number), s)
    requires i < j < k < |s| && key(s[i]) == key(s[k])
    ensures key(s[j]) == key(s[i])
  {
    var r, x, y := KeyThen(key, le, number), key(s[i]), key(s[j]);
    assert r(s[i], s[j]) && r(s[j], s[k]);
    assert x == y || (le(x, y) && le(y, x));
  }

  /** Among rows with one key, only the numbers matter. */
  lemma WithinKey<T, K>(key: T -> K, le: (K, K) -> bool, number: T -> int, byNumber: (T, T) -> bool, s: seq<T>)
    requires forall i, j :: 0 <= i < |s| && 0 <= j < |s| ==> key(s[i]) == key(s[j])
    requires forall i, j :: 0 <= i < |s| && 0 <= j < |s| ==> byNumber(s[i], s[j]) == (number(s[i]) <= number(s[j]))
    ensures SortBy(KeyThen(key, le, number), s) == SortBy(byNumber, s)
  {
    SortAgree(KeyThen(key, le, number), byNumber, s);
  }
}
