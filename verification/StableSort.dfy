/** `sort_by_key`: a stable sort by an integer key. */
module StableSort {

  /** Inserts after every element whose key is not larger. */
  function Insert<T>(x: T, sorted: seq<T>, key: T -> int): seq<T> {
    if sorted != [] && key(sorted[|sorted| - 1]) > key(x) then
      Insert(x, sorted[..|sorted| - 1], key) + [sorted[|sorted| - 1]]
    else sorted + [x]
  }

  function Sort<T>(s: seq<T>, key: T -> int): seq<T> {
    if s == [] then [] else Insert(s[|s| - 1], Sort(s[..|s| - 1], key), key)
  }

  predicate Ascending<T>(s: seq<T>, key: T -> int) {
    forall i, j :: 0 <= i < j < |s| ==> key(s[i]) <= key(s[j])
  }

  /** Where `Insert` puts `x`. */
  function Position<T>(x: T, sorted: seq<T>, key: T -> int): (p: nat)
    ensures p <= |sorted|
    ensures forall i :: p <= i < |sorted| ==> key(x) < key(sorted[i])
    ensures p > 0 ==> key(sorted[p - 1]) <= key(x)
  {
    if sorted != [] && key(sorted[|sorted| - 1]) > key(x) then Position(x, sorted[..|sorted| - 1], key)
    else |sorted|
  }

  lemma {:induction false} InsertAt<T>(x: T, sorted: seq<T>, key: T -> int)
    ensures var p := Position(x, sorted, key);
            Insert(x, sorted, key) == sorted[..p] + [x] + sorted[p..]
  {
    if sorted != [] && key(sorted[|sorted| - 1]) > key(x) {
      var init, last := sorted[..|sorted| - 1], sorted[|sorted| - 1];
      InsertAt(x, init, key);
      var p := Position(x, init, key);
      assert sorted[..p] == init[..p] && sorted[p..] == init[p..] + [last];
    }
  }

  lemma InsertSorts<T>(x: T, sorted: seq<T>, key: T -> int)
    requires Ascending(sorted, key)
    ensures Ascending(Insert(x, sorted, key), key)
    ensures multiset(Insert(x, sorted, key)) == multiset(sorted) + multiset{x}
  {
    hide Insert, Position, Ascending;
    InsertAt(x, sorted, key);
    var p := Position(x, sorted, key);
    BagWithInserted(x, sorted, p);
    AscendingWithInserted(x, sorted, p, key);
  }

  lemma BagWithInserted<T>(x: T, s: seq<T>, p: nat)
    requires p <= |s|
    ensures multiset(s[..p] + [x] + s[p..]) == multiset(s) + multiset{x}
  {
    assert s == s[..p] + s[p..];
  }

  lemma AscendingWithInserted<T>(x: T, s: seq<T>, p: nat, key: T -> int)
    requires p <= |s| && Ascending(s, key)
    requires forall i :: p <= i < |s| ==> key(x) < key(s[i])
    requires p > 0 ==> key(s[p - 1]) <= key(x)
    ensures Ascending(s[..p] + [x] + s[p..], key)
  {
    var r := s[..p] + [x] + s[p..];
    forall i, j | 0 <= i < j < |r| ensures key(r[i]) <= key(r[j]) {
      assert i < p ==> r[i] == s[i] && key(s[i]) <= key(s[p - 1]);
      assert i > p ==> r[i] == s[i - 1];
      assert j < p ==> r[j] == s[j];
      assert j > p ==> r[j] == s[j - 1];
    }
  }

  lemma {:induction false} SortSorts<T>(s: seq<T>, key: T -> int)
    ensures Ascending(Sort(s, key), key)
    ensures multiset(Sort(s, key)) == multiset(s)
  {
    if s == [] {
    } else {
      var init, last := s[..|s| - 1], s[|s| - 1];
      SortSorts(init, key);
      InsertSorts(last, Sort(init, key), key);
      assert s == init + [last];
    }
  }

  /** Sorting leaves a sorted list alone. */
  lemma {:induction false} SortedStays<T>(s: seq<T>, key: T -> int)
    requires Ascending(s, key)
    ensures Sort(s, key) == s
  {
    if s == [] {
    } else {
      var init, last := s[..|s| - 1], s[|s| - 1];
      SortedStays(init, key);
      assert s == init + [last];
    }
  }

  // ----- Sorting distinct elements -----

  ghost predicate Distinct<T>(s: seq<T>) {
    forall i, j :: 0 <= i < j < |s| ==> s[i] != s[j]
  }

  lemma RepeatedLast<T>(init: seq<T>, last: T)
    requires Distinct(init) && last !in init
    ensures Distinct(init + [last])
  {
  }

  lemma SuffixHolds<T>(s: seq<T>, cut: nat)
    requires cut <= |s|
    ensures forall i :: cut <= i < |s| ==> s[i] in s[cut..]
  {
    forall i | cut <= i < |s| ensures s[i] in s[cut..] {
      assert s[cut..][i - cut] == s[i];
    }
  }

  lemma {:induction false} DistinctBag<T(!new)>(s: seq<T>)
    ensures Distinct(s) <==> forall x :: x in s ==> multiset(s)[x] == 1
  {
    if s == [] {
    } else {
      var init, last := s[..|s| - 1], s[|s| - 1];
      DistinctBag(init);
      assert s == init + [last];
      assert multiset(s) == multiset(init) + multiset{last};
      if Distinct(s) {
        assert last !in init;
      } else if Distinct(init) {
        if last !in init { RepeatedLast(init, last); }
        assert multiset(s)[last] >= 2;
      } else {
        var x :| x in init && multiset(init)[x] != 1;
        assert multiset(s)[x] >= 2;
      }
    }
  }

  lemma SortKeepsElements<T(!new)>(s: seq<T>, key: T -> int)
    requires Distinct(s)
    ensures var r := Sort(s, key);
            Distinct(r) && Ascending(r, key) && |r| == |s| && forall x :: x in r <==> x in s
  {
    hide Sort;
    var r := Sort(s, key);
    SortSorts(s, key);
    DistinctBag(s);
    DistinctBag(r);
    assert |multiset(r)| == |r| && |multiset(s)| == |s|;
    assert forall x :: x in r <==> x in multiset(r);
    assert forall x :: x in s <==> x in multiset(s);
  }

  lemma {:induction false} DistinctSize<T(!new)>(s: seq<T>, elements: set<T>)
    requires Distinct(s) && forall x :: x in s <==> x in elements
    ensures |s| == |elements|
  {
    if s == [] {
      assert elements == {};
    } else {
      var init, last := s[..|s| - 1], s[|s| - 1];
      assert forall x :: x in s <==> x in init || x == last;
      assert last !in init;
      DistinctSize(init, elements - {last});
    }
  }

  lemma {:induction false} ListOf<T(!new)>(elements: set<T>) returns (s: seq<T>)
    ensures Distinct(s) && forall x :: x in s <==> x in elements
  {
    if elements == {} {
      s := [];
    } else {
      var x :| x in elements;
      s := ListOf(elements - {x});
      s := s + [x];
    }
  }
}
