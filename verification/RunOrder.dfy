// The order in which runs are relaxed: by end, then by start, ties left in extraction order.
module RunOrder {
  import opened Visibility
  import opened ServingGraph

  predicate KeyLess(x: Interval, y: Interval) {
    x.en < y.en || (x.en == y.en && x.st < y.st)
  }

  predicate KeySorted(s: seq<Interval>) {
    forall i, j :: 0 <= i < j < |s| ==> !KeyLess(s[j], s[i])
  }

  // Places x after every element that does not have a larger key.
  function Insert(s: seq<Interval>, x: Interval): seq<Interval> {
    if s == [] || !KeyLess(x, s[|s| - 1]) then s + [x]
    else Insert(s[..|s| - 1], x) + [s[|s| - 1]]
  }

  function StableSort(s: seq<Interval>): seq<Interval> {
    if s == [] then [] else Insert(StableSort(s[..|s| - 1]), s[|s| - 1])
  }

  // The elements of s with the key of k, in order.
  function Ties(s: seq<Interval>, k: Interval): seq<Interval> {
    if s == [] then [] else
      var x := s[|s| - 1];
      Ties(s[..|s| - 1], k) + if x.en == k.en && x.st == k.st then [x] else []
  }

  lemma {:induction false} InsertAdds(s: seq<Interval>, x: Interval)
    ensures multiset(Insert(s, x)) == multiset(s) + multiset{x}
    ensures forall y :: y in Insert(s, x) ==> y == x || y in s
    decreases |s|
  {
    if s != [] && KeyLess(x, s[|s| - 1]) {
      InsertAdds(s[..|s| - 1], x);
      assert s == s[..|s| - 1] + [s[|s| - 1]];
    }
  }

  lemma {:induction false} InsertKeepsOrder(s: seq<Interval>, x: Interval)
    requires KeySorted(s)
    ensures KeySorted(Insert(s, x))
    decreases |s|
  {
    if s != [] && KeyLess(x, s[|s| - 1]) {
      var init, last := s[..|s| - 1], s[|s| - 1];
      InsertKeepsOrder(init, x);
      InsertAdds(init, x);
      var r := Insert(init, x);
      forall i | 0 <= i < |r|
        ensures !KeyLess(last, r[i])
      {
        assert r[i] in r;
      }
    }
  }

  lemma {:induction false} InsertKeepsTies(s: seq<Interval>, x: Interval, k: Interval)
    requires KeySorted(s)
    ensures Ties(Insert(s, x), k) == Ties(s + [x], k)
    decreases |s|
  {
    if s != [] && KeyLess(x, s[|s| - 1]) {
      var init, last := s[..|s| - 1], s[|s| - 1];
      InsertKeepsTies(init, x, k);
      var r := Insert(init, x) + [last];
      assert r[..|r| - 1] == Insert(init, x);
      assert (init + [x])[..|init|] == init;
      assert (s + [x])[..|s|] == s;
      if x.en == k.en && x.st == k.st {
        assert !(last.en == k.en && last.st == k.st);
      }
    }
  }

  lemma {:induction false} StableSortOrders(s: seq<Interval>)
    ensures KeySorted(StableSort(s)) && multiset(StableSort(s)) == multiset(s)
    decreases |s|
  {
    if s != [] {
      var init, last := s[..|s| - 1], s[|s| - 1];
      StableSortOrders(init);
      InsertKeepsOrder(StableSort(init), last);
      InsertAdds(StableSort(init), last);
      assert s == init + [last];
    }
  }

  lemma {:induction false} StableSortTies(s: seq<Interval>, k: Interval)
    ensures Ties(StableSort(s), k) == Ties(s, k)
    decreases |s|
  {
    if s != [] {
      var init, last := s[..|s| - 1], s[|s| - 1];
      StableSortTies(init, k);
      StableSortOrders(init);
      InsertKeepsTies(StableSort(init), last, k);
      assert (StableSort(init) + [last])[..|StableSort(init)|] == StableSort(init);
    }
  }

  // The sort is a permutation, ordered by key, and stable: those three fix it.
  lemma StableSortSorts(s: seq<Interval>)
    ensures KeySorted(StableSort(s)) && SortedByEnd(StableSort(s))
    ensures multiset(StableSort(s)) == multiset(s)
    ensures forall x :: x in StableSort(s) <==> x in s
    ensures forall k :: Ties(StableSort(s), k) == Ties(s, k)
  {
    StableSortOrders(s);
    forall k
      ensures Ties(StableSort(s), k) == Ties(s, k)
    {
      StableSortTies(s, k);
    }
    forall x
      ensures x in StableSort(s) <==> x in s
    {
      assert x in StableSort(s) <==> x in multiset(StableSort(s));
    }
  }
}
