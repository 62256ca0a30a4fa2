// Sums of a function over a finite set, in any order, and sizes of sets of pairs.
module Sums {

  lemma HasElement<T>(s: set<T>)
    requires s != {}
    ensures exists x :: x in s
  {
    if forall x :: x !in s {
      assert false;
    }
  }

  ghost function SumOver<T(!new)>(s: set<T>, f: T -> real): real {
    if s == {} then 0.0 else
      HasElement(s);
      var x :| x in s;
      f(x) + SumOver(s - {x}, f)
  }

  // Any element may be taken first.
  lemma {:induction false} SumRemove<T(!new)>(s: set<T>, x: T, f: T -> real)
    requires x in s
    ensures SumOver(s, f) == f(x) + SumOver(s - {x}, f)
    decreases s
  {
    HasElement(s);
    var y :| y in s && SumOver(s, f) == f(y) + SumOver(s - {y}, f);
    if y != x {
      SumRemove(s - {y}, x, f);
      SumRemove(s - {x}, y, f);
      assert s - {y} - {x} == s - {x} - {y};
    }
  }

  // One more element.
  lemma SumAdd<T(!new)>(s: set<T>, x: T, f: T -> real)
    requires x !in s
    ensures SumOver(s + {x}, f) == SumOver(s, f) + f(x)
  {
    SumRemove(s + {x}, x, f);
    assert s + {x} - {x} == s;
  }

  lemma {:induction false} SumPlus<T(!new)>(s: set<T>, f: T -> real, g: T -> real, h: T -> real)
    requires forall x :: x in s ==> h(x) == f(x) + g(x)
    ensures SumOver(s, h) == SumOver(s, f) + SumOver(s, g)
    decreases s
  {
    if s != {} {
      HasElement(s);
      var x :| x in s;
      SumRemove(s, x, f);
      SumRemove(s, x, g);
      SumRemove(s, x, h);
      SumPlus(s - {x}, f, g, h);
    }
  }

  lemma {:induction false} SumSame<T(!new)>(s: set<T>, f: T -> real, g: T -> real)
    requires forall x :: x in s ==> f(x) == g(x)
    ensures SumOver(s, f) == SumOver(s, g)
    decreases s
  {
    if s != {} {
      HasElement(s);
      var x :| x in s;
      SumRemove(s, x, f);
      SumRemove(s, x, g);
      SumSame(s - {x}, f, g);
    }
  }

  // Elements that count for nothing may be dropped.
  lemma {:induction false} SumWithin<T(!new)>(s: set<T>, part: set<T>, f: T -> real)
    requires part <= s && forall x :: x in s && x !in part ==> f(x) == 0.0
    ensures SumOver(s, f) == SumOver(part, f)
    decreases s
  {
    if x :| x in s && x !in part {
      SumRemove(s, x, f);
      SumWithin(s - {x}, part, f);
    } else {
      assert s == part;
    }
  }

  // A sum of non-negative values is zero exactly when all of them are.
  lemma {:induction false} SumZero<T(!new)>(s: set<T>, f: T -> real)
    requires forall x :: x in s ==> f(x) >= 0.0
    ensures SumOver(s, f) >= 0.0
    ensures SumOver(s, f) == 0.0 <==> forall x :: x in s ==> f(x) == 0.0
    decreases s
  {
    if s != {} {
      HasElement(s);
      var x :| x in s;
      SumRemove(s, x, f);
      SumZero(s - {x}, f);
    }
  }

  // x paired with each element of a set.
  ghost function PairsWith<S, T>(x: S, ys: set<T>): set<(S, T)> {
    set y | y in ys :: (x, y)
  }

  lemma {:induction false} PairsCount<S, T>(x: S, ys: set<T>)
    ensures |PairsWith(x, ys)| == |ys|
    decreases ys
  {
    if ys == {} {
      assert PairsWith(x, ys) == {};
    } else {
      HasElement(ys);
      var y :| y in ys;
      PairsCount(x, ys - {y});
      assert PairsWith(x, ys) == PairsWith(x, ys - {y}) + {(x, y)};
    }
  }

  // Each element of a set paired with its own partners.
  ghost function AllPairs<S, T>(xs: set<S>, partners: S -> set<T>): set<(S, T)> {
    set x, y | x in xs && y in partners(x) :: (x, y)
  }

  lemma AllPairsRemove<S, T>(xs: set<S>, x: S, partners: S -> set<T>)
    requires x in xs
    ensures |AllPairs(xs, partners)| == |AllPairs(xs - {x}, partners)| + |partners(x)|
  {
    var rest, own := AllPairs(xs - {x}, partners), PairsWith(x, partners(x));
    PairsCount(x, partners(x));
    assert rest !! own;
    assert AllPairs(xs, partners) == rest + own;
  }

  lemma AllPairsOne<S, T>(x: S, partners: S -> set<T>)
    ensures |AllPairs({x}, partners)| == |partners(x)|
  {
    AllPairsRemove({x}, x, partners);
    assert {x} - {x} == {} && AllPairs({x} - {x}, partners) == {};
  }

  // Adding up the numbers of partners counts the pairs.
  lemma {:induction false} SumOfSizes<S(!new), T>(xs: set<S>, f: S -> real, partners: S -> set<T>)
    requires forall x :: x in xs ==> f(x) == |partners(x)| as real
    ensures SumOver(xs, f) == |AllPairs(xs, partners)| as real
    decreases xs
  {
    if xs == {} {
      assert AllPairs(xs, partners) == {};
    } else {
      HasElement(xs);
      var x :| x in xs;
      SumRemove(xs, x, f);
      SumOfSizes(xs - {x}, f, partners);
      AllPairsRemove(xs, x, partners);
    }
  }

  // The integers in [a, b) that satisfy f.
  ghost function Selected(a: int, b: int, f: int -> bool): set<int> {
    set i | a <= i < b && f(i)
  }

  lemma SelectedNext(a: int, b: int, f: int -> bool)
    requires a < b
    ensures |Selected(a, b, f)| == |Selected(a, b - 1, f)| + if f(b - 1) then 1 else 0
  {
    assert Selected(a, b, f) == if f(b - 1) then Selected(a, b - 1, f) + {b - 1} else Selected(a, b - 1, f);
  }

  // 0, 1, ..., n - 1
  ghost function Indices(n: nat): set<int> {
    Selected(0, n, _ => true)
  }

  // The first elements of xs are related, one by one, to those of ys.
  ghost predicate Related<S, T>(rel: (S, T) -> bool, xs: seq<S>, ys: seq<T>) {
    |ys| <= |xs| && forall i :: 0 <= i < |ys| ==> rel(xs[i], ys[i])
  }

  lemma OneMoreRelated<S, T>(rel: (S, T) -> bool, xs: seq<S>, ys: seq<T>, y: T)
    requires Related(rel, xs, ys) && |ys| < |xs| && rel(xs[|ys|], y)
    ensures Related(rel, xs, ys + [y])
  {
  }

  // value is n out of m.
  ghost predicate IsShare(value: real, n: int, m: int) {
    value * m as real == n as real
  }

  lemma QuotientIsShare(n: int, m: int)
    requires m > 0
    ensures IsShare(n as real / m as real, n, m)
  {
  }

  lemma ShareIsQuotient(value: real, n: int, m: int)
    requires m > 0
    ensures IsShare(value, n, m) <==> value == n as real / m as real
  {
    var q := n as real / m as real;
    assert q * m as real == n as real;
    if IsShare(value, n, m) {
      assert (value - q) * m as real == 0.0;
    }
  }
}
