/**
 Python's `sorted`: a stable sort by a total preorder, pinned down by what it keeps.
 */
module Sorting {

  ghost predicate TotalPreorder<T(!new)>(leq: (T, T) -> bool) {
    && (forall a, b :: leq(a, b) || leq(b, a))
    && (forall a, b, c :: leq(a, b) && leq(b, c) ==> leq(a, c))
  }

  function Insert<T(!new)>(leq: (T, T) -> bool, x: T, xs: seq<T>): (r: seq<T>)
    ensures forall y :: y in r <==> y == x || y in xs
    ensures |r| == |xs| + 1
  {
    if xs == [] || leq(x, xs[0]) then [x] + xs else [xs[0]] + Insert(leq, x, xs[1..])
  }

  function Sort<T(!new)>(leq: (T, T) -> bool, xs: seq<T>): (r: seq<T>)
    ensures forall y :: y in r <==> y in xs
    ensures |r| == |xs|
  {
    if xs == [] then [] else Insert(leq, xs[0], Sort(leq, xs[1..]))
  }

  ghost predicate Ordered<T>(leq: (T, T) -> bool, xs: seq<T>) {
    forall i, j | 0 <= i < j < |xs| :: leq(xs[i], xs[j])
  }

  function Filter<T>(p: T -> bool, xs: seq<T>): (r: seq<T>)
    ensures |r| <= |xs|
    ensures forall i | 0 <= i < |r| :: p(r[i]) && r[i] in xs
  {
    if xs == [] then [] else (if p(xs[0]) then [xs[0]] else []) + Filter(p, xs[1..])
  }

  function Tying<T>(leq: (T, T) -> bool, k: T): T -> bool {
    x => leq(x, k) && leq(k, x)
  }

  function Not<T>(p: T -> bool): T -> bool {
    x => !p(x)
  }

  /** The members of `xs` that tie with `k`, in the order they stand. */
  function Ties<T>(leq: (T, T) -> bool, k: T, xs: seq<T>): seq<T> {
    Filter(Tying(leq, k), xs)
  }

  /** `r` is in order and no two members that tie have changed places. */
  ghost predicate StablySorts<T(!new)>(leq: (T, T) -> bool, xs: seq<T>, r: seq<T>) {
    Ordered(leq, r) && forall k :: Ties(leq, k, r) == Ties(leq, k, xs)
  }

  lemma {:induction false} FilterAppends<T>(p: T -> bool, a: seq<T>, b: seq<T>)
    ensures Filter(p, a + b) == Filter(p, a) + Filter(p, b)
  {
    if a == [] {
      assert a + b == b;
    } else {
      assert (a + b)[1..] == a[1..] + b;
      FilterAppends(p, a[1..], b);
    }
  }

  lemma FilterCons<T>(p: T -> bool, x: T, xs: seq<T>)
    ensures Filter(p, [x] + xs) == (if p(x) then [x] else []) + Filter(p, xs)
  {
    assert ([x] + xs)[1..] == xs;
  }

  lemma {:induction false} FilterHolds<T>(p: T -> bool, xs: seq<T>, x: T)
    requires x in xs && p(x)
    ensures x in Filter(p, xs)
  {
    if xs[0] != x {
      FilterHolds(p, xs[1..], x);
    }
  }

  lemma {:induction false} FilterNothing<T>(p: T -> bool, xs: seq<T>)
    requires forall x | x in xs :: !p(x)
    ensures Filter(p, xs) == []
  {
    if xs != [] {
      FilterNothing(p, xs[1..]);
    }
  }

  lemma {:induction false} InsertOrdered<T(!new)>(leq: (T, T) -> bool, x: T, xs: seq<T>)
    requires TotalPreorder(leq) && Ordered(leq, xs)
    ensures Ordered(leq, Insert(leq, x, xs))
  {
    if xs != [] && !leq(x, xs[0]) {
      InsertOrdered(leq, x, xs[1..]);
      var rest := Insert(leq, x, xs[1..]);
      forall i | 0 <= i < |rest|
        ensures leq(xs[0], rest[i])
      {
        assert rest[i] in rest;
      }
    }
  }

  lemma NotBothTie<T(!new)>(leq: (T, T) -> bool, k: T, x: T, y: T)
    requires TotalPreorder(leq) && !leq(x, y)
    ensures !(Tying(leq, k)(x) && Tying(leq, k)(y))
  {
  }

  lemma {:induction false} InsertKeepsTies<T(!new)>(leq: (T, T) -> bool, x: T, xs: seq<T>, k: T)
    requires TotalPreorder(leq)
    ensures Ties(leq, k, Insert(leq, x, xs)) == Ties(leq, k, [x] + xs)
  {
    hide TotalPreorder;
    if xs != [] && !leq(x, xs[0]) {
      InsertKeepsTies(leq, x, xs[1..], k);
      NotBothTie(leq, k, x, xs[0]);
      var tying, rest := Tying(leq, k), Insert(leq, x, xs[1..]);
      assert xs == [xs[0]] + xs[1..];
      hide Insert, Filter, Tying;
      FilterCons(tying, xs[0], rest);
      FilterCons(tying, xs[0], xs[1..]);
      FilterCons(tying, x, xs[1..]);
      FilterCons(tying, x, xs);
    }
  }

  lemma {:induction false} SortIsStable<T(!new)>(leq: (T, T) -> bool, xs: seq<T>)
    requires TotalPreorder(leq)
    ensures StablySorts(leq, xs, Sort(leq, xs))
  {
    if xs != [] {
      var rest := Sort(leq, xs[1..]);
      SortIsStable(leq, xs[1..]);
      InsertOrdered(leq, xs[0], rest);
      forall k
        ensures Ties(leq, k, Sort(leq, xs)) == Ties(leq, k, xs)
      {
        InsertKeepsTies(leq, xs[0], rest, k);
        assert ([xs[0]] + rest)[1..] == rest;
        assert Ties(leq, k, rest) == Ties(leq, k, xs[1..]);
      }
    }
  }

  lemma HeadIsFirst<T(!new)>(leq: (T, T) -> bool, r: seq<T>, r': seq<T>)
    requires TotalPreorder(leq) && Ordered(leq, r) && Ordered(leq, r') && r != []
    requires forall k :: Ties(leq, k, r) == Ties(leq, k, r')
    ensures r' != [] && leq(r[0], r'[0])
  {
    FilterHolds(Tying(leq, r[0]), r, r[0]);
    assert Ties(leq, r[0], r') != [];
    assert r' != [];
    FilterHolds(Tying(leq, r'[0]), r', r'[0]);
    assert r'[0] in Ties(leq, r'[0], r);
    assert r'[0] in r;
  }

  /** Being in order with every tie kept leaves one answer, whatever algorithm found it. */
  lemma {:induction false} StableSortIsUnique<T(!new)>(leq: (T, T) -> bool, r: seq<T>, r': seq<T>)
    requires TotalPreorder(leq) && Ordered(leq, r) && Ordered(leq, r')
    requires forall k :: Ties(leq, k, r) == Ties(leq, k, r')
    ensures r == r'
  {
    if r == [] {
      if r' != [] {
        HeadIsFirst(leq, r', r);
      }
    } else {
      HeadIsFirst(leq, r, r');
      HeadIsFirst(leq, r', r);
      assert Ties(leq, r[0], r)[0] == r[0] && Ties(leq, r[0], r')[0] == r'[0];
      forall k
        ensures Ties(leq, k, r[1..]) == Ties(leq, k, r'[1..])
      {
        assert Ties(leq, k, r) == Ties(leq, k, r');
        var tying := Tying(leq, k);
        var n := if tying(r[0]) then 1 else 0;
        assert Filter(tying, r[1..]) == Filter(tying, r)[n..];
        assert Filter(tying, r'[1..]) == Filter(tying, r')[n..];
      }
      StableSortIsUnique(leq, r[1..], r'[1..]);
      assert r == [r[0]] + r[1..] && r' == [r'[0]] + r'[1..];
    }
  }

  /** Every member `p` picks comes strictly before every member it leaves. */
  ghost predicate CutsBelow<T(!new)>(leq: (T, T) -> bool, p: T -> bool) {
    forall a, b :: p(a) && !p(b) ==> leq(a, b) && !leq(b, a)
  }

  lemma {:induction false} InsertBelow<T(!new)>(leq: (T, T) -> bool, x: T, a: seq<T>, b: seq<T>)
    requires forall y | y in b :: leq(x, y)
    ensures Insert(leq, x, a + b) == Insert(leq, x, a) + b
  {
    if a == [] {
      assert a + b == b && Insert(leq, x, a) + b == [x] + b;
    } else {
      assert (a + b)[1..] == a[1..] + b;
      InsertBelow(leq, x, a[1..], b);
    }
  }

  lemma {:induction false} InsertAbove<T(!new)>(leq: (T, T) -> bool, x: T, a: seq<T>, b: seq<T>)
    requires forall y | y in a :: !leq(x, y)
    ensures Insert(leq, x, a + b) == a + Insert(leq, x, b)
  {
    if a == [] {
      assert a + b == b;
    } else {
      assert (a + b)[1..] == a[1..] + b;
      InsertAbove(leq, x, a[1..], b);
    }
  }

  /** Sorting everything is sorting what lies below a cut, then the rest. */
  lemma {:induction false} SortSplits<T(!new)>(leq: (T, T) -> bool, p: T -> bool, xs: seq<T>)
    requires CutsBelow(leq, p)
    ensures Sort(leq, xs) == Sort(leq, Filter(p, xs)) + Sort(leq, Filter(Not(p), xs))
  {
    if xs != [] {
      SortSplits(leq, p, xs[1..]);
      var low, high := Filter(p, xs[1..]), Filter(Not(p), xs[1..]);
      var x := xs[0];
      if p(x) {
        assert Filter(p, xs) == [x] + low && Filter(Not(p), xs) == high;
        assert forall y | y in Sort(leq, high) :: leq(x, y) by {
          FilteredOut(p, xs[1..]);
        }
        InsertBelow(leq, x, Sort(leq, low), Sort(leq, high));
      } else {
        assert Filter(p, xs) == low && Filter(Not(p), xs) == [x] + high;
        assert forall y | y in Sort(leq, low) :: !leq(x, y) by {
          FilteredOut(p, xs[1..]);
        }
        InsertAbove(leq, x, Sort(leq, low), Sort(leq, high));
      }
    }
  }

  lemma FilteredOut<T(!new)>(p: T -> bool, xs: seq<T>)
    ensures forall y | y in Filter(p, xs) :: p(y)
    ensures forall y | y in Filter(Not(p), xs) :: !p(y)
  {
    forall y | y in Filter(Not(p), xs)
      ensures !p(y)
    {
      var i :| 0 <= i < |Filter(Not(p), xs)| && Filter(Not(p), xs)[i] == y;
      assert Not(p)(y);
    }
  }

  // --------------------------------------------------------------- distinct members

  ghost predicate Distinct<T>(xs: seq<T>) {
    forall i, j | 0 <= i < j < |xs| :: xs[i] != xs[j]
  }

  lemma {:induction false} InsertDistinct<T(!new)>(leq: (T, T) -> bool, x: T, xs: seq<T>)
    requires Distinct(xs) && x !in xs
    ensures Distinct(Insert(leq, x, xs))
  {
    if xs != [] && !leq(x, xs[0]) {
      InsertDistinct(leq, x, xs[1..]);
      assert xs[0] !in xs[1..];
      assert xs[0] !in Insert(leq, x, xs[1..]);
    }
  }

  lemma {:induction false} SortDistinct<T(!new)>(leq: (T, T) -> bool, xs: seq<T>)
    requires Distinct(xs)
    ensures Distinct(Sort(leq, xs))
  {
    if xs != [] {
      SortDistinct(leq, xs[1..]);
      assert xs[0] !in xs[1..];
      InsertDistinct(leq, xs[0], Sort(leq, xs[1..]));
    }
  }

  /** Distinct members no two of which tie stand in one order only. */
  lemma {:induction false} OneOrder<T(!new)>(leq: (T, T) -> bool, r: seq<T>, r': seq<T>)
    requires Ordered(leq, r) && Ordered(leq, r') && Distinct(r) && Distinct(r')
    requires forall x :: x in r <==> x in r'
    requires forall x, y | x in r && y in r && leq(x, y) && leq(y, x) :: x == y
    ensures r == r'
  {
    assert r' != [] ==> r'[0] in r';
    if r != [] {
      assert r[0] in r';
      assert r'[0] in r;
      assert leq(r[0], r'[0]) || r[0] == r'[0];
      assert leq(r'[0], r[0]) || r[0] == r'[0];
      forall x ensures x in r[1..] <==> x in r'[1..] {
        assert x in r[1..] <==> x in r && x != r[0];
        assert x in r'[1..] <==> x in r' && x != r'[0];
      }
      OneOrder(leq, r[1..], r'[1..]);
      assert r == [r[0]] + r[1..] && r' == [r'[0]] + r'[1..];
    }
  }
}
