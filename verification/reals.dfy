// Sums, orderings and square roots over real sequences.
module Reals {

  function Sum(xs: seq<real>): real {
    if xs == [] then 0.0 else Sum(xs[..|xs| - 1]) + xs[|xs| - 1]
  }

  function Map<T, U>(xs: seq<T>, f: T -> U): (r: seq<U>)
    ensures |r| == |xs| && forall i :: 0 <= i < |xs| ==> r[i] == f(xs[i])
  {
    seq(|xs|, i requires 0 <= i < |xs| => f(xs[i]))
  }

  function Squared(m: real): real -> real {
    x => (x - m) * (x - m)
  }

  function Times(c: real): real -> real {
    x => c * x
  }

  function Scaled(xs: seq<real>, c: real): seq<real> {
    Map(xs, Times(c))
  }

  // The sum of squared distances from m.
  function SquaredDeviations(xs: seq<real>, m: real): real {
    Sum(Map(xs, Squared(m)))
  }

  function Mean(xs: seq<real>): real {
    if xs == [] then 0.0 else Sum(xs) / |xs| as real
  }

  lemma SumSnoc(xs: seq<real>, x: real)
    ensures Sum(xs + [x]) == Sum(xs) + x
  {
    assert (xs + [x])[..|xs|] == xs;
  }

  lemma SquaredSnoc(xs: seq<real>, x: real, m: real)
    ensures SquaredDeviations(xs + [x], m) == SquaredDeviations(xs, m) + (x - m) * (x - m)
  {
    MapSnoc(xs, x, Squared(m));
    SumSnoc(Map(xs, Squared(m)), Squared(m)(x));
  }

  lemma MapSnoc<T, U>(xs: seq<T>, x: T, f: T -> U)
    ensures Map(xs + [x], f) == Map(xs, f) + [f(x)]
  {}

  lemma {:induction false} SumNonNegative(xs: seq<real>)
    requires forall i :: 0 <= i < |xs| ==> xs[i] >= 0.0
    ensures Sum(xs) >= 0.0
    ensures Sum(xs) == 0.0 ==> forall i :: 0 <= i < |xs| ==> xs[i] == 0.0
  {
    if xs != [] {
      SumNonNegative(xs[..|xs| - 1]);
      assert forall i :: 0 <= i < |xs| - 1 ==> xs[i] == xs[..|xs| - 1][i];
    }
  }

  lemma SquareNonNegative(x: real)
    ensures x * x >= 0.0
  {}

  lemma SquaredDeviationsNonNegative(xs: seq<real>, m: real)
    ensures SquaredDeviations(xs, m) >= 0.0
  {
    forall i | 0 <= i < |xs|
      ensures Map(xs, Squared(m))[i] >= 0.0
    {
      SquareNonNegative(xs[i] - m);
    }
    SumNonNegative(Map(xs, Squared(m)));
  }

  // ---- Scaling ----

  lemma {:induction false} SumScaled(xs: seq<real>, c: real)
    ensures Sum(Scaled(xs, c)) == c * Sum(xs)
  {
    if xs != [] {
      var n := |xs| - 1;
      SumScaled(xs[..n], c);
      assert xs == xs[..n] + [xs[n]];
      MapSnoc(xs[..n], xs[n], Times(c));
      SumSnoc(Scaled(xs[..n], c), c * xs[n]);
      Distribute(c, Sum(xs[..n]), xs[n]);
    }
  }

  lemma Distribute(c: real, a: real, b: real)
    ensures c * (a + b) == c * a + c * b
  {}

  lemma SquaredScaled(xs: seq<real>, m: real, c: real, n: real)
    requires n == c * m
    ensures SquaredDeviations(Scaled(xs, c), n) == (c * c) * SquaredDeviations(xs, m)
  {
    SquaresScaled(xs, m, c, n);
    SumScaled(Map(xs, Squared(m)), c * c);
  }

  lemma SquaresScaled(xs: seq<real>, m: real, c: real, n: real)
    requires n == c * m
    ensures Map(Scaled(xs, c), Squared(n)) == Scaled(Map(xs, Squared(m)), c * c)
  {
    var k := c * c;
    var l, r := Map(Scaled(xs, c), Squared(n)), Scaled(Map(xs, Squared(m)), k);
    forall i | 0 <= i < |l|
      ensures l[i] == r[i]
    {
      var d, y := Map(xs, Squared(m))[i], Scaled(xs, c)[i];
      assert d == (xs[i] - m) * (xs[i] - m);
      assert y == c * xs[i];
      assert l[i] == (y - n) * (y - n);
      assert r[i] == k * d;
      SquareOfScaled(xs[i], y, m, n, c, k, d);
    }
  }

  lemma SquareOfScaled(x: real, y: real, m: real, n: real, c: real, k: real, d: real)
    requires y == c * x && n == c * m && k == c * c && d == (x - m) * (x - m)
    ensures (y - n) * (y - n) == k * d
  {
    assert y - n == c * (x - m);
  }

  // ---- Permutations ----

  function Without<T>(xs: seq<T>, i: nat): (r: seq<T>)
    requires i < |xs|
    ensures |r| == |xs| - 1
    ensures multiset(r) == multiset(xs) - multiset{xs[i]}
  {
    assert xs == xs[..i] + [xs[i]] + xs[i + 1..];
    xs[..i] + xs[i + 1..]
  }

  lemma {:induction false} SumWithout(xs: seq<real>, i: nat)
    requires i < |xs|
    ensures Sum(xs) == Sum(Without(xs, i)) + xs[i]
  {
    var n := |xs| - 1;
    if i == n {
      assert Without(xs, i) == xs[..n];
    } else {
      SumWithout(xs[..n], i);
      assert Without(xs, i) == Without(xs[..n], i) + [xs[n]];
      SumSnoc(Without(xs[..n], i), xs[n]);
    }
  }

  // Where an element of xs sits in a permutation ys of it.
  lemma Locate<T>(xs: seq<T>, ys: seq<T>) returns (i: nat)
    requires xs != [] && multiset(xs) == multiset(ys)
    ensures i < |ys| && ys[i] == xs[|xs| - 1]
    ensures multiset(xs[..|xs| - 1]) == multiset(Without(ys, i))
  {
    var n := |xs| - 1;
    assert xs[n] in multiset(ys);
    i :| 0 <= i < |ys| && ys[i] == xs[n];
    assert xs == xs[..n] + [xs[n]];
  }

  lemma SameLength<T>(xs: seq<T>, ys: seq<T>)
    requires multiset(xs) == multiset(ys)
    ensures |xs| == |ys|
  {
    assert |xs| == |multiset(xs)| && |ys| == |multiset(ys)|;
  }

  lemma {:induction false} SumPermuted(xs: seq<real>, ys: seq<real>)
    requires multiset(xs) == multiset(ys)
    ensures Sum(xs) == Sum(ys)
  {
    SameLength(xs, ys);
    if xs != [] {
      var i := Locate(xs, ys);
      SumPermuted(xs[..|xs| - 1], Without(ys, i));
      SumWithout(ys, i);
    }
  }

  lemma MapWithout<T, U>(ys: seq<T>, i: nat, f: T -> U)
    requires i < |ys|
    ensures Map(Without(ys, i), f) == Without(Map(ys, f), i)
    ensures multiset(Map(ys, f)) == multiset(Map(Without(ys, i), f)) + multiset{f(ys[i])}
  {
    assert Map(ys, f)[i] in multiset(Map(ys, f));
  }

  lemma {:induction false} MapPermuted<T, U>(xs: seq<T>, ys: seq<T>, f: T -> U)
    requires multiset(xs) == multiset(ys)
    ensures multiset(Map(xs, f)) == multiset(Map(ys, f))
  {
    SameLength(xs, ys);
    if xs != [] {
      var n := |xs| - 1;
      var i := Locate(xs, ys);
      MapPermuted(xs[..n], Without(ys, i), f);
      MapWithout(ys, i, f);
      MapLast(xs, f);
    }
  }

  lemma MapLast<T, U>(xs: seq<T>, f: T -> U)
    requires xs != []
    ensures multiset(Map(xs, f)) == multiset(Map(xs[..|xs| - 1], f)) + multiset{f(xs[|xs| - 1])}
  {
    var n := |xs| - 1;
    assert Map(xs, f) == Map(xs[..n], f) + [f(xs[n])];
  }

  lemma SumsPermuted(xs: seq<real>, ys: seq<real>, m: real)
    requires multiset(xs) == multiset(ys)
    ensures |xs| == |ys| && Sum(xs) == Sum(ys) && SquaredDeviations(xs, m) == SquaredDeviations(ys, m)
  {
    SameLength(xs, ys);
    SumPermuted(xs, ys);
    MapPermuted(xs, ys, Squared(m));
    SumPermuted(Map(xs, Squared(m)), Map(ys, Squared(m)));
  }

  // ---- sort.Float64s ----

  predicate IsSorted(xs: seq<real>) {
    forall i, j :: 0 <= i < j < |xs| ==> xs[i] <= xs[j]
  }

  // x before the first element that is not below it.
  function Insert(x: real, xs: seq<real>): (r: seq<real>)
    ensures multiset(r) == multiset(xs) + multiset{x} && |r| == |xs| + 1
  {
    if xs == [] || x <= xs[0] then [x] + xs
    else assert xs == [xs[0]] + xs[1..]; [xs[0]] + Insert(x, xs[1..])
  }

  lemma {:induction false} InsertSorted(x: real, xs: seq<real>)
    requires IsSorted(xs)
    ensures IsSorted(Insert(x, xs))
    ensures Insert(x, xs)[0] == if xs == [] || x <= xs[0] then x else xs[0]
  {
    if xs != [] && x > xs[0] {
      InsertSorted(x, xs[1..]);
      ConsSorted(xs[0], Insert(x, xs[1..]));
    }
  }

  lemma ConsSorted(x: real, xs: seq<real>)
    requires IsSorted(xs) && (xs != [] ==> x <= xs[0])
    ensures IsSorted([x] + xs)
  {}

  // The sorted rearrangement.
  function Sort(xs: seq<real>): (r: seq<real>)
    ensures multiset(r) == multiset(xs) && |r| == |xs|
  {
    if xs == [] then [] else assert xs == [xs[0]] + xs[1..]; Insert(xs[0], Sort(xs[1..]))
  }

  lemma {:induction false} SortSorts(xs: seq<real>)
    ensures IsSorted(Sort(xs))
  {
    if xs != [] {
      SortSorts(xs[1..]);
      InsertSorted(xs[0], Sort(xs[1..]));
    }
  }

  lemma SortedFirst(xs: seq<real>, ys: seq<real>)
    requires IsSorted(xs) && IsSorted(ys) && multiset(xs) == multiset(ys) && xs != []
    ensures ys != [] && xs[0] == ys[0]
  {
    assert xs[0] in multiset(ys);
    assert ys[0] in multiset(xs);
  }

  lemma WithoutFirst(xs: seq<real>)
    requires xs != []
    ensures multiset(xs[1..]) == multiset(xs) - multiset{xs[0]} && xs == [xs[0]] + xs[1..]
  {
    assert Without(xs, 0) == xs[1..];
  }

  // There is only one sorted rearrangement.
  lemma {:induction false} SortedUnique(xs: seq<real>, ys: seq<real>)
    requires IsSorted(xs) && IsSorted(ys) && multiset(xs) == multiset(ys)
    ensures xs == ys
  {
    SameLength(xs, ys);
    if xs != [] {
      SortedFirst(xs, ys);
      WithoutFirst(xs);
      WithoutFirst(ys);
      SortedUnique(xs[1..], ys[1..]);
    }
  }

  lemma SortPermuted(xs: seq<real>, ys: seq<real>)
    requires multiset(xs) == multiset(ys)
    ensures Sort(xs) == Sort(ys)
  {
    SortSorts(xs);
    SortSorts(ys);
    SortedUnique(Sort(xs), Sort(ys));
  }

  lemma TimesIs(c: real, x: real)
    ensures Times(c)(x) == c * x
  {}

  lemma ScaledSorted(s: seq<real>, c: real)
    requires IsSorted(s) && c > 0.0
    ensures IsSorted(Scaled(s, c))
  {
    forall i, j | 0 <= i < j < |s|
      ensures Scaled(s, c)[i] <= Scaled(s, c)[j]
    {
      var x, y := s[i], s[j];
      ScaleOrder(c, x, y);
      TimesIs(c, x);
      TimesIs(c, y);
    }
  }

  lemma ScaleOrder(c: real, a: real, b: real)
    requires c > 0.0
    ensures a < b <==> c * a < c * b
    ensures a <= b <==> c * a <= c * b
    ensures a == b <==> c * a == c * b
  {
    if a < b {
      assert c * (b - a) > 0.0;
    } else if a > b {
      assert c * (a - b) > 0.0;
    }
  }

  lemma SortScaled(xs: seq<real>, c: real)
    requires c > 0.0
    ensures Sort(Scaled(xs, c)) == Scaled(Sort(xs), c)
  {
    MapPermuted(xs, Sort(xs), Times(c));
    SortSorts(xs);
    SortSorts(Scaled(xs, c));
    ScaledSorted(Sort(xs), c);
    SortedUnique(Sort(Scaled(xs, c)), Scaled(Sort(xs), c));
  }

  // ---- math.Sqrt ----

  predicate IsRootOf(r: real, v: real) {
    r >= 0.0 && r * r == v
  }

  ghost predicate IsSqrt(sqrt: real -> real) {
    forall v: real :: v >= 0.0 ==> IsRootOf(sqrt(v), v)
  }

  lemma ZeroProduct(x: real, y: real)
    requires x * y == 0.0
    ensures x == 0.0 || y == 0.0
  {}

  lemma RootUnique(a: real, b: real)
    requires a >= 0.0 && b >= 0.0 && a * a == b * b
    ensures a == b
  {
    assert (a - b) * (a + b) == 0.0;
    ZeroProduct(a - b, a + b);
  }

  lemma RootScaled(sqrt: real -> real, v: real, c: real)
    requires IsSqrt(sqrt) && v >= 0.0 && c >= 0.0
    ensures sqrt((c * c) * v) == c * sqrt(v)
  {
    assert (c * c) * v >= 0.0;
    var a, b := sqrt((c * c) * v), c * sqrt(v);
    assert b * b == (c * c) * (sqrt(v) * sqrt(v));
    RootUnique(a, b);
  }
}
