// Cardinalities of finite sets.
module Sets {

  lemma SubsetSize<T>(a: set<T>, b: set<T>)
    requires a <= b
    ensures |a| <= |b| && (|a| == |b| <==> a == b)
  {
    assert b == a + (b - a);
    assert |b| == |a| + |b - a|;
  }

  // ---- Counting ----

  // The numbers below n with a property.
  function Having(n: nat, p: nat -> bool): set<nat> {
    set i: nat | i < n && p(i)
  }

  lemma HavingNext(n: nat, p: nat -> bool)
    ensures |Having(n + 1, p)| == |Having(n, p)| + if p(n) then 1 else 0
  {
    if p(n) {
      assert Having(n + 1, p) == Having(n, p) + {n};
    } else {
      assert Having(n + 1, p) == Having(n, p);
    }
  }

  lemma HavingSame(n: nat, p: nat -> bool, q: nat -> bool)
    requires forall i: nat :: i < n ==> p(i) == q(i)
    ensures Having(n, p) == Having(n, q)
  {}

  // The positions of the elements with a property.
  function Positions<T>(xs: seq<T>, p: T -> bool): set<nat> {
    set i: nat | i < |xs| && p(xs[i])
  }

  lemma NoPositions<T>(p: T -> bool)
    ensures Positions([], p) == {}
  {}

  lemma LastPosition<T>(xs: seq<T>, p: T -> bool)
    requires xs != []
    ensures |Positions(xs, p)| == |Positions(xs[..|xs| - 1], p)| + if p(xs[|xs| - 1]) then 1 else 0
  {
    var n := |xs| - 1;
    if p(xs[n]) {
      assert Positions(xs, p) == Positions(xs[..n], p) + {n};
    } else {
      assert Positions(xs, p) == Positions(xs[..n], p);
    }
  }
}
