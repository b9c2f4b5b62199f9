// Polynomials over GF(2), as coefficient sequences with the highest power first.
// A sequence of length n stands for a polynomial of degree below n, so that
// equality of two sequences of one length is equality of polynomials.
module GF2 {

  type Poly = seq<bool>

  function Zeros(n: nat): (z: Poly)
    ensures |z| == n && forall i :: 0 <= i < n ==> !z[i]
  {
    seq(n, _ => false)
  }

  // Addition, which over GF(2) is also subtraction.
  function Add(a: Poly, b: Poly): (s: Poly)
    requires |a| == |b|
    ensures |s| == |a| && forall i :: 0 <= i < |s| ==> s[i] == (a[i] != b[i])
  {
    seq(|a|, i requires 0 <= i < |a| => a[i] != b[i])
  }

  function Scale(t: bool, g: Poly): (s: Poly)
    ensures |s| == |g| && forall i :: 0 <= i < |s| ==> s[i] == (t && g[i])
  {
    if t then g else Zeros(|g|)
  }

  // Horner's scheme: (p * x + t) * g == (p * g) * x + t * g.
  function Mul(p: Poly, g: Poly): (m: Poly)
    requires |g| > 0
    ensures |m| == |p| + |g| - 1
  {
    if p == [] then Zeros(|g| - 1)
    else
      var n := |p| - 1;
      Add(Mul(p[..n], g) + [false], Zeros(n) + Scale(p[n], g))
  }

  // x^16 + x^12 + x^5 + 1.
  const XMODEM: Poly := [true,
                         false, false, false, true, false, false, false, false,
                         false, false, true, false, false, false, false, true]

  // m * x^16 == q * XMODEM + r.
  ghost predicate IsQuotient(m: Poly, q: Poly, r: Poly) {
    |q| == |m| && |r| == 16 && Mul(q, XMODEM) == Add(m + Zeros(16), Zeros(|m|) + r)
  }

  // r is the remainder of m * x^16 on division by XMODEM.
  ghost predicate IsRemainder(m: Poly, r: Poly) {
    exists q :: IsQuotient(m, q, r)
  }

  lemma MulSnoc(p: Poly, t: bool, g: Poly)
    requires |g| > 0
    ensures Mul(p + [t], g) == Add(Mul(p, g) + [false], Zeros(|p|) + Scale(t, g))
  {
    assert (p + [t])[..|p|] == p;
  }

  lemma HornerStepAdd(a: Poly, b: Poly, n: nat, s: bool, t: bool, g: Poly)
    requires |g| > 0 && |a| == |b| == n + |g| - 1
    ensures Add(Add(a, b) + [false], Zeros(n) + Scale(s != t, g))
         == Add(Add(a + [false], Zeros(n) + Scale(s, g)), Add(b + [false], Zeros(n) + Scale(t, g)))
  {}

  lemma {:induction false} MulAdd(p: Poly, q: Poly, g: Poly)
    requires |p| == |q| && |g| > 0
    ensures Mul(Add(p, q), g) == Add(Mul(p, g), Mul(q, g))
  {
    if p != [] {
      var n := |p| - 1;
      MulAdd(p[..n], q[..n], g);
      assert Add(p, q)[..n] == Add(p[..n], q[..n]);
      HornerStepAdd(Mul(p[..n], g), Mul(q[..n], g), n, p[n], q[n], g);
    }
  }

  lemma MulByX(p: Poly, g: Poly)
    requires |g| > 0
    ensures Mul(p + [false], g) == Mul(p, g) + [false]
  {
    MulSnoc(p, false, g);
    assert Add(Mul(p, g) + [false], Zeros(|p|) + Scale(false, g)) == Mul(p, g) + [false];
  }

  lemma ZerosSnoc(p: Poly, n: nat)
    requires n > 0
    ensures p + Zeros(n) == (p + Zeros(n - 1)) + [false]
  {}

  lemma {:induction false} MulShift(p: Poly, n: nat, g: Poly)
    requires |g| > 0
    ensures Mul(p + Zeros(n), g) == Mul(p, g) + Zeros(n)
  {
    if n == 0 {
      assert p + Zeros(0) == p && Mul(p, g) + Zeros(0) == Mul(p, g);
    } else {
      ZerosSnoc(p, n);
      ZerosSnoc(Mul(p, g), n);
      MulShift(p, n - 1, g);
      MulByX(p + Zeros(n - 1), g);
    }
  }

  // If the first k coefficients of q * g vanish and g is monic, so do those of q.
  lemma {:induction false} LeadingZeros(q: Poly, g: Poly, k: nat)
    requires k <= |q| && |g| > 0 && g[0]
    requires forall i :: 0 <= i < k ==> !Mul(q, g)[i]
    ensures forall i :: 0 <= i < k ==> !q[i]
  {
    if k != 0 {
      var n := |q| - 1;
      forall i | 0 <= i < k && i < n
        ensures !Mul(q[..n], g)[i]
      {
        assert Mul(q, g)[i] == Mul(q[..n], g)[i];
      }
      LeadingZeros(q[..n], g, if k <= n then k else n);
      assert forall i :: 0 <= i < k && i < n ==> !q[..n][i];
      if k == |q| {
        ZeroTimes(n, g);
        assert q[..n] == Zeros(n);
        assert Mul(q, g)[n] == ((Mul(q[..n], g) + [false])[n] != q[n]);
      }
    }
  }

  lemma {:induction false} ZeroTimes(n: nat, g: Poly)
    requires |g| > 0
    ensures Mul(Zeros(n), g) == Zeros(n + |g| - 1)
  {
    if n != 0 {
      assert Zeros(n)[..n - 1] == Zeros(n - 1);
      ZeroTimes(n - 1, g);
    }
  }

  // If the last k coefficients of q * g vanish and g(0) == 1, so do those of q.
  lemma {:induction false} TrailingZeros(q: Poly, g: Poly, k: nat)
    requires k <= |q| && |g| > 0 && g[|g| - 1]
    requires forall i :: |q| + |g| - 1 - k <= i < |q| + |g| - 1 ==> !Mul(q, g)[i]
    ensures forall i :: |q| - k <= i < |q| ==> !q[i]
  {
    if k != 0 {
      var n := |q| - 1;
      var last := n + |g| - 1;
      assert Mul(q, g)[last] == ((Mul(q[..n], g) + [false])[last] != (Zeros(n) + Scale(q[n], g))[last]);
      assert !q[n];
      forall i | n + |g| - 1 - (k - 1) <= i < n + |g| - 1
        ensures !Mul(q[..n], g)[i]
      {
        assert Mul(q, g)[i] == Mul(q[..n], g)[i];
      }
      TrailingZeros(q[..n], g, k - 1);
      assert forall i :: |q| - k <= i < n ==> !q[..n][i];
    }
  }

  lemma RemainderAdd(m: Poly, r: Poly, n: Poly, s: Poly)
    requires |m| == |n| && IsRemainder(m, r) && IsRemainder(n, s)
    ensures |r| == |s| && IsRemainder(Add(m, n), Add(r, s))
  {
    var p :| IsQuotient(m, p, r);
    var q :| IsQuotient(n, q, s);
    MulAdd(p, q, XMODEM);
    assert Add(Add(m + Zeros(16), Zeros(|m|) + r), Add(n + Zeros(16), Zeros(|n|) + s))
        == Add(Add(m, n) + Zeros(16), Zeros(|m|) + Add(r, s));
    assert IsQuotient(Add(m, n), Add(p, q), Add(r, s));
  }

  // Division by XMODEM has at most one remainder.
  lemma RemainderUnique(m: Poly, r: Poly, s: Poly)
    requires IsRemainder(m, r) && IsRemainder(m, s)
    ensures r == s
  {
    RemainderAdd(m, r, m, s);
    var q :| IsQuotient(Add(m, m), q, Add(r, s));
    LeadingZeros(q, XMODEM, |m|);
    assert q == Zeros(|m|);
    ZeroTimes(|m|, XMODEM);
    forall i | 0 <= i < 16
      ensures r[i] == s[i]
    {
      assert Add(r, s)[i] == Mul(q, XMODEM)[|m| + i];
    }
  }

  lemma AppendedSum(m: Poly, r: Poly)
    requires |r| == 16
    ensures Add(m + Zeros(16), Zeros(|m|) + r) == m + r
  {}

  // Sending the remainder after the message makes the whole divisible.
  lemma RemainderAppended(m: Poly, r: Poly)
    requires IsRemainder(m, r)
    ensures IsRemainder(m + r, Zeros(16))
  {
    var q :| IsQuotient(m, q, r);
    MulShift(q, 16, XMODEM);
    AppendedSum(m, r);
    AppendedSum(m + r, Zeros(16));
    assert IsQuotient(m + r, q + Zeros(16), Zeros(16));
  }

  // A message that is zero outside a window of 16 coefficients is not divisible.
  lemma BurstNotDivisible(m: Poly, k: nat, l: nat)
    requires k + 16 + l >= |m|
    requires k <= |m| && forall i :: 0 <= i < k ==> !m[i]
    requires l <= |m| && forall i :: |m| - l <= i < |m| ==> !m[i]
    requires IsRemainder(m, Zeros(16))
    ensures m == Zeros(|m|)
  {
    var q :| IsQuotient(m, q, Zeros(16));
    var n := |m|;
    forall i | 0 <= i < n + 16
      ensures Mul(q, XMODEM)[i] == (i < n && m[i])
    {}
    LeadingZeros(q, XMODEM, k);
    TrailingZeros(q, XMODEM, if l + 16 <= n then l + 16 else n);
    assert q == Zeros(n);
    ZeroTimes(n, XMODEM);
    assert forall i :: 0 <= i < n ==> m[i] == Mul(q, XMODEM)[i];
  }

  lemma BurstChangesRemainder(m: Poly, n: Poly, r: Poly, k: nat)
    requires |m| == |n| && IsRemainder(m, r) && IsRemainder(n, r)
    requires forall i :: 0 <= i < |m| && !(k <= i < k + 16) ==> m[i] == n[i]
    ensures m == n
  {
    RemainderAdd(m, r, n, r);
    assert Add(r, r) == Zeros(16);
    var d := Add(m, n);
    var lead := if k <= |m| then k else |m|;
    var tail := if k + 16 <= |m| then |m| - k - 16 else 0;
    BurstNotDivisible(d, lead, tail);
    assert forall i :: 0 <= i < |m| ==> !d[i];
  }

  // A nonzero message of at most 14 bits leaves a remainder that is nonzero
  // even with its two leading coefficients dropped.
  lemma ShortMessageRemainder(m: Poly, z: nat, r: Poly)
    requires z <= |m| <= z + 14 && forall i :: 0 <= i < z ==> !m[i]
    requires IsRemainder(m, r) && forall i :: 2 <= i < 16 ==> !r[i]
    ensures m == Zeros(|m|)
  {
    var q :| IsQuotient(m, q, r);
    var n := |m|;
    forall i | 0 <= i < n + 16
      ensures Mul(q, XMODEM)[i] == if i < n then m[i] else r[i - n]
    {}
    LeadingZeros(q, XMODEM, z);
    TrailingZeros(q, XMODEM, n - z);
    assert q == Zeros(n);
    ZeroTimes(n, XMODEM);
    assert forall i :: 0 <= i < n ==> m[i] == Mul(q, XMODEM)[i];
  }

  // ---- The shift register that divides ----

  // Multiplication of a remainder by x: shift, and subtract XMODEM on overflow.
  function DivStep(r: Poly): (s: Poly)
    requires |r| == 16
    ensures |s| == 16
  {
    Add(r[1..] + [false], Scale(r[0], XMODEM[1..]))
  }

  function DivSteps(r: Poly, n: nat): (s: Poly)
    requires |r| == 16
    ensures |s| == 16
    decreases n
  {
    if n == 0 then r else DivSteps(DivStep(r), n - 1)
  }

  lemma {:induction false} DivStepsLast(r: Poly, n: nat)
    requires |r| == 16
    ensures DivSteps(r, n + 1) == DivStep(DivSteps(r, n))
    decreases n
  {
    if n != 0 {
      DivStepsLast(DivStep(r), n - 1);
    }
  }

  function Feed(r: Poly, bit: bool): (s: Poly)
    requires |r| == 16
    ensures |s| == 16
  {
    DivStep(Add(r, [bit] + Zeros(15)))
  }

  function FeedAll(r: Poly, bits: Poly): (s: Poly)
    requires |r| == 16
    ensures |s| == 16
  {
    if bits == [] then r
    else Feed(FeedAll(r, bits[..|bits| - 1]), bits[|bits| - 1])
  }

  lemma {:induction false} FeedAllAppend(r: Poly, s: Poly, t: Poly)
    requires |r| == 16
    ensures FeedAll(r, s + t) == FeedAll(FeedAll(r, s), t)
  {
    if t == [] {
      assert s + t == s;
    } else {
      var n := |t| - 1;
      assert (s + t)[..|s + t| - 1] == s + t[..n];
      FeedAllAppend(r, s, t[..n]);
    }
  }

  lemma DivStepAligned(r: Poly, w: Poly)
    requires |r| == |w| == 16
    ensures DivStep(Add(r, w)) == Add(Feed(r, w[0]), w[1..] + [false])
  {
    var a, b := DivStep(Add(r, w)), Add(Feed(r, w[0]), w[1..] + [false]);
    var u := Add(r, [w[0]] + Zeros(15));
    assert u[0] == Add(r, w)[0];
    forall i | 0 <= i < 16
      ensures a[i] == b[i]
    {
      assert a[i] == ((i < 15 && Add(r, w)[i + 1]) != (u[0] && XMODEM[i + 1]));
      assert Feed(r, w[0])[i] == ((i < 15 && u[i + 1]) != (u[0] && XMODEM[i + 1]));
    }
  }

  lemma FeedFront(r: Poly, bit: bool, t: Poly)
    requires |r| == 16
    ensures FeedAll(r, [bit] + t) == FeedAll(Feed(r, bit), t)
  {
    assert [bit][..0] == [];
    assert FeedAll(r, [bit]) == Feed(r, bit);
    FeedAllAppend(r, [bit], t);
  }

  // Bits may be fed one at a time or added in at once before shifting.
  lemma {:induction false} FeedAligned(r: Poly, w: Poly, n: nat)
    requires |r| == |w| == 16 && n <= 16
    ensures DivSteps(Add(r, w), n) == Add(FeedAll(r, w[..n]), w[n..] + Zeros(n))
    decreases n
  {
    if n == 0 {
      assert w[0..] + Zeros(0) == w;
      assert w[..0] == [];
    } else {
      var w' := w[1..] + [false];
      DivStepAligned(r, w);
      FeedAligned(Feed(r, w[0]), w', n - 1);
      ShiftedTail(w, n);
      FeedFront(r, w[0], w'[..n - 1]);
    }
  }

  lemma FeedByteAligned(r: Poly, b: Poly)
    requires |r| == 16 && |b| == 8
    ensures DivSteps(Add(r, b + Zeros(8)), 8) == FeedAll(r, b)
  {
    FeedAligned(r, b + Zeros(8), 8);
    Halves(b);
    AddZeros(FeedAll(r, b));
  }

  lemma Halves(b: Poly)
    requires |b| == 8
    ensures (b + Zeros(8))[..8] == b && (b + Zeros(8))[8..] + Zeros(8) == Zeros(16)
  {}

  lemma AddZeros(a: Poly)
    ensures Add(a, Zeros(|a|)) == a
  {}

  lemma ShiftedTail(w: Poly, n: nat)
    requires 1 <= n <= |w|
    ensures (w[1..] + [false])[n - 1..] + Zeros(n - 1) == w[n..] + Zeros(n)
    ensures w[..n] == [w[0]] + (w[1..] + [false])[..n - 1]
  {}

  lemma FeedStaysRemainder(m: Poly, q: Poly, r: Poly, bit: bool)
    requires IsQuotient(m, q, r)
    ensures IsQuotient(m + [bit], q + [r[0] != bit], Feed(r, bit))
  {
    var t := r[0] != bit;
    MulSnoc(q, t, XMODEM);
    var lhs := Add(Mul(q, XMODEM) + [false], Zeros(|m|) + Scale(t, XMODEM));
    var rhs := Add((m + [bit]) + Zeros(16), Zeros(|m| + 1) + Feed(r, bit));
    forall i | 0 <= i < |m| + 17
      ensures lhs[i] == rhs[i]
    {
      if i < |m| + 16 {
        assert Mul(q, XMODEM)[i] == if i < |m| then m[i] else r[i - |m|];
      }
    }
    assert lhs == rhs;
  }

  lemma EmptyQuotient()
    ensures IsQuotient([], [], Zeros(16))
  {
    assert Mul([], XMODEM) == Zeros(16);
    assert Add([] + Zeros(16), Zeros(0) + Zeros(16)) == Zeros(16);
  }

  // The register holds the remainder of everything fed so far.
  lemma {:induction false} FeedAllIsRemainder(m: Poly)
    ensures IsRemainder(m, FeedAll(Zeros(16), m))
  {
    if m == [] {
      EmptyQuotient();
    } else {
      var n := |m| - 1;
      FeedAllIsRemainder(m[..n]);
      var r := FeedAll(Zeros(16), m[..n]);
      var q :| IsQuotient(m[..n], q, r);
      FeedStaysRemainder(m[..n], q, r, m[n]);
      assert m == m[..n] + [m[n]];
    }
  }
}
