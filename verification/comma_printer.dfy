// The number printer of internal/analysis/anomaly.go that groups digits by commas.
module CommaPrinter {
  import opened Text

  // Go's integer part of a float64, within the range of int64.
  function Truncate(v: real): int {
    if v >= 0.0 then v.Floor else -((-v).Floor)
  }

  method IntToString(n: int) returns (s: string)
    ensures s == if n < 0 then [] else Digits(n)
  {
    if n == 0 {
      return "0";
    }
    s := [];
    var rest := n;
    while rest > 0
      invariant n < 0 ==> rest == n && s == []
      invariant n > 0 ==> 0 <= rest <= n && Digits(n) == if rest == 0 then s else Digits(rest) + s
      decreases rest
    {
      s := [DigitChar(rest % 10)] + s;
      rest := rest / 10;
    }
  }

  method PadLeft(n: int) returns (s: string)
    requires 0 <= n < 1000
    ensures s == Padded(n)
  {
    s := IntToString(n);
    PaddedLength(n);
    ghost var k: nat := 0;
    assert ZeroRun(0) + Digits(n) == Digits(n);
    while |s| < 3
      invariant |s| <= 3 && s == ZeroRun(k) + Digits(n)
      decreases 3 - |s|
    {
      s := ['0'] + s;
      assert ['0'] + ZeroRun(k) == ZeroRun(k + 1);
      assert s == ZeroRun(k + 1) + Digits(n);
      k := k + 1;
    }
  }

  function ZeroRun(k: nat): (z: string)
    ensures |z| == k && forall i :: 0 <= i < k ==> z[i] == '0'
  {
    seq(k, _ => '0')
  }

  // n in exactly three digits.
  function Padded(n: nat): (s: string)
    requires n < 1000
  {
    PaddedLength(n);
    ZeroRun(3 - |Digits(n)|) + Digits(n)
  }

  lemma PaddedLength(n: nat)
    requires n < 1000
    ensures 1 <= |Digits(n)| <= 3
  {
    assert |Digits(n / 100)| == 1 && n / 10 / 10 == n / 100;
    if n >= 10 {
      assert |Digits(n / 10)| <= 2;
    }
  }

  // The groups of n, most significant first.
  function Groups(n: nat): (g: seq<string>)
    requires n > 0
    ensures g != []
  {
    if n < 1000 then [Digits(n)] else Groups(n / 1000) + [Padded(n % 1000)]
  }

  function Commas(n: int): string {
    if n <= 0 then "0" else Join(Groups(n), ',')
  }

  lemma {:induction false} JoinSnoc(parts: seq<string>, last: string, sep: char)
    requires parts != []
    ensures Join(parts + [last], sep) == Join(parts, sep) + [sep] + last
  {
    if |parts| > 1 {
      assert (parts + [last])[1..] == parts[1..] + [last];
      JoinSnoc(parts[1..], last, sep);
    }
  }

  lemma CommasStep(n: nat)
    requires n > 0
    ensures n < 1000 ==> Commas(n) == Digits(n)
    ensures n >= 1000 ==> Commas(n) == Commas(n / 1000) + [','] + Padded(n % 1000)
  {
    if n >= 1000 {
      JoinSnoc(Groups(n / 1000), Padded(n % 1000), ',');
    }
  }

  // The finished text when n is still to be printed in front of s.
  ghost function Finished(n: nat, s: string): string {
    if n == 0 then s
    else if s == [] then Commas(n)
    else Commas(n) + [','] + s
  }

  lemma Append3<T>(a: seq<T>, b: seq<T>, c: seq<T>)
    ensures (a + b) + c == a + (b + c)
  {}

  lemma FinishedLong(n: nat, s: string, tail: string)
    requires n >= 1000 && tail == if s == [] then [] else [','] + s
    ensures Finished(n / 1000, Padded(n % 1000) + tail) == Finished(n, s) && Padded(n % 1000) + tail != []
  {
    CommasStep(n);
    PaddedLength(n % 1000);
    var q, text := Commas(n / 1000) + [','], Padded(n % 1000);
    Append3(q, text, tail);
    if s == [] {
      assert q + text + [] == q + text;
    } else {
      Append3(q + text, [','], s);
    }
  }

  lemma FinishedShort(n: nat, s: string, tail: string)
    requires 0 < n < 1000 && tail == if s == [] then [] else [','] + s
    ensures Finished(n / 1000, Digits(n % 1000) + tail) == Finished(n, s) && Digits(n % 1000) + tail != []
  {
    CommasStep(n);
    assert n % 1000 == n;
    if s == [] {
      assert Digits(n) + [] == Digits(n);
    } else {
      Append3(Digits(n), [','], s);
    }
  }

  lemma FinishedStep(n: nat, s: string)
    requires n > 0
    ensures var tail := if s == [] then [] else [','] + s;
            var text := if n / 1000 > 0 then Padded(n % 1000) else Digits(n % 1000);
            Finished(n / 1000, text + tail) == Finished(n, s) && text + tail != []
  {
    var tail := if s == [] then [] else [','] + s;
    if n >= 1000 {
      FinishedLong(n, s, tail);
    } else {
      FinishedShort(n, s, tail);
    }
  }

  method FormatWithCommas(v: real) returns (s: string)
    ensures s == Commas(Truncate(v))
  {
    s := [];
    var n := Truncate(v);
    ghost var n0 := n;
    while n > 0
      invariant n0 <= 0 ==> n == n0 && s == []
      invariant n0 > 0 ==> 0 <= n && Finished(n, s) == Commas(n0) && (n == 0 ==> s != [])
      decreases n
    {
      FinishedStep(n, s);
      if s != [] {
        s := [','] + s;
      }
      var part := n % 1000;
      n := n / 1000;
      var text;
      if n > 0 {
        text := PadLeft(part);
      } else {
        text := IntToString(part);
      }
      s := text + s;
    }
    if s == [] {
      s := "0";
    }
  }

  // ---- What the printed text is ----

  predicate ThreeDigits(s: string) {
    |s| == 3 && AllDigits(s)
  }

  // A first group of one to three digits without leading zero, then groups of three.
  predicate WellGrouped(g: seq<string>) {
    && g != []
    && 1 <= |g[0]| <= 3 && AllDigits(g[0]) && g[0][0] != '0'
    && forall i :: 1 <= i < |g| ==> ThreeDigits(g[i])
  }

  function Concat(g: seq<string>): string {
    if g == [] then [] else Concat(g[..|g| - 1]) + g[|g| - 1]
  }

  function WithoutCommas(s: string): string {
    if s == [] then []
    else if s[0] == ',' then WithoutCommas(s[1..])
    else [s[0]] + WithoutCommas(s[1..])
  }

  lemma PaddedValue(n: nat)
    requires n < 1000
    ensures ThreeDigits(Padded(n)) && DigitsValue(Padded(n)) == n
  {
    PaddedLength(n);
    DigitsRoundTrip(n);
    LeadingZerosKeepValue(3 - |Digits(n)|, Digits(n));
  }

  lemma {:induction false} LeadingZerosKeepValue(k: nat, s: string)
    requires AllDigits(s)
    ensures AllDigits(ZeroRun(k) + s) && DigitsValue(ZeroRun(k) + s) == DigitsValue(s)
  {
    if s != [] {
      var n := |s| - 1;
      assert (ZeroRun(k) + s)[..k + n] == ZeroRun(k) + s[..n];
      LeadingZerosKeepValue(k, s[..n]);
    } else {
      assert ZeroRun(k) + s == ZeroRun(k);
      if k != 0 {
        assert ZeroRun(k)[..k - 1] == ZeroRun(k - 1) + s;
        LeadingZerosKeepValue(k - 1, s);
      }
    }
  }

  lemma AppendDigit(a: string, c: char)
    requires AllDigits(a) && IsDigit(c)
    ensures AllDigits(a + [c]) && DigitsValue(a + [c]) == 10 * DigitsValue(a) + DigitValue(c)
  {
    assert (a + [c])[..|a|] == a;
  }

  lemma ThreeDigitsValue(a: string, b: string)
    requires AllDigits(a) && ThreeDigits(b)
    ensures AllDigits(a + b)
    ensures DigitsValue(a + b)
         == 1000 * DigitsValue(a) + 100 * DigitValue(b[0]) + 10 * DigitValue(b[1]) + DigitValue(b[2])
  {
    AppendDigit(a, b[0]);
    AppendDigit(a + [b[0]], b[1]);
    AppendDigit(a + [b[0]] + [b[1]], b[2]);
    assert a + b == a + [b[0]] + [b[1]] + [b[2]];
  }

  lemma AppendGroup(a: string, b: string)
    requires AllDigits(a) && ThreeDigits(b)
    ensures AllDigits(a + b) && DigitsValue(a + b) == 1000 * DigitsValue(a) + DigitsValue(b)
    ensures DigitsValue(b) < 1000
  {
    ThreeDigitsValue(a, b);
    ThreeDigitsValue([], b);
    assert [] + b == b;
  }

  lemma {:induction false} GroupsValue(n: nat)
    requires n > 0
    ensures WellGrouped(Groups(n))
    ensures AllDigits(Concat(Groups(n))) && DigitsValue(Concat(Groups(n))) == n
  {
    if n < 1000 {
      PaddedLength(n);
      DigitsRoundTrip(n);
      assert Groups(n)[..0] == [];
      assert [] + Digits(n) == Digits(n);
    } else {
      var g := Groups(n / 1000);
      GroupsValue(n / 1000);
      PaddedValue(n % 1000);
      assert Groups(n)[..|g|] == g;
      AppendGroup(Concat(g), Padded(n % 1000));
    }
  }

  lemma GroupsStep(q: nat, r: nat)
    requires q > 0 && r < 1000
    ensures Groups(1000 * q + r) == Groups(q) + [Padded(r)]
  {
    var v := 1000 * q + r;
    assert v / 1000 == q && v % 1000 == r;
  }

  // The groups are the only well-formed grouping with that value.
  lemma {:induction false} GroupsUnique(g: seq<string>)
    requires WellGrouped(g)
    ensures AllDigits(Concat(g)) && DigitsValue(Concat(g)) > 0
    ensures g == Groups(DigitsValue(Concat(g)))
  {
    var k := |g| - 1;
    if k == 0 {
      assert g[..0] == [] && Concat(g) == [] + g[0] == g[0];
      FirstGroupValue(g[0]);
    } else {
      GroupsUnique(g[..k]);
      OneGroupMore(Concat(g[..k]), g[k]);
      assert g == g[..k] + [g[k]];
    }
  }

  lemma OneGroupMore(front: string, group: string)
    requires AllDigits(front) && DigitsValue(front) > 0 && ThreeDigits(group)
    ensures AllDigits(front + group) && DigitsValue(front + group) > 0
    ensures Groups(DigitsValue(front + group)) == Groups(DigitsValue(front)) + [group]
  {
    AppendGroup(front, group);
    var r := DigitsValue(group);
    GroupsStep(DigitsValue(front), r);
    PaddedValue(r);
    DigitsValueInjective(group, Padded(r));
  }

  lemma {:induction false} ShortValue(s: string)
    requires AllDigits(s)
    ensures |s| <= 1 ==> DigitsValue(s) < 10
    ensures |s| <= 2 ==> DigitsValue(s) < 100
    ensures |s| <= 3 ==> DigitsValue(s) < 1000
  {
    if s != [] {
      ShortValue(s[..|s| - 1]);
    }
  }

  lemma FirstGroupValue(s: string)
    requires 1 <= |s| <= 3 && AllDigits(s) && s[0] != '0'
    ensures 0 < DigitsValue(s) < 1000 && Groups(DigitsValue(s)) == [s]
  {
    NumeralIsDigits(s);
    ShortValue(s);
  }

  lemma DigitsStep(q: nat, c: char)
    requires q > 0 && IsDigit(c)
    ensures Digits(10 * q + DigitValue(c)) == Digits(q) + [c]
  {
    var v := 10 * q + DigitValue(c);
    assert v / 10 == q && v % 10 == DigitValue(c);
    assert DigitChar(DigitValue(c)) == c;
  }

  lemma {:induction false} NumeralIsDigits(s: string)
    requires s != [] && AllDigits(s) && s[0] != '0'
    ensures DigitsValue(s) > 0 && s == Digits(DigitsValue(s))
  {
    var n := |s| - 1;
    if n == 0 {
      assert s[..0] == [];
      assert DigitChar(DigitValue(s[0])) == s[0];
    } else {
      NumeralIsDigits(s[..n]);
      DigitsStep(DigitsValue(s[..n]), s[n]);
      assert s == s[..n] + [s[n]];
    }
  }

  lemma {:induction false} WithoutCommasAppend(a: string, b: string)
    ensures WithoutCommas(a + b) == WithoutCommas(a) + WithoutCommas(b)
  {
    if a == [] {
      assert a + b == b;
    } else {
      assert (a + b)[1..] == a[1..] + b;
      WithoutCommasAppend(a[1..], b);
    }
  }

  lemma {:induction false} DigitsHaveNoCommas(s: string)
    requires AllDigits(s)
    ensures WithoutCommas(s) == s && ',' !in s
  {
    if s != [] {
      DigitsHaveNoCommas(s[1..]);
    }
  }

  lemma {:induction false} JoinWithoutCommas(g: seq<string>)
    requires g != [] && forall i :: 0 <= i < |g| ==> AllDigits(g[i])
    ensures WithoutCommas(Join(g, ',')) == Concat(g)
  {
    var k := |g| - 1;
    DigitsHaveNoCommas(g[k]);
    if k == 0 {
      assert g[..0] == [] && [] + g[0] == g[0];
    } else {
      var s := Join(g[..k], ',');
      assert g == g[..k] + [g[k]];
      JoinSnoc(g[..k], g[k], ',');
      JoinWithoutCommas(g[..k]);
      WithoutCommasAppend(s + [','], g[k]);
      WithoutCommasAppend(s, [',']);
      assert WithoutCommas([',']) == [] by { assert [','][1..] == []; }
    }
  }

  // Reading the printed text back, commas dropped, gives the number.
  lemma CommasRoundTrip(n: nat)
    requires n > 0
    ensures AllDigits(WithoutCommas(Commas(n))) && DigitsValue(WithoutCommas(Commas(n))) == n
  {
    GroupsValue(n);
    JoinWithoutCommas(Groups(n));
  }

  // A text is the printed form of n exactly when its comma-separated groups are
  // well formed and read n.
  lemma CommasExact(n: nat, s: string)
    requires n > 0
    ensures s == Commas(n) <==>
            WellGrouped(Split(s, ',')) && AllDigits(WithoutCommas(s)) && DigitsValue(WithoutCommas(s)) == n
  {
    if s == Commas(n) {
      GroupsValue(n);
      var g := Groups(n);
      forall i | 0 <= i < |g|
        ensures ',' !in g[i]
      {
        DigitsHaveNoCommas(g[i]);
      }
      SplitJoin(g, ',');
      CommasRoundTrip(n);
    }
    if WellGrouped(Split(s, ',')) {
      var g := Split(s, ',');
      JoinSplit(s, ',');
      JoinWithoutCommas(g);
      GroupsUnique(g);
    }
  }

  lemma CommasInjective(m: nat, n: nat)
    requires m > 0 && n > 0 && Commas(m) == Commas(n)
    ensures m == n
  {
    CommasRoundTrip(m);
    CommasRoundTrip(n);
  }

  // What is printed for any value: the integer part in groups, and "0" below 1.
  lemma PrintedExactly(v: real) returns (g: seq<string>)
    ensures v < 1.0 ==> Commas(Truncate(v)) == "0"
    ensures v >= 1.0 ==> WellGrouped(g) && Commas(Truncate(v)) == Join(g, ',')
                         && AllDigits(Concat(g)) && DigitsValue(Concat(g)) as real <= v < (DigitsValue(Concat(g)) + 1) as real
  {
    g := [];
    if v >= 1.0 {
      GroupsValue(v.Floor);
      g := Groups(v.Floor);
    }
  }
}
