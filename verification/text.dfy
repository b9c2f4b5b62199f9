// The parts of Go's strings and strconv packages that the cluster parser relies on.
module Text {

  // ---- strings.Split and its inverse, for a one-character separator ----

  function Split(s: string, sep: char): (parts: seq<string>)
    ensures |parts| >= 1
    ensures forall i :: 0 <= i < |parts| ==> sep !in parts[i]
  {
    if s == [] then [[]]
    else
      var rest := Split(s[1..], sep);
      if s[0] == sep then [[]] + rest
      else [[s[0]] + rest[0]] + rest[1..]
  }

  function Join(parts: seq<string>, sep: char): string {
    if parts == [] then []
    else if |parts| == 1 then parts[0]
    else parts[0] + [sep] + Join(parts[1..], sep)
  }

  lemma {:induction false} SplitFirst(a: string, sep: char, rest: string)
    requires sep !in a
    ensures Split(a + [sep] + rest, sep) == [a] + Split(rest, sep)
  {
    var s := a + [sep] + rest;
    if a == [] {
      assert s[1..] == rest;
    } else {
      assert s[0] == a[0] && a[0] in a && s[1..] == a[1..] + [sep] + rest;
      SplitFirst(a[1..], sep, rest);
      assert [a[0]] + a[1..] == a;
    }
  }

  lemma {:induction false} SplitWhole(a: string, sep: char)
    requires sep !in a
    ensures Split(a, sep) == [a]
  {
    if a != [] {
      SplitWhole(a[1..], sep);
      assert a[0] in a && [a[0]] + a[1..] == a;
    }
  }

  lemma {:induction false} SplitJoin(parts: seq<string>, sep: char)
    requires parts != [] && forall i :: 0 <= i < |parts| ==> sep !in parts[i]
    ensures Split(Join(parts, sep), sep) == parts
  {
    if |parts| == 1 {
      SplitWhole(parts[0], sep);
    } else {
      SplitFirst(parts[0], sep, Join(parts[1..], sep));
      SplitJoin(parts[1..], sep);
    }
  }

  lemma {:induction false} JoinSplit(s: string, sep: char)
    ensures Join(Split(s, sep), sep) == s
  {
    if s != [] {
      var rest := Split(s[1..], sep);
      JoinSplit(s[1..], sep);
      if s[0] == sep {
        assert ([[]] + rest)[1..] == rest;
      } else if |rest| == 1 {
      } else {
        assert ([[s[0]] + rest[0]] + rest[1..])[1..] == rest[1..];
      }
    }
  }

  // ---- Blank-separated words ----

  // unicode.IsSpace.
  predicate IsSpace(c: char) {
    || '\t' <= c <= '\r' || c == ' ' || c == '\U{85}' || c == '\U{A0}' || c == '\U{1680}'
    || '\U{2000}' <= c <= '\U{200A}' || c == '\U{2028}' || c == '\U{2029}'
    || c == '\U{202F}' || c == '\U{205F}' || c == '\U{3000}'
  }

  predicate SpaceFree(s: string) {
    forall i :: 0 <= i < |s| ==> !IsSpace(s[i])
  }

  predicate IsWord(s: string) {
    s != [] && SpaceFree(s)
  }

  function WordLength(s: string): (n: nat)
    ensures n <= |s|
    ensures SpaceFree(s[..n])
    ensures n < |s| ==> IsSpace(s[n])
  {
    if s == [] || IsSpace(s[0]) then 0
    else assert s[..1 + WordLength(s[1..])] == [s[0]] + s[1..][..WordLength(s[1..])]; 1 + WordLength(s[1..])
  }

  // strings.Fields.
  function Fields(s: string): (words: seq<string>)
    ensures forall i :: 0 <= i < |words| ==> IsWord(words[i])
    decreases |s|
  {
    if s == [] then []
    else if IsSpace(s[0]) then Fields(s[1..])
    else var n := WordLength(s); [s[..n]] + Fields(s[n..])
  }

  lemma {:induction false} WordLengthExact(w: string, rest: string)
    requires SpaceFree(w) && (rest == [] || IsSpace(rest[0]))
    ensures WordLength(w + rest) == |w|
  {
    if w == [] {
      assert w + rest == rest;
    } else {
      assert (w + rest)[1..] == w[1..] + rest;
      WordLengthExact(w[1..], rest);
    }
  }

  lemma FieldsFirst(w: string, rest: string)
    requires IsWord(w) && (rest == [] || IsSpace(rest[0]))
    ensures Fields(w + rest) == [w] + Fields(rest)
  {
    WordLengthExact(w, rest);
    assert (w + rest)[..|w|] == w && (w + rest)[|w|..] == rest;
  }

  lemma FieldsNext(w: string, tail: string)
    requires IsWord(w)
    ensures Fields(w + [' '] + tail) == [w] + Fields(tail)
  {
    FieldsFirst(w, [' '] + tail);
    assert w + [' '] + tail == w + ([' '] + tail);
    assert ([' '] + tail)[1..] == tail;
  }

  lemma {:induction false} FieldsJoin(words: seq<string>)
    requires forall i :: 0 <= i < |words| ==> IsWord(words[i])
    ensures Fields(Join(words, ' ')) == words
  {
    if |words| == 1 {
      FieldsFirst(words[0], []);
      assert words[0] + [] == words[0];
    } else if |words| > 1 {
      FieldsNext(words[0], Join(words[1..], ' '));
      FieldsJoin(words[1..]);
    }
  }

  // A space separates what stands before it from what follows.
  lemma {:induction false} FieldsAround(a: string, space: char, b: string)
    requires IsSpace(space)
    ensures Fields(a + [space] + b) == Fields(a) + Fields(b)
    decreases |a|
  {
    var s := a + [space] + b;
    if a == [] {
      assert s[1..] == b;
    } else if IsSpace(a[0]) {
      assert s[1..] == a[1..] + [space] + b;
      FieldsAround(a[1..], space, b);
    } else {
      var n := WordLength(a);
      FieldsAround(a[n..], space, b);
      assert a == a[..n] + a[n..] && s == a[..n] + (a[n..] + [space] + b);
      WordBefore(a[..n], a[n..], a[n..] + [space] + b, Fields(b));
    }
  }

  lemma WordBefore(w: string, rest: string, tail: string, words: seq<string>)
    requires IsWord(w) && (rest == [] || IsSpace(rest[0])) && tail != [] && IsSpace(tail[0])
    requires Fields(tail) == Fields(rest) + words
    ensures Fields(w + tail) == Fields(w + rest) + words
  {
    FieldsFirst(w, rest);
    FieldsFirst(w, tail);
    OneBefore(w, Fields(rest), Fields(tail), words);
  }

  lemma OneBefore<T>(x: T, a: seq<T>, b: seq<T>, c: seq<T>)
    requires b == a + c
    ensures [x] + b == [x] + a + c
  {}

  lemma OneWord(w: string)
    requires IsWord(w)
    ensures Fields(w) == [w]
  {
    FieldsFirst(w, []);
    assert w + [] == w;
  }

  function TrimLeft(s: string): string {
    if s != [] && IsSpace(s[0]) then TrimLeft(s[1..]) else s
  }

  function TrimRight(s: string): string {
    if s != [] && IsSpace(s[|s| - 1]) then TrimRight(s[..|s| - 1]) else s
  }

  // strings.TrimSpace.
  function TrimSpace(s: string): string {
    TrimRight(TrimLeft(s))
  }

  predicate Blank(s: string) {
    forall i :: 0 <= i < |s| ==> IsSpace(s[i])
  }

  lemma {:induction false} TrimLeftIs(s: string) returns (left: string)
    ensures s == left + TrimLeft(s) && Blank(left)
    ensures TrimLeft(s) != [] ==> !IsSpace(TrimLeft(s)[0])
  {
    left := [];
    if s != [] && IsSpace(s[0]) {
      var rest := TrimLeftIs(s[1..]);
      left := [s[0]] + rest;
      assert s == [s[0]] + s[1..];
    }
  }

  lemma {:induction false} TrimRightIs(s: string) returns (right: string)
    ensures s == TrimRight(s) + right && Blank(right)
    ensures TrimRight(s) != [] ==> !IsSpace(TrimRight(s)[|TrimRight(s)| - 1])
  {
    right := [];
    if s != [] && IsSpace(s[|s| - 1]) {
      var n := |s| - 1;
      var rest := TrimRightIs(s[..n]);
      right := rest + [s[n]];
      assert s == s[..n] + [s[n]];
    }
  }

  // Spaces are taken off both ends, and nothing else.
  lemma TrimSpaceIs(s: string) returns (left: string, right: string)
    ensures s == left + TrimSpace(s) + right && Blank(left) && Blank(right)
    ensures TrimSpace(s) != [] ==> !IsSpace(TrimSpace(s)[0]) && !IsSpace(TrimSpace(s)[|TrimSpace(s)| - 1])
  {
    left := TrimLeftIs(s);
    right := TrimRightIs(TrimLeft(s));
    assert TrimSpace(s) != [] ==> TrimSpace(s)[0] == TrimLeft(s)[0];
  }

  lemma TrimNewline(s: string)
    requires s != [] && !IsSpace(s[0]) && !IsSpace(s[|s| - 1])
    ensures TrimSpace(s + ['\n']) == s
  {
    var t := s + ['\n'];
    assert t[0] == s[0] && t[|t| - 1] == '\n' && t[..|t| - 1] == s;
    assert TrimRight(t) == TrimRight(s) == s;
  }

  // ---- Decimal numerals ----

  predicate IsDigit(c: char) {
    '0' <= c <= '9'
  }

  predicate AllDigits(s: string) {
    forall i :: 0 <= i < |s| ==> IsDigit(s[i])
  }

  function DigitChar(d: nat): (c: char)
    requires d < 10
    ensures IsDigit(c) && DigitValue(c) == d
  {
    '0' + d as char
  }

  function DigitValue(c: char): (d: nat)
    requires IsDigit(c)
    ensures d < 10
  {
    (c - '0') as int
  }

  function Digits(n: nat): (s: string)
    ensures s != [] && AllDigits(s)
    ensures s[0] == '0' <==> n == 0
  {
    if n < 10 then [DigitChar(n)] else Digits(n / 10) + [DigitChar(n % 10)]
  }

  function DigitsValue(s: string): (n: nat)
    requires AllDigits(s)
  {
    if s == [] then 0
    else 10 * DigitsValue(s[..|s| - 1]) + DigitValue(s[|s| - 1])
  }

  lemma {:induction false} DigitsRoundTrip(n: nat)
    ensures DigitsValue(Digits(n)) == n
  {
    if n < 10 {
      assert Digits(n)[..0] == [];
      assert DigitsValue([]) == 0;
    } else {
      DigitsRoundTrip(n / 10);
      assert Digits(n)[..|Digits(n)| - 1] == Digits(n / 10);
    }
  }

  lemma LastDigit(s: string)
    requires AllDigits(s) && s != []
    ensures AllDigits(s[..|s| - 1]) && 0 <= DigitValue(s[|s| - 1]) < 10
    ensures DigitsValue(s) == 10 * DigitsValue(s[..|s| - 1]) + DigitValue(s[|s| - 1])
  {}

  lemma SameQuotient(x: nat, y: nat, a: nat, b: nat)
    requires 10 * x + a == 10 * y + b && a < 10 && b < 10
    ensures x == y && a == b
  {}

  lemma SameDigit(c: char, d: char)
    requires IsDigit(c) && IsDigit(d) && DigitValue(c) == DigitValue(d)
    ensures c == d
  {}

  // Two digit strings of one length with one value are equal.
  lemma {:induction false} DigitsValueInjective(a: string, b: string)
    requires AllDigits(a) && AllDigits(b) && |a| == |b| && DigitsValue(a) == DigitsValue(b)
    ensures a == b
  {
    if a != [] {
      var n := |a| - 1;
      SameLastDigit(a, b);
      DigitsValueInjective(a[..n], b[..n]);
      assert a == a[..n] + [a[n]] && b == b[..n] + [b[n]];
    }
  }

  lemma SameLastDigit(a: string, b: string)
    requires AllDigits(a) && AllDigits(b) && |a| == |b| > 0 && DigitsValue(a) == DigitsValue(b)
    ensures AllDigits(a[..|a| - 1]) && AllDigits(b[..|a| - 1])
    ensures DigitsValue(a[..|a| - 1]) == DigitsValue(b[..|a| - 1]) && a[|a| - 1] == b[|a| - 1]
  {
    var n := |a| - 1;
    LastDigit(a);
    LastDigit(b);
    SameQuotient(DigitsValue(a[..n]), DigitsValue(b[..n]), DigitValue(a[n]), DigitValue(b[n]));
    SameDigit(a[n], b[n]);
  }

  // ---- strconv.Atoi and strconv.ParseInt(s, 10, 64) ----

  const MAX_INT64 := 0x7fff_ffff_ffff_ffff
  const MIN_INT64 := -0x8000_0000_0000_0000

  // The value returned, and whether the error is nil.
  datatype Parsed = Parsed(value: int, ok: bool)

  const MAX_UINT64 := 0xffff_ffff_ffff_ffff

  function LeadingDigits(s: string): (d: string)
    ensures AllDigits(d) && d <= s && (|d| < |s| ==> !IsDigit(s[|d|]))
  {
    if s != [] && IsDigit(s[0]) then [s[0]] + LeadingDigits(s[1..]) else []
  }

  // Digits are read one by one: a number too wide for 64 bits is reported before what
  // follows it is looked at.
  function Atoi(s: string): Parsed {
    var body := if s != [] && (s[0] == '+' || s[0] == '-') then s[1..] else s;
    var digits := LeadingDigits(body);
    var wide := DigitsValue(digits) > MAX_UINT64;
    if body == [] || (!wide && digits != body) then Parsed(0, false)
    else
      var m: int := DigitsValue(digits);
      Ranged(if s[0] == '-' then -m else m)
  }

  function Ranged(v: int): Parsed {
    if v > MAX_INT64 then Parsed(MAX_INT64, false)
    else if v < MIN_INT64 then Parsed(MIN_INT64, false)
    else Parsed(v, true)
  }

  lemma {:induction false} DigitsLead(d: string, rest: string)
    requires AllDigits(d) && (rest != [] ==> !IsDigit(rest[0]))
    ensures LeadingDigits(d + rest) == d
  {
    if d == [] {
      assert d + rest == rest;
    } else {
      assert (d + rest)[1..] == d[1..] + rest;
      DigitsLead(d[1..], rest);
    }
  }

  lemma AtoiDigits(n: nat)
    requires n <= MAX_INT64
    ensures Atoi(Digits(n)) == Parsed(n, true)
  {
    DigitsRoundTrip(n);
    DigitsLead(Digits(n), []);
    assert Digits(n) + [] == Digits(n);
    assert IsDigit(Digits(n)[0]);
  }

  // A digit string before other characters, or nothing, is read as a number only if
  // nothing follows; beyond 64 bits what follows makes no difference.
  lemma AtoiFollowed(d: string, rest: string)
    requires d != [] && AllDigits(d) && (rest != [] ==> !IsDigit(rest[0]))
    ensures Atoi(d + rest) == if DigitsValue(d) > MAX_UINT64 then Parsed(MAX_INT64, false)
                              else if rest != [] then Parsed(0, false)
                              else if DigitsValue(d) > MAX_INT64 then Parsed(MAX_INT64, false)
                              else Parsed(DigitsValue(d), true)
  {
    DigitsLead(d, rest);
    var s := d + rest;
    assert s[0] == d[0] && IsDigit(s[0]);
    AtoiUnsigned(s, d);
    assert s == d <==> rest == [];
  }

  lemma AtoiUnsigned(s: string, d: string)
    requires s != [] && IsDigit(s[0]) && d == LeadingDigits(s)
    ensures Atoi(s) == if DigitsValue(d) > MAX_UINT64 then Parsed(MAX_INT64, false)
                       else if d != s then Parsed(0, false)
                       else if DigitsValue(d) > MAX_INT64 then Parsed(MAX_INT64, false)
                       else Parsed(DigitsValue(d), true)
  {}

  // A sign before the digits.
  lemma AtoiSigned(n: nat, sign: char)
    requires sign == '-' || sign == '+'
    ensures n <= MAX_INT64 ==> Atoi([sign] + Digits(n)) == Parsed(if sign == '-' then 0 - n else n, true)
    ensures n > MAX_INT64 && sign == '+' ==> Atoi([sign] + Digits(n)) == Parsed(MAX_INT64, false)
    ensures n > -MIN_INT64 && sign == '-' ==> Atoi([sign] + Digits(n)) == Parsed(MIN_INT64, false)
  {
    SignedDigits(n, sign);
    AtoiBySign([sign] + Digits(n), Digits(n));
  }

  lemma AtoiBySign(s: string, d: string)
    requires s != [] && (s[0] == '-' || s[0] == '+') && s[1..] == d && d != [] && AllDigits(d) && LeadingDigits(d) == d
    ensures Atoi(s) == Ranged(if s[0] == '-' then 0 - DigitsValue(d) else DigitsValue(d))
  {}

  lemma SignedDigits(n: nat, sign: char)
    ensures var s, d := [sign] + Digits(n), Digits(n);
            s[0] == sign && s[1..] == d && LeadingDigits(d) == d && DigitsValue(d) == n
  {
    DigitsRoundTrip(n);
    DigitsLead(Digits(n), []);
    assert Digits(n) + [] == Digits(n);
  }
}
