// Which slot a key hashes to: hash-tag extraction and the 14-bit fold of the CRC.
module KeySlot {
  import opened GF2
  import opened Crc16

  const OPEN: bv8 := 0x7b   // '{'
  const CLOSE: bv8 := 0x7d  // '}'
  const SLOTS := 16384

  function IndexOf(s: Bytes, b: bv8): (r: int)
    ensures -1 <= r < |s|
    ensures r == -1 ==> b !in s
    ensures r >= 0 ==> s[r] == b && b !in s[..r]
  {
    if s == [] then -1
    else if s[0] == b then 0
    else
      var r := IndexOf(s[1..], b);
      if r == -1 then -1 else assert s[..r + 1] == [s[0]] + s[1..][..r]; r + 1
  }

  // The part of the key that is hashed.
  function HashedPart(key: Bytes): Bytes {
    var start := IndexOf(key, OPEN);
    if start == -1 then key
    else
      var end := IndexOf(key[start..], CLOSE);
      if end > 1 then key[start + 1..start + end] else key
  }

  // The number a word stands for.
  function Value(bits: Poly): (v: nat) {
    if bits == [] then 0
    else 2 * Value(bits[..|bits| - 1]) + if bits[|bits| - 1] then 1 else 0
  }

  function Fold(c: bv16): (slot: int) {
    Value(Bits(c % 16384))
  }

  function SlotOf(key: Bytes): int {
    Fold(Crc(HashedPart(key)))
  }

  method FoldCrc(crc: bv16) returns (slot: int)
    ensures slot == Fold(crc) && 0 <= slot < SLOTS
  {
    slot := Value(Bits(crc % 16384));
    FoldRange(crc);
  }

  method GetSlotForKey(key: Bytes) returns (slot: int)
    ensures slot == SlotOf(key)
    ensures 0 <= slot < SLOTS
  {
    var hashed := key;
    var start := IndexOf(key, OPEN);
    if start != -1 {
      var end := IndexOf(key[start..], CLOSE);
      if end > 1 {
        hashed := key[start + 1..start + end];
      }
    }
    assert hashed == HashedPart(key);
    var crc := ComputeCrc16(hashed);
    slot := FoldCrc(crc);
  }

  // ---- Hash tags ----

  // tag is what stands between the first '{' of the key and the first '}' after it.
  ghost predicate IsFirstTag(key: Bytes, pre: Bytes, tag: Bytes, post: Bytes) {
    key == pre + [OPEN] + tag + [CLOSE] + post && OPEN !in pre && CLOSE !in tag
  }

  lemma {:induction false} IndexOfAfter(pre: Bytes, b: bv8, rest: Bytes)
    requires b !in pre
    ensures IndexOf(pre + [b] + rest, b) == |pre|
  {
    var s := pre + [b] + rest;
    if pre != [] {
      assert s[0] == pre[0];
      assert s[1..] == pre[1..] + [b] + rest;
      IndexOfAfter(pre[1..], b, rest);
    }
  }

  lemma TagIsHashed(key: Bytes, pre: Bytes, tag: Bytes, post: Bytes)
    requires IsFirstTag(key, pre, tag, post)
    ensures HashedPart(key) == if tag == [] then key else tag
  {
    var n := |pre|;
    IndexOfAfter(pre, OPEN, tag + [CLOSE] + post);
    assert key == pre + [OPEN] + (tag + [CLOSE] + post);
    IndexOfAfter([OPEN] + tag, CLOSE, post);
    assert key[n..] == ([OPEN] + tag) + [CLOSE] + post;
    assert key[n + 1..n + 1 + |tag|] == tag;
  }

  // Only a key with a tag is hashed in part.
  lemma PartlyHashedHasTag(key: Bytes)
    requires HashedPart(key) != key
    ensures HashedPart(key) != []
    ensures exists pre, post :: IsFirstTag(key, pre, HashedPart(key), post)
  {
    var start := IndexOf(key, OPEN);
    var end := IndexOf(key[start..], CLOSE);
    NoneBetween(key, start, end, CLOSE);
    CutAtTag(key, start, start + end);
  }

  lemma NoneBetween(key: Bytes, i: nat, n: nat, b: bv8)
    requires i + n <= |key| && b !in key[i..][..n]
    ensures forall k :: i <= k < i + n ==> key[k] != b
    ensures i + n < |key| ==> key[i..][n] == key[i + n]
  {
    forall k | i <= k < i + n
      ensures key[k] != b
    {
      assert key[i..][..n][k - i] == key[k];
    }
  }

  lemma CutAtTag(key: Bytes, i: nat, j: nat)
    requires i < j < |key| && key[i] == OPEN && key[j] == CLOSE
    requires OPEN !in key[..i] && forall k :: i < k < j ==> key[k] != CLOSE
    ensures IsFirstTag(key, key[..i], key[i + 1..j], key[j + 1..])
  {
    assert key == key[..i] + [OPEN] + key[i + 1..j] + [CLOSE] + key[j + 1..];
  }

  // Every key with the first tag t goes where the key t goes.
  lemma TagDecidesSlot(key: Bytes, pre: Bytes, tag: Bytes, post: Bytes)
    requires IsFirstTag(key, pre, tag, post) && tag != []
    ensures SlotOf(key) == SlotOf(tag)
  {
    TagIsHashed(key, pre, tag, post);
    var start := IndexOf(tag, OPEN);
    if start != -1 {
      assert CLOSE !in tag[start..];
    }
    assert HashedPart(tag) == tag;
  }

  // ---- Spread ----

  lemma {:induction false} ValueLeadingZeros(z: nat, bits: Poly)
    ensures Value(Zeros(z) + bits) == Value(bits)
  {
    if bits == [] {
      assert Zeros(z) + [] == Zeros(z);
      if z != 0 {
        assert Zeros(z)[..z - 1] == Zeros(z - 1) + [];
        ValueLeadingZeros(z - 1, []);
        assert Zeros(z - 1) + [] == Zeros(z - 1);
      }
    } else {
      var n := |bits| - 1;
      assert (Zeros(z) + bits)[..z + n] == Zeros(z) + bits[..n];
      ValueLeadingZeros(z, bits[..n]);
    }
  }

  function Pow2(n: nat): (p: nat)
    ensures p > 0
  {
    if n == 0 then 1 else 2 * Pow2(n - 1)
  }

  lemma {:induction false} ValueBound(bits: Poly)
    ensures Value(bits) < Pow2(|bits|)
  {
    if bits != [] {
      ValueBound(bits[..|bits| - 1]);
    }
  }

  function HalvedTimes(n: nat, k: nat): nat
    decreases k
  {
    if k == 0 then n else HalvedTimes(n / 2, k - 1)
  }

  lemma {:induction false} ValueDigit(bits: Poly, k: nat)
    requires k < |bits|
    ensures HalvedTimes(Value(bits), k) % 2 == if bits[|bits| - 1 - k] then 1 else 0
    decreases k
  {
    if k > 0 {
      var front := bits[..|bits| - 1];
      assert Value(bits) / 2 == Value(front);
      ValueDigit(front, k - 1);
    }
  }

  // The binary digits of the slot are the low bits of the CRC.
  lemma SlotDigits(c: bv16, k: nat)
    requires k < 14
    ensures HalvedTimes(Fold(c), k) % 2 == 1 <==> c & ((1 as bv16) << k) != 0
  {
    FoldIsLowBits(c);
    LowDigit(Bits(c), k);
    MaskIsShift(k);
  }

  lemma LowDigit(bits: Poly, k: nat)
    requires |bits| == 16 && k < 14
    ensures HalvedTimes(Value(bits[2..]), k) % 2 == if bits[15 - k] then 1 else 0
  {
    ValueDigit(bits[2..], k);
  }

  lemma MaskIsShift(k: nat)
    requires k < 14
    ensures Mask(15 - k) == (1 as bv16) << k
  {
    MaskValues();
  }

  lemma {:induction false} ValueInjective(a: Poly, b: Poly)
    requires |a| == |b| && Value(a) == Value(b)
    ensures a == b
  {
    if a != [] {
      var n := |a| - 1;
      assert a[n] == b[n];
      ValueInjective(a[..n], b[..n]);
      assert a == a[..n] + [a[n]] && b == b[..n] + [b[n]];
    }
  }

  lemma FoldedBit(c: bv16, r: bv16, i: nat)
    requires r == c & 0x3fff && i < 16
    ensures Bits(r)[i] == if i < 2 then false else Bits(c)[i]
  {
    if i < 2 {
      MaskAboveFold(i);
      MaskedAway(c, Mask(i));
    } else {
      MaskInFold(i);
      MaskedThrough(c, Mask(i));
    }
  }

  lemma FoldedBits(c: bv16, r: bv16)
    requires r == c & 0x3fff
    ensures Bits(r) == Zeros(2) + Bits(c)[2..]
  {
    forall i | 0 <= i < 16
      ensures Bits(r)[i] == (Zeros(2) + Bits(c)[2..])[i]
    {
      FoldedBit(c, r, i);
    }
  }

  // Folding keeps the fourteen low bits.
  lemma FoldIsLowBits(c: bv16)
    ensures Fold(c) == Value(Bits(c)[2..])
  {
    var r := c % 16384;
    ModMask(c);
    FoldedBits(c, r);
    ValueLeadingZeros(2, Bits(c)[2..]);
  }

  lemma ModMask(c: bv16)
    ensures c % 16384 == c & 0x3fff
  {}

  lemma MaskInFold(i: nat)
    requires 2 <= i < 16
    ensures Mask(i) & 0x3fff == Mask(i)
  {
    MaskValues();
  }

  lemma MaskAboveFold(i: nat)
    requires i < 2
    ensures Mask(i) & 0x3fff == 0
  {
    MaskValues();
  }

  lemma MaskedAway(c: bv16, m: bv16)
    requires m & 0x3fff == 0
    ensures (c & 0x3fff) & m == 0
  {}

  lemma MaskedThrough(c: bv16, m: bv16)
    requires m & 0x3fff == m
    ensures (c & 0x3fff) & m == c & m
  {}

  lemma FoldRange(c: bv16)
    ensures 0 <= Fold(c) < SLOTS
  {
    FoldIsLowBits(c);
    ValueBound(Bits(c)[2..]);
    assert Pow2(14) == SLOTS;
  }

  lemma FoldLowBits(c: bv16, d: bv16)
    requires Fold(c) == Fold(d)
    ensures forall i :: 2 <= i < 16 ==> Bits(c)[i] == Bits(d)[i]
  {
    FoldIsLowBits(c);
    FoldIsLowBits(d);
    ValueInjective(Bits(c)[2..], Bits(d)[2..]);
    assert forall i :: 2 <= i < 16 ==> Bits(c)[i] == Bits(c)[2..][i - 2] && Bits(d)[i] == Bits(d)[2..][i - 2];
  }

  // Keys of one length that differ only in their last byte never share a slot.
  lemma LastByteSeparates(p: Bytes, a: bv8, b: bv8)
    requires a != b && OPEN !in p
    ensures SlotOf(p + [a]) != SlotOf(p + [b])
  {
    WholeKeyHashed(p, a);
    WholeKeyHashed(p, b);
    var s, t := p + [a], p + [b];
    assert s[|p|] != t[|p|];
    if Fold(Crc(s)) == Fold(Crc(t)) {
      FoldLowBits(Crc(s), Crc(t));
      CrcIsRemainder(s);
      CrcIsRemainder(t);
      assert s[..|p|] == p == t[..|p|];
      SameTailRemainder(MessageBits(s), Bits(Crc(s)), MessageBits(t), Bits(Crc(t)), 8 * |p|);
      SameBitsSameBytes(s, t);
    }
  }

  lemma SameTailRemainder(m: Poly, r: Poly, n: Poly, s: Poly, z: nat)
    requires |m| == |n| == z + 8 && m[..z] == n[..z]
    requires IsRemainder(m, r) && IsRemainder(n, s)
    requires |r| == |s| == 16 && forall i :: 2 <= i < 16 ==> r[i] == s[i]
    ensures m == n
  {
    RemainderAdd(m, r, n, s);
    forall i | 0 <= i < z
      ensures !Add(m, n)[i]
    {
      assert m[i] == m[..z][i] && n[i] == n[..z][i];
    }
    ShortMessageRemainder(Add(m, n), z, Add(r, s));
    assert forall i :: 0 <= i < |m| ==> !Add(m, n)[i];
  }

  lemma WholeKeyHashed(p: Bytes, b: bv8)
    requires OPEN !in p
    ensures HashedPart(p + [b]) == p + [b]
  {
    var key := p + [b];
    var start := IndexOf(key, OPEN);
    forall i | 0 <= i < |p|
      ensures key[i] != OPEN
    {
      assert key[i] == p[i];
    }
    if start != -1 {
      assert key[start..] == [b];
    }
  }

  // ---- Every slot is some key's slot ----

  function Unshift(c: bv16): bv16 {
    if c & 1 != 0 then ((c ^ 0x1021) >> 1) | 0x8000 else c >> 1
  }

  function UnshiftN(c: bv16, n: nat): bv16
    decreases n
  {
    if n == 0 then c else UnshiftN(Unshift(c), n - 1)
  }

  lemma UnshiftOddBits(c: bv16, u: bv16)
    requires c & 1 != 0 && u == ((c ^ 0x1021) >> 1) | 0x8000
    ensures u & 0x8000 != 0 && (u << 1) ^ 0x1021 == c
  {}

  lemma UnshiftEvenBits(c: bv16, u: bv16)
    requires c & 1 == 0 && u == c >> 1
    ensures u & 0x8000 == 0 && u << 1 == c
  {}

  lemma UnshiftInverts(c: bv16)
    ensures ShiftOut(Unshift(c)) == c
  {
    if c & 1 != 0 {
      UnshiftOddBits(c, Unshift(c));
    } else {
      UnshiftEvenBits(c, Unshift(c));
    }
  }

  lemma {:induction false} UnshiftNInverts(c: bv16, n: nat)
    ensures ShiftOutN(UnshiftN(c, n), n) == c
    decreases n
  {
    if n != 0 {
      ShiftOutNext(UnshiftN(c, n), n - 1);
      UnshiftNInverts(Unshift(c), n - 1);
      UnshiftInverts(c);
    }
  }

  const WORD: nat := 16

  // A two-byte key with the given CRC.
  function KeyWithCrc(c: bv16): (key: Bytes) {
    var w := UnshiftN(c, WORD);
    [HighByte(w), LowByte(w)]
  }

  lemma TwoByteCrc(w: bv16)
    ensures Bits(Crc([HighByte(w), LowByte(w)])) == Bits(ShiftOutN(w, WORD))
  {
    CrcFeedsMessage([HighByte(w), LowByte(w)]);
    WordBits(w);
    ShiftOutNDivides(w, WORD);
    FeedWord(Bits(w), WORD);
  }

  lemma ZerosAdd(b: Poly)
    ensures Add(Zeros(|b|), b) == b
  {}

  lemma FeedWord(b: Poly, n: nat)
    requires |b| == n == 16
    ensures FeedAll(Zeros(16), b) == DivSteps(b, n)
  {
    FeedAligned(Zeros(16), b, n);
    ZerosAdd(b);
    assert b[..n] == b && b[n..] + Zeros(n) == Zeros(16);
    AddZeros(FeedAll(Zeros(16), b));
  }

  lemma KeyWithCrcCorrect(c: bv16)
    ensures Crc(KeyWithCrc(c)) == c
  {
    TwoByteCrc(UnshiftN(c, WORD));
    UnshiftNInverts(c, WORD);
    BitsInjective(Crc(KeyWithCrc(c)), c);
  }

  lemma TwoBytesWholeHashed(a: bv8, b: bv8)
    ensures HashedPart([a, b]) == [a, b]
  {
    if HashedPart([a, b]) != [a, b] {
      PartlyHashedHasTag([a, b]);
    }
  }

  lemma BitsOfOne()
    ensures Bits(1) == Zeros(15) + [true]
  {
    MaskValues();
    var f := Bits(1);
    assert f[0] == f[1] == f[2] == f[3] == f[4] == f[5] == f[6] == f[7] == false;
    assert f[8] == f[9] == f[10] == f[11] == f[12] == f[13] == f[14] == false;
    assert f[15];
  }

  lemma XorWithOne(x: bv16, p: Poly)
    requires |p| == 15 && Bits(x) == p + [false]
    ensures Bits(x ^ 1) == p + [true]
  {
    BitsOfOne();
    BitsXor(x, 1);
    AddLast(p);
  }

  lemma AddLast(p: Poly)
    requires |p| == 15
    ensures Add(p + [false], Zeros(15) + [true]) == p + [true]
  {}

  lemma ShiftTail(bits: Poly, b: Poly)
    requires 0 < |bits| <= 16 && b == Zeros(17 - |bits|) + bits[..|bits| - 1]
    ensures |b| == 16 && b[1..] + [bits[|bits| - 1]] == Zeros(16 - |bits|) + bits
  {}

  lemma {:induction false} WordWithBits(bits: Poly) returns (c: bv16)
    requires |bits| <= 16
    ensures Bits(c) == Zeros(16 - |bits|) + bits
  {
    if bits == [] {
      FeedbackBits();
      assert Zeros(16) + [] == Zeros(16);
      c := 0;
    } else {
      var w := WordWithBits(bits[..|bits| - 1]);
      BitsShift(w);
      ShiftTail(bits, Bits(w));
      c := AppendBit(w << 1, Bits(w)[1..], bits[|bits| - 1]);
    }
  }

  lemma AppendBit(x: bv16, p: Poly, bit: bool) returns (c: bv16)
    requires |p| == 15 && Bits(x) == p + [false]
    ensures Bits(c) == p + [bit]
  {
    if bit {
      XorWithOne(x, p);
      c := x ^ 1;
    } else {
      c := x;
    }
  }

  function Binary(v: nat, n: nat): (bits: Poly)
    ensures |bits| == n
    decreases n
  {
    if n == 0 then [] else Binary(v / 2, n - 1) + [v % 2 == 1]
  }

  lemma {:induction false} BinaryValue(v: nat, n: nat)
    requires v < Pow2(n)
    ensures Value(Binary(v, n)) == v
    decreases n
  {
    if n != 0 {
      BinaryValue(v / 2, n - 1);
      assert Binary(v, n)[..n - 1] == Binary(v / 2, n - 1);
    }
  }

  lemma EverySlotHasKey(slot: int) returns (key: Bytes)
    requires 0 <= slot < SLOTS
    ensures SlotOf(key) == slot
  {
    var bits := Binary(slot, 14);
    var c := WordWithBits(bits);
    assert Pow2(14) == SLOTS;
    BinaryValue(slot, 14);
    FoldIsLowBits(c);
    assert (Zeros(2) + bits)[2..] == bits;
    key := KeyWithCrc(c);
    KeyWithCrcCorrect(c);
    TwoBytesWholeHashed(key[0], key[1]);
    assert key == [key[0], key[1]];
  }
}
