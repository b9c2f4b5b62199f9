// The bitwise CRC16/XMODEM loop of internal/cluster/cluster.go, and its
// algebra: the register is read as a polynomial and never reasoned about as
// a machine word beyond that reading.
module Crc16 {
  import opened GF2

  type Bytes = seq<bv8>

  // One iteration of the inner loop.
  function ShiftOut(c: bv16): bv16 {
    if c & 0x8000 != 0 then (c << 1) ^ 0x1021 else c << 1
  }

  function ShiftOutN(c: bv16, n: nat): bv16
    decreases n
  {
    if n == 0 then c else ShiftOut(ShiftOutN(c, n - 1))
  }

  const BITS_PER_BYTE: nat := 8

  // One iteration of the outer loop.
  function Absorb(c: bv16, b: bv8): bv16 {
    ShiftOutN(c ^ ((b as bv16) << 8), BITS_PER_BYTE)
  }

  function Crc(data: Bytes): bv16 {
    if data == [] then 0
    else Absorb(Crc(data[..|data| - 1]), data[|data| - 1])
  }

  // The inner loop's body.
  method ShiftOnce(c: bv16) returns (crc: bv16)
    ensures crc == ShiftOut(c)
  {
    crc := c;
    if crc & 0x8000 != 0 {
      crc := (crc << 1) ^ 0x1021;
    } else {
      crc := crc << 1;
    }
  }

  lemma ShiftOutNext(c: bv16, n: nat)
    ensures ShiftOutN(c, n + 1) == ShiftOut(ShiftOutN(c, n))
  {}

  // The inner loop: eight steps of polynomial division.
  method ShiftRegister(c: bv16) returns (crc: bv16)
    ensures Bits(crc) == DivSteps(Bits(c), BITS_PER_BYTE)
    ensures crc == ShiftOutN(c, BITS_PER_BYTE)
  {
    crc := c;
    for i := 0 to BITS_PER_BYTE
      invariant crc == ShiftOutN(c, i)
    {
      ShiftOutNext(c, i);
      crc := ShiftOnce(crc);
    }
    ShiftOutNDivides(c, BITS_PER_BYTE);
  }

  lemma CrcNext(data: Bytes, k: nat)
    requires k < |data|
    ensures Crc(data[..k + 1]) == Absorb(Crc(data[..k]), data[k])
  {
    assert data[..k + 1][..k] == data[..k];
  }

  method ComputeCrc16(data: Bytes) returns (crc: bv16)
    ensures crc == Crc(data)
    ensures IsRemainder(MessageBits(data), Bits(crc))
  {
    crc := 0;
    for k := 0 to |data|
      invariant crc == Crc(data[..k])
    {
      CrcNext(data, k);
      crc := ShiftRegister(crc ^ ((data[k] as bv16) << 8));
    }
    assert data[..|data|] == data;
    CrcIsRemainder(data);
  }

  // ---- Words as polynomials ----

  // The word with only bit i set, counting from the most significant.
  function Mask(i: nat): bv16 {
    if i == 0 then 0x8000 else Mask(i - 1) >> 1
  }

  function Bits(c: bv16): (bits: Poly)
    ensures |bits| == 16 && forall i :: 0 <= i < 16 ==> bits[i] == (c & Mask(i) != 0)
  {
    seq(16, i requires 0 <= i < 16 => c & Mask(i) != 0)
  }

  function ByteBits(b: bv8): (bits: Poly)
    ensures |bits| == 8
  {
    Bits(b as bv16)[8..]
  }

  function MessageBits(data: Bytes): (bits: Poly)
    ensures |bits| == 8 * |data|
  {
    if data == [] then []
    else MessageBits(data[..|data| - 1]) + ByteBits(data[|data| - 1])
  }

  lemma MaskIsOneBit(i: nat)
    requires i < 16
    ensures Mask(i) != 0 && Mask(i) & (Mask(i) - 1) == 0
    ensures i == 15 ==> Mask(i) == 1
  {
    MaskValues();
  }

  lemma MaskValues()
    ensures Mask(0) == 0x8000 && Mask(1) == 0x4000 && Mask(2) == 0x2000 && Mask(3) == 0x1000
    ensures Mask(4) == 0x0800 && Mask(5) == 0x0400 && Mask(6) == 0x0200 && Mask(7) == 0x0100
    ensures Mask(8) == 0x0080 && Mask(9) == 0x0040 && Mask(10) == 0x0020 && Mask(11) == 0x0010
    ensures Mask(12) == 0x0008 && Mask(13) == 0x0004 && Mask(14) == 0x0002 && Mask(15) == 0x0001
  {}

  lemma XorMasked(c: bv16, d: bv16, m: bv16)
    requires m & (m - 1) == 0
    ensures (c ^ d) & m == (c & m) ^ (d & m)
    ensures c & m == 0 || c & m == m
    ensures d & m == 0 || d & m == m
  {}

  lemma XorSelf(m: bv16)
    ensures m ^ m == 0 && 0 ^ m == m && m ^ 0 == m
  {}

  lemma XorBit(c: bv16, d: bv16, m: bv16)
    requires m & (m - 1) == 0 && m != 0
    ensures (c ^ d) & m != 0 <==> ((c & m != 0) != (d & m != 0))
  {
    XorMasked(c, d, m);
    XorSelf(m);
  }

  lemma ShiftBit(c: bv16, m: bv16)
    requires m & (m - 1) == 0 && m != 0
    ensures (c << 1) & m != 0 <==> c & (m >> 1) != 0
  {}

  lemma BitsXor(c: bv16, d: bv16)
    ensures Bits(c ^ d) == Add(Bits(c), Bits(d))
  {
    forall i | 0 <= i < 16
      ensures Bits(c ^ d)[i] == (Bits(c)[i] != Bits(d)[i])
    {
      MaskIsOneBit(i);
      XorBit(c, d, Mask(i));
    }
  }

  lemma LastBitShift(c: bv16)
    ensures (c << 1) & 1 == 0
  {}

  lemma BitShifted(c: bv16, i: nat)
    requires i < 16
    ensures Bits(c << 1)[i] == if i < 15 then Bits(c)[i + 1] else false
  {
    MaskIsOneBit(i);
    if i < 15 {
      ShiftBit(c, Mask(i));
    } else {
      LastBitShift(c);
    }
  }

  lemma BitsShift(c: bv16)
    ensures Bits(c << 1) == Bits(c)[1..] + [false]
  {
    forall i | 0 <= i < 16
      ensures Bits(c << 1)[i] == (Bits(c)[1..] + [false])[i]
    {
      BitShifted(c, i);
    }
  }

  lemma NoBitsIsZero(e: bv16)
    requires e & 0x8000 == 0 && e & 0x4000 == 0 && e & 0x2000 == 0 && e & 0x1000 == 0
    requires e & 0x0800 == 0 && e & 0x0400 == 0 && e & 0x0200 == 0 && e & 0x0100 == 0
    requires e & 0x0080 == 0 && e & 0x0040 == 0 && e & 0x0020 == 0 && e & 0x0010 == 0
    requires e & 0x0008 == 0 && e & 0x0004 == 0 && e & 0x0002 == 0 && e & 0x0001 == 0
    ensures e == 0
  {}

  lemma ZeroBits(e: bv16)
    requires Bits(e) == Zeros(16)
    ensures e == 0
  {
    assert forall i :: 0 <= i < 16 ==> !Bits(e)[i];
    assert !Bits(e)[0] && !Bits(e)[1] && !Bits(e)[2] && !Bits(e)[3];
    assert !Bits(e)[4] && !Bits(e)[5] && !Bits(e)[6] && !Bits(e)[7];
    assert !Bits(e)[8] && !Bits(e)[9] && !Bits(e)[10] && !Bits(e)[11];
    assert !Bits(e)[12] && !Bits(e)[13] && !Bits(e)[14] && !Bits(e)[15];
    MaskValues();
    NoBitsIsZero(e);
  }

  lemma XorZeroMeansEqual(c: bv16, d: bv16)
    ensures c ^ d == 0 ==> c == d
  {}

  lemma BitsInjective(c: bv16, d: bv16)
    requires Bits(c) == Bits(d)
    ensures c == d
  {
    BitsXor(c, d);
    ZeroBits(c ^ d);
    XorZeroMeansEqual(c, d);
  }

  // The feedback constant is XMODEM without its leading term.
  lemma FeedbackBits()
    ensures Bits(0x1021) == XMODEM[1..] && Bits(0) == Zeros(16)
  {
    MaskValues();
    var f := Bits(0x1021);
    assert f[0] == f[1] == f[2] == f[4] == f[5] == f[6] == f[7] == f[8] == f[9] == false;
    assert f[11] == f[12] == f[13] == f[14] == false;
    assert f[3] && f[10] && f[15];
  }

  // A byte widened, and a byte shifted to the top of a word.
  lemma ByteWidened(b: bv8)
    ensures Bits(b as bv16) == Zeros(8) + ByteBits(b)
  {
    forall i | 0 <= i < 16
      ensures Bits(b as bv16)[i] == (Zeros(8) + ByteBits(b))[i]
    {
      if i < 8 {
        MaskHalves(i);
        HighMasked(b, Mask(i));
      }
    }
  }

  lemma TopHalfBit(b: bv8, i: nat)
    requires i < 8
    ensures Bits((b as bv16) << 8)[i] == ByteBits(b)[i]
  {
    MaskHalves(i);
    ShiftedHighMasked(b, Mask(i));
  }

  lemma BottomHalfBit(b: bv8, i: nat)
    requires 8 <= i < 16
    ensures !Bits((b as bv16) << 8)[i]
  {
    MaskHalves(i);
    ShiftedLowMasked(b, Mask(i));
  }

  lemma ByteAtTop(b: bv8)
    ensures Bits((b as bv16) << 8) == ByteBits(b) + Zeros(8)
  {
    var w := (b as bv16) << 8;
    forall i | 0 <= i < 16
      ensures Bits(w)[i] == (ByteBits(b) + Zeros(8))[i]
    {
      if i < 8 { TopHalfBit(b, i); } else { BottomHalfBit(b, i); }
    }
  }

  lemma MaskHalves(i: nat)
    requires i < 16
    ensures i < 8 ==> Mask(i) & 0x00ff == 0 && Mask(i) >> 8 == Mask(i + 8)
    ensures i >= 8 ==> Mask(i) & 0xff00 == 0
  {
    MaskValues();
  }

  lemma HighMasked(b: bv8, m: bv16)
    requires m & 0x00ff == 0
    ensures (b as bv16) & m == 0
  {}

  lemma ShiftedLowMasked(b: bv8, m: bv16)
    requires m & 0xff00 == 0
    ensures ((b as bv16) << 8) & m == 0
  {}

  lemma ShiftedHighMasked(b: bv8, m: bv16)
    requires m & 0x00ff == 0
    ensures ((b as bv16) << 8) & m != 0 <==> (b as bv16) & (m >> 8) != 0
  {}

  // ---- The loop divides ----

  lemma ShiftOutDivides(c: bv16)
    ensures Bits(ShiftOut(c)) == DivStep(Bits(c))
  {
    BitsShift(c);
    FeedbackBits();
    if c & 0x8000 != 0 {
      BitsXor(c << 1, 0x1021);
      assert Bits(c)[0];
    } else {
      assert !Bits(c)[0];
      assert Add(Bits(c << 1), Zeros(16)) == Bits(c << 1);
    }
  }

  lemma NextDivides(c: bv16, r: Poly, n: nat)
    requires |r| == 16 && Bits(c) == DivSteps(r, n)
    ensures Bits(ShiftOut(c)) == DivSteps(r, n + 1)
  {
    ShiftOutDivides(c);
    DivStepsLast(r, n);
  }

  lemma {:induction false} ShiftOutNDivides(c: bv16, n: nat)
    ensures Bits(ShiftOutN(c, n)) == DivSteps(Bits(c), n)
    decreases n
  {
    if n != 0 {
      ShiftOutNDivides(c, n - 1);
      NextDivides(ShiftOutN(c, n - 1), Bits(c), n - 1);
    }
  }

  lemma AbsorbDivides(c: bv16, w: bv16, x: bv16, b: Poly)
    requires |b| == 8 && Bits(w) == b + Zeros(8) && Bits(x) == Add(Bits(c), Bits(w))
    ensures Bits(ShiftOutN(x, BITS_PER_BYTE)) == FeedAll(Bits(c), b)
  {
    ShiftOutNDivides(x, BITS_PER_BYTE);
    FeedByteAligned(Bits(c), b);
  }

  lemma AbsorbFeedsByte(c: bv16, b: bv8)
    ensures Bits(Absorb(c, b)) == FeedAll(Bits(c), ByteBits(b))
  {
    var w := (b as bv16) << 8;
    ByteAtTop(b);
    BitsXor(c, w);
    AbsorbDivides(c, w, c ^ w, ByteBits(b));
  }

  lemma {:induction false} CrcFeedsMessage(data: Bytes)
    ensures Bits(Crc(data)) == FeedAll(Zeros(16), MessageBits(data))
  {
    if data == [] {
      FeedbackBits();
    } else {
      var n := |data| - 1;
      CrcFeedsMessage(data[..n]);
      AbsorbFeedsByte(Crc(data[..n]), data[n]);
      FeedAllAppend(Zeros(16), MessageBits(data[..n]), ByteBits(data[n]));
    }
  }

  // The loop computes message * x^16 modulo x^16 + x^12 + x^5 + 1.
  lemma CrcIsRemainder(data: Bytes)
    ensures IsRemainder(MessageBits(data), Bits(Crc(data)))
  {
    CrcFeedsMessage(data);
    FeedAllIsRemainder(MessageBits(data));
  }

  // And nothing else: the CRC is characterised by division.
  lemma CrcExactlyRemainder(data: Bytes, c: bv16)
    ensures IsRemainder(MessageBits(data), Bits(c)) <==> c == Crc(data)
  {
    CrcIsRemainder(data);
    if IsRemainder(MessageBits(data), Bits(c)) {
      RemainderUnique(MessageBits(data), Bits(c), Bits(Crc(data)));
      BitsInjective(c, Crc(data));
    }
  }

  // ---- Consequences ----

  function XorBytes(a: Bytes, b: Bytes): (s: Bytes)
    requires |a| == |b|
    ensures |s| == |a| && forall i :: 0 <= i < |s| ==> s[i] == a[i] ^ b[i]
  {
    seq(|a|, i requires 0 <= i < |a| => a[i] ^ b[i])
  }

  lemma WidenXor(a: bv8, b: bv8)
    ensures (a ^ b) as bv16 == (a as bv16) ^ (b as bv16)
  {}

  lemma ByteBitsXor(a: bv8, b: bv8)
    ensures ByteBits(a ^ b) == Add(ByteBits(a), ByteBits(b))
  {
    WidenXor(a, b);
    BitsXor(a as bv16, b as bv16);
  }

  lemma AddAppend(a: Poly, b: Poly, c: Poly, d: Poly)
    requires |a| == |b| && |c| == |d|
    ensures Add(a + c, b + d) == Add(a, b) + Add(c, d)
  {}

  lemma {:induction false} MessageBitsXor(a: Bytes, b: Bytes)
    requires |a| == |b|
    ensures MessageBits(XorBytes(a, b)) == Add(MessageBits(a), MessageBits(b))
  {
    if a != [] {
      var n := |a| - 1;
      MessageBitsXor(a[..n], b[..n]);
      assert XorBytes(a, b)[..n] == XorBytes(a[..n], b[..n]);
      ByteBitsXor(a[n], b[n]);
      AddAppend(MessageBits(a[..n]), MessageBits(b[..n]), ByteBits(a[n]), ByteBits(b[n]));
    }
  }

  // A word with the bits of the remainder is the CRC.
  lemma CrcFromBits(data: Bytes, c: bv16, r: Poly)
    requires Bits(c) == r && IsRemainder(MessageBits(data), r)
    ensures Crc(data) == c
  {
    CrcExactlyRemainder(data, c);
  }

  lemma CrcBitsLinear(a: Bytes, b: Bytes)
    requires |a| == |b|
    ensures IsRemainder(MessageBits(XorBytes(a, b)), Add(Bits(Crc(a)), Bits(Crc(b))))
  {
    CrcIsRemainder(a);
    CrcIsRemainder(b);
    MessageBitsXor(a, b);
    RemainderAdd(MessageBits(a), Bits(Crc(a)), MessageBits(b), Bits(Crc(b)));
  }

  lemma CrcFromXor(data: Bytes, c: bv16, d: bv16)
    requires IsRemainder(MessageBits(data), Add(Bits(c), Bits(d)))
    ensures Crc(data) == c ^ d
  {
    BitsXor(c, d);
    CrcFromBits(data, c ^ d, Bits(c ^ d));
  }

  lemma CrcLinear(a: Bytes, b: Bytes)
    requires |a| == |b|
    ensures Crc(XorBytes(a, b)) == Crc(a) ^ Crc(b)
  {
    CrcBitsLinear(a, b);
    CrcFromXor(XorBytes(a, b), Crc(a), Crc(b));
  }

  function HighByte(c: bv16): bv8 { (c >> 8) as bv8 }

  function LowByte(c: bv16): bv8 { (c & 0x00ff) as bv8 }

  lemma SplitWord(c: bv16)
    ensures ((HighByte(c) as bv16) << 8) ^ (LowByte(c) as bv16) == c
  {
    assert ((c >> 8) << 8) ^ (c & 0x00ff) == c;
  }

  lemma WordBits(c: bv16)
    ensures MessageBits([HighByte(c), LowByte(c)]) == Bits(c)
  {
    var h, l := HighByte(c), LowByte(c);
    SplitWord(c);
    ByteAtTop(h);
    ByteWidened(l);
    BitsXor((h as bv16) << 8, l as bv16);
    JoinHalves(ByteBits(h), ByteBits(l));
    TwoByteMessage(h, l);
  }

  lemma JoinHalves(h: Poly, l: Poly)
    requires |h| == |l| == 8
    ensures Add(h + Zeros(8), Zeros(8) + l) == h + l
  {}

  lemma TwoByteMessage(h: bv8, l: bv8)
    ensures MessageBits([h, l]) == ByteBits(h) + ByteBits(l)
  {
    assert [h, l][..1] == [h] && [h][..0] == [];
    assert MessageBits([h]) == ByteBits(h);
  }

  lemma {:induction false} MessageBitsAppend(a: Bytes, b: Bytes)
    ensures MessageBits(a + b) == MessageBits(a) + MessageBits(b)
  {
    if b == [] {
      assert a + b == a;
    } else {
      var n := |b| - 1;
      assert (a + b)[..|a + b| - 1] == a + b[..n];
      MessageBitsAppend(a, b[..n]);
    }
  }

  // A key followed by two bytes checks to zero exactly when they are its CRC, high byte first.
  lemma CrcResidue(data: Bytes, h: bv8, l: bv8)
    ensures Crc(data + [h, l]) == 0 <==> h == HighByte(Crc(data)) && l == LowByte(Crc(data))
  {
    var c := Crc(data);
    var hc, lc := HighByte(c), LowByte(c);
    CrcIsRemainder(data);
    RemainderAppended(MessageBits(data), Bits(c));
    MessageBitsAppend(data, [hc, lc]);
    WordBits(c);
    FeedbackBits();
    CrcExactlyRemainder(data + [hc, lc], 0);
    if Crc(data + [h, l]) == 0 && [h, l] != [hc, lc] {
      assert (data + [h, l])[|data|..] == [h, l] && (data + [hc, lc])[|data|..] == [hc, lc];
      AdjacentBytesDetected(data + [h, l], data + [hc, lc], |data|);
    }
    assert [h, l] == [hc, lc] <==> h == hc && l == lc by {
      assert [h, l][0] == h && [h, l][1] == l && [hc, lc][0] == hc && [hc, lc][1] == lc;
    }
  }

  // Messages of one length that differ only inside a window of 16 bits, at any
  // bit offset, have different CRCs.
  lemma BurstDetected(a: Bytes, b: Bytes, k: nat)
    requires |a| == |b| && a != b
    requires forall i :: 0 <= i < 8 * |a| && !(k <= i < k + 16) ==> MessageBits(a)[i] == MessageBits(b)[i]
    ensures Crc(a) != Crc(b)
  {
    if Crc(a) == Crc(b) {
      var n := 8 * |a|;
      CrcIsRemainder(a);
      CrcIsRemainder(b);
      BurstChangesRemainder(MessageBits(a), MessageBits(b), Bits(Crc(a)), k);
      SameBitsSameBytes(a, b);
    }
  }

  lemma ByteBitsInjective(a: bv8, b: bv8)
    requires ByteBits(a) == ByteBits(b)
    ensures a == b
  {
    ByteWidened(a);
    ByteWidened(b);
    BitsInjective(a as bv16, b as bv16);
    WidenInjective(a, b);
  }

  lemma LastByteBits(data: Bytes)
    requires data != []
    ensures var n, bits := |data| - 1, MessageBits(data);
            bits[..8 * n] == MessageBits(data[..n]) && bits[8 * n..] == ByteBits(data[n])
  {}

  lemma {:induction false} SameBitsSameBytes(a: Bytes, b: Bytes)
    requires |a| == |b| && MessageBits(a) == MessageBits(b)
    ensures a == b
  {
    if a != [] {
      var n := |a| - 1;
      LastByteBits(a);
      LastByteBits(b);
      SameBitsSameBytes(a[..n], b[..n]);
      ByteBitsInjective(a[n], b[n]);
      assert a == a[..n] + [a[n]] && b == b[..n] + [b[n]];
    }
  }

  lemma WidenInjective(a: bv8, b: bv8)
    ensures a as bv16 == b as bv16 ==> a == b
  {}

  // Outside the bytes that differ, the bits agree.
  lemma {:induction false} SameByteSameBits(a: Bytes, b: Bytes, i: nat)
    requires |a| == |b| && i < 8 * |a| && a[i / 8] == b[i / 8]
    ensures MessageBits(a)[i] == MessageBits(b)[i]
  {
    var n := |a| - 1;
    if i < 8 * n {
      SameByteSameBits(a[..n], b[..n], i);
    }
  }

  lemma AdjacentBytesDetected(a: Bytes, b: Bytes, k: nat)
    requires |a| == |b| && a != b
    requires forall i :: 0 <= i < |a| && i != k && i != k + 1 ==> a[i] == b[i]
    ensures Crc(a) != Crc(b)
  {
    forall i | 0 <= i < 8 * |a| && !(8 * k <= i < 8 * k + 16)
      ensures MessageBits(a)[i] == MessageBits(b)[i]
    {
      SameByteSameBits(a, b, i);
    }
    BurstDetected(a, b, 8 * k);
  }

  // ---- The check value of CRC-16/XMODEM ----

  // One byte absorbed, written out as the eight shifts.
  lemma AbsorbIs(c: bv16, b: bv8)
    ensures var x := c ^ ((b as bv16) << 8);
            Absorb(c, b) == ShiftOut(ShiftOut(ShiftOut(ShiftOut(ShiftOut(ShiftOut(ShiftOut(ShiftOut(x))))))))
  {
    var x := c ^ ((b as bv16) << 8);
    ShiftOutNext(x, 0);
    ShiftOutNext(x, 1);
    ShiftOutNext(x, 2);
    ShiftOutNext(x, 3);
    ShiftOutNext(x, 4);
    ShiftOutNext(x, 5);
    ShiftOutNext(x, 6);
    ShiftOutNext(x, 7);
  }

  lemma AbsorbNine()
    ensures Absorb(0x0000, 0x31) == 0x2672 && Absorb(0x2672, 0x32) == 0x20b5 && Absorb(0x20b5, 0x33) == 0x9752
    ensures Absorb(0x9752, 0x34) == 0xd789 && Absorb(0xd789, 0x35) == 0x546c && Absorb(0x546c, 0x36) == 0x20e4
    ensures Absorb(0x20e4, 0x37) == 0x86d6 && Absorb(0x86d6, 0x38) == 0x9015 && Absorb(0x9015, 0x39) == 0x31c3
  {
    AbsorbIs(0x0000, 0x31);
    AbsorbIs(0x2672, 0x32);
    AbsorbIs(0x20b5, 0x33);
    AbsorbIs(0x9752, 0x34);
    AbsorbIs(0xd789, 0x35);
    AbsorbIs(0x546c, 0x36);
    AbsorbIs(0x20e4, 0x37);
    AbsorbIs(0x86d6, 0x38);
    AbsorbIs(0x9015, 0x39);
  }

  lemma FedNext(d: Bytes, k: nat, c: bv16)
    requires k < |d| && Absorb(Crc(d[..k]), d[k]) == c
    ensures Crc(d[..k + 1]) == c
  {
    CrcNext(d, k);
  }

  predicate CountsUp(d: Bytes) {
    && |d| == 9 && d[0] == 0x31 && d[1] == 0x32 && d[2] == 0x33 && d[3] == 0x34 && d[4] == 0x35
    && d[5] == 0x36 && d[6] == 0x37 && d[7] == 0x38 && d[8] == 0x39
  }

  lemma CheckThree(d: Bytes)
    requires CountsUp(d)
    ensures Crc(d[..3]) == 0x9752
  {
    AbsorbNine();
    assert d[..0] == [];
    FedNext(d, 0, 0x2672);
    FedNext(d, 1, 0x20b5);
    FedNext(d, 2, 0x9752);
  }

  lemma CheckSix(d: Bytes)
    requires CountsUp(d)
    ensures Crc(d[..6]) == 0x20e4
  {
    AbsorbNine();
    CheckThree(d);
    FedNext(d, 3, 0xd789);
    FedNext(d, 4, 0x546c);
    FedNext(d, 5, 0x20e4);
  }

  lemma CheckNine(d: Bytes)
    requires CountsUp(d)
    ensures Crc(d[..9]) == 0x31c3
  {
    AbsorbNine();
    CheckSix(d);
    FedNext(d, 6, 0x86d6);
    FedNext(d, 7, 0x9015);
    FedNext(d, 8, 0x31c3);
  }

  // The CRC of the digits 1 to 9.
  lemma CheckValue(d: Bytes)
    requires CountsUp(d)
    ensures Crc(d) == 0x31c3
  {
    CheckNine(d);
    assert d[..9] == d;
  }
}
