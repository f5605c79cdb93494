/**
  The vector kernels: gf16/gf16_amd64.s (SSSE3, one 128-bit lane) and gf16/asm.go (AVX2, two lanes). A register is a
  sequence of 16-byte lanes, and each instruction is given by what it does to the bytes of a lane; the 256-bit forms
  of all of them act on their two lanes separately. A block is 32 bytes a lane.
 */
module Simd {
  import opened Bits
  import opened Field
  import opened Slices

  type Lane = s: seq<Byte> | |s| == 16 witness seq(16, _ => 0)
  type Register = seq<Lane>

  // Instructions, on one lane. The destination is the last operand, as in the source.

  /** The 16-bit word w of a lane. */
  function Word(x: Lane, w: nat): T
    requires w < 8
  {
    Join(x[2 * w], x[2 * w + 1])
  }

  /** PSRLW: each 16-bit word is shifted right. */
  function ShiftWords(n: nat, x: Lane): Lane {
    seq(16, i requires 0 <= i < 16 =>
      ShrBound(Word(x, i / 2), n);
      if i % 2 == 0 then LowByte(Shr(Word(x, i / 2), n)) else HighByte(Shr(Word(x, i / 2), n)))
  }

  lemma ShrBound(t: T, n: nat)
    ensures Shr(t, n) < 65536
  {
    DivModSum(t, Pow2(n));
    if t / Pow2(n) >= 65536 { MulAtLeast(Pow2(n), t / Pow2(n)); }
  }

  function AndByte(a: Byte, b: Byte): Byte {
    AndBound(a, b);
    And(a, b)
  }

  lemma {:induction false} AndBound(a: nat, b: nat)
    ensures And(a, b) <= a
    decreases a
  {
    if a == 0 {
    } else {
      AndBound(a / 2, b / 2);
      BitProduct(a % 2, b % 2);
      assert And(a, b) == (a % 2) * (b % 2) + 2 * And(a / 2, b / 2);
      hide And;
      assert a == a % 2 + 2 * (a / 2);
    }
  }

  lemma BitProduct(a: nat, b: nat)
    requires a < 2 && b < 2
    ensures 0 <= a * b <= a
  {
  }

  function XorByte(a: Byte, b: Byte): Byte {
    Pow2Values();
    XorBound(a, b, 8);
    Xor(a, b)
  }

  /** PAND */
  function AndLane(mask: Lane, x: Lane): Lane {
    seq(16, i requires 0 <= i < 16 => AndByte(x[i], mask[i]))
  }

  /** PXOR */
  function XorLane(y: Lane, x: Lane): Lane {
    seq(16, i requires 0 <= i < 16 => XorByte(x[i], y[i]))
  }

  /** A signed 16-bit word brought into the range of an unsigned byte. */
  function Saturate(word: T): Byte {
    if word >= 32768 then 0 else if word > 255 then 255 else word
  }

  /** PACKUSWB: the words of dst, then those of src, each saturated to a byte. */
  function PackLane(src: Lane, dst: Lane): Lane {
    seq(16, i requires 0 <= i < 16 => if i < 8 then Saturate(Word(dst, i)) else Saturate(Word(src, i - 8)))
  }

  /** PSHUFB: each byte of index selects a byte of table, or zero when its top bit is set. */
  function ShuffleLane(index: Lane, table: Lane): Lane {
    seq(16, i requires 0 <= i < 16 => if index[i] >= 128 then 0 else table[index[i] % 16])
  }

  /** PUNPCKLBW: the low halves of dst and src interleaved. */
  function UnpackLowLane(src: Lane, dst: Lane): Lane {
    seq(16, i requires 0 <= i < 16 => if i % 2 == 0 then dst[i / 2] else src[i / 2])
  }

  /** PUNPCKHBW: the high halves of dst and src interleaved. */
  function UnpackHighLane(src: Lane, dst: Lane): Lane {
    seq(16, i requires 0 <= i < 16 => if i % 2 == 0 then dst[8 + i / 2] else src[8 + i / 2])
  }

  /** The shuffle tables of one coefficient: bytes of c * j << 0, 4, 8 and 12 for every nibble j. */
  datatype Entry = Entry(s0Low: Lane, s4Low: Lane, s8Low: Lane, s12Low: Lane,
                         s0High: Lane, s4High: Lane, s8High: Lane, s12High: Lane)

  ghost predicate IsEntry(c: T, e: Entry) {
    && (forall j :: 0 <= j < 16 ==> e.s0Low[j] == LowByte(Mul(c, j)) && e.s0High[j] == HighByte(Mul(c, j)))
    && (forall j :: 0 <= j < 16 ==> e.s4Low[j] == LowByte(Mul(c, 16 * j)) && e.s4High[j] == HighByte(Mul(c, 16 * j)))
    && (forall j :: 0 <= j < 16 ==>
          e.s8Low[j] == LowByte(Mul(c, 256 * j)) && e.s8High[j] == HighByte(Mul(c, 256 * j)))
    && (forall j :: 0 <= j < 16 ==>
          e.s12Low[j] == LowByte(Mul(c, 4096 * j)) && e.s12High[j] == HighByte(Mul(c, 4096 * j)))
  }

  // Masks.

  ghost predicate IsMulMask(mask: Lane) {
    forall i :: 0 <= i < 16 ==> mask[i] == 15
  }

  ghost predicate IsConvMask(mask: Lane) {
    forall i :: 0 <= i < 16 ==> mask[i] == if i % 2 == 0 then 255 else 0
  }

  /** SET_MUL_MASK: 15 is moved into the low byte and broadcast by a shuffle with zero. */
  method SetMulMask() returns (mask: Lane)
    ensures IsMulMask(mask)
  {
    mask := [15, 0, 0, 0, 0, 0, 0, 0, 0, 0, 0, 0, 0, 0, 0, 0];
    var zero: Lane := seq(16, _ => 0);
    mask := ShuffleLane(zero, mask);
  }

  /** SET_CONV_MASK: 255 is broadcast and every word shifted right by eight. */
  method SetConvMask() returns (mask: Lane)
    ensures IsConvMask(mask)
  {
    mask := [255, 0, 0, 0, 0, 0, 0, 0, 0, 0, 0, 0, 0, 0, 0, 0];
    var zero: Lane := seq(16, _ => 0);
    mask := ShuffleLane(zero, mask);
    Shifts(65535);
    mask := ShiftWords(8, mask);
  }

  lemma Shifts(t: T)
    ensures Shr(t, 4) == t / 16 && Shr(t, 8) == t / 256
  {
    Pow2Values();
  }

  // The macros, each followed by what it computes.

  /** STANDARD_TO_ALT_MAP: returns the high bytes in in0 and the low bytes in outLow. */
  function StandardToAltMap(in0: Lane, in1: Lane, convMask: Lane): (planes: (Lane, Lane)) {
    var outLow := in0;
    var in0a := ShiftWords(8, in0);
    var outLowA := AndLane(convMask, outLow);
    var tmp := in1;
    var in1a := ShiftWords(8, in1);
    var tmpA := AndLane(convMask, tmp);
    var in0b := PackLane(in1a, in0a);
    var outLowB := PackLane(tmpA, outLowA);
    (in0b, outLowB)
  }

  /** ALT_TO_STANDARD_MAP: returns the new inLow and out1. */
  function AltToStandardMap(inLow: Lane, inHigh: Lane): (Lane, Lane) {
    var out1 := inLow;
    (UnpackLowLane(inHigh, inLow), UnpackHighLane(inHigh, out1))
  }

  /** MUL_ALT_MAP_BYTE: one byte of every product, by four nibble lookups. */
  function MulAltMapByte(s0: Lane, s4: Lane, s8: Lane, s12: Lane, inLow: Lane, inHigh: Lane, mulMask: Lane): Lane {
    var n0 := AndLane(mulMask, inLow);
    var out0 := ShuffleLane(n0, s0);
    var n4 := AndLane(mulMask, ShiftWords(4, inLow));
    var out1 := XorLane(ShuffleLane(n4, s4), out0);
    var n8 := AndLane(mulMask, inHigh);
    var out2 := XorLane(ShuffleLane(n8, s8), out1);
    var n12 := AndLane(mulMask, ShiftWords(4, inHigh));
    XorLane(ShuffleLane(n12, s12), out2)
  }

  /** MUL_STANDARD_MAP: in1 holds the first 16 bytes of the block and in0 the second; the results come back swapped. */
  function MulStandardMap(e: Entry, in0: Lane, in1: Lane, convMask: Lane, mulMask: Lane): (Lane, Lane) {
    var (high, low) := StandardToAltMap(in0, in1, convMask);
    var outLow := MulAltMapByte(e.s0Low, e.s4Low, e.s8Low, e.s12Low, low, high, mulMask);
    var outHigh := MulAltMapByte(e.s0High, e.s4High, e.s8High, e.s12High, low, high, mulMask);
    var (in1a, in0a) := AltToStandardMap(outLow, outHigh);
    (in0a, in1a)
  }

  lemma PlanesAre(in0: Lane, in1: Lane, convMask: Lane)
    requires IsConvMask(convMask)
    ensures var (high, low) := StandardToAltMap(in0, in1, convMask);
      && (forall k :: 0 <= k < 8 ==> low[k] == in0[2 * k] && high[k] == in0[2 * k + 1])
      && (forall k :: 0 <= k < 8 ==> low[8 + k] == in1[2 * k] && high[8 + k] == in1[2 * k + 1])
  {
    var (high, low) := StandardToAltMap(in0, in1, convMask);
    hide AndByte;
    forall k | 0 <= k < 8
      ensures low[k] == in0[2 * k] && high[k] == in0[2 * k + 1]
      ensures low[8 + k] == in1[2 * k] && high[8 + k] == in1[2 * k + 1]
    {
      Isolate(in0, convMask, k);
      Isolate(in1, convMask, k);
    }
  }

  /** Shifting a word by eight leaves its high byte, and masking it its low byte; neither is changed by saturation. */
  lemma Isolate(x: Lane, convMask: Lane, k: nat)
    requires IsConvMask(convMask) && k < 8
    ensures Saturate(Word(ShiftWords(8, x), k)) == x[2 * k + 1]
    ensures Saturate(Word(AndLane(convMask, x), k)) == x[2 * k]
  {
    hide And, Shr, ShiftWords, AndLane;
    Shifts(Word(x, k));
    ElementBytes(x[2 * k], x[2 * k + 1]);
    ShiftedWord(8, x, k);
    MaskedWord(x, convMask, k);
  }

  lemma ShiftedWord(n: nat, x: Lane, k: nat)
    requires k < 8
    ensures Word(ShiftWords(n, x), k) == Shr(Word(x, k), n)
  {
    hide Shr;
    ShrBound(Word(x, k), n);
    assert (2 * k) / 2 == k && (2 * k + 1) / 2 == k;
  }

  lemma MaskedWord(x: Lane, convMask: Lane, k: nat)
    requires IsConvMask(convMask) && k < 8
    ensures Word(AndLane(convMask, x), k) == x[2 * k]
  {
    assert convMask[2 * k] == 255 && convMask[2 * k + 1] == 0;
    hide AndByte;
    var masked := AndLane(convMask, x);
    assert masked[2 * k] == AndByte(x[2 * k], 255) && masked[2 * k + 1] == AndByte(x[2 * k + 1], 0);
    hide AndLane, IsConvMask;
    MaskedBytes(x[2 * k]);
    MaskedBytes(x[2 * k + 1]);
  }

  lemma MaskedBytes(a: Byte)
    ensures AndByte(a, 255) == a && AndByte(a, 0) == 0
  {
    hide And;
    AndMasks(a);
  }

  /** The two nibbles of every byte, as masking with 15 isolates them before and after a shift by four. */
  lemma Nibbles(x: Lane, mulMask: Lane, i: nat)
    requires IsMulMask(mulMask) && i < 16
    ensures AndLane(mulMask, x)[i] == x[i] % 16
    ensures AndLane(mulMask, ShiftWords(4, x))[i] == x[i] / 16
  {
    hide And, Shr, ShiftWords;
    AndMasks(x[i]);
    AndMasks(ShiftWords(4, x)[i]);
    ShiftedByte(x, i);
  }

  lemma ShiftedByte(x: Lane, i: nat)
    requires i < 16
    ensures ShiftWords(4, x)[i] % 16 == x[i] / 16
  {
    var k := i / 2;
    Shifts(Word(x, k));
    hide Shr;
    ShrBound(Word(x, k), 4);
    ShiftFour(x[2 * k], x[2 * k + 1]);
    if i % 2 == 0 {
      assert i == 2 * k;
    } else {
      assert i == 2 * k + 1;
    }
  }

  lemma ShiftFour(lo: int, hi: int)
    requires 0 <= lo < 256 && 0 <= hi < 256
    ensures (lo + 256 * hi) / 16 % 256 % 16 == lo / 16
    ensures (lo + 256 * hi) / 16 / 256 % 16 == hi / 16
  {
    assert (lo + 256 * hi) / 16 == lo / 16 + 16 * hi;
    assert hi == 16 * (hi / 16) + hi % 16;
    assert (lo / 16 + 16 * hi) / 256 == hi / 16;
  }

  /** The sum of the four nibble products is the product of the whole element. */
  lemma NibbleProducts(c: T, lo: Byte, hi: Byte)
    ensures Add(Add(Add(Mul(c, lo % 16), Mul(c, 16 * (lo as int / 16))), Mul(c, 256 * (hi as int % 16))),
                Mul(c, 4096 * (hi as int / 16))) == Mul(c, Join(lo, hi))
  {
    hide Mul, Add;
    var a: T, b: T, d: T, e: T := lo % 16, 16 * (lo as int / 16), 256 * (hi as int % 16), 4096 * (hi as int / 16);
    NibbleSum(lo, hi);
    MulAddRight(c, a, b);
    MulAddRight(c, Add(a, b), d);
    MulAddRight(c, Add(Add(a, b), d), e);
  }

  lemma NibbleSum(lo: Byte, hi: Byte)
    ensures Add(Add(Add(lo % 16, 16 * (lo as int / 16)), 256 * (hi as int % 16)), 4096 * (hi as int / 16)) == Join(lo, hi)
  {
    Pow2Values();
    assert Pow2(12) == 4096;
    hide Add, Pow2;
    AddDisjoint(lo % 16, lo as int / 16, 16, 4);
    AddDisjoint(lo, hi as int % 16, 256, 8);
    AddDisjoint(lo as int + 256 * (hi as int % 16), hi as int / 16, 4096, 12);
  }

  /** Elements with no bit in common: the sum is the integer sum. */
  lemma AddDisjoint(a: T, q: nat, p: nat, n: nat)
    requires p == Pow2(n) && a < p && p * q >= 0 && a + p * q < 65536
    ensures Add(a, p * q) == a + p * q
  {
    hide Xor, Pow2;
    XorDisjoint(a, q, n);
    assert q * Pow2(n) == p * q;
  }

  /** The four lookups of a byte, one for each nibble of the element. */
  lemma Lookups(s0: Lane, s4: Lane, s8: Lane, s12: Lane, low: Lane, high: Lane, mulMask: Lane, i: nat)
    requires IsMulMask(mulMask) && i < 16
    ensures MulAltMapByte(s0, s4, s8, s12, low, high, mulMask)[i]
            == Xor(Xor(Xor(s0[low[i] % 16], s4[low[i] / 16]), s8[high[i] % 16]), s12[high[i] / 16])
  {
    hide Xor, AndLane, ShiftWords;
    Nibbles(low, mulMask, i);
    Nibbles(high, mulMask, i);
  }

  /** What one byte plane of the result holds. */
  lemma ProductByte(c: T, e: Entry, low: Lane, high: Lane, mulMask: Lane, i: nat)
    requires IsEntry(c, e) && IsMulMask(mulMask) && i < 16
    ensures MulAltMapByte(e.s0Low, e.s4Low, e.s8Low, e.s12Low, low, high, mulMask)[i]
            == LowByte(Mul(c, Join(low[i], high[i])))
    ensures MulAltMapByte(e.s0High, e.s4High, e.s8High, e.s12High, low, high, mulMask)[i]
            == HighByte(Mul(c, Join(low[i], high[i])))
  {
    Lookups(e.s0Low, e.s4Low, e.s8Low, e.s12Low, low, high, mulMask, i);
    Lookups(e.s0High, e.s4High, e.s8High, e.s12High, low, high, mulMask, i);
    hide Mul, Add, Xor, MulAltMapByte, LowByte, HighByte;
    NibbleProducts(c, low[i], high[i]);
    var p0, p4 := Mul(c, low[i] % 16), Mul(c, 16 * (low[i] as int / 16));
    var p8, p12 := Mul(c, 256 * (high[i] as int % 16)), Mul(c, 4096 * (high[i] as int / 16));
    AddBytes(p0, p4);
    AddBytes(Add(p0, p4), p8);
    AddBytes(Add(Add(p0, p4), p8), p12);
  }

  /** The macro multiplies the eight elements of in1 and the eight of in0. */
  lemma MapMultiplies(c: T, e: Entry, in0: Lane, in1: Lane, convMask: Lane, mulMask: Lane, k: nat)
    requires IsEntry(c, e) && IsConvMask(convMask) && IsMulMask(mulMask) && k < 8
    ensures var (out0, out1) := MulStandardMap(e, in0, in1, convMask, mulMask);
      Word(out0, k) == Mul(c, Word(in1, k)) && Word(out1, k) == Mul(c, Word(in0, k))
  {
    hide Mul, MulAltMapByte, StandardToAltMap;
    var (high, low) := StandardToAltMap(in0, in1, convMask);
    PlanesAre(in0, in1, convMask);
    ProductByte(c, e, low, high, mulMask, k);
    ProductByte(c, e, low, high, mulMask, 8 + k);
  }
}
