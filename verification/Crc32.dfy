/**
  CRC-32 as in section 8 of RFC 1952, computed byte by byte from a table. The register update is linear over exclusive
  or; the rolling window of par2/checksummer.go rests on that.
 */
module Crc32 {
  import opened Bits
  import opened Polynomials

  const REVERSED_POLYNOMIAL: U32 := 0xEDB8_8320
  const ONES: U32 := 0xFFFF_FFFF

  function Xor32(a: U32, b: U32): U32 {
    Pow2Values();
    XorBound(a, b, 32);
    Xor(a, b)
  }

  /** ^t */
  function Complement(t: U32): U32 {
    ONES - t
  }

  /** The register shifted by one bit. */
  function ShiftBit(s: U32): U32 {
    if s % 2 == 1 then Xor32(s / 2, REVERSED_POLYNOMIAL) else s / 2
  }

  /** The register shifted by one byte. */
  function ShiftByte(s: U32): U32 {
    ShiftBit(ShiftBit(ShiftBit(ShiftBit(ShiftBit(ShiftBit(ShiftBit(ShiftBit(s))))))))
  }

  /** Entry i of the standard table. */
  function TableAt(i: Byte): U32 {
    ShiftByte(i)
  }

  /** One byte is fed to the register: tab[byte(s) ^ b] ^ (s >> 8). */
  function Feed(s: U32, b: Byte): U32 {
    XorByteBound(s % 256, b);
    Xor32(TableAt(Xor(s % 256, b)), s / 256)
  }

  lemma XorByteBound(a: Byte, b: Byte)
    ensures Xor(a, b) < 256
  {
    Pow2Values();
    XorBound(a, b, 8);
  }

  function FeedAll(s: U32, data: seq<Byte>): U32
    decreases data
  {
    if data == [] then s else FeedAll(Feed(s, data[0]), data[1..])
  }

  function Checksum(data: seq<Byte>): U32 {
    Complement(FeedAll(ONES, data))
  }

  // Linearity.

  lemma Xor32Swap(a: U32, b: U32, c: U32, d: U32)
    ensures Xor32(Xor32(a, b), Xor32(c, d)) == Xor32(Xor32(a, c), Xor32(b, d))
  {
    XorSwap(a, b, c, d);
  }

  lemma Xor32Laws(a: U32, b: U32)
    ensures Xor32(a, 0) == a && Xor32(0, a) == a && Xor32(a, a) == 0 && Xor32(a, b) == Xor32(b, a)
    ensures Xor32(Xor32(a, b), b) == a && Xor32(a, Xor32(a, b)) == b
  {
    XorZero(a);
    XorSelf(a);
    XorComm(a, b);
    XorCancel(a, b);
    XorCancel(b, a);
  }

  lemma Xor32Assoc(a: U32, b: U32, c: U32)
    ensures Xor32(Xor32(a, b), c) == Xor32(a, Xor32(b, c))
  {
    XorAssoc(a, b, c);
  }

  function Reduction(s: U32): U32 {
    if s % 2 == 1 then REVERSED_POLYNOMIAL else 0
  }

  lemma ShiftBitIs(s: U32)
    ensures ShiftBit(s) == Xor32(s / 2, Reduction(s))
  {
    XorZero(s / 2);
  }

  lemma ShiftBitLinear(a: U32, b: U32)
    ensures ShiftBit(Xor32(a, b)) == Xor32(ShiftBit(a), ShiftBit(b))
  {
    XorStep(a, b);
    hide Xor32, ShiftBit;
    ShiftBitIs(a);
    ShiftBitIs(b);
    ShiftBitIs(Xor32(a, b));
    Halves(a, b);
    Xor32Laws(REVERSED_POLYNOMIAL, 0);
    Xor32Laws(0, REVERSED_POLYNOMIAL);
    Xor32Swap(a / 2, b / 2, Reduction(a), Reduction(b));
    Xor32Swap(a / 2, Reduction(a), b / 2, Reduction(b));
  }

  lemma Halves(a: U32, b: U32)
    ensures Xor32(a, b) / 2 == Xor32(a / 2, b / 2)
    ensures Xor32(a, b) % 2 == if a % 2 == b % 2 then 0 else 1
  {
    XorStep(a, b);
  }

  lemma ShiftByteLinear(a: U32, b: U32)
    ensures ShiftByte(Xor32(a, b)) == Xor32(ShiftByte(a), ShiftByte(b))
  {
    hide ShiftBit, Xor32;
    var a1, b1 := ShiftBit(a), ShiftBit(b);
    var a2, b2 := ShiftBit(a1), ShiftBit(b1);
    var a3, b3 := ShiftBit(a2), ShiftBit(b2);
    var a4, b4 := ShiftBit(a3), ShiftBit(b3);
    var a5, b5 := ShiftBit(a4), ShiftBit(b4);
    var a6, b6 := ShiftBit(a5), ShiftBit(b5);
    var a7, b7 := ShiftBit(a6), ShiftBit(b6);
    ShiftBitLinear(a, b);
    ShiftBitLinear(a1, b1);
    ShiftBitLinear(a2, b2);
    ShiftBitLinear(a3, b3);
    ShiftBitLinear(a4, b4);
    ShiftBitLinear(a5, b5);
    ShiftBitLinear(a6, b6);
    ShiftBitLinear(a7, b7);
  }

  /** Eight zero bits are shifted out without a reduction. */
  lemma ShiftByteExact(q: nat)
    requires 256 * q < 0x1_0000_0000
    ensures ShiftByte(256 * q) == q
  {
    hide ShiftBit;
    ShiftEven(128 * q);
    ShiftEven(64 * q);
    ShiftEven(32 * q);
    ShiftEven(16 * q);
    ShiftEven(8 * q);
    ShiftEven(4 * q);
    ShiftEven(2 * q);
    ShiftEven(q);
  }

  lemma ShiftEven(q: nat)
    requires 2 * q < 0x1_0000_0000
    ensures ShiftBit(2 * q) == q
  {
  }

  /** The table step is a shift of the register with the byte added to it. */
  lemma FeedIsShift(s: U32, b: Byte)
    ensures Feed(s, b) == ShiftByte(Xor32(s, b))
  {
    var low := s % 256;
    var q := s / 256;
    XorByteBound(low, b);
    var x: U32 := Xor(low, b);
    SplitLow(s, b);
    JoinHigh(x, q);
    hide Xor32, ShiftByte;
    ShiftByteLinear(x, 256 * q);
    ShiftByteExact(q);
  }

  lemma SplitLow(s: U32, b: Byte)
    ensures Xor32(s, b) == Xor(s % 256, b) + 256 * (s / 256)
  {
    Pow2Values();
    XorParts(s, s % 256, s / 256, b, b, 0, 8);
    XorZero(s / 256);
  }

  lemma JoinHigh(x: U32, q: nat)
    requires x < 256 && x + 256 * q < 0x1_0000_0000
    ensures Xor32(x, 256 * q) == x + 256 * q
  {
    Pow2Values();
    XorDisjoint(x, q, 8);
  }

  lemma FeedLinear(s: U32, t: U32, a: Byte, b: Byte)
    ensures Xor(a, b) < 256 && Feed(Xor32(s, t), Xor(a, b)) == Xor32(Feed(s, a), Feed(t, b))
  {
    XorByteBound(a, b);
    assert Xor32(a, b) == Xor(a, b);
    hide Xor32, Feed, ShiftByte;
    FeedIsShift(s, a);
    FeedIsShift(t, b);
    FeedIsShift(Xor32(s, t), Xor(a, b));
    Xor32Swap(s, t, a, b);
    ShiftByteLinear(Xor32(s, a), Xor32(t, b));
  }

  function Zeros(n: nat): (z: seq<Byte>)
    ensures |z| == n && forall i :: 0 <= i < n ==> z[i] == 0
  {
    seq(n, _ => 0)
  }

  /** Two registers fed the same data differ by what their difference becomes when fed zeros. */
  lemma {:induction false} FeedAllDifference(s: U32, t: U32, data: seq<Byte>)
    ensures Xor32(FeedAll(s, data), FeedAll(t, data)) == FeedAll(Xor32(s, t), Zeros(|data|))
    decreases data
  {
    hide Feed, Xor32, Xor;
    if data == [] {
    } else {
      FeedLinear(s, t, data[0], data[0]);
      XorSelf(data[0]);
      FeedAllDifference(Feed(s, data[0]), Feed(t, data[0]), data[1..]);
      assert Zeros(|data|)[1..] == Zeros(|data| - 1);
    }
  }

  lemma {:induction false} FeedAllConcat(s: U32, a: seq<Byte>, b: seq<Byte>)
    ensures FeedAll(s, a + b) == FeedAll(FeedAll(s, a), b)
    decreases a
  {
    hide Feed;
    if a == [] {
      assert a + b == b;
    } else {
      assert (a + b)[1..] == a[1..] + b;
      FeedAllConcat(Feed(s, a[0]), a[1..], b);
    }
  }

  lemma FeedOne(s: U32, b: Byte)
    ensures FeedAll(s, [b]) == Feed(s, b)
  {
    hide Feed;
    assert [b][1..] == [];
  }

  lemma {:induction false} XorOnes(t: nat, n: nat)
    requires t < Pow2(n)
    ensures Xor(t, Pow2(n) - 1) == Pow2(n) - 1 - t
  {
    if n == 0 {
    } else {
      XorOnes(t / 2, n - 1);
      Double(1, Pow2(n - 1) - 1);
      XorStep(t, Pow2(n) - 1);
      hide Xor;
      assert Xor(t, Pow2(n) - 1) / 2 == Pow2(n - 1) - 1 - t / 2;
    }
  }

  lemma ComplementIsXor(t: U32)
    ensures Complement(t) == Xor32(t, ONES)
  {
    Pow2Values();
    XorOnes(t, 32);
  }

  lemma ComplementTwice(t: U32)
    ensures Complement(Complement(t)) == t
  {
  }

  /** The difference of two checksums is the difference of their registers. */
  lemma ComplementDifference(a: U32, b: U32)
    ensures Xor32(Complement(a), Complement(b)) == Xor32(a, b)
    ensures Xor32(Complement(a), b) == Complement(Xor32(a, b))
  {
    hide Complement, Xor32;
    ComplementIsXor(a);
    ComplementIsXor(b);
    ComplementIsXor(Xor32(a, b));
    Xor32Swap(a, ONES, b, ONES);
    Xor32Laws(ONES, ONES);
    Xor32Laws(Xor32(a, b), ONES);
    Xor32Assoc(a, ONES, b);
    Xor32Laws(ONES, b);
    Xor32Assoc(a, b, ONES);
  }

  // What a checksum is.

  /** The generator polynomial in its usual order. */
  const GENERATOR_EXPONENTS: seq<nat> := [32, 26, 23, 22, 16, 12, 11, 10, 8, 7, 5, 4, 2, 1, 0]

  function Generator(): nat {
    FromExponents(GENERATOR_EXPONENTS)
  }

  /** The message as a polynomial: the first byte has the highest powers, and in a byte the lowest bit has. */
  function Message(data: seq<Byte>): nat {
    if data == [] then 0 else Xor(Raise(Mirror(8, data[0]), 8 * (|data| - 1)), Message(data[1..]))
  }

  /** The message times x^32, with its first 32 bits inverted. */
  function Preset(data: seq<Byte>): nat {
    Xor(Raise(Pow2(32) - 1, 8 * |data|), Raise(Message(data), 32))
  }

  lemma LowExponents()
    ensures FromExponents([8, 7, 5, 4, 2, 1, 0]) == 0x1B7
  {
  }

  lemma MiddleExponents()
    ensures FromExponents([16, 12, 11, 10, 8, 7, 5, 4, 2, 1, 0]) == 0x1_1DB7
  {
    LowExponents();
    var s: seq<nat> := [16, 12, 11, 10, 8, 7, 5, 4, 2, 1, 0];
    assert s[1..][1..][1..][1..] == [8, 7, 5, 4, 2, 1, 0];
    Pow2Values();
  }

  lemma UpperExponents()
    ensures FromExponents([26, 23, 22, 16, 12, 11, 10, 8, 7, 5, 4, 2, 1, 0]) == 0x4C1_1DB7
  {
    MiddleExponents();
    Pow2Values();
    UpperPowers();
    hide Pow2;
    var s: seq<nat> := [26, 23, 22, 16, 12, 11, 10, 8, 7, 5, 4, 2, 1, 0];
    assert s[1..][1..][1..] == [16, 12, 11, 10, 8, 7, 5, 4, 2, 1, 0];
  }

  lemma UpperPowers()
    ensures Pow2(26) == 0x400_0000 && Pow2(23) == 0x80_0000 && Pow2(22) == 0x40_0000
  {
    Pow2Values();
    assert Pow2(26) == 4 * Pow2(24) && Pow2(24) == 2 * Pow2(23) && Pow2(23) == 2 * Pow2(22);
  }

  lemma GeneratorValue()
    ensures Generator() == 0x1_04C1_1DB7
    ensures Pow2(32) <= Generator() < Pow2(33)
  {
    UpperExponents();
    Pow2Values();
    assert Pow2(33) == 2 * Pow2(32);
    assert GENERATOR_EXPONENTS[1..] == [26, 23, 22, 16, 12, 11, 10, 8, 7, 5, 4, 2, 1, 0];
    assert Generator() == Pow2(32) + FromExponents([26, 23, 22, 16, 12, 11, 10, 8, 7, 5, 4, 2, 1, 0]);
    hide Pow2, FromExponents, Generator;
  }

  /** The constant is the generator without x^32, in reverse. */
  lemma ReversedGenerator()
    ensures Mirror(32, REVERSED_POLYNOMIAL) + Pow2(32) == Generator()
  {
    GeneratorValue();
    Pow2Values();
    MirroredBytes();
    MirrorParts(8, 8, 0xB8, 0xED);
    MirrorParts(8, 16, 0x83, 0xEDB8);
    MirrorParts(8, 24, 0x20, 0xED_B883);
    hide Pow2, Mirror, Generator;
  }

  lemma MirroredBytes()
    ensures Mirror(8, 0x20) == 0x04 && Mirror(8, 0x83) == 0xC1 && Mirror(8, 0xB8) == 0x1D && Mirror(8, 0xED) == 0xB7
  {
    MirroredNibbles();
    Pow2Values();
    MirrorParts(4, 4, 0x0, 0x2);
    MirrorParts(4, 4, 0x3, 0x8);
    MirrorParts(4, 4, 0x8, 0xB);
    MirrorParts(4, 4, 0xD, 0xE);
    hide Pow2, Mirror;
  }

  lemma MirroredNibbles()
    ensures Mirror(4, 0x0) == 0x0 && Mirror(4, 0x2) == 0x4 && Mirror(4, 0x3) == 0xC && Mirror(4, 0x8) == 0x1
    ensures Mirror(4, 0xB) == 0xD && Mirror(4, 0xD) == 0xB && Mirror(4, 0xE) == 0x7
  {
  }

  /** A shift of the reversed register is a multiplication by x. */
  lemma ShiftBitTimesX(s: U32)
    ensures Congruent(Mirror(32, ShiftBit(s)), Raise(Mirror(32, s), 1), Generator())
  {
    hide Xor, Generator, Congruent, Mirror;
    Pow2Values();
    assert Pow2(1) == 2;
    var half := Mirror(32, s / 2);
    MirrorHalf(s);
    ReversedGenerator();
    if s % 2 == 1 {
      var low := Mirror(32, REVERSED_POLYNOMIAL);
      MirrorXor(32, s / 2, REVERSED_POLYNOMIAL);
      MirrorBound(32, s / 2);
      MirrorBound(32, REVERSED_POLYNOMIAL);
      ReduceTop(half, low);
      CongruentModulus(2 * Mirror(32, s), Generator());
    } else {
      Same(half, Generator());
    }
  }

  lemma MirrorHalf(s: U32)
    ensures 2 * Mirror(32, s) == (if s % 2 == 1 then Pow2(32) else 0) + Mirror(32, s / 2)
  {
    Pow2Values();
    MirrorLonger(31, s / 2);
    assert Pow2(32) == 2 * Pow2(31);
    hide Pow2;
  }

  lemma ReduceTop(half: nat, low: nat)
    requires half < Pow2(32) && low < Pow2(32)
    ensures Xor(Pow2(32) + half, low + Pow2(32)) == Xor(half, low)
  {
    hide Xor, Pow2;
    XorParts(Pow2(32) + half, half, 1, low + Pow2(32), low, 1, 32);
    XorSelf(1);
  }

  lemma ShiftByteTimesX8(s: U32)
    ensures Congruent(Mirror(32, ShiftByte(s)), Raise(Mirror(32, s), 8), Generator())
  {
    hide *;
    var s4 := ShiftFour(s);
    var t := ShiftFour(s4);
    EightShifts(s);
    ShiftFourTimesX4(s);
    ShiftFourTimesX4(s4);
    CongruentChain(Mirror(32, t), Mirror(32, s4), Mirror(32, s), Generator(), 4, 4);
  }

  function ShiftFour(s: U32): U32 {
    ShiftBit(ShiftBit(ShiftBit(ShiftBit(s))))
  }

  lemma EightShifts(s: U32)
    ensures ShiftByte(s) == ShiftFour(ShiftFour(s))
  {
    hide ShiftBit;
  }

  lemma ShiftFourTimesX4(s: U32)
    ensures Congruent(Mirror(32, ShiftFour(s)), Raise(Mirror(32, s), 4), Generator())
  {
    hide ShiftBit, Mirror, Congruent, Generator, Pow2;
    var s1 := ShiftBit(s);
    var s2 := ShiftBit(s1);
    var s3 := ShiftBit(s2);
    var s4 := ShiftBit(s3);
    ShiftBitTimesX(s);
    ShiftBitTimesX(s1);
    ShiftBitTimesX(s2);
    ShiftBitTimesX(s3);
    CongruentChain(Mirror(32, s2), Mirror(32, s1), Mirror(32, s), Generator(), 1, 1);
    CongruentChain(Mirror(32, s3), Mirror(32, s2), Mirror(32, s), Generator(), 2, 1);
    CongruentChain(Mirror(32, s4), Mirror(32, s3), Mirror(32, s), Generator(), 3, 1);
  }

  /** Feeding a byte: the register goes up by x^8 and the byte comes in at x^32. */
  lemma FeedTimesX8(s: U32, b: Byte)
    ensures Congruent(Mirror(32, Feed(s, b)), Xor(Raise(Mirror(32, s), 8), Raise(Mirror(8, b), 32)), Generator())
  {
    hide Feed, ShiftByte, Mirror, Congruent, Generator, Pow2, Xor, Raise;
    FeedIsShift(s, b);
    ShiftByteTimesX8(Xor32(s, b));
    MirrorXor(32, s, b);
    BytePadded(b);
    RaiseTwice(Mirror(8, b), 24, 8);
    RaiseXor(Mirror(32, s), Raise(Mirror(8, b), 24), 8);
  }

  lemma BytePadded(b: Byte)
    ensures Mirror(32, b) == Raise(Mirror(8, b), 24)
  {
    hide Mirror, Raise;
    Pow2Values();
    MirrorPadded(8, 24, b);
  }

  /** What a register and the bytes to come are congruent to in the end. */
  function Ahead(r: nat, data: seq<Byte>): nat {
    Xor(Raise(r, 8 * |data|), Raise(Message(data), 32))
  }

  lemma {:induction false} FeedAllIs(s: U32, data: seq<Byte>)
    ensures Congruent(Mirror(32, FeedAll(s, data)), Ahead(Mirror(32, s), data), Generator())
    decreases data
  {
    hide Feed, Mirror, Congruent, Generator, Xor, Raise, Ahead;
    if data == [] {
      FedNothing(s);
    } else {
      var next, b, rest := Feed(s, data[0]), data[0], data[1..];
      FeedAllIs(next, rest);
      FeedTimesX8(s, b);
      FedMore(Mirror(32, next), Mirror(32, s), data);
      CongruentTrans(Mirror(32, FeedAll(s, data)), Ahead(Mirror(32, next), rest), Ahead(Mirror(32, s), data),
                     Generator());
    }
  }

  lemma FedNothing(s: U32)
    ensures Congruent(Mirror(32, s), Ahead(Mirror(32, s), []), Generator())
  {
    hide Mirror, Congruent, Generator;
    XorZero(Mirror(32, s));
    Same(Mirror(32, s), Generator());
  }

  lemma FedMore(next: nat, r: nat, data: seq<Byte>)
    requires data != []
    requires Congruent(next, Xor(Raise(r, 8), Raise(Mirror(8, data[0]), 32)), Generator())
    ensures Congruent(Ahead(next, data[1..]), Ahead(r, data), Generator())
  {
    hide Mirror, Congruent, Generator, Xor, Raise, Pow2;
    var b, m, n := Mirror(8, data[0]), Message(data[1..]), 8 * (|data| - 1);
    CongruentRaise(next, Xor(Raise(r, 8), Raise(b, 32)), Generator(), n);
    Same(Raise(m, 32), Generator());
    CongruentXor(Raise(next, n), Raise(Xor(Raise(r, 8), Raise(b, 32)), n), Raise(m, 32), Raise(m, 32), Generator());
    FedSum(r, b, m, n);
  }

  lemma FedSum(r: nat, b: nat, m: nat, n: nat)
    ensures Xor(Raise(Xor(Raise(r, 8), Raise(b, 32)), n), Raise(m, 32))
            == Xor(Raise(r, 8 + n), Raise(Xor(Raise(b, n), m), 32))
  {
    hide *;
    RaiseXor(Raise(r, 8), Raise(b, 32), n);
    RaiseXor(Raise(b, n), m, 32);
    RaiseTwice(r, 8, n);
    RaiseTwice(b, 32, n);
    RaiseTwice(b, n, 32);
    XorAssoc(Raise(r, 8 + n), Raise(b, n + 32), Raise(m, 32));
  }

  /**
    A checksum is what CRC-32 prescribes, and nothing else is: inverted and read in reverse, it is the remainder of the
    preset message on division by the generator.
   */
  lemma ChecksumIff(data: seq<Byte>, c: U32)
    ensures c == Checksum(data) <==> IsRemainder(Preset(data), Generator(), 32, Mirror(32, Complement(c)))
  {
    hide FeedAll, Mirror, Congruent, Generator, Pow2, Xor, Message, Raise;
    GeneratorValue();
    Pow2Values();
    FeedAllIs(ONES, data);
    MirrorOnes(32);
    MirrorBound(32, FeedAll(ONES, data));
    ComplementTwice(FeedAll(ONES, data));
    if IsRemainder(Preset(data), Generator(), 32, Mirror(32, Complement(c))) {
      RemainderUnique(Preset(data), Generator(), 32, Mirror(32, Complement(c)), Mirror(32, FeedAll(ONES, data)));
      MirrorInjective(32, Complement(c), FeedAll(ONES, data));
    }
  }
}
