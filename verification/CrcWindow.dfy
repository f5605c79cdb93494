/**
  The rolling checksum of par2/checksummer.go: a table that takes the byte leaving a window out of its checksum, so
  that moving the window by one byte costs two table lookups.
 */
module CrcWindow {
  import opened Wrappers
  import opened Bits
  import opened Crc32

  /** The checksum of a zero-filled window and one more byte, with b in front. */
  function Leading(b: Byte, windowSize: nat): U32 {
    Checksum([b] + Zeros(windowSize))
  }

  /** What has to be added to the checksum of the window and the next byte to take out the leading byte b. */
  function Mask(b: Byte, windowSize: nat): U32 {
    Xor32(Leading(b, windowSize), Checksum(Zeros(windowSize)))
  }

  datatype Window = Window(windowSize: nat, maskedTable: seq<U32>) {

    ghost predicate Valid() {
      |maskedTable| == 256 && forall b :: 0 <= b < 256 ==> maskedTable[b] == Mask(b, windowSize)
    }

    /** Rolls the window: oldLeader leaves at the front and newTrailer enters at the back. */
    function Update(crc: U32, oldLeader: Byte, newTrailer: Byte): U32
      requires Valid()
    {
      var t := Complement(crc);
      XorByteBound(t % 256, newTrailer);
      var next := Xor32(TableAt(Xor(t % 256, newTrailer)), t / 256);
      Xor32(Complement(next), maskedTable[oldLeader])
    }
  }

  lemma LeadingIs(b: Byte, windowSize: nat)
    ensures Leading(b, windowSize) == Complement(FeedAll(Feed(ONES, b), Zeros(windowSize)))
  {
    hide Feed;
    var d := [b] + Zeros(windowSize);
    assert d[1..] == Zeros(windowSize);
  }

  lemma MaskIs(b: Byte, windowSize: nat)
    ensures Mask(b, windowSize) == FeedAll(Xor32(Feed(ONES, b), ONES), Zeros(windowSize))
  {
    hide Feed, Xor32, Complement;
    LeadingIs(b, windowSize);
    FeedAllDifference(Feed(ONES, b), ONES, Zeros(windowSize));
    ComplementDifference(FeedAll(Feed(ONES, b), Zeros(windowSize)), FeedAll(ONES, Zeros(windowSize)));
  }

  /** Rolling is exact: the updated value is the checksum of the window one byte further on. */
  lemma RollingIsExact(w: Window, data: seq<Byte>, x: Byte)
    requires w.Valid() && |data| == w.windowSize > 0
    ensures w.Update(Checksum(data), data[0], x) == Checksum(data[1..] + [x])
  {
    hide Feed, Xor32, Complement, TableAt;
    var b, rest := data[0], data[1..] + [x];
    assert [b] + rest == data + [x];
    ComplementTwice(FeedAll(ONES, data));
    FeedAllConcat(ONES, data, [x]);
    FeedOne(FeedAll(ONES, data), x);
    FeedAllConcat(ONES, [b], rest);
    FeedOne(ONES, b);
    var longer, shorter := FeedAll(Feed(ONES, b), rest), FeedAll(ONES, rest);
    FeedAllDifference(Feed(ONES, b), ONES, rest);
    MaskIs(b, w.windowSize);
    var mask := Mask(b, w.windowSize);
    UpdateIs(w, Checksum(data), b, x);
    ComplementDifference(longer, mask);
    Xor32Laws(longer, shorter);
  }

  /** The update feeds the new byte to the register and adds the mask of the old one. */
  lemma UpdateIs(w: Window, crc: U32, oldLeader: Byte, newTrailer: Byte)
    requires w.Valid()
    ensures w.Update(crc, oldLeader, newTrailer)
            == Xor32(Complement(Feed(Complement(crc), newTrailer)), Mask(oldLeader, w.windowSize))
  {
  }

  // Building the table.

  /** 255, three zeros and 255 leave the register in the state that four zeros do. */
  lemma FourBytes()
    ensures FeedAll(ONES, [255, 0, 0, 0, 255]) == FeedAll(ONES, [0, 0, 0, 0])
  {
    hide Feed, ShiftByte, Xor32;
    var s1 := Feed(ONES, 255);
    OnesAndByte();
    FeedIsShift(ONES, 255);
    ShiftByteExact(0x00FF_FFFF);
    // On the right the register starts with its high byte set as well; it comes out as the byte 255 three steps on.
    var high: U32 := 0xFF00_0000;
    ShiftByteExact(0x00FF_0000);
    ShiftByteExact(0x0000_FF00);
    ShiftByteExact(0x0000_00FF);
    var l1, l2, l3 := ShiftByte(s1), ShiftByte(ShiftByte(s1)), ShiftByte(ShiftByte(ShiftByte(s1)));
    HighByteJoins();
    ShiftByteLinear(s1, high);
    ShiftByteLinear(l1, 0x00FF_0000);
    ShiftByteLinear(l2, 0x0000_FF00);
    FeedIsShift(s1, 0);
    FeedIsShift(l1, 0);
    FeedIsShift(l2, 0);
    FeedIsShift(l3, 255);
    Xor32Laws(s1, 0);
    Xor32Laws(l1, 0);
    Xor32Laws(l2, 0);
    var r0: U32 := ONES;
    var r1, r2, r3 := ShiftByte(r0), ShiftByte(ShiftByte(r0)), ShiftByte(ShiftByte(ShiftByte(r0)));
    FeedIsShift(r0, 0);
    FeedIsShift(r1, 0);
    FeedIsShift(r2, 0);
    FeedIsShift(r3, 0);
    Xor32Laws(r0, 0);
    Xor32Laws(r1, 0);
    Xor32Laws(r2, 0);
    Xor32Laws(r3, 0);
    FeedFive(ONES, 255, 0, 0, 0, 255);
    FeedFour(ONES, 0, 0, 0, 0);
  }

  lemma OnesAndByte()
    ensures Xor32(ONES, 255) == 0xFFFF_FF00
  {
    Pow2Values();
    XorParts(ONES, 255, 0xFF_FFFF, 255, 255, 0, 8);
    XorSelf(255);
    XorZero(0xFF_FFFF);
  }

  lemma HighByteJoins()
    ensures Xor32(0x00FF_FFFF, 0xFF00_0000) == ONES
  {
    Pow2Values();
    XorDisjoint(0x00FF_FFFF, 0xFF, 24);
  }

  lemma FeedFour(s: U32, a: Byte, b: Byte, c: Byte, d: Byte)
    ensures FeedAll(s, [a, b, c, d]) == Feed(Feed(Feed(Feed(s, a), b), c), d)
  {
    hide Feed;
    assert [a, b, c, d][1..] == [b, c, d];
    assert [b, c, d][1..] == [c, d];
    assert [c, d][1..] == [d];
    FeedOne(Feed(Feed(Feed(s, a), b), c), d);
    assert FeedAll(Feed(s, a), [b, c, d]) == FeedAll(Feed(Feed(s, a), b), [c, d]);
    assert FeedAll(Feed(Feed(s, a), b), [c, d]) == FeedAll(Feed(Feed(Feed(s, a), b), c), [d]);
  }

  lemma FeedFive(s: U32, a: Byte, b: Byte, c: Byte, d: Byte, e: Byte)
    ensures FeedAll(s, [a, b, c, d, e]) == Feed(Feed(Feed(Feed(Feed(s, a), b), c), d), e)
  {
    hide Feed;
    assert [a, b, c, d, e][1..] == [b, c, d, e];
    FeedFour(Feed(s, a), b, c, d, e);
  }

  /** The buffer with 255 at positions 0 and 4 has the checksum of a zero-filled window. */
  lemma WindowMask(windowSize: nat)
    requires windowSize >= 4
    ensures Checksum([255, 0, 0, 0, 255] + Zeros(windowSize - 4)) == Checksum(Zeros(windowSize))
  {
    hide Feed, FeedAll;
    FourBytes();
    FeedAllConcat(ONES, [255, 0, 0, 0, 255], Zeros(windowSize - 4));
    FeedAllConcat(ONES, [0, 0, 0, 0], Zeros(windowSize - 4));
    assert [0, 0, 0, 0] + Zeros(windowSize - 4) == Zeros(windowSize);
  }

  /** Checksums of equally long messages are affine: three of them add up to the fourth. */
  lemma LeadingAffine(a: Byte, b: Byte, windowSize: nat)
    ensures Xor(a, b) < 256
    ensures Leading(Xor(a, b), windowSize)
            == Xor32(Xor32(Leading(a, windowSize), Leading(b, windowSize)), Leading(0, windowSize))
  {
    XorByteBound(a, b);
    hide Feed, Xor32, Complement;
    var z := Zeros(windowSize);
    var c: Byte := Xor(a, b);
    LeadingIs(a, windowSize);
    LeadingIs(b, windowSize);
    LeadingIs(c, windowSize);
    LeadingIs(0, windowSize);
    var fa, fb, fc, f0 := FeedAll(Feed(ONES, a), z), FeedAll(Feed(ONES, b), z), FeedAll(Feed(ONES, c), z),
      FeedAll(Feed(ONES, 0), z);
    FeedDifference(a, b);
    FeedAllDifference(Feed(ONES, c), Feed(ONES, a), z);
    FeedAllDifference(Feed(ONES, b), Feed(ONES, 0), z);
    Rearrange(fa, fb, fc, f0);
  }

  lemma FeedDifference(a: Byte, b: Byte)
    ensures Xor(a, b) < 256
    ensures Xor32(Feed(ONES, Xor(a, b)), Feed(ONES, a)) == Xor32(Feed(ONES, b), Feed(ONES, 0))
  {
    XorByteBound(a, b);
    FeedLinear(ONES, ONES, Xor(a, b), a);
    FeedLinear(ONES, ONES, b, 0);
    XorCancel(b, a);
    XorComm(a, b);
    XorZero(b);
  }

  lemma Rearrange(fa: U32, fb: U32, fc: U32, f0: U32)
    requires Xor32(fc, fa) == Xor32(fb, f0)
    ensures Complement(fc) == Xor32(Xor32(Complement(fa), Complement(fb)), Complement(f0))
  {
    hide Complement, Xor32;
    ComplementDifference(fa, fb);
    ComplementDifference(f0, Xor32(fa, fb));
    Xor32Laws(Xor32(fa, fb), Complement(f0));
    Xor32Laws(fc, fa);
    Xor32Laws(fa, Xor32(fb, f0));
    Xor32Assoc(fa, fb, f0);
    Xor32Laws(f0, Xor32(fa, fb));
    Xor32Laws(fa, fc);
  }

  /** Whether bit j of i is set. */
  predicate HasBit(i: nat, j: nat) {
    Shr(i, j) % 2 == 1
  }

  lemma NextLowBit(i: nat, j: nat)
    ensures Low(i, j + 1) == if HasBit(i, j) then Xor(Low(i, j), Pow2(j)) else Low(i, j)
    ensures HasBit(i, j) ==> Low(i, j + 1) == Low(i, j) + Pow2(j)
  {
    hide Xor;
    var p := Pow2(j);
    DivModSum(i, p);
    var q := i / p;
    assert q == 2 * (q / 2) + q % 2;
    LowSplit(i, p, q);
    XorDisjoint(Low(i, j), 1, j);
  }

  lemma LowSplit(i: nat, p: nat, q: nat)
    requires p > 0 && q == i / p
    ensures i % (2 * p) == i % p + q % 2 * p
  {
    DivModSum(i, p);
    var h, b := q / 2, q % 2;
    assert q == 2 * h + b;
    assert q * p == h * (2 * p) + b * p;
    SmallProduct(b, p);
    DivMod(i % p + b * p, h, 2 * p);
  }

  lemma SmallProduct(b: nat, p: nat)
    requires b < 2
    ensures 0 <= b * p <= p
  {
  }

  /**
    The checksum contribution of one byte value: the contributions of its bits added up, and the checksum of zeros
    added when their number is even.
   */
  method ByteContribution(i: Byte, base: seq<U32>, crc0: U32, windowSize: nat) returns (crc: U32)
    requires |base| == 8 && (forall j :: 0 <= j < 8 ==> Pow2(j) < 256 && base[j] == Leading(Pow2(j), windowSize))
    requires crc0 == Leading(0, windowSize)
    ensures crc == Leading(i, windowSize)
  {
    hide Xor32, Leading, Low, HasBit;
    crc := 0;
    var crcCount := 0;
    Xor32Laws(crc0, 0);
    assert Low(i, 0) == 0 by { LowOfNone(i); }
    for j := 0 to 8
      invariant Low(i, j) < 256
      invariant crc == if crcCount % 2 == 1 then Leading(Low(i, j), windowSize)
                       else Xor32(Leading(Low(i, j), windowSize), crc0)
    {
      NextLowBit(i, j);
      if HasBit(i, j) {
        var low: Byte := Low(i, j);
        assert Pow2(j) < 256;
        LeadingAffine(low, Pow2(j), windowSize);
        AddContribution(Leading(low, windowSize), base[j], crc0);
        crc := Xor32(crc, base[j]);
        crcCount := crcCount + 1;
      }
    }
    assert Low(i, 8) == i by { LowOfByte(i); }
    if crcCount % 2 == 0 {
      Xor32Laws(Leading(i, windowSize), crc0);
      crc := Xor32(crc, crc0);
    }
  }

  lemma AddContribution(low: U32, bit: U32, crc0: U32)
    ensures Xor32(low, bit) == Xor32(Xor32(Xor32(low, bit), crc0), crc0)
    ensures Xor32(Xor32(low, crc0), bit) == Xor32(Xor32(low, bit), crc0)
  {
    hide Xor32;
    Xor32Laws(Xor32(low, bit), crc0);
    Xor32Assoc(low, crc0, bit);
    Xor32Laws(crc0, bit);
    Xor32Assoc(low, bit, crc0);
  }

  lemma LowOfNone(i: nat)
    ensures Low(i, 0) == 0
  {
  }

  lemma LowOfByte(i: Byte)
    ensures Low(i, 8) == i
  {
    Pow2Values();
  }

  lemma BitValues(j: nat)
    requires j < 8
    ensures Pow2(j) < 256
  {
    Pow2Grows(j + 1, 8);
    Pow2Values();
  }

  /** The checksums of the buffer with nothing set, and with the window mask set. */
  method WindowConstants(a: array<Byte>, windowSize: nat) returns (crc0: U32, crcWindowMask: U32)
    requires a.Length == windowSize + 1 && windowSize >= 4 && forall i :: 0 <= i < a.Length ==> a[i] == 0
    modifies a
    ensures crc0 == Leading(0, windowSize) && crcWindowMask == Checksum(Zeros(windowSize))
    ensures a[1..] == Zeros(windowSize)
  {
    hide Checksum;
    assert a[..] == [0] + Zeros(windowSize);
    crc0 := Checksum(a[..]);
    a[0] := 255;
    a[4] := 255;
    assert a[..] == [255, 0, 0, 0, 255] + Zeros(windowSize - 4);
    crcWindowMask := Checksum(a[..]);
    WindowMask(windowSize);
    a[4] := 0;
  }

  /** The checksums of the buffer with a single bit of its first byte set. */
  method BaseTable(a: array<Byte>, windowSize: nat) returns (base: seq<U32>)
    requires a.Length == windowSize + 1 && a[1..] == Zeros(windowSize)
    modifies a
    ensures |base| == 8 && forall j :: 0 <= j < 8 ==> Pow2(j) < 256 && base[j] == Leading(Pow2(j), windowSize)
  {
    hide Checksum, Pow2;
    base := [];
    for i := 0 to 8
      invariant |base| == i && forall j :: 0 <= j < i ==> Pow2(j) < 256 && base[j] == Leading(Pow2(j), windowSize)
      invariant a[1..] == Zeros(windowSize)
    {
      BitValues(i);
      a[0] := Pow2(i);
      assert a[..] == [a[0]] + a[1..];
      base := base + [Checksum(a[..])];
    }
  }

  /** newCRC32Window */
  method NewWindow(windowSize: int) returns (w: Option<Window>)
    ensures w.None? <==> windowSize < 4
    ensures w.Some? ==> w.value.Valid() && w.value.windowSize == windowSize
  {
    if windowSize < 4 {
      return None;
    }
    hide Xor32, Checksum, Leading, Zeros;
    var a := new Byte[windowSize + 1](_ => 0);
    var crc0, crcWindowMask := WindowConstants(a, windowSize);
    var base := BaseTable(a, windowSize);
    var masked := MaskedTable(base, crc0, crcWindowMask, windowSize);
    w := Some(Window(windowSize, masked));
  }

  method MaskedTable(base: seq<U32>, crc0: U32, crcWindowMask: U32, windowSize: nat) returns (masked: seq<U32>)
    requires |base| == 8 && forall j :: 0 <= j < 8 ==> Pow2(j) < 256 && base[j] == Leading(Pow2(j), windowSize)
    requires crc0 == Leading(0, windowSize) && crcWindowMask == Checksum(Zeros(windowSize))
    ensures |masked| == 256 && forall b :: 0 <= b < 256 ==> masked[b] == Mask(b, windowSize)
  {
    hide Xor32, Checksum, Leading, Zeros, Pow2;
    masked := [Xor32(crc0, crcWindowMask)];
    for i := 1 to 256
      invariant |masked| == i && forall b :: 0 <= b < i ==> masked[b] == Mask(b, windowSize)
    {
      var crc := ByteContribution(i, base, crc0, windowSize);
      masked := masked + [Xor32(crc, crcWindowMask)];
    }
  }
}
