/**
  Field constants. Products of given field elements are computed on 16-bit vectors, which the verifier evaluates
  directly; Num relates a bit-vector to the word it stands for, and the lemmas here show that the two agree.
 */
module Eval {
  import opened Bits
  import opened Field

  type Word = bv16

  function Bit(w: Word, mask: Word): (b: nat)
    ensures b <= 1
  {
    if w & mask == 0 then 0 else 1
  }

  function Num(w: Word): T {
    Bit(w, 0x1) + 2 * Bit(w, 0x2) + 4 * Bit(w, 0x4) + 8 * Bit(w, 0x8)
    + 0x10 * Bit(w, 0x10) + 0x20 * Bit(w, 0x20) + 0x40 * Bit(w, 0x40) + 0x80 * Bit(w, 0x80)
    + 0x100 * Bit(w, 0x100) + 0x200 * Bit(w, 0x200) + 0x400 * Bit(w, 0x400) + 0x800 * Bit(w, 0x800)
    + 0x1000 * Bit(w, 0x1000) + 0x2000 * Bit(w, 0x2000) + 0x4000 * Bit(w, 0x4000) + 0x8000 * Bit(w, 0x8000)
  }

  lemma BitHalf(w: Word, mask: Word)
    requires mask < 0x8000
    ensures Bit(w >> 1, mask) == Bit(w, mask << 1)
  {
  }

  lemma BitDouble(w: Word, mask: Word)
    requires mask < 0x8000
    ensures Bit(w << 1, mask << 1) == Bit(w, mask)
  {
  }

  lemma BitEnds(w: Word)
    ensures Bit(w >> 1, 0x8000) == 0 && Bit(w << 1, 1) == 0
  {
  }

  lemma BitsHalf(w: Word)
    ensures Bit(w >> 1, 0x1) == Bit(w, 0x2)
    ensures Bit(w >> 1, 0x2) == Bit(w, 0x4)
    ensures Bit(w >> 1, 0x4) == Bit(w, 0x8)
    ensures Bit(w >> 1, 0x8) == Bit(w, 0x10)
    ensures Bit(w >> 1, 0x10) == Bit(w, 0x20)
    ensures Bit(w >> 1, 0x20) == Bit(w, 0x40)
    ensures Bit(w >> 1, 0x40) == Bit(w, 0x80)
    ensures Bit(w >> 1, 0x80) == Bit(w, 0x100)
    ensures Bit(w >> 1, 0x100) == Bit(w, 0x200)
    ensures Bit(w >> 1, 0x200) == Bit(w, 0x400)
    ensures Bit(w >> 1, 0x400) == Bit(w, 0x800)
    ensures Bit(w >> 1, 0x800) == Bit(w, 0x1000)
    ensures Bit(w >> 1, 0x1000) == Bit(w, 0x2000)
    ensures Bit(w >> 1, 0x2000) == Bit(w, 0x4000)
    ensures Bit(w >> 1, 0x4000) == Bit(w, 0x8000)
    ensures Bit(w >> 1, 0x8000) == 0
  {
    hide Bit;
    BitEnds(w);
    BitHalf(w, 0x1);
    BitHalf(w, 0x2);
    BitHalf(w, 0x4);
    BitHalf(w, 0x8);
    BitHalf(w, 0x10);
    BitHalf(w, 0x20);
    BitHalf(w, 0x40);
    BitHalf(w, 0x80);
    BitHalf(w, 0x100);
    BitHalf(w, 0x200);
    BitHalf(w, 0x400);
    BitHalf(w, 0x800);
    BitHalf(w, 0x1000);
    BitHalf(w, 0x2000);
    BitHalf(w, 0x4000);
  }

  lemma BitsDouble(w: Word)
    ensures Bit(w << 1, 0x1) == 0
    ensures Bit(w << 1, 0x2) == Bit(w, 0x1)
    ensures Bit(w << 1, 0x4) == Bit(w, 0x2)
    ensures Bit(w << 1, 0x8) == Bit(w, 0x4)
    ensures Bit(w << 1, 0x10) == Bit(w, 0x8)
    ensures Bit(w << 1, 0x20) == Bit(w, 0x10)
    ensures Bit(w << 1, 0x40) == Bit(w, 0x20)
    ensures Bit(w << 1, 0x80) == Bit(w, 0x40)
    ensures Bit(w << 1, 0x100) == Bit(w, 0x80)
    ensures Bit(w << 1, 0x200) == Bit(w, 0x100)
    ensures Bit(w << 1, 0x400) == Bit(w, 0x200)
    ensures Bit(w << 1, 0x800) == Bit(w, 0x400)
    ensures Bit(w << 1, 0x1000) == Bit(w, 0x800)
    ensures Bit(w << 1, 0x2000) == Bit(w, 0x1000)
    ensures Bit(w << 1, 0x4000) == Bit(w, 0x2000)
    ensures Bit(w << 1, 0x8000) == Bit(w, 0x4000)
  {
    hide Bit;
    BitEnds(w);
    BitDouble(w, 0x1);
    BitDouble(w, 0x2);
    BitDouble(w, 0x4);
    BitDouble(w, 0x8);
    BitDouble(w, 0x10);
    BitDouble(w, 0x20);
    BitDouble(w, 0x40);
    BitDouble(w, 0x80);
    BitDouble(w, 0x100);
    BitDouble(w, 0x200);
    BitDouble(w, 0x400);
    BitDouble(w, 0x800);
    BitDouble(w, 0x1000);
    BitDouble(w, 0x2000);
    BitDouble(w, 0x4000);
  }

  lemma NumHalf(w: Word)
    ensures Num(w) % 2 == Bit(w, 1) && Num(w) / 2 == Num(HalfWord(w))
  {
    NumEven(w);
    hide Num, Bit;
    Double(Bit(w, 1), Num(HalfWord(w)));
  }

  lemma NumEven(w: Word)
    ensures Num(w) == Bit(w, 1) + 2 * Num(HalfWord(w))
  {
    BitsHalf(w);
    hide Bit;
  }

  lemma NumDouble(w: Word)
    ensures Num(w << 1) == 2 * Num(w) - 0x10000 * Bit(w, 0x8000)
  {
    BitsDouble(w);
    hide Bit;
  }

  function XorWord(v: Word, w: Word): Word {
    v ^ w
  }

  function HalfWord(w: Word): Word {
    w >> 1
  }

  lemma {:induction false} NumXor(v: Word, w: Word)
    ensures Num(XorWord(v, w)) == Add(Num(v), Num(w))
    decreases v | w
  {
    hide *;
    ZeroXor(v, w);
    NumOfZero();
    AddZero(Num(v));
    AddZero(Num(w));
    if v == 0 || w == 0 {
    } else {
      ShiftXor(v, w);
      HalfDecreases(v, w);
      NumXor(HalfWord(v), HalfWord(w));
      NumHalf(v);
      NumHalf(w);
      NumHalf(XorWord(v, w));
      AddStep(Num(v), Num(w));
      BitXor(v, w);
      SameHalves(Num(XorWord(v, w)), Add(Num(v), Num(w)));
    }
  }

  lemma AddStep(a: T, b: T)
    ensures Add(a, b) % 2 == if a % 2 == b % 2 then 0 else 1
    ensures Add(a, b) / 2 == Add(a / 2, b / 2)
  {
    XorStep(a, b);
  }

  lemma SameHalves(a: nat, b: nat)
    requires a % 2 == b % 2 && a / 2 == b / 2
    ensures a == b
  {
  }

  lemma NumOfZero()
    ensures Num(0) == 0
  {
  }

  lemma ZeroXor(v: Word, w: Word)
    ensures v == 0 ==> XorWord(v, w) == w
    ensures w == 0 ==> XorWord(v, w) == v
  {
  }

  lemma ShiftXor(v: Word, w: Word)
    ensures HalfWord(XorWord(v, w)) == XorWord(HalfWord(v), HalfWord(w))
  {
  }

  lemma OrHalf(v: Word, w: Word)
    requires v != 0
    ensures (v >> 1) | (w >> 1) < v | w
  {
    assert (v >> 1) | (w >> 1) == (v | w) >> 1;
  }

  lemma HalfDecreases(v: Word, w: Word)
    requires v != 0
    ensures HalfWord(v) | HalfWord(w) < v | w
  {
    OrHalf(v, w);
  }

  lemma BitXor(v: Word, w: Word)
    ensures Bit(XorWord(v, w), 1) == if Bit(v, 1) == Bit(w, 1) then 0 else 1
  {
    assert (v ^ w) & 1 == (v & 1) ^ (w & 1);
    assert v & 1 == 0 || v & 1 == 1;
    assert w & 1 == 0 || w & 1 == 1;
  }

  // Multiplication in bit operations alone: a word times x, x^2, x^3 and x^4. The polynomial 0x1100B has its lower
  // bits at 12, 3, 1 and 0, where the bits that leave the word at the top come back.

  function By1(a: Word): Word {
    (a << 1) ^ ((a >> 15) << 12) ^ ((a >> 15) << 3) ^ ((a >> 15) << 1) ^ (a >> 15)
  }

  function By2(a: Word): Word {
    (a << 2) ^ ((a >> 14) << 12) ^ ((a >> 14) << 3) ^ ((a >> 14) << 1) ^ (a >> 14)
  }

  function By3(a: Word): Word {
    (a << 3) ^ ((a >> 13) << 12) ^ ((a >> 13) << 3) ^ ((a >> 13) << 1) ^ (a >> 13)
  }

  function By4(a: Word): Word {
    (a << 4) ^ ((a >> 12) << 12) ^ ((a >> 12) << 3) ^ ((a >> 12) << 1) ^ (a >> 12)
  }

  /** The word a if b is odd, and 0 otherwise. */
  function Masked(a: Word, b: Word): Word {
    a & (0 - (b & 1))
  }

  function XorAll(p: Word, p1: Word, p2: Word, p3: Word): Word {
    XorWord(XorWord(XorWord(p, p1), p2), p3)
  }

  /** One step of a multiplication: a times x^4 is next, and a times the lowest four bits of b is p. */
  predicate Four(a: Word, b: Word, next: Word, p: Word) {
    && next == By4(a)
    && p == XorAll(Masked(a, b), Masked(By1(a), b >> 1), Masked(By2(a), b >> 2), Masked(By3(a), b >> 3))
  }

  lemma By1Twice(a: Word)
    ensures By1(By1(a)) == By2(a)
  {
  }

  lemma By2Next(a: Word)
    ensures By1(By2(a)) == By3(a)
  {
  }

  lemma By3Next(a: Word)
    ensures By1(By3(a)) == By4(a)
  {
  }

  /** The reducer 0x100B is added if the highest bit is set. */
  lemma By1Branches(a: Word)
    ensures By1(a) == if Bit(a, 0x8000) == 0 then a << 1 else XorWord(a << 1, 0x100B)
  {
    assert a & 0x8000 == 0 ==> a >> 15 == 0;
    assert a & 0x8000 != 0 ==> a >> 15 == 1;
  }

  lemma MaskedBranches(a: Word, b: Word)
    ensures Masked(a, b) == if Bit(b, 1) == 0 then 0 else a
  {
    assert b & 1 == 0 || b & 1 == 1;
  }

  lemma NumBy1(a: Word)
    ensures Num(By1(a)) == TimesX(Num(a))
  {
    hide Num, XorWord, By1;
    By1Branches(a);
    NumDouble(a);
    NumXor(a << 1, 0x100B);
    NumOfReducer();
    if Bit(a, 0x8000) == 1 {
      hide Bit, Xor;
      XorTop(Num(a));
    }
  }

  lemma NumOfReducer()
    ensures Num(0x100B) == 0x100B
  {
  }

  lemma NumStep(a: Word, b: Word)
    ensures Mul(Num(a), Num(b)) == Add(Num(Masked(a, b)), Mul(Num(By1(a)), Num(HalfWord(b))))
  {
    hide Num, By1, Masked, Add, TimesX, Bit;
    NumHalf(b);
    NumBy1(a);
    NumOfZero();
    MaskedBranches(a, b);
    AddZero(0);
    MulZero(Num(By1(a)));
  }

  lemma NumFour(a: Word, b: Word, next: Word, p: Word)
    requires Four(a, b, next, p)
    ensures Mul(Num(a), Num(b)) == Add(Num(p), Mul(Num(next), Num(b >> 4)))
  {
    hide Add, Mul, Num, Masked, By1, By2, By3, By4, HalfWord, XorAll;
    By1Twice(a);
    By2Next(a);
    By3Next(a);
    HalfRepeated(b);
    NumStep(a, b);
    NumStep(By1(a), b >> 1);
    NumStep(By2(a), b >> 2);
    NumStep(By3(a), b >> 3);
    Gather(Masked(a, b), Masked(By1(a), b >> 1), Masked(By2(a), b >> 2), Masked(By3(a), b >> 3),
           Mul(Num(next), Num(b >> 4)));
  }

  lemma Gather(p: Word, p1: Word, p2: Word, p3: Word, rest: T)
    ensures Add(Num(p), Add(Num(p1), Add(Num(p2), Add(Num(p3), rest)))) == Add(Num(XorAll(p, p1, p2, p3)), rest)
  {
    hide XorWord, Add, Num;
    var q, q2 := XorWord(p, p1), XorWord(XorWord(p, p1), p2);
    NumXor(p, p1);
    NumXor(q, p2);
    NumXor(q2, p3);
    AddAssoc(Num(q2), Num(p3), rest);
    AddAssoc(Num(q), Num(p2), Add(Num(p3), rest));
    AddAssoc(Num(p), Num(p1), Add(Num(p2), Add(Num(p3), rest)));
  }

  lemma HalfRepeated(b: Word)
    ensures HalfWord(b) == b >> 1 && HalfWord(b >> 1) == b >> 2 && HalfWord(b >> 2) == b >> 3
    ensures HalfWord(b >> 3) == b >> 4
  {
  }

  lemma ShiftBy4(b: Word)
    ensures (b >> 4) >> 4 == b >> 8 && (b >> 8) >> 4 == b >> 12 && (b >> 12) >> 4 == 0
  {
  }

  /** Four steps make up a product. */
  lemma NumProduct(a: Word, b: Word, a1: Word, a2: Word, a3: Word, a4: Word, p: Word, p1: Word, p2: Word, p3: Word, c: Word)
    requires Four(a, b, a1, p) && Four(a1, b >> 4, a2, p1) && Four(a2, b >> 8, a3, p2) && Four(a3, b >> 12, a4, p3)
    requires c == XorAll(p, p1, p2, p3)
    ensures Num(c) == Mul(Num(a), Num(b))
  {
    hide Four, Mul, Add, Num, XorAll;
    ShiftBy4(b);
    NumOfZero();
    NumFour(a, b, a1, p);
    NumFour(a1, b >> 4, a2, p1);
    NumFour(a2, b >> 8, a3, p2);
    NumFour(a3, b >> 12, a4, p3);
    MulZero(Num(a4));
    Gather(p, p1, p2, p3, 0);
    AddZero(Num(c));
  }
}
