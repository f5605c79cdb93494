/**
  The field GF(2^16) of the Parity Volume Set Specification 2.0: polynomials over GF(2) of degree below 16, held as
  16-bit words, modulo x^16 + x^12 + x^3 + x + 1 (0x1100B).
 */
module Field {
  import opened Bits
  import opened Polynomials

  type T = x: int | 0 <= x < 65536

  const POLYNOMIAL: nat := 0x1100B

  /** Addition, which is also subtraction. */
  function Add(a: T, b: T): T {
    Pow2Values();
    XorBound(a, b, 16);
    Xor(a, b)
  }

  /** The product of a and the polynomial x. */
  function TimesX(a: T): T {
    if 2 * a < 65536 then 2 * a else XorTop(a); Xor(2 * a, POLYNOMIAL)
  }

  lemma XorTop(a: T)
    requires 2 * a >= 65536
    ensures Xor(2 * a, POLYNOMIAL) == Xor(2 * a - 65536, 0x100B)
    ensures Xor(2 * a, POLYNOMIAL) < 65536
  {
    Pow2Values();
    XorSelf(1);
    XorParts(2 * a, 2 * a - 65536, 1, POLYNOMIAL, 0x100B, 1, 16);
    XorBound(2 * a - 65536, 0x100B, 16);
  }

  /** The product in the field: the sum of a * x^i over the bits i that are set in b. */
  function Mul(a: T, b: T): T
    decreases b
  {
    if b == 0 then 0 else Add(Select(b, a), Mul(TimesX(a), b / 2))
  }

  function Select(b: nat, a: T): T {
    if b % 2 == 1 then a else 0
  }

  // The additive group.

  lemma AddComm(a: T, b: T)
    ensures Add(a, b) == Add(b, a)
  {
    XorComm(a, b);
  }

  lemma AddAssoc(a: T, b: T, c: T)
    ensures Add(Add(a, b), c) == Add(a, Add(b, c))
  {
    XorAssoc(a, b, c);
  }

  lemma AddZero(a: T)
    ensures Add(a, 0) == a && Add(0, a) == a
  {
    XorZero(a);
  }

  lemma AddSelf(a: T)
    ensures Add(a, a) == 0
  {
    XorSelf(a);
  }

  lemma AddSwap(a: T, b: T, c: T, d: T)
    ensures Add(Add(a, b), Add(c, d)) == Add(Add(a, c), Add(b, d))
  {
    XorSwap(a, b, c, d);
  }

  lemma AddCancel(a: T, b: T)
    ensures Add(Add(a, b), b) == a && Add(b, Add(b, a)) == a
  {
    XorCancel(a, b);
  }

  lemma AddIsZero(a: T, b: T)
    ensures Add(a, b) == 0 <==> a == b
  {
    hide Add;
    AddSelf(a);
    AddCancel(a, b);
    AddZero(b);
  }

  // Multiplication is bilinear.

  function Reducer(a: T): nat {
    if a >= 32768 then POLYNOMIAL else 0
  }

  lemma TimesXReducer(a: T)
    ensures TimesX(a) == Xor(2 * a, Reducer(a))
  {
    XorZero(2 * a);
  }

  lemma ReducerAdd(a: T, b: T)
    ensures Reducer(Add(a, b)) == Xor(Reducer(a), Reducer(b))
  {
    Pow2Values();
    XorSplit(a, b, 15);
    XorSelf(POLYNOMIAL);
    XorZero(POLYNOMIAL);
    XorZero(0);
    XorSelf(1);
    XorZero(1);
    hide Xor, Pow2;
    assert a >= 32768 <==> Shr(a, 15) == 1;
    assert b >= 32768 <==> Shr(b, 15) == 1;
    assert Add(a, b) >= 32768 <==> Shr(Add(a, b), 15) == 1;
  }

  lemma TimesXAdd(a: T, b: T)
    ensures TimesX(Add(a, b)) == Add(TimesX(a), TimesX(b))
  {
    hide TimesX, Xor, Reducer;
    XorDouble(a, b);
    ReducerAdd(a, b);
    TimesXReducer(a);
    TimesXReducer(b);
    TimesXReducer(Add(a, b));
    XorSwap(2 * a, Reducer(a), 2 * b, Reducer(b));
  }

  lemma {:induction false} MulZero(a: T)
    ensures Mul(a, 0) == 0 && Mul(0, a) == 0
    decreases a
  {
    if a == 0 {
    } else {
      MulZero(a / 2);
      AddZero(0);
    }
  }

  lemma {:induction false} MulAddLeft(a: T, b: T, c: T)
    ensures Mul(Add(a, b), c) == Add(Mul(a, c), Mul(b, c))
    decreases c
  {
    hide Add, TimesX;
    AddZero(0);
    if c == 0 {
    } else {
      TimesXAdd(a, b);
      MulAddLeft(TimesX(a), TimesX(b), c / 2);
      AddSwap(Select(c, a), Mul(TimesX(a), c / 2), Select(c, b), Mul(TimesX(b), c / 2));
      assert Select(c, Add(a, b)) == Add(Select(c, a), Select(c, b));
    }
  }

  lemma {:induction false} MulTimesX(a: T, b: T)
    ensures Mul(TimesX(a), b) == TimesX(Mul(a, b))
    decreases b
  {
    if b == 0 {
    } else {
      MulTimesX(TimesX(a), b / 2);
      TimesXAdd(Select(b, a), Mul(TimesX(a), b / 2));
    }
  }

  lemma {:induction false} MulPowerOfTwo(k: nat, b: T)
    requires b * Pow2(k) < 65536 && Pow2(k) < 65536
    ensures Mul(Pow2(k), b) == b * Pow2(k)
    decreases b
  {
    if b != 0 {
      var p := Pow2(k);
      MulHalves(b, p);
      if b / 2 == 0 {
        AddZero(p);
      } else {
        MulAtLeast(b / 2, 2 * p);
        MulPowerOfTwo(k + 1, b / 2);
        XorDisjoint(Select(b, p), b / 2, k + 1);
        assert Select(b, p) == b % 2 * p;
      }
    }
  }

  lemma MulHalves(b: nat, p: nat)
    ensures b * p == b % 2 * p + b / 2 * (2 * p)
  {
    assert b == b % 2 + 2 * (b / 2);
  }

  lemma MulOne(a: T)
    ensures Mul(a, 1) == a && Mul(1, a) == a
  {
    MulPowerOfTwo(0, a);
    AddZero(a);
  }

  lemma {:induction false} MulComm(a: T, b: T)
    ensures Mul(a, b) == Mul(b, a)
    decreases b
  {
    hide Add;
    MulZero(a);
    if b == 0 {
    } else {
      MulComm(a, b / 2);
      MulTimesX(a, b / 2);
      MulTimesX(b / 2, a);
      MulOne(a);
      MulAddLeft(b % 2, 2 * (b / 2), a);
      AddHalves(b);
    }
  }

  lemma AddHalves(b: T)
    ensures Add(b % 2, 2 * (b / 2)) == b
  {
    hide Xor;
    XorDisjoint(b % 2, b / 2, 1);
  }

  lemma MulAddRight(a: T, b: T, c: T)
    ensures Mul(a, Add(b, c)) == Add(Mul(a, b), Mul(a, c))
  {
    hide *;
    MulComm(a, Add(b, c));
    MulComm(a, b);
    MulComm(a, c);
    MulAddLeft(b, c, a);
  }

  lemma {:induction false} MulAssoc(a: T, b: T, c: T)
    ensures Mul(Mul(a, b), c) == Mul(a, Mul(b, c))
    decreases c
  {
    hide Add, TimesX;
    MulZero(a);
    if c == 0 {
    } else {
      MulTimesX(a, b);
      MulTimesX(b, a);
      MulComm(a, b);
      MulComm(a, TimesX(b));
      MulAssoc(a, TimesX(b), c / 2);
      MulAddRight(a, Select(c, b), Mul(TimesX(b), c / 2));
    }
  }

  // What the product is.

  /** The generator polynomial. */
  function Generator(): nat {
    FromExponents([16, 12, 3, 1, 0])
  }

  lemma GeneratorValue()
    ensures Generator() == POLYNOMIAL && Pow2(16) <= Generator() < Pow2(17)
  {
    Pow2Values();
    assert Pow2(12) == 4096;
  }

  lemma TimesXIs(a: T)
    ensures Congruent(TimesX(a), 2 * a, Generator())
  {
    GeneratorValue();
    hide Congruent, Generator, Xor;
    if 2 * a < 65536 {
      Same(a * 2, Generator());
    } else {
      CongruentModulus(2 * a, Generator());
    }
  }

  lemma {:induction false} MulIs(a: T, b: T)
    ensures Congruent(Mul(a, b), Times(a, b), Generator())
    decreases b
  {
    hide Congruent, Generator, TimesX;
    if b == 0 {
      Same(0, Generator());
    } else {
      MulIs(a, b / 2);
      MulTimesX(a, b / 2);
      MulStepIs(Select(b, a), Mul(a, b / 2), Times(a, b / 2));
    }
  }

  lemma MulStepIs(a: T, m: T, p: nat)
    requires Congruent(m, p, Generator())
    ensures Congruent(Add(a, TimesX(m)), Xor(a, 2 * p), Generator())
  {
    hide Congruent, Generator, TimesX, Xor;
    TimesXIs(m);
    CongruentDouble(m, p, Generator());
    CongruentTrans(TimesX(m), 2 * m, 2 * p, Generator());
    Same(a, Generator());
    CongruentXor(a, a, TimesX(m), 2 * p, Generator());
  }

  /** The product in the field is the remainder of the product of polynomials, and nothing else is. */
  lemma MulIff(a: T, b: T, c: T)
    ensures c == Mul(a, b) <==> IsRemainder(Times(a, b), Generator(), 16, c)
  {
    hide Congruent, Generator, Mul, Times;
    GeneratorValue();
    Pow2Values();
    MulIs(a, b);
    if IsRemainder(Times(a, b), Generator(), 16, c) {
      RemainderUnique(Times(a, b), Generator(), 16, c, Mul(a, b));
    }
  }
}
