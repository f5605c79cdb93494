/**
  Powers in GF(2^16). Both generators the program relies on, 2 and 3, have the full order 65535: every nonzero element
  is a power of either, which is what makes the logarithm tables of gf16 and the generator list of rs well defined.
 */
module Order {
  import opened Bits
  import opened Field
  import opened Eval

  function Pow(g: T, n: nat): T {
    if n == 0 then 1 else Mul(g, Pow(g, n - 1))
  }

  lemma {:induction false} PowAdd(g: T, m: nat, n: nat)
    ensures Pow(g, m + n) == Mul(Pow(g, m), Pow(g, n))
  {
    hide Mul;
    if m == 0 {
      MulOne(Pow(g, n));
    } else {
      PowAdd(g, m - 1, n);
      MulAssoc(g, Pow(g, m - 1), Pow(g, n));
    }
  }

  lemma {:induction false} PowOfOne(n: nat)
    ensures Pow(1, n) == 1
  {
    hide Mul;
    if n == 0 {
    } else {
      PowOfOne(n - 1);
      MulOne(1);
    }
  }

  lemma {:induction false} PowPow(g: T, m: nat, n: nat)
    ensures m * n >= 0 && Pow(Pow(g, m), n) == Pow(g, m * n)
  {
    hide Mul;
    if n != 0 {
      PowPow(g, m, n - 1);
      assert m * n == m + m * (n - 1);
      PowAdd(g, m, m * (n - 1));
    } else {
      assert m * n == 0;
    }
  }

  lemma PowFirst(g: T)
    ensures Pow(g, 1) == g
  {
    MulOne(g);
  }

  lemma {:induction false} PowMul(g: T, h: T, n: nat)
    ensures Pow(Mul(g, h), n) == Mul(Pow(g, n), Pow(h, n))
  {
    hide Mul;
    MulOne(1);
    if n == 0 {
    } else {
      PowMul(g, h, n - 1);
      MulSwap(g, h, Pow(g, n - 1), Pow(h, n - 1));
    }
  }

  lemma MulSwap(a: T, b: T, c: T, d: T)
    ensures Mul(Mul(a, b), Mul(c, d)) == Mul(Mul(a, c), Mul(b, d))
  {
    hide *;
    MulAssoc(a, b, Mul(c, d));
    MulAssoc(b, c, d);
    MulComm(b, c);
    MulAssoc(c, b, d);
    MulAssoc(a, c, Mul(b, d));
  }

  lemma Invert(g: T, inv: T, a: T, b: T)
    requires Mul(g, inv) == 1 && Mul(g, a) == Mul(g, b)
    ensures a == b
  {
    hide *;
    MulComm(g, inv);
    MulAssoc(inv, g, a);
    MulAssoc(inv, g, b);
    MulOne(a);
    MulOne(b);
  }

  // The order of an element.

  /** The powers of g repeat with period 65535 exactly. */
  ghost predicate Primitive(g: T) {
    forall n: nat :: Pow(g, n) == 1 <==> n % 65535 == 0
  }

  lemma PowReduce(h: T, d: nat, n: nat)
    requires d > 0 && Pow(h, d) == 1
    ensures Pow(h, n % d) == Pow(h, n)
  {
    hide Mul, Pow;
    DivModSum(n, d);
    MulNonNegative(d, n / d);
    PowAdd(h, n % d, d * (n / d));
    PowPow(h, d, n / d);
    PowOfOne(n / d);
    MulOne(Pow(h, n % d));
    assert d * (n / d) == n / d * d;
  }

  lemma MulNonNegative(a: nat, b: nat)
    ensures a * b >= 0
  {
  }

  ghost predicate Prime(q: nat) {
    q > 1 && forall d :: 1 < d < q ==> q % d != 0
  }

  /** If h^r and h^q are both 1 for a prime q and an r below it, then h is 1. */
  lemma {:induction false} PrimeOrder(h: T, q: nat, r: nat)
    requires Prime(q) && 0 < r < q && Pow(h, r) == 1 && Pow(h, q) == 1
    ensures h == 1
    decreases r
  {
    if r == 1 {
      PowFirst(h);
    } else {
      PowReduce(h, r, q);
      PrimeOrder(h, q, q % r);
    }
  }

  /** Any exponent that takes g to 1 is a multiple of every prime q for which g^(65535 / q) is not 1. */
  lemma PrimeDivides(g: T, q: nat, e: nat, n: nat)
    requires Prime(q) && q * e == 65535 && Pow(g, 65535) == 1
    requires Pow(g, e) != 1 && Pow(g, n) == 1
    ensures n % q == 0
  {
    hide Mul, Pow;
    var h := Pow(g, e);
    PowPow(g, e, q);
    PowPow(g, e, n);
    PowPow(g, n, e);
    PowOfOne(e);
    assert e * n == n * e && e * q == q * e;
    PowReduce(h, q, n);
    if n % q != 0 {
      PrimeOrder(h, q, n % q);
    }
  }

  lemma Primes()
    ensures Prime(3) && Prime(5) && Prime(17) && Prime(257)
  {
    forall d | 1 < d < 257
      ensures 257 % d != 0
    {
      NoFactor257(d);
    }
  }

  lemma NoFactor257(d: nat)
    requires 1 < d < 257
    ensures 257 % d != 0
  {
    if 257 % d == 0 {
      var e := 257 / d;
      assert d * e == 257;
      if d <= 16 { NoFactorPair(d, e); } else { FactorBound(d, e); NoFactorPair(e, d); }
    }
  }

  lemma FactorBound(d: nat, e: nat)
    requires d * e == 257 && d > 16
    ensures 0 < e <= 16
  {
    if e > 16 { MulAtLeast(e - 16, d); }
  }

  lemma NoFactorPair(d: nat, e: nat)
    requires 0 < d <= 16 && d * e == 257
    ensures d == 1
  {
    assert 257 % d == 0 by { DivMod(0, e, d); assert 0 + e * d == 257; }
  }

  lemma AllPrimesDivide(n: nat)
    requires n % 3 == 0 && n % 5 == 0 && n % 17 == 0 && n % 257 == 0
    ensures n % 65535 == 0
  {
    Coprime(n, 3, 5, 2, 1);
    Coprime(n, 15, 17, 8, 7);
    Coprime(n, 255, 257, 128, 127);
  }

  /** If a and b divide n and u * a - v * b is 1, then a * b divides n. */
  lemma Coprime(n: nat, a: nat, b: nat, u: nat, v: nat)
    requires a > 0 && b > 0 && n % a == 0 && n % b == 0 && u * a - v * b == 1
    ensures a * b > 0 && n % (a * b) == 0
  {
    var x, y := n / a, n / b;
    var m := u * y - v * x;
    assert n == a * x && n == b * y;
    calc {
      n;
      n * (u * a - v * b);
      n * (u * a) - n * (v * b);
      b * y * (u * a) - a * x * (v * b);
      a * b * (u * y) - a * b * (v * x);
      a * b * m;
    }
    ExactMultiple(a * b, m, n);
  }

  lemma ExactMultiple(p: nat, m: int, n: nat)
    requires p > 0 && n == p * m
    ensures n % p == 0
  {
    FactorSign(p, m);
    DivMod(0, m, p);
    assert m * p == p * m;
  }

  lemma FactorSign(p: int, m: int)
    requires p > 0 && p * m >= 0
    ensures m >= 0
  {
  }

  // How full order is established for a given element.

  /** s lists g, g^2, g^4, ... each the square of the one before. */
  ghost predicate Squares(g: T, s: seq<T>) {
    |s| == 17 && s[0] == g && forall k :: 0 <= k < 16 ==> s[k + 1] == Mul(s[k], s[k])
  }

  lemma {:induction false} SquaresArePowers(g: T, s: seq<T>, k: nat)
    requires Squares(g, s) && k <= 16
    ensures s[k] == Pow(g, Pow2(k))
  {
    hide Mul, Pow;
    if k == 0 {
      PowFirst(g);
    } else {
      SquaresArePowers(g, s, k - 1);
      PowAdd(g, Pow2(k - 1), Pow2(k - 1));
    }
  }

  function Product4(a: T, b: T, c: T, d: T): T {
    Mul(Mul(a, b), Mul(c, d))
  }

  lemma PowSum4(g: T, a: nat, b: nat, c: nat, d: nat)
    ensures Product4(Pow(g, a), Pow(g, b), Pow(g, c), Pow(g, d)) == Pow(g, a + b + c + d)
  {
    hide Pow, Mul;
    PowAdd(g, a, b);
    PowAdd(g, c, d);
    PowAdd(g, a + b, c + d);
  }

  lemma SquareValues(g: T, s: seq<T>)
    requires Squares(g, s)
    ensures s[0] == Pow(g, 1) && s[2] == Pow(g, 4) && s[4] == Pow(g, 16) && s[6] == Pow(g, 64) && s[8] == Pow(g, 256)
    ensures s[10] == Pow(g, 1024) && s[12] == Pow(g, 4096) && s[14] == Pow(g, 16384) && s[16] == Pow(g, 65536)
  {
    hide Mul, Pow;
    assert Pow2(6) == 64 && Pow2(8) == 256;
    assert Pow2(10) == 1024;
    assert Pow2(12) == 4096;
    assert Pow2(14) == 16384;
    assert Pow2(16) == 65536;
    SquaresArePowers(g, s, 0);
    SquaresArePowers(g, s, 2);
    SquaresArePowers(g, s, 4);
    SquaresArePowers(g, s, 6);
    SquaresArePowers(g, s, 8);
    SquaresArePowers(g, s, 10);
    SquaresArePowers(g, s, 12);
    SquaresArePowers(g, s, 14);
    SquaresArePowers(g, s, 16);
  }

  /** Sixteen squarings and seven products decide that an element has full order. */
  lemma FullOrder(g: T, inv: T, s: seq<T>)
    requires Mul(g, inv) == 1 && Squares(g, s) && s[16] == g && s[8] != g
    requires Mul(s[4], s[12]) != Mul(s[0], s[8])
    requires Product4(s[2], s[10], s[6], s[14]) != Product4(s[0], s[8], s[4], s[12])
    requires Mul(Product4(s[0], s[8], s[4], s[12]), Product4(s[2], s[10], s[6], s[14])) != 1
    ensures Primitive(g)
  {
    hide Mul, Pow, Pow2;
    SquareValues(g, s);
    MulOne(g);
    PowAdd(g, 1, 65535);
    PowFirst(g);
    Invert(g, inv, Pow(g, 65535), 1);
    NotOne(g, 255, 1, 256);
    PowAdd(g, 16, 4096);
    PowAdd(g, 1, 256);
    NotOne(g, 3855, 257, 4112);
    PowSum4(g, 4, 1024, 64, 16384);
    PowSum4(g, 1, 256, 16, 4096);
    NotOne(g, 13107, 4369, 17476);
    PowAdd(g, 4369, 17476);
    forall n: nat
      ensures Pow(g, n) == 1 <==> n % 65535 == 0
    {
      FullOrderAt(g, n);
    }
  }

  lemma NotOne(g: T, e: nat, a: nat, b: nat)
    requires a + e == b && Pow(g, a) != Pow(g, b)
    ensures Pow(g, e) != 1
  {
    PowAdd(g, a, e);
    MulOne(Pow(g, a));
  }

  lemma FullOrderAt(g: T, n: nat)
    requires Pow(g, 65535) == 1
    requires Pow(g, 255) != 1 && Pow(g, 3855) != 1 && Pow(g, 13107) != 1 && Pow(g, 21845) != 1
    ensures Pow(g, n) == 1 <==> n % 65535 == 0
  {
    hide Mul;
    if Pow(g, n) == 1 {
      Primes();
      PrimeDivides(g, 3, 21845, n);
      PrimeDivides(g, 5, 13107, n);
      PrimeDivides(g, 17, 3855, n);
      PrimeDivides(g, 257, 255, n);
      AllPrimesDivide(n);
    } else {
      PowReduce(g, 65535, n);
    }
  }

  /** A product of given elements; the arguments after z are the intermediate results of the multiplication. */
  lemma ProductIs(a: Word, b: Word, c: Word, x: T, y: T, z: T,
                  a1: Word, a2: Word, a3: Word, a4: Word, p: Word, p1: Word, p2: Word, p3: Word)
    requires Num(a) == x && Num(b) == y && Num(c) == z
    requires Four(a, b, a1, p) && Four(a1, b >> 4, a2, p1) && Four(a2, b >> 8, a3, p2) && Four(a3, b >> 12, a4, p3)
    requires c == XorAll(p, p1, p2, p3)
    ensures Mul(x, y) == z
  {
    hide Num, Mul, Four, XorAll;
    NumProduct(a, b, a1, a2, a3, a4, p, p1, p2, p3, c);
  }

  const SQUARES_OF_TWO: seq<T> :=
    [0x2, 0x4, 0x10, 0x100, 0x100b, 0x1bfe, 0x5c24, 0xe647, 0xb2f,
     0x169e, 0xa78, 0x1780, 0x1b27, 0xd65, 0x564d, 0xf0c6, 0x2]

  const SQUARES_OF_THREE: seq<T> :=
    [0x3, 0x5, 0x11, 0x101, 0x100a, 0x1bff, 0x5c25, 0xe646, 0xb2e,
     0x169f, 0xa79, 0x1781, 0x1b26, 0xd64, 0x564c, 0xf0c7, 0x3]

  lemma SquareOfTwo0()
    ensures Mul(0x2, 0x2) == 0x4
  {
    hide Mul;
    ProductIs(0x2, 0x2, 0x4, 0x2, 0x2, 0x4,
              0x20, 0x200, 0x2000, 0x2016, 0x4, 0x0, 0x0, 0x0);
  }

  lemma SquareOfTwo1()
    ensures Mul(0x4, 0x4) == 0x10
  {
    hide Mul;
    ProductIs(0x4, 0x4, 0x10, 0x4, 0x4, 0x10,
              0x40, 0x400, 0x4000, 0x402c, 0x10, 0x0, 0x0, 0x0);
  }

  lemma SquareOfTwo2()
    ensures Mul(0x10, 0x10) == 0x100
  {
    hide Mul;
    ProductIs(0x10, 0x10, 0x100, 0x10, 0x10, 0x100,
              0x100, 0x1000, 0x100b, 0x10bb, 0x0, 0x100, 0x0, 0x0);
  }

  lemma SquareOfTwo3()
    ensures Mul(0x100, 0x100) == 0x100b
  {
    hide Mul;
    ProductIs(0x100, 0x100, 0x100b, 0x100, 0x100, 0x100b,
              0x1000, 0x100b, 0x10bb, 0x1bbb, 0x0, 0x0, 0x100b, 0x0);
  }

  lemma SquareOfTwo4()
    ensures Mul(0x100b, 0x100b) == 0x1bfe
  {
    hide Mul;
    ProductIs(0x100b, 0x100b, 0x1bfe, 0x100b, 0x100b, 0x1bfe,
              0x10bb, 0x1bbb, 0xabbb, 0x1bfe, 0xb045, 0x0, 0x0, 0xabbb);
  }

  lemma SquareOfTwo5()
    ensures Mul(0x1bfe, 0x1bfe) == 0x5c24
  {
    hide Mul;
    ProductIs(0x1bfe, 0x1bfe, 0x5c24, 0x1bfe, 0x1bfe, 0x5c24,
              0xafeb, 0x5efe, 0xbfc7, 0x4c35, 0x87f4, 0x50f3, 0x34e4, 0xbfc7);
  }

  lemma SquareOfTwo6()
    ensures Mul(0x5c24, 0x5c24) == 0xe647
  {
    hide Mul;
    ProductIs(0x5c24, 0x5c24, 0xe647, 0x5c24, 0x5c24, 0xe647,
              0x9267, 0xb623, 0xd275, 0xf72f, 0x609b, 0x34c5, 0x19a5, 0xabbc);
  }

  lemma SquareOfTwo7()
    ensures Mul(0xe647, 0xe647) == 0xb2f
  {
    hide Mul;
    ProductIs(0xe647, 0xe647, 0xb2f, 0xe647, 0xe647, 0xb2f,
              0x8412, 0xc178, 0xd7f4, 0xaf3f, 0x93c3, 0x305e, 0xa706, 0xfb4);
  }

  lemma SquareOfTwo8()
    ensures Mul(0xb2f, 0xb2f) == 0x169e
  {
    hide Mul;
    ProductIs(0xb2f, 0xb2f, 0x169e, 0xb2f, 0xb2f, 0x169e,
              0xb2f0, 0x9f45, 0x6403, 0x200a, 0x68b5, 0x75eb, 0xbc0, 0x0);
  }

  lemma SquareOfTwo9()
    ensures Mul(0x169e, 0x169e) == 0xa78
  {
    hide Mul;
    ProductIs(0x169e, 0x169e, 0xa78, 0x169e, 0x169e, 0xa78,
              0x79eb, 0xee81, 0x872, 0x8720, 0xc3b4, 0x86ae, 0x4710, 0x872);
  }

  lemma SquareOfTwo10()
    ensures Mul(0xa78, 0xa78) == 0x1780
  {
    hide Mul;
    ProductIs(0xa78, 0xa78, 0x1780, 0xa78, 0xa78, 0x1780,
              0xa780, 0xd84e, 0x549f, 0x19d7, 0x53c0, 0x469d, 0x2dd, 0x0);
  }

  lemma SquareOfTwo11()
    ensures Mul(0x1780, 0x1780) == 0x1b27
  {
    hide Mul;
    ProductIs(0x1780, 0x1780, 0x1b27, 0x1780, 0x1780, 0x1b27,
              0x680b, 0xe08a, 0xe8c2, 0x6c42, 0x0, 0x7045, 0x83a0, 0xe8c2);
  }

  lemma SquareOfTwo12()
    ensures Mul(0x1b27, 0x1b27) == 0xd65
  {
    hide Mul;
    ProductIs(0x1b27, 0x1b27, 0xd65, 0x1b27, 0x1b27, 0xd65,
              0xa27b, 0x87fe, 0xffb8, 0xbe9, 0x41f5, 0x54fd, 0xe7d5, 0xffb8);
  }

  lemma SquareOfTwo13()
    ensures Mul(0xd65, 0xd65) == 0x564d
  {
    hide Mul;
    ProductIs(0xd65, 0xd65, 0x564d, 0xd65, 0xd65, 0x564d,
              0xd650, 0xb57f, 0xe7b5, 0x9b32, 0x38f1, 0xd5f6, 0xbb4a, 0x0);
  }

  lemma SquareOfTwo14()
    ensures Mul(0x564d, 0x564d) == 0xf0c6
  {
    hide Mul;
    ProductIs(0x564d, 0x564d, 0xf0c6, 0x564d, 0x564d, 0xf0c6,
              0x34f7, 0x7f6d, 0x86e1, 0xee48, 0x8d0c, 0xd3dc, 0x1365, 0xbd73);
  }

  lemma SquareOfTwo15()
    ensures Mul(0xf0c6, 0xf0c6) == 0x2
  {
    hide Mul;
    ProductIs(0xf0c6, 0xf0c6, 0x2, 0xf0c6, 0xf0c6, 0x2,
              0xfc09, 0x30f9, 0x3f8d, 0xc8cd, 0x282, 0x5040, 0x0, 0x52c0);
  }

  lemma SquaresOfTwo()
    ensures Squares(2, SQUARES_OF_TWO)
  {
    hide Mul;
    SquareOfTwo0();
    SquareOfTwo1();
    SquareOfTwo2();
    SquareOfTwo3();
    SquareOfTwo4();
    SquareOfTwo5();
    SquareOfTwo6();
    SquareOfTwo7();
    SquareOfTwo8();
    SquareOfTwo9();
    SquareOfTwo10();
    SquareOfTwo11();
    SquareOfTwo12();
    SquareOfTwo13();
    SquareOfTwo14();
    SquareOfTwo15();
  }

  /**
    In characteristic 2 the square of a + 1 is a^2 + 1, so the squares of 3 are those of 2 with the last bit
    flipped.
   */
  lemma SquarePlusOne(a: T)
    ensures Mul(Add(a, 1), Add(a, 1)) == Add(Mul(a, a), 1)
  {
    hide Add, Mul;
    MulAddLeft(a, 1, Add(a, 1));
    MulAddRight(a, a, 1);
    MulOne(a);
    MulOne(Add(a, 1));
    AddAssoc(Mul(a, a), a, Add(a, 1));
    AddCancel(1, a);
    AddComm(a, 1);
    AddComm(Mul(a, a), 1);
  }

  lemma AddOne(a: T)
    ensures Add(a, 1) == if a % 2 == 0 then a + 1 else a - 1
  {
    XorStep(a, 1);
    XorZero(a / 2);
    hide Xor;
    SameHalves(Add(a, 1), if a % 2 == 0 then a + 1 else a - 1);
  }

  lemma SquaresOfThree()
    ensures Squares(3, SQUARES_OF_THREE)
  {
    hide Mul, Add;
    SquaresOfTwo();
    var s, t := SQUARES_OF_TWO, SQUARES_OF_THREE;
    forall k | 0 <= k < 17
      ensures t[k] == Add(s[k], 1)
    {
      AddOne(s[k]);
    }
    forall k | 0 <= k < 16
      ensures t[k + 1] == Mul(t[k], t[k])
    {
      SquarePlusOne(s[k]);
    }
  }

  lemma ProductOfTwo0()
    ensures Mul(0x2, 0x8805) == 0x1
  {
    hide Mul;
    ProductIs(0x2, 0x8805, 0x1, 0x2, 0x8805, 0x1,
              0x20, 0x200, 0x2000, 0x2016, 0xa, 0x0, 0x1000, 0x100b);
  }

  lemma ProductOfTwo1()
    ensures Mul(0x2, 0xb2f) == 0x165e
  {
    hide Mul;
    ProductIs(0x2, 0xb2f, 0x165e, 0x2, 0xb2f, 0x165e,
              0x20, 0x200, 0x2000, 0x2016, 0x1e, 0x40, 0x1600, 0x0);
  }

  lemma ProductOfTwo2()
    ensures Mul(0x100b, 0x1b27) == 0xbe9
  {
    hide Mul;
    ProductIs(0x100b, 0x1b27, 0xbe9, 0x100b, 0x1b27, 0xbe9,
              0x10bb, 0x1bbb, 0xabbb, 0x1bfe, 0x7031, 0x2176, 0xf115, 0xabbb);
  }

  lemma ProductOfTwo3()
    ensures Mul(0x10, 0xa78) == 0xa780
  {
    hide Mul;
    ProductIs(0x10, 0xa78, 0xa780, 0x10, 0xa78, 0xa780,
              0x100, 0x1000, 0x100b, 0x10bb, 0x80, 0x700, 0xa000, 0x0);
  }

  lemma ProductOfTwo4()
    ensures Mul(0x5c24, 0x564d) == 0xbb68
  {
    hide Mul;
    ProductIs(0x5c24, 0x564d, 0xbb68, 0x5c24, 0x564d, 0xbb68,
              0x9267, 0xb623, 0xd275, 0xf72f, 0xfd89, 0x698a, 0x84d7, 0xabbc);
  }

  lemma ProductOfTwo5()
    ensures Mul(0x165e, 0xbe9) == 0x1a
  {
    hide Mul;
    ProductIs(0x165e, 0xbe9, 0x1a, 0x165e, 0xbe9, 0x1a,
              0x75eb, 0x2e81, 0xc806, 0x4014, 0xa4ae, 0xb334, 0x1780, 0x0);
  }

  lemma ProductOfTwo6()
    ensures Mul(0xa780, 0xbb68) == 0x1b
  {
    hide Mul;
    ProductIs(0xa780, 0xbb68, 0x1b, 0xa780, 0xbb68, 0x1b,
              0xd84e, 0x549f, 0x19d7, 0x8d7b, 0x6c27, 0xf1b2, 0x794f, 0xe4c1);
  }

  lemma ProductOfTwo7()
    ensures Mul(0x1a, 0x1b) == 0x15e
  {
    hide Mul;
    ProductIs(0x1a, 0x1b, 0x15e, 0x1a, 0x1b, 0x15e,
              0x1a0, 0x1a00, 0xb00b, 0xb0f5, 0xfe, 0x1a0, 0x0, 0x0);
  }

  lemma TwoIsPrimitive()
    ensures Primitive(2)
  {
    hide Mul, Primitive, Squares;
    SquaresOfTwo();
    ProductOfTwo0();
    ProductOfTwo1();
    ProductOfTwo2();
    ProductOfTwo3();
    ProductOfTwo4();
    ProductOfTwo5();
    ProductOfTwo6();
    ProductOfTwo7();
    FullOrder(2, 0x8805, SQUARES_OF_TWO);
  }

  lemma ProductOfThree0()
    ensures Mul(0x3, 0xf006) == 0x1
  {
    hide Mul;
    ProductIs(0x3, 0xf006, 0x1, 0x3, 0xf006, 0x1,
              0x30, 0x300, 0x3000, 0x301d, 0xa, 0x0, 0x0, 0xb);
  }

  lemma ProductOfThree1()
    ensures Mul(0x3, 0xb2e) == 0x1d72
  {
    hide Mul;
    ProductIs(0x3, 0xb2e, 0x1d72, 0x3, 0xb2e, 0x1d72,
              0x30, 0x300, 0x3000, 0x301d, 0x12, 0x60, 0x1d00, 0x0);
  }

  lemma ProductOfThree2()
    ensures Mul(0x100a, 0x1b26) == 0xc4
  {
    hide Mul;
    ProductIs(0x100a, 0x1b26, 0xc4, 0x100a, 0x1b26, 0xc4,
              0x10ab, 0x1abb, 0xbbbb, 0xbf5, 0x603c, 0x2156, 0xfa15, 0xbbbb);
  }

  lemma ProductOfThree3()
    ensures Mul(0x11, 0xa79) == 0xade9
  {
    hide Mul;
    ProductIs(0x11, 0xa79, 0xade9, 0x11, 0xa79, 0xade9,
              0x110, 0x1100, 0xb, 0xb0, 0x99, 0x770, 0xaa00, 0x0);
  }

  lemma ProductOfThree4()
    ensures Mul(0x5c25, 0x564c) == 0xb100
  {
    hide Mul;
    ProductIs(0x5c25, 0x564c, 0xb100, 0x5c25, 0x564c, 0xb100,
              0x9277, 0xb723, 0xc275, 0xe724, 0xa1a1, 0x69ca, 0x82d7, 0xfbbc);
  }

  lemma ProductOfThree5()
    ensures Mul(0x1d72, 0xc4) == 0x1b
  {
    hide Mul;
    ProductIs(0x1d72, 0xc4, 0x1b, 0x1d72, 0xc4, 0x1b,
              0xc72b, 0xb2c4, 0x9c05, 0x5003, 0x75c8, 0x75d3, 0x0, 0x0);
  }

  lemma ProductOfThree6()
    ensures Mul(0xade9, 0xb100) == 0x1a
  {
    hide Mul;
    ProductIs(0xade9, 0xb100, 0x1a, 0xade9, 0xb100, 0x1a,
              0x7ede, 0x9dd1, 0x4d43, 0x941c, 0x0, 0x0, 0x9dd1, 0x9dcb);
  }

  lemma ProductOfThree7()
    ensures Mul(0x1b, 0x1a) == 0x15e
  {
    hide Mul;
    ProductIs(0x1b, 0x1a, 0x15e, 0x1b, 0x1a, 0x15e,
              0x1b0, 0x1b00, 0xa00b, 0xa0fe, 0xee, 0x1b0, 0x0, 0x0);
  }

  lemma ThreeIsPrimitive()
    ensures Primitive(3)
  {
    hide Mul, Primitive, Squares;
    SquaresOfThree();
    ProductOfThree0();
    ProductOfThree1();
    ProductOfThree2();
    ProductOfThree3();
    ProductOfThree4();
    ProductOfThree5();
    ProductOfThree6();
    ProductOfThree7();
    FullOrder(3, 0xf006, SQUARES_OF_THREE);
  }

  // Logarithms.

  lemma {:induction false} PowInjective(g: T, m: nat, n: nat)
    requires Primitive(g) && m < 65535 && n < 65535 && Pow(g, m) == Pow(g, n)
    ensures m == n
    decreases if m < n then 1 else 0
  {
    hide Mul, Pow;
    if m < n {
      PowInjective(g, n, m);
    } else {
      var k := 65535 - n;
      PowAdd(g, m, k);
      PowAdd(g, n, k);
      assert Pow(g, 65535) == 1 by { assert 65535 % 65535 == 0; }
      assert (m + k) % 65535 == 0;
    }
  }

  lemma PowNonZero(g: T, n: nat)
    requires Primitive(g)
    ensures Pow(g, n) != 0
  {
    hide Mul, Pow;
    var k := 65535 - n % 65535;
    PowAdd(g, n, k);
    MulZero(Pow(g, k));
    assert (n + k) % 65535 == 0;
  }

  ghost function PowersBelow(g: T, n: nat): set<int> {
    if n == 0 then {} else PowersBelow(g, n - 1) + {Pow(g, n - 1)}
  }

  lemma {:induction false} FindPower(g: T, n: nat, x: int) returns (p: nat)
    requires x in PowersBelow(g, n)
    ensures p < n && Pow(g, p) == x
  {
    hide Pow;
    if x == Pow(g, n - 1) {
      p := n - 1;
    } else {
      p := FindPower(g, n - 1, x);
    }
  }

  lemma {:induction false} CountPowers(g: T, n: nat)
    requires Primitive(g) && n <= 65535
    ensures |PowersBelow(g, n)| == n
  {
    hide Pow, Primitive;
    if n == 0 {
    } else {
      CountPowers(g, n - 1);
      if Pow(g, n - 1) in PowersBelow(g, n - 1) {
        var p := FindPower(g, n - 1, Pow(g, n - 1));
        PowInjective(g, p, n - 1);
      }
    }
  }

  ghost function Range(n: nat): (s: set<int>)
    ensures |s| == n
    ensures forall x :: x in s <==> 1 <= x <= n
  {
    if n == 0 then {} else Range(n - 1) + {n}
  }

  lemma FullSubset(a: set<int>, b: set<int>)
    requires a <= b && |a| == |b|
    ensures a == b
  {
    assert |b - a| == |b| - |a|;
  }

  /** Every nonzero element is a power of a primitive one. */
  lemma PowSurjective(g: T, x: T)
    requires Primitive(g) && x != 0
    ensures exists p: nat :: p < 65535 && Pow(g, p) == x
  {
    hide Mul, Pow, Range, PowersBelow;
    var s := PowersBelow(g, 65535);
    CountPowers(g, 65535);
    forall y | y in s
      ensures y in Range(65535)
    {
      var p := FindPower(g, 65535, y);
      PowNonZero(g, p);
    }
    FullSubset(s, Range(65535));
    var p := FindPower(g, 65535, x);
  }

  /** The logarithm of x to the base 3. */
  ghost function Log(x: T): (p: nat)
    requires x != 0
    ensures p < 65535 && Pow(3, p) == x
  {
    ThreeIsPrimitive();
    PowSurjective(3, x);
    var p: nat :| p < 65535 && Pow(3, p) == x;
    p
  }

  lemma LogOfPow(p: nat)
    requires p < 65535
    ensures Pow(3, p) != 0 && Log(Pow(3, p)) == p
  {
    hide Pow;
    ThreeIsPrimitive();
    PowNonZero(3, p);
    PowInjective(3, p, Log(Pow(3, p)));
  }

  lemma PowModulo(g: T, n: nat)
    requires Primitive(g)
    ensures Pow(g, n % 65535) == Pow(g, n)
  {
    hide Mul, Pow;
    assert Pow(g, 65535) == 1 by { assert 65535 % 65535 == 0; }
    PowReduce(g, 65535, n);
  }

  // The consequences every layer above uses.

  lemma Inverse(x: T)
    requires x != 0
    ensures exists y: T :: y != 0 && Mul(x, y) == 1
  {
    hide Mul, Pow;
    ThreeIsPrimitive();
    var y := Pow(3, 65535 - Log(x));
    PowAdd(3, Log(x), 65535 - Log(x));
    assert 65535 % 65535 == 0;
    PowNonZero(3, 65535 - Log(x));
    assert y != 0 && Mul(x, y) == 1;
  }

  /** The field has no zero divisors. */
  lemma NoZeroDivisors(a: T, b: T)
    requires Mul(a, b) == 0
    ensures a == 0 || b == 0
  {
    hide Mul;
    if a != 0 {
      Inverse(a);
      var y: T :| y != 0 && Mul(a, y) == 1;
      MulComm(a, y);
      MulAssoc(y, a, b);
      MulOne(b);
      MulZero(y);
    }
  }

  lemma Cancel(a: T, b: T, c: T)
    requires a != 0 && Mul(a, b) == Mul(a, c)
    ensures b == c
  {
    hide Mul;
    Inverse(a);
    var y: T :| y != 0 && Mul(a, y) == 1;
    Invert(a, y, b, c);
  }
}
