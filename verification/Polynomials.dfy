/**
  Polynomials over GF(2), held as naturals: bit i is the coefficient of x^i, addition is exclusive or, and a product
  with x^n is a product with Pow2(n). What the field of gf16 and the checksums of par2 compute are remainders here.
 */
module Polynomials {
  import opened Bits

  /** The sum of x^e over distinct exponents e. */
  function FromExponents(s: seq<nat>): nat {
    if s == [] then 0 else Pow2(s[0]) + FromExponents(s[1..])
  }

  /** The product of two polynomials, without any reduction. */
  function Times(a: nat, b: nat): nat
    decreases b
  {
    if b == 0 then 0 else Xor(if b % 2 == 1 then a else 0, 2 * Times(a, b / 2))
  }

  /** a times x^n. */
  function Raise(a: nat, n: nat): nat {
    a * Pow2(n)
  }

  lemma RaiseTwice(a: nat, m: nat, n: nat)
    ensures Raise(Raise(a, m), n) == Raise(a, m + n)
  {
    hide Pow2;
    Pow2Sum(m, n);
    TimesTwice(a, Pow2(m), Pow2(n));
  }

  lemma RaiseXor(a: nat, b: nat, n: nat)
    ensures Raise(Xor(a, b), n) == Xor(Raise(a, n), Raise(b, n))
  {
    hide Pow2, Xor;
    XorShift(a, b, n);
  }

  lemma TimesTwice(a: nat, p: nat, q: nat)
    ensures a * p * q == a * (p * q)
  {
  }

  lemma TimesStep(a: nat, b: nat)
    ensures Times(a, b) == Xor(if b % 2 == 1 then a else 0, 2 * Times(a, b / 2))
  {
    XorZero(0);
  }

  lemma {:induction false} TimesXor(a: nat, p: nat, q: nat)
    ensures Times(a, Xor(p, q)) == Xor(Times(a, p), Times(a, q))
    decreases p + q
  {
    if p == 0 && q == 0 {
      XorZero(0);
    } else {
      TimesXor(a, p / 2, q / 2);
      hide Times, Xor;
      TimesStep(a, p);
      TimesStep(a, q);
      TimesStep(a, Xor(p, q));
      XorStep(p, q);
      TimesXorSplit(a, p % 2 == 1, q % 2 == 1, Times(a, p / 2), Times(a, q / 2));
    }
  }

  lemma TimesXorSplit(a: nat, p: bool, q: bool, s: nat, t: nat)
    ensures Xor(Xor(if p then a else 0, 2 * s), Xor(if q then a else 0, 2 * t))
            == Xor(if p != q then a else 0, 2 * Xor(s, t))
  {
    hide Xor;
    XorSwap(if p then a else 0, 2 * s, if q then a else 0, 2 * t);
    XorDouble(s, t);
    XorSelf(a);
    XorZero(a);
    XorZero(0);
  }

  lemma TimesDouble(a: nat, q: nat)
    ensures Times(a, 2 * q) == 2 * Times(a, q)
  {
    hide Times, Xor;
    TimesStep(a, 2 * q);
    XorZero(2 * Times(a, q));
  }

  lemma TimesOne(a: nat)
    ensures Times(a, 1) == a && Times(a, 0) == 0
  {
    TimesStep(a, 1);
    XorZero(a);
  }

  // Congruence modulo a polynomial.

  /** a and b differ by a multiple of g. */
  ghost predicate Congruent(a: nat, b: nat, g: nat) {
    exists q: nat :: Xor(a, b) == Times(g, q)
  }

  lemma Same(a: nat, g: nat)
    ensures Congruent(a, a, g)
  {
    hide Xor, Times;
    XorSelf(a);
    TimesOne(g);
    assert Xor(a, a) == Times(g, 0);
  }

  lemma CongruentTrans(a: nat, b: nat, c: nat, g: nat)
    requires Congruent(a, b, g) && Congruent(b, c, g)
    ensures Congruent(a, c, g)
  {
    hide Xor, Times;
    var p: nat :| Xor(a, b) == Times(g, p);
    var q: nat :| Xor(b, c) == Times(g, q);
    TimesXor(g, p, q);
    XorAssoc(a, b, Xor(b, c));
    XorAssoc(b, b, c);
    XorSelf(b);
    XorZero(c);
    assert Xor(a, c) == Times(g, Xor(p, q));
  }

  lemma CongruentXor(a: nat, b: nat, c: nat, d: nat, g: nat)
    requires Congruent(a, b, g) && Congruent(c, d, g)
    ensures Congruent(Xor(a, c), Xor(b, d), g)
  {
    hide Xor, Times;
    var p: nat :| Xor(a, b) == Times(g, p);
    var q: nat :| Xor(c, d) == Times(g, q);
    TimesXor(g, p, q);
    XorSwap(a, c, b, d);
    assert Xor(Xor(a, c), Xor(b, d)) == Times(g, Xor(p, q));
  }

  lemma CongruentDouble(a: nat, b: nat, g: nat)
    requires Congruent(a, b, g)
    ensures Congruent(2 * a, 2 * b, g)
  {
    hide Xor, Times;
    var p: nat :| Xor(a, b) == Times(g, p);
    TimesDouble(g, p);
    XorDouble(a, b);
    assert Xor(2 * a, 2 * b) == Times(g, 2 * p);
  }

  lemma {:induction false} CongruentRaise(a: nat, b: nat, g: nat, n: nat)
    requires Congruent(a, b, g)
    ensures Congruent(Raise(a, n), Raise(b, n), g)
  {
    hide Congruent;
    if n == 0 {
    } else {
      CongruentRaise(a, b, g, n - 1);
      CongruentDouble(Raise(a, n - 1), Raise(b, n - 1), g);
      MulDouble(a, Pow2(n - 1));
      MulDouble(b, Pow2(n - 1));
    }
  }

  /** a is b times x^n, and b is c times x^m. */
  lemma CongruentChain(a: nat, b: nat, c: nat, g: nat, m: nat, n: nat)
    requires Congruent(a, Raise(b, n), g) && Congruent(b, Raise(c, m), g)
    ensures Congruent(a, Raise(c, m + n), g)
  {
    hide *;
    CongruentRaise(b, Raise(c, m), g, n);
    RaiseTwice(c, m, n);
    CongruentTrans(a, Raise(b, n), Raise(Raise(c, m), n), g);
  }

  /** Adding the modulus changes nothing. */
  lemma CongruentModulus(a: nat, g: nat)
    ensures Congruent(Xor(a, g), a, g)
  {
    hide Xor, Times;
    TimesOne(g);
    XorComm(a, g);
    XorAssoc(g, a, a);
    XorSelf(a);
    XorZero(g);
    assert Xor(Xor(a, g), a) == Times(g, 1);
  }

  // Remainders.

  /** r is what is left of p on division by g, which has degree n. */
  ghost predicate IsRemainder(p: nat, g: nat, n: nat, r: nat) {
    r < Pow2(n) && Congruent(r, p, g)
  }

  /** A nonzero multiple has at least the degree of the modulus. */
  lemma {:induction false} MultipleBound(g: nat, q: nat, n: nat)
    requires q != 0 && Pow2(n) <= g < Pow2(n + 1)
    ensures Times(g, q) >= Pow2(n)
    decreases q
  {
    if q == 1 {
      TimesOne(g);
    } else {
      MultipleBound(g, q / 2, n);
      hide Times, Xor;
      TimesStep(g, q);
      HighPart(if q % 2 == 1 then g else 0, 2 * Times(g, q / 2), n + 1);
    }
  }

  lemma HighPart(a: nat, b: nat, n: nat)
    requires a < Pow2(n) <= b
    ensures Xor(a, b) >= Pow2(n)
  {
    hide Xor, Pow2;
    XorSplit(a, b, n);
    DivModSum(a, Pow2(n));
    DivModSum(b, Pow2(n));
    Quotients(a, b, Pow2(n));
    XorZero(Shr(b, n));
    DivModSum(Xor(a, b), Pow2(n));
    Quotient(Xor(a, b), Pow2(n));
  }

  lemma Quotients(a: nat, b: nat, p: nat)
    requires a < p <= b
    ensures a / p == 0 && b / p >= 1
  {
    DivMod(a, 0, p);
    DivModSum(b, p);
    QuotientOf(b, p, b / p, b % p);
  }

  lemma QuotientOf(b: nat, p: nat, q: nat, r: nat)
    requires b == r + q * p && r < p <= b
    ensures q >= 1
  {
  }

  lemma Quotient(x: nat, p: nat)
    requires p > 0 && x / p >= 1
    ensures x >= p
  {
    if x < p { DivMod(x, 0, p); }
  }

  lemma RemainderUnique(p: nat, g: nat, n: nat, r: nat, s: nat)
    requires Pow2(n) <= g < Pow2(n + 1) && IsRemainder(p, g, n, r) && IsRemainder(p, g, n, s)
    ensures r == s
  {
    hide Xor, Times, Pow2;
    CongruentSwap(s, p, g);
    CongruentTrans(r, p, s, g);
    var q: nat :| Xor(r, s) == Times(g, q);
    XorBound(r, s, n);
    if q != 0 {
      MultipleBound(g, q, n);
    }
    TimesOne(g);
    XorCancel(r, s);
    XorZero(s);
  }

  lemma CongruentSwap(a: nat, b: nat, g: nat)
    requires Congruent(a, b, g)
    ensures Congruent(b, a, g)
  {
    hide Times;
    XorComm(a, b);
  }

  // Bits in reverse.

  /** The lowest n bits of a in reverse order. */
  function Mirror(n: nat, a: nat): nat {
    if n == 0 then 0 else (if a % 2 == 1 then Pow2(n - 1) else 0) + Mirror(n - 1, a / 2)
  }

  lemma {:induction false} MirrorBound(n: nat, a: nat)
    ensures Mirror(n, a) < Pow2(n)
  {
    if n == 0 {
    } else {
      MirrorBound(n - 1, a / 2);
    }
  }

  lemma MirrorStep(n: nat, a: nat)
    ensures Mirror(0, a) == 0
    ensures n > 0 ==> a % 2 * Pow2(n - 1) >= 0 && Mirror(n, a) == Mirror(n - 1, a / 2) + a % 2 * Pow2(n - 1)
  {
  }

  lemma {:induction false} MirrorXor(n: nat, a: nat, b: nat)
    ensures Mirror(n, Xor(a, b)) == Xor(Mirror(n, a), Mirror(n, b))
  {
    hide *;
    MirrorStep(n, a);
    MirrorStep(n, b);
    MirrorStep(n, Xor(a, b));
    if n == 0 {
      XorZero(0);
    } else {
      MirrorXor(n - 1, a / 2, b / 2);
      XorStep(a, b);
      MirrorBound(n - 1, a / 2);
      MirrorBound(n - 1, b / 2);
      XorParts(Mirror(n, a), Mirror(n - 1, a / 2), a % 2, Mirror(n, b), Mirror(n - 1, b / 2), b % 2, n - 1);
      XorOfBits(a % 2, b % 2);
    }
  }

  lemma XorOfBits(s: nat, t: nat)
    requires s < 2 && t < 2
    ensures Xor(s, t) == if s == t then 0 else 1
  {
    XorZero(s);
    XorZero(t);
    XorSelf(s);
  }

  lemma {:induction false} MirrorInjective(n: nat, a: nat, b: nat)
    requires a < Pow2(n) && b < Pow2(n) && Mirror(n, a) == Mirror(n, b)
    ensures a == b
  {
    if n == 0 {
    } else {
      MirrorBound(n - 1, a / 2);
      MirrorBound(n - 1, b / 2);
      MirrorInjective(n - 1, a / 2, b / 2);
    }
  }

  /** A shorter word, seen as a longer one, ends up at the other end. */
  lemma {:induction false} MirrorLonger(n: nat, a: nat)
    requires a < Pow2(n)
    ensures Mirror(n + 1, a) == 2 * Mirror(n, a)
  {
    if n == 0 {
    } else {
      MirrorLonger(n - 1, a / 2);
    }
  }

  lemma {:induction false} MirrorPadded(n: nat, k: nat, a: nat)
    requires a < Pow2(n)
    ensures Mirror(n + k, a) == Raise(Mirror(n, a), k)
  {
    if k == 0 {
    } else {
      MirrorPadded(n, k - 1, a);
      Pow2Grows(n, n + k - 1);
      MirrorLonger(n + k - 1, a);
      MulDouble(Mirror(n, a), Pow2(k - 1));
    }
  }

  /** The two parts of a word change places, each in reverse. */
  lemma {:induction false} MirrorParts(k: nat, n: nat, lo: nat, hi: nat)
    requires lo < Pow2(k)
    ensures Mirror(k + n, lo + hi * Pow2(k)) == Mirror(k, lo) * Pow2(n) + Mirror(n, hi)
  {
    hide *;
    MirrorStep(k, lo);
    Pow2Step(k);
    if k == 0 {
    } else {
      var word := lo + hi * Pow2(k);
      MulDouble(hi, Pow2(k - 1));
      Double(lo % 2, lo / 2 + hi * Pow2(k - 1));
      MirrorStep(k + n, word);
      MirrorParts(k - 1, n, lo / 2, hi);
      MirrorTimes(lo % 2 * Pow2(k - 1), Mirror(k - 1, lo / 2), Pow2(n));
      TimesTwice(lo % 2, Pow2(k - 1), Pow2(n));
      Pow2Sum(k - 1, n);
    }
  }

  lemma Pow2Step(k: nat)
    ensures Pow2(0) == 1 && (k > 0 ==> Pow2(k) == 2 * Pow2(k - 1))
  {
  }

  lemma MirrorTimes(a: nat, b: nat, p: nat)
    ensures (a + b) * p == a * p + b * p
  {
  }

  lemma {:induction false} Pow2Sum(m: nat, n: nat)
    ensures Pow2(m + n) == Pow2(m) * Pow2(n)
  {
    if m == 0 {
    } else {
      Pow2Sum(m - 1, n);
      MulDouble(Pow2(n), Pow2(m - 1));
    }
  }

  lemma {:induction false} MirrorOnes(n: nat)
    ensures Mirror(n, Pow2(n) - 1) == Pow2(n) - 1
  {
    if n == 0 {
    } else {
      MirrorOnes(n - 1);
      Double(1, Pow2(n - 1) - 1);
    }
  }
}
