/**
  Unsigned machine words as natural numbers. A word of width w is a number below 2^w; a left shift is a
  multiplication and a right shift a division by a power of two, and truncation is a remainder. The two
  operations that are not arithmetic, exclusive or and conjunction, are defined here bit by bit.
 */
module Bits {

  type Byte = x: int | 0 <= x < 256
  type U32 = x: int | 0 <= x < 0x1_0000_0000

  function Pow2(n: nat): (r: nat)
    ensures r > 0
  {
    if n == 0 then 1 else 2 * Pow2(n - 1)
  }

  lemma Pow2Values()
    ensures Pow2(4) == 16 && Pow2(8) == 256 && Pow2(15) == 32768 && Pow2(16) == 65536
    ensures Pow2(24) == 0x100_0000 && Pow2(32) == 0x1_0000_0000
  {
    assert Pow2(8) == 256;
    assert Pow2(12) == 4096;
    assert Pow2(20) == 0x10_0000;
    assert Pow2(28) == 0x1000_0000;
  }

  lemma {:induction false} Pow2Grows(m: nat, n: nat)
    requires m <= n
    ensures Pow2(m) <= Pow2(n)
    decreases n - m
  {
    if m == n {
    } else {
      Pow2Grows(m + 1, n);
    }
  }

  /** The bitwise exclusive or of two words of any width. */
  function Xor(a: nat, b: nat): nat
    decreases a + b
  {
    if a == 0 && b == 0 then 0 else (if a % 2 == b % 2 then 0 else 1) + 2 * Xor(a / 2, b / 2)
  }

  /** The bitwise conjunction of two words of any width. */
  function And(a: nat, b: nat): nat
    decreases a
  {
    if a == 0 then 0 else (a % 2) * (b % 2) + 2 * And(a / 2, b / 2)
  }

  lemma Double(r: nat, x: nat)
    requires r < 2
    ensures (r + 2 * x) / 2 == x && (r + 2 * x) % 2 == r
  {
  }

  /** The lowest bit of an exclusive or, and the exclusive or of the remaining bits. */
  lemma XorStep(a: nat, b: nat)
    ensures Xor(a, b) % 2 == if a % 2 == b % 2 then 0 else 1
    ensures Xor(a, b) / 2 == Xor(a / 2, b / 2)
  {
    Double(if a % 2 == b % 2 then 0 else 1, Xor(a / 2, b / 2));
  }

  lemma {:induction false} XorComm(a: nat, b: nat)
    ensures Xor(a, b) == Xor(b, a)
    decreases a + b
  {
    if a == 0 && b == 0 {
    } else {
      XorComm(a / 2, b / 2);
    }
  }

  lemma {:induction false} XorZero(a: nat)
    ensures Xor(a, 0) == a && Xor(0, a) == a
  {
    if a == 0 {
    } else {
      XorZero(a / 2);
    }
  }

  lemma {:induction false} XorSelf(a: nat)
    ensures Xor(a, a) == 0
  {
    if a == 0 {
    } else {
      XorSelf(a / 2);
    }
  }

  lemma {:induction false} XorAssoc(a: nat, b: nat, c: nat)
    ensures Xor(Xor(a, b), c) == Xor(a, Xor(b, c))
    decreases a + b + c
  {
    if a == 0 && b == 0 && c == 0 {
    } else {
      XorAssoc(a / 2, b / 2, c / 2);
      XorStep(a, b);
      XorStep(b, c);
      XorStep(Xor(a, b), c);
      XorStep(a, Xor(b, c));
      hide Xor;
      assert Xor(Xor(a, b), c) / 2 == Xor(a, Xor(b, c)) / 2;
    }
  }

  lemma {:induction false} XorBound(a: nat, b: nat, n: nat)
    requires a < Pow2(n) && b < Pow2(n)
    ensures Xor(a, b) < Pow2(n)
  {
    if n == 0 {
    } else {
      XorBound(a / 2, b / 2, n - 1);
    }
  }

  /** (a ^ b) ^ (c ^ d) == (a ^ c) ^ (b ^ d) */
  lemma XorSwap(a: nat, b: nat, c: nat, d: nat)
    ensures Xor(Xor(a, b), Xor(c, d)) == Xor(Xor(a, c), Xor(b, d))
  {
    hide Xor;
    XorAssoc(a, b, Xor(c, d));
    XorAssoc(b, c, d);
    XorComm(b, c);
    XorAssoc(c, b, d);
    XorAssoc(a, c, Xor(b, d));
  }

  /** Exclusive or with b undoes itself. */
  lemma XorCancel(a: nat, b: nat)
    ensures Xor(Xor(a, b), b) == a && Xor(b, Xor(b, a)) == a
  {
    hide Xor;
    XorAssoc(a, b, b);
    XorSelf(b);
    XorZero(a);
    XorAssoc(b, b, a);
  }

  lemma {:induction false} XorShift(a: nat, b: nat, n: nat)
    ensures Xor(a * Pow2(n), b * Pow2(n)) == Xor(a, b) * Pow2(n)
  {
    hide Xor;
    if n == 0 {
    } else {
      XorShift(a, b, n - 1);
      XorShiftStep(a, b, Pow2(n - 1));
    }
  }

  lemma XorShiftStep(a: nat, b: nat, p: nat)
    requires Xor(a * p, b * p) == Xor(a, b) * p
    ensures Xor(a * (2 * p), b * (2 * p)) == Xor(a, b) * (2 * p)
  {
    hide *;
    MulDouble(a, p);
    MulDouble(b, p);
    MulDouble(Xor(a, b), p);
    XorDouble(a * p, b * p);
  }

  lemma XorDouble(x: nat, y: nat)
    ensures Xor(2 * x, 2 * y) == 2 * Xor(x, y)
  {
    XorStep(2 * x, 2 * y);
  }

  lemma MulDouble(a: nat, p: nat)
    ensures a * (2 * p) == 2 * (a * p)
  {
  }

  /** Words that share no bit: the exclusive or is the sum. */
  lemma {:induction false} XorDisjoint(a: nat, b: nat, n: nat)
    requires a < Pow2(n)
    ensures Xor(a, b * Pow2(n)) == a + b * Pow2(n)
  {
    if n == 0 {
      XorZero(b);
    } else {
      XorDisjoint(a / 2, b, n - 1);
      MulDouble(b, Pow2(n - 1));
      XorOntoEven(a, b * Pow2(n - 1));
    }
  }

  lemma XorOntoEven(a: nat, y: nat)
    ensures Xor(a, 2 * y) == a % 2 + 2 * Xor(a / 2, y)
  {
    XorStep(a, 2 * y);
  }

  lemma DivMod(r: nat, q: nat, p: nat)
    requires r < p
    ensures (r + q * p) / p == q && (r + q * p) % p == r
  {
    var s := r + q * p;
    var d, m := s / p, s % p;
    assert s == d * p + m;
    assert (d - q) * p == r - m;
    if d > q {
      MulAtLeast(d - q, p);
    } else if d < q {
      assert (q - d) * p == m - r;
      MulAtLeast(q - d, p);
    }
  }

  lemma ModDouble(a: nat, p: nat)
    requires p > 0
    ensures a % (2 * p) == a % 2 + 2 * (a / 2 % p)
  {
    var q, r := a / 2 / p, a / 2 % p;
    assert a / 2 == q * p + r;
    assert a == (a % 2 + 2 * r) + q * (2 * p);
    DivMod(a % 2 + 2 * r, q, 2 * p);
  }

  lemma MulAtLeast(k: nat, p: nat)
    requires k > 0
    ensures k * p >= p
  {
    assert k * p == (k - 1) * p + p;
  }

  /** The word a shifted right by n bits. */
  function Shr(a: nat, n: nat): nat {
    DivModSum(a, Pow2(n));
    a / Pow2(n)
  }

  /** The lowest n bits of the word a. */
  function Low(a: nat, n: nat): nat {
    DivModSum(a, Pow2(n));
    a % Pow2(n)
  }

  lemma DivModSum(a: nat, p: nat)
    requires p > 0
    ensures a / p >= 0 && 0 <= a % p < p && a == a % p + a / p * p
  {
  }

  /** Shifting right distributes over exclusive or, and so does truncating. */
  lemma XorSplit(a: nat, b: nat, n: nat)
    ensures Shr(Xor(a, b), n) == Xor(Shr(a, n), Shr(b, n))
    ensures Low(Xor(a, b), n) == Xor(Low(a, n), Low(b, n))
  {
    hide Xor, Pow2;
    DivModSum(a, Pow2(n));
    DivModSum(b, Pow2(n));
    XorParts(a, Low(a, n), Shr(a, n), b, Low(b, n), Shr(b, n), n);
  }

  lemma XorParts(a: nat, ra: nat, qa: nat, b: nat, rb: nat, qb: nat, n: nat)
    requires a == ra + qa * Pow2(n) && ra < Pow2(n)
    requires b == rb + qb * Pow2(n) && rb < Pow2(n)
    ensures Xor(a, b) == Xor(ra, rb) + Xor(qa, qb) * Pow2(n)
    ensures Xor(a, b) / Pow2(n) == Xor(qa, qb)
    ensures Xor(a, b) % Pow2(n) == Xor(ra, rb)
  {
    hide *;
    XorBound(ra, rb, n);
    XorPartsSum(ra, qa, rb, qb, n);
    DivMod(Xor(ra, rb), Xor(qa, qb), Pow2(n));
  }

  lemma XorPartsSum(ra: nat, qa: nat, rb: nat, qb: nat, n: nat)
    requires ra < Pow2(n) && rb < Pow2(n)
    ensures Xor(ra + qa * Pow2(n), rb + qb * Pow2(n)) == Xor(ra, rb) + Xor(qa, qb) * Pow2(n)
  {
    hide *;
    XorBound(ra, rb, n);
    XorDisjoint(ra, qa, n);
    XorDisjoint(rb, qb, n);
    XorSwap(ra, qa * Pow2(n), rb, qb * Pow2(n));
    XorShift(qa, qb, n);
    XorDisjoint(Xor(ra, rb), Xor(qa, qb), n);
  }

  lemma {:induction false} AndZero(a: nat)
    ensures And(a, 0) == 0
  {
    if a == 0 {
    } else {
      AndZero(a / 2);
    }
  }

  /** Conjunction with a mask of n ones truncates to n bits. */
  lemma {:induction false} AndMask(a: nat, n: nat)
    ensures And(a, Pow2(n) - 1) == a % Pow2(n)
  {
    hide And;
    if n == 0 {
      AndZero(a);
    } else {
      AndMask(a / 2, n - 1);
      AndStep(a, Pow2(n - 1));
      ModDouble(a, Pow2(n - 1));
    }
  }

  lemma AndStep(a: nat, p: nat)
    requires p > 0
    ensures And(a, 2 * p - 1) == a % 2 + 2 * And(a / 2, p - 1)
  {
    Double(1, p - 1);
    AndZeroLeft(p - 1);
  }

  lemma AndZeroLeft(b: nat)
    ensures And(0, b) == 0
  {
  }

  lemma AndMasks(a: nat)
    ensures And(a, 15) == a % 16 && And(a, 255) == a % 256 && And(a, 65535) == a % 65536 && And(a, 0) == 0
  {
    hide And;
    Pow2Values();
    AndMask(a, 4);
    AndMask(a, 8);
    AndMask(a, 16);
    AndZero(a);
  }
}
