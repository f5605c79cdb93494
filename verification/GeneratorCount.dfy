/**
  There are 32768 generators, as many as a PAR2 set may have data blocks: the numbers below 65535 that none of 3, 5, 17
  and 257 divides are counted by taking one prime after the other.
 */
module GeneratorCount {
  import opened Bits
  import opened GF16
  import opened Vandermonde

  /** How many numbers below n have the property f. */
  function Count(f: nat -> bool, n: nat): nat {
    if n == 0 then 0 else Count(f, n - 1) + (if f(n - 1) then 1 else 0)
  }

  lemma {:induction false} CountShifted(f: nat -> bool, a: nat, n: nat)
    requires forall i: nat :: f(i + a) == f(i)
    ensures Count(f, a + n) == Count(f, a) + Count(f, n)
  {
    if n == 0 {
    } else {
      CountShifted(f, a, n - 1);
      assert f(n - 1 + a) == f(n - 1);
    }
  }

  /** A property of period m: q periods have q times as many numbers. */
  lemma {:induction false} CountPeriods(f: nat -> bool, m: nat, q: nat)
    requires forall i: nat :: f(i + m) == f(i)
    ensures Count(f, q * m) == q * Count(f, m)
  {
    if q == 0 {
    } else {
      CountPeriods(f, m, q - 1);
      CountShifted(f, m, (q - 1) * m);
      Unfold(q, m);
      Unfold(q, Count(f, m));
    }
  }

  lemma Unfold(q: nat, m: nat)
    requires q > 0
    ensures (q - 1) * m >= 0 && q * m == m + (q - 1) * m
  {
  }

  /**
    Those among the multiples of q are as many as there are up to n, if a multiple has the property when its
    factor does.
   */
  lemma {:induction false} CountMultiples(f: nat -> bool, h: nat -> bool, q: nat, n: nat)
    requires q > 0 && (forall i: nat :: h(i) == (f(i) && i % q == 0)) && forall t: nat :: f(q * t) == f(t)
    ensures Count(h, q * n) == Count(f, n)
  {
    if n == 0 {
    } else {
      CountMultiples(f, h, q, n - 1);
      Unfold(n, q);
      var a := q * (n - 1);
      DivMod(0, n - 1, q);
      assert h(a) == f(n - 1);
      CountOne(h, q, n - 1, q - 1);
      assert a + 1 + (q - 1) == q * n;
    }
  }

  /** After a multiple of q there is none among the next few numbers. */
  lemma {:induction false} CountOne(h: nat -> bool, q: nat, k: nat, r: nat)
    requires q > 0 && r < q && forall i: nat :: h(i) ==> i % q == 0
    ensures q * k >= 0 && Count(h, q * k + 1 + r) == Count(h, q * k + 1)
  {
    if r == 0 {
    } else {
      CountOne(h, q, k, r - 1);
      DivMod(r, k, q);
    }
  }

  lemma {:induction false} CountWithout(f: nat -> bool, h: nat -> bool, g: nat -> bool, q: nat, n: nat)
    requires q > 0 && forall i: nat :: h(i) == (f(i) && i % q == 0) && g(i) == (f(i) && i % q != 0)
    ensures Count(g, n) + Count(h, n) == Count(f, n)
  {
    if n == 0 {
    } else {
      CountWithout(f, h, g, q, n - 1);
    }
  }

  /** One more prime: of q periods, the multiples of q make up one. */
  lemma OnePrime(f: nat -> bool, g: nat -> bool, m: nat, q: nat)
    requires q > 0 && (forall i: nat :: f(i + m) == f(i)) && (forall t: nat :: f(q * t) == f(t))
    requires forall i: nat :: g(i) == (f(i) && i % q != 0)
    ensures Count(g, q * m) == (q - 1) * Count(f, m)
  {
    hide Count;
    var h := (i: nat) => f(i) && i % q == 0;
    CountPeriods(f, m, q);
    CountMultiples(f, h, q, m);
    CountWithout(f, h, g, q, q * m);
    Unfold(q, Count(f, m));
  }

  function ByNone(i: nat): bool { true }
  function By3(i: nat): bool { i % 3 != 0 }
  function By5(i: nat): bool { By3(i) && i % 5 != 0 }
  function By17(i: nat): bool { By5(i) && i % 17 != 0 }

  lemma Count3()
    ensures Count(By3, 3) == 2
  {
    assert Count(ByNone, 1) == 1;
    OnePrime(ByNone, By3, 1, 3);
  }

  lemma Count15()
    ensures Count(By5, 15) == 8
  {
    Count3();
    OnePrime(By3, By5, 3, 5);
  }

  lemma Count255()
    ensures Count(By17, 255) == 128
  {
    hide Count;
    Count15();
    Multiples17();
    Period15();
    OnePrime(By5, By17, 15, 17);
  }

  lemma Count65535()
    ensures Count(Usable, 65535) == 32768
  {
    hide Count;
    Count255();
    Multiples257();
    Period255();
    UsableIs();
    hide By17, Usable;
    OnePrime(By17, Usable, 255, 257);
  }

  lemma UsableIs()
    ensures forall i: nat :: Usable(i) == (By17(i) && i % 257 != 0)
  {
  }

  lemma Period15()
    ensures forall i: nat :: By5(i + 15) == By5(i)
  {
    forall i: nat
      ensures By5(i + 15) == By5(i)
    {
      ModuloOf(3, 5, i);
      ModuloOf(5, 3, i);
    }
  }

  lemma Period255()
    ensures forall i: nat :: By17(i + 255) == By17(i)
  {
    forall i: nat
      ensures By17(i + 255) == By17(i)
    {
      ModuloOf(3, 85, i);
      ModuloOf(5, 51, i);
      ModuloOf(17, 15, i);
    }
  }

  lemma Multiples17()
    ensures forall t: nat :: By5(17 * t) == By5(t)
  {
    forall t: nat
      ensures By5(17 * t) == By5(t)
    {
      Multiple17(t);
    }
  }

  lemma Multiple17(t: nat)
    ensures (17 * t) % 3 == 0 <==> t % 3 == 0
    ensures (17 * t) % 5 == 0 <==> t % 5 == 0
  {
    ModuloOf(3, 5 * t, 2 * t);
    ModuloOf(5, 3 * t, 2 * t);
    TwiceModulo(3, t);
    TwiceModulo(5, t);
  }

  lemma ModuloOf(q: nat, a: nat, b: nat)
    requires q > 0
    ensures q * a + b >= 0 && (q * a + b) % q == b % q
  {
    DivModSum(b, q);
    DivMod(b % q, b / q + a, q);
    assert (b / q + a) * q == b / q * q + q * a;
  }

  lemma TwiceModulo(q: nat, t: nat)
    requires q % 2 == 1
    ensures (2 * t) % q == 0 <==> t % q == 0
  {
    DivModSum(t, q);
    ModuloOf(q, 2 * (t / q), 2 * (t % q));
    TwiceSum(t, q, t / q, t % q);
    TwiceBelow(q, t % q);
  }

  lemma TwiceSum(t: nat, q: nat, d: nat, r: nat)
    requires t == r + d * q
    ensures 2 * t == q * (2 * d) + 2 * r
  {
  }

  lemma TwiceBelow(q: nat, r: nat)
    requires q % 2 == 1 && r < q
    ensures (2 * r) % q == 0 <==> r == 0
  {
    if 2 * r >= q { DivMod(2 * r - q, 1, q); } else { DivMod(2 * r, 0, q); }
  }

  lemma Multiples257()
    ensures forall t: nat :: By17(257 * t) == By17(t)
  {
    forall t: nat
      ensures By17(257 * t) == By17(t)
    {
      Multiple257(t);
      Multiple257By17(t);
    }
  }

  lemma Multiple257(t: nat)
    ensures (257 * t) % 3 == 0 <==> t % 3 == 0
    ensures (257 * t) % 5 == 0 <==> t % 5 == 0
  {
    ModuloOf(3, 85 * t, 2 * t);
    ModuloOf(5, 51 * t, 2 * t);
    TwiceModulo(3, t);
    TwiceModulo(5, t);
  }

  lemma Multiple257By17(t: nat)
    ensures (257 * t) % 17 == 0 <==> t % 17 == 0
  {
    ModuloOf(17, 15 * t, 2 * t);
    TwiceModulo(17, t);
  }

  lemma {:induction false} CountIsLength(n: nat)
    ensures |GeneratorsBelow(n)| == Count(Usable, n)
  {
    if n == 0 {
    } else {
      CountIsLength(n - 1);
    }
  }

  /** initGenerators finds as many generators as a set may have data blocks. */
  lemma EnoughGenerators()
    ensures |GeneratorsBelow(ORDER)| == 32768
  {
    Count65535();
    CountIsLength(ORDER);
    assert !Usable(65535);
  }
}
