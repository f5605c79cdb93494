/**
  The scalar arithmetic of gf16/gf16.go: the shift-and-xor product used during start-up, the loop that fills the
  logarithm and exponent tables, and the table-driven operations. Everything is tied to the field of module Field.
 */
module GF16 {
  import opened Bits
  import opened Field
  import opened Order

  const ORDER: nat := 65536

  /** Shift-and-xor multiplication on 32-bit words. */
  method TimesPoly(t: T, u: T) returns (product: T)
    ensures product == Mul(t, u)
  {
    product := 0;
    var a: nat := t;
    var b: nat := u;
    AddZero(Mul(t, u));
    while b > 0
      invariant a < ORDER && b < ORDER
      invariant Add(product, Mul(a, b)) == Mul(t, u)
    {
      hide Add, TimesX;
      ghost var rest := Mul(TimesX(a), b / 2);
      AddAssoc(product, Select(b, a), rest);
      AddZero(product);
      if b % 2 != 0 {
        product := Add(product, a);
      }
      ghost var before := a;
      a := Shift(a);
      assert a == TimesX(before);
      b := b / 2;
    }
    AddZero(product);
  }

  /** a <<= 1, reduced by the polynomial when bit 16 is set. */
  function Shift(a: T): (r: nat)
    ensures r == TimesX(a)
  {
    var shifted := 2 * a;
    if shifted / ORDER % 2 != 0 then Xor(shifted, POLYNOMIAL) else shifted
  }

  /** The logarithm and exponent tables to the base 3; log holds the logarithm of x at index x - 1. */
  datatype Tables = Tables(log: seq<nat>, exp: seq<T>) {

    ghost predicate Built() {
      && |log| == ORDER - 1 && |exp| == ORDER - 1
      && (forall p :: 0 <= p < ORDER - 1 ==> exp[p] == Pow(3, p))
      && (forall x: T :: x != 0 ==> log[x - 1] == Log(x))
    }

    /** The state during start-up, before the tables are filled. */
    ghost predicate Empty() {
      |exp| == ORDER - 1 && forall p :: 0 <= p < ORDER - 1 ==> exp[p] == 0
    }

    method Times(t: T, u: T) returns (r: T)
      requires Built() || Empty()
      ensures r == Mul(t, u)
    {
      hide Mul, Pow;
      MulZero(t);
      MulZero(u);
      if t == 0 || u == 0 {
        return 0;
      }
      if exp[1] == 0 {
        r := TimesPoly(t, u);
        return;
      }
      LogOfProduct(t, u);
      r := exp[(log[t - 1] + log[u - 1]) % (ORDER - 1)];
    }

    function Inverse(t: T): (r: T)
      requires Built() && t != 0
      ensures Mul(t, r) == 1
    {
      LogOfInverse(t);
      exp[(ORDER - 1 - log[t - 1]) % (ORDER - 1)]
    }

    function Div(t: T, u: T): (r: T)
      requires Built() && u != 0
      ensures Mul(r, u) == t
    {
      MulZero(u);
      if t == 0 then 0 else
      LogOfQuotient(t, u);
      exp[(log[t - 1] - log[u - 1] + (ORDER - 1)) % (ORDER - 1)]
    }

    function Power(t: T, p: U32): (r: T)
      requires Built()
      ensures r == Pow(t, p)
    {
      PowOfZero(p);
      if t == 0 then (if p == 0 then 1 else 0) else
      LogOfPower(t, p);
      exp[(log[t - 1] * p) % (ORDER - 1)]
    }
  }

  lemma LogOfProduct(t: T, u: T)
    requires t != 0 && u != 0
    ensures Pow(3, (Log(t) + Log(u)) % 65535) == Mul(t, u)
  {
    hide Mul, Pow, Log;
    ThreeIsPrimitive();
    PowModulo(3, Log(t) + Log(u));
    PowAdd(3, Log(t), Log(u));
  }

  lemma LogOfInverse(t: T)
    requires t != 0
    ensures Mul(t, Pow(3, (65535 - Log(t)) % 65535)) == 1
  {
    hide Mul, Pow, Log;
    ThreeIsPrimitive();
    var k := 65535 - Log(t);
    PowModulo(3, k);
    PowAdd(3, Log(t), k);
    assert Pow(3, Log(t) + k) == 1 by { assert (Log(t) + k) % 65535 == 0; }
  }

  lemma LogOfQuotient(t: T, u: T)
    requires t != 0 && u != 0
    ensures Mul(Pow(3, (Log(t) - Log(u) + 65535) % 65535), u) == t
  {
    hide Mul, Pow, Log;
    ThreeIsPrimitive();
    var k := Log(t) - Log(u) + 65535;
    PowModulo(3, k);
    PowAdd(3, k, Log(u));
    PowModulo(3, k + Log(u));
    assert (k + Log(u)) % 65535 == Log(t);
  }

  lemma LogOfPower(t: T, p: nat)
    requires t != 0
    ensures Log(t) * p >= 0 && Pow(3, (Log(t) * p) % 65535) == Pow(t, p)
  {
    hide Mul, Pow, Log;
    ThreeIsPrimitive();
    PowPow(3, Log(t), p);
    PowModulo(3, Log(t) * p);
  }

  lemma PowOfZero(p: nat)
    ensures Pow(0, p) == if p == 0 then 1 else 0
  {
    if p != 0 { MulZero(Pow(0, p - 1)); }
  }

  /** Fills both tables. The checks for repeated powers and exponents, which stop the program, never fire. */
  method BuildTables() returns (tables: Tables)
    ensures tables.Built()
  {
    hide Mul, Pow, Log, Primitive;
    var logTable := new nat[ORDER - 1](_ => 0);
    var expTable := new T[ORDER - 1](_ => 0);
    var x: T := 1;
    PowOfThreeAtZero();
    for p := 0 to ORDER - 1
      invariant x == Pow(3, p)
      invariant forall q :: 0 <= q < ORDER - 1 ==> expTable[q] == if q < p then Pow(3, q) else 0
      invariant forall y: T :: y != 0 ==> logTable[y - 1] == if Log(y) < p then Log(y) else 0
    {
      LogOfPow(p);
      OnlyPowerOne(p);
      if x == 1 && p != 0 {
        assert false;
      } else if x != 1 && logTable[x - 1] != 0 {
        assert false;
      }
      if expTable[p] != 0 {
        assert false;
      }
      logTable[x - 1] := p;
      expTable[p] := x;
      LogsAreDistinct(p, x);
      x := TimesPoly(x, 3);
      NextPower(p);
    }
    tables := Tables(logTable[..], expTable[..]);
  }

  lemma PowOfThreeAtZero()
    ensures Pow(3, 0) == 1
  {
  }

  lemma NextPower(p: nat)
    ensures Mul(Pow(3, p), 3) == Pow(3, p + 1)
  {
    MulComm(Pow(3, p), 3);
  }

  lemma OnlyPowerOne(p: nat)
    requires p < 65535
    ensures Pow(3, p) == 1 <==> p == 0
  {
    ThreeIsPrimitive();
    assert p % 65535 == p;
  }

  lemma LogsAreDistinct(p: nat, x: T)
    requires x != 0 && Log(x) == p
    ensures forall y: T :: y != 0 && Log(y) == p ==> y == x
  {
  }
}
