/**
  Why reconstruction from consecutive recovery blocks cannot fail: a square matrix of consecutive powers of distinct
  nonzero elements is never singular. The generators of rs/rs.go are such elements.
 */
module Vandermonde {
  import opened Bits
  import opened Field
  import opened Order
  import opened LinAlg
  import opened GF16
  import opened Kernels

  ghost predicate Distinct(gs: seq<T>) {
    forall a, b :: 0 <= a < b < |gs| ==> gs[a] != gs[b]
  }

  ghost predicate NonZero(gs: seq<T>) {
    forall a :: 0 <= a < |gs| ==> gs[a] != 0
  }

  /** The sum of gs[j]^i * w[j] over the first n positions. */
  function PowerSum(gs: seq<T>, w: Vector, i: nat, n: nat): T
    requires n <= |gs| && n <= |w|
  {
    if n == 0 then 0 else Add(PowerSum(gs, w, i, n - 1), Mul(Pow(gs[n - 1], i), w[n - 1]))
  }

  function Shifted(gs: seq<T>, w: Vector, c: T): (u: Vector)
    requires |gs| == |w|
    ensures |u| == |w|
  {
    seq(|w|, j requires 0 <= j < |w| => Mul(Add(gs[j], c), w[j]))
  }

  /** Subtracting c times one power sum from the next weighs every term by gs[j] - c. */
  lemma {:induction false} ShiftedSum(gs: seq<T>, w: Vector, c: T, i: nat, n: nat)
    requires |gs| == |w| && n <= |w|
    ensures Add(PowerSum(gs, w, i + 1, n), Mul(c, PowerSum(gs, w, i, n))) == PowerSum(gs, Shifted(gs, w, c), i, n)
  {
    hide Add, Mul, Pow;
    MulZero(c);
    AddZero(0);
    if n == 0 {
    } else {
      ShiftedSum(gs, w, c, i, n - 1);
      var g, v := gs[n - 1], w[n - 1];
      var p, q := Mul(Pow(g, i + 1), v), Mul(Pow(g, i), v);
      ShiftedTerm(g, v, c, i);
      MulAddRight(c, PowerSum(gs, w, i, n - 1), q);
      AddSwap(PowerSum(gs, w, i + 1, n - 1), p, Mul(c, PowerSum(gs, w, i, n - 1)), Mul(c, q));
    }
  }

  lemma ShiftedTerm(g: T, v: T, c: T, i: nat)
    ensures Add(Mul(Pow(g, i + 1), v), Mul(c, Mul(Pow(g, i), v))) == Mul(Pow(g, i), Mul(Add(g, c), v))
  {
    assert Pow(g, i + 1) == Mul(g, Pow(g, i));
    hide Add, Mul, Pow;
    var p := Pow(g, i);
    MulAssoc(g, p, v);
    MulAddLeft(g, c, Mul(p, v));
    MulAssoc(Add(g, c), p, v);
    MulComm(Add(g, c), p);
    MulAssoc(p, Add(g, c), v);
  }

  lemma {:induction false} SumOfZeros(gs: seq<T>, w: Vector, i: nat, n: nat)
    requires n <= |gs| && n <= |w| && forall j :: 0 <= j < n ==> w[j] == 0
    ensures PowerSum(gs, w, i, n) == 0
  {
    hide Add, Mul, Pow;
    AddZero(0);
    if n == 0 {
    } else {
      SumOfZeros(gs, w, i, n - 1);
      MulZero(Pow(gs[n - 1], i));
    }
  }

  /** If the first k power sums of k distinct elements vanish, so do all the weights. */
  lemma {:induction false} VanishingSums(gs: seq<T>, w: Vector, k: nat)
    requires |gs| == |w| && k <= |w| && Distinct(gs)
    requires forall i :: 0 <= i < k ==> PowerSum(gs, w, i, k) == 0
    ensures forall j :: 0 <= j < k ==> w[j] == 0
    decreases k
  {
    hide Add, Mul, Pow;
    if k == 0 {
    } else {
      var last := k - 1;
      var c := gs[last];
      var u := Shifted(gs, w, c);
      forall i | 0 <= i < last
        ensures PowerSum(gs, u, i, last) == 0
      {
        ShiftedSum(gs, w, c, i, k);
        MulZero(c);
        AddZero(0);
        AddSelf(c);
        MulZero(w[last]);
        MulZero(Pow(c, i));
        AddZero(PowerSum(gs, u, i, last));
      }
      VanishingSums(gs, u, last);
      forall j | 0 <= j < last
        ensures w[j] == 0
      {
        assert u[j] == 0;
        AddIsZero(gs[j], c);
        NoZeroDivisors(Add(gs[j], c), w[j]);
      }
      assert PowerSum(gs, w, 0, k) == 0;
      SumOfZeros(gs, w, 0, last);
      PowAtZero(c);
      MulOne(w[last]);
      AddZero(w[last]);
    }
  }

  lemma PowAtZero(g: T)
    ensures Pow(g, 0) == 1
  {
  }

  /** Row i holds the powers e + i of the elements gs. */
  ghost predicate ConsecutivePowers(m: Rows, gs: seq<T>, e: nat) {
    && IsMatrix(m, |gs|, |gs|)
    && forall i, j :: 0 <= i < |gs| && 0 <= j < |gs| ==> m[i][j] == Pow(gs[j], e + i)
  }

  function Weighted(gs: seq<T>, v: Vector, e: nat): (w: Vector)
    requires |gs| == |v|
    ensures |w| == |v|
  {
    seq(|v|, j requires 0 <= j < |v| => Mul(Pow(gs[j], e), v[j]))
  }

  lemma {:induction false} DotIsPowerSum(row: Vector, gs: seq<T>, v: Vector, e: nat, i: nat, n: nat)
    requires |row| == |gs| == |v| && n <= |v|
    requires forall j :: 0 <= j < |gs| ==> row[j] == Pow(gs[j], e + i)
    ensures Dot(row, v, n) == PowerSum(gs, Weighted(gs, v, e), i, n)
  {
    hide Add, Mul, Pow;
    if n == 0 {
    } else {
      DotIsPowerSum(row, gs, v, e, i, n - 1);
      var g := gs[n - 1];
      PowAdd(g, i, e);
      MulAssoc(Pow(g, i), Pow(g, e), v[n - 1]);
    }
  }

  lemma {:induction false} PowOfNonZero(g: T, n: nat)
    requires g != 0
    ensures Pow(g, n) != 0
  {
    hide Mul;
    if n == 0 {
    } else {
      PowOfNonZero(g, n - 1);
      if Mul(g, Pow(g, n - 1)) == 0 { NoZeroDivisors(g, Pow(g, n - 1)); }
    }
  }

  /** Consecutive powers of distinct nonzero elements make a matrix that elimination never rejects. */
  lemma ConsecutiveNotSingular(m: Rows, gs: seq<T>, e: nat)
    requires ConsecutivePowers(m, gs, e) && Distinct(gs) && NonZero(gs) && |gs| > 0
    ensures !Singular(m)
  {
    hide Add, Mul, Pow, Dot;
    if v: Vector :| IsNull(m, v) {
      var k := |gs|;
      assert |m[0]| == |v|;
      var w := Weighted(gs, v, e);
      forall i | 0 <= i < k
        ensures PowerSum(gs, w, i, k) == 0
      {
        DotIsPowerSum(m[i], gs, v, e, i, k);
      }
      VanishingSums(gs, w, k);
      forall j | 0 <= j < k
        ensures v[j] == 0
      {
        assert w[j] == 0;
        PowOfNonZero(gs[j], e);
        NoZeroDivisors(Pow(gs[j], e), v[j]);
      }
    }
  }

  // The generators.

  /** Not divisible by 3, 5, 17 or 257, the primes of 65535. */
  predicate Usable(i: nat) {
    i % 3 != 0 && i % 5 != 0 && i % 17 != 0 && i % 257 != 0
  }

  /** The powers of two with a usable exponent below n, in order. */
  function GeneratorsBelow(n: nat): seq<T> {
    if n == 0 then [] else
    if Usable(n - 1) then GeneratorsBelow(n - 1) + [Pow(2, n - 1)] else GeneratorsBelow(n - 1)
  }

  method InitGenerators(g: Package) returns (generators: seq<T>)
    requires g.Ready()
    ensures generators == GeneratorsBelow(ORDER) && IsGeneratorList(generators)
  {
    hide Pow, Package.Ready, IsGeneratorList;
    GeneratorsAre();
    generators := [];
    for i := 0 to ORDER
      invariant generators == GeneratorsBelow(i)
    {
      if i % 3 == 0 || i % 5 == 0 || i % 17 == 0 || i % 257 == 0 {
        continue;
      }
      var p := PowerOfTwo(g, i);
      generators := generators + [p];
    }
  }

  method PowerOfTwo(g: Package, i: nat) returns (p: T)
    requires g.Ready() && i < ORDER
    ensures p == Pow(2, i)
  {
    p := g.tables.Power(2, i);
  }

  lemma {:induction false} GeneratorIsPower(n: nat, a: nat) returns (i: nat)
    requires a < |GeneratorsBelow(n)|
    ensures i < n && Usable(i) && GeneratorsBelow(n)[a] == Pow(2, i)
  {
    hide Pow;
    if a < |GeneratorsBelow(n - 1)| {
      i := GeneratorIsPower(n - 1, a);
    } else {
      i := n - 1;
    }
  }

  /** The generators are pairwise distinct and nonzero. */
  lemma {:induction false} GeneratorsDistinct(n: nat)
    requires n <= 65536
    ensures Distinct(GeneratorsBelow(n)) && NonZero(GeneratorsBelow(n))
  {
    hide Pow, Primitive;
    if n == 0 {
    } else {
      GeneratorsDistinct(n - 1);
      TwoIsPrimitive();
      var gs := GeneratorsBelow(n - 1);
      if Usable(n - 1) {
        forall a | 0 <= a < |gs|
          ensures gs[a] != Pow(2, n - 1)
        {
          var i := GeneratorIsPower(n - 1, a);
          NotUsable65535(n - 1);
          if Pow(2, i) == Pow(2, n - 1) { PowInjective(2, i, n - 1); }
        }
        PowNonZero(2, n - 1);
      }
    }
  }

  lemma NotUsable65535(i: nat)
    requires Usable(i) && i <= 65535
    ensures i < 65535
  {
  }

  // Which elements are generators, and in which order.

  /** The logarithm of x to the base 2. */
  ghost function Log2(x: T): (p: nat)
    requires x != 0
    ensures p < 65535 && Pow(2, p) == x
  {
    TwoIsPrimitive();
    PowSurjective(2, x);
    var p: nat :| p < 65535 && Pow(2, p) == x;
    p
  }

  lemma Log2OfPow(p: nat)
    requires p < 65535
    ensures Pow(2, p) != 0 && Log2(Pow(2, p)) == p
  {
    hide Pow;
    TwoIsPrimitive();
    PowNonZero(2, p);
    PowInjective(2, p, Log2(Pow(2, p)));
  }

  /** The logarithms increase along the list. */
  ghost predicate Ascending(gs: seq<T>) {
    NonZero(gs) && forall a, b :: 0 <= a < b < |gs| ==> Log2(gs[a]) < Log2(gs[b])
  }

  /** The elements of order 65535, in the order of their logarithms. */
  ghost predicate IsGeneratorList(gs: seq<T>) {
    Ascending(gs) && forall x: T :: x in gs <==> Primitive(x)
  }

  /** A power of two has full order exactly if no prime of 65535 divides its exponent. */
  lemma UsableIff(i: nat)
    ensures Usable(i) <==> Primitive(Pow(2, i))
  {
    hide Pow, Usable, Primitive;
    UsableAt(i, 3, 21845);
    UsableAt(i, 5, 13107);
    UsableAt(i, 17, 3855);
    UsableAt(i, 257, 255);
    UsableIs(i);
    if Usable(i) {
      AllPowersOut(i);
    } else {
      NotFull(Pow(2, i));
    }
  }

  lemma UsableIs(i: nat)
    ensures Usable(i) <==> i % 3 != 0 && i % 5 != 0 && i % 17 != 0 && i % 257 != 0
  {
  }

  /** q divides i exactly if 2^i to the power 65535 / q is one. */
  lemma UsableAt(i: nat, q: nat, e: nat)
    requires q > 0 && q * e == 65535
    ensures i % q == 0 <==> Pow(Pow(2, i), e) == 1
  {
    hide Pow;
    TwoIsPrimitive();
    PowPow(2, i, e);
    CommonFactor(i, q, e);
  }

  lemma CommonFactor(i: nat, q: nat, e: nat)
    requires q > 0 && q * e == 65535
    ensures i * e >= 0 && (i * e % 65535 == 0 <==> i % q == 0)
  {
    FactorPositive(q, e);
    DivModSum(i, q);
    FactorSum(i, q, e, i / q, i % q);
    TimesBelow(i % q, q, e);
    DivMod(i % q * e, i / q, 65535);
  }

  lemma TimesBelow(r: nat, q: nat, e: nat)
    requires r < q && e > 0
    ensures 0 <= r * e < q * e && (r * e == 0 <==> r == 0)
  {
    MulAtLeast(q - r, e);
    assert q * e == r * e + (q - r) * e;
    if r > 0 {
      MulAtLeast(r, e);
    }
  }

  lemma FactorPositive(q: nat, e: nat)
    requires q * e == 65535
    ensures e > 0
  {
  }

  lemma FactorSum(i: nat, q: nat, e: nat, d: nat, r: nat)
    requires i == r + d * q && q * e == 65535
    ensures i * e == r * e + d * 65535
  {
    assert i * e == r * e + d * (q * e);
  }

  lemma AllPowersOut(i: nat)
    requires Pow(Pow(2, i), 255) != 1 && Pow(Pow(2, i), 3855) != 1
    requires Pow(Pow(2, i), 13107) != 1 && Pow(Pow(2, i), 21845) != 1
    ensures Primitive(Pow(2, i))
  {
    hide Pow;
    TwoIsPrimitive();
    PowPow(2, i, 65535);
    DivMod(0, i, 65535);
    forall n: nat
      ensures Pow(Pow(2, i), n) == 1 <==> n % 65535 == 0
    {
      FullOrderAt(Pow(2, i), n);
    }
  }

  lemma NotFull(g: T)
    requires Pow(g, 255) == 1 || Pow(g, 3855) == 1 || Pow(g, 13107) == 1 || Pow(g, 21845) == 1
    ensures !Primitive(g)
  {
    hide Pow;
    assert 255 % 65535 != 0 && 3855 % 65535 != 0 && 13107 % 65535 != 0 && 21845 % 65535 != 0;
  }

  lemma {:induction false} GeneratorListed(n: nat, i: nat)
    requires i < n && Usable(i)
    ensures Pow(2, i) in GeneratorsBelow(n)
  {
    hide Pow, Usable;
    if i == n - 1 {
    } else {
      GeneratorListed(n - 1, i);
    }
  }

  lemma {:induction false} GeneratorsAscend(n: nat)
    requires n <= 65536
    ensures Ascending(GeneratorsBelow(n))
  {
    hide Pow, Usable, Log2;
    if n == 0 {
    } else {
      GeneratorsAscend(n - 1);
      GeneratorsDistinct(n);
      var gs := GeneratorsBelow(n - 1);
      if Usable(n - 1) {
        NotUsable65535(n - 1);
        Log2OfPow(n - 1);
        forall a | 0 <= a < |gs|
          ensures gs[a] != 0 && Log2(gs[a]) < n - 1
        {
          var i := GeneratorIsPower(n - 1, a);
          Log2OfPow(i);
        }
      }
    }
  }

  lemma GeneratorsAre()
    ensures IsGeneratorList(GeneratorsBelow(ORDER))
  {
    hide Pow, Usable, Log2, Primitive, GeneratorsBelow, Ascending;
    GeneratorsAscend(ORDER);
    forall x: T
      ensures x in GeneratorsBelow(ORDER) <==> Primitive(x)
    {
      ListedIff(x);
    }
  }

  lemma ListedIff(x: T)
    ensures x in GeneratorsBelow(ORDER) <==> Primitive(x)
  {
    hide Pow, Usable, Log2, Primitive, GeneratorsBelow;
    if x in GeneratorsBelow(ORDER) {
      var a :| 0 <= a < |GeneratorsBelow(ORDER)| && GeneratorsBelow(ORDER)[a] == x;
      var i := GeneratorIsPower(ORDER, a);
      UsableIff(i);
    } else if x == 0 {
      ZeroNotFull();
    } else {
      var i := Log2(x);
      UsableIff(i);
      if Usable(i) {
        GeneratorListed(ORDER, i);
      }
    }
  }

  lemma ZeroNotFull()
    ensures !Primitive(0)
  {
    hide Mul;
    MulZero(Pow(0, 65534));
    assert Pow(0, 65535) == 0 && 65535 % 65535 == 0;
  }

  /** There is only one such list. */
  lemma GeneratorsUnique(gs: seq<T>)
    requires IsGeneratorList(gs)
    ensures gs == GeneratorsBelow(ORDER)
  {
    hide Pow, Log2, Primitive, GeneratorsBelow, Ascending;
    GeneratorsAre();
    SameAscending(gs, GeneratorsBelow(ORDER));
  }

  lemma {:induction false} SameAscending(a: seq<T>, b: seq<T>)
    requires Ascending(a) && Ascending(b) && forall x: T :: x in a <==> x in b
    ensures a == b
    decreases |a|
  {
    hide Pow, Log2;
    if a == [] {
      if b != [] {
        HasFirst(b);
      }
    } else {
      assert a[|a| - 1] in b;
      var m, n := |a| - 1, |b| - 1;
      SameLast(a, b);
      forall x: T
        ensures x in a[..m] <==> x in b[..n]
      {
        InFront(a, x);
        InFront(b, x);
      }
      SameAscending(a[..m], b[..n]);
      assert a == a[..m] + [a[m]] && b == b[..n] + [b[n]];
    }
  }

  lemma HasFirst(b: seq<T>)
    requires b != []
    ensures exists x: T :: x in b
  {
    assert b[0] in b;
  }

  lemma SameLast(a: seq<T>, b: seq<T>)
    requires Ascending(a) && Ascending(b) && a != [] && b != [] && forall x: T :: x in a <==> x in b
    ensures a[|a| - 1] == b[|b| - 1]
  {
    hide Pow, Log2;
    assert a[|a| - 1] in b && b[|b| - 1] in a;
    var i :| 0 <= i < |b| && b[i] == a[|a| - 1];
    var j :| 0 <= j < |a| && a[j] == b[|b| - 1];
  }

  lemma InFront(a: seq<T>, x: T)
    requires Ascending(a) && a != []
    ensures x in a[..|a| - 1] <==> x in a && x != a[|a| - 1]
  {
    hide Pow, Log2;
  }
}
