/**
  Linear algebra over GF(2^16): what the row operations of rs/matrix.go do to the solutions of a linear system. A
  system is a pair of matrices m, n; vectors x, y solve it when m * x == n * y.
 */
module LinAlg {
  import opened Field
  import opened Order

  type Vector = seq<T>
  type Rows = seq<Vector>

  /** The sum of a[k] * x[k] over the first n positions. */
  function Dot(a: Vector, x: Vector, n: nat): T
    requires n <= |a| && n <= |x|
  {
    if n == 0 then 0 else Add(Dot(a, x, n - 1), Mul(a[n - 1], x[n - 1]))
  }

  ghost predicate IsMatrix(m: Rows, rows: nat, cols: nat) {
    |m| == rows && forall i :: 0 <= i < rows ==> |m[i]| == cols
  }

  /** m * x == n * y */
  ghost predicate Solves(m: Rows, n: Rows, x: Vector, y: Vector) {
    |m| == |n| && forall i :: 0 <= i < |m| ==> RowSolves(m[i], n[i], x, y)
  }

  ghost predicate RowSolves(a: Vector, b: Vector, x: Vector, y: Vector) {
    |a| == |x| && |b| == |y| && Dot(a, x, |x|) == Dot(b, y, |y|)
  }

  /** The systems have the same solutions. */
  ghost predicate Equivalent(m: Rows, n: Rows, m0: Rows, n0: Rows) {
    forall x: Vector, y: Vector :: Solves(m, n, x, y) <==> Solves(m0, n0, x, y)
  }

  lemma EquivalentChain(m: Rows, n: Rows, m1: Rows, n1: Rows, m0: Rows, n0: Rows)
    requires Equivalent(m, n, m1, n1) && Equivalent(m1, n1, m0, n0)
    ensures Equivalent(m, n, m0, n0)
  {
    hide Solves;
  }

  // Row operations.

  function Scale(c: T, a: Vector): (r: Vector)
    ensures |r| == |a|
  {
    seq(|a|, k requires 0 <= k < |a| => Mul(c, a[k]))
  }

  function AddScaled(a: Vector, c: T, b: Vector): (r: Vector)
    requires |a| == |b|
    ensures |r| == |a|
  {
    seq(|a|, k requires 0 <= k < |a| => Add(a[k], Mul(c, b[k])))
  }

  function Swap(m: Rows, i: nat, j: nat): Rows
    requires i < |m| && j < |m|
  {
    m[i := m[j]][j := m[i]]
  }

  lemma {:induction false} DotScale(c: T, a: Vector, x: Vector, n: nat)
    requires n <= |a| && n <= |x|
    ensures Dot(Scale(c, a), x, n) == Mul(c, Dot(a, x, n))
  {
    hide Add, Mul;
    MulZero(c);
    if n == 0 {
    } else {
      DotScale(c, a, x, n - 1);
      MulAssoc(c, a[n - 1], x[n - 1]);
      MulAddRight(c, Dot(a, x, n - 1), Mul(a[n - 1], x[n - 1]));
    }
  }

  lemma {:induction false} DotAddScaled(a: Vector, c: T, b: Vector, x: Vector, n: nat)
    requires |a| == |b| && n <= |a| && n <= |x|
    ensures Dot(AddScaled(a, c, b), x, n) == Add(Dot(a, x, n), Mul(c, Dot(b, x, n)))
  {
    hide Add, Mul;
    MulZero(c);
    AddZero(0);
    if n == 0 {
    } else {
      DotAddScaled(a, c, b, x, n - 1);
      var p, q := Mul(a[n - 1], x[n - 1]), Mul(b[n - 1], x[n - 1]);
      MulAddLeft(a[n - 1], Mul(c, b[n - 1]), x[n - 1]);
      MulAssoc(c, b[n - 1], x[n - 1]);
      MulAddRight(c, Dot(b, x, n - 1), q);
      AddSwap(Dot(a, x, n - 1), Mul(c, Dot(b, x, n - 1)), p, Mul(c, q));
    }
  }

  lemma SwapKeepsSolutions(m: Rows, n: Rows, i: nat, j: nat)
    requires |m| == |n| && i < |m| && j < |m|
    ensures Equivalent(Swap(m, i, j), Swap(n, i, j), m, n)
  {
    hide RowSolves;
    var m1, n1 := Swap(m, i, j), Swap(n, i, j);
    forall x: Vector, y: Vector
      ensures Solves(m1, n1, x, y) <==> Solves(m, n, x, y)
    {
      if Solves(m1, n1, x, y) {
        assert RowSolves(m1[i], n1[i], x, y) && RowSolves(m1[j], n1[j], x, y);
        forall k | 0 <= k < |m|
          ensures RowSolves(m[k], n[k], x, y)
        {
          assert RowSolves(m1[k], n1[k], x, y);
        }
      }
    }
  }

  lemma RowScaled(c: T, a: Vector, b: Vector, x: Vector, y: Vector)
    requires c != 0
    ensures RowSolves(Scale(c, a), Scale(c, b), x, y) <==> RowSolves(a, b, x, y)
  {
    hide Dot, Mul, Add;
    if |a| == |x| && |b| == |y| {
      DotScale(c, a, x, |x|);
      DotScale(c, b, y, |y|);
      if Mul(c, Dot(a, x, |x|)) == Mul(c, Dot(b, y, |y|)) {
        Cancel(c, Dot(a, x, |x|), Dot(b, y, |y|));
      }
    }
  }

  lemma ScaleKeepsSolutions(m: Rows, n: Rows, i: nat, c: T)
    requires |m| == |n| && i < |m| && c != 0
    ensures Equivalent(m[i := Scale(c, m[i])], n[i := Scale(c, n[i])], m, n)
  {
    hide RowSolves, Scale;
    var m1, n1 := m[i := Scale(c, m[i])], n[i := Scale(c, n[i])];
    forall x: Vector, y: Vector
      ensures Solves(m1, n1, x, y) <==> Solves(m, n, x, y)
    {
      RowScaled(c, m[i], n[i], x, y);
      if Solves(m1, n1, x, y) {
        assert RowSolves(m1[i], n1[i], x, y);
        forall k | 0 <= k < |m|
          ensures RowSolves(m[k], n[k], x, y)
        {
          assert RowSolves(m1[k], n1[k], x, y);
        }
      }
    }
  }

  /** When row i solves, adding a multiple of it to another row changes nothing. */
  lemma RowAdded(a: Vector, b: Vector, c: T, ai: Vector, bi: Vector, x: Vector, y: Vector)
    requires |a| == |ai| && |b| == |bi| && RowSolves(ai, bi, x, y)
    ensures RowSolves(AddScaled(a, c, ai), AddScaled(b, c, bi), x, y) <==> RowSolves(a, b, x, y)
  {
    hide Dot, Mul, Add;
    if |a| == |x| && |b| == |y| {
      DotAddScaled(a, c, ai, x, |x|);
      DotAddScaled(b, c, bi, y, |y|);
      var d := Mul(c, Dot(ai, x, |x|));
      AddCancel(Dot(a, x, |x|), d);
      AddCancel(Dot(b, y, |y|), d);
    }
  }

  lemma AddKeepsSolutions(m: Rows, n: Rows, j: nat, i: nat, c: T)
    requires |m| == |n| && i < |m| && j < |m| && i != j && |m[i]| == |m[j]| && |n[i]| == |n[j]|
    ensures Equivalent(m[j := AddScaled(m[j], c, m[i])], n[j := AddScaled(n[j], c, n[i])], m, n)
  {
    hide RowSolves, AddScaled;
    var m1, n1 := m[j := AddScaled(m[j], c, m[i])], n[j := AddScaled(n[j], c, n[i])];
    forall x: Vector, y: Vector
      ensures Solves(m1, n1, x, y) <==> Solves(m, n, x, y)
    {
      if RowSolves(m[i], n[i], x, y) { RowAdded(m[j], n[j], c, m[i], n[i], x, y); }
      if Solves(m1, n1, x, y) {
        assert RowSolves(m1[i], n1[i], x, y) && RowSolves(m1[j], n1[j], x, y);
        forall k | 0 <= k < |m|
          ensures RowSolves(m[k], n[k], x, y)
        {
          assert RowSolves(m1[k], n1[k], x, y);
        }
      }
    }
  }

  // Singular matrices.

  function Zeros(n: nat): (z: Vector)
    ensures |z| == n && forall k :: 0 <= k < n ==> z[k] == 0
  {
    seq(n, _ => 0)
  }

  /** v is nonzero and m * v is zero. */
  ghost predicate IsNull(m: Rows, v: Vector) {
    && (exists k :: 0 <= k < |v| && v[k] != 0)
    && (forall i :: 0 <= i < |m| ==> |m[i]| == |v| && Dot(m[i], v, |v|) == 0)
  }

  ghost predicate Singular(m: Rows) {
    exists v: Vector :: IsNull(m, v)
  }

  lemma {:induction false} DotZeros(a: Vector, n: nat, z: Vector)
    requires n <= |a| && n <= |z| && forall k :: 0 <= k < n ==> z[k] == 0
    ensures Dot(a, z, n) == 0
  {
    hide Add, Mul;
    if n == 0 {
    } else {
      DotZeros(a, n - 1, z);
      MulZero(a[n - 1]);
      AddZero(0);
    }
  }

  lemma {:induction false} DotZeroRow(a: Vector, x: Vector, n: nat)
    requires n <= |a| && n <= |x| && forall k :: 0 <= k < n ==> a[k] == 0 || x[k] == 0
    ensures Dot(a, x, n) == 0
  {
    hide Add, Mul;
    if n == 0 {
    } else {
      DotZeroRow(a, x, n - 1);
      MulZero(a[n - 1]);
      MulZero(x[n - 1]);
      AddZero(0);
    }
  }

  /** A vector is null for the left side exactly when it solves the system against the zero vector. */
  lemma NullSolves(m: Rows, n: Rows, v: Vector, rows: nat, cols: nat)
    requires |m| == |n| == rows && IsMatrix(n, rows, cols) && IsMatrix(m, rows, |v|)
    ensures Solves(m, n, v, Zeros(cols)) <==> forall i :: 0 <= i < |m| ==> Dot(m[i], v, |v|) == 0
  {
    hide Dot, Zeros;
    forall i | 0 <= i < rows
      ensures Dot(n[i], Zeros(cols), cols) == 0
    {
      DotZeros(n[i], cols, Zeros(cols));
    }
    if Solves(m, n, v, Zeros(cols)) {
      forall i | 0 <= i < |m|
        ensures Dot(m[i], v, |v|) == 0
      {
        assert RowSolves(m[i], n[i], v, Zeros(cols));
      }
    }
  }

  lemma SingularTransfers(m: Rows, n: Rows, m0: Rows, n0: Rows, size: nat, cols: nat)
    requires IsMatrix(m, size, size) && IsMatrix(n, size, cols) && IsMatrix(m0, size, size) && IsMatrix(n0, size, cols)
    requires Equivalent(m, n, m0, n0) && size > 0
    ensures Singular(m) ==> Singular(m0)
  {
    hide Dot, Zeros, Solves;
    if v: Vector :| IsNull(m, v) {
      assert |m[0]| == |v|;
      NullSolves(m, n, v, size, cols);
      NullSolves(m0, n0, v, size, cols);
      assert Solves(m, n, v, Zeros(cols)) <==> Solves(m0, n0, v, Zeros(cols));
      assert IsNull(m0, v);
    }
  }

  // Echelon form.

  /** The first i columns are those of an upper triangular matrix with ones on its diagonal. */
  ghost predicate Echelon(m: Rows, i: nat) {
    && (forall b :: 0 <= b < |m| ==> i <= |m[b]|)
    && forall a, b :: 0 <= a < i && a <= b < |m| ==> m[b][a] == if a == b then 1 else 0
  }

  /** The first i columns are those of the identity. */
  ghost predicate Unit(m: Rows, i: nat) {
    && (forall b :: 0 <= b < |m| ==> i <= |m[b]|)
    && forall a, b :: 0 <= a < i && 0 <= b < |m| ==> m[b][a] == if a == b then 1 else 0
  }

  lemma {:induction false} DotUpdate(a: Vector, w: Vector, p: nat, d: T, n: nat)
    requires |a| == |w| && p < |w| && n <= |a| && w[p] == 0
    ensures Dot(a, w[p := d], n) == if p < n then Add(Dot(a, w, n), Mul(a[p], d)) else Dot(a, w, n)
  {
    hide Add, Mul;
    if n != 0 {
      DotUpdate(a, w, p, d, n - 1);
      if p == n - 1 {
        MulZero(a[p]);
        AddZero(Dot(a, w, n - 1));
      } else if p < n - 1 {
        var s, u, v := Dot(a, w, n - 1), Mul(a[p], d), Mul(a[n - 1], w[n - 1]);
        AddAssoc(s, u, v);
        AddComm(u, v);
        AddAssoc(s, v, u);
      }
    }
  }

  /** Back substitution from row i - 1 down to row a: a combination of the first i + 1 columns that cancels. */
  lemma {:induction false} BackSubstitute(m: Rows, size: nat, i: nat, a: nat) returns (v: Vector)
    requires IsMatrix(m, size, size) && a <= i < size && Echelon(m, i)
    ensures |v| == size && v[i] == 1
    ensures forall k :: 0 <= k < size && (k < a || k > i) ==> v[k] == 0
    ensures forall b :: a <= b < i ==> Dot(m[b], v, size) == 0
    decreases i - a
  {
    hide Dot, Add, Mul;
    if a == i {
      v := Zeros(size)[i := 1];
    } else {
      var w := BackSubstitute(m, size, i, a + 1);
      var d := Dot(m[a], w, size);
      v := w[a := d];
      forall b | a <= b < i
        ensures Dot(m[b], v, size) == 0
      {
        DotUpdate(m[b], w, a, d, size);
        MulOne(d);
        MulZero(d);
        AddSelf(d);
        AddZero(0);
      }
    }
  }

  /** A column with no pivot makes the matrix singular. */
  lemma NoPivot(m: Rows, size: nat, i: nat)
    requires IsMatrix(m, size, size) && i < size && Echelon(m, i)
    requires forall b :: i <= b < size ==> m[b][i] == 0
    ensures Singular(m)
  {
    hide Dot;
    var v := BackSubstitute(m, size, i, 0);
    forall b | 0 <= b < size
      ensures Dot(m[b], v, size) == 0
    {
      if b >= i { DotZeroRow(m[b], v, size); }
    }
    assert v[i] != 0;
    assert IsNull(m, v);
  }

  lemma {:induction false} DotUnitRow(a: Vector, i: nat, x: Vector, n: nat)
    requires n <= |a| && n <= |x| && i < |a| && i < |x|
    requires forall k :: 0 <= k < n ==> a[k] == if k == i then 1 else 0
    ensures Dot(a, x, n) == if i < n then x[i] else 0
  {
    hide Add, Mul;
    AddZero(0);
    AddZero(x[i]);
    if n == 0 {
    } else {
      DotUnitRow(a, i, x, n - 1);
      MulZero(x[n - 1]);
      MulOne(x[n - 1]);
    }
  }

  lemma DotComm(a: Vector, x: Vector, n: nat)
    requires n <= |a| && n <= |x|
    ensures Dot(a, x, n) == Dot(x, a, n)
  {
    hide Add, Mul;
    if n != 0 {
      DotComm(a, x, n - 1);
      MulComm(a[n - 1], x[n - 1]);
    }
  }

  // What a completed reduction means.

  /** x is r * y */
  ghost predicate IsImage(r: Rows, x: Vector, y: Vector) {
    |r| == |x| && forall i :: 0 <= i < |r| ==> |r[i]| == |y| && x[i] == Dot(r[i], y, |y|)
  }

  /** r solves the system for every right-hand side: m0 * x == n0 * y exactly when x == r * y. */
  ghost predicate IsSolution(m0: Rows, n0: Rows, r: Rows) {
    forall x: Vector, y: Vector :: Solves(m0, n0, x, y) <==> IsImage(r, x, y)
  }

  lemma UnitSystem(m: Rows, n: Rows, size: nat, cols: nat)
    requires IsMatrix(m, size, size) && IsMatrix(n, size, cols) && Unit(m, size) && size > 0
    ensures IsSolution(m, n, n)
  {
    hide Dot;
    forall x: Vector, y: Vector
      ensures Solves(m, n, x, y) <==> IsImage(n, x, y)
    {
      if |x| == size && |y| == cols {
        forall i | 0 <= i < size
          ensures RowSolves(m[i], n[i], x, y) <==> x[i] == Dot(n[i], y, |y|)
        {
          DotUnitRow(m[i], i, x, size);
        }
      } else {
        assert RowSolves(m[0], n[0], x, y) ==> |x| == size && |y| == cols;
        assert |n[0]| == cols;
      }
    }
  }

  lemma SolutionTransfers(m: Rows, n: Rows, m0: Rows, n0: Rows, r: Rows)
    requires IsSolution(m, n, r) && Equivalent(m, n, m0, n0)
    ensures IsSolution(m0, n0, r)
  {
    hide Solves, IsImage;
  }

  /** A matrix with a solution is not singular. */
  lemma SolvableNotSingular(m0: Rows, n0: Rows, r: Rows, size: nat, cols: nat)
    requires IsMatrix(m0, size, size) && IsMatrix(n0, size, cols) && IsMatrix(r, size, cols) && size > 0
    requires IsSolution(m0, n0, r)
    ensures !Singular(m0)
  {
    hide Dot, Zeros, Solves;
    if v: Vector :| IsNull(m0, v) {
      assert |m0[0]| == |v|;
      NullSolves(m0, n0, v, size, cols);
      assert IsImage(r, v, Zeros(cols));
      forall i | 0 <= i < size
        ensures v[i] == 0
      {
        DotZeros(r[i], cols, Zeros(cols));
      }
    }
  }

  function Column(r: Rows, cols: nat, j: nat): (c: Vector)
    requires j < cols && forall i :: 0 <= i < |r| ==> |r[i]| == cols
    ensures |c| == |r|
  {
    seq(|r|, i requires 0 <= i < |r| => r[i][j])
  }

  /** m * r == n, entry by entry. */
  ghost predicate IsProduct(m: Rows, r: Rows, n: Rows, size: nat, cols: nat) {
    && IsMatrix(m, size, size) && IsMatrix(r, size, cols) && IsMatrix(n, size, cols)
    && forall i, j :: 0 <= i < size && 0 <= j < cols ==> Dot(m[i], Column(r, cols, j), size) == n[i][j]
  }

  lemma SolutionIsProduct(m0: Rows, n0: Rows, r: Rows, size: nat, cols: nat)
    requires IsMatrix(m0, size, size) && IsMatrix(n0, size, cols) && IsMatrix(r, size, cols)
    requires IsSolution(m0, n0, r)
    ensures IsProduct(m0, r, n0, size, cols)
  {
    hide Dot;
    forall i, j | 0 <= i < size && 0 <= j < cols
      ensures Dot(m0[i], Column(r, cols, j), size) == n0[i][j]
    {
      var e := Zeros(cols)[j := 1];
      var x := Column(r, cols, j);
      forall k | 0 <= k < size
        ensures x[k] == Dot(r[k], e, cols)
      {
        DotComm(r[k], e, cols);
        DotUnitRow(e, j, r[k], cols);
      }
      assert IsImage(r, x, e);
      assert RowSolves(m0[i], n0[i], x, e);
      DotComm(n0[i], e, cols);
      DotUnitRow(e, j, n0[i], cols);
    }
  }
}
