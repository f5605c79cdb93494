/**
  Gaussian elimination as rs/matrix.go does it: in place on a matrix m, with every row operation repeated on a second
  matrix n. The invariant of both passes is that the system m * x == n * y keeps its solutions.
 */
module Elimination {
  import opened Field
  import opened Order
  import opened LinAlg
  import opened GF16
  import opened Kernels
  import opened Matrices

  // What single row operations do to the echelon form.

  lemma EchelonSwap(m: Rows, i: nat, j: nat)
    requires Echelon(m, i) && i <= j < |m|
    ensures Echelon(Swap(m, i, j), i)
  {
  }

  lemma EchelonScale(m: Rows, i: nat, c: T)
    requires Echelon(m, i) && i < |m|
    ensures Echelon(m[i := Scale(c, m[i])], i)
  {
    hide Mul;
    MulZero(c);
  }

  /** Scaling the pivot row by the inverse of the pivot puts a one on the diagonal. */
  lemma PivotOne(m: Rows, i: nat, c: T)
    requires i < |m| && i < |m[i]| && Mul(m[i][i], c) == 1
    ensures Scale(c, m[i])[i] == 1
  {
    MulComm(m[i][i], c);
  }

  /** Adding a multiple of row i to a later row keeps the finished columns, which are zero in row i. */
  lemma EchelonAdd(m: Rows, i: nat, j: nat, c: T)
    requires Echelon(m, i) && i < j < |m| && |m[i]| == |m[j]|
    ensures Echelon(m[j := AddScaled(m[j], c, m[i])], i)
  {
    hide Mul, Add;
    MulZero(c);
    AddZero(0);
  }

  /** Adding t times a row with a one in column i to a row with t there clears that entry. */
  lemma Clears(a: Vector, t: T, b: Vector, i: nat)
    requires |a| == |b| && i < |a| && b[i] == 1 && a[i] == t
    ensures AddScaled(a, t, b)[i] == 0
  {
    MulOne(t);
    AddSelf(t);
  }

  lemma UnitAdd(m: Rows, i: nat, j: nat, c: T)
    requires Unit(m, i) && j < i < |m| && |m[i]| == |m[j]|
    ensures Unit(m[j := AddScaled(m[j], c, m[i])], i)
  {
    hide Mul, Add;
    MulZero(c);
    AddZero(0);
    AddZero(1);
  }

  lemma EchelonAddAbove(m: Rows, size: nat, i: nat, j: nat, c: T)
    requires Echelon(m, size) && j < i < size && |m| == size && |m[i]| == |m[j]|
    ensures Echelon(m[j := AddScaled(m[j], c, m[i])], size)
  {
    hide Mul, Add;
    MulZero(c);
    AddZero(0);
    AddZero(1);
  }

  // The passes.

  /** A square matrix and another with as many rows, in arrays of their own. */
  ghost predicate Paired(m: Matrix, n: Matrix) {
    m.Valid() && n.Valid() && m.rows == m.cols && n.rows == m.rows && m.elements != n.elements
  }

  ghost predicate SameSystem(m: Matrix, n: Matrix, m0: Rows, n0: Rows)
    requires Paired(m, n)
    reads m.elements, n.elements
  {
    Equivalent(m.View(), n.View(), m0, n0)
  }

  method SwapBoth(m: Matrix, n: Matrix, i: nat, j: nat, ghost m0: Rows, ghost n0: Rows)
    requires Paired(m, n) && i < m.rows && j < m.rows && SameSystem(m, n, m0, n0)
    modifies m.elements, n.elements
    ensures m.View() == Swap(old(m.View()), i, j) && SameSystem(m, n, m0, n0)
  {
    hide Equivalent;
    ghost var m1, n1 := m.View(), n.View();
    SwapKeepsSolutions(m1, n1, i, j);
    m.SwapRows(i, j);
    n.SwapRows(i, j);
    EquivalentChain(m.View(), n.View(), m1, n1, m0, n0);
  }

  method ScaleBoth(g: Package, m: Matrix, n: Matrix, i: nat, c: T, ghost m0: Rows, ghost n0: Rows)
    requires g.Ready() && Paired(m, n) && i < m.rows && c != 0 && SameSystem(m, n, m0, n0)
    modifies m.elements, n.elements
    ensures m.View() == old(m.View())[i := Scale(c, old(m.View())[i])] && SameSystem(m, n, m0, n0)
  {
    hide Equivalent, Package.Ready;
    ghost var m1, n1 := m.View(), n.View();
    ScaleKeepsSolutions(m1, n1, i, c);
    m.ScaleRow(g, i, c);
    n.ScaleRow(g, i, c);
    EquivalentChain(m.View(), n.View(), m1, n1, m0, n0);
  }

  method AddBoth(g: Package, m: Matrix, n: Matrix, j: nat, i: nat, t: T, ghost m0: Rows, ghost n0: Rows)
    requires g.Ready() && Paired(m, n) && i < m.rows && j < m.rows && i != j && SameSystem(m, n, m0, n0)
    modifies m.elements, n.elements
    ensures m.View() == old(m.View())[j := AddScaled(old(m.View())[j], t, old(m.View())[i])]
    ensures SameSystem(m, n, m0, n0)
  {
    hide Equivalent, Package.Ready;
    ghost var m1, n1 := m.View(), n.View();
    AddKeepsSolutions(m1, n1, j, i, t);
    m.AddScaledRow(g, j, i, t);
    n.AddScaledRow(g, j, i, t);
    EquivalentChain(m.View(), n.View(), m1, n1, m0, n0);
  }

  /** Row j is the first from i on that has a nonzero entry in column i. */
  ghost predicate FirstPivot(m: Rows, i: nat, j: nat)
    requires forall b :: 0 <= b < |m| ==> i < |m[b]|
  {
    i <= j < |m| && m[j][i] != 0 && forall b :: i <= b < j ==> m[b][i] == 0
  }

  /** Looks for a row at or below i with a nonzero entry in column i and moves it to row i. Zero means there is none. */
  method FindPivot(m: Matrix, n: Matrix, i: nat, ghost m0: Rows, ghost n0: Rows) returns (pivot: T)
    requires Paired(m, n) && i < m.rows && SameSystem(m, n, m0, n0) && Echelon(m.View(), i)
    modifies m.elements, n.elements
    ensures SameSystem(m, n, m0, n0) && Echelon(m.View(), i)
    ensures pivot != 0 ==> pivot == m.View()[i][i]
    ensures pivot != 0 ==> exists j :: FirstPivot(old(m.View()), i, j) && m.View() == Swap(old(m.View()), i, j)
    ensures pivot == 0 ==> m.View() == old(m.View()) && forall b :: i <= b < m.rows ==> m.View()[b][i] == 0
  {
    hide SameSystem;
    pivot := 0;
    var j := i;
    while j < m.rows
      invariant i <= j <= m.rows && SameSystem(m, n, m0, n0) && Echelon(m.View(), i) && m.View() == old(m.View())
      invariant forall b :: i <= b < j ==> m.View()[b][i] == 0
    {
      if m.At(j, i) != 0 {
        EchelonSwap(m.View(), i, j);
        assert FirstPivot(m.View(), i, j);
        SwapBoth(m, n, i, j, m0, n0);
        pivot := m.At(i, i);
        return;
      }
      j := j + 1;
    }
  }

  /** Clears column i below the pivot. */
  method EliminateBelow(g: Package, m: Matrix, n: Matrix, i: nat, ghost m0: Rows, ghost n0: Rows)
    requires g.Ready() && Paired(m, n) && i < m.rows && SameSystem(m, n, m0, n0)
    requires Echelon(m.View(), i) && m.View()[i][i] == 1
    modifies m.elements, n.elements
    ensures SameSystem(m, n, m0, n0) && Echelon(m.View(), i + 1)
  {
    hide SameSystem, Package.Ready, AddScaled;
    for j := i + 1 to m.rows
      invariant SameSystem(m, n, m0, n0) && Echelon(m.View(), i) && m.View()[i][i] == 1
      invariant forall b :: i < b < j ==> m.View()[b][i] == 0
    {
      var t := m.At(j, i);
      if t != 0 {
        ghost var m1 := m.View();
        EchelonAdd(m1, i, j, t);
        Clears(m1[j], t, m1[i], i);
        AddBoth(g, m, n, j, i, t, m0, n0);
      }
    }
  }

  /** The first pass; it stops with ok false when a column has no pivot. */
  method ConvertToRowEchelonForm(g: Package, m: Matrix, n: Matrix) returns (ok: bool)
    requires g.Ready() && Paired(m, n)
    modifies m.elements, n.elements
    ensures SameSystem(m, n, old(m.View()), old(n.View()))
    ensures if ok then Echelon(m.View(), m.rows) else Singular(old(m.View()))
  {
    hide Package.Ready, Equivalent, Singular;
    ghost var m0, n0 := m.View(), n.View();
    EquivalentItself(m0, n0);
    for i := 0 to m.rows
      invariant SameSystem(m, n, m0, n0) && Echelon(m.View(), i)
    {
      var pivot := FindPivot(m, n, i, m0, n0);
      if pivot == 0 {
        NoPivot(m.View(), m.rows, i);
        SingularTransfers(m.View(), n.View(), m0, n0, m.rows, n.cols);
        return false;
      }
      var pivotInv := InversePivot(g, pivot);
      EchelonScale(m.View(), i, pivotInv);
      PivotOne(m.View(), i, pivotInv);
      hide Scale;
      ScaleBoth(g, m, n, i, pivotInv, m0, n0);
      EliminateBelow(g, m, n, i, m0, n0);
    }
    ok := true;
  }

  lemma EquivalentItself(m: Rows, n: Rows)
    ensures Equivalent(m, n, m, n)
  {
  }

  method InversePivot(g: Package, pivot: T) returns (inv: T)
    requires g.Ready() && pivot != 0
    ensures inv != 0 && Mul(pivot, inv) == 1
  {
    MulZero(pivot);
    inv := g.tables.Inverse(pivot);
  }

  /** Clears column i above the diagonal. */
  method EliminateAbove(g: Package, m: Matrix, n: Matrix, i: nat, ghost m0: Rows, ghost n0: Rows)
    requires g.Ready() && Paired(m, n) && i < m.rows && SameSystem(m, n, m0, n0)
    requires Echelon(m.View(), m.rows) && Unit(m.View(), i)
    modifies m.elements, n.elements
    ensures SameSystem(m, n, m0, n0) && Echelon(m.View(), m.rows) && Unit(m.View(), i + 1)
  {
    hide SameSystem, Package.Ready, AddScaled;
    for j := 0 to i
      invariant SameSystem(m, n, m0, n0) && Echelon(m.View(), m.rows) && Unit(m.View(), i)
      invariant forall b :: 0 <= b < j ==> m.View()[b][i] == 0
    {
      var t := m.At(j, i);
      if t != 0 {
        ghost var m1 := m.View();
        UnitAdd(m1, i, j, t);
        EchelonAddAbove(m1, m.rows, i, j, t);
        Clears(m1[j], t, m1[i], i);
        AddBoth(g, m, n, j, i, t, m0, n0);
      }
    }
  }

  /** The second pass turns the echelon form into the identity. */
  method ConvertToReducedRowEchelonForm(g: Package, m: Matrix, n: Matrix, ghost m0: Rows, ghost n0: Rows)
    requires g.Ready() && Paired(m, n) && SameSystem(m, n, m0, n0) && Echelon(m.View(), m.rows)
    modifies m.elements, n.elements
    ensures SameSystem(m, n, m0, n0) && Unit(m.View(), m.rows)
  {
    hide Package.Ready, SameSystem;
    for i := 0 to m.rows
      invariant SameSystem(m, n, m0, n0) && Echelon(m.View(), m.rows) && Unit(m.View(), i)
    {
      EliminateAbove(g, m, n, i, m0, n0);
    }
  }

  /** rowReduceForInverse: both passes. */
  method RowReduceInPlace(g: Package, m: Matrix, n: Matrix) returns (ok: bool)
    requires g.Ready() && Paired(m, n)
    modifies m.elements, n.elements
    ensures ok <==> !Singular(old(m.View()))
    ensures ok ==> IsSolution(old(m.View()), old(n.View()), n.View())
  {
    hide Package.Ready, Equivalent, Singular, IsSolution, Echelon, Unit;
    ghost var m0, n0 := m.View(), n.View();
    ok := ConvertToRowEchelonForm(g, m, n);
    if !ok {
      return;
    }
    ConvertToReducedRowEchelonForm(g, m, n, m0, n0);
    UnitSystem(m.View(), n.View(), m.rows, n.cols);
    SolutionTransfers(m.View(), n.View(), m0, n0, n.View());
    SolvableNotSingular(m0, n0, n.View(), m.rows, n.cols);
  }

  // Building matrices.

  method NewMatrix(rows: int, cols: int) returns (r: Result<Matrix>)
    ensures if rows <= 0 || cols <= 0 then r == Err(InvalidDimensions) else r.Ok?
    ensures r.Ok? ==> r.value.Valid() && fresh(r.value.elements) && r.value.rows == rows && r.value.cols == cols
    ensures r.Ok? ==> forall i, j :: 0 <= i < rows && 0 <= j < cols ==> r.value.View()[i][j] == 0
  {
    if rows <= 0 || cols <= 0 {
      return Err(InvalidDimensions);
    }
    MulLess(1, rows, cols);
    var elements := new T[rows * cols](_ => 0);
    var m := Matrix(rows, cols, elements);
    forall i, j | 0 <= i < rows && 0 <= j < cols
      ensures m.View()[i][j] == 0
    {
      EntryAt(elements[..], rows, cols, i, j);
    }
    r := Ok(m);
  }

  /** A deep copy. */
  method Clone(m: Matrix) returns (c: Matrix)
    requires m.Valid()
    ensures c.Valid() && fresh(c.elements) && c.rows == m.rows && c.cols == m.cols && c.View() == m.View()
  {
    var elements := new T[m.elements.Length](i requires 0 <= i < m.elements.Length reads m.elements => m.elements[i]);
    assert elements[..] == m.elements[..];
    c := Matrix(m.rows, m.cols, elements);
  }

  ghost predicate IsIdentity(m: Rows, size: nat) {
    IsMatrix(m, size, size) && forall i, j :: 0 <= i < size && 0 <= j < size ==> m[i][j] == if i == j then 1 else 0
  }

  method NewIdentityMatrix(size: int) returns (r: Result<Matrix>)
    ensures r.Err? <==> size <= 0
    ensures r.Ok? ==> r.value.Valid() && fresh(r.value.elements) && r.value.rows == r.value.cols == size
    ensures r.Ok? ==> IsIdentity(r.value.View(), size)
  {
    r := NewMatrix(size, size);
    if r.Err? {
      return;
    }
    var m := r.value;
    for i := 0 to size
      invariant IsMatrix(m.View(), size, size)
      invariant forall a, b :: 0 <= a < size && 0 <= b < size ==>
        m.View()[a][b] == if a == b && a < i then 1 else 0
    {
      m.Set(i, i, 1);
    }
  }

  /** Solves m * X == n; X is returned and neither matrix is changed. */
  method RowReduceForInverse(g: Package, m: Matrix, n: Matrix) returns (r: Result<Matrix>)
    requires g.Ready() && m.Valid() && n.Valid()
    ensures r.Err? && r.error == NotSquare <==> m.rows != m.cols
    ensures r.Err? && r.error == RowMismatch <==> m.rows == m.cols && n.rows != m.rows
    ensures r.Err? ==> r.error == NotSquare || r.error == RowMismatch || r.error == SingularMatrix
    ensures m.rows == m.cols && n.rows == m.rows ==> (r.Err? <==> Singular(m.View()))
    ensures r.Ok? ==> r.value.Valid() && fresh(r.value.elements) && r.value.rows == n.rows && r.value.cols == n.cols
    ensures r.Ok? ==> IsSolution(m.View(), n.View(), r.value.View())
  {
    hide Package.Ready, Singular, IsSolution;
    if m.rows != m.cols {
      return Err(NotSquare);
    }
    if n.rows != m.rows {
      return Err(RowMismatch);
    }
    var nReduced := Clone(n);
    var mClone := Clone(m);
    var ok := RowReduceInPlace(g, mClone, nReduced);
    if !ok {
      return Err(SingularMatrix);
    }
    r := Ok(nReduced);
  }

  /** The inverse of m: a matrix whose product with m is the identity. */
  method Inverse(g: Package, m: Matrix) returns (r: Result<Matrix>)
    requires g.Ready() && m.Valid()
    ensures r.Err? && r.error == NotSquare <==> m.rows != m.cols
    ensures m.rows == m.cols ==> (r.Err? <==> Singular(m.View()))
    ensures r.Ok? ==> r.value.Valid() && r.value.rows == r.value.cols == m.rows
    ensures r.Ok? ==> exists id: Rows :: IsIdentity(id, m.rows) && IsProduct(m.View(), r.value.View(), id, m.rows, m.rows)
  {
    hide Package.Ready, Singular, IsSolution, IsProduct;
    if m.rows != m.cols {
      return Err(NotSquare);
    }
    r := NewIdentityMatrix(m.cols);
    var n := r.value;
    var mClone := Clone(m);
    ghost var id := n.View();
    var ok := RowReduceInPlace(g, mClone, n);
    if !ok {
      return Err(SingularMatrix);
    }
    SolutionIsProduct(m.View(), id, n.View(), m.rows, m.rows);
  }

  /** Entry i, j is generators[j] to the power i. */
  ghost predicate IsVandermonde(m: Rows, rows: nat, cols: nat, generators: seq<T>) {
    && IsMatrix(m, rows, cols) && cols <= |generators|
    && forall i, j :: 0 <= i < rows && 0 <= j < cols ==> m[i][j] == Pow(generators[j], i)
  }

  method NewVandermondeMatrix(g: Package, rows: int, cols: int, generators: seq<T>) returns (r: Result<Matrix>)
    requires g.Ready() && rows <= 0x1_0000_0000
    ensures r == Err(InvalidDimensions) <==> rows <= 0 || cols <= 0
    ensures r == Err(TooFewGenerators) <==> rows > 0 && cols > 0 && |generators| < cols
    ensures r.Err? ==> r.error == InvalidDimensions || r.error == TooFewGenerators
    ensures r.Ok? ==> r.value.Valid() && fresh(r.value.elements) && r.value.rows == rows && r.value.cols == cols
    ensures r.Ok? ==> IsVandermonde(r.value.View(), rows, cols, generators)
  {
    hide Pow;
    r := NewMatrix(rows, cols);
    if r.Err? {
      return;
    }
    if |generators| < cols {
      return Err(TooFewGenerators);
    }
    var m := r.value;
    for i := 0 to rows
      invariant IsMatrix(m.View(), rows, cols)
      invariant forall a, b :: 0 <= a < i && 0 <= b < cols ==> m.View()[a][b] == Pow(generators[b], a)
    {
      for j := 0 to cols
        invariant IsMatrix(m.View(), rows, cols)
        invariant forall a, b :: 0 <= a < i && 0 <= b < cols ==> m.View()[a][b] == Pow(generators[b], a)
        invariant forall b :: 0 <= b < j ==> m.View()[i][b] == Pow(generators[b], i)
      {
        m.Set(i, j, g.tables.Power(generators[j], i));
      }
    }
  }
}
