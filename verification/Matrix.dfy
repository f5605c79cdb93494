/**
  The matrices of rs/matrix.go: row-major elements in one array, changed in place by row operations. View gives the
  rows as values; every operation is specified by what it does to them.
 */
module Matrices {
  import opened Bits
  import opened Field
  import opened Order
  import opened LinAlg
  import opened Slices
  import opened GF16
  import opened Kernels

  lemma RowBounds(i: nat, rows: nat, cols: nat)
    requires i < rows
    ensures 0 <= i * cols && i * cols + cols <= rows * cols
  {
    MulLess(i + 1, rows, cols);
    assert (i + 1) * cols == i * cols + cols;
  }

  lemma MulLess(a: nat, b: nat, c: nat)
    requires a <= b
    ensures a * c <= b * c && a * c >= 0
  {
    if a < b { MulLess(a, b - 1, c); assert b * c == (b - 1) * c + c; }
  }

  function RowAt(e: seq<T>, rows: nat, cols: nat, i: nat): (r: Vector)
    requires |e| == rows * cols && i < rows
    ensures |r| == cols
  {
    RowBounds(i, rows, cols);
    var base := i * cols;
    e[base..base + cols]
  }

  /** The rows of a row-major matrix. */
  function RowsOf(e: seq<T>, rows: nat, cols: nat): (m: Rows)
    requires |e| == rows * cols
    ensures IsMatrix(m, rows, cols)
  {
    seq(rows, i requires 0 <= i < rows && |e| == rows * cols => RowAt(e, rows, cols, i))
  }

  lemma EntryAt(e: seq<T>, rows: nat, cols: nat, i: nat, j: nat)
    requires |e| == rows * cols && i < rows && j < cols
    ensures 0 <= i * cols + j < |e| && RowsOf(e, rows, cols)[i][j] == e[i * cols + j]
  {
    RowBounds(i, rows, cols);
  }

  /** Overwriting the elements of one row replaces that row and no other. */
  lemma RowReplaced(e: seq<T>, f: seq<T>, rows: nat, cols: nat, i: nat, r: Vector)
    requires |e| == |f| == rows * cols && i < rows && |r| == cols
    requires forall p :: 0 <= p < |e| && !(i * cols <= p < i * cols + cols) ==> f[p] == e[p]
    requires 0 <= i * cols && i * cols + cols <= |e| && f[i * cols..i * cols + cols] == r
    ensures RowsOf(f, rows, cols) == RowsOf(e, rows, cols)[i := r]
  {
    forall l | 0 <= l < rows && l != i
      ensures RowsOf(f, rows, cols)[l] == RowsOf(e, rows, cols)[l]
    {
      RowBounds(l, rows, cols);
      if l < i { RowBounds(l, i, cols); } else { RowBounds(i, l, cols); }
    }
  }

  function Changed(a: Vector, j: nat, t: T): Vector
    requires j < |a|
  {
    a[j := t]
  }

  /** Exchanges two runs of n elements that do not overlap. */
  method SwapRanges(e: array<T>, a: nat, b: nat, n: nat)
    requires a + n <= e.Length && b + n <= e.Length && (a + n <= b || b + n <= a)
    modifies e
    ensures e[a..a + n] == old(e[b..b + n]) && e[b..b + n] == old(e[a..a + n])
    ensures forall p :: 0 <= p < e.Length && !(a <= p < a + n) && !(b <= p < b + n) ==> e[p] == old(e[p])
  {
    ghost var before := e[..];
    for k := 0 to n
      invariant SwappedUpto(before, e[..], a, b, n, k)
    {
      ghost var now := e[..];
      e[a + k], e[b + k] := e[b + k], e[a + k];
      assert e[..] == now[a + k := now[b + k]][b + k := now[a + k]];
      SwapNext(before, now, e[..], a, b, n, k);
    }
    SwapDone(before, e[..], a, b, n);
  }

  /** Where the element at p comes from when the first k elements of the runs at a and b have changed places. */
  function Partner(p: int, a: nat, b: nat, k: nat): int {
    if a <= p < a + k then p - a + b else if b <= p < b + k then p - b + a else p
  }

  ghost predicate SwappedUpto(before: Vector, now: Vector, a: nat, b: nat, n: nat, k: nat) {
    && |now| == |before| && a + n <= |now| && b + n <= |now| && k <= n
    && forall p :: 0 <= p < |now| ==> now[p] == before[Partner(p, a, b, k)]
  }

  lemma SwapNext(before: Vector, now: Vector, next: Vector, a: nat, b: nat, n: nat, k: nat)
    requires SwappedUpto(before, now, a, b, n, k) && k < n && (a + n <= b || b + n <= a)
    requires next == now[a + k := now[b + k]][b + k := now[a + k]]
    ensures SwappedUpto(before, next, a, b, n, k + 1)
  {
    assert now[a + k] == before[a + k] && now[b + k] == before[b + k];
  }

  lemma SwapDone(before: Vector, now: Vector, a: nat, b: nat, n: nat)
    requires SwappedUpto(before, now, a, b, n, n) && (a + n <= b || b + n <= a)
    ensures now[a..a + n] == before[b..b + n] && now[b..b + n] == before[a..a + n]
  {
  }

  datatype Error = InvalidDimensions | NotSquare | RowMismatch | SingularMatrix | TooFewGenerators | CountMismatch

  datatype Result<+R> = Ok(value: R) | Err(error: Error)

  datatype Matrix = Matrix(rows: nat, cols: nat, elements: array<T>) {

    ghost predicate Valid() {
      rows > 0 && cols > 0 && elements.Length == rows * cols
    }

    ghost function View(): Rows
      requires Valid()
      reads elements
    {
      RowsOf(elements[..], rows, cols)
    }

    function At(i: nat, j: nat): (t: T)
      requires Valid() && i < rows && j < cols
      reads elements
      ensures t == View()[i][j]
    {
      EntryAt(elements[..], rows, cols, i, j);
      elements[i * cols + j]
    }

    method Set(i: nat, j: nat, t: T)
      requires Valid() && i < rows && j < cols
      modifies elements
      ensures View() == old(View())[i := Changed(old(View())[i], j, t)]
    {
      EntryAt(elements[..], rows, cols, i, j);
      RowBounds(i, rows, cols);
      ghost var before := elements[..];
      ghost var r := Changed(View()[i], j, t);
      elements[i * cols + j] := t;
      assert elements[i * cols..i * cols + cols] == r;
      RowReplaced(before, elements[..], rows, cols, i, r);
    }

    /** The bytes of row i, the low byte of each element first. */
    method RowBytes(i: nat) returns (bytes: array<Byte>)
      requires Valid() && i < rows
      ensures fresh(bytes) && bytes.Length == 2 * cols
      ensures forall k :: 0 <= k < cols ==> Element(bytes[..], 0, k) == View()[i][k]
    {
      bytes := new Byte[2 * cols](_ => 0);
      RowBounds(i, rows, cols);
      ghost var r := View()[i];
      assert r == elements[i * cols..i * cols + cols];
      hide RowsOf;
      for j := 0 to cols
        invariant forall k :: 0 <= k < j ==> Element(bytes[..], 0, k) == r[k]
      {
        var t := elements[i * cols + j];
        assert t == r[j];
        bytes[2 * j] := LowByte(t);
        bytes[2 * j + 1] := HighByte(t);
      }
    }

    /** Overwrites row i with the elements held by bytes. */
    method SetRowBytes(i: nat, bytes: array<Byte>, ghost r: Vector)
      requires Valid() && i < rows && bytes.Length == 2 * cols && |r| == cols
      requires forall k :: 0 <= k < cols ==> Element(bytes[..], 0, k) == r[k]
      modifies elements
      ensures View() == old(View())[i := r]
    {
      RowBounds(i, rows, cols);
      ghost var before := elements[..];
      ghost var base := i * cols;
      for j := 0 to cols
        invariant forall k :: 0 <= k < j ==> elements[base + k] == r[k]
        invariant forall p :: 0 <= p < elements.Length && !(base <= p < base + cols) ==> elements[p] == before[p]
      {
        assert Element(bytes[..], 0, j) == r[j];
        elements[i * cols + j] := Join(bytes[2 * j], bytes[2 * j + 1]);
      }
      assert elements[base..base + cols] == r;
      RowReplaced(before, elements[..], rows, cols, i, r);
    }
  
    method SwapRows(i: nat, j: nat)
      requires Valid() && i < rows && j < rows
      modifies elements
      ensures View() == Swap(old(View()), i, j)
    {
      if i == j {
        return;
      }
      RowBounds(i, rows, cols);
      RowBounds(j, rows, cols);
      if i < j { RowBounds(i, j, cols); } else { RowBounds(j, i, cols); }
      ghost var before := elements[..];
      hide RowsOf, Swap;
      assert before[i * cols..i * cols + cols] == elements[i * cols..i * cols + cols];
      assert before[j * cols..j * cols + cols] == elements[j * cols..j * cols + cols];
      SwapRanges(elements, i * cols, j * cols, cols);
      SwappedRows(before, elements[..], i, j);
    }

    lemma SwappedRows(before: seq<T>, after: seq<T>, i: nat, j: nat)
      requires Valid() && i < rows && j < rows && i != j && |before| == |after| == rows * cols
      requires 0 <= i * cols && i * cols + cols <= |before| && 0 <= j * cols && j * cols + cols <= |before|
      requires i * cols + cols <= j * cols || j * cols + cols <= i * cols
      requires after[i * cols..i * cols + cols] == RowAt(before, rows, cols, j)
      requires after[j * cols..j * cols + cols] == RowAt(before, rows, cols, i)
      requires forall p :: 0 <= p < |before| && !(i * cols <= p < i * cols + cols) && !(j * cols <= p < j * cols + cols)
                 ==> after[p] == before[p]
      ensures RowsOf(after, rows, cols) == Swap(RowsOf(before, rows, cols), i, j)
    {
      var a, b := i * cols, j * cols;
      var mid := before[..a] + after[a..a + cols] + before[a + cols..];
      var m := RowsOf(before, rows, cols);
      assert mid[a..a + cols] == m[j];
      RowReplaced(before, mid, rows, cols, i, m[j]);
      RowReplaced(mid, after, rows, cols, j, m[i]);
    }

    /** Multiplies row i by c, through the byte kernel with the row as both its input and its output. */
    method ScaleRow(g: Package, i: nat, c: T)
      requires g.Ready() && Valid() && i < rows
      modifies elements
      ensures View() == old(View())[i := Scale(c, old(View())[i])]
    {
      hide Mul, Package.Ready;
      var bytes := RowBytes(i);
      var s := Slice(bytes, 0, 2 * cols);
      ghost var before := bytes[..];
      MulByteSlice(g, false, c, s, s);
      assert before[0..2 * cols] == before;
      ghost var r := Scale(c, View()[i]);
      forall k | 0 <= k < cols
        ensures Element(bytes[..], 0, k) == r[k]
      {
      }
      SetRowBytes(i, bytes, r);
    }

    /** Adds c times row src to row dest. */
    method AddScaledRow(g: Package, dest: nat, src: nat, c: T)
      requires g.Ready() && Valid() && dest < rows && src < rows
      modifies elements
      ensures View() == old(View())[dest := AddScaled(old(View())[dest], c, old(View())[src])]
    {
      hide Mul, Add, Package.Ready;
      var srcBytes := RowBytes(src);
      var destBytes := RowBytes(dest);
      ghost var before := destBytes[..];
      MulByteSlice(g, true, c, Slice(srcBytes, 0, 2 * cols), Slice(destBytes, 0, 2 * cols));
      assert srcBytes[0..2 * cols] == srcBytes[..];
      ghost var r := AddScaled(View()[dest], c, View()[src]);
      forall k | 0 <= k < cols
        ensures Element(destBytes[..], 0, k) == r[k]
      {
        assert Element(srcBytes[..], 0, k) == View()[src][k];
        assert Element(before, 0, k) == View()[dest][k];
      }
      SetRowBytes(dest, destBytes, r);
    }
  }
}
