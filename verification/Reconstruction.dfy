/**
  The linear algebra behind erasure reconstruction in rs/rs.go: the system set up from the surviving shards has the
  lost shards as its solution.
 */
module Reconstruction {
  import opened Field
  import opened LinAlg
  import opened Slices
  import opened Apply

  // Which shards are there.

  /** The indices below n that are present, in order. */
  function Available(present: seq<bool>, n: nat): (a: seq<nat>)
    requires n <= |present|
    ensures |a| <= n && forall j :: 0 <= j < |a| ==> a[j] < n && present[a[j]]
  {
    if n == 0 then [] else
    if present[n - 1] then Available(present, n - 1) + [n - 1] else Available(present, n - 1)
  }

  /** The indices below n that are absent, in order. */
  function Missing(present: seq<bool>, n: nat): (a: seq<nat>)
    requires n <= |present|
    ensures |a| <= n && forall j :: 0 <= j < |a| ==> a[j] < n && !present[a[j]]
  {
    if n == 0 then [] else
    if present[n - 1] then Missing(present, n - 1) else Missing(present, n - 1) + [n - 1]
  }

  /** The first indices below n that are present, no more than limit of them. */
  function FirstAvailable(present: seq<bool>, n: nat, limit: nat): (a: seq<nat>)
    requires n <= |present|
    ensures |a| <= limit && forall j :: 0 <= j < |a| ==> a[j] < n && present[a[j]]
  {
    if n == 0 then [] else
    var a := FirstAvailable(present, n - 1, limit);
    if present[n - 1] && |a| < limit then a + [n - 1] else a
  }

  lemma {:induction false} CountsAddUp(present: seq<bool>, n: nat)
    requires n <= |present|
    ensures |Available(present, n)| + |Missing(present, n)| == n
  {
    if n == 0 {
    } else {
      CountsAddUp(present, n - 1);
    }
  }

  /** Enough are found exactly when enough are present. */
  lemma {:induction false} FirstAvailableCount(present: seq<bool>, n: nat, limit: nat)
    requires n <= |present|
    ensures |FirstAvailable(present, n, limit)| == Min(limit, |Available(present, n)|)
  {
    if n == 0 {
    } else {
      FirstAvailableCount(present, n - 1, limit);
    }
  }

  ghost predicate Increasing(a: seq<nat>) {
    forall i, j :: 0 <= i < j < |a| ==> a[i] < a[j]
  }

  lemma {:induction false} MissingIncreasing(present: seq<bool>, n: nat)
    requires n <= |present|
    ensures Increasing(Missing(present, n))
  {
    if n == 0 {
    } else {
      MissingIncreasing(present, n - 1);
    }
  }

  lemma {:induction false} MissingComplete(present: seq<bool>, n: nat, i: nat)
    requires i < n <= |present| && !present[i]
    ensures exists j :: 0 <= j < |Missing(present, n)| && Missing(present, n)[j] == i
  {
    if i < n - 1 {
      MissingComplete(present, n - 1, i);
      var j :| 0 <= j < |Missing(present, n - 1)| && Missing(present, n - 1)[j] == i;
      assert Missing(present, n)[j] == i;
    } else {
      assert Missing(present, n)[|Missing(present, n)| - 1] == i;
    }
  }

  // Sums over some of the positions.

  function Pick(a: Vector, at: seq<nat>): (p: Vector)
    requires forall j :: 0 <= j < |at| ==> at[j] < |a|
    ensures |p| == |at|
  {
    seq(|at|, j requires 0 <= j < |at| => a[at[j]])
  }

  lemma {:induction false} DotPrefix(a: Vector, x: Vector, b: Vector, y: Vector, n: nat)
    requires n <= |a| && n <= |x| && n <= |b| && n <= |y|
    requires forall k :: 0 <= k < n ==> a[k] == b[k] && x[k] == y[k]
    ensures Dot(a, x, n) == Dot(b, y, n)
  {
    hide Add, Mul;
    if n == 0 {
    } else {
      DotPrefix(a, x, b, y, n - 1);
    }
  }

  function PickedDot(a: Vector, x: Vector, at: seq<nat>): T
    requires forall j :: 0 <= j < |at| ==> at[j] < |a| && at[j] < |x|
  {
    Dot(Pick(a, at), Pick(x, at), |at|)
  }

  lemma PickedDotExtends(a: Vector, x: Vector, at: seq<nat>, i: nat)
    requires forall j :: 0 <= j < |at| ==> at[j] < |a| && at[j] < |x|
    requires i < |a| && i < |x|
    ensures PickedDot(a, x, at + [i]) == Add(PickedDot(a, x, at), Mul(a[i], x[i]))
  {
    hide Add, Mul;
    var more := at + [i];
    DotPrefix(Pick(a, more), Pick(x, more), Pick(a, at), Pick(x, at), |at|);
    assert Pick(a, more)[|at|] == a[i] && Pick(x, more)[|at|] == x[i];
  }

  /** The whole sum is the sum over the positions present plus the sum over those missing. */
  lemma {:induction false} SplitSum(a: Vector, x: Vector, present: seq<bool>, n: nat)
    requires n <= |present| && n <= |a| && n <= |x|
    ensures Dot(a, x, n) == Add(PickedDot(a, x, Available(present, n)), PickedDot(a, x, Missing(present, n)))
  {
    hide Add, Mul, PickedDot;
    if n == 0 {
      EmptyPick(a, x);
      AddZero(0);
    } else {
      SplitSum(a, x, present, n - 1);
      var p, q := PickedDot(a, x, Available(present, n - 1)), PickedDot(a, x, Missing(present, n - 1));
      var t := Mul(a[n - 1], x[n - 1]);
      AddAssoc(p, q, t);
      if present[n - 1] {
        PickedDotExtends(a, x, Available(present, n - 1), n - 1);
        AddComm(q, t);
        AddAssoc(p, t, q);
      } else {
        PickedDotExtends(a, x, Missing(present, n - 1), n - 1);
      }
    }
  }

  lemma EmptyPick(a: Vector, x: Vector)
    ensures PickedDot(a, x, []) == 0
  {
  }

  lemma {:induction false} DotConcat(a: Vector, b: Vector, x: Vector, y: Vector, n: nat)
    requires |a| == |x| && n <= |b| && n <= |y|
    ensures Dot(a + b, x + y, |a| + n) == Add(Dot(a, x, |a|), Dot(b, y, n))
  {
    hide Add, Mul;
    if n == 0 {
      DotPrefix(a + b, x + y, a, x, |a|);
      AddZero(Dot(a, x, |a|));
    } else {
      DotConcat(a, b, x, y, n - 1);
      AddAssoc(Dot(a, x, |a|), Dot(b, y, n - 1), Mul(b[n - 1], y[n - 1]));
    }
  }

  // The reconstruction system.

  /** The rows of the recovery blocks used are rows of pm with an entry for every data shard. */
  ghost predicate RowsOfCode(pm: Rows, used: seq<nat>, dataShards: nat) {
    forall i :: 0 <= i < |used| ==> used[i] < |pm| && |pm[used[i]]| == dataShards
  }

  /** Row i holds the coefficients of the missing shards in used recovery block i. */
  ghost predicate IsLeft(pm: Rows, used: seq<nat>, missing: seq<nat>, dataShards: nat, m: Rows)
    requires RowsOfCode(pm, used, dataShards) && forall j :: 0 <= j < |missing| ==> missing[j] < dataShards
  {
    |m| == |used| && forall i :: 0 <= i < |used| ==> m[i] == Pick(pm[used[i]], missing)
  }

  function UnitRow(i: nat, n: nat): (u: Vector)
    ensures |u| == n
  {
    seq(n, k => if k == i then 1 else 0)
  }

  /** Row i holds the coefficients of the available shards, then a one for recovery block i. */
  ghost predicate IsRight(pm: Rows, used: seq<nat>, available: seq<nat>, dataShards: nat, n: Rows)
    requires RowsOfCode(pm, used, dataShards) && forall j :: 0 <= j < |available| ==> available[j] < dataShards
  {
    |n| == |used| && forall i :: 0 <= i < |used| ==> n[i] == Pick(pm[used[i]], available) + UnitRow(i, |used|)
  }

  /** A row of the right-hand side: the available part, plus recovery block i. */
  lemma RightSide(a: Vector, x: Vector, parity: Vector, i: nat)
    requires |a| == |x| && i < |parity|
    ensures Dot(a + UnitRow(i, |parity|), x + parity, |x + parity|) == Add(Dot(a, x, |x|), parity[i])
  {
    hide Add, Mul, Dot;
    DotConcat(a, UnitRow(i, |parity|), x, parity, |parity|);
    DotUnitRow(UnitRow(i, |parity|), i, parity, |parity|);
  }

  /** One equation: a recovery block is its row times the data, rearranged with the missing shards on the left. */
  lemma Equation(row: Vector, data: Vector, present: seq<bool>, parity: Vector, i: nat)
    requires |row| == |data| == |present| && i < |parity| && parity[i] == Dot(row, data, |row|)
    ensures var available, missing := Available(present, |row|), Missing(present, |row|);
      RowSolves(Pick(row, missing), Pick(row, available) + UnitRow(i, |parity|),
                Pick(data, missing), Pick(data, available) + parity)
  {
    hide *;
    var available, missing := Available(present, |row|), Missing(present, |row|);
    SplitSum(row, data, present, |row|);
    Rearranged(row, data, parity, i, available, missing);
  }

  lemma Rearranged(row: Vector, data: Vector, parity: Vector, i: nat, available: seq<nat>, missing: seq<nat>)
    requires |row| == |data| && i < |parity|
    requires forall j :: 0 <= j < |available| ==> available[j] < |row|
    requires forall j :: 0 <= j < |missing| ==> missing[j] < |row|
    requires parity[i] == Add(PickedDot(row, data, available), PickedDot(row, data, missing))
    ensures RowSolves(Pick(row, missing), Pick(row, available) + UnitRow(i, |parity|),
                      Pick(data, missing), Pick(data, available) + parity)
  {
    hide Add, Dot, Pick, UnitRow;
    RightSide(Pick(row, available), Pick(data, available), parity, i);
    AddCancel(PickedDot(row, data, missing), PickedDot(row, data, available));
  }

  /** The missing elements solve the system whose right-hand side is what survived. */
  lemma MissingSolves(pm: Rows, present: seq<bool>, used: seq<nat>, m: Rows, n: Rows, data: Vector, parity: Vector)
    requires |data| == |present| && |parity| == |used| && RowsOfCode(pm, used, |present|)
    requires IsLeft(pm, used, Missing(present, |present|), |present|, m)
    requires IsRight(pm, used, Available(present, |present|), |present|, n)
    requires forall i :: 0 <= i < |used| ==> parity[i] == Dot(pm[used[i]], data, |data|)
    ensures Solves(m, n, Pick(data, Missing(present, |present|)), Pick(data, Available(present, |present|)) + parity)
  {
    hide Dot, Available, Missing, Pick, UnitRow, RowSolves;
    var available, missing := Available(present, |present|), Missing(present, |present|);
    forall i | 0 <= i < |m|
      ensures RowSolves(m[i], n[i], Pick(data, missing), Pick(data, available) + parity)
    {
      Equation(pm[used[i]], data, present, parity, i);
    }
  }

  // From elements to shards.

  /** What goes into the matrix application: the available shards, then the recovery blocks used. */
  ghost predicate IsInput(pm: Rows, orig: seq<Bytes>, present: seq<bool>, used: seq<nat>, ins: seq<Bytes>, len: nat)
    requires |orig| == |present| && RowsOfCode(pm, used, |orig|)
  {
    var available := Available(present, |present|);
    && SameLength(orig, len) && SameLength(ins, len) && |ins| == |available| + |used|
    && (forall j :: 0 <= j < |available| ==> ins[j] == orig[available[j]])
    && (forall i :: 0 <= i < |used| ==> IsApplied(pm[used[i]], orig, ins[|available| + i]))
  }

  function UsedElements(ins: seq<Bytes>, first: nat, k: nat): (p: Vector)
    requires first <= |ins| && forall j :: 0 <= j < |ins| ==> 2 * k + 2 <= |ins[j]|
    ensures |p| == |ins| - first
  {
    ColumnOf(ins, k)[first..]
  }

  lemma InputColumn(pm: Rows, orig: seq<Bytes>, present: seq<bool>, used: seq<nat>, ins: seq<Bytes>, len: nat, k: nat)
    requires |orig| == |present| && RowsOfCode(pm, used, |orig|) && IsInput(pm, orig, present, used, ins, len)
    requires 2 * k + 2 <= len
    ensures ColumnOf(ins, k)
            == Pick(ColumnOf(orig, k), Available(present, |present|))
               + UsedElements(ins, |Available(present, |present|)|, k)
  {
    hide Available, IsApplied;
    var available := Available(present, |present|);
    forall j | 0 <= j < |available|
      ensures ColumnOf(ins, k)[j] == Pick(ColumnOf(orig, k), available)[j]
    {
    }
  }

  /** Element k of every missing shard comes out of the reconstruction. */
  lemma RecoveredElement(pm: Rows, orig: seq<Bytes>, present: seq<bool>, used: seq<nat>, ins: seq<Bytes>, len: nat,
                         m: Rows, n: Rows, r: Rows, k: nat)
    requires |orig| == |present| && RowsOfCode(pm, used, |orig|) && IsInput(pm, orig, present, used, ins, len)
    requires IsLeft(pm, used, Missing(present, |present|), |present|, m)
    requires IsRight(pm, used, Available(present, |present|), |present|, n)
    requires IsSolution(m, n, r) && 2 * k + 2 <= len
    ensures IsImage(r, Pick(ColumnOf(orig, k), Missing(present, |present|)), ColumnOf(ins, k))
  {
    hide Dot, IsLeft, IsRight, Pick, ColumnOf, Solves, Available, Missing;
    var first := |Available(present, |present|)|;
    var parity := UsedElements(ins, first, k);
    var data := ColumnOf(orig, k);
    InputColumn(pm, orig, present, used, ins, len, k);
    forall i | 0 <= i < |used|
      ensures parity[i] == Dot(pm[used[i]], data, |data|)
    {
      ParityElement(pm[used[i]], orig, ins, first + i, k);
    }
    MissingSolves(pm, present, used, m, n, data, parity);
  }

  lemma ParityElement(row: Vector, orig: seq<Bytes>, ins: seq<Bytes>, at: nat, k: nat)
    requires at < |ins| && |row| == |orig| && IsApplied(row, orig, ins[at]) && 2 * k + 2 <= |ins[at]|
    requires SameLength(ins, |ins[at]|)
    ensures SameLength(orig, |ins[at]|) && ColumnOf(ins, k)[at] == Dot(row, ColumnOf(orig, k), |orig|)
  {
    hide Dot;
  }

  /** Reconstructed shard j is the missing shard it stands for. */
  lemma Recovered(pm: Rows, orig: seq<Bytes>, present: seq<bool>, used: seq<nat>, ins: seq<Bytes>, len: nat, m: Rows,
                  n: Rows, r: Rows, j: nat, out: Bytes)
    requires |orig| == |present| && RowsOfCode(pm, used, |orig|) && IsInput(pm, orig, present, used, ins, len)
    requires IsLeft(pm, used, Missing(present, |present|), |present|, m)
    requires IsRight(pm, used, Available(present, |present|), |present|, n)
    requires IsSolution(m, n, r) && len % 2 == 0 && j < |r| == |Missing(present, |present|)|
    requires |out| == len && IsApplied(r[j], ins, out)
    ensures out == orig[Missing(present, |present|)[j]]
  {
    hide Dot, IsLeft, IsRight, IsSolution, IsInput, Missing, Available;
    var lost := orig[Missing(present, |present|)[j]];
    LengthsOf(pm, orig, present, used, ins, len);
    forall k | 0 <= 2 * k && 2 * k + 2 <= len
      ensures Element(out, 0, k) == Element(lost, 0, k)
    {
      RecoveredElement(pm, orig, present, used, ins, len, m, n, r, k);
    }
    SameElements(out, lost);
  }

  lemma LengthsOf(pm: Rows, orig: seq<Bytes>, present: seq<bool>, used: seq<nat>, ins: seq<Bytes>, len: nat)
    requires |orig| == |present| && RowsOfCode(pm, used, |orig|) && IsInput(pm, orig, present, used, ins, len)
    ensures SameLength(orig, len) && SameLength(ins, len)
  {
  }

  lemma SameElements(a: Bytes, b: Bytes)
    requires |a| == |b| && |a| % 2 == 0
    requires forall k :: 0 <= 2 * k && 2 * k + 2 <= |a| ==> Element(a, 0, k) == Element(b, 0, k)
    ensures a == b
  {
    forall i | 0 <= i < |a|
      ensures a[i] == b[i]
    {
      var k := i / 2;
      assert Element(a, 0, k) == Element(b, 0, k);
      ElementBytes(a[2 * k], a[2 * k + 1]);
      ElementBytes(b[2 * k], b[2 * k + 1]);
    }
  }
}
