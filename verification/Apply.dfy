/**
  Applying a matrix to shards: rs/rs.go. Every output shard is, element by element, a row of the matrix times the
  column of input elements. The parallel form cuts the shards into ranges and lets one goroutine work on each; the
  order in which their kernel calls interleave is left open.
 */
module Apply {
  import opened Contexts
  import opened Bits
  import opened Field
  import opened LinAlg
  import opened Slices
  import opened Kernels
  import opened Matrices

  type Bytes = seq<Byte>

  const MIN_SPLIT_BYTES: nat := 16

  /** Element k of every input shard. */
  function ColumnOf(ins: seq<Bytes>, k: nat): (c: Vector)
    requires forall j :: 0 <= j < |ins| ==> 2 * k + 2 <= |ins[j]|
    ensures |c| == |ins|
  {
    seq(|ins|, j requires 0 <= j < |ins| => Element(ins[j], 0, k))
  }

  ghost predicate SameLength(shards: seq<Bytes>, len: nat) {
    forall j :: 0 <= j < |shards| ==> |shards[j]| == len
  }

  /** In the window from byte lo to byte hi, out is the sum of the first n terms of row times the input columns. */
  ghost predicate Partial(row: Vector, ins: seq<Bytes>, out: Bytes, lo: nat, hi: nat, n: nat) {
    && n <= |row| == |ins| && hi <= |out| && SameLength(ins, |out|)
    && forall k :: lo <= 2 * k && 2 * k + 2 <= hi ==> Element(out, 0, k) == Dot(row, ColumnOf(ins, k), n)
  }

  /** out is row times ins. */
  ghost predicate IsApplied(row: Vector, ins: seq<Bytes>, out: Bytes) {
    Partial(row, ins, out, 0, |out|, |row|)
  }

  /** The bytes of an output shard are determined by its row and the inputs. */
  lemma AppliedUnique(row: Vector, ins: seq<Bytes>, a: Bytes, b: Bytes)
    requires IsApplied(row, ins, a) && IsApplied(row, ins, b) && |a| == |b| && |a| % 2 == 0
    ensures a == b
  {
    hide Dot;
    forall i | 0 <= i < |a|
      ensures a[i] == b[i]
    {
      var k := i / 2;
      assert Element(a, 0, k) == Element(b, 0, k);
      ElementBytes(a[2 * k], a[2 * k + 1]);
      ElementBytes(b[2 * k], b[2 * k + 1]);
    }
  }

  /** One kernel call moves a window on by one term. */
  lemma NextTerm(row: Vector, ins: seq<Bytes>, before: Bytes, after: Bytes, lo: nat, hi: nat, n: nat)
    requires lo % 2 == 0 && hi % 2 == 0 && lo <= hi <= |before| && n < |row| == |ins| && SameLength(ins, |before|)
    requires n > 0 ==> Partial(row, ins, before, lo, hi, n)
    requires Done(n > 0, row[n], ins[n][lo..hi], before, after, lo, hi - lo)
    ensures Partial(row, ins, after, lo, hi, n + 1)
  {
    hide Mul, Add;
    forall k | lo <= 2 * k && 2 * k + 2 <= hi
      ensures Element(after, 0, k) == Dot(row, ColumnOf(ins, k), n + 1)
    {
      var l := k - lo / 2;
      assert Element(after, lo, l) == Element(after, 0, k);
      assert Element(before, lo, l) == Element(before, 0, k);
      assert Element(ins[n][lo..hi], 0, l) == Element(ins[n], 0, k);
      var p := Mul(row[n], Element(ins[n], 0, k));
      AddZero(p);
      assert Dot(row, ColumnOf(ins, k), n + 1) == Add(Dot(row, ColumnOf(ins, k), n), p);
    }
  }

  /** A window is not affected by writes outside it. */
  lemma WindowKept(row: Vector, ins: seq<Bytes>, before: Bytes, after: Bytes, lo: nat, hi: nat, n: nat)
    requires Partial(row, ins, before, lo, hi, n) && |after| == |before|
    requires forall b :: lo <= b < hi ==> after[b] == before[b]
    ensures Partial(row, ins, after, lo, hi, n)
  {
    hide Dot;
    forall k | lo <= 2 * k && 2 * k + 2 <= hi
      ensures Element(after, 0, k) == Dot(row, ColumnOf(ins, k), n)
    {
      assert Element(after, 0, k) == Element(before, 0, k);
    }
  }

  // The arrays a call works on.

  function Contents(arrays: seq<array<Byte>>): (c: seq<Bytes>)
    reads set i | 0 <= i < |arrays| :: arrays[i]
    ensures |c| == |arrays| && forall i :: 0 <= i < |c| ==> c[i] == arrays[i][..]
  {
    seq(|arrays|, i requires 0 <= i < |arrays| reads set j | 0 <= j < |arrays| :: arrays[j] => arrays[i][..])
  }

  /** Inputs and outputs of one length, no output being another output or an input. */
  ghost predicate Buffers(ins: seq<array<Byte>>, outs: seq<array<Byte>>, len: nat) {
    && len % 2 == 0
    && (forall j :: 0 <= j < |ins| ==> ins[j].Length == len)
    && (forall i :: 0 <= i < |outs| ==> outs[i].Length == len)
    && (forall i, j :: 0 <= i < |outs| && 0 <= j < |ins| ==> outs[i] != ins[j])
    && (forall i, l :: 0 <= i < l < |outs| ==> outs[i] != outs[l])
  }

  function OutSet(outs: seq<array<Byte>>): set<array<Byte>> {
    set i | 0 <= i < |outs| :: outs[i]
  }

  lemma InputsKept(ins: seq<array<Byte>>, was: seq<Bytes>)
    requires |was| == |ins| && forall j :: 0 <= j < |ins| ==> ins[j][..] == was[j]
    ensures Contents(ins) == was
  {
  }

  /** One kernel call on the window of output i: the first term is stored, later ones are added. */
  method ApplyTerm(g: Package, m: Matrix, ins: seq<array<Byte>>, outs: seq<array<Byte>>, len: nat, i: nat, j: nat,
                   lo: nat, hi: nat, ghost was: seq<Bytes>)
    requires g.Ready() && m.Valid() && m.rows == |outs| && m.cols == |ins| && Buffers(ins, outs, len)
    requires i < |outs| && j < |ins| && lo % 2 == 0 && hi % 2 == 0 && lo <= hi <= len
    requires forall o :: 0 <= o < |outs| ==> outs[o] as object != m.elements
    requires Contents(ins) == was
    requires j > 0 ==> Partial(m.View()[i], was, outs[i][..], lo, hi, j)
    modifies outs[i]
    ensures Contents(ins) == was && m.View() == old(m.View())
    ensures Partial(m.View()[i], was, outs[i][..], lo, hi, j + 1)
    ensures forall b :: 0 <= b < len && !(lo <= b < hi) ==> outs[i][b] == old(outs[i][b])
  {
    hide Mul, Add, Dot, Package.Ready, Partial, Contents, RowsOf;
    var c := m.At(i, j);
    ghost var before := outs[i][..];
    ghost var row := m.View()[i];
    MulByteSlice(g, j > 0, c, Slice(ins[j], lo, hi - lo), Slice(outs[i], lo, hi - lo));
    assert ins[j][lo..lo + (hi - lo)] == was[j][lo..hi];
    InputsKept(ins, was);
    NextTerm(row, was, before, outs[i][..], lo, hi, j);
  }

  /** Nothing has changed but the bytes from lo to hi. */
  ghost predicate SameOutside(before: Bytes, after: Bytes, lo: nat, hi: nat) {
    |after| == |before| && forall b :: 0 <= b < |before| && !(lo <= b < hi) ==> after[b] == before[b]
  }

  /** The part of applyMatrixSlice for one row: the inputs in order. */
  method ApplyRow(g: Package, m: Matrix, ins: seq<array<Byte>>, outs: seq<array<Byte>>, len: nat, i: nat, lo: nat,
                  hi: nat, ghost was: seq<Bytes>)
    requires g.Ready() && m.Valid() && m.rows == |outs| && m.cols == |ins| && Buffers(ins, outs, len)
    requires i < |outs| && lo % 2 == 0 && hi % 2 == 0 && lo <= hi <= len
    requires forall o :: 0 <= o < |outs| ==> outs[o] as object != m.elements
    requires Contents(ins) == was
    modifies outs[i]
    ensures Contents(ins) == was && m.View() == old(m.View())
    ensures Partial(m.View()[i], was, outs[i][..], lo, hi, |ins|)
    ensures SameOutside(old(outs[i][..]), outs[i][..], lo, hi)
  {
    hide Dot, Package.Ready, Partial, RowsOf, Contents;
    ghost var view, first := m.View(), outs[i][..];
    for j := 0 to |ins|
      invariant Contents(ins) == was && m.View() == view && SameOutside(first, outs[i][..], lo, hi)
      invariant j > 0 ==> Partial(view[i], was, outs[i][..], lo, hi, j)
    {
      ApplyTerm(g, m, ins, outs, len, i, j, lo, hi, was);
    }
  }

  /** applyMatrixSlice on one window: rows in order, until cancelled. */
  method ApplyMatrixSlice(ctx: Context, g: Package, m: Matrix, ins: seq<array<Byte>>, outs: seq<array<Byte>>, len: nat,
                          lo: nat, hi: nat)
    returns (stopped: bool)
    requires g.Ready() && m.Valid() && m.rows == |outs| && m.cols == |ins| && Buffers(ins, outs, len)
    requires lo % 2 == 0 && hi % 2 == 0 && lo <= hi <= len
    requires forall o :: 0 <= o < |outs| ==> outs[o] as object != m.elements
    modifies ctx`cancelled, OutSet(outs)
    ensures old(ctx.cancelled) || stopped ==> ctx.cancelled
    ensures Contents(ins) == old(Contents(ins)) && m.View() == old(m.View())
    ensures !stopped ==> forall i :: 0 <= i < |outs| ==>
      Partial(m.View()[i], Contents(ins), outs[i][..], lo, hi, |ins|)
    ensures forall i :: 0 <= i < |outs| ==> SameOutside(old(Contents(outs))[i], outs[i][..], lo, hi)
  {
    hide Dot, Package.Ready, Partial, RowsOf;
    ghost var was, view, first := Contents(ins), m.View(), Contents(outs);
    for i := 0 to |outs|
      invariant old(ctx.cancelled) ==> ctx.cancelled
      invariant Contents(ins) == was && m.View() == view
      invariant forall l :: 0 <= l < i ==> Partial(view[l], was, outs[l][..], lo, hi, |ins|)
      invariant forall l :: 0 <= l < i ==> SameOutside(first[l], outs[l][..], lo, hi)
      invariant forall l :: i <= l < |outs| ==> outs[l][..] == first[l]
    {
      var e := ctx.Err();
      if e {
        return true;
      }
      ApplyRow(g, m, ins, outs, len, i, lo, hi, was);
    }
    stopped := false;
  }

  // Splitting a shard between goroutines.

  function Max(a: int, b: int): int {
    if a < b then b else a
  }

  function Min(a: int, b: int): int {
    if a < b then a else b
  }

  /** How many bytes each goroutine multiplies: the even share, rounded up to whole blocks. */
  function SplitForBlock(dataLength: nat, numGoroutines: nat, kernelBlock: nat): nat
    requires numGoroutines > 0
  {
    var block := Max(kernelBlock, MIN_SPLIT_BYTES);
    var split := Max((dataLength + numGoroutines - 1) / numGoroutines, block);
    var rem := split % block;
    if rem != 0 then split + block - rem else split
  }

  /** The split is a whole number of blocks, less than one block above the share, and needs no more goroutines. */
  lemma SplitBounds(dataLength: nat, numGoroutines: nat, kernelBlock: nat)
    requires numGoroutines > 0
    ensures var block := Max(kernelBlock, MIN_SPLIT_BYTES);
      var split := SplitForBlock(dataLength, numGoroutines, kernelBlock);
      var share := Max((dataLength + numGoroutines - 1) / numGoroutines, block);
      && split % block == 0 && split >= block && share <= split < share + block
      && split * numGoroutines >= dataLength && (dataLength + split - 1) / split <= numGoroutines
  {
    var block := Max(kernelBlock, MIN_SPLIT_BYTES);
    var share := Max((dataLength + numGoroutines - 1) / numGoroutines, block);
    var split := SplitForBlock(dataLength, numGoroutines, kernelBlock);
    RoundUp(share, block);
    CeilingCovers(dataLength, numGoroutines);
    MulLess((dataLength + numGoroutines - 1) / numGoroutines, split, numGoroutines);
    CeilingBound(dataLength, split, numGoroutines);
  }

  lemma RoundUp(share: nat, block: nat)
    requires block > 0
    ensures share % block != 0 ==> (share + block - share % block) % block == 0
    ensures 0 <= share % block < block
  {
    var q, r := share / block, share % block;
    assert share == q * block + r;
    if r != 0 {
      assert share + block - r == 0 + (q + 1) * block;
      DivMod(0, q + 1, block);
    }
  }

  lemma CeilingCovers(n: nat, d: nat)
    requires d > 0
    ensures (n + d - 1) / d * d >= n && (n + d - 1) / d >= 0
  {
    DivModSum(n + d - 1, d);
  }

  /** If k pieces of size s cover n, then no more than k are needed. */
  lemma CeilingBound(n: nat, s: nat, k: nat)
    requires s > 0 && s * k >= n
    ensures (n + s - 1) / s <= k
  {
    DivModSum(n + s - 1, s);
    var q := (n + s - 1) / s;
    assert (k + 1) * s == s * k + s;
    if q > k {
      MulLess(k + 1, q, s);
    }
  }

  // The parallel form.

  /** The window of goroutine w. */
  function Start(w: nat, split: nat): nat {
    w * split
  }

  function End(w: nat, split: nat, len: nat): int {
    Min(Start(w, split) + split, len)
  }

  ghost predicate Splits(len: nat, split: nat, count: nat) {
    split > 0 && split % 2 == 0 && len % 2 == 0 && count == (len + split - 1) / split
  }

  /** No window is empty, and every one but the last has the full split. */
  lemma WindowOf(len: nat, split: nat, count: nat, w: nat)
    requires Splits(len, split, count) && w < count
    ensures Start(w, split) < End(w, split, len) <= len
    ensures Start(w, split) % 2 == 0 && End(w, split, len) % 2 == 0
    ensures w < count - 1 ==> End(w, split, len) - Start(w, split) == split
  {
    hide Start;
    StartBound(w + 1, count, len, split);
    NextStart(w, split);
    if w < count - 1 {
      StartBound(w + 2, count, len, split);
      NextStart(w + 1, split);
    }
  }

  lemma StartBound(w: nat, count: nat, len: nat, split: nat)
    requires split > 0 && count == (len + split - 1) / split && w <= count
    ensures Start(w, split) <= len + split - 1
  {
    DivModSum(len + split - 1, split);
    MulLess(w, count, split);
  }

  lemma NextStart(w: nat, split: nat)
    requires split % 2 == 0
    ensures Start(w + 1, split) == Start(w, split) + split && Start(w, split) % 2 == 0
  {
    EvenMultiple(w, split);
    assert (w + 1) * split == w * split + split;
  }

  /** Windows do not overlap. */
  lemma WindowsApart(len: nat, split: nat, v: nat, w: nat)
    requires v < w
    ensures End(v, split, len) <= Start(w, split)
  {
    MulLess(v + 1, w, split);
    assert (v + 1) * split == v * split + split;
  }

  /** Every byte is in a window. */
  lemma WindowAt(len: nat, split: nat, count: nat, b: nat)
    requires Splits(len, split, count) && b < len
    ensures 0 <= b / split < count && Start(b / split, split) <= b < End(b / split, split, len)
  {
    CeilingCovers(len, split);
    DivModSum(b, split);
    if b / split >= count {
      MulLess(count, b / split, split);
    }
  }

  lemma EvenMultiple(w: nat, split: nat)
    requires split % 2 == 0
    ensures w * split >= 0 && w * split % 2 == 0
  {
    var h := split / 2;
    assert split == 2 * h;
    assert w * split == 2 * (w * h);
  }

  /** What a goroutine has achieved in its window: row outputs are complete, and the next has col terms. */
  ghost predicate Progress(view: Rows, was: seq<Bytes>, now: seq<Bytes>, lo: nat, hi: int, row: nat, col: nat)
    requires |view| == |now|
  {
    && hi >= 0 && row <= |now| && (col > 0 ==> row < |now|) && (|was| > 0 ==> col < |was|)
    && (forall i :: 0 <= i < row ==> Partial(view[i], was, now[i], lo, hi, |was|))
    && (col > 0 ==> Partial(view[row], was, now[row], lo, hi, col))
  }

  function Sum(s: seq<nat>): nat {
    if s == [] then 0 else s[0] + Sum(s[1..])
  }

  lemma {:induction false} SumUpdate(s: seq<nat>, w: nat, x: nat)
    requires w < |s|
    ensures Sum(s[w := x]) == Sum(s) - s[w] + x
  {
    if w == 0 {
      assert s[w := x][1..] == s[1..];
    } else {
      assert s[w := x][1..] == s[1..][w - 1 := x];
      SumUpdate(s[1..], w - 1, x);
    }
  }

  /** Complete windows make a complete output. */
  lemma JoinWindows(row: Vector, ins: seq<Bytes>, out: Bytes, split: nat, count: nat)
    requires Splits(|out|, split, count) && |row| == |ins| && SameLength(ins, |out|)
    requires forall w :: 0 <= w < count ==>
      End(w, split, |out|) >= 0 && Partial(row, ins, out, Start(w, split), End(w, split, |out|), |ins|)
    ensures IsApplied(row, ins, out)
  {
    hide Dot, Start, End;
    forall k | 0 <= 2 * k && 2 * k + 2 <= |out|
      ensures Element(out, 0, k) == Dot(row, ColumnOf(ins, k), |row|)
    {
      WindowAt(|out|, split, count, 2 * k);
      WindowOf(|out|, split, count, 2 * k / split);
    }
  }

  /** A write outside a goroutine's window leaves its progress as it was. */
  lemma OthersKept(view: Rows, was: seq<Bytes>, now: seq<Bytes>, i: nat, out: Bytes, lo: nat, hi: int, row: nat,
                   col: nat)
    requires |view| == |now| && i < |now| && Progress(view, was, now, lo, hi, row, col)
    requires |out| == |now[i]| && hi <= |out| && forall b :: lo <= b < hi ==> out[b] == now[i][b]
    ensures Progress(view, was, now[i := out], lo, hi, row, col)
  {
    hide Partial;
    if i < row {
      WindowKept(view[i], was, now[i], out, lo, hi, |was|);
    } else if i == row && col > 0 {
      WindowKept(view[i], was, now[i], out, lo, hi, col);
    }
  }

  /** The state of the goroutines: how far each has come in its window, and whether it has seen the cancellation. */
  datatype Team = Team(row: seq<nat>, col: seq<nat>, halted: seq<bool>) {

    ghost predicate Shape(count: nat) {
      |row| == |col| == |halted| == count
    }

    predicate Finished(w: nat, rows: nat)
      requires w < |row| && w < |halted|
    {
      halted[w] || row[w] == rows
    }
  }

  /** Every goroutine has done what its counters say. */
  ghost predicate AllProgress(team: Team, view: Rows, was: seq<Bytes>, now: seq<Bytes>, len: nat, split: nat,
                              count: nat)
    requires |view| == |now|
  {
    && team.Shape(count)
    && forall w :: 0 <= w < count ==>
         Progress(view, was, now, Start(w, split), End(w, split, len), team.row[w], team.col[w])
  }

  /** The counters of goroutine w after one more term of its current row. */
  function Advanced(team: Team, w: nat, terms: nat): Team
    requires w < |team.row| && w < |team.col|
  {
    if team.col[w] + 1 < terms then team.(col := team.col[w := team.col[w] + 1])
    else team.(row := team.row[w := team.row[w] + 1], col := team.col[w := 0])
  }

  /** A term written into one window advances that goroutine and leaves the others where they were. */
  lemma TeamAdvances(team: Team, view: Rows, was: seq<Bytes>, now: seq<Bytes>, out: Bytes, len: nat, split: nat,
                     count: nat, w: nat)
    requires |view| == |now| && Splits(len, split, count) && w < count && |was| > 0
    requires AllProgress(team, view, was, now, len, split, count) && team.row[w] < |now|
    requires |out| == |now[team.row[w]]| == len && End(w, split, len) >= 0
    requires Partial(view[team.row[w]], was, out, Start(w, split), End(w, split, len), team.col[w] + 1)
    requires forall b :: 0 <= b < len && !(Start(w, split) <= b < End(w, split, len)) ==> out[b] == now[team.row[w]][b]
    ensures AllProgress(Advanced(team, w, |was|), view, was, now[team.row[w] := out], len, split, count)
  {
    hide Partial, Start, End;
    var i := team.row[w];
    forall v | 0 <= v < count && v != w
      ensures Progress(view, was, now[i := out], Start(v, split), End(v, split, len), team.row[v], team.col[v])
    {
      hide Progress;
      WindowOf(len, split, count, v);
      WindowOf(len, split, count, w);
      if v < w { WindowsApart(len, split, v, w); } else { WindowsApart(len, split, w, v); }
      OthersKept(view, was, now, i, out, Start(v, split), End(v, split, len), team.row[v], team.col[v]);
    }
    assert Progress(view, was, now, Start(w, split), End(w, split, len), team.row[w], team.col[w]);
  }

  /** The next action of goroutine w: a row begins with a look at the context; then comes one kernel call. */
  method StepGoroutine(ctx: Context, g: Package, m: Matrix, ins: seq<array<Byte>>, outs: seq<array<Byte>>, len: nat,
                       split: nat, count: nat, w: nat, team: Team, ghost was: seq<Bytes>)
    returns (next: Team)
    requires g.Ready() && m.Valid() && m.rows == |outs| && m.cols == |ins| && Buffers(ins, outs, len)
    requires forall o :: 0 <= o < |outs| ==> outs[o] as object != m.elements
    requires Splits(len, split, count) && w < count && team.Shape(count) && !team.Finished(w, |outs|)
    requires Contents(ins) == was && AllProgress(team, m.View(), was, Contents(outs), len, split, count)
    modifies ctx`cancelled, OutSet(outs)
    ensures old(ctx.cancelled) ==> ctx.cancelled
    ensures Contents(ins) == was && m.View() == old(m.View())
    ensures AllProgress(next, m.View(), was, Contents(outs), len, split, count)
    ensures (next == team.(halted := team.halted[w := true]) && ctx.cancelled) || next == Advanced(team, w, |ins|)
  {
    hide Dot, Package.Ready, Partial, Start, End;
    var i, j := team.row[w], team.col[w];
    assert Progress(m.View(), was, Contents(outs), Start(w, split), End(w, split, len), i, j);
    if j == 0 {
      var e := ctx.Err();
      if e {
        next := team.(halted := team.halted[w := true]);
        return;
      }
    }
    WindowOf(len, split, count, w);
    hide Progress, AllProgress;
    ghost var now := Contents(outs);
    ApplyTermAt(g, m, ins, outs, len, i, j, Start(w, split), End(w, split, len), was);
    TeamAdvances(team, m.View(), was, now, outs[i][..], len, split, count, w);
    next := Advanced(team, w, |ins|);
  }

  /** ApplyTerm with its effect on all outputs stated at once. */
  method ApplyTermAt(g: Package, m: Matrix, ins: seq<array<Byte>>, outs: seq<array<Byte>>, len: nat, i: nat, j: nat,
                     lo: nat, hi: nat, ghost was: seq<Bytes>)
    requires g.Ready() && m.Valid() && m.rows == |outs| && m.cols == |ins| && Buffers(ins, outs, len)
    requires i < |outs| && j < |ins| && lo % 2 == 0 && hi % 2 == 0 && lo <= hi <= len
    requires forall o :: 0 <= o < |outs| ==> outs[o] as object != m.elements
    requires Contents(ins) == was
    requires j > 0 ==> Partial(m.View()[i], was, Contents(outs)[i], lo, hi, j)
    modifies outs[i]
    ensures Contents(ins) == was && m.View() == old(m.View())
    ensures Contents(outs) == old(Contents(outs))[i := outs[i][..]]
    ensures Partial(m.View()[i], was, outs[i][..], lo, hi, j + 1)
    ensures forall b :: 0 <= b < len && !(lo <= b < hi) ==> outs[i][b] == old(Contents(outs))[i][b]
  {
    hide Dot, Package.Ready, Partial;
    ApplyTerm(g, m, ins, outs, len, i, j, lo, hi, was);
  }

  /** Work still to be done by one goroutine. */
  function Left(rows: nat, cols: nat, row: nat, col: nat, halted: bool): nat
    requires row <= rows && (row < rows ==> col < cols) && (row == rows ==> col == 0)
  {
    if halted then 0 else WorkLeft(rows, cols, row, col); 1 + (rows - row) * cols - col
  }

  lemma WorkLeft(rows: nat, cols: nat, row: nat, col: nat)
    requires row <= rows && (row < rows ==> col < cols) && (row == rows ==> col == 0)
    ensures (rows - row) * cols - col >= 0
    ensures row < rows ==> (rows - row) * cols - col == (rows - (row + 1)) * cols + cols - col
  {
    if row < rows {
      assert (rows - row) * cols == (rows - (row + 1)) * cols + cols;
      MulLess(0, rows - (row + 1), cols);
    }
  }

  ghost predicate Counters(team: Team, count: nat, rows: nat, cols: nat, left: seq<nat>) {
    && team.Shape(count) && |left| == count
    && forall w :: 0 <= w < count ==>
         && team.row[w] <= rows && (team.row[w] < rows ==> team.col[w] < cols) && (team.row[w] == rows ==> team.col[w] == 0)
         && left[w] == Left(rows, cols, team.row[w], team.col[w], team.halted[w])
  }

  /** Either action of an unfinished goroutine leaves less to do. */
  lemma LessLeft(team: Team, next: Team, count: nat, rows: nat, cols: nat, left: seq<nat>, w: nat)
    returns (less: seq<nat>)
    requires Counters(team, count, rows, cols, left) && w < count && cols > 0 && !team.Finished(w, rows)
    requires next == team.(halted := team.halted[w := true]) || next == Advanced(team, w, cols)
    ensures Counters(next, count, rows, cols, less) && Sum(less) < Sum(left)
  {
    WorkLeft(rows, cols, team.row[w], team.col[w]);
    var x := Left(rows, cols, next.row[w], next.col[w], next.halted[w]);
    SumUpdate(left, w, x);
    less := left[w := x];
  }

  /** Goroutines run in any order until each has finished or stopped. */
  method RunGoroutines(ctx: Context, g: Package, m: Matrix, ins: seq<array<Byte>>, outs: seq<array<Byte>>, len: nat,
                       split: nat, count: nat, ghost was: seq<Bytes>)
    returns (complete: bool)
    requires g.Ready() && m.Valid() && m.rows == |outs| && m.cols == |ins| && Buffers(ins, outs, len)
    requires forall o :: 0 <= o < |outs| ==> outs[o] as object != m.elements
    requires Splits(len, split, count) && Contents(ins) == was
    modifies ctx`cancelled, OutSet(outs)
    ensures old(ctx.cancelled) || !complete ==> ctx.cancelled
    ensures Contents(ins) == was && m.View() == old(m.View())
    ensures complete ==> forall i :: 0 <= i < |outs| ==> IsApplied(m.View()[i], was, outs[i][..])
  {
    hide Dot, Package.Ready, Counters, AllProgress, Advanced, IsApplied, Left, Sum;
    var team := Team(seq(count, _ => 0), seq(count, _ => 0), seq(count, _ => false));
    ghost var left := AtStart(m.View(), was, Contents(outs), len, split, count, team);
    ghost var view := m.View();
    TeamShape(team, count, |outs|, |ins|, left);
    while exists w :: 0 <= w < count && !team.Finished(w, |outs|)
      invariant old(ctx.cancelled) ==> ctx.cancelled
      invariant Counters(team, count, |outs|, |ins|, left) && team.Shape(count)
      invariant Contents(ins) == was && m.View() == view
      invariant AllProgress(team, view, was, Contents(outs), len, split, count)
      invariant (exists w :: 0 <= w < count && team.halted[w]) ==> ctx.cancelled
      decreases Sum(left)
    {
      var w :| 0 <= w < count && !team.Finished(w, |outs|);
      var next := StepGoroutine(ctx, g, m, ins, outs, len, split, count, w, team, was);
      left := LessLeft(team, next, count, |outs|, |ins|, left, w);
      AdvancedKeepsHalted(team, w, |ins|);
      team := next;
      TeamShape(team, count, |outs|, |ins|, left);
    }
    complete := forall w :: 0 <= w < count ==> !team.halted[w];
    if complete {
      AllComplete(team, view, was, Contents(outs), len, split, count);
    }
  }

  lemma TeamShape(team: Team, count: nat, rows: nat, cols: nat, left: seq<nat>)
    requires Counters(team, count, rows, cols, left)
    ensures team.Shape(count)
  {
  }

  lemma AdvancedKeepsHalted(team: Team, w: nat, terms: nat)
    requires w < |team.row| && w < |team.col|
    ensures Advanced(team, w, terms).halted == team.halted
  {
  }

  lemma AtStart(view: Rows, was: seq<Bytes>, now: seq<Bytes>, len: nat, split: nat, count: nat, team: Team)
    returns (left: seq<nat>)
    requires |view| == |now| && team.Shape(count) && Splits(len, split, count) && |was| > 0
    requires forall w :: 0 <= w < count ==> team.row[w] == team.col[w] == 0 && !team.halted[w]
    ensures AllProgress(team, view, was, now, len, split, count) && Counters(team, count, |now|, |was|, left)
  {
    hide Partial, Start, End;
    left := seq(count, _ => Left(|now|, |was|, 0, 0, false));
    forall w | 0 <= w < count
      ensures Progress(view, was, now, Start(w, split), End(w, split, len), 0, 0)
    {
      WindowOf(len, split, count, w);
    }
  }

  lemma AllComplete(team: Team, view: Rows, was: seq<Bytes>, now: seq<Bytes>, len: nat, split: nat, count: nat)
    requires |view| == |now| && Splits(len, split, count) && SameLength(was, len) && SameLength(now, len)
    requires forall i :: 0 <= i < |now| ==> |view[i]| == |was|
    requires AllProgress(team, view, was, now, len, split, count)
    requires forall w :: 0 <= w < count ==> !team.halted[w] && team.Finished(w, |now|)
    ensures forall i :: 0 <= i < |now| ==> IsApplied(view[i], was, now[i])
  {
    hide Partial, Start, End, IsApplied;
    forall i | 0 <= i < |now|
      ensures IsApplied(view[i], was, now[i])
    {
      forall w | 0 <= w < count
        ensures End(w, split, len) >= 0
        ensures Partial(view[i], was, now[i], Start(w, split), End(w, split, len), |was|)
      {
        assert !team.halted[w] && team.Finished(w, |now|);
        assert Progress(view, was, now, Start(w, split), End(w, split, len), team.row[w], team.col[w]);
      }
      JoinWindows(view[i], was, now[i], split, count);
    }
  }

  datatype Outcome = Success | Cancelled | MismatchedLengths

  /** The arguments fit: one row of the matrix an output, one column an input, and buffers apart. */
  ghost predicate Fits(m: Matrix, ins: seq<array<Byte>>, outs: seq<array<Byte>>)
    requires outs != []
  {
    && m.Valid() && m.rows == |outs| && m.cols == |ins| && Buffers(ins, outs, outs[0].Length)
    && forall o :: 0 <= o < |outs| ==> outs[o] as object != m.elements
  }

  /**
    applyMatrixParallelData. Without inputs or outputs there is nothing to do; of the lengths only the first ones are
    compared.
   */
  method ApplyMatrixParallelData(ctx: Context, g: Package, m: Matrix, ins: seq<array<Byte>>, outs: seq<array<Byte>>,
                                 numGoroutines: int, defaultGoroutines: nat)
    returns (r: Outcome)
    requires g.Ready() && defaultGoroutines > 0
    requires ins != [] && outs != [] && ins[0].Length == outs[0].Length ==> Fits(m, ins, outs)
    modifies ctx`cancelled, OutSet(outs)
    ensures r == MismatchedLengths <==> ins != [] && outs != [] && ins[0].Length != outs[0].Length
    ensures ins == [] || outs == [] ==> r == Success
    ensures ins == [] || outs == [] || r == MismatchedLengths ==> Contents(outs) == old(Contents(outs))
    ensures r == Cancelled ==> ctx.cancelled
    ensures ins != [] && outs != [] && r != MismatchedLengths ==>
      && Contents(ins) == old(Contents(ins)) && m.View() == old(m.View())
      && (r == Success ==> forall i :: 0 <= i < |outs| ==> IsApplied(m.View()[i], Contents(ins), outs[i][..]))
  {
    hide Dot, Package.Ready, Partial, SameOutside;
    if ins == [] || outs == [] {
      return Success;
    }
    if ins[0].Length != outs[0].Length {
      return MismatchedLengths;
    }
    ghost var was := Contents(ins);
    var goroutines: nat := if numGoroutines < 1 then defaultGoroutines else numGoroutines;
    var len := outs[0].Length;
    var split := SplitForBlock(len, goroutines, g.KernelBlockBytes());
    SplitBounds(len, goroutines, g.KernelBlockBytes());
    EvenSplit(len, goroutines, g.KernelBlockBytes());
    CeilingCovers(len, split);
    var count := (len + split - 1) / split;
    var complete: bool;
    if count < 2 {
      var stopped := ApplyMatrixSlice(ctx, g, m, ins, outs, len, 0, len);
      complete := !stopped;
    } else {
      complete := RunGoroutines(ctx, g, m, ins, outs, len, split, count, was);
    }
    var e := ctx.Err();
    r := if e then Cancelled else Success;
  }

  lemma EvenSplit(len: nat, goroutines: nat, kernelBlock: nat)
    requires goroutines > 0 && (kernelBlock == 2 || kernelBlock == 32 || kernelBlock == 64)
    ensures SplitForBlock(len, goroutines, kernelBlock) % 2 == 0
  {
    SplitBounds(len, goroutines, kernelBlock);
    hide SplitForBlock;
    EvenBlocks(SplitForBlock(len, goroutines, kernelBlock), Max(kernelBlock, MIN_SPLIT_BYTES));
  }

  lemma EvenBlocks(n: nat, block: nat)
    requires (block == 16 || block == 32 || block == 64) && n % block == 0
    ensures n % 2 == 0
  {
    assert n == n / block * block;
    EvenMultiple(n / block, block);
  }
}
