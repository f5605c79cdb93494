/**
  The Reed-Solomon coder of rs/rs.go: generating recovery shards and reconstructing lost data shards in place.
  Shards are byte arrays; a missing one is null.
 */
module Coders {
  import opened Wrappers
  import opened Contexts
  import opened Bits
  import opened Field
  import opened Order
  import opened LinAlg
  import opened Slices
  import opened GF16
  import opened Kernels
  import opened Matrices
  import opened Elimination
  import opened Vandermonde
  import opened Apply
  import opened Reconstruction

  datatype CoderError =
    | InvalidShardCounts | TooManyDataShards | TooManyParityShards
    | InvalidDataShardCount | InvalidParityShardCount | MismatchedShardLengths
    | NotEnoughParity | SingularSystem | ContextCancelled

  type Shard = array?<Byte>

  datatype Coder = Coder(dataShards: nat, parityShards: nat, parityMatrix: Matrix) {

    ghost predicate Valid()
      reads parityMatrix.elements
    {
      && dataShards > 0 && 0 < parityShards < ORDER
      && parityMatrix.Valid() && parityMatrix.rows == parityShards && parityMatrix.cols == dataShards
      && IsVandermonde(parityMatrix.View(), parityShards, dataShards, GeneratorsBelow(ORDER))
    }
  }

  /** NewCoderPAR2Vandermonde */
  method NewCoder(g: Package, generators: seq<T>, dataShards: int, parityShards: int)
    returns (c: Option<Coder>, err: Option<CoderError>)
    requires g.Ready() && generators == GeneratorsBelow(ORDER)
    ensures c.Some? <==> err.None?
    ensures err == Some(InvalidShardCounts) <==> dataShards <= 0 || parityShards <= 0
    ensures err == Some(TooManyDataShards) <==> dataShards > |generators| && parityShards > 0
    ensures err == Some(TooManyParityShards) <==> 0 < dataShards <= |generators| && parityShards > 65535
    ensures err.Some? ==> err.value == InvalidShardCounts || err.value == TooManyDataShards || err.value == TooManyParityShards
    ensures c.Some? ==> c.value.Valid() && fresh(c.value.parityMatrix.elements)
    ensures c.Some? ==> c.value.dataShards == dataShards && c.value.parityShards == parityShards
  {
    hide Package.Ready, GeneratorsBelow, IsVandermonde;
    if dataShards <= 0 || parityShards <= 0 {
      return None, Some(InvalidShardCounts);
    }
    if dataShards > |generators| {
      return None, Some(TooManyDataShards);
    }
    if parityShards > ORDER - 1 {
      return None, Some(TooManyParityShards);
    }
    var m := NewVandermondeMatrix(g, parityShards, dataShards, generators);
    c, err := Some(Coder(dataShards, parityShards, m.value)), None;
  }

  // Shards as values.

  ghost function Shadow(s: Shard): Option<Bytes>
    reads s
  {
    if s == null then None else Some(s[..])
  }

  ghost function Shadows(shards: seq<Shard>): (v: seq<Option<Bytes>>)
    reads set i | 0 <= i < |shards| :: shards[i]
    ensures |v| == |shards| && forall i :: 0 <= i < |v| ==> v[i] == Shadow(shards[i])
  {
    seq(|shards|, i requires 0 <= i < |shards| reads set j | 0 <= j < |shards| :: shards[j] => Shadow(shards[i]))
  }

  function Presence<A>(v: seq<Option<A>>): (p: seq<bool>)
    ensures |p| == |v| && forall i :: 0 <= i < |v| ==> p[i] == v[i].Some?
  {
    seq(|v|, i requires 0 <= i < |v| => v[i].Some?)
  }

  /** Every shard that is there has this length. */
  ghost predicate OfLength(v: seq<Option<Bytes>>, len: int) {
    forall i :: 0 <= i < |v| && v[i].Some? ==> |v[i].value| == len
  }

  /** Every shard is there and has this length. */
  ghost predicate FullLength(v: seq<Option<Bytes>>, len: int) {
    forall i :: 0 <= i < |v| ==> v[i].Some? && |v[i].value| == len
  }

  /** d and p are what is left of the data shards orig and of the recovery shards generated from them. */
  ghost predicate Codeword(pm: Rows, orig: seq<Bytes>, d: seq<Option<Bytes>>, p: seq<Option<Bytes>>) {
    && |orig| == |d| && |p| <= |pm|
    && (forall i, j :: 0 <= i < |orig| && 0 <= j < |orig| ==> |orig[i]| == |orig[j]|)
    && (forall i :: 0 <= i < |d| && d[i].Some? ==> d[i].value == orig[i])
    && (forall e :: 0 <= e < |p| && p[e].Some? ==> IsApplied(pm[e], orig, p[e].value))
  }

  /** The recovery blocks a reconstruction uses: the first ones there, as many as data shards are missing. */
  ghost function Used(d: seq<Option<Bytes>>, p: seq<Option<Bytes>>): seq<nat> {
    FirstAvailable(Presence(p), |p|, |Missing(Presence(d), |d|)|)
  }

  /** The square part of the parity matrix a reconstruction has to invert. */
  ghost function SubMatrix(pm: Rows, used: seq<nat>, missing: seq<nat>): (m: Rows)
    requires forall i :: 0 <= i < |used| ==> used[i] < |pm|
    requires forall i, j :: 0 <= i < |used| && 0 <= j < |missing| ==> missing[j] < |pm[used[i]]|
  {
    seq(|used|, i requires 0 <= i < |used| => Pick(pm[used[i]], missing))
  }

  // Checking the arguments.

  /** validateShardLengths: the common length, -1 when no shard is there, or no value when lengths differ. */
  method ValidateShardLengths(data: seq<Shard>, parity: seq<Shard>) returns (len: Option<int>)
    ensures len.Some? ==> OfLength(Shadows(data), len.value) && OfLength(Shadows(parity), len.value)
    ensures len.Some? && len.value < 0 ==> forall s :: s in data + parity ==> s == null
    ensures len.None? ==> forall l :: !OfLength(Shadows(data), l) || !OfLength(Shadows(parity), l)
  {
    var all := data + parity;
    var sliceLen := -1;
    ghost var holder := 0;
    for i := 0 to |all|
      invariant sliceLen >= 0 ==> holder < i && all[holder] != null && all[holder].Length == sliceLen
      invariant sliceLen == -1 || sliceLen >= 0
      invariant forall j :: 0 <= j < i && all[j] != null ==> all[j].Length == sliceLen
    {
      var s := all[i];
      if s != null {
        if sliceLen == -1 {
          sliceLen := s.Length;
          holder := i;
        } else if s.Length != sliceLen {
          TwoLengths(data, parity, holder, i);
          return None;
        }
      }
    }
    forall i | 0 <= i < |data|
      ensures data[i] == all[i]
    {
    }
    forall i | 0 <= i < |parity|
      ensures parity[i] == all[|data| + i]
    {
    }
    len := Some(sliceLen);
  }

  lemma TwoLengths(data: seq<Shard>, parity: seq<Shard>, i: nat, j: nat)
    requires i < |data| + |parity| && j < |data| + |parity|
    requires (data + parity)[i] != null && (data + parity)[j] != null
    requires (data + parity)[i].Length != (data + parity)[j].Length
    ensures forall l :: !OfLength(Shadows(data), l) || !OfLength(Shadows(parity), l)
  {
    forall l
      ensures !OfLength(Shadows(data), l) || !OfLength(Shadows(parity), l)
    {
      if OfLength(Shadows(data), l) && OfLength(Shadows(parity), l) {
        LengthAt(data, parity, i, l);
        LengthAt(data, parity, j, l);
      }
    }
  }

  lemma LengthAt(data: seq<Shard>, parity: seq<Shard>, i: nat, l: int)
    requires i < |data| + |parity| && (data + parity)[i] != null
    requires OfLength(Shadows(data), l) && OfLength(Shadows(parity), l)
    ensures (data + parity)[i].Length == l
  {
    if i < |data| {
      assert Shadows(data)[i].Some?;
    } else {
      assert Shadows(parity)[i - |data|].Some?;
    }
  }

  lemma PresenceOf(shards: seq<Shard>)
    ensures var p := Presence(Shadows(shards));
      |p| == |shards| && forall i :: 0 <= i < |p| ==> (p[i] <==> shards[i] != null)
  {
  }

  /** The first loop of analyzeShards. */
  method SortData(data: seq<Shard>, ghost present: seq<bool>)
    returns (available: seq<nat>, missing: seq<nat>, input: seq<array<Byte>>)
    requires |present| == |data| && forall i :: 0 <= i < |data| ==> (present[i] <==> data[i] != null)
    ensures available == Available(present, |present|) && missing == Missing(present, |present|)
    ensures |input| == |available| && forall j :: 0 <= j < |available| ==> input[j] == data[available[j]]
  {
    available, missing, input := [], [], [];
    for i := 0 to |data|
      invariant available == Available(present, i) && missing == Missing(present, i)
      invariant |input| == |available| && forall j :: 0 <= j < |available| ==> input[j] == data[available[j]]
    {
      var s := data[i];
      if s != null {
        available := available + [i];
        input := input + [s];
      } else {
        missing := missing + [i];
      }
    }
  }

  /** The second loop of analyzeShards: recovery blocks until there are as many inputs as data shards. */
  method GatherParity(parity: seq<Shard>, input0: seq<array<Byte>>, dataShards: nat, ghost present: seq<bool>)
    returns (used: seq<nat>, input: seq<array<Byte>>)
    requires |present| == |parity| && forall i :: 0 <= i < |parity| ==> (present[i] <==> parity[i] != null)
    requires |input0| <= dataShards
    ensures used == FirstAvailable(present, |present|, dataShards - |input0|)
    ensures |input| == |input0| + |used| && input[..|input0|] == input0
    ensures forall j :: 0 <= j < |used| ==> input[|input0| + j] == parity[used[j]]
  {
    used, input := [], input0;
    var i := 0;
    while i < |parity| && |input| < dataShards
      invariant i <= |parity| && |input| == |input0| + |used| && |input| <= dataShards
      invariant used == FirstAvailable(present, i, dataShards - |input0|)
      invariant input[..|input0|] == input0
      invariant forall j :: 0 <= j < |used| ==> input[|input0| + j] == parity[used[j]]
    {
      var s := parity[i];
      if s != null {
        used := used + [i];
        input := input + [s];
      }
      i := i + 1;
    }
    FirstAvailableStays(present, i, dataShards - |input0|);
  }

  /** analyzeShards: which shards are there, which are lost, and which recovery blocks stand in for them. */
  method AnalyzeShards(dataShards: nat, data: seq<Shard>, parity: seq<Shard>)
    returns (available: seq<nat>, missing: seq<nat>, used: seq<nat>, input: seq<array<Byte>>, enough: bool)
    requires |data| == dataShards
    ensures missing == Missing(Presence(Shadows(data)), |Shadows(data)|)
    ensures available == Available(Presence(Shadows(data)), |Shadows(data)|)
    ensures enough <==> |Available(Presence(Shadows(parity)), |Shadows(parity)|)| >= |missing|
    ensures enough && missing != [] ==> used == Used(Shadows(data), Shadows(parity)) && |used| == |missing|
    ensures enough && missing != [] ==> |input| == |available| + |used|
    ensures enough && missing != [] ==> forall j :: 0 <= j < |available| ==> input[j] == data[available[j]]
    ensures enough && missing != [] ==> forall i :: 0 <= i < |used| ==> input[|available| + i] == parity[used[i]]
  {
    ghost var pd, pp := Presence(Shadows(data)), Presence(Shadows(parity));
    PresenceOf(data);
    PresenceOf(parity);
    hide Shadows, Presence, Available, Missing, FirstAvailable;
    available, missing, input := SortData(data, pd);
    CountsAddUp(pd, |pd|);
    used := [];
    if |missing| == 0 {
      enough := true;
      return;
    }
    ghost var input0 := input;
    used, input := GatherParity(parity, input, dataShards, pp);
    FirstAvailableCount(pp, |pp|, |missing|);
    assert forall j :: 0 <= j < |available| ==> input[j] == input[..|input0|][j];
    enough := |input| >= dataShards;
  }

  /** Once enough are found, looking further changes nothing. */
  lemma {:induction false} FirstAvailableStays(present: seq<bool>, i: nat, limit: nat)
    requires i <= |present| && (i == |present| || |FirstAvailable(present, i, limit)| == limit)
    ensures FirstAvailable(present, |present|, limit) == FirstAvailable(present, i, limit)
    decreases |present| - i
  {
    if i == |present| {
    } else {
      FirstAvailableStays(present, i + 1, limit);
    }
  }

  /** Row i of the left side. */
  method FillLeftRow(pm: Matrix, m: Matrix, i: nat, used: seq<nat>, missing: seq<nat>)
    requires pm.Valid() && m.Valid() && pm.elements != m.elements && |missing| == m.cols
    requires i < |used| == m.rows && used[i] < pm.rows
    requires forall j :: 0 <= j < |missing| ==> missing[j] < pm.cols
    modifies m.elements
    ensures m.View() == old(m.View())[i := Pick(pm.View()[used[i]], missing)]
  {
    ghost var row, before := pm.View()[used[i]], m.View();
    for j := 0 to |missing|
      invariant IsMatrix(m.View(), m.rows, m.cols) && m.View() == before[i := m.View()[i]]
      invariant forall b :: 0 <= b < j ==> m.View()[i][b] == row[missing[b]]
    {
      m.Set(i, j, pm.At(used[i], missing[j]));
    }
    assert m.View()[i] == Pick(row, missing);
  }

  /** The left side of the reconstruction system. */
  method LeftMatrix(pm: Matrix, used: seq<nat>, missing: seq<nat>) returns (m: Matrix)
    requires pm.Valid() && |used| == |missing| > 0
    requires forall i :: 0 <= i < |used| ==> used[i] < pm.rows
    requires forall j :: 0 <= j < |missing| ==> missing[j] < pm.cols
    ensures m.Valid() && fresh(m.elements) && m.rows == m.cols == |used|
    ensures RowsOfCode(pm.View(), used, pm.cols) && IsLeft(pm.View(), used, missing, pm.cols, m.View())
    ensures m.View() == SubMatrix(pm.View(), used, missing)
  {
    hide Pick;
    ghost var rows := pm.View();
    var made := NewMatrix(|used|, |used|);
    m := made.value;
    for i := 0 to |used|
      invariant pm.View() == rows && IsMatrix(m.View(), |used|, |used|)
      invariant forall a :: 0 <= a < i ==> m.View()[a] == Pick(rows[used[a]], missing)
    {
      FillLeftRow(pm, m, i, used, missing);
    }
  }

  /** Row i of the right side: coefficients of the available shards, then the identity part. */
  method FillRightRow(pm: Matrix, n: Matrix, i: nat, used: seq<nat>, available: seq<nat>)
    requires pm.Valid() && n.Valid() && pm.elements != n.elements && |available| + |used| == pm.cols == n.cols
    requires i < |used| == n.rows && used[i] < pm.rows
    requires forall j :: 0 <= j < |available| ==> available[j] < pm.cols
    modifies n.elements
    ensures n.View() == old(n.View())[i := Pick(pm.View()[used[i]], available) + UnitRow(i, |used|)]
  {
    ghost var row, before := pm.View()[used[i]], n.View();
    for j := 0 to |available|
      invariant IsMatrix(n.View(), n.rows, n.cols) && n.View() == before[i := n.View()[i]]
      invariant forall b :: 0 <= b < j ==> n.View()[i][b] == row[available[b]]
    {
      n.Set(i, j, pm.At(used[i], available[j]));
    }
    for j := |available| to pm.cols
      invariant IsMatrix(n.View(), n.rows, n.cols) && n.View() == before[i := n.View()[i]]
      invariant forall b :: 0 <= b < |available| ==> n.View()[i][b] == row[available[b]]
      invariant forall b :: |available| <= b < j ==> n.View()[i][b] == if b - |available| == i then 1 else 0
    {
      var val: T := if i == j - |available| then 1 else 0;
      n.Set(i, j, val);
    }
    assert n.View()[i] == Pick(row, available) + UnitRow(i, |used|);
  }

  /** The right side of the reconstruction system. */
  method RightMatrix(pm: Matrix, used: seq<nat>, available: seq<nat>) returns (n: Matrix)
    requires pm.Valid() && |used| > 0 && |available| + |used| == pm.cols
    requires forall i :: 0 <= i < |used| ==> used[i] < pm.rows
    requires forall j :: 0 <= j < |available| ==> available[j] < pm.cols
    ensures n.Valid() && fresh(n.elements) && n.rows == |used| && n.cols == pm.cols
    ensures RowsOfCode(pm.View(), used, pm.cols) && IsRight(pm.View(), used, available, pm.cols, n.View())
  {
    hide Pick, UnitRow;
    ghost var rows := pm.View();
    var made := NewMatrix(|used|, pm.cols);
    n := made.value;
    for i := 0 to |used|
      invariant pm.View() == rows && IsMatrix(n.View(), |used|, pm.cols)
      invariant forall a :: 0 <= a < i ==> n.View()[a] == Pick(rows[used[a]], available) + UnitRow(a, |used|)
    {
      FillRightRow(pm, n, i, used, available);
    }
  }

  /** makeReconstructionMatrix */
  method MakeReconstructionMatrix(g: Package, pm: Matrix, available: seq<nat>, missing: seq<nat>, used: seq<nat>)
    returns (r: Result<Matrix>, ghost m: Rows, ghost n: Rows)
    requires g.Ready() && pm.Valid() && |used| == |missing| > 0 && |available| + |used| == pm.cols
    requires forall i :: 0 <= i < |used| ==> used[i] < pm.rows
    requires forall j :: 0 <= j < |missing| ==> missing[j] < pm.cols
    requires forall j :: 0 <= j < |available| ==> available[j] < pm.cols
    ensures RowsOfCode(pm.View(), used, pm.cols)
    ensures IsLeft(pm.View(), used, missing, pm.cols, m) && IsRight(pm.View(), used, available, pm.cols, n)
    ensures m == SubMatrix(pm.View(), used, missing)
    ensures r.Err? <==> Singular(m)
    ensures r.Ok? ==> r.value.Valid() && fresh(r.value.elements) && r.value.rows == |used| && r.value.cols == pm.cols
    ensures r.Ok? ==> IsSolution(m, n, r.value.View())
  {
    hide Package.Ready, Singular, IsSolution, IsLeft, IsRight, Pick, UnitRow;
    var left := LeftMatrix(pm, used, missing);
    var right := RightMatrix(pm, used, available);
    m, n := left.View(), right.View();
    r := RowReduceForInverse(g, left, right);
  }

  // Reconstruction.

  lemma UsedIsValid(d: seq<Option<Bytes>>, p: seq<Option<Bytes>>, pm: Rows, dataShards: nat)
    requires |p| <= |pm| && IsMatrix(pm, |pm|, dataShards) && |d| == dataShards
    ensures forall i :: 0 <= i < |Used(d, p)| ==> Used(d, p)[i] < |p| && p[Used(d, p)[i]].Some?
    ensures RowsOfCode(pm, Used(d, p), dataShards)
  {
  }

  /** What Reconstruct answers when it is not cancelled: the first of these cases that applies. */
  ghost predicate Verdict(dataShards: nat, pm: Rows, d: seq<Option<Bytes>>, p: seq<Option<Bytes>>,
                          err: Option<CoderError>)
    requires IsMatrix(pm, |pm|, dataShards)
  {
    var missing := Missing(Presence(d), |d|);
    if |d| != dataShards then err == Some(InvalidDataShardCount) else
    if |p| > |pm| then err == Some(InvalidParityShardCount) else
    if forall l :: !OfLength(d, l) || !OfLength(p, l) then err == Some(MismatchedShardLengths) else
    if missing == [] then err == None else
    if |Available(Presence(p), |p|)| < |missing| then err == Some(NotEnoughParity) else
    UsedIsValid(d, p, pm, dataShards);
    if Singular(SubMatrix(pm, Used(d, p), missing)) then err == Some(SingularSystem) else err == None
  }

  /** The inputs of the matrix application, as values: available data shards, then the recovery blocks used. */
  ghost predicate GatheredFrom(d: seq<Option<Bytes>>, p: seq<Option<Bytes>>, used: seq<nat>, ins: seq<Bytes>) {
    var available := Available(Presence(d), |d|);
    && |ins| == |available| + |used|
    && (forall j :: 0 <= j < |available| ==> Some(ins[j]) == d[available[j]])
    && (forall i :: 0 <= i < |used| ==> used[i] < |p| && Some(ins[|available| + i]) == p[used[i]])
  }

  lemma CodewordInput(pm: Rows, orig: seq<Bytes>, d: seq<Option<Bytes>>, p: seq<Option<Bytes>>, used: seq<nat>,
                      ins: seq<Bytes>, len: nat)
    requires Codeword(pm, orig, d, p) && RowsOfCode(pm, used, |d|) && |used| > 0 && GatheredFrom(d, p, used, ins)
    requires OfLength(d, len) && OfLength(p, len)
    ensures IsInput(pm, orig, Presence(d), used, ins, len)
  {
    hide Available, Dot;
    var available := Available(Presence(d), |d|);
    var first := |available|;
    forall i | 0 <= i < |used|
      ensures IsApplied(pm[used[i]], orig, ins[first + i]) && |ins[first + i]| == len
    {
      assert Some(ins[first + i]) == p[used[i]];
    }
    assert IsApplied(pm[used[0]], orig, ins[first + 0]);
    forall j | 0 <= j < |ins|
      ensures |ins[j]| == len
    {
      if j < first {
        assert Some(ins[j]) == d[available[j]];
      } else {
        var i := j - first;
        assert IsApplied(pm[used[i]], orig, ins[first + i]);
      }
    }
    forall j | 0 <= j < first
      ensures ins[j] == orig[available[j]]
    {
      assert Some(ins[j]) == d[available[j]];
    }
  }

  /** After a successful reconstruction every shard of any codeword that fits is back. */
  lemma AllRecovered(pm: Rows, orig: seq<Bytes>, d: seq<Option<Bytes>>, p: seq<Option<Bytes>>, used: seq<nat>,
                     ins: seq<Bytes>, len: nat, m: Rows, n: Rows, r: Rows, outs: seq<Bytes>, result: seq<Option<Bytes>>)
    requires Codeword(pm, orig, d, p) && RowsOfCode(pm, used, |d|) && |used| > 0 && GatheredFrom(d, p, used, ins)
    requires OfLength(d, len) && OfLength(p, len) && len % 2 == 0
    requires IsLeft(pm, used, Missing(Presence(d), |d|), |d|, m)
    requires IsRight(pm, used, Available(Presence(d), |d|), |d|, n)
    requires IsSolution(m, n, r) && |r| == |outs| == |Missing(Presence(d), |d|)|
    requires forall j :: 0 <= j < |outs| ==> |outs[j]| == len && IsApplied(r[j], ins, outs[j])
    requires |result| == |d| && forall i :: 0 <= i < |d| && d[i].Some? ==> result[i] == d[i]
    requires forall j :: 0 <= j < |outs| ==> result[Missing(Presence(d), |d|)[j]] == Some(outs[j])
    ensures |orig| == |result| && forall i :: 0 <= i < |orig| ==> result[i] == Some(orig[i])
  {
    hide IsApplied, IsLeft, IsRight, IsSolution, IsInput, Available, Missing;
    CodewordInput(pm, orig, d, p, used, ins, len);
    var missing := Missing(Presence(d), |d|);
    forall i | 0 <= i < |orig|
      ensures result[i] == Some(orig[i])
    {
      if d[i].None? {
        MissingComplete(Presence(d), |d|, i);
        var j :| 0 <= j < |missing| && missing[j] == i;
        Recovered(pm, orig, Presence(d), used, ins, len, m, n, r, j, outs[j]);
      }
    }
  }

  /** The shards in result are those of every codeword that fits what was there before. */
  ghost predicate Restored(pm: Rows, d: seq<Option<Bytes>>, p: seq<Option<Bytes>>, result: seq<Option<Bytes>>) {
    forall orig: seq<Bytes> :: Codeword(pm, orig, d, p) ==> IsWhole(orig, result)
  }

  /** Every shard is there, and they are the shards orig. */
  ghost predicate IsWhole(orig: seq<Bytes>, result: seq<Option<Bytes>>) {
    |orig| == |result| && forall i :: 0 <= i < |orig| ==> result[i] == Some(orig[i])
  }

  lemma EveryCodewordRecovered(pm: Rows, d: seq<Option<Bytes>>, p: seq<Option<Bytes>>, used: seq<nat>,
                               ins: seq<Bytes>, len: nat, m: Rows, n: Rows, r: Rows, outs: seq<Bytes>,
                               result: seq<Option<Bytes>>)
    requires RowsOfCode(pm, used, |d|) && |used| > 0 && GatheredFrom(d, p, used, ins)
    requires OfLength(d, len) && OfLength(p, len) && len % 2 == 0
    requires IsLeft(pm, used, Missing(Presence(d), |d|), |d|, m)
    requires IsRight(pm, used, Available(Presence(d), |d|), |d|, n)
    requires IsSolution(m, n, r) && |r| == |outs| == |Missing(Presence(d), |d|)|
    requires forall j :: 0 <= j < |outs| ==> |outs[j]| == len && IsApplied(r[j], ins, outs[j])
    requires |result| == |d| && forall i :: 0 <= i < |d| && d[i].Some? ==> result[i] == d[i]
    requires forall j :: 0 <= j < |outs| ==> result[Missing(Presence(d), |d|)[j]] == Some(outs[j])
    ensures Restored(pm, d, p, result)
  {
    hide Codeword, IsApplied, IsLeft, IsRight, IsSolution, GatheredFrom, OfLength, RowsOfCode, Missing, Available;
    forall orig: seq<Bytes> | Codeword(pm, orig, d, p)
      ensures IsWhole(orig, result)
    {
      AllRecovered(pm, orig, d, p, used, ins, len, m, n, r, outs, result);
    }
  }

  /** Fresh zero-filled shards. */
  method NewShards(count: nat, len: nat) returns (shards: seq<array<Byte>>)
    ensures |shards| == count && forall i :: 0 <= i < count ==> fresh(shards[i]) && shards[i].Length == len
    ensures forall i, j :: 0 <= i < j < count ==> shards[i] != shards[j]
  {
    shards := [];
    for i := 0 to count
      invariant |shards| == i && forall a :: 0 <= a < i ==> fresh(shards[a]) && shards[a].Length == len
      invariant forall a, b :: 0 <= a < b < i ==> shards[a] != shards[b]
    {
      var s := new Byte[len](_ => 0);
      shards := shards + [s];
    }
  }

  /** Puts the reconstructed shards where shards are missing. */
  method InstallShards(data: array<Shard>, missing: seq<nat>, outs: seq<array<Byte>>)
    requires |missing| == |outs| && Increasing(missing) && forall j :: 0 <= j < |missing| ==> missing[j] < data.Length
    modifies data
    ensures forall j :: 0 <= j < |missing| ==> data[missing[j]] == outs[j]
    ensures forall i :: 0 <= i < data.Length && i !in missing ==> data[i] == old(data[i])
  {
    for j := 0 to |missing|
      invariant forall l :: 0 <= l < j ==> data[missing[l]] == outs[l]
      invariant forall i :: 0 <= i < data.Length && i !in missing ==> data[i] == old(data[i])
    {
      data[missing[j]] := outs[j];
    }
  }

  lemma GatheredContents(data: seq<Shard>, parity: seq<Shard>, available: seq<nat>, used: seq<nat>,
                         input: seq<array<Byte>>)
    requires available == Available(Presence(Shadows(data)), |Shadows(data)|) && |input| == |available| + |used|
    requires forall j :: 0 <= j < |available| ==> input[j] == data[available[j]]
    requires forall i :: 0 <= i < |used| ==> used[i] < |parity| && input[|available| + i] == parity[used[i]]
    ensures GatheredFrom(Shadows(data), Shadows(parity), used, Contents(input))
  {
    hide Available, Presence, Shadows, Contents;
    PickedContents(data, available, input[..|available|]);
    PickedContents(parity, used, input[|available|..]);
  }

  lemma PickedContents(shards: seq<Shard>, at: seq<nat>, picked: seq<array<Byte>>)
    requires |picked| == |at| && forall j :: 0 <= j < |at| ==> at[j] < |shards| && picked[j] == shards[at[j]]
    ensures forall j :: 0 <= j < |at| ==> Some(picked[j][..]) == Shadows(shards)[at[j]]
  {
  }

  lemma InputLengths(data: seq<Shard>, parity: seq<Shard>, input: seq<array<Byte>>, len: int)
    requires OfLength(Shadows(data), len) && OfLength(Shadows(parity), len)
    requires forall j :: 0 <= j < |input| ==> input[j] in data || input[j] in parity
    ensures forall j :: 0 <= j < |input| ==> input[j].Length == len
  {
    forall j | 0 <= j < |input|
      ensures input[j].Length == len
    {
      if input[j] in data {
        var i :| 0 <= i < |data| && data[i] == input[j];
        assert Shadows(data)[i].Some?;
      } else {
        var i :| 0 <= i < |parity| && parity[i] == input[j];
        assert Shadows(parity)[i].Some?;
      }
    }
  }

  lemma CoderShape(c: Coder)
    requires c.Valid()
    ensures c.dataShards > 0 && c.parityMatrix.Valid()
    ensures c.parityMatrix.rows == c.parityShards && c.parityMatrix.cols == c.dataShards
    ensures IsMatrix(c.parityMatrix.View(), c.parityShards, c.dataShards)
  {
  }

  lemma NothingMissing(pm: Rows, orig: seq<Bytes>, d: seq<Option<Bytes>>, p: seq<Option<Bytes>>)
    requires Codeword(pm, orig, d, p) && Missing(Presence(d), |d|) == []
    ensures |orig| == |d| && forall i :: 0 <= i < |orig| ==> d[i] == Some(orig[i])
  {
    forall i | 0 <= i < |d|
      ensures d[i].Some?
    {
      if d[i].None? { MissingComplete(Presence(d), |d|, i); }
    }
  }

  /** The state of the data shards after the missing ones have been put in. */
  lemma Installed(before: seq<Shard>, d: seq<Option<Bytes>>, after: seq<Shard>, missing: seq<nat>,
                  outs: seq<array<Byte>>)
    requires d == Shadows(before) && |after| == |before| && missing == Missing(Presence(d), |d|)
    requires |missing| == |outs|
    requires forall j :: 0 <= j < |missing| ==> after[missing[j]] == outs[j]
    requires forall i :: 0 <= i < |before| && i !in missing ==> after[i] == before[i]
    ensures forall i :: 0 <= i < |before| && before[i] != null ==> after[i] == before[i]
    ensures forall i :: 0 <= i < |d| && d[i].Some? ==> Shadows(after)[i] == d[i]
    ensures forall j :: 0 <= j < |outs| ==> Shadows(after)[missing[j]] == Some(outs[j][..])
  {
    forall i | 0 <= i < |d| && d[i].Some?
      ensures i !in missing
    {
      assert Presence(d)[i];
    }
    hide Missing, Presence;
  }

  lemma LostAreMissing(d: seq<Option<Bytes>>)
    ensures forall i :: 0 <= i < |d| && d[i].None? ==> i in Missing(Presence(d), |d|)
  {
    var present := Presence(d);
    forall i | 0 <= i < |d| && d[i].None?
      ensures i in Missing(present, |d|)
    {
      MissingComplete(present, |d|, i);
    }
  }

  lemma InstalledLength(d: seq<Option<Bytes>>, missing: seq<nat>, outs: seq<Bytes>, result: seq<Option<Bytes>>,
                        len: nat)
    requires forall i :: 0 <= i < |d| && d[i].None? ==> i in missing
    requires |missing| == |outs| && |result| == |d| && OfLength(d, len)
    requires forall j :: 0 <= j < |missing| ==> missing[j] < |d| && |outs[j]| == len && result[missing[j]] == Some(outs[j])
    requires forall i :: 0 <= i < |d| && d[i].Some? ==> result[i] == d[i]
    ensures FullLength(result, len)
  {
    forall i | 0 <= i < |d| && d[i].None?
      ensures result[i].Some? && |result[i].value| == len
    {
      var j :| 0 <= j < |missing| && missing[j] == i;
    }
  }

  /** Computes the missing shards into fresh buffers. */
  method ComputeMissing(ctx: Context, g: Package, pm: Matrix, len: nat, available: seq<nat>, missing: seq<nat>,
                        used: seq<nat>, input: seq<array<Byte>>, numGoroutines: int, defaultGoroutines: nat)
    returns (outs: seq<array<Byte>>, err: Option<CoderError>, ghost m: Rows, ghost n: Rows, ghost image: Rows)
    requires g.Ready() && pm.Valid() && defaultGoroutines > 0 && len % 2 == 0
    requires |used| == |missing| > 0 && |available| + |used| == pm.cols == |input|
    requires forall i :: 0 <= i < |used| ==> used[i] < pm.rows
    requires forall j :: 0 <= j < |missing| ==> missing[j] < pm.cols
    requires forall j :: 0 <= j < |available| ==> available[j] < pm.cols
    requires forall j :: 0 <= j < |input| ==> input[j].Length == len
    modifies ctx`cancelled
    ensures err == Some(ContextCancelled) || err == Some(SingularSystem) || err == None
    ensures err == Some(ContextCancelled) ==> ctx.cancelled
    ensures RowsOfCode(pm.View(), used, pm.cols)
    ensures err == Some(SingularSystem) ==> Singular(SubMatrix(pm.View(), used, missing))
    ensures err == None ==> !Singular(SubMatrix(pm.View(), used, missing))
    ensures err == None ==>
      && IsLeft(pm.View(), used, missing, pm.cols, m) && IsRight(pm.View(), used, available, pm.cols, n)
      && IsSolution(m, n, image) && |image| == |outs| == |missing|
    ensures err == None ==> forall j :: 0 <= j < |outs| ==>
      fresh(outs[j]) && outs[j].Length == len && IsApplied(image[j], Contents(input), outs[j][..])
  {
    hide Package.Ready, Singular, IsSolution, IsApplied, IsLeft, IsRight, Pick, UnitRow;
    outs, image := [], [];
    var r;
    r, m, n := MakeReconstructionMatrix(g, pm, available, missing, used);
    if r.Err? {
      err := Some(SingularSystem);
      return;
    }
    outs := NewShards(|missing|, len);
    image := r.value.View();
    var outcome := ApplyMatrixParallelData(ctx, g, r.value, input, outs, numGoroutines, defaultGoroutines);
    err := if outcome == Success then None else Some(ContextCancelled);
  }

  /** The part of Reconstruct that runs once it is known which shards stand in for the missing ones. */
  method RebuildMissing(ctx: Context, g: Package, c: Coder, data: array<Shard>, parity: seq<Shard>, len: nat,
                        available: seq<nat>, missing: seq<nat>, used: seq<nat>, input: seq<array<Byte>>,
                        numGoroutines: int, defaultGoroutines: nat)
    returns (err: Option<CoderError>)
    requires g.Ready() && c.Valid() && defaultGoroutines > 0 && len % 2 == 0
    requires OfLength(Shadows(data[..]), len) && OfLength(Shadows(parity), len)
    requires data.Length == c.dataShards && |parity| <= c.parityShards
    requires available == Available(Presence(Shadows(data[..])), |Shadows(data[..])|)
    requires missing == Missing(Presence(Shadows(data[..])), |Shadows(data[..])|) && missing != []
    requires used == Used(Shadows(data[..]), Shadows(parity)) && |used| == |missing|
    requires |input| == |available| + |used|
    requires forall j :: 0 <= j < |available| ==> input[j] == data[available[j]]
    requires forall i :: 0 <= i < |used| ==> used[i] < |parity| && input[|available| + i] == parity[used[i]]
    modifies ctx`cancelled, data
    ensures err == Some(ContextCancelled) || err == Some(SingularSystem) || err == None
    ensures err == Some(ContextCancelled) ==> ctx.cancelled
    ensures c.parityMatrix.Valid() && c.parityMatrix.View() == old(c.parityMatrix.View())
    ensures RowsOfCode(c.parityMatrix.View(), used, c.dataShards)
    ensures err == Some(SingularSystem) ==> Singular(SubMatrix(c.parityMatrix.View(), used, missing))
    ensures err == None ==> !Singular(SubMatrix(c.parityMatrix.View(), used, missing))
    ensures err.Some? ==> data[..] == old(data[..])
    ensures forall i :: 0 <= i < data.Length && old(data[i]) != null ==> data[i] == old(data[i])
    ensures err.None? ==> FullLength(Shadows(data[..]), len)
    ensures err.None? ==>
      Restored(c.parityMatrix.View(), old(Shadows(data[..])), Shadows(parity), Shadows(data[..]))
  {
    hide *;
    CoderShape(c);
    ghost var d, p, pm := Shadows(data[..]), Shadows(parity), c.parityMatrix.View();
    CountsAddUp(Presence(d), |d|);
    var before := data[..];
    InputsOfShards(before, parity, available, used, input, len);
    GatheredContents(before, parity, available, used, input);
    ghost var ins := Contents(input);
    ghost var m, n, image;
    var outs;
    outs, err, m, n, image := ComputeMissing(ctx, g, c.parityMatrix, len, available, missing, used, input,
                                             numGoroutines, defaultGoroutines);
    if err.Some? {
      return;
    }
    MissingIncreasing(Presence(d), |d|);
    InstallShards(data, missing, outs);
    Installed(before, d, data[..], missing, outs);
    LostAreMissing(d);
    InstalledLength(d, missing, Contents(outs), Shadows(data[..]), len);
    EveryCodewordRecovered(pm, d, p, used, ins, len, m, n, image, Contents(outs), Shadows(data[..]));
  }

  lemma InputsOfShards(data: seq<Shard>, parity: seq<Shard>, available: seq<nat>, used: seq<nat>,
                       input: seq<array<Byte>>, len: nat)
    requires OfLength(Shadows(data), len) && OfLength(Shadows(parity), len) && |input| == |available| + |used|
    requires forall j :: 0 <= j < |available| ==> available[j] < |data| && input[j] == data[available[j]]
    requires forall i :: 0 <= i < |used| ==> used[i] < |parity| && input[|available| + i] == parity[used[i]]
    ensures forall j :: 0 <= j < |input| ==> input[j].Length == len
  {
    forall j | 0 <= j < |input|
      ensures input[j] in data || input[j] in parity
    {
      if j < |available| {
        assert input[j] == data[available[j]];
      } else {
        assert input[|available| + (j - |available|)] == parity[used[j - |available|]];
      }
    }
    InputLengths(data, parity, input, len);
  }

  /** Reconstruct: fills in the missing data shards, or leaves the slice as it was and says why. */
  method Reconstruct(ctx: Context, g: Package, c: Coder, data: array<Shard>, parity: seq<Shard>, numGoroutines: int,
                     defaultGoroutines: nat)
    returns (err: Option<CoderError>)
    requires g.Ready() && c.Valid() && defaultGoroutines > 0
    requires forall i :: 0 <= i < data.Length && data[i] != null ==> data[i].Length % 2 == 0
    requires forall i :: 0 <= i < |parity| && parity[i] != null ==> parity[i].Length % 2 == 0
    modifies ctx`cancelled, data
    ensures err == Some(ContextCancelled) ==> ctx.cancelled
    ensures c.parityMatrix.Valid() && IsMatrix(c.parityMatrix.View(), c.parityShards, c.dataShards)
    ensures err != Some(ContextCancelled) ==>
      Verdict(c.dataShards, c.parityMatrix.View(), old(Shadows(data[..])), Shadows(parity), err)
    ensures err.Some? ==> data[..] == old(data[..])
    ensures forall i :: 0 <= i < data.Length && old(data[i]) != null ==> data[i] == old(data[i])
    ensures err.None? ==> forall l :: OfLength(old(Shadows(data[..])), l) && OfLength(Shadows(parity), l) ==>
      FullLength(Shadows(data[..]), l)
    ensures err.None? ==>
      Restored(c.parityMatrix.View(), old(Shadows(data[..])), Shadows(parity), Shadows(data[..]))
  {
    hide Package.Ready, Coder.Valid, Singular, Restored, Available, Missing, FirstAvailable, Presence, Shadows;
    CoderShape(c);
    ghost var d, p, pm := Shadows(data[..]), Shadows(parity), c.parityMatrix.View();
    var cancelled := ctx.Err();
    if cancelled {
      return Some(ContextCancelled);
    }
    if data.Length != c.dataShards {
      return Some(InvalidDataShardCount);
    }
    if |parity| > c.parityShards {
      return Some(InvalidParityShardCount);
    }
    var shards := data[..];
    var sliceLen := ValidateShardLengths(shards, parity);
    if sliceLen.None? {
      return Some(MismatchedShardLengths);
    }
    var available, missing, used, input, enough := AnalyzeShards(c.dataShards, shards, parity);
    if |missing| == 0 {
      AllThere(pm, d, p);
      AllThereLength(d);
      return None;
    }
    if !enough {
      return Some(NotEnoughParity);
    }
    UsedIsValid(d, p, pm, c.dataShards);
    UsedLength(shards, parity, used[0], sliceLen.value);
    OneLength(parity, used[0], sliceLen.value);
    err := RebuildMissing(ctx, g, c, data, parity, sliceLen.value, available, missing, used, input, numGoroutines,
                          defaultGoroutines);
  }

  lemma AllThere(pm: Rows, d: seq<Option<Bytes>>, p: seq<Option<Bytes>>)
    requires Missing(Presence(d), |d|) == []
    ensures Restored(pm, d, p, d)
  {
    hide Codeword, Missing;
    forall orig: seq<Bytes> | Codeword(pm, orig, d, p)
      ensures IsWhole(orig, d)
    {
      NothingMissing(pm, orig, d, p);
    }
  }

  lemma AllThereLength(d: seq<Option<Bytes>>)
    requires Missing(Presence(d), |d|) == []
    ensures forall l :: OfLength(d, l) ==> FullLength(d, l)
  {
    LostAreMissing(d);
    hide Missing, Presence;
  }

  lemma OneLength(parity: seq<Shard>, e: nat, len: int)
    requires e < |parity| && Shadows(parity)[e].Some? && OfLength(Shadows(parity), len)
    ensures forall l :: OfLength(Shadows(parity), l) ==> l == len
  {
  }

  /** A recovery block is there, so there is a length, and it is even. */
  lemma UsedLength(data: seq<Shard>, parity: seq<Shard>, e: nat, len: int)
    requires e < |parity| && Shadows(parity)[e].Some? && OfLength(Shadows(parity), len)
    requires forall i :: 0 <= i < |parity| && parity[i] != null ==> parity[i].Length % 2 == 0
    ensures len >= 0 && len % 2 == 0
  {
  }

  // Generating recovery shards.

  /** recovery holds the first shards generated from orig: shard e is row e of the parity matrix times the data. */
  ghost predicate Generated(pm: Rows, orig: seq<Bytes>, recovery: seq<Bytes>) {
    |recovery| <= |pm| && forall e :: 0 <= e < |recovery| ==> IsApplied(pm[e], orig, recovery[e])
  }

  ghost predicate SameLengths(shards: seq<array<Byte>>) {
    forall i, j :: 0 <= i < |shards| && 0 <= j < |shards| ==> shards[i].Length == shards[j].Length
  }

  /** GenerateParity */
  method GenerateParity(ctx: Context, g: Package, c: Coder, data: seq<array<Byte>>, numGoroutines: int,
                        defaultGoroutines: nat)
    returns (parity: seq<array<Byte>>, err: Option<CoderError>)
    requires g.Ready() && c.Valid() && defaultGoroutines > 0
    requires forall i :: 0 <= i < |data| ==> data[i].Length % 2 == 0
    modifies ctx`cancelled
    ensures err == Some(ContextCancelled) ==> ctx.cancelled
    ensures err == Some(ContextCancelled) || (err == Some(InvalidDataShardCount) <==> |data| != c.dataShards)
    ensures err.Some? ==>
      err.value == ContextCancelled || err.value == InvalidDataShardCount || err.value == MismatchedShardLengths
    ensures err == Some(MismatchedShardLengths) ==> !SameLengths(data)
    ensures err.None? ==> SameLengths(data)
    ensures c.parityMatrix.Valid()
    ensures err.None? ==> |data| == c.dataShards && |parity| == c.parityShards
    ensures err.None? ==> forall e, i :: 0 <= e < |parity| && 0 <= i < |data| ==>
      fresh(parity[e]) && parity[e].Length == data[i].Length
    ensures err.None? ==> Generated(c.parityMatrix.View(), Contents(data), Contents(parity))
  {
    hide Package.Ready, Coder.Valid, IsApplied, Contents;
    CoderShape(c);
    parity := [];
    var cancelled := ctx.Err();
    if cancelled {
      err := Some(ContextCancelled);
      return;
    }
    if |data| != c.dataShards {
      err := Some(InvalidDataShardCount);
      return;
    }
    var sliceLen := data[0].Length;
    for i := 0 to |data|
      invariant forall j :: 0 <= j < i ==> data[j].Length == sliceLen
    {
      if data[i].Length != sliceLen {
        assert data[0].Length != data[i].Length;
        err := Some(MismatchedShardLengths);
        return;
      }
    }
    parity := NewShards(c.parityShards, sliceLen);
    var outcome := ApplyMatrixParallelData(ctx, g, c.parityMatrix, data, parity, numGoroutines,
                                           defaultGoroutines);
    err := if outcome == Success then None else Some(ContextCancelled);
  }

  // The round trip.

  /** Some of these shards have been lost; the others are intact. */
  ghost predicate Erased(left: seq<Option<Bytes>>, shards: seq<Bytes>) {
    |left| <= |shards| && forall i :: 0 <= i < |left| && left[i].Some? ==> left[i].value == shards[i]
  }

  /** The used recovery blocks have consecutive exponents. */
  ghost predicate Consecutive(used: seq<nat>) {
    forall i :: 0 <= i < |used| ==> used[i] == used[0] + i
  }

  /** With consecutive recovery blocks the system is never singular, so reconstruction succeeds. */
  lemma ConsecutiveSucceeds(pm: Rows, dataShards: nat, d: seq<Option<Bytes>>, p: seq<Option<Bytes>>,
                            err: Option<CoderError>)
    requires IsVandermonde(pm, |pm|, dataShards, GeneratorsBelow(ORDER))
    requires Verdict(dataShards, pm, d, p, err) && Consecutive(Used(d, p))
    ensures err != Some(SingularSystem)
  {
    hide Pow, Singular, Missing, GeneratorsBelow;
    var missing, used := Missing(Presence(d), |d|), Used(d, p);
    if err == Some(SingularSystem) {
      FirstAvailableCount(Presence(p), |p|, |missing|);
      UsedIsValid(d, p, pm, dataShards);
      MissingIncreasing(Presence(d), |d|);
      SubMatrixNotSingular(pm, dataShards, used, missing);
    }
  }

  lemma SubMatrixNotSingular(pm: Rows, dataShards: nat, used: seq<nat>, missing: seq<nat>)
    requires IsVandermonde(pm, |pm|, dataShards, GeneratorsBelow(ORDER))
    requires |used| == |missing| > 0 && Consecutive(used) && Increasing(missing)
    requires forall i :: 0 <= i < |used| ==> used[i] < |pm|
    requires forall j :: 0 <= j < |missing| ==> missing[j] < dataShards
    ensures !Singular(SubMatrix(pm, used, missing))
  {
    hide Pow, Singular, GeneratorsBelow;
    var generators := GeneratorsBelow(ORDER);
    GeneratorsDistinct(ORDER);
    var gs := Pick(generators, missing);
    var m := SubMatrix(pm, used, missing);
    forall a, b | 0 <= a < b < |gs|
      ensures gs[a] != gs[b]
    {
      assert missing[a] < missing[b];
    }
    assert ConsecutivePowers(m, gs, used[0]);
    ConsecutiveNotSingular(m, gs, used[0]);
  }

  /**
    Encoding, losing any shards and reconstructing: the original data comes back unless too many shards are lost or the
    system is singular, which it is not with consecutive recovery shards.
   */
  lemma RoundTrip(pm: Rows, orig: seq<Bytes>, recovery: seq<Bytes>, d: seq<Option<Bytes>>, p: seq<Option<Bytes>>,
                  err: Option<CoderError>, result: seq<Option<Bytes>>, len: nat)
    requires IsVandermonde(pm, |pm|, |orig|, GeneratorsBelow(ORDER))
    requires SameLength(orig, len) && |orig| > 0 && Generated(pm, orig, recovery)
    requires |d| == |orig| && Erased(d, orig) && Erased(p, recovery)
    requires Verdict(|orig|, pm, d, p, err) && (err.None? ==> Restored(pm, d, p, result))
    ensures err == None || err == Some(NotEnoughParity) || err == Some(SingularSystem)
    ensures err == None ==> IsWhole(orig, result)
    ensures err == Some(NotEnoughParity) ==> |Available(Presence(p), |p|)| < |Missing(Presence(d), |d|)|
    ensures err == Some(SingularSystem) ==> !Consecutive(Used(d, p))
  {
    hide Singular, Missing, Available, FirstAvailable, IsVandermonde, GeneratorsBelow, Dot;
    ErasedLength(pm, orig, recovery, d, p, len);
    hide IsApplied, Restored, OfLength;
    if err == None {
      assert Codeword(pm, orig, d, p) by { LeftOver(pm, orig, recovery, d, p, len); }
      WholeAgain(pm, orig, d, p, result);
    }
    if Consecutive(Used(d, p)) {
      ConsecutiveSucceeds(pm, |orig|, d, p, err);
    }
  }

  lemma ErasedLength(pm: Rows, orig: seq<Bytes>, recovery: seq<Bytes>, d: seq<Option<Bytes>>, p: seq<Option<Bytes>>,
                     len: nat)
    requires SameLength(orig, len) && |orig| > 0 && Generated(pm, orig, recovery)
    requires |d| == |orig| && Erased(d, orig) && Erased(p, recovery)
    ensures OfLength(d, len) && OfLength(p, len) && |p| <= |pm|
  {
    hide Dot;
    forall e | 0 <= e < |p| && p[e].Some?
      ensures |p[e].value| == len
    {
      assert IsApplied(pm[e], orig, recovery[e]);
      assert |orig[0]| == len;
    }
  }

  lemma LeftOver(pm: Rows, orig: seq<Bytes>, recovery: seq<Bytes>, d: seq<Option<Bytes>>, p: seq<Option<Bytes>>,
                 len: nat)
    requires SameLength(orig, len) && Generated(pm, orig, recovery)
    requires |d| == |orig| && Erased(d, orig) && Erased(p, recovery)
    ensures Codeword(pm, orig, d, p)
  {
    hide IsApplied;
  }

  lemma WholeAgain(pm: Rows, orig: seq<Bytes>, d: seq<Option<Bytes>>, p: seq<Option<Bytes>>, result: seq<Option<Bytes>>)
    requires Codeword(pm, orig, d, p) && Restored(pm, d, p, result)
    ensures IsWhole(orig, result)
  {
  }

  /** A single lost shard can always be rebuilt. */
  lemma SingleLossSucceeds(pm: Rows, dataShards: nat, d: seq<Option<Bytes>>, p: seq<Option<Bytes>>,
                           err: Option<CoderError>)
    requires IsVandermonde(pm, |pm|, dataShards, GeneratorsBelow(ORDER)) && Verdict(dataShards, pm, d, p, err)
    requires |d| == dataShards && |p| <= |pm| && |Missing(Presence(d), |d|)| == 1
    requires exists e :: 0 <= e < |p| && p[e].Some?
    requires exists l :: OfLength(d, l) && OfLength(p, l)
    ensures err == None
  {
    hide Pow, Singular, Missing, GeneratorsBelow;
    FirstAvailableCount(Presence(p), |p|, 1);
    var e :| 0 <= e < |p| && p[e].Some?;
    SomeAvailable(Presence(p), |p|, e);
    ConsecutiveSucceeds(pm, dataShards, d, p, err);
  }

  lemma {:induction false} SomeAvailable(present: seq<bool>, n: nat, e: nat)
    requires e < n <= |present| && present[e]
    ensures |Available(present, n)| > 0
  {
    if e == n - 1 {
    } else {
      SomeAvailable(present, n - 1, e);
    }
  }
}
