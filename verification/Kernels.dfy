/**
  The exported slice kernels and their dispatch: gf16/gf16.go and gf16/gf16_amd64.go. Whatever vector extensions the
  processor has, the result is element-wise multiplication. Package is what gf16 sets up before anything else runs.
 */
module Kernels {
  import opened Bits
  import opened Field
  import opened Slices
  import opened GF16
  import opened ScalarKernel
  import opened Simd

  const AVX2_BLOCK_BYTES: nat := 64
  const SSSE3_BLOCK_BYTES: nat := 32
  const ELEMENT_BYTES: nat := 2

  datatype Package = Package(tables: Tables, entries: seq<Entry>, hasAVX2: bool, hasSSSE3: bool) {

    ghost predicate Ready() {
      && tables.Built()
      && |entries| == ORDER && forall c: T :: IsEntry(c, entries[c])
    }

    /** The run of bytes one kernel call consumes on this processor. */
    function KernelBlockBytes(): (n: nat)
    {
      if hasAVX2 then AVX2_BLOCK_BYTES else if hasSSSE3 then SSSE3_BLOCK_BYTES else ELEMENT_BYTES
    }
  }

  /** The low and high bytes of c * (j << shift) for every nibble j; scale is 1 << shift. */
  method NibbleTables(tables: Tables, c: T, scale: nat) returns (low: Lane, high: Lane)
    requires tables.Built() && (scale == 1 || scale == 16 || scale == 256 || scale == 4096)
    ensures forall j :: 0 <= j < 16 ==> scale * j < 65536
    ensures forall j :: 0 <= j < 16 ==> low[j] == LowByte(Mul(c, scale * j)) && high[j] == HighByte(Mul(c, scale * j))
  {
    hide Mul;
    low, high := seq(16, _ => 0), seq(16, _ => 0);
    for j := 0 to 16
      invariant forall i :: 0 <= i < j ==> scale * i < 65536
      invariant forall i :: 0 <= i < j ==> low[i] == LowByte(Mul(c, scale * i)) && high[i] == HighByte(Mul(c, scale * i))
    {
      ScaledNibble(scale, j);
      var t := tables.Times(c, scale * j);
      low := low[j := LowByte(t)];
      high := high[j := HighByte(t)];
    }
  }

  lemma ScaledNibble(scale: nat, j: nat)
    requires (scale == 1 || scale == 16 || scale == 256 || scale == 4096) && j < 16
    ensures 0 <= scale * j < 65536
  {
  }

  method BuildEntry(tables: Tables, c: T) returns (e: Entry)
    requires tables.Built()
    ensures IsEntry(c, e)
  {
    hide Mul;
    var s0Low, s0High := NibbleTables(tables, c, 1);
    var s4Low, s4High := NibbleTables(tables, c, 16);
    var s8Low, s8High := NibbleTables(tables, c, 256);
    var s12Low, s12High := NibbleTables(tables, c, 4096);
    e := Entry(s0Low, s4Low, s8Low, s12Low, s0High, s4High, s8High, s12High);
  }

  /** Package initialisation: the logarithm tables first, then the shuffle tables of every coefficient. */
  method Initialize(hasAVX2: bool, hasSSSE3: bool) returns (g: Package)
    ensures g.Ready() && g.hasAVX2 == hasAVX2 && g.hasSSSE3 == hasSSSE3
    ensures g.KernelBlockBytes() == if hasAVX2 then 64 else if hasSSSE3 then 32 else 2
  {
    hide Mul, IsEntry;
    var tables := BuildTables();
    var entries: seq<Entry> := [];
    for i := 0 to ORDER
      invariant |entries| == i && forall c: T :: c < i ==> IsEntry(c, entries[c])
    {
      var e := BuildEntry(tables, i);
      entries := entries + [e];
    }
    g := Package(tables, entries, hasAVX2, hasSSSE3);
  }

  // The vector kernels.

  /** Lanes of sixteen bytes, taken from the bytes at position at. */
  function Load(bytes: seq<Byte>, at: nat, lanes: nat): (r: Register)
    requires at + 16 * lanes <= |bytes|
    ensures |r| == lanes
  {
    seq(lanes, l requires 0 <= l < lanes => bytes[at + 16 * l..at + 16 * l + 16])
  }

  /** The element at index k of a register. */
  function RegisterElement(r: Register, k: nat): T
    requires k < 8 * |r|
  {
    Word(r[k / 8], k % 8)
  }

  lemma LoadedElement(bytes: seq<Byte>, at: nat, lanes: nat, k: nat)
    requires at + 16 * lanes <= |bytes| && k < 8 * lanes
    ensures RegisterElement(Load(bytes, at, lanes), k) == Element(bytes, at, k)
  {
    var l, w := k / 8, k % 8;
    assert 16 * l + 2 * w == 2 * k;
    assert Load(bytes, at, lanes)[l] == bytes[at + 16 * l..at + 16 * l + 16];
  }

  method Store(s: Slice, at: nat, r: Register)
    requires s.Valid() && at + 16 * |r| <= s.len
    modifies s.buf
    ensures forall b :: 0 <= b < s.buf.Length && !(s.off + at <= b < s.off + at + 16 * |r|) ==>
      s.buf[b] == old(s.buf[b])
    ensures forall k :: 0 <= k < 8 * |r| ==> Element(s.buf[..], s.off + at, k) == RegisterElement(r, k)
  {
    var p := s.off + at;
    for b := 0 to 16 * |r|
      invariant forall i :: 0 <= i < s.buf.Length && !(p <= i < p + 16 * |r|) ==> s.buf[i] == old(s.buf[i])
      invariant forall i :: 0 <= i < b ==> s.buf[p + i] == r[i / 16][i % 16]
    {
      s.buf[p + b] := r[b / 16][b % 16];
    }
    forall k | 0 <= k < 8 * |r|
      ensures Element(s.buf[..], p, k) == RegisterElement(r, k)
    {
      assert (2 * k) / 16 == k / 8 && (2 * k) % 16 == 2 * (k % 8);
      assert (2 * k + 1) / 16 == k / 8 && (2 * k + 1) % 16 == 2 * (k % 8) + 1;
    }
  }

  method StoreBlock(s: Slice, at: nat, first: Register, second: Register)
    requires s.Valid() && |first| == |second| && at + 32 * |first| <= s.len
    modifies s.buf
    ensures forall b :: 0 <= b < s.buf.Length && !(s.off + at <= b < s.off + at + 32 * |first|) ==>
      s.buf[b] == old(s.buf[b])
    ensures forall k :: 0 <= k < 8 * |first| ==> Element(s.buf[..], s.off + at, k) == RegisterElement(first, k)
    ensures forall k :: 0 <= k < 8 * |first| ==>
      Element(s.buf[..], s.off + at + 16 * |first|, k) == RegisterElement(second, k)
  {
    hide RegisterElement;
    Store(s, at, first);
    ghost var mid := s.buf[..];
    Store(s, at + 16 * |first|, second);
    ghost var p := s.off + at;
    assert forall k :: 0 <= k < 8 * |first| ==> Element(s.buf[..], p, k) == Element(mid, p, k);
  }

  /** The multiplication macro on every lane of a pair of registers. */
  method MultiplyBlock(c: T, e: Entry, in0: Register, in1: Register, convMask: Lane, mulMask: Lane)
    returns (out0: Register, out1: Register)
    requires IsEntry(c, e) && IsConvMask(convMask) && IsMulMask(mulMask) && |in0| == |in1|
    ensures |out0| == |out1| == |in0|
    ensures forall k :: 0 <= k < 8 * |in0| ==>
      RegisterElement(out0, k) == Mul(c, RegisterElement(in1, k))
      && RegisterElement(out1, k) == Mul(c, RegisterElement(in0, k))
  {
    hide Mul;
    out0 := seq(|in0|, l requires 0 <= l < |in0| => MulStandardMap(e, in0[l], in1[l], convMask, mulMask).0);
    out1 := seq(|in0|, l requires 0 <= l < |in0| => MulStandardMap(e, in0[l], in1[l], convMask, mulMask).1);
    hide MulStandardMap, IsEntry, IsConvMask, IsMulMask;
    forall k | 0 <= k < 8 * |in0|
      ensures RegisterElement(out0, k) == Mul(c, RegisterElement(in1, k))
      ensures RegisterElement(out1, k) == Mul(c, RegisterElement(in0, k))
    {
      MapMultiplies(c, e, in0[k / 8], in1[k / 8], convMask, mulMask, k % 8);
    }
  }

  /** VPXOR on every lane. */
  method XorRegister(y: Register, x: Register) returns (r: Register)
    requires |x| == |y|
    ensures |r| == |x|
    ensures forall k :: 0 <= k < 8 * |x| ==> RegisterElement(r, k) == Add(RegisterElement(y, k), RegisterElement(x, k))
  {
    r := seq(|x|, l requires 0 <= l < |x| => XorLane(y[l], x[l]));
    hide Xor;
    forall k | 0 <= k < 8 * |x|
      ensures RegisterElement(r, k) == Add(RegisterElement(y, k), RegisterElement(x, k))
    {
      AddComm(RegisterElement(x, k), RegisterElement(y, k));
      AddBytes(RegisterElement(x, k), RegisterElement(y, k));
      ElementBytes(x[k / 8][2 * (k % 8)], x[k / 8][2 * (k % 8) + 1]);
      ElementBytes(y[k / 8][2 * (k % 8)], y[k / 8][2 * (k % 8) + 1]);
    }
  }

  /** The block of elements at i, as two registers: first holds the lower half. */
  lemma BlockElements(inp0: seq<Byte>, i: nat, lanes: nat, in0: Register, in1: Register)
    requires i + 32 * lanes <= |inp0|
    requires in1 == Load(inp0, i, lanes) && in0 == Load(inp0, i + 16 * lanes, lanes)
    ensures forall k :: 0 <= k < 8 * lanes ==> RegisterElement(in1, k) == Element(inp0, i, k)
    ensures forall k :: 0 <= k < 8 * lanes ==> RegisterElement(in0, k) == Element(inp0, i + 16 * lanes, k)
  {
    forall k | 0 <= k < 8 * lanes
      ensures RegisterElement(in1, k) == Element(inp0, i, k)
      ensures RegisterElement(in0, k) == Element(inp0, i + 16 * lanes, k)
    {
      LoadedElement(inp0, i, lanes, k);
      LoadedElement(inp0, i + 16 * lanes, lanes, k);
    }
  }

  /** Two half blocks that hold what the kernel asks for make up a block that does. */
  lemma HalvesMakeBlock(accumulate: bool, c: T, inp0: seq<Byte>, mid: seq<Byte>, after: seq<Byte>, i: nat, p: nat,
                        i1: nat, p1: nat, lanes: nat)
    requires i1 == i + 16 * lanes && p1 == p + 16 * lanes
    requires |mid| == |after| && p + 32 * lanes <= |mid| && i + 32 * lanes <= |inp0|
    requires forall k :: 0 <= k < 8 * lanes ==>
      Element(after, p, k) == Combine(accumulate, Element(mid, p, k), Mul(c, Element(inp0, i, k)))
    requires forall k :: 0 <= k < 8 * lanes ==>
      Element(after, p1, k) == Combine(accumulate, Element(mid, p1, k), Mul(c, Element(inp0, i1, k)))
    ensures forall k :: 0 <= k < 16 * lanes ==>
      Element(after, p, k) == Combine(accumulate, Element(mid, p, k), Mul(c, Element(inp0, i, k)))
  {
    hide Mul, Combine;
    forall k | 0 <= k < 16 * lanes
      ensures Element(after, p, k) == Combine(accumulate, Element(mid, p, k), Mul(c, Element(inp0, i, k)))
    {
      if k >= 8 * lanes {
        var j := k - 8 * lanes;
        assert Element(after, p1, j) == Element(after, p, k);
        assert Element(mid, p1, j) == Element(mid, p, k);
        assert Element(inp0, i1, j) == Element(inp0, i, k);
      }
    }
  }

  lemma UnreadBlock(accumulate: bool, c: T, inp: Slice, out: Slice, inp0: seq<Byte>, before: seq<Byte>, i: nat)
    requires Running(accumulate, c, inp, out, inp0, before, i)
    ensures |inp0| == inp.len && inp.Contents()[i..] == inp0[i..]
  {
    Unread(inp, out, accumulate, c, inp0, before, i);
  }

  lemma RunningBounds(accumulate: bool, c: T, inp: Slice, out: Slice, inp0: seq<Byte>, before: seq<Byte>, i: nat)
    requires Running(accumulate, c, inp, out, inp0, before, i)
    ensures Pair(inp, out) && |before| == out.buf.Length && |inp0| == inp.len && i <= inp.len && i % 2 == 0
    ensures inp.buf == out.buf ==> inp0 == before[inp.off..inp.off + inp.len]
    ensures inp.buf != out.buf ==> inp0 == inp.Contents()
    ensures Done(accumulate, c, inp0, before, out.buf[..], out.off, i)
  {
  }

  /** The block of elements already in the output. */
  lemma OutBlock(out: Slice, i: nat, lanes: nat, out0: Register, out1: Register)
    requires out.Valid() && i + 32 * lanes <= out.len
    requires out0 == Load(out.Contents(), i, lanes) && out1 == Load(out.Contents(), i + 16 * lanes, lanes)
    ensures forall k :: 0 <= k < 8 * lanes ==> RegisterElement(out0, k) == Element(out.buf[..], out.off + i, k)
    ensures forall k :: 0 <= k < 8 * lanes ==>
      RegisterElement(out1, k) == Element(out.buf[..], out.off + i + 16 * lanes, k)
  {
    forall k | 0 <= k < 8 * lanes
      ensures RegisterElement(out0, k) == Element(out.buf[..], out.off + i, k)
      ensures RegisterElement(out1, k) == Element(out.buf[..], out.off + i + 16 * lanes, k)
    {
      LoadedElement(out.Contents(), i, lanes, k);
      LoadedElement(out.Contents(), i + 16 * lanes, lanes, k);
    }
  }

  lemma LoadSame(a: seq<Byte>, b: seq<Byte>, i: nat, at: nat, lanes: nat)
    requires |a| == |b| && i <= at && at + 16 * lanes <= |a| && a[i..] == b[i..]
    ensures Load(a, at, lanes) == Load(b, at, lanes)
  {
    forall l | 0 <= l < lanes
      ensures Load(a, at, lanes)[l] == Load(b, at, lanes)[l]
    {
      assert a[at + 16 * l..at + 16 * l + 16] == a[i..][at + 16 * l - i..at + 16 * l + 16 - i];
      assert b[at + 16 * l..at + 16 * l + 16] == b[i..][at + 16 * l - i..at + 16 * l + 16 - i];
    }
  }

  /** The register holds what the kernel asks for in the elements from p on. */
  ghost predicate Computed(accumulate: bool, c: T, inp0: seq<Byte>, i: nat, mid: seq<Byte>, p: nat, r: Register) {
    && i + 16 * |r| <= |inp0| && p + 16 * |r| <= |mid|
    && forall k :: 0 <= k < 8 * |r| ==>
         RegisterElement(r, k) == Combine(accumulate, Element(mid, p, k), Mul(c, Element(inp0, i, k)))
  }

  method ComputeBlock(lanes: nat, c: T, e: Entry, accumulate: bool, inp: Slice, out: Slice, i: nat, convMask: Lane,
                      mulMask: Lane, ghost inp0: seq<Byte>)
    returns (first: Register, second: Register)
    requires IsEntry(c, e) && IsConvMask(convMask) && IsMulMask(mulMask)
    requires inp.Valid() && out.Valid() && inp.len == out.len && i + 32 * lanes <= inp.len
    requires |inp0| == inp.len && inp.Contents()[i..] == inp0[i..]
    ensures |first| == |second| == lanes
    ensures Computed(accumulate, c, inp0, i, out.buf[..], out.off + i, first)
    ensures Computed(accumulate, c, inp0, i + 16 * lanes, out.buf[..], out.off + i + 16 * lanes, second)
  {
    hide Load, Mul, Add, RegisterElement, IsEntry, IsConvMask, IsMulMask, Element;
    var in1 := Load(inp.Contents(), i, lanes);
    var in0 := Load(inp.Contents(), i + 16 * lanes, lanes);
    LoadSame(inp.Contents(), inp0, i, i, lanes);
    LoadSame(inp.Contents(), inp0, i, i + 16 * lanes, lanes);
    BlockElements(inp0, i, lanes, in0, in1);
    first, second := MultiplyBlock(c, e, in0, in1, convMask, mulMask);
    if accumulate {
      var out0 := Load(out.Contents(), i, lanes);
      var out1 := Load(out.Contents(), i + 16 * lanes, lanes);
      OutBlock(out, i, lanes, out0, out1);
      first := XorRegister(out0, first);
      second := XorRegister(out1, second);
    }
  }

  lemma StoredBlock(accumulate: bool, c: T, inp0: seq<Byte>, mid: seq<Byte>, after: seq<Byte>, i: nat, p: nat,
                    first: Register, second: Register)
    requires |first| == |second| && |mid| == |after|
    requires Computed(accumulate, c, inp0, i, mid, p, first)
    requires Computed(accumulate, c, inp0, i + 16 * |first|, mid, p + 16 * |first|, second)
    requires forall k :: 0 <= k < 8 * |first| ==> Element(after, p, k) == RegisterElement(first, k)
    requires forall k :: 0 <= k < 8 * |first| ==> Element(after, p + 16 * |first|, k) == RegisterElement(second, k)
    ensures forall k :: 0 <= k < 16 * |first| ==>
      Element(after, p, k) == Combine(accumulate, Element(mid, p, k), Mul(c, Element(inp0, i, k)))
  {
    hide Mul, Combine, Element, RegisterElement;
    HalvesMakeBlock(accumulate, c, inp0, mid, after, i, p, i + 16 * |first|, p + 16 * |first|, |first|);
  }

  method StoreComputed(ghost accumulate: bool, ghost c: T, ghost inp0: seq<Byte>, out: Slice, i: nat, first: Register,
                       second: Register)
    requires out.Valid() && |first| == |second| && i + 32 * |first| <= out.len
    requires Computed(accumulate, c, inp0, i, out.buf[..], out.off + i, first)
    requires Computed(accumulate, c, inp0, i + 16 * |first|, out.buf[..], out.off + i + 16 * |first|, second)
    modifies out.buf
    ensures forall b :: 0 <= b < out.buf.Length && !(out.off + i <= b < out.off + i + 32 * |first|) ==>
      out.buf[b] == old(out.buf[b])
    ensures i + 32 * |first| <= |inp0| && forall k :: 0 <= k < 16 * |first| ==>
      Element(out.buf[..], out.off + i, k)
      == Combine(accumulate, Element(old(out.buf[..]), out.off + i, k), Mul(c, Element(inp0, i, k)))
  {
    assert i + 32 * |first| <= |inp0|;
    hide Mul, Combine, Element, RegisterElement, Computed;
    ghost var mid := out.buf[..];
    StoreBlock(out, i, first, second);
    StoredBlock(accumulate, c, inp0, mid, out.buf[..], i, out.off + i, first, second);
  }

  /** One iteration of the vector loop. */
  method VectorBlock(lanes: nat, c: T, e: Entry, accumulate: bool, inp: Slice, out: Slice, i: nat, convMask: Lane,
                     mulMask: Lane, ghost inp0: seq<Byte>, ghost before: seq<Byte>)
    requires IsEntry(c, e) && IsConvMask(convMask) && IsMulMask(mulMask)
    requires Running(accumulate, c, inp, out, inp0, before, i) && i + 32 * lanes <= inp.len
    modifies out.buf
    ensures Running(accumulate, c, inp, out, inp0, before, i + 32 * lanes)
  {
    ghost var mid := out.buf[..];
    UnreadBlock(accumulate, c, inp, out, inp0, before, i);
    hide Mul, Combine, Element, RegisterElement, IsEntry, IsConvMask, IsMulMask, Done, Computed, Running;
    RunningBounds(accumulate, c, inp, out, inp0, before, i);
    var first, second := ComputeBlock(lanes, c, e, accumulate, inp, out, i, convMask, mulMask, inp0);
    StoreComputed(accumulate, c, inp0, out, i, first, second);
    Advance(accumulate, c, inp, out, inp0, before, mid, i, 32 * lanes);
  }

  /**
    The vector kernels: lanes is 1 for the SSSE3 routines and 2 for the AVX2 ones. The length is a whole number of
    blocks.
   */
  method MulVector(lanes: nat, c: T, e: Entry, accumulate: bool, inp: Slice, out: Slice)
    requires (lanes == 1 || lanes == 2) && IsEntry(c, e) && Pair(inp, out) && inp.len % (32 * lanes) == 0
    modifies out.buf
    ensures Done(accumulate, c, old(inp.Contents()), old(out.buf[..]), out.buf[..], out.off, out.len)
  {
    hide Mul, Combine, Done, Running, IsEntry, IsConvMask, IsMulMask;
    ghost var inp0, before := inp.Contents(), out.buf[..];
    var mulMask := SetMulMask();
    var convMask := SetConvMask();
    RunningAtStart(accumulate, c, inp, out);
    var blocks: nat := if lanes == 1 then inp.len / 32 else inp.len / 64;
    var i := 0;
    while blocks != 0
      invariant if lanes == 1 then i + 32 * blocks == inp.len else i + 64 * blocks == inp.len
      invariant Running(accumulate, c, inp, out, inp0, before, i)
    {
      VectorBlock(lanes, c, e, accumulate, inp, out, i, convMask, mulMask, inp0, before);
      i := i + 32 * lanes;
      blocks := blocks - 1;
    }
    RunningBounds(accumulate, c, inp, out, inp0, before, i);
  }

  // Dispatch.

  /** After a prefix has been processed, the rest of the input still holds its original bytes. */
  lemma RestUnread(accumulate: bool, c: T, inp: Slice, out: Slice, inp0: seq<Byte>, before: seq<Byte>, n: nat)
    requires Pair(inp, out) && |before| == out.buf.Length && |inp0| == inp.len && n <= inp.len && n % 2 == 0
    requires inp.buf == out.buf ==> inp0 == before[inp.off..inp.off + inp.len]
    requires inp.buf != out.buf ==> inp0 == inp.Contents()
    requires Done(accumulate, c, inp0[..n], before, out.buf[..], out.off, n)
    ensures inp.From(n).Contents() == inp0[n..]
  {
    DoneOnPrefix(accumulate, c, inp0, before, out.buf[..], out.off, n);
    hide Done;
    Unread(inp, out, accumulate, c, inp0, before, n);
  }

  /** Runs the vector kernel over a prefix and leaves the rest of the input readable. */
  method MulPrefix(lanes: nat, c: T, e: Entry, accumulate: bool, inp: Slice, out: Slice, n: nat)
    requires (lanes == 1 || lanes == 2) && IsEntry(c, e) && Pair(inp, out) && n <= inp.len && n % (32 * lanes) == 0
    modifies out.buf
    ensures Done(accumulate, c, old(inp.Contents())[..n], old(out.buf[..]), out.buf[..], out.off, n)
    ensures inp.From(n).Contents() == old(inp.Contents())[n..]
  {
    hide Mul, Combine, IsEntry, Done;
    ghost var inp0, before := inp.Contents(), out.buf[..];
    assert inp.Upto(n).Contents() == inp0[..n];
    MulVector(lanes, c, e, accumulate, inp.Upto(n), out.Upto(n));
    RestUnread(accumulate, c, inp, out, inp0, before, n);
  }

  lemma PairFrom(inp: Slice, out: Slice, n: nat)
    requires Pair(inp, out) && n <= inp.len && n % 2 == 0
    ensures inp.Valid() && out.Valid() && out.len == inp.len && inp.len % 2 == 0
    ensures Pair(inp.From(n), out.From(n)) && |inp.Contents()| == inp.len
    ensures inp.Contents()[..inp.len] == inp.Contents()
  {
  }

  lemma EntryOf(g: Package, c: T)
    requires g.Ready()
    ensures |g.entries| == ORDER && IsEntry(c, g.entries[c]) && g.tables.Built()
  {
  }

  /** The part of mulBulkByteSliceLE after the AVX2 case: SSSE3 blocks with a scalar tail, or the scalar kernel. */
  method MulNarrow(g: Package, accumulate: bool, c: T, inp: Slice, out: Slice)
    requires g.Ready() && Pair(inp, out)
    modifies out.buf
    ensures Done(accumulate, c, old(inp.Contents()), old(out.buf[..]), out.buf[..], out.off, out.len)
  {
    hide Mul, Combine, IsEntry, Done, Package.Ready, Tables.Built;
    EntryOf(g, c);
    PairFrom(inp, out, inp.len - inp.len % SSSE3_BLOCK_BYTES);
    hide Pair, Slice.Contents;
    var ssse3Len := inp.len - inp.len % SSSE3_BLOCK_BYTES;
    if !g.hasSSSE3 || ssse3Len == 0 {
      MulScalar(g.tables, accumulate, c, inp, out);
      return;
    }
    ghost var inp0, before := inp.Contents(), out.buf[..];
    MulPrefix(1, c, g.entries[c], accumulate, inp, out, ssse3Len);
    if ssse3Len < inp.len {
      ghost var mid := out.buf[..];
      MulScalar(g.tables, accumulate, c, inp.From(ssse3Len), out.From(ssse3Len));
      Compose(accumulate, c, inp0, before, mid, out.buf[..], out.off, ssse3Len);
    }
  }

  /** mulBulkByteSliceLE and mulAndAddBulkByteSliceLE: whole blocks to the widest kernel, the rest to the next. */
  method MulBulk(g: Package, accumulate: bool, c: T, inp: Slice, out: Slice)
    requires g.Ready() && Pair(inp, out)
    modifies out.buf
    ensures Done(accumulate, c, old(inp.Contents()), old(out.buf[..]), out.buf[..], out.off, out.len)
    decreases inp.len
  {
    hide Mul, Combine, IsEntry, Done, Package.Ready, Tables.Built;
    EntryOf(g, c);
    PairFrom(inp, out, inp.len - inp.len % AVX2_BLOCK_BYTES);
    hide Pair, Slice.Contents;
    var avx2Len := inp.len - inp.len % AVX2_BLOCK_BYTES;
    if !g.hasAVX2 || avx2Len == 0 {
      MulNarrow(g, accumulate, c, inp, out);
      return;
    }
    ghost var inp0, before := inp.Contents(), out.buf[..];
    MulPrefix(2, c, g.entries[c], accumulate, inp, out, avx2Len);
    if avx2Len < inp.len {
      ghost var mid := out.buf[..];
      MulBulk(g, accumulate, c, inp.From(avx2Len), out.From(avx2Len));
      Compose(accumulate, c, inp0, before, mid, out.buf[..], out.off, avx2Len);
    }
  }

  /** MulByteSliceLE, or MulAndAddByteSliceLE when accumulate is set. */
  method MulByteSlice(g: Package, accumulate: bool, c: T, inp: Slice, out: Slice)
    requires g.Ready() && Pair(inp, out)
    modifies out.buf
    ensures Done(accumulate, c, old(inp.Contents()), old(out.buf[..]), out.buf[..], out.off, out.len)
  {
    hide Mul, Combine, IsEntry, Done;
    ghost var inp0, before := inp.Contents(), out.buf[..];
    if inp.len == 0 {
      DoneNothing(accumulate, c, inp0, before, out.off);
      return;
    }
    if c == 0 {
      if !accumulate { Clear(out); }
      ZeroDone(accumulate, inp0, before, out.buf[..], out.off);
      return;
    }
    MulBulk(g, accumulate, c, inp, out);
  }
}
