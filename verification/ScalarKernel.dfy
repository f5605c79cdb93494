/**
  The portable kernels of gf16/gf16.go. The source has each kernel twice, once storing the products and once adding
  them to what is there; here the flag accumulate selects between the two.
 */
module ScalarKernel {
  import opened Bits
  import opened Field
  import opened Order
  import opened Slices
  import opened GF16

  const SMALL_SLICE_BYTES: nat := 64

  /** (p << 1) ^ (0x100b & uint16(-int16(p >> 15))) */
  function MultByTwo(p: T): (r: nat)
    ensures r == TimesX(p)
  {
    var mask := (65536 - p / 32768) % 65536;
    MaskedReducer(p);
    Xor(2 * p % 65536, And(0x100B, mask))
  }

  lemma MaskedReducer(p: T)
    ensures Xor(2 * p % 65536, And(0x100B, (65536 - p / 32768) % 65536)) == TimesX(p)
  {
    hide Xor, And;
    AndMasks(0x100B);
    if 2 * p < 65536 {
      assert (65536 - p / 32768) % 65536 == 0;
      XorZero(2 * p);
    } else {
      assert (65536 - p / 32768) % 65536 == 65535;
      assert 2 * p % 65536 == 2 * p - 65536;
      XorTop(p);
    }
  }

  /** The two halves of a product table: s0[j] is c * j and s8[j] is c * (j << 8). */
  ghost predicate IsTable(c: T, s0: seq<T>, s8: seq<T>) {
    && |s0| == 256 && |s8| == 256
    && (forall j :: 0 <= j < 256 ==> s0[j] == Mul(c, j))
    && (forall j :: 0 <= j < 256 ==> s8[j] == Mul(c, 256 * j))
  }

  /** j, or j << 8 for the high half. */
  function Unit(high: bool, j: nat): (r: nat)
    ensures j < 256 || (j == 256 && !high) ==> r < 65536
  {
    if high then 256 * j else j
  }

  /** The entries below j are in place. */
  ghost predicate Filled(a: array<T>, c: T, high: bool, j: nat)
    reads a
  {
    a.Length == 256 && j <= 256 && forall i :: 0 <= i < j ==> a[i] == Mul(c, Unit(high, i))
  }

  /** Doubles the filled part of a half: entry k + j is entry k plus the coefficient of j. */
  method FillRun(a: array<T>, c: T, high: bool, j: nat, coeff: T, ghost t: nat)
    requires j == Pow2(t) && 2 * j <= 256 && Filled(a, c, high, j) && coeff == Mul(c, Unit(high, j))
    modifies a
    ensures Filled(a, c, high, 2 * j)
  {
    hide Mul, Add, Unit, Pow2;
    var k := 0;
    while k < j
      invariant k <= j && Filled(a, c, high, j + k)
    {
      TableEntry(c, high, k, j, t);
      a[k + j] := Add(a[k], coeff);
      k := k + 1;
    }
  }

  method FirstEntry(c: T, high: bool) returns (a: array<T>)
    ensures fresh(a) && Filled(a, c, high, 1)
  {
    a := new T[256](_ => 0);
    MulZero(c);
  }

  /** One half of the table; coeff is c or c << 8 on entry, and next is the coefficient of the half after it. */
  method FillHalf(c: T, high: bool, coeff: T) returns (a: array<T>, next: T)
    requires coeff == Mul(c, Unit(high, 1))
    ensures fresh(a) && Filled(a, c, high, 256)
    ensures !high ==> next == Mul(c, Unit(high, 256))
  {
    hide *;
    next := coeff;
    a := FirstEntry(c, high);
    var j := 1;
    ghost var t := 0;
    assert j == Pow2(t) by { PowerOfZero(); }
    while j < 256
      invariant j == Pow2(t) && j <= 256 && fresh(a) && Filled(a, c, high, j)
      invariant j < 256 || !high ==> next == Mul(c, Unit(high, j))
      decreases 256 - j
    {
      SmallPower(t, j);
      FillRun(a, c, high, j, next, t);
      if 2 * j < 256 || !high { NextUnit(c, high, j); }
      next := MultByTwo(next);
      j := 2 * j;
      t := t + 1;
    }
  }

  lemma PowerOfZero()
    ensures Pow2(0) == 1
  {
  }

  lemma FilledAll(a: array<T>, c: T, high: bool)
    requires Filled(a, c, high, 256)
    ensures forall j :: 0 <= j < 256 ==> a[..][j] == Mul(c, Unit(high, j))
    ensures a.Length == 256
  {
  }

  lemma SmallPower(t: nat, j: nat)
    requires j == Pow2(t) && j < 256
    ensures 2 * j <= 256 && 2 * j == Pow2(t + 1)
  {
    Pow2Values();
    if t >= 8 {
      Pow2Grows(8, t);
    } else {
      Pow2Grows(t + 1, 8);
    }
  }

  lemma TableEntry(c: T, high: bool, k: nat, j: nat, t: nat)
    requires k < j < 256 && j == Pow2(t) && k + j < 256
    ensures Mul(c, Unit(high, k + j)) == Add(Mul(c, Unit(high, k)), Mul(c, Unit(high, j)))
  {
    hide Mul, Pow2, Xor;
    XorDisjoint(k, 1, t);
    Pow2Values();
    XorShift(k, j, 8);
    MulAddRight(c, Unit(high, k), Unit(high, j));
  }

  lemma NextUnit(c: T, high: bool, j: nat)
    requires j < 256 && (2 * j < 256 || (2 * j == 256 && !high))
    ensures TimesX(Mul(c, Unit(high, j))) == Mul(c, Unit(high, 2 * j))
  {
    hide Mul;
    var u: T := Unit(high, j);
    MulTimesX(u, c);
    MulComm(c, u);
    MulComm(c, TimesX(u));
  }

  method CalcTable(c: T) returns (s0: seq<T>, s8: seq<T>)
    ensures IsTable(c, s0, s8)
  {
    MulOne(c);
    var low, coeff := FillHalf(c, false, c);
    FilledAll(low, c, false);
    s0 := low[..];
    var high, _ := FillHalf(c, true, coeff);
    FilledAll(high, c, true);
    s8 := high[..];
  }

  /** The part of the input a kernel has not reached yet still holds its original bytes. */
  lemma Unread(inp: Slice, out: Slice, accumulate: bool, c: T, inp0: seq<Byte>, before: seq<Byte>, i: nat)
    requires Pair(inp, out) && |before| == out.buf.Length
    requires Done(accumulate, c, inp0, before, out.buf[..], out.off, i) && i <= inp.len
    requires |inp0| == inp.len
    requires inp.buf == out.buf ==> inp0 == before[inp.off..inp.off + inp.len]
    requires inp.buf != out.buf ==> inp0 == inp.Contents()
    ensures forall b :: i <= b < inp.len ==> inp.buf[inp.off + b] == inp0[b]
  {
    hide Mul, Combine, Element;
    forall b | i <= b < inp.len
      ensures inp.buf[inp.off + b] == inp0[b]
    {
      if inp.buf == out.buf {
        InputKept(inp, out, before, out.buf[..], i, b);
        assert inp0[b] == before[inp.off + b];
      } else {
        assert inp.Contents()[b] == inp.buf[inp.off + b];
      }
    }
  }

  /** What holds between two steps of a kernel that has processed i bytes. */
  ghost predicate Running(accumulate: bool, c: T, inp: Slice, out: Slice, inp0: seq<Byte>, before: seq<Byte>, i: nat)
    reads inp.buf, out.buf
  {
    && Pair(inp, out) && |before| == out.buf.Length && |inp0| == inp.len && i <= inp.len && i % 2 == 0
    && (inp.buf == out.buf ==> inp0 == before[inp.off..inp.off + inp.len])
    && (inp.buf != out.buf ==> inp0 == inp.Contents())
    && Done(accumulate, c, inp0, before, out.buf[..], out.off, i)
  }

  lemma RunningAtStart(accumulate: bool, c: T, inp: Slice, out: Slice)
    requires Pair(inp, out)
    ensures Running(accumulate, c, inp, out, inp.Contents(), out.buf[..], 0)
  {
  }

  lemma SliceElement(accumulate: bool, c: T, inp: Slice, out: Slice, inp0: seq<Byte>, before: seq<Byte>, i: nat, p: nat)
    requires Running(accumulate, c, inp, out, inp0, before, i) && i <= p && p + 2 <= inp.len
    ensures inp.off + p + 2 <= inp.buf.Length && |inp0| == inp.len
    ensures Join(inp.buf[inp.off + p], inp.buf[inp.off + p + 1]) == Element(inp0, p, 0)
  {
    Unread(inp, out, accumulate, c, inp0, before, i);
  }

  /** Writing the n bytes after i, each element holding what the kernel asks for, moves the kernel on by n. */
  lemma Advance(accumulate: bool, c: T, inp: Slice, out: Slice, inp0: seq<Byte>, before: seq<Byte>, mid: seq<Byte>,
                i: nat, n: nat)
    requires Pair(inp, out) && |before| == out.buf.Length == |mid| && |inp0| == inp.len && i + n <= inp.len
    requires i % 2 == 0 && n % 2 == 0
    requires inp.buf == out.buf ==> inp0 == before[inp.off..inp.off + inp.len]
    requires inp.buf != out.buf ==> inp0 == inp.Contents()
    requires Done(accumulate, c, inp0, before, mid, out.off, i)
    requires forall b :: 0 <= b < |mid| && !(out.off + i <= b < out.off + i + n) ==> out.buf[b] == mid[b]
    requires forall k :: 0 <= k < n / 2 ==>
      Element(out.buf[..], out.off + i, k)
      == Combine(accumulate, Element(mid, out.off + i, k), Mul(c, Element(inp0, i, k)))
    ensures Running(accumulate, c, inp, out, inp0, before, i + n)
  {
    hide Mul, Combine;
    Extend(accumulate, c, inp0, before, mid, out.buf[..], out.off, i, n);
  }

  method LoadElement(s: Slice, i: nat) returns (v: T)
    requires s.Valid() && i + 2 <= s.len
    ensures v == Element(s.buf[..], s.off + i, 0) == Join(s.buf[s.off + i], s.buf[s.off + i + 1])
  {
    v := Join(s.buf[s.off + i], s.buf[s.off + i + 1]);
  }

  method PutElement(s: Slice, i: nat, v: T)
    requires s.Valid() && i + 2 <= s.len
    modifies s.buf
    ensures Element(s.buf[..], s.off + i, 0) == v
    ensures forall b :: 0 <= b < s.buf.Length && !(s.off + i <= b < s.off + i + 2) ==> s.buf[b] == old(s.buf[b])
  {
    s.buf[s.off + i] := LowByte(v);
    s.buf[s.off + i + 1] := HighByte(v);
  }

  /** Stores one product, or adds it to the element in place. */
  method StoreElement(accumulate: bool, c: T, inp: Slice, out: Slice, i: nat, product: T, ghost inp0: seq<Byte>,
                      ghost before: seq<Byte>)
    requires Running(accumulate, c, inp, out, inp0, before, i) && i + 2 <= inp.len
    requires product == Mul(c, Element(inp0, i, 0))
    modifies out.buf
    ensures Running(accumulate, c, inp, out, inp0, before, i + 2)
  {
    hide Mul, Add, Element, Done;
    ghost var mid := out.buf[..];
    var d := product;
    if accumulate {
      var present := LoadElement(out, i);
      d := Add(present, product);
    }
    PutElement(out, i, d);
    Advance(accumulate, c, inp, out, inp0, before, mid, i, 2);
  }

  /** The product of c and v by logarithms, as the short-slice loop computes it. */
  function ProductByLogs(tables: Tables, c: T, v: T): (r: T)
    requires tables.Built() && c != 0
    ensures r == Mul(c, v)
  {
    MulZero(c);
    if v == 0 then 0 else
    LogOfProduct(c, v);
    tables.exp[(tables.log[c - 1] + tables.log[v - 1]) % (ORDER - 1)]
  }

  /** The product of c and the element with the given bytes, by the two table halves. */
  function ProductByTable(c: T, s0: seq<T>, s8: seq<T>, lo: Byte, hi: Byte): (r: T)
    requires IsTable(c, s0, s8)
    ensures r == Mul(c, Join(lo, hi))
  {
    ElementBytes(lo, hi);
    MulAddRight(c, lo, 256 * (hi as int));
    Add(s0[lo], s8[hi])
  }

  method Clear(out: Slice)
    requires out.Valid()
    modifies out.buf
    ensures forall b :: 0 <= b < out.buf.Length ==>
      out.buf[b] == if out.off <= b < out.off + out.len then 0 else old(out.buf[b])
  {
    for i := 0 to out.len
      invariant forall b :: 0 <= b < out.buf.Length ==>
        out.buf[b] == if out.off <= b < out.off + i then 0 else old(out.buf[b])
    {
      out.buf[out.off + i] := 0;
    }
  }

  /** Multiplying by zero clears the output; adding zero leaves it. */
  lemma ZeroDone(accumulate: bool, inp0: seq<Byte>, before: seq<Byte>, after: seq<Byte>, off: nat)
    requires |after| == |before| && off + |inp0| <= |before|
    requires forall b :: 0 <= b < |before| ==>
      after[b] == if !accumulate && off <= b < off + |inp0| then 0 else before[b]
    ensures Done(accumulate, 0, inp0, before, after, off, |inp0|)
  {
    hide Mul, Add;
    forall k | 0 <= k < |inp0| / 2
      ensures Element(after, off, k) == Combine(accumulate, Element(before, off, k), Mul(0, Element(inp0, 0, k)))
    {
      MulZero(Element(inp0, 0, k));
      AddZero(Element(before, off, k));
    }
  }

  /** The portable kernel: every element of inp is multiplied by c into out. */
  method MulScalar(tables: Tables, accumulate: bool, c: T, inp: Slice, out: Slice)
    requires tables.Built() && Pair(inp, out)
    modifies out.buf
    ensures Done(accumulate, c, old(inp.Contents()), old(out.buf[..]), out.buf[..], out.off, out.len)
  {
    ghost var inp0, before := inp.Contents(), out.buf[..];
    RunningAtStart(accumulate, c, inp, out);
    if c == 0 {
      if !accumulate { Clear(out); }
      ZeroDone(accumulate, inp0, before, out.buf[..], out.off);
      return;
    }
    var i := 0;
    if inp.len <= SMALL_SLICE_BYTES {
      while i < inp.len
        invariant Running(accumulate, c, inp, out, inp0, before, i)
      {
        SliceElement(accumulate, c, inp, out, inp0, before, i, i);
        hide Running, Mul;
        var v := LoadElement(inp, i);
        var r := ProductByLogs(tables, c, v);
        StoreElement(accumulate, c, inp, out, i, r, inp0, before);
        i := i + 2;
      }
      return;
    }
    var s0, s8 := CalcTable(c);
    while i + 8 <= inp.len
      invariant Running(accumulate, c, inp, out, inp0, before, i)
    {
      StoreFour(accumulate, c, inp, out, i, s0, s8, inp0, before);
      i := i + 8;
    }
    while i < inp.len
      invariant Running(accumulate, c, inp, out, inp0, before, i)
    {
      SliceElement(accumulate, c, inp, out, inp0, before, i, i);
      hide Running, Mul, IsTable;
      var r := ProductByTable(c, s0, s8, inp.buf[inp.off + i], inp.buf[inp.off + i + 1]);
      StoreElement(accumulate, c, inp, out, i, r, inp0, before);
      i := i + 2;
    }
  }

  /** One round of the unrolled loop: eight bytes are read before any is written. */
  method StoreFour(accumulate: bool, c: T, inp: Slice, out: Slice, i: nat, s0: seq<T>, s8: seq<T>,
                   ghost inp0: seq<Byte>, ghost before: seq<Byte>)
    requires Running(accumulate, c, inp, out, inp0, before, i) && i + 8 <= inp.len && IsTable(c, s0, s8)
    modifies out.buf
    ensures Running(accumulate, c, inp, out, inp0, before, i + 8)
  {
    SliceElement(accumulate, c, inp, out, inp0, before, i, i);
    SliceElement(accumulate, c, inp, out, inp0, before, i, i + 2);
    SliceElement(accumulate, c, inp, out, inp0, before, i, i + 4);
    SliceElement(accumulate, c, inp, out, inp0, before, i, i + 6);
    hide Mul, IsTable;
    var a := inp.off + i;
    assert a + 8 <= inp.buf.Length;
    hide Running;
    var r0 := ProductByTable(c, s0, s8, inp.buf[a], inp.buf[a + 1]);
    var r1 := ProductByTable(c, s0, s8, inp.buf[a + 2], inp.buf[a + 3]);
    var r2 := ProductByTable(c, s0, s8, inp.buf[a + 4], inp.buf[a + 5]);
    var r3 := ProductByTable(c, s0, s8, inp.buf[a + 6], inp.buf[a + 7]);
    StoreElement(accumulate, c, inp, out, i, r0, inp0, before);
    StoreElement(accumulate, c, inp, out, i + 2, r1, inp0, before);
    StoreElement(accumulate, c, inp, out, i + 4, r2, inp0, before);
    StoreElement(accumulate, c, inp, out, i + 6, r3, inp0, before);
  }
}
