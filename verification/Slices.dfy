/**
  Byte slices as runs of field elements. A slice is a window into a byte array; an element is two bytes, the low one
  first. Done says what every multiplication kernel of gf16 has to achieve.
 */
module Slices {
  import opened Bits
  import opened Field

  datatype Slice = Slice(buf: array<Byte>, off: nat, len: nat) {

    predicate Valid()
    {
      off + len <= buf.Length
    }

    function Contents(): seq<Byte>
      requires Valid()
      reads buf
    {
      buf[off..off + len]
    }

    /** The slice from byte n on. */
    function From(n: nat): Slice
      requires n <= len
    {
      Slice(buf, off + n, len - n)
    }

    /** The slice up to byte n. */
    function Upto(n: nat): Slice
      requires n <= len
    {
      Slice(buf, off, n)
    }
  }

  /** The slices have the same even length, and they are one slice or do not overlap. */
  predicate Pair(inp: Slice, out: Slice) {
    && inp.Valid() && out.Valid()
    && inp.len == out.len && inp.len % 2 == 0
    && (inp.buf != out.buf || inp.off == out.off
        || inp.off + inp.len <= out.off || out.off + out.len <= inp.off)
  }

  function LowByte(t: T): Byte {
    t % 256
  }

  function HighByte(t: T): Byte {
    t / 256
  }

  /** The element held by the bytes at off + 2k and off + 2k + 1. */
  function Element(s: seq<Byte>, off: nat, k: nat): T
    requires off + 2 * k + 2 <= |s|
  {
    Join(s[off + 2 * k], s[off + 2 * k + 1])
  }

  /** The element whose low and high byte are given. */
  function Join(lo: nat, hi: nat): T
    requires lo < 256 && hi < 256
  {
    lo + 256 * hi
  }

  /** What a kernel leaves in an element: the product, or the old element plus the product. */
  function Combine(accumulate: bool, before: T, product: T): T {
    if accumulate then Add(before, product) else product
  }

  /** The first n bytes of the window at off have been processed, and no other byte has changed. */
  ghost predicate Done(accumulate: bool, c: T, inp: seq<Byte>, before: seq<Byte>, after: seq<Byte>, off: nat, n: nat) {
    && |after| == |before| && off + n <= |before| && n <= |inp|
    && (forall k :: 0 <= k < n / 2 ==>
          Element(after, off, k) == Combine(accumulate, Element(before, off, k), Mul(c, Element(inp, 0, k))))
    && (forall b :: 0 <= b < |before| && !(off <= b < off + n) ==> after[b] == before[b])
  }

  lemma DoneNothing(accumulate: bool, c: T, inp: seq<Byte>, before: seq<Byte>, off: nat)
    requires off <= |before|
    ensures Done(accumulate, c, inp, before, before, off, 0)
  {
  }

  /** Processing the next n bytes extends what is done. */
  lemma Extend(accumulate: bool, c: T, inp: seq<Byte>, before: seq<Byte>, mid: seq<Byte>, after: seq<Byte>, off: nat,
               i: nat, n: nat)
    requires i % 2 == 0 && n % 2 == 0 && off + i + n <= |before| && i + n <= |inp|
    requires Done(accumulate, c, inp, before, mid, off, i)
    requires |after| == |mid|
    requires forall b :: 0 <= b < |mid| && !(off + i <= b < off + i + n) ==> after[b] == mid[b]
    requires forall k :: 0 <= k < n / 2 ==>
      Element(after, off + i, k) == Combine(accumulate, Element(mid, off + i, k), Mul(c, Element(inp, i, k)))
    ensures Done(accumulate, c, inp, before, after, off, i + n)
  {
    hide Combine, Mul;
    forall k | 0 <= k < (i + n) / 2
      ensures Element(after, off, k) == Combine(accumulate, Element(before, off, k), Mul(c, Element(inp, 0, k)))
    {
      if k < i / 2 {
        assert Element(after, off, k) == Element(mid, off, k);
      } else {
        var j := k - i / 2;
        assert Element(after, off + i, j) == Element(after, off, k);
        assert Element(mid, off + i, j) == Element(before, off, k);
        assert Element(inp, i, j) == Element(inp, 0, k);
      }
    }
  }

  /** What has been done to a prefix of the input has been done to the input. */
  lemma DoneOnPrefix(accumulate: bool, c: T, inp: seq<Byte>, before: seq<Byte>, after: seq<Byte>, off: nat, n: nat)
    requires n % 2 == 0 && n <= |inp| && Done(accumulate, c, inp[..n], before, after, off, n)
    ensures Done(accumulate, c, inp, before, after, off, n)
  {
    hide Mul, Combine;
    forall k | 0 <= k < n / 2
      ensures Element(after, off, k) == Combine(accumulate, Element(before, off, k), Mul(c, Element(inp, 0, k)))
    {
      assert Element(inp[..n], 0, k) == Element(inp, 0, k);
    }
  }

  /** A prefix and the rest after it make up the whole. */
  lemma Compose(accumulate: bool, c: T, inp: seq<Byte>, before: seq<Byte>, mid: seq<Byte>, after: seq<Byte>, off: nat,
                n: nat)
    requires n % 2 == 0 && |inp| % 2 == 0 && n <= |inp| && off + |inp| <= |before|
    requires Done(accumulate, c, inp[..n], before, mid, off, n)
    requires Done(accumulate, c, inp[n..], mid, after, off + n, |inp| - n)
    ensures Done(accumulate, c, inp, before, after, off, |inp|)
  {
    hide Combine, Mul;
    DoneOnPrefix(accumulate, c, inp, before, mid, off, n);
    forall k | 0 <= k < (|inp| - n) / 2
      ensures Element(after, off + n, k) == Combine(accumulate, Element(mid, off + n, k), Mul(c, Element(inp, n, k)))
    {
      assert Element(inp[n..], 0, k) == Element(inp, n, k);
    }
    Extend(accumulate, c, inp, before, mid, after, off, n, |inp| - n);
  }

  /** A kernel that writes only inside its output window leaves the rest of its input as it was. */
  lemma InputKept(inp: Slice, out: Slice, before: seq<Byte>, after: seq<Byte>, n: nat, b: nat)
    requires Pair(inp, out) && |before| == |after| == out.buf.Length && n <= b < inp.len
    requires forall b :: 0 <= b < |before| && !(out.off <= b < out.off + n) ==> after[b] == before[b]
    ensures inp.buf == out.buf ==> after[inp.off + b] == before[inp.off + b]
  {
  }

  lemma ElementBytes(lo: Byte, hi: Byte)
    ensures LowByte(Join(lo, hi)) == lo && HighByte(Join(lo, hi)) == hi
    ensures 256 * (hi as int) < 65536 && Add(lo, 256 * (hi as int)) == Join(lo, hi)
  {
    hide Xor, Pow2;
    Pow2Values();
    XorDisjoint(lo, hi, 8);
  }

  /** Exclusive or on elements is exclusive or on their bytes. */
  lemma AddBytes(a: T, b: T)
    ensures LowByte(Add(a, b)) == Xor(LowByte(a), LowByte(b)) && HighByte(Add(a, b)) == Xor(HighByte(a), HighByte(b))
  {
    Pow2Values();
    XorSplit(a, b, 8);
  }
}
