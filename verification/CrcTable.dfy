/**
  The open-addressing table of par2/crc_table.go, from CRC-32 values to the blocks that have them. Probing is linear
  and wraps around; the table is at most a quarter full, so probing always ends.
 */
module CrcTable {
  import opened Wrappers
  import opened Bits
  import opened Packets

  /** A block and the MD5 it should have. */
  datatype Expected = Expected(block: Block, md5Hash: Hash)

  /** What the table holds for a block; reported is the position of its own flag. */
  datatype Location = Location(block: Block, md5Hash: Hash, reported: nat)

  datatype Slot = Slot(crc: U32, valid: bool, locs: seq<Location>)

  const EMPTY: Slot := Slot(0, false, [])

  // What a table represents.

  /** The slot probed after i steps. */
  function At(size: nat, crc: nat, i: nat): (j: nat)
    requires size > 0
    ensures j < size
  {
    DivModSum(crc + i, size);
    (crc + i) % size
  }

  /** The first i slots probed for crc are taken by other values. */
  ghost predicate Probed(table: seq<Slot>, crc: U32, i: nat) {
    |table| > 0 && forall k :: 0 <= k < i ==>
      table[At(|table|, crc, k)].valid && table[At(|table|, crc, k)].crc != crc
  }

  /** Probing finds locs for crc after i steps. */
  ghost predicate Stored(table: seq<Slot>, crc: U32, i: nat, locs: seq<Location>) {
    Probed(table, crc, i) && table[At(|table|, crc, i)] == Slot(crc, true, locs)
  }

  /** The table represents the map m: what m holds is found by probing, and no slot is taken by anything else. */
  ghost predicate Represents(table: seq<Slot>, m: map<U32, seq<Location>>) {
    && |table| > 0
    && (forall crc :: crc in m ==> exists i :: Stored(table, crc, i, m[crc]))
    && (forall j :: 0 <= j < |table| && table[j].valid ==> table[j].crc in m && table[j].locs == m[table[j].crc])
    && |Occupied(table)| == |m|
  }

  ghost function Occupied(table: seq<Slot>): (o: set<nat>)
    ensures forall j: nat :: j in o <==> j < |table| && table[j].valid
  {
    set j: nat | j < |table| && table[j].valid
  }

  lemma EmptyTable(table: seq<Slot>)
    requires |table| > 0 && forall j :: 0 <= j < |table| ==> table[j] == EMPTY
    ensures Represents(table, map[])
  {
    assert Occupied(table) == {};
  }

  /** Putting a new value into the first free slot probed for it. */
  lemma Insertion(table: seq<Slot>, m: map<U32, seq<Location>>, crc: U32, i: nat, locs: seq<Location>)
    requires Represents(table, m) && crc !in m && Probed(table, crc, i) && !table[At(|table|, crc, i)].valid
    ensures Represents(table[At(|table|, crc, i) := Slot(crc, true, locs)], m[crc := locs])
  {
    hide At, Stored, Probed, Occupied;
    var j := At(|table|, crc, i);
    var after, bigger := table[j := Slot(crc, true, locs)], m[crc := locs];
    StoredNew(table, crc, i, locs);
    forall c | c in bigger
      ensures exists k :: Stored(after, c, k, bigger[c])
    {
      if c != crc {
        var k :| Stored(table, c, k, m[c]);
        StoredStill(table, c, k, m[c], j, Slot(crc, true, locs));
      }
    }
    OneMore(table, m, j, crc, locs);
  }

  lemma StoredNew(table: seq<Slot>, crc: U32, i: nat, locs: seq<Location>)
    requires Probed(table, crc, i) && !table[At(|table|, crc, i)].valid
    ensures Stored(table[At(|table|, crc, i) := Slot(crc, true, locs)], crc, i, locs)
  {
    hide At;
  }

  /** Taking a free slot does not hide what is stored already. */
  lemma StoredStill(table: seq<Slot>, c: U32, k: nat, locs: seq<Location>, j: nat, slot: Slot)
    requires Stored(table, c, k, locs) && j < |table| && !table[j].valid
    ensures Stored(table[j := slot], c, k, locs)
  {
    hide At;
  }

  lemma OneMore(table: seq<Slot>, m: map<U32, seq<Location>>, j: nat, crc: U32, locs: seq<Location>)
    requires j < |table| && !table[j].valid && crc !in m && |Occupied(table)| == |m|
    ensures |Occupied(table[j := Slot(crc, true, locs)])| == |m[crc := locs]|
  {
    var after := table[j := Slot(crc, true, locs)];
    assert Occupied(after) == Occupied(table) + {j};
    MoreKeys(m, crc, locs);
  }

  lemma MoreKeys(m: map<U32, seq<Location>>, crc: U32, locs: seq<Location>)
    requires crc !in m
    ensures |m[crc := locs]| == |m| + 1
  {
    assert m[crc := locs].Keys == m.Keys + {crc};
  }

  lemma {:induction false} Range(n: nat, s: set<nat>)
    requires forall j: nat :: j < n ==> j in s
    ensures |s| >= n
  {
    if n == 0 {
    } else {
      Range(n - 1, s - {n - 1});
    }
  }

  /** While fewer values are stored than there are slots, some slot is free. */
  lemma FreeSlot(table: seq<Slot>, m: map<U32, seq<Location>>) returns (f: nat)
    requires Represents(table, m) && |m| < |table|
    ensures f < |table| && !table[f].valid
  {
    if forall j :: 0 <= j < |table| ==> table[j].valid {
      Range(|table|, Occupied(table));
      assert false;
    }
    f :| 0 <= f < |table| && !table[f].valid;
  }

  /** Every slot is reached within one round. */
  lemma ReachedWithin(size: nat, crc: nat, f: nat) returns (i: nat)
    requires f < size
    ensures i < size && At(size, crc, i) == f
  {
    DivModSum(crc, size);
    var r, q := crc % size, crc / size;
    if r <= f {
      i := f - r;
      DivMod(f, q, size);
    } else {
      i := f + size - r;
      assert crc + i == f + (q + 1) * size;
      DivMod(f, q + 1, size);
    }
  }

  /** Probing past the end wraps around. */
  lemma NextSlot(size: nat, crc: nat, i: nat, k: nat)
    requires size == Pow2(k)
    ensures And(At(size, crc, i) + 1, size - 1) == At(size, crc, i + 1)
    ensures And(crc, size - 1) == At(size, crc, 0)
  {
    hide And;
    AndMask(crc, k);
    AndMask(At(size, crc, i) + 1, k);
    DivModSum(crc + i, size);
    var r, q := (crc + i) % size, (crc + i) / size;
    if r + 1 < size {
      DivMod(r + 1, q, size);
      DivMod(r + 1, 0, size);
    } else {
      assert crc + (i + 1) == 0 + (q + 1) * size;
      DivMod(0, q + 1, size);
      DivMod(0, 1, size);
    }
  }

  /** A free slot ends the search. */
  lemma NotStored(table: seq<Slot>, crc: U32, i: nat, k: nat, locs: seq<Location>)
    requires Probed(table, crc, i) && !table[At(|table|, crc, i)].valid
    ensures !Stored(table, crc, k, locs)
  {
    hide At;
    var first := if k < i then k else i;
    var slot := table[At(|table|, crc, first)];
    if first < i {
      assert slot.crc != crc;
    }
  }

  lemma NotInMap(table: seq<Slot>, m: map<U32, seq<Location>>, crc: U32, i: nat)
    requires Represents(table, m) && Probed(table, crc, i) && !table[At(|table|, crc, i)].valid
    ensures crc !in m
  {
    hide At, Stored, Probed;
    forall k: nat, locs
      ensures !Stored(table, crc, k, locs)
    {
      NotStored(table, crc, i, k, locs);
    }
  }

  // Building the table.

  /** The number of locations under the given CRC values. */
  ghost function Total(m: map<U32, seq<Expected>>, keys: set<U32>): nat
    requires keys <= m.Keys
  {
    if keys == {} then 0 else
    var c :| c in keys;
    |m[c]| + Total(m, keys - {c})
  }

  /** The values may be counted in any order. */
  lemma {:induction false} TotalWithout(m: map<U32, seq<Expected>>, keys: set<U32>, c: U32)
    requires keys <= m.Keys && c in keys
    ensures Total(m, keys) == |m[c]| + Total(m, keys - {c})
    decreases keys
  {
    var d :| d in keys && Total(m, keys) == |m[d]| + Total(m, keys - {d});
    if d == c {
    } else {
      TotalWithout(m, keys - {d}, c);
      TotalWithout(m, keys - {c}, d);
      assert keys - {d} - {c} == keys - {c} - {d};
    }
  }

  /** The blocks of m, each with a flag of its own among the first n. */
  ghost predicate Flagged(m: map<U32, seq<Expected>>, locs: map<U32, seq<Location>>, n: nat) {
    && locs.Keys <= m.Keys
    && (forall c, i :: c in locs && 0 <= i < |locs[c]| ==> locs[c][i].reported < n)
    && (forall c :: c in locs ==> |locs[c]| == |m[c]| && forall i :: 0 <= i < |m[c]| ==>
          locs[c][i].block == m[c][i].block && locs[c][i].md5Hash == m[c][i].md5Hash)
    && (forall c, i, d, j :: c in locs && d in locs && 0 <= i < |locs[c]| && 0 <= j < |locs[d]| ==>
          locs[c][i].reported == locs[d][j].reported ==> c == d && i == j)
  }

  /** The size of the table: a power of two, and at least four times the number of entries. */
  method TableSize(numEntries: nat) returns (size: nat, ghost k: nat)
    requires numEntries <= 0x4000_0000
    ensures size == Pow2(k) && size >= 16 && 4 * numEntries <= size <= 0x1_0000_0000
    ensures size == 16 || size < 8 * numEntries
  {
    Pow2Values();
    size, k := 16, 4;
    while size < numEntries * 4
      invariant size == Pow2(k) && size >= 16
      invariant size == 16 || size < 8 * numEntries
      decreases numEntries * 4 - size
    {
      size, k := size * 2, k + 1;
    }
    AtMost32(k);
  }

  lemma AtMost32(k: nat)
    requires Pow2(k) < 0x2_0000_0000
    ensures Pow2(k) <= 0x1_0000_0000
  {
    Pow2Values();
    assert Pow2(33) == 2 * Pow2(32);
    if k <= 32 {
      Pow2Grows(k, 32);
    } else {
      Pow2Grows(33, k);
    }
  }

  /** Puts locs into the first free slot probed for crc. */
  method Insert(table: array<Slot>, mask: U32, crc: U32, locs: seq<Location>, ghost m: map<U32, seq<Location>>,
                ghost k: nat)
    requires table.Length == mask + 1 == Pow2(k) && Represents(table[..], m) && crc !in m && |m| < table.Length
    modifies table
    ensures Represents(table[..], m[crc := locs])
  {
    hide At, And, Pow2, Occupied;
    ghost var f := FreeSlot(table[..], m);
    ghost var last := ReachedWithin(table.Length, crc, f);
    NextSlot(table.Length, crc, 0, k);
    var idx := And(crc, mask);
    ghost var i := 0;
    while true
      invariant i <= last && idx == At(table.Length, crc, i) && Probed(table[..], crc, i)
      invariant table[..] == old(table[..])
      decreases last - i
    {
      if !table[idx].valid {
        table[idx] := Slot(crc, true, locs);
        Insertion(old(table[..]), m, crc, i, locs);
        assert table[..] == old(table[..])[idx := Slot(crc, true, locs)];
        break;
      }
      assert table[..][idx].crc in m;
      NextSlot(table.Length, crc, i, k);
      idx := And(idx + 1, mask);
      i := i + 1;
    }
  }

  /** The locations with flags of their own, taken from position next on. */
  function WithFlags(expected: seq<Expected>, next: nat): (locs: seq<Location>)
    ensures |locs| == |expected|
  {
    seq(|expected|, i requires 0 <= i < |expected| =>
      Location(expected[i].block, expected[i].md5Hash, next + i))
  }

  lemma FlaggedExtends(m: map<U32, seq<Expected>>, locs: map<U32, seq<Location>>, next: nat, c: U32)
    requires Flagged(m, locs, next) && c in m && c !in locs
    ensures Flagged(m, locs[c := WithFlags(m[c], next)], next + |m[c]|)
  {
  }

  class CrcLookupTable {
    const mask: U32
    const table: array<Slot>
    const flags: array<bool>
    ghost const contents: map<U32, seq<Location>>
    ghost const bits: nat

    ghost predicate Valid()
      reads table
    {
      table.Length == mask + 1 == Pow2(bits) && Represents(table[..], contents) && |contents| < table.Length
    }

    /** newCRCLookupTable */
    constructor (checksumMap: map<U32, seq<Expected>>)
      requires |checksumMap| <= 0x4000_0000
      ensures Valid() && fresh(table) && fresh(flags)
      ensures contents.Keys == checksumMap.Keys && Flagged(checksumMap, contents, flags.Length)
      ensures flags.Length == Total(checksumMap, checksumMap.Keys)
      ensures forall f :: 0 <= f < flags.Length ==> !flags[f]
      ensures 4 * |contents| <= table.Length && table.Length >= 16
    {
      hide Total, Pow2, Represents, Flagged;
      var numLocs := CountLocations(checksumMap);
      var size, k := TableSize(|checksumMap|);
      var slots := new Slot[size](_ => EMPTY);
      var fs := new bool[numLocs](_ => false);
      ghost var locs := FillTable(checksumMap, slots, size - 1, numLocs, k);
      mask, table, flags, contents, bits := size - 1, slots, fs, locs, k;
      assert |checksumMap| == |checksumMap.Keys| && |locs| == |locs.Keys|;
    }

    /** Lookup: what the map holds for crc. */
    method Lookup(crc: U32) returns (r: Option<seq<Location>>)
      requires Valid()
      ensures r == if crc in contents then Some(contents[crc]) else None
    {
      hide At, And, Pow2, Occupied;
      ghost var f := FreeSlot(table[..], contents);
      ghost var last := ReachedWithin(table.Length, crc, f);
      NextSlot(table.Length, crc, 0, bits);
      var idx := And(crc, mask);
      ghost var i := 0;
      while true
        invariant i <= last && idx == At(table.Length, crc, i) && Probed(table[..], crc, i)
        decreases last - i
      {
        var entry := table[idx];
        if !entry.valid {
          NotInMap(table[..], contents, crc, i);
          return None;
        }
        assert entry == table[..][idx];
        if entry.crc == crc {
          return Some(entry.locs);
        }
        NextSlot(table.Length, crc, i, bits);
        idx := And(idx + 1, mask);
        i := i + 1;
      }
    }
  
    /** Everything the table holds, looked up value by value. */
    method Listing(values: set<U32>) returns (m: map<U32, seq<Location>>)
      requires Valid() && values == contents.Keys
      ensures m == contents
    {
      m := map[];
      var rest := values;
      while rest != {}
        invariant rest <= values && m.Keys == values - rest
        invariant forall c :: c in m ==> m[c] == contents[c]
        decreases rest
      {
        var crc :| crc in rest;
        var found := Lookup(crc);
        m := m[crc := found.value];
        rest := rest - {crc};
      }
    }
  }

  method CountLocations(m: map<U32, seq<Expected>>) returns (numLocs: nat)
    ensures numLocs == Total(m, m.Keys)
  {
    hide Total;
    numLocs := 0;
    var rest := m.Keys;
    TotalOfNone(m);
    while rest != {}
      invariant rest <= m.Keys && numLocs + Total(m, rest) == Total(m, m.Keys)
      decreases rest
    {
      var c :| c in rest;
      TotalWithout(m, rest, c);
      numLocs := numLocs + |m[c]|;
      rest := rest - {c};
    }
  }

  lemma TotalOfNone(m: map<U32, seq<Expected>>)
    ensures Total(m, {}) == 0
  {
  }

  /** What has been put into the table when all of m but rest is done and next flags have been handed out. */
  ghost predicate Filling(m: map<U32, seq<Expected>>, table: seq<Slot>, rest: set<U32>, next: nat, numFlags: nat,
                          locs: map<U32, seq<Location>>)
  {
    && rest <= m.Keys && Processed(m, locs, rest) && next + Total(m, rest) == numFlags
    && Flagged(m, locs, next) && Represents(table, locs)
  }

  /** One step of the loop over the map. */
  method FillOne(m: map<U32, seq<Expected>>, table: array<Slot>, mask: U32, rest: set<U32>, c: U32, next: nat,
                 ghost numFlags: nat, ghost before: map<U32, seq<Location>>, ghost k: nat)
    returns (ghost locs: map<U32, seq<Location>>)
    requires table.Length == mask + 1 == Pow2(k) && 4 * |m| <= table.Length && c in rest
    requires Filling(m, table[..], rest, next, numFlags, before)
    modifies table
    ensures c in m && next + |m[c]| <= numFlags
    ensures Filling(m, table[..], rest - {c}, next + |m[c]|, numFlags, locs)
  {
    hide Total, Pow2, Represents, Flagged, WithFlags, Processed;
    OneProcessed(m, before, rest, c, WithFlags(m[c], next));
    TotalWithout(m, rest, c);
    FlaggedExtends(m, before, next, c);
    Insert(table, mask, c, WithFlags(m[c], next), before, k);
    locs := before[c := WithFlags(m[c], next)];
  }

  /** The loop over the map, whose order is left open. The flags never run out. */
  method FillTable(m: map<U32, seq<Expected>>, table: array<Slot>, mask: U32, numFlags: nat, ghost k: nat)
    returns (ghost locs: map<U32, seq<Location>>)
    requires table.Length == mask + 1 == Pow2(k) && forall j :: 0 <= j < table.Length ==> table[j] == EMPTY
    requires numFlags == Total(m, m.Keys) && 4 * |m| <= table.Length
    modifies table
    ensures Represents(table[..], locs) && locs.Keys == m.Keys && Flagged(m, locs, numFlags)
  {
    hide *;
    var rest, next: nat := m.Keys, 0;
    locs := map[];
    assert table[..] == seq(table.Length, _ => EMPTY);
    StartFilling(m, table[..], numFlags);
    while rest != {}
      invariant Filling(m, table[..], rest, next, numFlags, locs)
      decreases rest
    {
      var c :| c in rest;
      locs := FillOne(m, table, mask, rest, c, next, numFlags, locs, k);
      next := next + |m[c]|;
      rest := rest - {c};
    }
    EndFilling(m, table[..], next, numFlags, locs);
  }

  lemma StartFilling(m: map<U32, seq<Expected>>, table: seq<Slot>, numFlags: nat)
    requires numFlags == Total(m, m.Keys) && |table| > 0 && forall j :: 0 <= j < |table| ==> table[j] == EMPTY
    ensures Filling(m, table, m.Keys, 0, numFlags, map[])
  {
    hide Total;
    EmptyTable(table);
  }

  lemma EndFilling(m: map<U32, seq<Expected>>, table: seq<Slot>, next: nat, numFlags: nat,
                   locs: map<U32, seq<Location>>)
    requires Filling(m, table, {}, next, numFlags, locs)
    ensures Represents(table, locs) && locs.Keys == m.Keys && Flagged(m, locs, numFlags)
  {
    hide Represents, Flagged;
  }

  /** All but the rest of the map has been put into the table. */
  ghost predicate Processed(m: map<U32, seq<Expected>>, locs: map<U32, seq<Location>>, rest: set<U32>) {
    forall c: U32 :: c in locs <==> c in m && c !in rest
  }

  lemma OneProcessed(m: map<U32, seq<Expected>>, locs: map<U32, seq<Location>>, rest: set<U32>, c: U32,
                     v: seq<Location>)
    requires Processed(m, locs, rest) && c in rest && rest <= m.Keys
    ensures c in m && c !in locs && Processed(m, locs[c := v], rest - {c})
    ensures |locs| < |m| && |rest - {c}| < |rest|
  {
    assert locs.Keys <= m.Keys - {c};
    SubsetSize(locs.Keys, m.Keys - {c});
    assert |locs.Keys| == |locs| && |m.Keys| == |m|;
  }

  lemma {:induction false} SubsetSize(a: set<U32>, b: set<U32>)
    requires a <= b
    ensures |a| <= |b|
  {
    if a == {} {
    } else {
      var x :| x in a;
      SubsetSize(a - {x}, b - {x});
    }
  }
}
