/**
  From the IFSC packets of a set to the lookup table of the scan: par2/scan.go. Every block of the set is listed
  exactly once, under its CRC.
 */
module Checksums {
  import opened Bits
  import opened Crc32
  import opened Packets
  import opened CrcTable
  import opened Reports

  /** The block e is listed under the right CRC, with the right MD5. */
  ghost predicate IsListing(checksums: map<FileID, seq<ChecksumPair>>, crc: U32, e: Expected) {
    && e.block.fileID in checksums && e.block.index < |checksums[e.block.fileID]|
    && checksums[e.block.fileID][e.block.index] == ChecksumPair(e.md5Hash, crc)
  }

  ghost predicate ListedUnder(m: map<U32, seq<Expected>>, b: Block, crc: U32) {
    crc in m && exists i :: 0 <= i < |m[crc]| && m[crc][i].block == b
  }

  ghost predicate OnlyListings(m: map<U32, seq<Expected>>, checksums: map<FileID, seq<ChecksumPair>>,
                               blocks: set<Block>)
  {
    forall crc, i :: crc in m && 0 <= i < |m[crc]| ==>
      m[crc][i].block in blocks && IsListing(checksums, crc, m[crc][i])
  }

  ghost predicate AllListed(m: map<U32, seq<Expected>>, checksums: map<FileID, seq<ChecksumPair>>, blocks: set<Block>) {
    forall b :: b in blocks ==>
      && b.fileID in checksums && b.index < |checksums[b.fileID]|
      && ListedUnder(m, b, checksums[b.fileID][b.index].crc)
  }

  ghost predicate NoRepeats(m: map<U32, seq<Expected>>) {
    forall crc, i, j :: crc in m && 0 <= i < j < |m[crc]| ==> m[crc][i].block != m[crc][j].block
  }

  /** m lists the given blocks, each once, and nothing else. */
  ghost predicate Lists(m: map<U32, seq<Expected>>, checksums: map<FileID, seq<ChecksumPair>>, blocks: set<Block>) {
    OnlyListings(m, checksums, blocks) && AllListed(m, checksums, blocks) && NoRepeats(m) && |m| <= |blocks|
  }

  function Append(m: map<U32, seq<Expected>>, crc: U32, e: Expected): map<U32, seq<Expected>> {
    m[crc := (if crc in m then m[crc] else []) + [e]]
  }

  lemma AppendLists(m: map<U32, seq<Expected>>, checksums: map<FileID, seq<ChecksumPair>>, blocks: set<Block>,
                    f: FileID, k: nat)
    requires Lists(m, checksums, blocks) && f in checksums && k < |checksums[f]| && Block(f, k) !in blocks
    ensures var pair := checksums[f][k];
      Lists(Append(m, pair.crc, Expected(Block(f, k), pair.md5)), checksums, blocks + {Block(f, k)})
  {
    var pair := checksums[f][k];
    var e := Expected(Block(f, k), pair.md5);
    AppendOnly(m, checksums, blocks, pair.crc, e);
    AppendAll(m, checksums, blocks, pair.crc, e);
    AppendNoRepeats(m, checksums, blocks, pair.crc, e);
    KeysGrow(m, pair.crc, (if pair.crc in m then m[pair.crc] else []) + [e]);
  }

  lemma AppendOnly(m: map<U32, seq<Expected>>, checksums: map<FileID, seq<ChecksumPair>>, blocks: set<Block>, crc: U32,
                   e: Expected)
    requires OnlyListings(m, checksums, blocks) && IsListing(checksums, crc, e)
    ensures OnlyListings(Append(m, crc, e), checksums, blocks + {e.block})
  {
    hide IsListing;
  }

  lemma AppendAll(m: map<U32, seq<Expected>>, checksums: map<FileID, seq<ChecksumPair>>, blocks: set<Block>, crc: U32,
                  e: Expected)
    requires AllListed(m, checksums, blocks) && IsListing(checksums, crc, e)
    ensures AllListed(Append(m, crc, e), checksums, blocks + {e.block})
  {
    var after := Append(m, crc, e);
    assert after[crc][|after[crc]| - 1] == e;
    forall b | b in blocks
      ensures ListedUnder(after, b, checksums[b.fileID][b.index].crc)
    {
      var c := checksums[b.fileID][b.index].crc;
      var i :| 0 <= i < |m[c]| && m[c][i].block == b;
      assert after[c][i].block == b;
    }
  }

  lemma AppendNoRepeats(m: map<U32, seq<Expected>>, checksums: map<FileID, seq<ChecksumPair>>, blocks: set<Block>,
                        crc: U32, e: Expected)
    requires OnlyListings(m, checksums, blocks) && NoRepeats(m) && e.block !in blocks
    ensures NoRepeats(Append(m, crc, e))
  {
    hide IsListing;
  }

  lemma KeysGrow(m: map<U32, seq<Expected>>, crc: U32, v: seq<Expected>)
    ensures |m[crc := v]| <= |m| + 1
  {
    assert m[crc := v].Keys == m.Keys + {crc};
    assert |m[crc := v].Keys| == |m[crc := v]| && |m.Keys| == |m|;
  }

  /** The blocks of the first n pairs of the file f. */
  function BlocksUpto(f: FileID, n: nat): (s: set<Block>)
    ensures forall b :: b in s <==> b.fileID == f && b.index < n
    ensures |s| == n
  {
    if n == 0 then {} else
    assert Block(f, n - 1) !in BlocksUpto(f, n - 1);
    BlocksUpto(f, n - 1) + {Block(f, n - 1)}
  }

  /** The pairs of one file. */
  method ListFile(m0: map<U32, seq<Expected>>, checksums: map<FileID, seq<ChecksumPair>>, f: FileID,
                  ghost blocks: set<Block>)
    returns (m: map<U32, seq<Expected>>)
    requires Lists(m0, checksums, blocks) && f in checksums && forall b :: b in blocks ==> b.fileID != f
    ensures Lists(m, checksums, blocks + BlocksUpto(f, |checksums[f]|))
  {
    hide *;
    var pairs := checksums[f];
    m := m0;
    ghost var listed := blocks;
    NoBlockMore(blocks, f);
    for k := 0 to |pairs|
      invariant listed == blocks + BlocksUpto(f, k)
      invariant Lists(m, checksums, listed)
    {
      OneBlockMore(blocks, f, k);
      AppendLists(m, checksums, listed, f, k);
      m := Append(m, pairs[k].crc, Expected(Block(f, k), pairs[k].md5));
      listed := listed + {Block(f, k)};
    }
  }

  lemma NoBlockMore(blocks: set<Block>, f: FileID)
    ensures blocks == blocks + BlocksUpto(f, 0)
  {
  }

  lemma OneBlockMore(blocks: set<Block>, f: FileID, k: nat)
    requires forall b :: b in blocks ==> b.fileID != f
    ensures Block(f, k) !in blocks + BlocksUpto(f, k)
    ensures blocks + BlocksUpto(f, k) + {Block(f, k)} == blocks + BlocksUpto(f, k + 1)
  {
  }

  /** The blocks of the files in fs. */
  ghost predicate BlocksOfFiles(blocks: set<Block>, checksums: map<FileID, seq<ChecksumPair>>, fs: set<FileID>) {
    forall b :: b in blocks <==> b.fileID in fs && b.fileID in checksums && b.index < |checksums[b.fileID]|
  }

  /** The blocks of the known files for which there are checksums. */
  ghost function KnownBlocks(checksums: map<FileID, seq<ChecksumPair>>, known: set<FileID>): (s: set<Block>)
    ensures BlocksOfFiles(s, checksums, known)
  {
    set f, k: nat | f in known && f in checksums && k < |checksums[f]| :: Block(f, k)
  }

  /** The map buildLookupTable makes; the packets of unknown files are ignored, and the order is left open. */
  method BuildChecksumMap(checksums: map<FileID, seq<ChecksumPair>>, known: set<FileID>)
    returns (m: map<U32, seq<Expected>>)
    ensures Lists(m, checksums, KnownBlocks(checksums, known))
  {
    hide Lists, BlocksUpto;
    m := map[];
    ghost var blocks: set<Block> := {};
    NothingListed(checksums);
    var rest := checksums.Keys;
    while rest != {}
      invariant rest <= checksums.Keys
      invariant Lists(m, checksums, blocks) && BlocksOfFiles(blocks, checksums, known - rest)
      decreases rest
    {
      var f :| f in rest;
      rest := rest - {f};
      if f !in known {
        continue;
      }
      m := ListFile(m, checksums, f, blocks);
      blocks := blocks + BlocksUpto(f, |checksums[f]|);
    }
    assert blocks == KnownBlocks(checksums, known);
  }

  lemma NothingListed(checksums: map<FileID, seq<ChecksumPair>>)
    ensures Lists(map[], checksums, {})
  {
  }

  /** The table made from m gives every location a flag of its own. */
  lemma TableOwnsFlags(g: Setting, m: map<U32, seq<Expected>>, n: nat)
    requires Flagged(m, g.table, n)
    ensures g.OwnFlags() && forall loc :: g.Contains(loc) ==> loc.reported < n
  {
    forall a, b | g.Contains(a) && g.Contains(b) && a.reported == b.reported
      ensures a == b
    {
      var c, i :| c in g.table && 0 <= i < |g.table[c]| && g.table[c][i] == a;
      var d, j :| d in g.table && 0 <= j < |g.table[d]| && g.table[d][j] == b;
      assert c == d && i == j;
    }
  }

  /** A window with the checksums of a listed block is found to equal that block. */
  lemma ListedIsFound(g: Setting, m: map<U32, seq<Expected>>, checksums: map<FileID, seq<ChecksumPair>>,
                      blocks: set<Block>, n: nat, b: Block, w: seq<Byte>) returns (loc: Location)
    requires Lists(m, checksums, blocks) && Flagged(m, g.table, n) && m.Keys == g.table.Keys && b in blocks
    requires b.fileID in checksums && b.index < |checksums[b.fileID]|
    requires checksums[b.fileID][b.index] == ChecksumPair(g.md5(w), Checksum(w))
    ensures g.Equal(loc, w) && loc.block == b
  {
    hide Checksum;
    var crc := Checksum(w);
    assert ListedUnder(m, b, crc);
    var i :| 0 <= i < |m[crc]| && m[crc][i].block == b;
    assert IsListing(checksums, crc, m[crc][i]);
    loc := g.table[crc][i];
  }

  /** A window found to equal a block has the checksums listed for it. */
  lemma FoundIsListed(g: Setting, m: map<U32, seq<Expected>>, checksums: map<FileID, seq<ChecksumPair>>,
                      blocks: set<Block>, n: nat, loc: Location, w: seq<Byte>)
    requires Lists(m, checksums, blocks) && Flagged(m, g.table, n) && m.Keys == g.table.Keys && g.Equal(loc, w)
    ensures loc.block in blocks && loc.block.fileID in checksums && loc.block.index < |checksums[loc.block.fileID]|
    ensures checksums[loc.block.fileID][loc.block.index] == ChecksumPair(g.md5(w), Checksum(w))
  {
    hide Checksum;
    var crc := Checksum(w);
    var i :| 0 <= i < |g.table[crc]| && g.table[crc][i] == loc;
    assert IsListing(checksums, crc, m[crc][i]);
  }

  /** Each block has one location in the table. */
  lemma OneLocation(g: Setting, m: map<U32, seq<Expected>>, checksums: map<FileID, seq<ChecksumPair>>,
                    blocks: set<Block>, n: nat, a: Location, b: Location)
    requires Lists(m, checksums, blocks) && Flagged(m, g.table, n) && m.Keys == g.table.Keys
    requires g.Contains(a) && g.Contains(b) && a.block == b.block
    ensures a == b
  {
    var c, i :| c in g.table && 0 <= i < |g.table[c]| && g.table[c][i] == a;
    var d, j :| d in g.table && 0 <= j < |g.table[d]| && g.table[d][j] == b;
    assert IsListing(checksums, c, m[c][i]) && IsListing(checksums, d, m[d][j]);
  }
}
