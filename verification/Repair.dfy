/**
  Repair: par2/repair.go. Located blocks are read and lost ones reconstructed, chunk by chunk; every file that has to
  be rebuilt is written to a temporary file, and the temporary files replace the targets once all have the right hash.
 */
module Repair {
  import opened Wrappers
  import opened Contexts
  import opened Bits
  import opened LinAlg
  import opened Kernels
  import opened Vandermonde
  import opened GeneratorCount
  import opened Elimination
  import opened GF16
  import opened Field
  import opened Apply
  import opened Reconstruction
  import opened Coders
  import opened Packets
  import opened Reports
  import Slices
  import opened Scan
  import opened Integrity

  // Chunks.

  /** So many buffers of size c fit into the memory. */
  predicate Fits(c: nat, buffers: nat, memoryLimit: nat) {
    c * buffers <= memoryLimit
  }

  lemma FitsQuotient(c: nat, buffers: nat, memoryLimit: nat)
    requires buffers > 0 && Fits(c, buffers, memoryLimit)
    ensures c <= memoryLimit / buffers
  {
    DivModSum(memoryLimit, buffers);
    QuotientBound(c, memoryLimit / buffers, memoryLimit % buffers, buffers);
  }

  lemma QuotientBound(c: nat, q: nat, r: nat, p: nat)
    requires r < p && c * p <= r + q * p
    ensures c <= q
  {
    Above(q, p);
    if c > q {
      Below(q + 1, c, p);
    }
  }

  lemma Above(q: nat, p: nat)
    ensures (q + 1) * p == q * p + p
  {
  }

  lemma AlignedBelow(c: nat, size: nat)
    requires c % 16 == 0 && c <= size
    ensures c <= size / 16 * 16
  {
    DivModSum(c, 16);
    DivModSum(size, 16);
  }

  /** computeChunkSize: a multiple of 16 that keeps all buffers within the limit, as far as 16 bytes each do. */
  method ComputeChunkSize(memoryLimit: nat, blockSize: nat, totalDataShards: nat, unusable: nat)
    returns (chunkSize: Option<nat>)
    ensures chunkSize.None? <==> totalDataShards + unusable == 0
    ensures chunkSize.Some? ==> chunkSize.value >= 16 && chunkSize.value % 16 == 0
    ensures chunkSize.Some? ==> var buffers := totalDataShards + unusable;
      chunkSize.value * buffers <= memoryLimit || chunkSize.value == 16
    ensures chunkSize.Some? ==> chunkSize.value <= blockSize || chunkSize.value == 16
    ensures chunkSize.Some? ==> forall c: nat ::
      c % 16 == 0 && c <= blockSize && Fits(c, totalDataShards + unusable, memoryLimit) ==> c <= chunkSize.value
  {
    var denom := totalDataShards + unusable;
    if denom <= 0 {
      return None;
    }
    var size := if memoryLimit / denom < blockSize then memoryLimit / denom else blockSize;
    DivModSum(memoryLimit, denom);
    DivModSum(size, 16);
    var aligned := size / 16 * 16;
    Below(aligned, memoryLimit / denom, denom);
    forall c: nat | c % 16 == 0 && c <= blockSize && Fits(c, denom, memoryLimit)
      ensures c <= aligned
    {
      FitsQuotient(c, denom, memoryLimit);
      AlignedBelow(c, size);
    }
    chunkSize := Some(if aligned < 16 then 16 else aligned);
  }

  lemma Below(a: nat, b: nat, n: nat)
    requires a <= b
    ensures a * n <= b * n
  {
  }

  function NumChunks(blockSize: nat, chunkSize: nat): nat
    requires chunkSize > 0
  {
    (blockSize + chunkSize - 1) / chunkSize
  }

  /** The length of chunk number i: the last one takes what is left. */
  function ChunkLength(blockSize: nat, chunkSize: nat, i: nat): int
    requires chunkSize > 0
  {
    if i == NumChunks(blockSize, chunkSize) - 1 then blockSize - i * chunkSize else chunkSize
  }

  /** Where chunk number i ends. */
  function ChunkUpto(blockSize: nat, chunkSize: nat, i: nat): nat
    requires chunkSize > 0
  {
    if i < NumChunks(blockSize, chunkSize) - 1 then (i + 1) * chunkSize else blockSize
  }

  /** The last chunk is neither empty nor longer than the others. */
  lemma LastChunk(blockSize: nat, chunkSize: nat)
    requires chunkSize > 0 && blockSize > 0
    ensures var n := NumChunks(blockSize, chunkSize); n >= 1 && (n - 1) * chunkSize < blockSize <= (n - 1) * chunkSize + chunkSize
  {
    var n := NumChunks(blockSize, chunkSize);
    DivModSum(blockSize + chunkSize - 1, chunkSize);
    assert (n - 1) * chunkSize == n * chunkSize - chunkSize;
  }

  /**
    The chunks tile the block: each is nonempty, begins where the one before ends, and the last ends with the
    block.
   */
  lemma ChunksTile(blockSize: nat, chunkSize: nat, i: nat)
    requires chunkSize > 0 && blockSize > 0 && i < NumChunks(blockSize, chunkSize)
    ensures 0 < ChunkLength(blockSize, chunkSize, i) <= chunkSize
    ensures i * chunkSize + ChunkLength(blockSize, chunkSize, i) == ChunkUpto(blockSize, chunkSize, i) <= blockSize
  {
    hide NumChunks;
    var n := NumChunks(blockSize, chunkSize);
    LastChunk(blockSize, chunkSize);
    if i < n - 1 {
      InnerChunk(i, n, chunkSize);
      ChunkIs(blockSize, chunkSize, i, n, i * chunkSize, (i + 1) * chunkSize);
    } else {
      ChunkIs(blockSize, chunkSize, i, n, (n - 1) * chunkSize, (i + 1) * chunkSize);
    }
  }

  lemma ChunkIs(blockSize: nat, chunkSize: nat, i: nat, n: nat, start: nat, end: nat)
    requires chunkSize > 0 && n == NumChunks(blockSize, chunkSize) && start == i * chunkSize && end == (i + 1) * chunkSize
    ensures ChunkLength(blockSize, chunkSize, i) == if i == n - 1 then blockSize - start else chunkSize
    ensures ChunkUpto(blockSize, chunkSize, i) == if i < n - 1 then end else blockSize
  {
    hide NumChunks;
  }

  /** With an even block size all chunks begin at an even position and have an even length. */
  lemma ChunksEven(blockSize: nat, chunkSize: nat, i: nat)
    requires chunkSize > 0 && chunkSize % 16 == 0 && blockSize % 2 == 0 && i < NumChunks(blockSize, chunkSize)
    ensures ChunkLength(blockSize, chunkSize, i) % 2 == 0 && i * chunkSize % 2 == 0
  {
    hide *;
    var n, start := NumChunks(blockSize, chunkSize), i * chunkSize;
    EvenProduct(i, chunkSize);
    ChunkIs(blockSize, chunkSize, i, n, start, (i + 1) * chunkSize);
    EvenLength(blockSize, start, chunkSize, ChunkLength(blockSize, chunkSize, i));
  }

  lemma EvenLength(blockSize: nat, start: nat, chunkSize: nat, len: int)
    requires blockSize % 2 == 0 && start % 2 == 0 && chunkSize % 16 == 0
    requires len == blockSize - start || len == chunkSize
    ensures len % 2 == 0
  {
    if len == chunkSize {
      EvenProduct(1, chunkSize);
    } else {
      EvenDifference(blockSize, start, blockSize / 2, start / 2);
    }
  }

  lemma EvenDifference(a: int, b: int, halfA: int, halfB: int)
    requires a == 2 * halfA && b == 2 * halfB
    ensures (a - b) % 2 == 0
  {
    assert a - b == 2 * (halfA - halfB);
  }

  lemma InnerChunk(i: nat, n: nat, chunkSize: nat)
    requires i < n - 1
    ensures (i + 1) * chunkSize == i * chunkSize + chunkSize <= (n - 1) * chunkSize
  {
    NextMultiple(i, chunkSize);
    Below(i + 1, n - 1, chunkSize);
  }

  lemma NextMultiple(i: nat, n: nat)
    ensures (i + 1) * n == i * n + n
  {
  }

  lemma EvenProduct(i: nat, n: nat)
    requires n % 16 == 0
    ensures i * n >= 0 && i * n % 2 == 0
  {
    TimesHalf(i, n, n / 2);
  }

  lemma TimesHalf(i: nat, n: nat, half: nat)
    requires n == 2 * half
    ensures i * n >= 0 && i * n % 2 == 0
  {
    assert i * n == 2 * (i * half);
  }

  // Reading.

  /** What a read of len bytes at offset yields, with zeros past the end. */
  function PaddedRead(content: Bytes, offset: nat, len: nat): (r: Bytes)
    ensures |r| == len
  {
    seq(len, b requires b >= 0 => if offset + b < |content| then content[offset + b] else 0)
  }

  /** The bytes from lo to hi of every block. */
  function Chunk(blocks: seq<Bytes>, lo: nat, hi: nat): (c: seq<Bytes>)
    requires lo <= hi && forall i :: 0 <= i < |blocks| ==> hi <= |blocks[i]|
    ensures |c| == |blocks| && forall i :: 0 <= i < |c| ==> c[i] == blocks[i][lo..hi]
  {
    seq(|blocks|, i requires 0 <= i < |blocks| => blocks[i][lo..hi])
  }

  lemma PaddedChunk(content: Bytes, offset: nat, len: nat, lo: nat, hi: nat)
    requires lo <= hi <= len
    ensures PaddedRead(content, offset + lo, hi - lo) == PaddedRead(content, offset, len)[lo..hi]
  {
  }

  /** Recovery data is computed element by element, so a chunk of it belongs to the chunks of the data. */
  lemma ChunkApplied(row: Vector, orig: seq<Bytes>, recovery: Bytes, lo: nat, hi: nat)
    requires IsApplied(row, orig, recovery) && lo <= hi <= |recovery| && lo % 2 == 0
    ensures SameLength(orig, |recovery|) && IsApplied(row, Chunk(orig, lo, hi), recovery[lo..hi])
  {
    hide Dot;
    forall k | 0 <= 2 * k && 2 * k + 2 <= hi - lo
      ensures Slices.Element(recovery[lo..hi], 0, k) == Dot(row, ColumnOf(Chunk(orig, lo, hi), k), |row|)
    {
      var at := lo / 2 + k;
      assert Slices.Element(recovery[lo..hi], 0, k) == Slices.Element(recovery, 0, at);
      assert ColumnOf(Chunk(orig, lo, hi), k) == ColumnOf(orig, at);
    }
  }

  // The blocks of all files in one row.

  /** flattenedLocation: block shardIndex of target, and where it is read from; diskOffset is -1 if it is lost. */
  datatype FlatLoc = FlatLoc(target: string, shardIndex: nat, source: string, diskOffset: int)

  /** The position of block k of file j among the blocks of all files. */
  function FlatIndex(p: Par2Set, j: nat, k: nat): nat
    requires j < |p.files|
  {
    p.TotalBlocks(j) + k
  }

  function BlocksIn(p: Par2Set, j: nat): nat
    requires j < |p.files|
  {
    if p.blockSize == 0 then 0 else BlockCount(p.files[j].byteCount, p.blockSize)
  }

  function LocOf(p: Par2Set, places: map<Block, Place>, j: nat, k: nat): FlatLoc
    requires j < |p.files|
  {
    var b := Block(p.files[j].fileID, k);
    if b !in places then FlatLoc(p.files[j].filename, k, "", -1) else
    var id := places[b].source;
    FlatLoc(p.files[j].filename, k, if id in PathsOf(p) then PathsOf(p)[id] else "", places[b].offset)
  }

  /** The first n files and the first k blocks of the next one are in the row. */
  ghost predicate Flattened(p: Par2Set, places: map<Block, Place>, flat: seq<FlatLoc>, n: nat, k: nat) {
    && n <= |p.files| && |flat| == p.TotalBlocks(n) + k
    && (forall j, l: nat :: 0 <= j < n && l < BlocksIn(p, j) ==>
          FlatIndex(p, j, l) < |flat| && flat[FlatIndex(p, j, l)] == LocOf(p, places, j, l))
    && (forall l: nat :: n < |p.files| && l < k ==>
          FlatIndex(p, n, l) < |flat| && flat[FlatIndex(p, n, l)] == LocOf(p, places, n, l))
  }

  lemma IndexBelow(p: Par2Set, j: nat, k: nat, n: nat)
    requires j < n <= |p.files| && k < BlocksIn(p, j)
    ensures FlatIndex(p, j, k) < p.TotalBlocks(n)
  {
    TotalGrows(p, j + 1, n);
  }

  /** buildFlatLocs */
  method BuildFlatLocs(p: Par2Set, places: map<Block, Place>) returns (flat: seq<FlatLoc>)
    requires p.blockSize > 0
    ensures Flattened(p, places, flat, |p.files|, 0)
  {
    hide LocOf;
    flat := [];
    for j := 0 to |p.files|
      invariant Flattened(p, places, flat, j, 0)
    {
      for k := 0 to BlocksIn(p, j)
        invariant Flattened(p, places, flat, j, k)
      {
        flat := flat + [LocOf(p, places, j, k)];
      }
    }
  }

  /** Every position in the row belongs to one block. */
  lemma {:induction false} Locate(p: Par2Set, n: nat, i: nat) returns (j: nat, k: nat)
    requires n <= |p.files| && i < p.TotalBlocks(n)
    ensures j < n && k < BlocksIn(p, j) && i == FlatIndex(p, j, k)
  {
    if i < p.TotalBlocks(n - 1) {
      j, k := Locate(p, n - 1, i);
    } else {
      j, k := n - 1, i - p.TotalBlocks(n - 1);
    }
  }

  // Loading a chunk.

  /** What is loaded from disk for a located block, and nothing for a lost one. */
  ghost predicate DataLoaded(disk: Disk, flat: seq<FlatLoc>, n: nat, lo: nat, len: nat, d: seq<Option<Bytes>>) {
    n <= |flat| && n <= |d| && forall i :: 0 <= i < n ==>
      if flat[i].diskOffset < 0 then d[i].None? else
      flat[i].source in disk && d[i] == Some(PaddedRead(disk[flat[i].source], flat[i].diskOffset + lo, len))
  }

  ghost predicate ParityLoaded(parity: map<nat, Bytes>, lo: nat, len: nat, p: seq<Option<Bytes>>) {
    && (forall e :: e in parity ==> e < |p| && lo + len <= |parity[e]|)
    && (forall e :: 0 <= e < |p| ==> p[e] == if e in parity then Some(parity[e][lo..lo + len]) else None)
  }

  datatype RepairError =
    | RepairImpossible | BadConfiguration | BadParityLength | ReadFailed | WriteFailed | NoOutput | HashMismatch
    | CoderFailed(error: CoderError) | RepairCancelled

  /** ReadAt into a buffer whose contents do not matter, and the clearing of what lies past the end of the file. */
  method ReadShard(content: Bytes, offset: nat, len: nat) returns (buf: array<Byte>)
    ensures fresh(buf) && buf.Length == len && buf[..] == PaddedRead(content, offset, len)
  {
    buf := new Byte[len];
    var n: nat := if offset >= |content| then 0 else if |content| - offset < len then |content| - offset else len;
    for b := 0 to n
      invariant forall a :: 0 <= a < b ==> buf[a] == content[offset + a]
    {
      buf[b] := content[offset + b];
    }
    for b := n to len
      invariant forall a :: 0 <= a < n ==> buf[a] == content[offset + a]
      invariant forall a :: n <= a < b ==> buf[a] == 0
    {
      buf[b] := 0;
    }
  }

  ghost predicate ShardLoaded(disk: Disk, loc: FlatLoc, lo: nat, len: nat, shard: Shard)
    reads shard
  {
    if loc.diskOffset < 0 then shard == null else
    && shard != null && shard.Length == len && loc.source in disk
    && shard[..] == PaddedRead(disk[loc.source], loc.diskOffset + lo, len)
  }

  /** The files that located blocks are to be read from are there. */
  predicate AllReadable(disk: Disk, flat: seq<FlatLoc>) {
    forall i :: 0 <= i < |flat| && flat[i].diskOffset >= 0 ==> flat[i].source in disk
  }

  /** The reader of executeChunk. */
  method LoadData(ctx: Context, disk: Disk, flat: seq<FlatLoc>, lo: nat, len: nat)
    returns (data: array<Shard>, err: Option<RepairError>)
    modifies ctx`failed
    ensures old(ctx.failed) ==> ctx.failed
    ensures fresh(data) && data.Length == |flat|
    ensures forall i :: 0 <= i < |flat| && data[i] != null ==> fresh(data[i]) && data[i].Length == len
    ensures err == None || err == Some(ReadFailed)
    ensures err.Some? ==> ctx.failed || !AllReadable(disk, flat)
    ensures err.None? ==> DataLoaded(disk, flat, |flat|, lo, len, Shadows(data[..]))
  {
    hide PaddedRead;
    var shards: seq<Shard> := [];
    for i := 0 to |flat|
      invariant |shards| == i && forall a :: 0 <= a < i && shards[a] != null ==> fresh(shards[a])
      invariant forall a :: 0 <= a < i ==> ShardLoaded(disk, flat[a], lo, len, shards[a])
      invariant old(ctx.failed) ==> ctx.failed
    {
      if flat[i].diskOffset < 0 {
        shards := shards + [null];
        continue;
      }
      var fails := ctx.Fails();
      if fails || flat[i].source !in disk {
        data := new Shard[|flat|](_ => null);
        return data, Some(ReadFailed);
      }
      var buf := ReadShard(disk[flat[i].source], flat[i].diskOffset + lo, len);
      shards := shards + [buf];
    }
    data := new Shard[|flat|](i requires 0 <= i < |shards| => shards[i]);
    assert data[..] == shards;
    err := None;
    AllLoaded(disk, flat, lo, len, shards);
  }

  lemma AllLoaded(disk: Disk, flat: seq<FlatLoc>, lo: nat, len: nat, shards: seq<Shard>)
    requires |shards| == |flat| && forall a :: 0 <= a < |flat| ==> ShardLoaded(disk, flat[a], lo, len, shards[a])
    ensures DataLoaded(disk, flat, |flat|, lo, len, Shadows(shards))
  {
    hide PaddedRead;
  }

  /** The recovery blocks are copied to the slots of their exponents; the order is left open. */
  method LoadParity(parity: map<nat, Bytes>, total: nat, lo: nat, len: nat) returns (p: seq<Shard>)
    requires forall e :: e in parity ==> e < total && lo + len <= |parity[e]|
    ensures |p| == total && ParityLoaded(parity, lo, len, Shadows(p))
    ensures forall e :: 0 <= e < total && p[e] != null ==> fresh(p[e]) && p[e].Length == len
  {
    p := seq(total, _ => null);
    var rest := parity.Keys;
    while rest != {}
      invariant rest <= parity.Keys && |p| == total
      invariant forall e :: 0 <= e < total && p[e] != null ==> fresh(p[e]) && p[e].Length == len
      invariant forall e :: 0 <= e < total ==>
        (p[e] != null <==> e in parity && e !in rest) && (p[e] != null ==> p[e][..] == parity[e][lo..lo + len])
      decreases rest
    {
      var e :| e in rest;
      rest := rest - {e};
      var buf := new Byte[len](b requires 0 <= b < len => parity[e][lo + b]);
      assert buf[..] == parity[e][lo..lo + len];
      p := p[e := buf];
    }
  }

  // What a chunk of the set is.

  /**
    The set can be repaired to the blocks orig: located blocks read back as they should, and every recovery block is
    its row of the matrix times the blocks.
   */
  ghost predicate Consistent(disk: Disk, flat: seq<FlatLoc>, parity: map<nat, Bytes>, pm: Rows, blockSize: nat,
                             orig: seq<Bytes>)
  {
    && ReadsBack(disk, flat, blockSize, orig)
    && (forall e :: e in parity ==>
          e < |pm| && |parity[e]| == blockSize && IsApplied(pm[e], orig, parity[e]))
  }

  /** Every located block is read as the original one. */
  ghost predicate ReadsBack(disk: Disk, flat: seq<FlatLoc>, blockSize: nat, orig: seq<Bytes>) {
    && |orig| == |flat| && SameLength(orig, blockSize)
    && (forall i :: 0 <= i < |flat| && flat[i].diskOffset >= 0 ==>
          flat[i].source in disk && PaddedRead(disk[flat[i].source], flat[i].diskOffset, blockSize) == orig[i])
  }

  /** What has been loaded of a consistent set is what is left of the chunks of its blocks. */
  lemma LoadedIsCodeword(disk: Disk, flat: seq<FlatLoc>, parity: map<nat, Bytes>, pm: Rows, blockSize: nat,
                         orig: seq<Bytes>, lo: nat, len: nat, d: seq<Option<Bytes>>, v: seq<Option<Bytes>>)
    requires Consistent(disk, flat, parity, pm, blockSize, orig) && lo + len <= blockSize && lo % 2 == 0
    requires DataLoaded(disk, flat, |flat|, lo, len, d) && |d| == |flat|
    requires ParityLoaded(parity, lo, len, v) && |v| <= |pm|
    ensures Codeword(pm, Chunk(orig, lo, lo + len), d, v)
  {
    hide PaddedRead, IsApplied;
    var c := Chunk(orig, lo, lo + len);
    forall i | 0 <= i < |d| && d[i].Some?
      ensures d[i].value == c[i]
    {
      PaddedChunk(disk[flat[i].source], flat[i].diskOffset, blockSize, lo, lo + len);
    }
    forall e | 0 <= e < |v| && v[e].Some?
      ensures IsApplied(pm[e], c, v[e].value)
    {
      ChunkApplied(pm[e], orig, parity[e], lo, lo + len);
    }
  }

  lemma LoadedLength(disk: Disk, flat: seq<FlatLoc>, parity: map<nat, Bytes>, lo: nat, len: nat,
                     d: seq<Option<Bytes>>, v: seq<Option<Bytes>>)
    requires DataLoaded(disk, flat, |flat|, lo, len, d) && |d| == |flat| && ParityLoaded(parity, lo, len, v)
    ensures OfLength(d, len) && OfLength(v, len)
  {
    hide PaddedRead;
  }

  // Enough recovery blocks.

  lemma {:induction false} AvailableParity(parity: map<nat, Bytes>, v: seq<Option<Bytes>>, n: nat, keys: set<nat>)
    requires n <= |v| && forall e: nat :: e in keys <==> e < n && e in parity
    requires forall e :: 0 <= e < |v| ==> (v[e].Some? <==> e in parity)
    ensures |Available(Presence(v), n)| == |keys|
  {
    if n > 0 {
      AvailableParity(parity, v, n - 1, keys - {n - 1});
    } else {
      assert keys == {};
    }
  }

  lemma AllParityAvailable(parity: map<nat, Bytes>, lo: nat, len: nat, v: seq<Option<Bytes>>)
    requires ParityLoaded(parity, lo, len, v)
    ensures |Available(Presence(v), |v|)| == |parity|
  {
    AvailableParity(parity, v, |v|, parity.Keys);
    assert |parity.Keys| == |parity|;
  }

  /** The shards present are the blocks located. */
  ghost predicate PresentIfLocated(p: Par2Set, places: map<Block, Place>, present: seq<bool>) {
    |present| == p.TotalBlocks(|p.files|) && forall j, l: nat :: 0 <= j < |p.files| && l < BlocksIn(p, j) ==>
      FlatIndex(p, j, l) < |present| && (present[FlatIndex(p, j, l)] <==> Block(p.files[j].fileID, l) in places)
  }

  /** As many shards are missing as blocks have not been located. */
  lemma {:induction false} MissingCount(p: Par2Set, places: map<Block, Place>, present: seq<bool>, n: nat, k: nat)
    requires p.blockSize > 0 && PresentIfLocated(p, places, present)
    requires n < |p.files| && k <= BlocksIn(p, n)
    ensures p.TotalBlocks(n) + k <= |present|
    ensures |Missing(present, p.TotalBlocks(n) + k)|
            == Unusable(p, places, n) + MissingIn(places, p.files[n].fileID, k)
    decreases n, k
  {
    hide PresentIfLocated, BlocksIn, Missing, MissingIn, Par2Set.TotalBlocks, Unusable;
    if k > 0 {
      MissingCount(p, places, present, n, k - 1);
      PresentAt(p, places, present, n, k - 1);
      MissingNext(present, p.TotalBlocks(n) + k);
      MissingInNext(places, p.files[n].fileID, k);
    } else if n > 0 {
      MissingCount(p, places, present, n - 1, BlocksIn(p, n - 1));
      TotalNext(p, n - 1);
      UnusableNext(p, places, n);
    } else {
      NothingBefore(p, places, present);
    }
    MissingInNone(places, p.files[n].fileID);
  }

  lemma NothingBefore(p: Par2Set, places: map<Block, Place>, present: seq<bool>)
    ensures p.TotalBlocks(0) == 0 && Unusable(p, places, 0) == 0 && Missing(present, 0) == []
  {
  }

  lemma MissingInNone(places: map<Block, Place>, id: FileID)
    ensures MissingIn(places, id, 0) == 0
  {
  }

  lemma UnusableNext(p: Par2Set, places: map<Block, Place>, n: nat)
    requires p.blockSize > 0 && 0 < n <= |p.files|
    ensures Unusable(p, places, n)
            == Unusable(p, places, n - 1) + MissingIn(places, p.files[n - 1].fileID, BlocksIn(p, n - 1))
  {
  }

  lemma MissingNext(present: seq<bool>, n: nat)
    requires 0 < n <= |present|
    ensures |Missing(present, n)| == |Missing(present, n - 1)| + if present[n - 1] then 0 else 1
  {
  }

  lemma MissingInNext(places: map<Block, Place>, id: FileID, k: nat)
    requires k > 0
    ensures MissingIn(places, id, k) == MissingIn(places, id, k - 1) + if Block(id, k - 1) in places then 0 else 1
  {
  }

  lemma PresentAt(p: Par2Set, places: map<Block, Place>, present: seq<bool>, n: nat, k: nat)
    requires PresentIfLocated(p, places, present) && n < |p.files| && k < BlocksIn(p, n)
    ensures p.TotalBlocks(n) + k < |present|
    ensures present[p.TotalBlocks(n) + k] <==> Block(p.files[n].fileID, k) in places
  {
    assert FlatIndex(p, n, k) == p.TotalBlocks(n) + k;
  }

  lemma AllMissing(p: Par2Set, places: map<Block, Place>, present: seq<bool>)
    requires p.blockSize > 0 && PresentIfLocated(p, places, present)
    ensures |Missing(present, |present|)| == Unusable(p, places, |p.files|)
  {
    PresentLength(p, places, present);
    hide *;
    if |p.files| > 0 {
      var n := |p.files|;
      MissingCount(p, places, present, n - 1, BlocksIn(p, n - 1));
      TotalNext(p, n - 1);
      UnusableNext(p, places, n);
    } else {
      NothingBefore(p, places, present);
    }
  }

  lemma PresentLength(p: Par2Set, places: map<Block, Place>, present: seq<bool>)
    requires PresentIfLocated(p, places, present)
    ensures |present| == p.TotalBlocks(|p.files|)
  {
  }

  /** What is loaded tells the located blocks from the lost ones. */
  lemma LoadedPresence(p: Par2Set, places: map<Block, Place>, disk: Disk, flat: seq<FlatLoc>, lo: nat, len: nat,
                       d: seq<Option<Bytes>>)
    requires Flattened(p, places, flat, |p.files|, 0) && DataLoaded(disk, flat, |flat|, lo, len, d) && |d| == |flat|
    ensures PresentIfLocated(p, places, Presence(d))
  {
    hide PaddedRead, PathsOf;
  }

  /**
    When the counts say that a repair is possible, reconstructing a chunk does not fail for want of recovery blocks, nor
    because of the shards' number or length: it succeeds unless the system is singular.
   */
  lemma OnlySingular(p: Par2Set, places: map<Block, Place>, disk: Disk, flat: seq<FlatLoc>, pm: Rows, lo: nat, len: nat,
                     d: seq<Option<Bytes>>, v: seq<Option<Bytes>>, err: Option<CoderError>)
    requires p.blockSize > 0 && Flattened(p, places, flat, |p.files|, 0) && Unusable(p, places, |p.files|) <= |p.parity|
    requires DataLoaded(disk, flat, |flat|, lo, len, d) && |d| == |flat| && ParityLoaded(p.parity, lo, len, v)
    requires |v| <= |pm| && IsVandermonde(pm, |pm|, |d|, GeneratorsBelow(ORDER)) && IsMatrix(pm, |pm|, |d|)
    requires Verdict(|d|, pm, d, v, err)
    ensures err == None || err == Some(SingularSystem)
    ensures Consecutive(Used(d, v)) ==> err == None
  {
    hide PaddedRead, Flattened, PathsOf, Available, Missing, Singular, IsVandermonde, GeneratorsBelow;
    LoadedLength(disk, flat, p.parity, lo, len, d, v);
    LoadedPresence(p, places, disk, flat, lo, len, d);
    AllMissing(p, places, Presence(d));
    AllParityAvailable(p.parity, lo, len, v);
    if Consecutive(Used(d, v)) {
      ConsecutiveSucceeds(pm, |d|, d, v, err);
    }
  }

  // Writing.

  /** WriteAt: data at offset, with zeros up to there if the file is shorter. */
  function WriteAt(content: Bytes, offset: nat, data: Bytes): (r: Bytes)
    ensures |r| == if data != [] && offset + |data| > |content| then offset + |data| else |content|
    ensures forall b :: 0 <= b < |data| ==> r[offset + b] == data[b]
    ensures forall b :: 0 <= b < |content| && !(offset <= b < offset + |data|) ==> r[b] == content[b]
  {
    if data == [] then content else
    seq(if offset + |data| > |content| then offset + |data| else |content|, b requires b >= 0 =>
      if offset <= b < offset + |data| then data[b - offset] else if b < |content| then content[b] else 0)
  }

  function Range(offset: nat, len: nat): (r: set<nat>)
    ensures forall b: nat :: b in r <==> offset <= b < offset + len
  {
    if len == 0 then {} else Range(offset, len - 1) + {offset + len - 1}
  }

  /** Byte b of block i has been written when all of the chunk below lo is done and n blocks of the chunk up to hi. */
  predicate IsWritten(i: nat, b: nat, lo: nat, hi: nat, n: nat) {
    b < lo || (b < hi && i < n)
  }

  /** The same for a position in a file the first block of which has number base. */
  predicate WrittenAt(pos: nat, base: nat, blockSize: nat, lo: nat, hi: nat, n: nat)
    requires blockSize > 0
  {
    IsWritten(base + pos / blockSize, pos % blockSize, lo, hi, n)
  }

  /**
    The output of a file with count blocks, the first of which has number base: exactly the bytes that should have been
    written are, and the output ends with one of them.
   */
  ghost predicate FileTiled(written: set<nat>, size: nat, count: nat, base: nat, blockSize: nat, lo: nat, hi: nat,
                            n: nat)
    requires blockSize > 0
  {
    && (forall pos: nat :: pos in written <==>
          pos < GridPos(count, blockSize) && WrittenAt(pos, base, blockSize, lo, hi, n))
    && (forall pos: nat :: pos in written ==> pos < size) && size <= GridPos(count, blockSize)
  }

  /** The bytes from lo to hi of block k, seen as positions in the file. */
  lemma BlockRange(k: nat, blockSize: nat, lo: nat, hi: nat, pos: nat)
    requires blockSize > 0 && lo <= hi <= blockSize
    ensures pos in Range(GridPos(k, blockSize) + lo, hi - lo) <==> pos / blockSize == k && lo <= pos % blockSize < hi
    ensures pos / blockSize == k ==> pos == GridPos(k, blockSize) + pos % blockSize
  {
    DivModSum(pos, blockSize);
    if pos / blockSize != k && GridPos(k, blockSize) + lo <= pos < GridPos(k, blockSize) + hi {
      SameBlock(k, pos, blockSize);
    }
  }

  lemma BlockInside(k: nat, count: nat, blockSize: nat)
    requires k < count
    ensures GridPos(k, blockSize) + blockSize <= GridPos(count, blockSize)
  {
    GridNext(k, blockSize);
    GridOrder(k + 1, count, blockSize);
  }

  /** Writing the chunk of block k writes bytes not written before, and then the next block is due. */
  lemma TileBlock(written: set<nat>, size: nat, count: nat, base: nat, blockSize: nat, lo: nat, hi: nat, k: nat,
                  newSize: nat)
    requires blockSize > 0 && lo < hi <= blockSize && k < count
    requires FileTiled(written, size, count, base, blockSize, lo, hi, base + k)
    requires newSize == if GridPos(k, blockSize) + hi > size then GridPos(k, blockSize) + hi else size
    ensures written !! Range(GridPos(k, blockSize) + lo, hi - lo)
    ensures FileTiled(written + Range(GridPos(k, blockSize) + lo, hi - lo), newSize, count, base, blockSize, lo, hi,
                      base + k + 1)
  {
    hide GridPos, Range, WrittenAt;
    var range := Range(GridPos(k, blockSize) + lo, hi - lo);
    BlockInside(k, count, blockSize);
    forall pos: nat
      ensures pos in range ==> pos !in written && pos < GridPos(k, blockSize) + hi
      ensures pos in written + range <==>
        pos < GridPos(count, blockSize) && WrittenAt(pos, base, blockSize, lo, hi, base + k + 1)
    {
      NextWritten(base, blockSize, lo, hi, k, pos);
    }
  }

  lemma NextWritten(base: nat, blockSize: nat, lo: nat, hi: nat, k: nat, pos: nat)
    requires blockSize > 0 && lo < hi <= blockSize
    ensures var range := Range(GridPos(k, blockSize) + lo, hi - lo);
      && (WrittenAt(pos, base, blockSize, lo, hi, base + k + 1) <==>
            WrittenAt(pos, base, blockSize, lo, hi, base + k) || pos in range)
      && (pos in range ==> !WrittenAt(pos, base, blockSize, lo, hi, base + k) && pos < GridPos(k, blockSize) + hi)
  {
    hide GridPos, Range;
    BlockRange(k, blockSize, lo, hi, pos);
  }

  /** The blocks of other files do not matter. */
  lemma TileOther(written: set<nat>, size: nat, count: nat, base: nat, blockSize: nat, lo: nat, hi: nat, n: nat)
    requires blockSize > 0 && FileTiled(written, size, count, base, blockSize, lo, hi, n)
    requires n < base || n >= base + count
    ensures FileTiled(written, size, count, base, blockSize, lo, hi, n + 1)
  {
    hide GridPos;
    forall pos: nat | pos < GridPos(count, blockSize)
      ensures pos / blockSize < count
    {
      BlockNumber(pos, count, blockSize);
    }
  }

  lemma BlockNumber(pos: nat, count: nat, blockSize: nat)
    requires blockSize > 0 && pos < GridPos(count, blockSize)
    ensures pos / blockSize < count
  {
    GridBelow(pos, blockSize);
    if pos / blockSize >= count {
      GridOrder(count, pos / blockSize, blockSize);
    }
  }

  /** When all blocks of a chunk are written, the next chunk begins. */
  lemma TileChunk(written: set<nat>, size: nat, count: nat, base: nat, blockSize: nat, lo: nat, hi: nat, next: nat,
                  n: nat)
    requires blockSize > 0 && lo <= hi && FileTiled(written, size, count, base, blockSize, lo, hi, n) && base + count <= n
    ensures FileTiled(written, size, count, base, blockSize, hi, next, 0)
  {
    hide GridPos;
    forall pos: nat | pos < GridPos(count, blockSize)
      ensures pos / blockSize < count
    {
      BlockNumber(pos, count, blockSize);
    }
  }

  /** When the last chunk is done, every byte of the blocks has been written and nothing else. */
  lemma TileComplete(written: set<nat>, size: nat, count: nat, base: nat, blockSize: nat, next: nat)
    requires blockSize > 0 && FileTiled(written, size, count, base, blockSize, blockSize, next, 0)
    ensures forall pos: nat :: pos in written <==> pos < GridPos(count, blockSize)
    ensures size == GridPos(count, blockSize)
  {
    hide GridPos;
    if GridPos(count, blockSize) > 0 {
      assert GridPos(count, blockSize) - 1 in written;
    }
  }

  // The pipeline.

  /** Every output has been written as far as blocks and chunks have come; there are no other outputs. */
  ghost predicate Tiled(p: Par2Set, needsWrite: set<string>, outputs: map<string, Bytes>,
                        written: map<string, set<nat>>, lo: nat, hi: nat, n: nat)
  {
    && p.blockSize > 0 && outputs.Keys == written.Keys && outputs.Keys <= needsWrite
    && forall j :: 0 <= j < |p.files| && p.files[j].filename in needsWrite ==>
         OutputTiled(p, outputs, written, j, lo, hi, n)
  }

  function WrittenOf(written: map<string, set<nat>>, name: string): set<nat> {
    if name in written then written[name] else {}
  }

  function ContentOf(outputs: map<string, Bytes>, name: string): Bytes {
    if name in outputs then outputs[name] else []
  }

  ghost predicate OutputTiled(p: Par2Set, outputs: map<string, Bytes>, written: map<string, set<nat>>, j: nat, lo: nat,
                              hi: nat, n: nat)
    requires j < |p.files| && p.blockSize > 0
  {
    FileTiled(WrittenOf(written, p.files[j].filename), |ContentOf(outputs, p.files[j].filename)|, BlocksIn(p, j),
              p.TotalBlocks(j), p.blockSize, lo, hi, n)
  }

  /** What has been written are the bytes of the blocks orig. */
  ghost predicate Filled(p: Par2Set, outputs: map<string, Bytes>, written: map<string, set<nat>>, orig: seq<Bytes>) {
    && p.blockSize > 0 && outputs.Keys == written.Keys
    && forall j, pos :: 0 <= j < |p.files| && p.files[j].filename in written && pos in written[p.files[j].filename] ==>
         ByteRestored(p, outputs, orig, j, pos)
  }

  ghost predicate ByteRestored(p: Par2Set, outputs: map<string, Bytes>, orig: seq<Bytes>, j: nat, pos: nat)
    requires j < |p.files| && p.blockSize > 0
  {
    var i := FlatIndex(p, j, pos / p.blockSize);
    DivModSum(pos, p.blockSize);
    && p.files[j].filename in outputs && pos < |outputs[p.files[j].filename]|
    && i < |orig| && pos % p.blockSize < |orig[i]|
    && outputs[p.files[j].filename][pos] == orig[i][pos % p.blockSize]
  }

  /** The chunks below chunkIdx have been written. */
  ghost predicate AtChunk(p: Par2Set, needsWrite: set<string>, outputs: map<string, Bytes>,
                          written: map<string, set<nat>>, chunkSize: nat, chunkIdx: nat)
    requires chunkSize > 0
  {
    var lo := if chunkIdx < NumChunks(p.blockSize, chunkSize) then chunkIdx * chunkSize else p.blockSize;
    Tiled(p, needsWrite, outputs, written, lo, ChunkUpto(p.blockSize, chunkSize, chunkIdx), 0)
  }

  class Pipeline {
    const p: Par2Set
    const flat: seq<FlatLoc>
    const needsWrite: set<string>
    var outputs: map<string, Bytes>
    ghost var written: map<string, set<nat>>

    constructor (p: Par2Set, flat: seq<FlatLoc>, needsWrite: set<string>)
      ensures this.p == p && this.flat == flat && this.needsWrite == needsWrite
      ensures outputs == map[] && written == map[]
    {
      this.p, this.flat, this.needsWrite := p, flat, needsWrite;
      outputs, written := map[], map[];
    }

    /** What planRepair and newRepairPipeline set up. */
    ghost predicate Ready(g: Package, c: Coder, pm: Rows, defaultGoroutines: nat, places: map<Block, Place>)
      reads c.parityMatrix.elements
    {
      && g.Ready() && c.Valid() && c.parityMatrix.View() == pm && defaultGoroutines > 0 && p.Proper()
      && p.blockSize > 0 && p.blockSize % 4 == 0
      && Flattened(p, places, flat, |p.files|, 0) && Unusable(p, places, |p.files|) <= |p.parity|
      && c.dataShards == |flat| && (forall e :: e in p.parity ==> e < c.parityShards && |p.parity[e]| == p.blockSize)
    }

    /** Writes the chunk from lo to hi of block i, which is block k of file j, to the file's output. */
    method WriteBlock(ctx: Context, i: nat, ghost j: nat, ghost k: nat, data: Bytes, lo: nat, hi: nat,
                      ghost orig: seq<Bytes>)
      returns (err: Option<RepairError>)
      requires p.Proper() && j < |p.files| && k < BlocksIn(p, j) && i == FlatIndex(p, j, k) && i < |flat|
      requires flat[i].target == p.files[j].filename && flat[i].shardIndex == k && flat[i].target in needsWrite
      requires lo < hi <= p.blockSize && |data| == hi - lo && Tiled(p, needsWrite, outputs, written, lo, hi, i)
      modifies this`outputs, this`written, ctx`failed
      ensures (err == None || (err == Some(WriteFailed) && ctx.failed)) && (old(ctx.failed) ==> ctx.failed)
      ensures err.None? ==> Tiled(p, needsWrite, outputs, written, lo, hi, i + 1)
      ensures err.None? ==>
        var name, offset := flat[i].target, GridPos(k, p.blockSize) + lo;
        && WrittenOf(old(written), name) !! Range(offset, hi - lo)
        && written == old(written)[name := WrittenOf(old(written), name) + Range(offset, hi - lo)]
        && outputs == old(outputs)[name := WriteAt(ContentOf(old(outputs), name), offset, data)]
      ensures err.None? && Filled(p, old(outputs), old(written), orig) && i < |orig| && hi <= |orig[i]|
              && data == orig[i][lo..hi] ==>
        Filled(p, outputs, written, orig)
    {
      hide Par2Set.Proper, GridPos, Tiled, Filled, Range, WriteAt;
      var name := flat[i].target;
      if name !in outputs {
        var createFails := ctx.Fails();
        if createFails {
          return Some(WriteFailed);
        }
      }
      var writeFails := ctx.Fails();
      if writeFails {
        return Some(WriteFailed);
      }
      GridPosIs(k, p.blockSize);
      var offset := flat[i].shardIndex * p.blockSize + lo;
      var before := ContentOf(outputs, name);
      ghost var range := Range(offset, hi - lo);
      ghost var wasWritten := WrittenOf(written, name);
      WroteBlock(p, needsWrite, outputs, written, j, k, data, lo, hi);
      outputs := outputs[name := WriteAt(before, offset, data)];
      written := written[name := wasWritten + range];
      if Filled(p, old(outputs), old(written), orig) && i < |orig| && hi <= |orig[i]| && data == orig[i][lo..hi] {
        FilledBlock(p, old(outputs), old(written), orig, j, k, lo, hi);
      }
      err := None;
    }
  
    /** The writer of executeChunk. */
    method WriteChunk(ctx: Context, data: seq<Shard>, lo: nat, hi: nat, ghost orig: seq<Bytes>)
      returns (err: Option<RepairError>)
      requires p.Proper() && Targets(p, flat) && |data| == |flat| && lo < hi <= p.blockSize
      requires FullLength(Shadows(data), hi - lo) && Tiled(p, needsWrite, outputs, written, lo, hi, 0)
      modifies this`outputs, this`written, ctx`failed
      ensures (err == None || (err == Some(WriteFailed) && ctx.failed)) && (old(ctx.failed) ==> ctx.failed)
      ensures err.None? ==> Tiled(p, needsWrite, outputs, written, lo, hi, |flat|)
      ensures err.None? && Filled(p, old(outputs), old(written), orig) && IsChunkOf(orig, p.blockSize, lo, hi, Shadows(data)) ==>
        Filled(p, outputs, written, orig)
    {
      hide Par2Set.Proper, Tiled, Filled, Targets, Shadows;
      for i := 0 to |flat|
        invariant Tiled(p, needsWrite, outputs, written, lo, hi, i) && (old(ctx.failed) ==> ctx.failed)
        invariant Filled(p, old(outputs), old(written), orig) && IsChunkOf(orig, p.blockSize, lo, hi, Shadows(data)) ==>
          Filled(p, outputs, written, orig)
      {
        ghost var j, k := TargetAt(p, flat, i);
        if flat[i].target !in needsWrite {
          SkipBlock(p, needsWrite, outputs, written, lo, hi, j, k);
          continue;
        }
        ShardAt(data, i);
        err := WriteBlock(ctx, i, j, k, data[i][..], lo, hi, orig);
        if err.Some? {
          return;
        }
      }
      err := None;
    }

    /** The reader and the processor of executeChunk. */
    method ReconstructChunk(ctx: Context, g: Package, c: Coder, disk: Disk, lo: nat, len: nat, numGoroutines: int,
                            defaultGoroutines: nat, ghost places: map<Block, Place>, ghost pm: Rows, ghost orig: seq<Bytes>)
      returns (shards: seq<Shard>, err: Option<RepairError>)
      requires Ready(g, c, pm, defaultGoroutines, places)
      requires lo + len <= p.blockSize && lo % 2 == 0 && len % 2 == 0
      modifies ctx
      ensures Ready(g, c, pm, defaultGoroutines, places)
      ensures err.None? ==> |shards| == |flat| && FullLength(Shadows(shards), len)
      ensures err.None? && Consistent(disk, flat, p.parity, pm, p.blockSize, orig) ==>
        IsChunkOf(orig, p.blockSize, lo, lo + len, Shadows(shards))
      ensures old(ctx.failed) ==> ctx.failed
      ensures err.Some? ==> IsFailure(p, places, disk, flat, c.parityShards, ctx.cancelled, ctx.failed, err.value)
    {
      hide Package.Ready, Coder.Valid, Par2Set.Proper, Flattened, Consistent, DataLoaded, ParityLoaded, IsChunkOf;
      hide Verdict;
      hide Restored, OfLength, FullLength, Shadows, IsFailure;
      ReadyCoder(g, c, pm, defaultGoroutines, places);
      shards := [];
      var data;
      data, err := LoadData(ctx, disk, flat, lo, len);
      if err.Some? {
        ReadIsFailure(p, places, disk, flat, c.parityShards, ctx.cancelled, ctx.failed);
        return;
      }
      var parity := LoadParity(p.parity, c.parityShards, lo, len);
      ghost var d, v := Shadows(data[..]), Shadows(parity);
      LoadedLength(disk, flat, p.parity, lo, len, d, v);
      var coderErr := Coders.Reconstruct(ctx, g, c, data, parity, numGoroutines, defaultGoroutines);
      if coderErr.Some? {
        CoderIsFailure(p, places, disk, flat, pm, lo, len, d, v, c.parityShards, coderErr, ctx.cancelled, ctx.failed);
        return shards, Some(CoderFailed(coderErr.value));
      }
      shards := data[..];
      ChunkRestored(disk, flat, p.parity, pm, p.blockSize, orig, lo, len, d, v, Shadows(shards));
    }

    lemma ReadyCoder(g: Package, c: Coder, pm: Rows, defaultGoroutines: nat, places: map<Block, Place>)
      requires Ready(g, c, pm, defaultGoroutines, places)
      ensures c.parityMatrix.Valid() && IsMatrix(pm, c.parityShards, c.dataShards) && |pm| == c.parityShards
      ensures IsVandermonde(pm, c.parityShards, c.dataShards, GeneratorsBelow(ORDER))
    {
      hide GeneratorsBelow, Package.Ready, Par2Set.Proper, Flattened;
    }

    /** executeChunk */
    method ExecuteChunk(ctx: Context, g: Package, c: Coder, disk: Disk, chunkSize: nat, chunkIdx: nat,
                        numGoroutines: int, defaultGoroutines: nat, ghost places: map<Block, Place>, ghost pm: Rows,
                        ghost orig: seq<Bytes>)
      returns (err: Option<RepairError>)
      requires Ready(g, c, pm, defaultGoroutines, places)
      requires chunkSize > 0 && chunkSize % 16 == 0 && chunkIdx < NumChunks(p.blockSize, chunkSize)
      requires AtChunk(p, needsWrite, outputs, written, chunkSize, chunkIdx)
      modifies this`outputs, this`written, ctx
      ensures Ready(g, c, pm, defaultGoroutines, places)
      ensures err.None? ==> AtChunk(p, needsWrite, outputs, written, chunkSize, chunkIdx + 1)
      ensures err.None? && Filled(p, old(outputs), old(written), orig)
              && Consistent(disk, flat, p.parity, pm, p.blockSize, orig) ==>
        Filled(p, outputs, written, orig)
      ensures old(ctx.failed) ==> ctx.failed
      ensures err.Some? ==> IsFailure(p, places, disk, flat, c.parityShards, ctx.cancelled, ctx.failed, err.value)
    {
      hide Package.Ready, Coder.Valid, Par2Set.Proper, Flattened, Consistent, IsChunkOf, FullLength, Shadows, IsFailure;
      hide Filled, Tiled, AtChunk, Targets, ChunkLength, ChunkUpto, NumChunks;
      ChunksTile(p.blockSize, chunkSize, chunkIdx);
      ChunksEven(p.blockSize, chunkSize, chunkIdx);
      var lo, len := chunkIdx * chunkSize, ChunkLength(p.blockSize, chunkSize, chunkIdx);
      var shards;
      shards, err := ReconstructChunk(ctx, g, c, disk, lo, len, numGoroutines, defaultGoroutines, places, pm, orig);
      if err.Some? {
        return;
      }
      err := WriteStage(ctx, shards, chunkSize, chunkIdx, places, orig);
      if err.Some? {
        WriteIsFailure(p, places, disk, flat, c.parityShards, ctx.cancelled, ctx.failed);
      }
    }

    /** The writer of executeChunk, which takes the outputs from one chunk to the next. */
    method WriteStage(ctx: Context, shards: seq<Shard>, chunkSize: nat, chunkIdx: nat, ghost places: map<Block, Place>,
                      ghost orig: seq<Bytes>)
      returns (err: Option<RepairError>)
      requires p.Proper() && p.blockSize > 0 && Flattened(p, places, flat, |p.files|, 0) && |shards| == |flat|
      requires chunkSize > 0 && chunkSize % 16 == 0 && chunkIdx < NumChunks(p.blockSize, chunkSize)
      requires FullLength(Shadows(shards), ChunkLength(p.blockSize, chunkSize, chunkIdx))
      requires AtChunk(p, needsWrite, outputs, written, chunkSize, chunkIdx)
      modifies this`outputs, this`written, ctx`failed
      ensures (err == None || (err == Some(WriteFailed) && ctx.failed)) && (old(ctx.failed) ==> ctx.failed)
      ensures err.None? ==> AtChunk(p, needsWrite, outputs, written, chunkSize, chunkIdx + 1)
      ensures err.None? && Filled(p, old(outputs), old(written), orig)
              && IsChunkOf(orig, p.blockSize, chunkIdx * chunkSize, ChunkUpto(p.blockSize, chunkSize, chunkIdx), Shadows(shards)) ==>
        Filled(p, outputs, written, orig)
    {
      hide Par2Set.Proper, Flattened, IsChunkOf, FullLength, Shadows, Filled, Tiled, AtChunk, Targets, ChunkLength;
      hide ChunkUpto;
      hide NumChunks;
      ChunksTile(p.blockSize, chunkSize, chunkIdx);
      FlattenedTargets(p, places, flat);
      EnterChunk(p, needsWrite, outputs, written, chunkSize, chunkIdx);
      err := WriteChunk(ctx, shards, chunkIdx * chunkSize, ChunkUpto(p.blockSize, chunkSize, chunkIdx), orig);
      if err.None? {
        LeaveChunk(p, needsWrite, outputs, written, chunkSize, chunkIdx, |flat|);
      }
    }
  
    /** All chunks, one after the other. */
    method RunChunks(ctx: Context, g: Package, c: Coder, disk: Disk, chunkSize: nat, numGoroutines: int,
                     defaultGoroutines: nat, ghost places: map<Block, Place>, ghost pm: Rows, ghost orig: seq<Bytes>)
      returns (err: Option<RepairError>)
      requires Ready(g, c, pm, defaultGoroutines, places) && chunkSize > 0 && chunkSize % 16 == 0
      requires outputs == map[] && written == map[]
      modifies this`outputs, this`written, ctx
      ensures Ready(g, c, pm, defaultGoroutines, places)
      ensures err.None? ==> AllWritten(p, needsWrite, outputs, written)
      ensures err.None? && Consistent(disk, flat, p.parity, pm, p.blockSize, orig) ==> Filled(p, outputs, written, orig)
      ensures old(ctx.failed) ==> ctx.failed
      ensures err.Some? ==>
        || (err.value == RepairCancelled && ctx.cancelled)
        || IsFailure(p, places, disk, flat, c.parityShards, ctx.cancelled, ctx.failed, err.value)
    {
      hide Package.Ready, Coder.Valid, Par2Set.Proper, Flattened, Consistent, IsFailure, Filled, AtChunk, NumChunks;
      hide AllWritten;
      NothingWritten(p, needsWrite, chunkSize, orig);
      for chunkIdx := 0 to NumChunks(p.blockSize, chunkSize)
        invariant Ready(g, c, pm, defaultGoroutines, places)
        invariant AtChunk(p, needsWrite, outputs, written, chunkSize, chunkIdx) && (old(ctx.failed) ==> ctx.failed)
        invariant Consistent(disk, flat, p.parity, pm, p.blockSize, orig) ==> Filled(p, outputs, written, orig)
      {
        var stop := ctx.Err();
        if stop {
          return Some(RepairCancelled);
        }
        err := ExecuteChunk(ctx, g, c, disk, chunkSize, chunkIdx, numGoroutines, defaultGoroutines, places, pm, orig);
        if err.Some? {
          return;
        }
      }
      LastChunkWritten(p, needsWrite, outputs, written, chunkSize);
      err := None;
    }

    /** finishRebuiltFile: the output is cut to the protected length and its hash is checked. */
    method FinishRebuiltFile(ctx: Context, fd: FileDesc) returns (err: Option<RepairError>)
      requires fd.filename in outputs
      modifies this`outputs, ctx`failed
      ensures (err == Some(WriteFailed) ==> ctx.failed) && (old(ctx.failed) ==> ctx.failed)
      ensures err.None? ==> outputs == old(outputs)[fd.filename := Truncate(old(outputs)[fd.filename], fd.byteCount)]
      ensures err.None? ==> p.md5(outputs[fd.filename]) == fd.hash
      ensures err.None? || err == Some(WriteFailed) || err == Some(HashMismatch)
      ensures err == Some(HashMismatch) ==> WrongHash(p, old(outputs), fd)
      ensures outputs.Keys == old(outputs).Keys
      ensures forall name :: name in outputs && name != fd.filename ==> outputs[name] == old(outputs)[name]
    {
      var truncateFails := ctx.Fails();
      if truncateFails {
        return Some(WriteFailed);
      }
      outputs := outputs[fd.filename := Truncate(outputs[fd.filename], fd.byteCount)];
      var syncFails := ctx.Fails();
      var readFails := ctx.Fails();
      if syncFails || readFails {
        return Some(WriteFailed);
      }
      if p.md5(outputs[fd.filename]) != fd.hash {
        return Some(HashMismatch);
      }
      err := None;
    }

    /** finishRebuiltFiles: every output is finished; the first failure is reported. */
    method FinishRebuiltFiles(ctx: Context) returns (err: Option<RepairError>)
      requires p.Proper()
      modifies this`outputs, ctx`failed
      ensures (err == Some(WriteFailed) ==> ctx.failed) && (old(ctx.failed) ==> ctx.failed)
      ensures outputs.Keys == old(outputs).Keys
      ensures err.None? ==> forall i :: 0 <= i < |p.files| && p.files[i].filename in outputs ==>
        && outputs[p.files[i].filename] == Truncate(old(outputs)[p.files[i].filename], p.files[i].byteCount)
        && p.md5(outputs[p.files[i].filename]) == p.files[i].hash
      ensures err.None? || err == Some(WriteFailed) || err == Some(HashMismatch)
      ensures err == Some(HashMismatch) ==> exists i :: 0 <= i < |p.files| && WrongHash(p, old(outputs), p.files[i])
    {
      hide Par2Set.Proper, Truncate;
      err := None;
      for i := 0 to |p.files|
        invariant outputs.Keys == old(outputs).Keys
        invariant (err == Some(WriteFailed) ==> ctx.failed) && (old(ctx.failed) ==> ctx.failed)
        invariant forall j :: i <= j < |p.files| && p.files[j].filename in outputs ==>
          outputs[p.files[j].filename] == old(outputs)[p.files[j].filename]
        invariant err.None? ==> forall j :: 0 <= j < i && p.files[j].filename in outputs ==>
          && outputs[p.files[j].filename] == Truncate(old(outputs)[p.files[j].filename], p.files[j].byteCount)
          && p.md5(outputs[p.files[j].filename]) == p.files[j].hash
        invariant err.None? || err == Some(WriteFailed) || err == Some(HashMismatch)
        invariant err == Some(HashMismatch) ==> exists j :: 0 <= j < i && WrongHash(p, old(outputs), p.files[j])
      {
        ProperFile(p, i);
        if p.files[i].filename in outputs {
          assert outputs[p.files[i].filename] == old(outputs)[p.files[i].filename];
          var fileErr := FinishRebuiltFile(ctx, p.files[i]);
          err := if err.None? then fileErr else err;
        }
      }
    }
  
    /** install: nothing is replaced unless every output has the right hash. */
    method Install(ctx: Context, d: Decoder) returns (err: Option<RepairError>)
      requires d.p == p && p.Proper()
      modifies this`outputs, d`disk, ctx`failed
      ensures (err == Some(WriteFailed) ==> ctx.failed) && (old(ctx.failed) ==> ctx.failed)
      ensures SameElsewhere(old(outputs).Keys, old(d.disk), d.disk)
      ensures KeptOrRight(p, old(d.disk), d.disk)
      ensures err.None? ==> forall i :: 0 <= i < |p.files| && p.files[i].filename in needsWrite ==>
        && p.files[i].filename in old(outputs) && HasContent(p, d.disk, p.files[i].filename, p.files[i])
        && d.disk[p.files[i].filename] == Truncate(old(outputs)[p.files[i].filename], p.files[i].byteCount)
      ensures err == Some(HashMismatch) || err == Some(NoOutput) ==> d.disk == old(d.disk)
      ensures (exists i :: 0 <= i < |p.files| && WrongHash(p, old(outputs), p.files[i])) ==> d.disk == old(d.disk)
      ensures err.None? || err == Some(WriteFailed) || err == Some(HashMismatch) || err == Some(NoOutput)
      ensures err == Some(NoOutput) ==> exists name :: name in needsWrite && name !in old(outputs)
      ensures err == Some(HashMismatch) ==> exists i :: 0 <= i < |p.files| && WrongHash(p, old(outputs), p.files[i])
    {
      hide Par2Set.Proper, Truncate, WrongHash, KeptOrRight, SameElsewhere;
      KeptAtFirst(p, d.disk);
      SameAtFirst(outputs.Keys, d.disk);
      if name :| name in needsWrite && name !in outputs {
        return Some(NoOutput);
      }
      err := FinishRebuiltFiles(ctx);
      if err.Some? {
        return;
      }
      var closeFails := ctx.Fails();
      if closeFails {
        return Some(WriteFailed);
      }
      ghost var finished := outputs;
      AllFinished(p, old(outputs), finished);
      KeptAtFirst(p, d.disk);
      for i := 0 to |p.files|
        invariant outputs == finished && KeptOrRight(p, old(d.disk), d.disk) && (old(ctx.failed) ==> ctx.failed)
        invariant SameElsewhere(old(outputs).Keys, old(d.disk), d.disk)
        invariant forall j :: 0 <= j < i && p.files[j].filename in outputs ==>
          p.files[j].filename in d.disk && d.disk[p.files[j].filename] == outputs[p.files[j].filename]
      {
        var name := p.files[i].filename;
        if name !in outputs {
          continue;
        }
        var statFails := ctx.Fails();
        var chmodFails := ctx.Fails();
        var renameFails := ctx.Fails();
        if statFails || chmodFails || renameFails {
          return Some(WriteFailed);
        }
        ProperFile(p, i);
        InstallOne(p, old(d.disk), d.disk, i, outputs[name]);
        SameNext(old(outputs).Keys, old(d.disk), d.disk, name, outputs[name]);
        d.disk := d.disk[name := outputs[name]];
      }
    }
  }

  /** Once every output is finished, none of them had a wrong hash. */
  lemma AllFinished(p: Par2Set, outputs: map<string, Bytes>, finished: map<string, Bytes>)
    requires finished.Keys == outputs.Keys
    requires forall i :: 0 <= i < |p.files| && p.files[i].filename in finished ==>
      && finished[p.files[i].filename] == Truncate(outputs[p.files[i].filename], p.files[i].byteCount)
      && p.md5(finished[p.files[i].filename]) == p.files[i].hash
    ensures !exists i :: 0 <= i < |p.files| && WrongHash(p, outputs, p.files[i])
  {
    hide Truncate;
  }

  /** Outside names, nothing has changed. */
  ghost predicate SameElsewhere(names: set<string>, before: Disk, after: Disk) {
    forall path :: path !in names ==> SameAt(before, after, path)
  }

  lemma SameAtFirst(names: set<string>, disk: Disk)
    ensures SameElsewhere(names, disk, disk)
  {
  }

  lemma SameNext(names: set<string>, before: Disk, disk: Disk, name: string, content: Bytes)
    requires SameElsewhere(names, before, disk) && name in names
    ensures SameElsewhere(names, before, disk[name := content])
  {
  }

  /**
    Why a chunk may fail: an access that failed, a source that is not there, cancellation, or a singular system, for
    which recovery blocks have to be apart.
   */
  ghost predicate IsFailure(p: Par2Set, places: map<Block, Place>, disk: Disk, flat: seq<FlatLoc>, total: nat,
                            cancelled: bool, failed: bool, err: RepairError)
  {
    || (err == ReadFailed && (failed || !AllReadable(disk, flat))) || (err == WriteFailed && failed)
    || (err == CoderFailed(ContextCancelled) && cancelled)
    || (err == CoderFailed(SingularSystem) && !Consecutive(UsedExponents(p, places, total)))
  }

  /** The recovery blocks a repair uses: those with the smallest exponents, as many as blocks are lost. */
  ghost function UsedExponents(p: Par2Set, places: map<Block, Place>, total: nat): seq<nat> {
    FirstAvailable(seq(total, e => e in p.parity), total, Unusable(p, places, |p.files|))
  }

  lemma ReadIsFailure(p: Par2Set, places: map<Block, Place>, disk: Disk, flat: seq<FlatLoc>, total: nat,
                      cancelled: bool, failed: bool)
    requires failed || !AllReadable(disk, flat)
    ensures IsFailure(p, places, disk, flat, total, cancelled, failed, ReadFailed)
  {
  }

  lemma WriteIsFailure(p: Par2Set, places: map<Block, Place>, disk: Disk, flat: seq<FlatLoc>, total: nat,
                       cancelled: bool, failed: bool)
    requires failed
    ensures IsFailure(p, places, disk, flat, total, cancelled, failed, WriteFailed)
  {
  }

  lemma CoderIsFailure(p: Par2Set, places: map<Block, Place>, disk: Disk, flat: seq<FlatLoc>, pm: Rows, lo: nat,
                       len: nat,
                       d: seq<Option<Bytes>>, v: seq<Option<Bytes>>, total: nat, err: Option<CoderError>, cancelled: bool,
                       failed: bool)
    requires p.blockSize > 0 && Flattened(p, places, flat, |p.files|, 0) && Unusable(p, places, |p.files|) <= |p.parity|
    requires DataLoaded(disk, flat, |flat|, lo, len, d) && |d| == |flat| && ParityLoaded(p.parity, lo, len, v)
    requires |v| == |pm| == total && IsVandermonde(pm, |pm|, |d|, GeneratorsBelow(ORDER)) && IsMatrix(pm, |pm|, |d|)
    requires err.Some? && (err == Some(ContextCancelled) ==> cancelled)
    requires err != Some(ContextCancelled) ==> Verdict(|d|, pm, d, v, err)
    ensures IsFailure(p, places, disk, flat, total, cancelled, failed, CoderFailed(err.value))
  {
    hide PaddedRead, Flattened, PathsOf, Available, Missing, FirstAvailable, Singular, IsVandermonde, GeneratorsBelow;
    hide Verdict, AllReadable;
    if err != Some(ContextCancelled) {
      OnlySingular(p, places, disk, flat, pm, lo, len, d, v, err);
      LoadedPresence(p, places, disk, flat, lo, len, d);
      AllMissing(p, places, Presence(d));
      assert Presence(v) == seq(total, e => e in p.parity);
    }
  }

  lemma ChunkRestored(disk: Disk, flat: seq<FlatLoc>, parity: map<nat, Bytes>, pm: Rows, blockSize: nat,
                      orig: seq<Bytes>, lo: nat, len: nat, d: seq<Option<Bytes>>, v: seq<Option<Bytes>>,
                      result: seq<Option<Bytes>>)
    requires lo + len <= blockSize && lo % 2 == 0
    requires DataLoaded(disk, flat, |flat|, lo, len, d) && |d| == |flat|
    requires ParityLoaded(parity, lo, len, v) && |v| <= |pm|
    requires Restored(pm, d, v, result)
    ensures Consistent(disk, flat, parity, pm, blockSize, orig) ==> IsChunkOf(orig, blockSize, lo, lo + len, result)
  {
    hide PaddedRead, IsApplied, DataLoaded, ParityLoaded, Codeword;
    if Consistent(disk, flat, parity, pm, blockSize, orig) {
      LoadedIsCodeword(disk, flat, parity, pm, blockSize, orig, lo, len, d, v);
      assert IsWhole(Chunk(orig, lo, lo + len), result);
    }
  }

  lemma FlattenedTargets(p: Par2Set, places: map<Block, Place>, flat: seq<FlatLoc>)
    requires Flattened(p, places, flat, |p.files|, 0)
    ensures Targets(p, flat) && |flat| == p.TotalBlocks(|p.files|)
  {
    hide PathsOf;
  }

  lemma EnterChunk(p: Par2Set, needsWrite: set<string>, outputs: map<string, Bytes>, written: map<string, set<nat>>,
                   chunkSize: nat, chunkIdx: nat)
    requires chunkSize > 0 && chunkIdx < NumChunks(p.blockSize, chunkSize)
    requires AtChunk(p, needsWrite, outputs, written, chunkSize, chunkIdx)
    ensures Tiled(p, needsWrite, outputs, written, chunkIdx * chunkSize, ChunkUpto(p.blockSize, chunkSize, chunkIdx), 0)
  {
  }

  lemma LeaveChunk(p: Par2Set, needsWrite: set<string>, outputs: map<string, Bytes>, written: map<string, set<nat>>,
                   chunkSize: nat, chunkIdx: nat, n: nat)
    requires chunkSize > 0 && chunkSize % 16 == 0 && chunkIdx < NumChunks(p.blockSize, chunkSize)
    requires p.blockSize > 0 && n == p.TotalBlocks(|p.files|)
    requires Tiled(p, needsWrite, outputs, written, chunkIdx * chunkSize, ChunkUpto(p.blockSize, chunkSize, chunkIdx), n)
    ensures AtChunk(p, needsWrite, outputs, written, chunkSize, chunkIdx + 1)
  {
    hide FileTiled, NumChunks, Par2Set.TotalBlocks, BlocksIn;
    ChunksTile(p.blockSize, chunkSize, chunkIdx);
    var lo, hi := chunkIdx * chunkSize, ChunkUpto(p.blockSize, chunkSize, chunkIdx);
    var next := ChunkUpto(p.blockSize, chunkSize, chunkIdx + 1);
    forall j | 0 <= j < |p.files| && p.files[j].filename in needsWrite
      ensures OutputTiled(p, outputs, written, j, hi, next, 0)
    {
      TotalGrows(p, j + 1, |p.files|);
      TotalNext(p, j);
      TileChunk(WrittenOf(written, p.files[j].filename), |ContentOf(outputs, p.files[j].filename)|, BlocksIn(p, j),
                p.TotalBlocks(j), p.blockSize, lo, hi, next, n);
    }
  }

  lemma TotalNext(p: Par2Set, j: nat)
    requires j < |p.files|
    ensures p.blockSize > 0 ==> p.TotalBlocks(j + 1) == p.TotalBlocks(j) + BlocksIn(p, j)
  {
  }

  /** The chunk from lo to hi of the blocks orig. */
  ghost predicate IsChunkOf(orig: seq<Bytes>, blockSize: nat, lo: nat, hi: nat, d: seq<Option<Bytes>>) {
    && |d| == |orig| && hi <= blockSize && lo <= hi && SameLength(orig, blockSize)
    && forall i :: 0 <= i < |d| ==> d[i] == Some(orig[i][lo..hi])
  }

  /** The row of blocks says for each of them which block of which file it is. */
  ghost predicate Targets(p: Par2Set, flat: seq<FlatLoc>) {
    && |flat| == p.TotalBlocks(|p.files|)
    && forall j, k: nat :: 0 <= j < |p.files| && k < BlocksIn(p, j) ==>
         FlatIndex(p, j, k) < |flat| && flat[FlatIndex(p, j, k)].target == p.files[j].filename
         && flat[FlatIndex(p, j, k)].shardIndex == k
  }

  lemma TargetAt(p: Par2Set, flat: seq<FlatLoc>, i: nat) returns (j: nat, k: nat)
    requires Targets(p, flat) && i < |flat|
    ensures j < |p.files| && k < BlocksIn(p, j) && i == FlatIndex(p, j, k)
    ensures flat[i].target == p.files[j].filename && flat[i].shardIndex == k
  {
    j, k := Locate(p, |p.files|, i);
  }

  lemma ShardAt(data: seq<Shard>, i: nat)
    requires i < |data|
    ensures Shadows(data)[i] == if data[i] == null then None else Some(data[i][..])
  {
  }

  lemma SkipBlock(p: Par2Set, needsWrite: set<string>, outputs: map<string, Bytes>, written: map<string, set<nat>>,
                  lo: nat, hi: nat, j: nat, k: nat)
    requires p.Proper() && j < |p.files| && k < BlocksIn(p, j) && p.files[j].filename !in needsWrite
    requires Tiled(p, needsWrite, outputs, written, lo, hi, FlatIndex(p, j, k))
    ensures Tiled(p, needsWrite, outputs, written, lo, hi, FlatIndex(p, j, k) + 1)
  {
    hide Par2Set.Proper, FileTiled, BlocksIn, Par2Set.TotalBlocks;
    forall l | 0 <= l < |p.files| && p.files[l].filename in needsWrite
      ensures OutputTiled(p, outputs, written, l, lo, hi, FlatIndex(p, j, k) + 1)
    {
      OtherFile(p, j, k, l);
      TileOther(WrittenOf(written, p.files[l].filename), |ContentOf(outputs, p.files[l].filename)|,
                BlocksIn(p, l), p.TotalBlocks(l), p.blockSize, lo, hi, FlatIndex(p, j, k));
    }
  }

  lemma WroteBlock(p: Par2Set, needsWrite: set<string>, outputs: map<string, Bytes>, written: map<string, set<nat>>,
                   j: nat, k: nat, data: Bytes, lo: nat, hi: nat)
    requires p.Proper() && j < |p.files| && k < BlocksIn(p, j) && p.files[j].filename in needsWrite
    requires lo < hi <= p.blockSize && |data| == hi - lo
    requires Tiled(p, needsWrite, outputs, written, lo, hi, FlatIndex(p, j, k))
    ensures var name, range := p.files[j].filename, Range(GridPos(k, p.blockSize) + lo, hi - lo);
      var was := WrittenOf(written, name);
      var before := ContentOf(outputs, name);
      && was !! range
      && Tiled(p, needsWrite, outputs[name := WriteAt(before, GridPos(k, p.blockSize) + lo, data)],
               written[name := was + range], lo, hi, FlatIndex(p, j, k) + 1)
  {
    hide Par2Set.Proper, GridPos, Range, FileTiled, BlocksIn, Par2Set.TotalBlocks, WriteAt;
    var name, range := p.files[j].filename, Range(GridPos(k, p.blockSize) + lo, hi - lo);
    var was, before := WrittenOf(written, name), ContentOf(outputs, name);
    var after := WriteAt(before, GridPos(k, p.blockSize) + lo, data);
    TileBlock(was, |before|, BlocksIn(p, j), p.TotalBlocks(j), p.blockSize, lo, hi, k, |after|);
    forall l | 0 <= l < |p.files| && p.files[l].filename in needsWrite
      ensures OutputTiled(p, outputs[name := after], written[name := was + range], l, lo, hi, FlatIndex(p, j, k) + 1)
    {
      ProperFile(p, j);
      if l != j {
        OtherFile(p, j, k, l);
        TileOther(WrittenOf(written, p.files[l].filename), |ContentOf(outputs, p.files[l].filename)|,
                  BlocksIn(p, l), p.TotalBlocks(l), p.blockSize, lo, hi, FlatIndex(p, j, k));
      }
    }
  }

  /** The blocks of one file are not among those of another. */
  lemma OtherFile(p: Par2Set, j: nat, k: nat, l: nat)
    requires j < |p.files| && l < |p.files| && j != l && k < BlocksIn(p, j)
    ensures FlatIndex(p, j, k) < p.TotalBlocks(l) || FlatIndex(p, j, k) >= p.TotalBlocks(l) + BlocksIn(p, l)
  {
    if j < l {
      IndexBelow(p, j, k, l);
    } else {
      TotalGrows(p, l + 1, j);
    }
  }

  lemma FilledBlock(p: Par2Set, outputs: map<string, Bytes>, written: map<string, set<nat>>, orig: seq<Bytes>, j: nat,
                    k: nat, lo: nat, hi: nat)
    requires p.Proper() && j < |p.files| && k < BlocksIn(p, j) && lo < hi <= p.blockSize
    requires Filled(p, outputs, written, orig) && FlatIndex(p, j, k) < |orig| && hi <= |orig[FlatIndex(p, j, k)]|
    ensures var name, range := p.files[j].filename, Range(GridPos(k, p.blockSize) + lo, hi - lo);
      var was := WrittenOf(written, name);
      var before := ContentOf(outputs, name);
      Filled(p, outputs[name := WriteAt(before, GridPos(k, p.blockSize) + lo, orig[FlatIndex(p, j, k)][lo..hi])],
             written[name := was + range], orig)
  {
    hide Par2Set.Proper, GridPos, Range, ByteRestored, WriteAt;
    var name, range := p.files[j].filename, Range(GridPos(k, p.blockSize) + lo, hi - lo);
    var was := WrittenOf(written, name);
    var before := ContentOf(outputs, name);
    var data := orig[FlatIndex(p, j, k)][lo..hi];
    var outputs', written' :=
      outputs[name := WriteAt(before, GridPos(k, p.blockSize) + lo, data)], written[name := was + range];
    ProperFile(p, j);
    forall l, pos | 0 <= l < |p.files| && p.files[l].filename in written' && pos in written'[p.files[l].filename]
      ensures ByteRestored(p, outputs', orig, l, pos)
    {
      if l != j || pos in was {
        assert ByteRestored(p, outputs, orig, l, pos);
      }
      if l != j {
        RestoredElsewhere(p, outputs, name, WriteAt(before, GridPos(k, p.blockSize) + lo, data), orig, l, pos);
      } else {
        RestoredHere(p, outputs, orig, j, k, lo, hi, pos);
      }
    }
  }

  lemma RestoredElsewhere(p: Par2Set, outputs: map<string, Bytes>, name: string, content: Bytes, orig: seq<Bytes>, l: nat,
                          pos: nat)
    requires l < |p.files| && p.blockSize > 0 && ByteRestored(p, outputs, orig, l, pos) && p.files[l].filename != name
    ensures ByteRestored(p, outputs[name := content], orig, l, pos)
  {
  }

  lemma RestoredHere(p: Par2Set, outputs: map<string, Bytes>, orig: seq<Bytes>, j: nat, k: nat, lo: nat, hi: nat,
                     pos: nat)
    requires j < |p.files| && p.blockSize > 0 && lo < hi <= p.blockSize
    requires FlatIndex(p, j, k) < |orig| && hi <= |orig[FlatIndex(p, j, k)]|
    requires ByteRestored(p, outputs, orig, j, pos) || pos in Range(GridPos(k, p.blockSize) + lo, hi - lo)
    ensures var name := p.files[j].filename;
      var content := WriteAt(ContentOf(outputs, name), GridPos(k, p.blockSize) + lo, orig[FlatIndex(p, j, k)][lo..hi]);
      ByteRestored(p, outputs[name := content], orig, j, pos)
  {
    hide GridPos, Range, WriteAt;
    BlockRange(k, p.blockSize, lo, hi, pos);
  }

  // All chunks.

  /** Every file that has to be written has been: each byte of its blocks, and no other byte. */
  ghost predicate AllWritten(p: Par2Set, needsWrite: set<string>, outputs: map<string, Bytes>,
                             written: map<string, set<nat>>)
  {
    && outputs.Keys == written.Keys && outputs.Keys <= needsWrite
    && forall j :: 0 <= j < |p.files| && p.files[j].filename in needsWrite ==>
         var name := p.files[j].filename;
         && name in outputs && |outputs[name]| == GridPos(BlocksIn(p, j), p.blockSize)
         && forall pos: nat :: pos in written[name] <==> pos < GridPos(BlocksIn(p, j), p.blockSize)
  }

  lemma NothingWritten(p: Par2Set, needsWrite: set<string>, chunkSize: nat, orig: seq<Bytes>)
    requires p.blockSize > 0 && chunkSize > 0
    ensures AtChunk(p, needsWrite, map[], map[], chunkSize, 0) && Filled(p, map[], map[], orig)
  {
    hide NumChunks, FileTiled, BlocksIn, Par2Set.TotalBlocks;
    LastChunk(p.blockSize, chunkSize);
    forall j | 0 <= j < |p.files|
      ensures OutputTiled(p, map[], map[], j, 0, ChunkUpto(p.blockSize, chunkSize, 0), 0)
    {
      EmptyTile(BlocksIn(p, j), p.TotalBlocks(j), p.blockSize, ChunkUpto(p.blockSize, chunkSize, 0));
    }
  }

  lemma EmptyTile(count: nat, base: nat, blockSize: nat, hi: nat)
    requires blockSize > 0
    ensures FileTiled({}, 0, count, base, blockSize, 0, hi, 0)
  {
    hide GridPos;
  }

  lemma LastChunkWritten(p: Par2Set, needsWrite: set<string>, outputs: map<string, Bytes>,
                         written: map<string, set<nat>>, chunkSize: nat)
    requires p.Proper() && p.blockSize > 0 && chunkSize > 0
    requires AtChunk(p, needsWrite, outputs, written, chunkSize, NumChunks(p.blockSize, chunkSize))
    ensures AllWritten(p, needsWrite, outputs, written)
  {
    hide Par2Set.Proper, FileTiled, NumChunks, GridPos;
    var next := ChunkUpto(p.blockSize, chunkSize, NumChunks(p.blockSize, chunkSize));
    forall j | 0 <= j < |p.files| && p.files[j].filename in needsWrite
      ensures p.files[j].filename in outputs
      ensures |outputs[p.files[j].filename]| == GridPos(BlocksIn(p, j), p.blockSize)
      ensures forall pos: nat :: pos in written[p.files[j].filename] <==> pos < GridPos(BlocksIn(p, j), p.blockSize)
    {
      assert OutputTiled(p, outputs, written, j, p.blockSize, next, 0);
      TileComplete(WrittenOf(written, p.files[j].filename), |ContentOf(outputs, p.files[j].filename)|, BlocksIn(p, j),
                   p.TotalBlocks(j), p.blockSize, next);
      ProperFile(p, j);
      BlockInside(0, BlocksIn(p, j), p.blockSize);
    }
  }

  /** The output of fd, cut to its length, does not have the hash it should. */
  predicate WrongHash(p: Par2Set, outputs: map<string, Bytes>, fd: FileDesc) {
    fd.filename in outputs && p.md5(Truncate(outputs[fd.filename], fd.byteCount)) != fd.hash
  }

  function Truncate(content: Bytes, n: nat): (r: Bytes)
    ensures |r| == n
  {
    seq(n, b requires b >= 0 => if b < |content| then content[b] else 0)
  }

  /** The blocks orig are those of files with these contents. */
  ghost predicate BlocksOfContents(p: Par2Set, orig: seq<Bytes>, contents: seq<Bytes>) {
    && |contents| == |p.files| && |orig| == p.TotalBlocks(|p.files|)
    && (forall j :: 0 <= j < |p.files| ==> |contents[j]| == p.files[j].byteCount)
    && (forall j, k: nat :: 0 <= j < |p.files| && k < BlocksIn(p, j) ==>
          FlatIndex(p, j, k) < |orig|
          && orig[FlatIndex(p, j, k)] == BlockBytes(contents[j], p.files[j].byteCount, p.blockSize, k))
  }

  // What verification has located reads back.

  /** The packets describe these contents: lengths, file hashes, quick hashes and checksums of blocks are theirs. */
  ghost predicate Describes(p: Par2Set, orig: seq<Bytes>, contents: seq<Bytes>) {
    && BlocksOfContents(p, orig, contents)
    && (forall j :: 0 <= j < |p.files| ==>
          p.files[j].hash == p.md5(contents[j]) && p.files[j].sixteenKHash == p.md5(FirstBytes(contents[j], 16384)))
    && (forall j, k: nat :: 0 <= j < |p.files| && k < BlocksIn(p, j) ==>
          BlockDescribed(p, p.files[j].fileID, k, orig[FlatIndex(p, j, k)]))
  }

  predicate BlockDescribed(p: Par2Set, id: FileID, k: nat, block: Bytes) {
    id in p.checksums && k < |p.checksums[id]| ==> p.checksums[id][k] == ChecksumPair(p.md5(block), Crc32.Checksum(block))
  }

  /** The first n bytes, or all if there are fewer. */
  function FirstBytes(content: Bytes, n: nat): Bytes {
    if |content| <= n then content else content[..n]
  }

  /** An original file is right: by FoundOut, nothing failing, verification says that it is intact. */
  lemma OriginalIsRight(p: Par2Set, disk: Disk, orig: seq<Bytes>, contents: seq<Bytes>, j: nat)
    requires Describes(p, orig, contents) && j < |p.files|
    requires p.files[j].filename in disk && disk[p.files[j].filename] == contents[j]
    ensures Undamaged(p, disk, p.files[j])
  {
    hide BlockBytes;
    assert contents[j][..|contents[j]|] == contents[j];
  }

  /** Nothing on disk has the MD5 of an original file or block without being equal to it. */
  ghost predicate NoCollision(p: Par2Set, disk: Disk, orig: seq<Bytes>, contents: seq<Bytes>) {
    && (forall path, j :: path in disk && 0 <= j < |contents| && p.md5(disk[path]) == p.md5(contents[j]) ==>
          disk[path] == contents[j])
    && (forall path, offset: nat, limit: nat, i :: path in disk && 0 <= i < |orig| ==>
          var w := WindowBytes(disk[path], offset, limit, p.blockSize);
          p.md5(w) == p.md5(orig[i]) ==> w == orig[i])
  }

  /** The bytes that cutting off at limit hides are zeros, as they are when the file is no longer than that. */
  ghost predicate ZeroTail(content: Bytes, offset: nat, limit: nat, blockSize: nat) {
    forall at :: limit <= at < |content| && offset <= at < offset + blockSize ==> content[at] == 0
  }

  /** What a repair reads, which does not know of a limit, is what the scan has seen exactly if the tail is zero. */
  lemma ReadIsWindowIff(content: Bytes, offset: nat, limit: nat, blockSize: nat)
    ensures PaddedRead(content, offset, blockSize) == WindowBytes(content, offset, limit, blockSize) <==>
      ZeroTail(content, offset, limit, blockSize)
  {
    var r, w := PaddedRead(content, offset, blockSize), WindowBytes(content, offset, limit, blockSize);
    if r == w {
      forall at | limit <= at < |content| && offset <= at < offset + blockSize
        ensures content[at] == 0
      {
        assert r[at - offset] == w[at - offset];
      }
    } else {
      var b :| 0 <= b < blockSize && r[b] != w[b];
      assert content[offset + b] != 0;
    }
  }

  /** No located block is cut off by more than zeros. */
  ghost predicate NoneCutShort(p: Par2Set, disk: Disk, places: map<Block, Place>) {
    forall b :: b in places ==> NotCutShort(p, disk, places[b])
  }

  ghost predicate NotCutShort(p: Par2Set, disk: Disk, place: Place) {
    place.source in PathsOf(p) && PathsOf(p)[place.source] in disk && place.source in Ends(p, disk) ==>
      ZeroTail(disk[PathsOf(p)[place.source]], place.offset, Ends(p, disk)[place.source], p.blockSize)
  }

  /**
    The located half of Consistent follows from what VerifyScans establishes: if MD5 does not collide, and no file that
    a cut-off block is read from goes on beyond its protected length with anything but zeros, located blocks read back.
   */
  lemma VerifiedReadsBack(p: Par2Set, disk: Disk, places: map<Block, Place>, flat: seq<FlatLoc>, orig: seq<Bytes>,
                          contents: seq<Bytes>)
    requires p.Proper() && p.blockSize > 0 && AllJustified(p, disk, places) && NoneCutShort(p, disk, places)
    requires Flattened(p, places, flat, |p.files|, 0) && Describes(p, orig, contents)
    requires NoCollision(p, disk, orig, contents)
    ensures ReadsBack(disk, flat, p.blockSize, orig)
  {
    hide Par2Set.Proper, NoCollision, NoneCutShort, AllJustified, Describes, PlacesRead, Flattened, ReadsBack;
    BlockLengths(p, orig, contents);
    VerifiedPlaces(p, disk, places, orig, contents);
    PlacesToFlat(p, disk, places, flat, orig);
  }

  /** Every located block of a file is read as the original one from where it has been located. */
  ghost predicate PlacesRead(p: Par2Set, disk: Disk, places: map<Block, Place>, orig: seq<Bytes>) {
    p.blockSize > 0 && forall j, k: nat :: 0 <= j < |p.files| && k < BlocksIn(p, j) ==>
      var b := Block(p.files[j].fileID, k);
      b in places ==> BlockRead(p, disk, places[b], orig, FlatIndex(p, j, k))
  }

  ghost predicate BlockRead(p: Par2Set, disk: Disk, place: Place, orig: seq<Bytes>, i: nat) {
    && i < |orig| && SourceAt(p, disk, place).Some?
    && PaddedRead(SourceAt(p, disk, place).value, place.offset, p.blockSize) == orig[i]
  }

  lemma VerifiedPlaces(p: Par2Set, disk: Disk, places: map<Block, Place>, orig: seq<Bytes>, contents: seq<Bytes>)
    requires p.Proper() && p.blockSize > 0 && AllJustified(p, disk, places) && NoneCutShort(p, disk, places)
    requires Describes(p, orig, contents) && NoCollision(p, disk, orig, contents)
    ensures PlacesRead(p, disk, places, orig)
  {
    hide Par2Set.Proper, PaddedRead, PlacedByHash, PlacedByChecksums, NotCutShort, Describes, NoCollision, PathsOf;
    forall j, k: nat | 0 <= j < |p.files| && k < BlocksIn(p, j) && Block(p.files[j].fileID, k) in places
      ensures BlockRead(p, disk, places[Block(p.files[j].fileID, k)], orig, FlatIndex(p, j, k))
    {
      var b := Block(p.files[j].fileID, k);
      if PlacedByHash(p, disk, b, places[b]) {
        HashedReadsBack(p, disk, orig, contents, places[b], j, k);
      } else {
        MatchedReadsBack(p, disk, orig, contents, places[b], j, k);
      }
    }
  }

  lemma PlacesToFlat(p: Par2Set, disk: Disk, places: map<Block, Place>, flat: seq<FlatLoc>, orig: seq<Bytes>)
    requires PlacesRead(p, disk, places, orig) && Flattened(p, places, flat, |p.files|, 0)
    requires |orig| == p.TotalBlocks(|p.files|) && SameLength(orig, p.blockSize)
    ensures ReadsBack(disk, flat, p.blockSize, orig)
  {
    hide PaddedRead, Par2Set.TotalBlocks, PathsOf;
    forall i | 0 <= i < |flat| && flat[i].diskOffset >= 0
      ensures flat[i].source in disk && PaddedRead(disk[flat[i].source], flat[i].diskOffset, p.blockSize) == orig[i]
    {
      var j, k := Locate(p, |p.files|, i);
      assert flat[i] == LocOf(p, places, j, k);
      assert BlockRead(p, disk, places[Block(p.files[j].fileID, k)], orig, FlatIndex(p, j, k));
    }
  }

  lemma BlockLengths(p: Par2Set, orig: seq<Bytes>, contents: seq<Bytes>)
    requires Describes(p, orig, contents)
    ensures |orig| == p.TotalBlocks(|p.files|) && SameLength(orig, p.blockSize)
  {
    hide BlockBytes;
    forall i | 0 <= i < |orig|
      ensures |orig[i]| == p.blockSize
    {
      var j, k := Locate(p, |p.files|, i);
    }
  }

  lemma HashedReadsBack(p: Par2Set, disk: Disk, orig: seq<Bytes>, contents: seq<Bytes>, place: Place, j: nat, k: nat)
    requires p.Proper() && p.blockSize > 0 && Describes(p, orig, contents) && NoCollision(p, disk, orig, contents)
    requires j < |p.files| && k < BlocksIn(p, j) && PlacedByHash(p, disk, Block(p.files[j].fileID, k), place)
    ensures FlatIndex(p, j, k) < |orig| && place.source in PathsOf(p) && PathsOf(p)[place.source] in disk
    ensures PaddedRead(disk[PathsOf(p)[place.source]], place.offset, p.blockSize) == orig[FlatIndex(p, j, k)]
  {
    hide Par2Set.Proper, PathsOf, GridPos;
    ProperFile(p, j);
    var path := PathsOf(p)[place.source];
    var i :| 0 <= i < |p.files| && p.files[i].fileID == p.files[j].fileID && HasContent(p, disk, path, p.files[i]);
    assert i == j;
    assert disk[path] == contents[j];
  }

  lemma MatchedReadsBack(p: Par2Set, disk: Disk, orig: seq<Bytes>, contents: seq<Bytes>, place: Place, j: nat, k: nat)
    requires p.blockSize > 0 && Describes(p, orig, contents) && NoCollision(p, disk, orig, contents)
    requires j < |p.files| && k < BlocksIn(p, j) && PlacedByChecksums(p, disk, Block(p.files[j].fileID, k), place)
    requires NotCutShort(p, disk, place)
    ensures FlatIndex(p, j, k) < |orig| && place.source in PathsOf(p) && PathsOf(p)[place.source] in disk
    ensures PaddedRead(disk[PathsOf(p)[place.source]], place.offset, p.blockSize) == orig[FlatIndex(p, j, k)]
  {
    hide PathsOf, Ends, GridPos, PaddedRead, WindowBytes, BlockBytes;
    var content, pair := disk[PathsOf(p)[place.source]], p.checksums[p.files[j].fileID][k];
    var limit :| MayEnd(p, disk, place, limit) && IsBlockAt(p, content, place.offset, limit, pair);
    assert limit >= 0;
    ReadIsWindowIff(content, place.offset, limit, p.blockSize);
    assert WindowBytes(content, place.offset, limit, p.blockSize) == orig[FlatIndex(p, j, k)];
  }

  // Located blocks read back after renaming, too.

  lemma ReadAfterRenames(p: Par2Set, before: Disk, was: map<Block, Place>, planned: map<FileID, string>, after: Disk,
                         places: map<Block, Place>, damage: map<FileID, Damage>, orig: seq<Bytes>, contents: seq<Bytes>)
    requires p.Proper() && PlacesRead(p, before, was, orig) && Describes(p, orig, contents)
    requires AllFollow(p, before, was, planned, after, places, damage) && Assessed(p, after, damage, places)
    requires NoCollision(p, before, orig, contents) && OnlyMoved(before, after)
    requires forall b :: b in was ==> SafeFrom(p, planned, was[b], 0)
    ensures PlacesRead(p, after, places, orig)
  {
    hide Par2Set.Proper, PaddedRead, Describes, NoCollision, OnlyMoved, SourceAt, SafeFrom, Intact;
    forall j, k: nat | 0 <= j < |p.files| && k < BlocksIn(p, j) && Block(p.files[j].fileID, k) in places
      ensures BlockRead(p, after, places[Block(p.files[j].fileID, k)], orig, FlatIndex(p, j, k))
    {
      var b := Block(p.files[j].fileID, k);
      if PutRightFor(planned, damage, b) {
        IntactReads(p, before, after, places, orig, contents, j, k);
      } else {
        assert BlockRead(p, before, was[b], orig, FlatIndex(p, j, k));
      }
    }
  }

  /** The blocks of an intact file are the original ones. */
  lemma IntactReads(p: Par2Set, before: Disk, after: Disk, places: map<Block, Place>, orig: seq<Bytes>,
                    contents: seq<Bytes>, j: nat, k: nat)
    requires p.Proper() && p.blockSize > 0 && Describes(p, orig, contents) && NoCollision(p, before, orig, contents)
    requires OnlyMoved(before, after) && j < |p.files| && k < BlocksIn(p, j) && Intact(p, after, places, p.files[j])
    ensures Block(p.files[j].fileID, k) in places
    ensures BlockRead(p, after, places[Block(p.files[j].fileID, k)], orig, FlatIndex(p, j, k))
  {
    hide Par2Set.Proper, GridPos, PathsOf, NoCollision, Describes;
    PathOfFile(p, j);
    IntactIsOriginal(p, before, after, orig, contents, j);
    OriginalRead(p, orig, contents, j, k);
  }

  lemma IntactIsOriginal(p: Par2Set, before: Disk, after: Disk, orig: seq<Bytes>, contents: seq<Bytes>, j: nat)
    requires Describes(p, orig, contents) && NoCollision(p, before, orig, contents) && OnlyMoved(before, after)
    requires j < |p.files| && HasContent(p, after, p.files[j].filename, p.files[j])
    ensures j < |contents| && after[p.files[j].filename] == contents[j]
  {
    hide BlockBytes;
    var q :| q in before && before[q] == after[p.files[j].filename];
  }

  lemma OriginalRead(p: Par2Set, orig: seq<Bytes>, contents: seq<Bytes>, j: nat, k: nat)
    requires p.blockSize > 0 && Describes(p, orig, contents) && j < |p.files| && k < BlocksIn(p, j)
    ensures j < |contents| && FlatIndex(p, j, k) < |orig|
    ensures PaddedRead(contents[j], GridPos(k, p.blockSize), p.blockSize) == orig[FlatIndex(p, j, k)]
  {
    hide GridPos;
  }

  /** Every recovery block is its row of the matrix that PAR2 prescribes times the original blocks. */
  ghost predicate Encoded(p: Par2Set, orig: seq<Bytes>) {
    forall e :: e in p.parity ==> |p.parity[e]| == p.blockSize && IsRecovery(p, orig, e)
  }

  ghost predicate IsRecovery(p: Par2Set, orig: seq<Bytes>, e: nat)
    requires e in p.parity
  {
    forall pm: Rows :: e < |pm| && IsVandermonde(pm, |pm|, p.TotalBlocks(|p.files|), GeneratorsBelow(ORDER)) ==>
      IsApplied(pm[e], orig, p.parity[e])
  }

  /**
    What a repair can build on: packets and recovery blocks belong to these contents, MD5 does not collide, blocks have
    been identified as VerifyScans does, and no planned rename gets in the way of reading them.
   */
  ghost predicate Recoverable(p: Par2Set, disk: Disk, renames: map<FileID, string>, places: map<Block, Place>,
                              orig: seq<Bytes>, contents: seq<Bytes>)
  {
    && p.blockSize > 0 && AllJustified(p, disk, places) && NoneCutShort(p, disk, places)
    && Describes(p, orig, contents) && NoCollision(p, disk, orig, contents) && Encoded(p, orig)
    && forall b :: b in places ==> SafeFrom(p, renames, places[b], 0)
  }

  /** Located blocks are the original ones, and so are files with the right hash. */
  ghost predicate Rebuildable(p: Par2Set, disk: Disk, places: map<Block, Place>, orig: seq<Bytes>,
                              contents: seq<Bytes>)
  {
    && PlacesRead(p, disk, places, orig) && Encoded(p, orig) && BlocksOfContents(p, orig, contents)
    && |orig| == p.TotalBlocks(|p.files|) && SameLength(orig, p.blockSize) && |contents| == |p.files|
    && (forall j :: 0 <= j < |p.files| ==> p.files[j].hash == p.md5(contents[j]))
    && (forall j :: 0 <= j < |p.files| && HasContent(p, disk, p.files[j].filename, p.files[j]) ==>
          disk[p.files[j].filename] == contents[j])
  }

  /** What Recoverable comes to once the renames have been carried out. */
  lemma RecoverableAfter(p: Par2Set, before: Disk, planned: map<FileID, string>, was: map<Block, Place>, after: Disk,
                         places: map<Block, Place>, damage: map<FileID, Damage>, orig: seq<Bytes>, contents: seq<Bytes>)
    requires p.Proper() && Recoverable(p, before, planned, was, orig, contents)
    requires AllFollow(p, before, was, planned, after, places, damage) && Assessed(p, after, damage, places)
    requires OnlyMoved(before, after)
    ensures Rebuildable(p, after, places, orig, contents)
  {
    hide Par2Set.Proper, NoCollision, NoneCutShort, AllJustified, PlacesRead, AllFollow, Assessed, OnlyMoved, Encoded;
    hide SafeFrom, BlocksOfContents;
    BlockLengths(p, orig, contents);
    ContentsMany(p, orig, contents);
    VerifiedPlaces(p, before, was, orig, contents);
    ReadAfterRenames(p, before, was, planned, after, places, damage, orig, contents);
    forall j | 0 <= j < |p.files| && HasContent(p, after, p.files[j].filename, p.files[j])
      ensures after[p.files[j].filename] == contents[j]
    {
      IntactIsOriginal(p, before, after, orig, contents, j);
    }
  }

  lemma ContentsMany(p: Par2Set, orig: seq<Bytes>, contents: seq<Bytes>)
    requires BlocksOfContents(p, orig, contents)
    ensures |contents| == |p.files|
  {
    hide BlockBytes;
  }

  /** The work of a repair is on a consistent set. */
  lemma WorkCanBecome(p: Par2Set, disk: Disk, places: map<Block, Place>, work: Work, orig: seq<Bytes>,
                      contents: seq<Bytes>)
    requires PlacesRead(p, disk, places, orig) && Encoded(p, orig) && BlocksOfContents(p, orig, contents)
    requires |orig| == p.TotalBlocks(|p.files|) && SameLength(orig, p.blockSize)
    requires work.disk == disk && IsWork(p, places, work) && forall e :: e in p.parity ==> e < |work.matrix|
    ensures CanBecome(p, work, orig, contents) && AllReadable(disk, work.flat)
  {
    hide PlacesRead, Flattened, IsVandermonde, BlocksOfContents, IsApplied, GeneratorsBelow, Par2Set.TotalBlocks;
    PlacesToFlat(p, disk, places, work.flat, orig);
    forall e | e in p.parity
      ensures |p.parity[e]| == p.blockSize && IsApplied(work.matrix[e], orig, p.parity[e])
    {
      assert IsRecovery(p, orig, e);
    }
  }

  /** Every protected file has its original content. */
  ghost predicate Original(p: Par2Set, disk: Disk, contents: seq<Bytes>) {
    |contents| == |p.files| && forall j :: 0 <= j < |p.files| ==>
      p.files[j].filename in disk && disk[p.files[j].filename] == contents[j]
  }

  /** Rebuilt files are original, and the others were before and have not been written. */
  lemma AllOriginal(p: Par2Set, before: Disk, damage: map<FileID, Damage>, places: map<Block, Place>, limit: nat,
                    plan: Plan, after: Disk, contents: seq<Bytes>)
    requires p.Proper() && Assessed(p, before, damage, places) && PlanHolds(p, before, damage, places, limit, plan)
    requires RebuiltTo(p, damage, after, contents) && SameElsewhere(plan.needsWrite, before, after)
    requires |contents| == |p.files|
    requires forall j :: 0 <= j < |p.files| && HasContent(p, before, p.files[j].filename, p.files[j]) ==>
      before[p.files[j].filename] == contents[j]
    ensures Original(p, after, contents)
  {
    hide Par2Set.Proper, Flattened, AllIn;
    forall j | 0 <= j < |p.files|
      ensures p.files[j].filename in after && after[p.files[j].filename] == contents[j]
    {
      assert p.files[j].fileID in damage;
      if damage[p.files[j].fileID] == DamageNone {
        assert Intact(p, before, places, p.files[j]);
        NotWritten(p, before, damage, places, limit, plan, j);
      }
    }
  }

  lemma NotWritten(p: Par2Set, disk: Disk, damage: map<FileID, Damage>, places: map<Block, Place>, limit: nat,
                   plan: Plan, j: nat)
    requires p.Proper() && Assessed(p, disk, damage, places) && PlanHolds(p, disk, damage, places, limit, plan)
    requires j < |p.files| && p.files[j].fileID in damage && damage[p.files[j].fileID] == DamageNone
    ensures p.files[j].filename !in plan.needsWrite
  {
    hide Par2Set.Proper, Flattened, AllIn, HasContent;
    if p.files[j].filename in plan.needsWrite {
      var i :| 0 <= i < |p.files| && p.files[i].filename == p.files[j].filename && MustWrite(p, damage, places, p.files[i]);
      ProperFile(p, j);
    }
  }

  /** Cut to its length, what has been written for a file is the file's original content. */
  lemma OriginalContent(p: Par2Set, needsWrite: set<string>, outputs: map<string, Bytes>, written: map<string,
                        set<nat>>,
                        orig: seq<Bytes>, contents: seq<Bytes>, j: nat)
    requires p.Proper() && p.blockSize > 0 && j < |p.files| && p.files[j].filename in needsWrite
    requires AllWritten(p, needsWrite, outputs, written) && Filled(p, outputs, written, orig)
    requires BlocksOfContents(p, orig, contents)
    ensures Truncate(outputs[p.files[j].filename], p.files[j].byteCount) == contents[j]
  {
    hide Par2Set.Proper, GridPos, BlockBytes, AllWritten, Filled, BlocksOfContents;
    var fd := p.files[j];
    OutputShape(p, needsWrite, outputs, written, orig, contents, j);
    forall pos | 0 <= pos < fd.byteCount
      ensures Truncate(outputs[fd.filename], fd.byteCount)[pos] == contents[j][pos]
    {
      OriginalByte(p, needsWrite, outputs, written, orig, contents, j, pos);
    }
  }

  lemma OutputShape(p: Par2Set, needsWrite: set<string>, outputs: map<string, Bytes>, written: map<string, set<nat>>,
                    orig: seq<Bytes>, contents: seq<Bytes>, j: nat)
    requires p.Proper() && p.blockSize > 0 && j < |p.files| && p.files[j].filename in needsWrite
    requires AllWritten(p, needsWrite, outputs, written) && BlocksOfContents(p, orig, contents)
    ensures p.files[j].filename in outputs && |contents| == |p.files| && |contents[j]| == p.files[j].byteCount
    ensures p.files[j].byteCount <= GridPos(BlocksIn(p, j), p.blockSize) == |outputs[p.files[j].filename]|
  {
    hide Par2Set.Proper, GridPos, BlockBytes;
    ProperFile(p, j);
    LastBlock(p.files[j].byteCount, p.blockSize);
    BlockInside(BlocksIn(p, j) - 1, BlocksIn(p, j), p.blockSize);
  }

  lemma OriginalByte(p: Par2Set, needsWrite: set<string>, outputs: map<string, Bytes>, written: map<string, set<nat>>,
                     orig: seq<Bytes>, contents: seq<Bytes>, j: nat, pos: nat)
    requires p.blockSize > 0 && j < |p.files| && p.files[j].filename in needsWrite && pos < p.files[j].byteCount
    requires AllWritten(p, needsWrite, outputs, written) && Filled(p, outputs, written, orig)
    requires BlocksOfContents(p, orig, contents)
    requires p.files[j].byteCount <= GridPos(BlocksIn(p, j), p.blockSize)
    ensures p.files[j].filename in outputs && pos < |outputs[p.files[j].filename]|
    ensures outputs[p.files[j].filename][pos] == contents[j][pos]
  {
    hide GridPos, BlockBytes, BlocksIn, Par2Set.TotalBlocks;
    assert pos in written[p.files[j].filename];
    assert ByteRestored(p, outputs, orig, j, pos);
    BlockNumber(pos, BlocksIn(p, j), p.blockSize);
    var k := pos / p.blockSize;
    BlockRange(k, p.blockSize, 0, p.blockSize, pos);
    BlockByte(contents[j], p.files[j].byteCount, p.blockSize, k, pos);
  }

  lemma BlockByte(content: Bytes, byteCount: nat, blockSize: nat, k: nat, pos: nat)
    requires blockSize > 0 && pos < byteCount == |content| && pos == GridPos(k, blockSize) + pos % blockSize
    ensures BlockBytes(content, byteCount, blockSize, k)[pos % blockSize] == content[pos]
  {
    hide GridPos;
    DivModSum(pos, blockSize);
  }

  // Installing.

  /** Whatever else has happened, every path holds its old content or a rebuilt file with the right hash. */
  ghost predicate KeptOrRight(p: Par2Set, before: Disk, after: Disk) {
    && before.Keys <= after.Keys
    && forall path :: path in after ==>
         || (path in before && after[path] == before[path])
         || exists i :: 0 <= i < |p.files| && p.files[i].filename == path && HasContent(p, after, path, p.files[i])
  }

  lemma KeptAtFirst(p: Par2Set, disk: Disk)
    ensures KeptOrRight(p, disk, disk)
  {
  }

  lemma InstallOne(p: Par2Set, before: Disk, disk: Disk, i: nat, content: Bytes)
    requires KeptOrRight(p, before, disk) && i < |p.files| && p.md5(content) == p.files[i].hash
    ensures KeptOrRight(p, before, disk[p.files[i].filename := content])
  {
    var after := disk[p.files[i].filename := content];
    assert HasContent(p, after, p.files[i].filename, p.files[i]);
    forall path | path in disk && path != p.files[i].filename && !(path in before && disk[path] == before[path])
      ensures exists j :: 0 <= j < |p.files| && p.files[j].filename == path && HasContent(p, after, path, p.files[j])
    {
      var j :| 0 <= j < |p.files| && p.files[j].filename == path && HasContent(p, disk, path, p.files[j]);
      assert HasContent(p, after, path, p.files[j]);
    }
  }

  // Planning, and the repair as a whole.

  const MAX_EXPONENT: nat := 32767

  /** What verification has established, and what the parser has checked. */
  ghost predicate Verified(d: Decoder)
    reads d
  {
    Prepared(d) && d.IsSound() && Assessed(d.p, d.disk, d.damage, d.places)
  }

  /** What is left of that whatever renaming does. */
  ghost predicate Prepared(d: Decoder)
    reads d
  {
    && d.p.Proper() && Planned(d.p, d.damage, d.renames)
    && d.p.blockSize % 4 == 0 && d.p.TotalBlocks(|d.p.files|) <= MAX_BLOCKS
    && forall e :: e in d.p.parity ==> e <= MAX_EXPONENT
  }

  /** repairPlan */
  datatype Plan = Plan(chunkSize: nat, parityShards: nat, flat: seq<FlatLoc>, needsWrite: set<string>)

  method MaxExponent(parity: map<nat, Bytes>) returns (max: nat)
    ensures forall e :: e in parity ==> e <= max
    ensures max == 0 || max in parity
  {
    max := 0;
    var rest := parity.Keys;
    while rest != {}
      invariant rest <= parity.Keys && (max == 0 || max in parity)
      invariant forall e :: e in parity && e !in rest ==> e <= max
      decreases rest
    {
      var e :| e in rest;
      rest := rest - {e};
      if e > max {
        max := e;
      }
    }
  }

  /** validateParityShards */
  method ValidateParityShards(p: Par2Set) returns (ok: bool)
    ensures ok <==> forall e :: e in p.parity ==> |p.parity[e]| == p.blockSize
  {
    ok := true;
    var rest := p.parity.Keys;
    while rest != {}
      invariant rest <= p.parity.Keys && ok
      invariant forall e :: e in p.parity && e !in rest ==> |p.parity[e]| == p.blockSize
      decreases rest
    {
      var e :| e in rest;
      rest := rest - {e};
      if |p.parity[e]| != p.blockSize {
        return false;
      }
    }
  }

  /** planRepair */
  method PlanRepair(d: Decoder, memoryLimit: nat) returns (plan: Option<Plan>, err: Option<RepairError>)
    requires Prepared(d) && d.p.TotalBlocks(|d.p.files|) > 0
    ensures plan.Some? <==> err.None?
    ensures err.None? || err == Some(BadParityLength)
    ensures err == Some(BadParityLength) <==> exists e :: e in d.p.parity && |d.p.parity[e]| != d.p.blockSize
    ensures plan.Some? ==> PlanHolds(d.p, d.disk, d.damage, d.places, memoryLimit, plan.value)
  {
    hide *;
    var p := d.p;
    PreparedFacts(d);
    var ok := ValidateParityShards(p);
    if !ok {
      return None, Some(BadParityLength);
    }
    var total := p.TotalBlocks(|p.files|);
    var counts := d.CountShards();
    var maxExp := MaxExponent(p.parity);
    var chunkSize := ComputeChunkSize(memoryLimit, p.blockSize, total, counts.unusableData);
    var flat := BuildFlatLocs(p, d.places);
    var needsWrite := d.BuildNeedsWrite();
    plan, err := Some(Plan(chunkSize.value, maxExp + 1, flat, needsWrite)), None;
    PlanMade(p, d.disk, d.damage, d.places, memoryLimit, plan.value, counts.unusableData);
  }

  lemma PreparedFacts(d: Decoder)
    requires Prepared(d)
    ensures d.p.blockSize > 0 && forall i :: 0 <= i < |d.p.files| ==> d.p.files[i].fileID in d.damage
    ensures CountsOf(d.p, d.damage, d.renames, d.places).unusableData == Unusable(d.p, d.places, |d.p.files|)
  {
    hide Par2Set.Proper;
  }

  lemma PlanMade(p: Par2Set, disk: Disk, damage: map<FileID, Damage>, places: map<Block, Place>, memoryLimit: nat,
                 plan: Plan, unusable: nat)
    requires p.blockSize > 0 && plan.chunkSize >= 16 && plan.chunkSize % 16 == 0
    requires unusable == Unusable(p, places, |p.files|)
    requires plan.chunkSize * (p.TotalBlocks(|p.files|) + unusable) <= memoryLimit || plan.chunkSize == 16
    requires Flattened(p, places, plan.flat, |p.files|, 0) && plan.parityShards > 0
    requires forall e :: e in p.parity ==> e < plan.parityShards && |p.parity[e]| == p.blockSize
    requires plan.parityShards == 1 || plan.parityShards - 1 in p.parity
    requires forall name :: name in plan.needsWrite <==>
      exists i :: 0 <= i < |p.files| && p.files[i].filename == name && MustWrite(p, damage, places, p.files[i])
    ensures PlanHolds(p, disk, damage, places, memoryLimit, plan)
  {
    hide Flattened, MustWrite, Unusable, Par2Set.TotalBlocks;
  }

  ghost predicate PlanHolds(p: Par2Set, disk: Disk, damage: map<FileID, Damage>, places: map<Block, Place>,
                            memoryLimit: nat, plan: Plan)
  {
    && p.blockSize > 0 && plan.chunkSize >= 16 && plan.chunkSize % 16 == 0
    && (var buffers := p.TotalBlocks(|p.files|) + Unusable(p, places, |p.files|);
        plan.chunkSize * buffers <= memoryLimit || plan.chunkSize == 16)
    && Flattened(p, places, plan.flat, |p.files|, 0)
    && plan.parityShards > 0 && (forall e :: e in p.parity ==> e < plan.parityShards && |p.parity[e]| == p.blockSize)
    && (plan.parityShards == 1 || plan.parityShards - 1 in p.parity)
    && forall name :: name in plan.needsWrite <==>
         exists i :: 0 <= i < |p.files| && p.files[i].filename == name && MustWrite(p, damage, places, p.files[i])
  }

  /** A set may have as many blocks as there are generators. */
  lemma BlockLimit()
    ensures MAX_BLOCKS == |GeneratorsBelow(ORDER)|
  {
    EnoughGenerators();
  }

  /**
    What a repair worked on: the disk after renaming, the row of blocks and the matrix that the recovery blocks
    come from.
   */
  datatype Work = Work(disk: Disk, flat: seq<FlatLoc>, matrix: Rows)

  /** The set can be repaired to the given contents. */
  ghost predicate CanBecome(p: Par2Set, work: Work, orig: seq<Bytes>, contents: seq<Bytes>) {
    Consistent(work.disk, work.flat, p.parity, work.matrix, p.blockSize, orig) && BlocksOfContents(p, orig, contents)
  }

  /** The part of Repair from the plan on. */
  method RunRepair(d: Decoder, ctx: Context, g: Package, generators: seq<T>, plan: Plan, numGoroutines: int,
                   defaultGoroutines: nat, ghost orig: seq<Bytes>, ghost contents: seq<Bytes>)
    returns (err: Option<RepairError>, ghost work: Work)
    requires Prepared(d) && d.p.TotalBlocks(|d.p.files|) > 0 && Unusable(d.p, d.places, |d.p.files|) <= |d.p.parity|
    requires exists limit :: PlanHolds(d.p, d.disk, d.damage, d.places, limit, plan)
    requires g.Ready() && generators == GeneratorsBelow(ORDER) && defaultGoroutines > 0
    modifies d`disk, ctx
    ensures KeptOrRight(d.p, old(d.disk), d.disk)
    ensures err.None? ==> Rebuilt(d.p, d.damage, d.disk)
    ensures err.None? && CanBecome(d.p, work, orig, contents) ==> RebuiltTo(d.p, d.damage, d.disk, contents)
    ensures work.disk == old(d.disk) && IsWork(d.p, d.places, work) && |work.matrix| == plan.parityShards
    ensures (old(ctx.failed) ==> ctx.failed) && SameElsewhere(plan.needsWrite, old(d.disk), d.disk)
    ensures err == Some(HashMismatch) && CanBecome(d.p, work, orig, contents) ==>
      exists i :: 0 <= i < |d.p.files| && d.p.md5(contents[i]) != d.p.files[i].hash
    ensures err.Some? ==>
      || err.value == HashMismatch || (err.value == WriteFailed && ctx.failed)
      || (err.value == RepairCancelled && ctx.cancelled)
      || IsFailure(d.p, d.places, work.disk, work.flat, plan.parityShards, ctx.cancelled, ctx.failed, err.value)
  {
    hide Par2Set.Proper, Planned, Flattened, Package.Ready, Coder.Valid, GeneratorsBelow, IsVandermonde, Filled;
    hide AllWritten, Consistent, BlocksOfContents, KeptOrRight, UsedExponents, Consecutive, Unusable;
    hide Par2Set.TotalBlocks;
    hide WrongHash, PlanHolds, Rebuilt, RebuiltTo, Truncate, HasContent, IsWork;
    KeptAtFirst(d.p, d.disk);
    ghost var limit :| PlanHolds(d.p, d.disk, d.damage, d.places, limit, plan);
    PlanFacts(d.p, d.disk, d.damage, d.places, limit, plan);
    EnoughGenerators();
    var c, coderErr := NewCoder(g, generators, d.p.TotalBlocks(|d.p.files|), plan.parityShards);
    CoderMatrix(c.value);
    ghost var pm := c.value.parityMatrix.View();
    work := Work(d.disk, plan.flat, pm);
    WorkIs(d.p, d.places, work, plan.parityShards);
    var pipeline := new Pipeline(d.p, plan.flat, plan.needsWrite);
    err := pipeline.RunChunks(ctx, g, c.value, d.disk, plan.chunkSize, numGoroutines, defaultGoroutines, d.places, pm, orig);
    if err.Some? {
      return;
    }
    ghost var outputs, written := pipeline.outputs, pipeline.written;
    NothingLeftOut(d.p, d.disk, d.damage, d.places, limit, plan, outputs, written);
    if CanBecome(d.p, work, orig, contents) {
      OriginalContents(d.p, plan.needsWrite, outputs, written, orig, contents);
    }
    err := pipeline.Install(ctx, d);
    if err.None? {
      InstalledIsRebuilt(d.p, work.disk, d.damage, d.places, limit, plan, outputs, d.disk, contents);
    } else if err == Some(HashMismatch) && CanBecome(d.p, work, orig, contents) {
      WrongContent(d.p, plan.needsWrite, outputs, written, contents);
    }
  }

  /** There is an output for every file that has to be written. */
  lemma NothingLeftOut(p: Par2Set, disk: Disk, damage: map<FileID, Damage>, places: map<Block, Place>, limit: nat,
                       plan: Plan, outputs: map<string, Bytes>, written: map<string, set<nat>>)
    requires PlanHolds(p, disk, damage, places, limit, plan) && AllWritten(p, plan.needsWrite, outputs, written)
    ensures outputs.Keys == plan.needsWrite
  {
    hide MustWrite, Flattened;
  }

  lemma OriginalContents(p: Par2Set, needsWrite: set<string>, outputs: map<string, Bytes>, written: map<string,
                         set<nat>>,
                         orig: seq<Bytes>, contents: seq<Bytes>)
    requires p.Proper() && p.blockSize > 0 && AllWritten(p, needsWrite, outputs, written)
    requires Filled(p, outputs, written, orig) && BlocksOfContents(p, orig, contents)
    ensures |contents| == |p.files|
    ensures forall j :: 0 <= j < |p.files| && p.files[j].filename in needsWrite ==>
      p.files[j].filename in outputs && Truncate(outputs[p.files[j].filename], p.files[j].byteCount) == contents[j]
  {
    hide Par2Set.Proper, Filled, Truncate, BlockBytes;
    forall j | 0 <= j < |p.files| && p.files[j].filename in needsWrite
      ensures Truncate(outputs[p.files[j].filename], p.files[j].byteCount) == contents[j]
    {
      OriginalContent(p, needsWrite, outputs, written, orig, contents, j);
    }
  }

  lemma InstalledIsRebuilt(p: Par2Set, before: Disk, damage: map<FileID, Damage>, places: map<Block, Place>, limit: nat,
                           plan: Plan, outputs: map<string, Bytes>, disk: Disk, contents: seq<Bytes>)
    requires PlanHolds(p, before, damage, places, limit, plan)
    requires forall i :: 0 <= i < |p.files| && p.files[i].filename in plan.needsWrite ==>
      && p.files[i].filename in outputs && HasContent(p, disk, p.files[i].filename, p.files[i])
      && disk[p.files[i].filename] == Truncate(outputs[p.files[i].filename], p.files[i].byteCount)
    ensures Rebuilt(p, damage, disk)
    ensures |contents| == |p.files| && (forall j :: 0 <= j < |p.files| && p.files[j].filename in plan.needsWrite ==>
        p.files[j].filename in outputs && Truncate(outputs[p.files[j].filename], p.files[j].byteCount) == contents[j]) ==>
      RebuiltTo(p, damage, disk, contents)
  {
    hide Flattened, AllIn, Truncate;
    forall i | 0 <= i < |p.files| && p.files[i].fileID in damage && NeedsRebuild(damage[p.files[i].fileID])
      ensures p.files[i].filename in plan.needsWrite
    {
      assert MustWrite(p, damage, places, p.files[i]);
    }
  }

  lemma WrongContent(p: Par2Set, needsWrite: set<string>, outputs: map<string, Bytes>, written: map<string, set<nat>>,
                     contents: seq<Bytes>)
    requires AllWritten(p, needsWrite, outputs, written) && |contents| == |p.files|
    requires forall j :: 0 <= j < |p.files| && p.files[j].filename in needsWrite ==>
      p.files[j].filename in outputs && Truncate(outputs[p.files[j].filename], p.files[j].byteCount) == contents[j]
    requires exists i :: 0 <= i < |p.files| && WrongHash(p, outputs, p.files[i])
    ensures exists i :: 0 <= i < |p.files| && p.md5(contents[i]) != p.files[i].hash
  {
    hide Truncate;
    var i :| 0 <= i < |p.files| && WrongHash(p, outputs, p.files[i]);
    assert p.md5(contents[i]) != p.files[i].hash;
  }

  lemma PlanFacts(p: Par2Set, disk: Disk, damage: map<FileID, Damage>, places: map<Block, Place>, limit: nat,
                  plan: Plan)
    requires PlanHolds(p, disk, damage, places, limit, plan) && p.TotalBlocks(|p.files|) <= MAX_BLOCKS
    requires forall e :: e in p.parity ==> e <= MAX_EXPONENT
    ensures p.blockSize > 0 && plan.chunkSize >= 16 && plan.chunkSize % 16 == 0
    ensures Flattened(p, places, plan.flat, |p.files|, 0) && |plan.flat| == p.TotalBlocks(|p.files|)
    ensures 0 < plan.parityShards <= MAX_EXPONENT + 1
    ensures forall e :: e in p.parity ==> e < plan.parityShards && |p.parity[e]| == p.blockSize
  {
    hide MustWrite, PathsOf;
  }

  lemma WorkIs(p: Par2Set, places: map<Block, Place>, work: Work, rows: nat)
    requires Flattened(p, places, work.flat, |p.files|, 0)
    requires IsVandermonde(work.matrix, rows, p.TotalBlocks(|p.files|), GeneratorsBelow(ORDER))
    ensures IsWork(p, places, work) && |work.matrix| == rows
  {
    hide Flattened, GeneratorsBelow;
  }

  lemma CoderMatrix(c: Coder)
    requires c.Valid()
    ensures c.parityMatrix.Valid()
    ensures IsVandermonde(c.parityMatrix.View(), c.parityShards, c.dataShards, GeneratorsBelow(ORDER))
  {
    hide GeneratorsBelow;
  }

  /** Every file that had to be rebuilt has the right hash. */
  ghost predicate Rebuilt(p: Par2Set, damage: map<FileID, Damage>, disk: Disk) {
    forall i :: 0 <= i < |p.files| && p.files[i].fileID in damage && NeedsRebuild(damage[p.files[i].fileID]) ==>
      HasContent(p, disk, p.files[i].filename, p.files[i])
  }

  /** Every file that had to be rebuilt has its original content. */
  ghost predicate RebuiltTo(p: Par2Set, damage: map<FileID, Damage>, disk: Disk, contents: seq<Bytes>) {
    |contents| == |p.files| && forall i ::
      0 <= i < |p.files| && p.files[i].fileID in damage && NeedsRebuild(damage[p.files[i].fileID]) ==>
      p.files[i].filename in disk && disk[p.files[i].filename] == contents[i]
  }

  /** The row of blocks is that of the files, and the matrix is the one PAR2 prescribes. */
  ghost predicate IsWork(p: Par2Set, places: map<Block, Place>, work: Work) {
    && Flattened(p, places, work.flat, |p.files|, 0)
    && IsVandermonde(work.matrix, |work.matrix|, p.TotalBlocks(|p.files|), GeneratorsBelow(ORDER))
  }

  /**
    The part of Repair after the renames. What it achieves depends on whether the assessment still holds, and on whether
    what has been located is original.
   */
  method RepairRenamed(d: Decoder, ctx: Context, g: Package, generators: seq<T>, memoryLimit: nat, numGoroutines: int,
                       defaultGoroutines: nat, ghost orig: seq<Bytes>, ghost contents: seq<Bytes>)
    returns (err: Option<RepairError>, ghost work: Option<Work>)
    requires Prepared(d) && g.Ready() && generators == GeneratorsBelow(ORDER) && defaultGoroutines > 0
    modifies d`disk, ctx
    ensures KeptOrRight(d.p, old(d.disk), d.disk) && (old(ctx.failed) ==> ctx.failed)
    ensures old(StillVerified(d)) && err.None? ==> AllRight(d.p, d.disk)
    ensures work.Some? ==> IsWork(d.p, d.places, work.value) && work.value.disk == old(d.disk)
    ensures work.None? ==> d.disk == old(d.disk)
    ensures work.Some? && err.None? && CanBecome(d.p, work.value, orig, contents) ==>
      RebuiltTo(d.p, d.damage, d.disk, contents)
    ensures work.Some? && err == Some(HashMismatch) && CanBecome(d.p, work.value, orig, contents) ==>
      exists i :: 0 <= i < |d.p.files| && d.p.md5(contents[i]) != d.p.files[i].hash
    ensures err == Some(RepairImpossible) ==> Unusable(d.p, d.places, |d.p.files|) > |d.p.parity|
    ensures err.Some? ==> !err.value.CoderFailed? || err.value.error == ContextCancelled || err.value.error == SingularSystem
    ensures old(StillVerified(d) && Rebuildable(d.p, d.disk, d.places, orig, contents)) ==>
      Achieved(d.p, d.places, work, d.disk, contents, err, ctx.failed, ctx.cancelled)
  {
    hide Par2Set.Proper, Sound, Assessed, Flattened, Package.Ready, GeneratorsBelow, IsVandermonde, Rebuildable;
    hide IsWork, RebuiltTo, CanBecome, PlanHolds, KeptOrRight, UsedExponents, Consecutive, Par2Set.TotalBlocks;
    hide Unusable, AllRight, Planned, Rebuilt, Achieved, SameElsewhere, AllReadable;
    work := None;
    ghost var verified := StillVerified(d);
    ghost var original := Rebuildable(d.p, d.disk, d.places, orig, contents);
    KeptAtFirst(d.p, d.disk);
    PlannedDamage(d.p, d.damage, d.renames);
    var counts := d.CountShards();
    if !counts.RepairNeeded() {
      if verified {
        NotNeeded(d.p, d.disk, d.damage, d.renames, d.places);
        if original {
          RightIsOriginal(d.p, d.places, d.disk, orig, contents, ctx.failed, ctx.cancelled);
        }
      }
      return None, None;
    }
    if !counts.RepairPossible() {
      TooFew(d.p, d.places, d.disk, contents, ctx.failed, ctx.cancelled);
      return Some(RepairImpossible), None;
    }
    SomeBlocks(d.p, d.disk, d.damage, d.renames, d.places);
    var plan;
    plan, err := PlanRepair(d, memoryLimit);
    if err.Some? {
      if original {
        EncodedLengths(d.p, d.disk, d.places, orig, contents);
      }
      return;
    }
    ghost var done: Work;
    err, done := RunRepair(d, ctx, g, generators, plan.value, numGoroutines, defaultGoroutines, orig, contents);
    work := Some(done);
    if verified {
      if original {
        RepairedOriginal(d.p, old(d.disk), d.damage, d.places, memoryLimit, plan.value, done, d.disk, orig, contents, err,
                         ctx.failed, ctx.cancelled);
      }
      if err.None? {
        KeptIsProtected(d.p, old(d.disk), d.disk);
        RebuiltIsRight(d.p, old(d.disk), d.damage, d.places, d.disk);
      }
    }
  }

  ghost predicate StillVerified(d: Decoder)
    reads d
  {
    d.IsSound() && Assessed(d.p, d.disk, d.damage, d.places)
  }

  lemma PlannedDamage(p: Par2Set, damage: map<FileID, Damage>, renames: map<FileID, string>)
    requires Planned(p, damage, renames)
    ensures p.blockSize > 0 && forall i :: 0 <= i < |p.files| ==> p.files[i].fileID in damage
  {
  }

  /** Success leaves the original contents; and if nothing failed, a failure has one of two reasons. */
  ghost predicate Achieved(p: Par2Set, places: map<Block, Place>, work: Option<Work>, disk: Disk, contents: seq<Bytes>,
                           err: Option<RepairError>, failed: bool, cancelled: bool)
  {
    && (err.None? ==> Original(p, disk, contents))
    && (err.Some? && !failed && !cancelled ==> Unrepairable(p, places, work, err.value))
  }

  /**
    Repair, after VerifyScans. That success means that all files are right, and that nothing else is lost, rests on the
    planned renames being apart. For a recoverable set it means that all files have their original contents; and
    unless some access fails, it is only denied if recovery blocks are too few or not apart.
   */
  method RepairSet(d: Decoder, ctx: Context, g: Package, generators: seq<T>, memoryLimit: nat, numGoroutines: int,
                   defaultGoroutines: nat, ghost orig: seq<Bytes>, ghost contents: seq<Bytes>)
    returns (err: Option<RepairError>, ghost work: Option<Work>)
    requires Verified(d) && g.Ready() && generators == GeneratorsBelow(ORDER) && defaultGoroutines > 0
    modifies d`disk, d`damage, d`renames, d`places, ctx
    ensures forall i :: 0 <= i < |d.p.files| ==> d.p.files[i].fileID !in d.renames
    ensures !ctx.failed ==>
      DiskAfter(d.p, old(d.disk), old(d.renames), |d.p.files|) == if work.Some? then work.value.disk else d.disk
    ensures old(Apart(d.p, d.damage, d.renames)) ==> ProtectedKept(d.p, old(d.disk), d.disk, old(d.renames).Values)
    ensures old(Apart(d.p, d.damage, d.renames)) && err.None? ==> AllRight(d.p, d.disk)
    ensures work.Some? ==> IsWork(d.p, d.places, work.value)
    ensures old(Apart(d.p, d.damage, d.renames)) && work.Some? ==>
      ProtectedKept(d.p, old(d.disk), work.value.disk, old(d.renames).Values)
    ensures work.Some? && err.None? && CanBecome(d.p, work.value, orig, contents) ==>
      RebuiltTo(d.p, d.damage, d.disk, contents)
    ensures work.Some? && err == Some(HashMismatch) && CanBecome(d.p, work.value, orig, contents) ==>
      exists i :: 0 <= i < |d.p.files| && d.p.md5(contents[i]) != d.p.files[i].hash
    ensures err == Some(RepairImpossible) ==> Unusable(d.p, d.places, |d.p.files|) > |d.p.parity|
    ensures err.Some? ==> !err.value.CoderFailed? || err.value.error == ContextCancelled || err.value.error == SingularSystem
    ensures old(Apart(d.p, d.damage, d.renames) && Recoverable(d.p, d.disk, d.renames, d.places, orig, contents)) ==>
      Achieved(d.p, d.places, work, d.disk, contents, err, ctx.failed, ctx.cancelled)
  {
    hide Par2Set.Proper, Sound, Assessed, Package.Ready, GeneratorsBelow, ProtectedKept, Apart, Recoverable, AllFollow;
    hide OnlyMoved, Rebuildable, IsWork, RebuiltTo, CanBecome, KeptOrRight, Par2Set.TotalBlocks, Unusable, AllRight;
    hide Achieved, Planned, InOrder, DiskAfter;
    ghost var apart, taken := Apart(d.p, d.damage, d.renames), d.renames.Values;
    ghost var recoverable := Recoverable(d.p, d.disk, d.renames, d.places, orig, contents);
    if apart {
      InOrderAtFirst(d.p, d.disk, d.damage, d.renames, d.places);
    }
    var renamed := d.RenameMisnamedFiles(ctx);
    ghost var before := d.disk;
    if apart && recoverable {
      RecoverableAfter(d.p, old(d.disk), old(d.renames), old(d.places), d.disk, d.places, d.damage, orig, contents);
    }
    err, work := RepairRenamed(d, ctx, g, generators, memoryLimit, numGoroutines, defaultGoroutines, orig, contents);
    if apart {
      KeptIsProtected(d.p, before, d.disk);
      KeptTrans(d.p, old(d.disk), before, d.disk, taken, {});
    }
  }

  lemma InOrderAtFirst(p: Par2Set, disk: Disk, damage: map<FileID, Damage>, renames: map<FileID, string>,
                       places: map<Block, Place>)
    requires Sound(p, disk, damage, renames, places) && Assessed(p, disk, damage, places) && Apart(p, damage, renames)
    ensures InOrder(p, disk, damage, renames, places, 0)
  {
    hide Sound, Assessed, Apart;
  }

  /** Too few recovery blocks, or a singular system, for which those used are not consecutive. */
  ghost predicate Unrepairable(p: Par2Set, places: map<Block, Place>, work: Option<Work>, err: RepairError) {
    || (err == RepairImpossible && Unusable(p, places, |p.files|) > |p.parity|)
    || (err == CoderFailed(SingularSystem) && work.Some?
        && !Consecutive(UsedExponents(p, places, |work.value.matrix|)))
  }

  lemma EncodedLengths(p: Par2Set, disk: Disk, places: map<Block, Place>, orig: seq<Bytes>, contents: seq<Bytes>)
    requires Rebuildable(p, disk, places, orig, contents)
    ensures forall e :: e in p.parity ==> |p.parity[e]| == p.blockSize
  {
    hide IsRecovery, PlacesRead, BlocksOfContents;
  }

  lemma RightIsOriginal(p: Par2Set, places: map<Block, Place>, disk: Disk, orig: seq<Bytes>, contents: seq<Bytes>,
                        failed: bool, cancelled: bool)
    requires AllRight(p, disk) && Rebuildable(p, disk, places, orig, contents)
    ensures Achieved(p, places, None, disk, contents, None, failed, cancelled)
  {
    hide PlacesRead, BlocksOfContents, Encoded;
  }

  lemma TooFew(p: Par2Set, places: map<Block, Place>, disk: Disk, contents: seq<Bytes>, failed: bool, cancelled: bool)
    requires Unusable(p, places, |p.files|) > |p.parity|
    ensures Achieved(p, places, None, disk, contents, Some(RepairImpossible), failed, cancelled)
  {
  }

  /** What RunRepair achieves on a recoverable set. */
  lemma RepairedOriginal(p: Par2Set, before: Disk, damage: map<FileID, Damage>, places: map<Block, Place>, limit: nat,
                         plan: Plan, work: Work, after: Disk, orig: seq<Bytes>, contents: seq<Bytes>,
                         err: Option<RepairError>, failed: bool, cancelled: bool)
    requires p.Proper() && Assessed(p, before, damage, places) && PlanHolds(p, before, damage, places, limit, plan)
    requires Rebuildable(p, before, places, orig, contents)
    requires work.disk == before && IsWork(p, places, work) && |work.matrix| == plan.parityShards
    requires SameElsewhere(plan.needsWrite, before, after)
    requires err.None? && CanBecome(p, work, orig, contents) ==> RebuiltTo(p, damage, after, contents)
    requires err == Some(HashMismatch) && CanBecome(p, work, orig, contents) ==>
      exists i :: 0 <= i < |p.files| && p.md5(contents[i]) != p.files[i].hash
    requires err.Some? ==>
      || err.value == HashMismatch || (err.value == WriteFailed && failed) || (err.value == RepairCancelled && cancelled)
      || IsFailure(p, places, work.disk, work.flat, plan.parityShards, cancelled, failed, err.value)
    ensures Achieved(p, places, Some(work), after, contents, err, failed, cancelled)
  {
    hide Par2Set.Proper, Assessed, PlanHolds, PlacesRead, Encoded, BlocksOfContents, IsWork, SameElsewhere, CanBecome;
    hide RebuiltTo, IsFailure, Original, Unrepairable, SameLength, Par2Set.TotalBlocks, HasContent, AllReadable;
    PlanHasRoom(p, before, damage, places, limit, plan);
    WorkCanBecome(p, before, places, work, orig, contents);
    if err.None? {
      AllOriginal(p, before, damage, places, limit, plan, after, contents);
    } else if !failed && !cancelled {
      FailureIs(p, places, work.disk, work.flat, plan.parityShards, err.value, work);
    }
  }

  lemma PlanHasRoom(p: Par2Set, disk: Disk, damage: map<FileID, Damage>, places: map<Block, Place>, limit: nat,
                    plan: Plan)
    requires PlanHolds(p, disk, damage, places, limit, plan)
    ensures forall e :: e in p.parity ==> e < plan.parityShards
  {
    hide Flattened, MustWrite;
  }

  lemma FailureIs(p: Par2Set, places: map<Block, Place>, disk: Disk, flat: seq<FlatLoc>, total: nat, err: RepairError,
                  work: Work)
    requires AllReadable(disk, flat) && |work.matrix| == total
    requires IsFailure(p, places, disk, flat, total, false, false, err)
    ensures Unrepairable(p, places, Some(work), err)
  {
    hide UsedExponents, Consecutive;
  }

  /** Every protected file has the right hash. */
  ghost predicate AllRight(p: Par2Set, disk: Disk) {
    forall i :: 0 <= i < |p.files| ==> HasContent(p, disk, p.files[i].filename, p.files[i])
  }

  lemma NotNeeded(p: Par2Set, disk: Disk, damage: map<FileID, Damage>, renames: map<FileID, string>,
                  places: map<Block, Place>)
    requires Sound(p, disk, damage, renames, places) && Assessed(p, disk, damage, places)
    requires forall i :: 0 <= i < |p.files| ==> p.files[i].fileID in damage
    requires !CountsOf(p, damage, renames, places).RepairNeeded()
    ensures AllRight(p, disk)
  {
    hide Sound, Assessed, HasContent, AllIn, CountsOf, ShardCounts.RepairNeeded;
    RepairNeededIff(p, disk, damage, renames, places);
  }

  // Where the planned renames are not apart.

  /** Two protected files of equal content, a.dat and b.dat, where b.dat is registered as a candidate as well. */
  function Twins(blockSize: nat, content: Bytes, pairs: seq<ChecksumPair>, md5: Bytes -> Hash): Par2Set {
    var quick := md5(if |content| < QUICK_HASH_SIZE then content else content[..QUICK_HASH_SIZE]);
    Par2Set(blockSize,
            [FileDesc([1], md5(content), quick, |content|, "a.dat"),
             FileDesc([2], md5(content), quick, |content|, "b.dat")],
            map[[1] := pairs, [2] := pairs], map[], map["b.dat" := [3]], map[[3] := "b.dat"], md5)
  }

  /**
    Of the twins, a.dat is missing. The prescan finds its content in b.dat, which is intact, and plans a rename. The
    rename takes b.dat away, but nothing is left to repair then by the counts, so that Repair reports success.
   */
  lemma IntactCandidateLost(blockSize: nat, content: Bytes, pairs: seq<ChecksumPair>, md5: Bytes -> Hash,
                            places: map<Block, Place>, after: map<Block, Place>)
    requires blockSize > 0 && content != [] && |pairs| == BlockCount(|content|, blockSize)
    requires var p := Twins(blockSize, content, pairs, md5);
      && AllIn(p, places, p.files[0], [3]) && AllIn(p, places, p.files[1], [2])
      && AllIn(p, after, p.files[0], [1]) && AllIn(p, after, p.files[1], [2])
    ensures var p, disk := Twins(blockSize, content, pairs, md5), map["b.dat" := content];
      var damage, renames := map[[1] := DamageMissing, [2] := DamageNone], map[[1] := "b.dat"];
      var renamed := map[[1] := DamageNone, [2] := DamageNone];
      && p.Proper() && QuickMatch(p, disk["b.dat"], p.files[0]) && HasContent(p, disk, "b.dat", p.files[0])
      && Sound(p, disk, damage, renames, places) && Assessed(p, disk, damage, places)
      && !SparesIntact(p, damage, renames) && !Apart(p, damage, renames)
      && DiskAfter(p, disk, renames, 2) == map["a.dat" := content]
      && !CountsOf(p, renamed, map[], after).RepairNeeded() && !AllRight(p, map["a.dat" := content])
  {
    var p, disk := Twins(blockSize, content, pairs, md5), map["b.dat" := content];
    var damage, renames := map[[1] := DamageMissing, [2] := DamageNone], map[[1] := "b.dat"];
    TwinsProper(blockSize, content, pairs, md5);
    TwinsDisk(blockSize, content, pairs, md5);
    TwinsPlan(blockSize, content, pairs, md5, places);
    TwinsCounts(blockSize, content, pairs, md5, after);
  }

  lemma TwinsProper(blockSize: nat, content: Bytes, pairs: seq<ChecksumPair>, md5: Bytes -> Hash)
    requires blockSize > 0 && content != [] && |pairs| == BlockCount(|content|, blockSize)
    ensures Twins(blockSize, content, pairs, md5).Proper()
  {
    hide BlockCount;
    var p := Twins(blockSize, content, pairs, md5);
    assert "a.dat"[0] != "b.dat"[0];
  }

  lemma TwinsDisk(blockSize: nat, content: Bytes, pairs: seq<ChecksumPair>, md5: Bytes -> Hash)
    ensures var p := Twins(blockSize, content, pairs, md5);
      && DiskAfter(p, map["b.dat" := content], map[[1] := "b.dat"], 2) == map["a.dat" := content]
      && !AllRight(p, map["a.dat" := content])
  {
    var p := Twins(blockSize, content, pairs, md5);
    assert "a.dat"[0] != "b.dat"[0];
    assert DiskAfter(p, map["b.dat" := content], map[[1] := "b.dat"], 0) == map["b.dat" := content];
    assert DiskAfter(p, map["b.dat" := content], map[[1] := "b.dat"], 1) == map["a.dat" := content];
    assert p.files[1].filename == "b.dat";
  }

  lemma TwinsPlan(blockSize: nat, content: Bytes, pairs: seq<ChecksumPair>, md5: Bytes -> Hash,
                  places: map<Block, Place>)
    requires blockSize > 0
    requires var p := Twins(blockSize, content, pairs, md5); AllIn(p, places, p.files[1], [2])
    ensures var p, disk := Twins(blockSize, content, pairs, md5), map["b.dat" := content];
      var damage, renames := map[[1] := DamageMissing, [2] := DamageNone], map[[1] := "b.dat"];
      && Sound(p, disk, damage, renames, places) && Assessed(p, disk, damage, places)
      && !SparesIntact(p, damage, renames) && !Apart(p, damage, renames)
      && QuickMatch(p, disk["b.dat"], p.files[0]) && HasContent(p, disk, "b.dat", p.files[0])
  {
    hide AllIn;
    var p := Twins(blockSize, content, pairs, md5);
    assert Takes(p, map[[1] := "b.dat"], 0, 1);
  }

  lemma TwinsCounts(blockSize: nat, content: Bytes, pairs: seq<ChecksumPair>, md5: Bytes -> Hash,
                    after: map<Block, Place>)
    requires blockSize > 0
    requires var p := Twins(blockSize, content, pairs, md5);
      AllIn(p, after, p.files[0], [1]) && AllIn(p, after, p.files[1], [2])
    ensures var p := Twins(blockSize, content, pairs, md5);
      var renamed := map[[1] := DamageNone, [2] := DamageNone];
      && p.files[0].fileID in renamed && p.files[1].fileID in renamed
      && !CountsOf(p, renamed, map[], after).RepairNeeded()
  {
    var p := Twins(blockSize, content, pairs, md5);
    var renamed := map[[1] := DamageNone, [2] := DamageNone];
    hide GridPos, BlockCount;
    NothingUnusable(p, after, 2);
    NothingToDo(p, renamed, map[], 2);
  }

  /** If there is anything to repair there are blocks. */
  lemma SomeBlocks(p: Par2Set, disk: Disk, damage: map<FileID, Damage>, renames: map<FileID, string>,
                   places: map<Block, Place>)
    requires p.Proper() && p.blockSize > 0 && forall i :: 0 <= i < |p.files| ==> p.files[i].fileID in damage
    requires CountsOf(p, damage, renames, places).RepairNeeded()
    ensures p.TotalBlocks(|p.files|) > 0
  {
    if |p.files| > 0 {
      ProperFile(p, 0);
      TotalGrows(p, 1, |p.files|);
      TotalNext(p, 0);
    }
  }

  lemma KeptIsProtected(p: Par2Set, before: Disk, after: Disk)
    requires p.Proper() && KeptOrRight(p, before, after)
    ensures ProtectedKept(p, before, after, {})
  {
    hide Par2Set.Proper;
    forall i | 0 <= i < |p.files|
      ensures HasContent(p, after, p.files[i].filename, p.files[i]) || SameAt(before, after, p.files[i].filename)
    {
      var path := p.files[i].filename;
      if path in after && !(path in before && after[path] == before[path]) {
        var j :| 0 <= j < |p.files| && p.files[j].filename == path && HasContent(p, after, path, p.files[j]);
        ProperFile(p, i);
      }
    }
  }

  /** Rebuilt files are right, and the others were intact before and have been kept. */
  lemma RebuiltIsRight(p: Par2Set, before: Disk, damage: map<FileID, Damage>, places: map<Block, Place>, after: Disk)
    requires Assessed(p, before, damage, places) && Rebuilt(p, damage, after) && ProtectedKept(p, before, after, {})
    ensures AllRight(p, after)
  {
    hide AllIn;
  }
}
