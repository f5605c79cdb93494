/**
  What is known about the protected files: par2/scan.go and par2/decoder.go. Verification finds out for every file
  whether it is intact; renaming puts misnamed files back; the counts decide whether a repair is needed and possible.
 */
module Integrity {
  import opened Wrappers
  import opened Contexts
  import opened Bits
  import opened Packets
  import opened CrcTable
  import opened Reports
  import opened Scan
  import opened Checksums
  import opened Crc32
  import opened CrcWindow

  type Bytes = seq<Byte>
  type Disk = map<string, Bytes>

  const QUICK_HASH_SIZE: nat := 16 * 1024
  const MAX_BLOCKS: nat := 32768

  /** A PAR2 set and the candidate files registered for it, which are known by path and by a synthetic identifier. */
  datatype Par2Set = Par2Set(blockSize: nat, files: seq<FileDesc>, checksums: map<FileID, seq<ChecksumPair>>,
                             parity: map<nat, Bytes>, candidateFiles: map<string, FileID>,
                             candidateByID: map<FileID, string>, md5: Bytes -> Hash)
  {
    /**
      What the code takes for granted: distinct identifiers and names, one checksum pair for every block, and
      identifiers of candidates that are no others. A candidate may well be registered under a protected name.
     */
    ghost predicate Proper() {
      && WellFormed(files)
      && (forall i, j :: 0 <= i < j < |files| ==> files[i].filename != files[j].filename)
      && (forall i :: 0 <= i < |files| && files[i].fileID in checksums && blockSize > 0 ==>
            |checksums[files[i].fileID]| == BlockCount(files[i].byteCount, blockSize))
      && (forall path :: path in candidateFiles ==>
            candidateFiles[path] in candidateByID && candidateByID[candidateFiles[path]] == path)
      && (forall id :: id in candidateByID ==>
            candidateByID[id] in candidateFiles && candidateFiles[candidateByID[id]] == id)
      && (forall i :: 0 <= i < |files| ==> files[i].fileID !in candidateByID)
    }

    /** The number of blocks of the first n files. */
    function TotalBlocks(n: nat): nat
      requires n <= |files|
    {
      if n == 0 || blockSize == 0 then 0 else TotalBlocks(n - 1) + BlockCount(files[n - 1].byteCount, blockSize)
    }

    function Identifiers(): set<FileID> {
      FirstIdentifiers(files, |files|)
    }
  }

  /** The identifiers of the first n files. */
  function FirstIdentifiers(files: seq<FileDesc>, n: nat): (ids: set<FileID>)
    requires n <= |files|
    ensures forall i :: 0 <= i < n ==> files[i].fileID in ids
  {
    if n == 0 then {} else FirstIdentifiers(files, n - 1) + {files[n - 1].fileID}
  }

  /** needsRebuild */
  predicate NeedsRebuild(d: Damage) {
    d == DamageMissing || d == DamageWrongSize || d == DamageWrongHash
  }

  /** The blocks of fd are found one after the other from the beginning of source. */
  ghost predicate AllIn(p: Par2Set, places: map<Block, Place>, fd: FileDesc, source: FileID)
    requires p.blockSize > 0
  {
    forall k: nat :: k < BlockCount(fd.byteCount, p.blockSize) ==>
      Block(fd.fileID, k) in places && places[Block(fd.fileID, k)] == Place(source, GridPos(k, p.blockSize))
  }

  /** All blocks of fd are found one after the other in the candidate with this path. */
  ghost predicate WholeIn(p: Par2Set, places: map<Block, Place>, fd: FileDesc, path: string)
    requires p.blockSize > 0
  {
    exists id :: id in p.candidateByID && p.candidateByID[id] == path && AllIn(p, places, fd, id)
  }

  /** The file under this name has the protected content, as far as MD5 tells. */
  predicate HasContent(p: Par2Set, disk: Disk, path: string, fd: FileDesc) {
    path in disk && p.md5(disk[path]) == fd.hash
  }

  /** The file is intact under its own name, and every block of it is known to be there. */
  ghost predicate Intact(p: Par2Set, disk: Disk, places: map<Block, Place>, fd: FileDesc)
    requires p.blockSize > 0
  {
    HasContent(p, disk, fd.filename, fd) && AllIn(p, places, fd, fd.fileID)
  }

  /** A rename is planned only for a file that would otherwise be rebuilt, from a candidate that has its content. */
  ghost predicate RenamesHold(p: Par2Set, disk: Disk, damage: map<FileID, Damage>, renames: map<FileID, string>) {
    forall i :: 0 <= i < |p.files| && p.files[i].fileID in renames ==>
      var fd := p.files[i];
      && fd.fileID in damage && NeedsRebuild(damage[fd.fileID]) && renames[fd.fileID] in p.candidateFiles
      && (renames[fd.fileID] in disk ==> HasContent(p, disk, renames[fd.fileID], fd))
  }

  /** The damage of every file is known: it is intact or it has to be rebuilt. */
  ghost predicate Assessed(p: Par2Set, disk: Disk, damage: map<FileID, Damage>, places: map<Block, Place>) {
    p.blockSize > 0 && forall i :: 0 <= i < |p.files| ==>
      var fd := p.files[i];
      fd.fileID in damage && (NeedsRebuild(damage[fd.fileID])
        || (damage[fd.fileID] == DamageNone && Intact(p, disk, places, fd)))
  }

  /** after is before, but the blocks of fd are found in source. */
  ghost predicate Placed(p: Par2Set, before: map<Block, Place>, after: map<Block, Place>, fd: FileDesc, source: FileID,
                         n: nat)
  {
    && (forall b :: b in after <==> b in before || (b.fileID == fd.fileID && b.index < n))
    && (forall b :: b in after ==>
          after[b] == if b.fileID == fd.fileID && b.index < n then Place(source, GridPos(b.index, p.blockSize))
                      else before[b])
  }

  /** The loop that puts every block of fd where it belongs in source. */
  method PlaceAll(p: Par2Set, before: map<Block, Place>, fd: FileDesc, source: FileID)
    returns (after: map<Block, Place>)
    requires p.blockSize > 0
    ensures Placed(p, before, after, fd, source, BlockCount(fd.byteCount, p.blockSize))
    ensures AllIn(p, after, fd, source)
    ensures forall other: FileDesc, from: FileID :: other.fileID != fd.fileID && AllIn(p, before, other, from) ==>
      AllIn(p, after, other, from)
  {
    hide GridPos;
    after := before;
    for k := 0 to BlockCount(fd.byteCount, p.blockSize)
      invariant Placed(p, before, after, fd, source, k)
    {
      GridPosIs(k, p.blockSize);
      after := after[Block(fd.fileID, k) := Place(source, k * p.blockSize)];
    }
  }

  lemma GridPosIs(k: nat, blockSize: nat)
    ensures GridPos(k, blockSize) == k * blockSize
  {
  }

  // Why a block is taken to be where it is said to be.

  /** The file there has the hash of the protected file, and the place is that of the block in it. */
  ghost predicate PlacedByHash(p: Par2Set, disk: Disk, b: Block, place: Place) {
    && place.source in PathsOf(p) && place.offset == GridPos(b.index, p.blockSize)
    && exists i :: 0 <= i < |p.files| && p.files[i].fileID == b.fileID
         && HasContent(p, disk, PathsOf(p)[place.source], p.files[i])
  }

  /** The blockSize bytes of a file at offset, cut off at limit and padded with zeros. */
  function WindowBytes(content: Bytes, offset: nat, limit: nat, blockSize: nat): (w: Bytes)
    ensures |w| == blockSize
  {
    seq(blockSize, b requires b >= 0 =>
      if offset + b < limit && offset + b < |content| then content[offset + b] else 0)
  }

  /** A window there, perhaps cut off, has the CRC and the MD5 of the block. */
  ghost predicate PlacedByChecksums(p: Par2Set, disk: Disk, b: Block, place: Place) {
    && b.fileID in p.checksums && b.index < |p.checksums[b.fileID]|
    && place.source in PathsOf(p) && PathsOf(p)[place.source] in disk
    && exists limit :: MayEnd(p, disk, place, limit)
         && IsBlockAt(p, disk[PathsOf(p)[place.source]], place.offset, limit, p.checksums[b.fileID][b.index])
  }

  /** A window at place ends after a whole block, or where the last block of the file is cut off. */
  predicate MayEnd(p: Par2Set, disk: Disk, place: Place, limit: nat) {
    || limit == place.offset + p.blockSize
    || (limit < place.offset + p.blockSize && place.source in Ends(p, disk) && limit == Ends(p, disk)[place.source])
  }

  ghost predicate IsBlockAt(p: Par2Set, content: Bytes, offset: nat, limit: nat, pair: ChecksumPair) {
    var w := WindowBytes(content, offset, limit, p.blockSize);
    pair == ChecksumPair(p.md5(w), Checksum(w))
  }

  ghost predicate AllByHash(p: Par2Set, disk: Disk, places: map<Block, Place>) {
    forall b :: b in places ==> PlacedByHash(p, disk, b, places[b])
  }

  /** Every located block has been identified by the hash of its file or by its own checksums. */
  ghost predicate AllJustified(p: Par2Set, disk: Disk, places: map<Block, Place>) {
    forall b :: b in places ==> PlacedByHash(p, disk, b, places[b]) || PlacedByChecksums(p, disk, b, places[b])
  }

  lemma PlacedAllByHash(p: Par2Set, disk: Disk, before: map<Block, Place>, after: map<Block, Place>, i: nat,
                        source: FileID,
                        n: nat)
    requires AllByHash(p, disk, before) && i < |p.files| && Placed(p, before, after, p.files[i], source, n)
    requires source in PathsOf(p) && HasContent(p, disk, PathsOf(p)[source], p.files[i])
    ensures AllByHash(p, disk, after)
  {
    hide GridPos, HasContent, PathsOf;
  }

  lemma PathOfCandidate(p: Par2Set, path: string)
    requires p.Proper() && path in p.candidateFiles
    ensures p.candidateFiles[path] in PathsOf(p) && PathsOf(p)[p.candidateFiles[path]] == path
  {
  }

  /** What the scan adds has the checksums of the block. */
  lemma ScanJustified(p: Par2Set, disk: Disk, g: Setting, m: map<U32, seq<Expected>>, blocks: set<Block>, n: nat,
                      s: State)
    requires g.files == FilesOnDisk(p, disk) && g.blockSize == p.blockSize && g.md5 == p.md5 && Holds(g, s)
    requires g.ends == Ends(p, disk)
    requires Lists(m, p.checksums, blocks) && Flagged(m, g.table, n) && m.Keys == g.table.Keys
    requires AllByHash(p, disk, g.known)
    ensures AllJustified(p, disk, s.places)
  {
    hide Lists, Flagged, PathsOf, CallsHold, ClaimsHold, PlacedByHash, Checksum, Setting.FoundAt, Setting.Contains;
    KnownKept(g, s);
    forall b | b in s.places && b !in g.known
      ensures PlacedByChecksums(p, disk, b, s.places[b])
    {
      assert Event(b, s.places[b]) in s.sent;
      FoundIsJustified(p, disk, g, m, blocks, n, b, s.places[b]);
    }
  }

  lemma FoundIsJustified(p: Par2Set, disk: Disk, g: Setting, m: map<U32, seq<Expected>>, blocks: set<Block>, n: nat,
                         b: Block, place: Place)
    requires g.files == FilesOnDisk(p, disk) && g.blockSize == p.blockSize && g.md5 == p.md5 && g.ends == Ends(p, disk)
    requires Lists(m, p.checksums, blocks) && Flagged(m, g.table, n) && m.Keys == g.table.Keys
    requires g.Truthful(Event(b, place))
    ensures PlacedByChecksums(p, disk, b, place)
  {
    hide Lists, Flagged, PathsOf, Ends, Setting.Equal, Checksum, Setting.Contains;
    var loc :| g.Contains(loc) && loc.block == b && g.FoundAt(loc, place);
    var limit, w :| g.IsWindow(place, limit, w) && g.Equal(loc, w);
    FoundIsListed(g, m, p.checksums, blocks, n, loc, w);
    assert w == WindowBytes(g.files[place.source], place.offset, limit, p.blockSize);
    assert MayEnd(p, disk, place, limit);
    assert IsBlockAt(p, disk[PathsOf(p)[place.source]], place.offset, limit, p.checksums[b.fileID][b.index]);
  }

  /** What holds from the prescan on: files said to be intact are, and planned renames are sound. */
  ghost predicate Sound(p: Par2Set, disk: Disk, damage: map<FileID, Damage>, renames: map<FileID, string>,
                        places: map<Block, Place>)
  {
    && (p.files == [] || p.blockSize > 0) && RenamesHold(p, disk, damage, renames)
    && forall i :: 0 <= i < |p.files| ==>
      && p.files[i].fileID in damage
      && (damage[p.files[i].fileID] == DamageNone ==> Intact(p, disk, places, p.files[i]))
  }

  /** quickHash16K */
  function QuickHash(p: Par2Set, content: Bytes): Hash {
    p.md5(if |content| < QUICK_HASH_SIZE then content else content[..QUICK_HASH_SIZE])
  }

  predicate QuickMatch(p: Par2Set, content: Bytes, fd: FileDesc) {
    |content| == fd.byteCount && QuickHash(p, content) == fd.sixteenKHash
  }

  /** The first n files are known to be there or missing. */
  ghost predicate ExistenceKnown(p: Par2Set, disk: Disk, damage: map<FileID, Damage>, n: nat) {
    n <= |p.files| && forall i :: 0 <= i < n ==>
      var fd := p.files[i];
      fd.fileID in damage && damage[fd.fileID] == if fd.filename in disk then DamageUnchecked else DamageMissing
  }

  lemma AllIdentified(p: Par2Set, damage: map<FileID, Damage>)
    requires damage.Keys == p.Identifiers()
    ensures forall i :: 0 <= i < |p.files| ==> p.files[i].fileID in damage
  {
  }

  lemma ProperFile(p: Par2Set, i: nat)
    requires p.Proper() && i < |p.files|
    ensures p.files[i].byteCount > 0
    ensures forall j :: 0 <= j < |p.files| && j != i ==>
      p.files[j].fileID != p.files[i].fileID && p.files[j].filename != p.files[i].filename
    ensures p.files[i].fileID !in p.candidateByID
  {
  }

  datatype VerifyError = InvalidSet | Cancelled | Unreadable | WindowTooSmall

  class Decoder {
    const p: Par2Set
    var disk: Disk
    var damage: map<FileID, Damage>
    var renames: map<FileID, string>
    var places: map<Block, Place>

    constructor (p: Par2Set, disk: Disk)
      ensures this.p == p && this.disk == disk
    {
      this.p, this.disk, damage, renames, places := p, disk, map[], map[], map[];
    }

    ghost predicate IsSound()
      reads this
    {
      Sound(p, disk, damage, renames, places)
    }

    /** initFileIntegrity */
    method InitFileIntegrity() returns (err: Option<VerifyError>)
      requires p.Proper()
      modifies this`damage, this`renames, this`places
      ensures err.None? <==> p.files == [] || (p.blockSize > 0 && p.TotalBlocks(|p.files|) <= MAX_BLOCKS)
      ensures err.Some? ==> err.value == InvalidSet
      ensures err.None? ==> p.TotalBlocks(|p.files|) <= MAX_BLOCKS
      ensures err.None? ==> renames == map[] && places == map[] && damage.Keys == p.Identifiers()
      ensures err.None? ==> forall id :: id in damage ==> damage[id] == DamageUnchecked
    {
      hide Par2Set.Proper, BlockCount;
      damage, renames, places := map[], map[], map[];
      var totalShards := 0;
      for i := 0 to |p.files|
        invariant i > 0 ==> p.blockSize > 0 && totalShards == p.TotalBlocks(i) <= MAX_BLOCKS
        invariant i == 0 ==> totalShards == 0
        invariant renames == map[] && places == map[]
        invariant damage.Keys == FirstIdentifiers(p.files, i)
        invariant forall id :: id in damage ==> damage[id] == DamageUnchecked
      {
        if p.blockSize == 0 {
          return Some(InvalidSet);
        }
        var shards := BlockCount(p.files[i].byteCount, p.blockSize);
        TotalGrows(p, i + 1, |p.files|);
        if shards > MAX_BLOCKS {
          return Some(InvalidSet);
        }
        totalShards := totalShards + shards;
        if totalShards > MAX_BLOCKS {
          return Some(InvalidSet);
        }
        damage := damage[p.files[i].fileID := DamageUnchecked];
      }
      err := None;
    }

    /** checkFileExistence */
    method CheckFileExistence(ctx: Context) returns (err: Option<VerifyError>)
      requires p.Proper() && damage.Keys == p.Identifiers()
      requires forall id :: id in damage ==> damage[id] == DamageUnchecked
      modifies this`damage, ctx
      ensures damage.Keys == old(damage).Keys
      ensures err == Some(Cancelled) || err == Some(Unreadable) || err == None
      ensures ctx.Later() && (err == Some(Cancelled) ==> ctx.cancelled) && (err == Some(Unreadable) ==> ctx.failed)
      ensures err.None? ==> ExistenceKnown(p, disk, damage, |p.files|)
    {
      hide Par2Set.Proper, Par2Set.Identifiers;
      AllIdentified(p, damage);
      for i := 0 to |p.files|
        invariant damage.Keys == p.Identifiers() && ExistenceKnown(p, disk, damage, i)
        invariant forall j :: i <= j < |p.files| ==> p.files[j].fileID in damage
        invariant forall j :: i <= j < |p.files| ==> damage[p.files[j].fileID] == DamageUnchecked
        invariant ctx.Later()
      {
        var stop := ctx.Err();
        if stop {
          return Some(Cancelled);
        }
        var fd := p.files[i];
        ProperFile(p, i);
        if fd.filename !in disk {
          damage := damage[fd.fileID := DamageMissing];
          continue;
        }
        var fails := ctx.Fails();
        if fails {
          return Some(Unreadable);
        }
      }
      err := None;
    }

    /** The prescan of one candidate whose quick key is that of the missing file fd. */
    method MatchCandidate(ctx: Context, path: string, fd: FileDesc) returns (resolved: bool)
      requires p.Proper() && IsSound() && Early(p, disk, damage) && PlannedWhole(p, disk, places, renames)
      requires fd in p.files && path in p.candidateFiles && path in disk
      requires fd.fileID in damage && damage[fd.fileID] == DamageMissing && AllByHash(p, disk, places)
      modifies this`renames, this`places, ctx`failed
      ensures IsSound() && AllByHash(p, disk, places) && PlannedWhole(p, disk, places, renames) && ctx.Later()
      ensures resolved ==> HasContent(p, disk, path, fd) && renames == old(renames)[fd.fileID := path]
      ensures !resolved ==> renames == old(renames) && places == old(places)
      ensures !resolved ==> ctx.failed || !HasContent(p, disk, path, fd)
    {
      hide Par2Set.Proper, AllByHash, PathsOf, AllIn, PlannedWhole, Early;
      var fails := ctx.Fails();
      if fails || p.md5(disk[path]) != fd.hash {
        return false;
      }
      renames := renames[fd.fileID := path];
      var i :| 0 <= i < |p.files| && p.files[i] == fd;
      ProperFile(p, i);
      PathOfCandidate(p, path);
      places := PlaceAll(p, places, fd, p.candidateFiles[path]);
      PlacedAllByHash(p, disk, old(places), places, i, p.candidateFiles[path], BlockCount(fd.byteCount, p.blockSize));
      NextWhole(p, disk, damage, old(places), places, old(renames), i, path);
      resolved := true;
    }

    /** The missing files by size and quick hash; of two with the same key the later one is kept. */
    method MissingByQuickKey() returns (m: map<(nat, Hash), FileDesc>)
      requires forall i :: 0 <= i < |p.files| ==> p.files[i].fileID in damage
      ensures KeysMissing(p, damage, m) && OnlyTheMissing(p, damage, m)
    {
      hide KeysBelow, OnlyTheMissing;
      m := map[];
      NoKeys(p, damage);
      for i := 0 to |p.files|
        invariant OnlyTheMissing(p, damage, m) && KeysBelow(p, damage, m, i)
      {
        var fd := p.files[i];
        KeysNext(p, damage, m, i);
        if damage[fd.fileID] == DamageMissing {
          m := m[(fd.byteCount, fd.sixteenKHash) := fd];
        }
      }
    }

    /** The part of prescanCandidateMatches for one candidate. */
    method PrescanCandidate(ctx: Context, missing: map<(nat, Hash), FileDesc>, path: string) returns (resolved: bool)
      requires p.Proper() && IsSound() && Early(p, disk, damage) && AllByHash(p, disk, places)
      requires PlannedWhole(p, disk, places, renames) && path in p.candidateFiles
      requires KeysMissing(p, damage, missing) && OnlyTheMissing(p, damage, missing)
      modifies this`renames, this`places, ctx`failed
      ensures IsSound() && AllByHash(p, disk, places) && PlannedWhole(p, disk, places, renames)
      ensures (old(ctx.failed) ==> ctx.failed) && old(renames).Keys <= renames.Keys
      ensures AllEmpty(p, disk) ==> places == old(places)
      ensures resolved && path in disk ==> ctx.failed || CopyOfRenamed(p, disk, renames, path)
      ensures !ctx.failed ==> MissingMatched(p, disk, damage, renames, path)
    {
      hide Par2Set.Proper, Sound, AllEmpty, Early, PlannedWhole, MissingMatched, CopyOfRenamed, KeysMissing, QuickHash;
      SoundHasDamage(p, disk, damage, renames, places);
      var fails := ctx.Fails();
      if fails || path !in disk {
        if path !in disk {
          NothingMatched(p, disk, damage, renames, path);
        }
        return true;
      }
      var key := (|disk[path]|, QuickHash(p, disk[path]));
      var statFails := ctx.Fails();
      if statFails || key !in missing {
        if key !in missing {
          NoKeyMatched(p, disk, damage, renames, missing, path);
        }
        return false;
      }
      NotEmpty(p, disk, path, missing[key]);
      resolved := MatchCandidate(ctx, path, missing[key]);
      if resolved {
        CopyMatched(p, disk, renames, missing[key], path);
      }
      if !ctx.failed {
        KeyMatched(p, disk, damage, renames, missing, path);
      }
    }

    /** prescanCandidateMatches; the order of the candidates is left open. */
    method PrescanCandidateMatches(ctx: Context) returns (resolved: set<string>)
      requires p.Proper() && IsSound() && Early(p, disk, damage) && renames == map[] && AllByHash(p, disk, places)
      modifies this`renames, this`places, ctx
      ensures IsSound() && AllByHash(p, disk, places) && PlannedWhole(p, disk, places, renames) && ctx.Later()
      ensures AllEmpty(p, disk) ==> places == old(places)
      ensures Resolved(p, disk, renames, resolved, ctx.failed)
      ensures !ctx.failed && !ctx.cancelled ==> AllMatched(p, disk, damage, renames, p.candidateFiles.Keys)
    {
      hide Par2Set.Proper, Sound, AllEmpty, Early, PlannedWhole, CopyOfRenamed, Resolved, AllMatched, KeysMissing;
      hide OnlyTheMissing;
      resolved := {};
      SoundHasDamage(p, disk, damage, renames, places);
      NoneWhole(p, disk, places);
      NoneResolved(p, disk, damage, renames, ctx.failed);
      var missing := MissingByQuickKey();
      var rest := p.candidateFiles.Keys;
      assert p.candidateFiles.Keys - rest == {};
      while rest != {}
        invariant rest <= p.candidateFiles.Keys && IsSound() && AllByHash(p, disk, places)
        invariant PlannedWhole(p, disk, places, renames) && ctx.Later()
        invariant AllEmpty(p, disk) ==> places == old(places)
        invariant Resolved(p, disk, renames, resolved, ctx.failed)
        invariant !ctx.failed && !ctx.cancelled ==> AllMatched(p, disk, damage, renames, p.candidateFiles.Keys - rest)
        decreases rest
      {
        var stop := ctx.Err();
        if stop {
          return;
        }
        var path :| path in rest;
        ghost var planned, failed, done := renames, ctx.failed, p.candidateFiles.Keys - rest;
        rest := rest - {path};
        var matched := PrescanCandidate(ctx, missing, path);
        ResolvedMore(p, disk, planned, renames, resolved, failed, ctx.failed, path, matched);
        if !ctx.failed {
          MatchedStays(p, disk, damage, planned, renames, done, path);
          assert p.candidateFiles.Keys - rest == done + {path};
        }
        if matched {
          resolved := resolved + {path};
        }
      }
      assert p.candidateFiles.Keys - rest == p.candidateFiles.Keys;
    }

    /** A protected file whose content is right: it is marked as intact and its blocks as being in place. */
    method MarkIntact(i: nat)
      requires p.Proper() && IsSound() && i < |p.files| && HasContent(p, disk, p.files[i].filename, p.files[i])
      requires p.files[i].fileID !in renames && AllByHash(p, disk, places) && PlannedWhole(p, disk, places, renames)
      modifies this`damage, this`places
      ensures IsSound() && AllByHash(p, disk, places) && PlannedWhole(p, disk, places, renames)
      ensures damage == old(damage)[p.files[i].fileID := DamageNone]
    {
      hide Par2Set.Proper, HasContent, AllByHash, PathsOf, PlannedWhole;
      var fd := p.files[i];
      ProperFile(p, i);
      damage := damage[fd.fileID := DamageNone];
      PathOfFile(p, i);
      places := PlaceAll(p, places, fd, fd.fileID);
      PlacedAllByHash(p, disk, old(places), places, i, fd.fileID, BlockCount(fd.byteCount, p.blockSize));
      StillWhole(p, disk, old(places), places, renames, i);
    }

    /** The part of prescanProtectedMatches for one file. */
    method PrescanProtected(ctx: Context, i: nat)
      requires p.Proper() && IsSound() && Early(p, disk, damage) && AllByHash(p, disk, places) && i < |p.files|
      requires PlannedWhole(p, disk, places, renames)
      modifies this`damage, this`places, ctx`failed
      ensures AllByHash(p, disk, places) && PlannedWhole(p, disk, places, renames)
      ensures IsSound() && Early(p, disk, damage) && (old(ctx.failed) ==> ctx.failed)
      ensures AllEmpty(p, disk) ==> places == old(places)
      ensures p.files[i].fileID in old(damage)
      ensures damage == old(damage) || damage == old(damage)[p.files[i].fileID := DamageNone]
      ensures !ctx.failed ==>
        damage == (if old(damage)[p.files[i].fileID] != DamageMissing && Undamaged(p, disk, p.files[i])
                   then old(damage)[p.files[i].fileID := DamageNone] else old(damage))
    {
      hide Par2Set.Proper, Sound, AllEmpty, Early, PlannedWhole, AllByHash;
      var fd := p.files[i];
      EarlyFile(p, disk, damage, i);
      if damage[fd.fileID] == DamageMissing {
        return;
      }
      var fails := ctx.Fails();
      if fails || fd.filename !in disk || !QuickMatch(p, disk[fd.filename], fd) {
        return;
      }
      if p.md5(disk[fd.filename]) != fd.hash {
        return;
      }
      NotRenamed(p, disk, damage, renames, places, i);
      FileNotEmpty(p, disk, i);
      EarlyMarked(p, disk, damage, i);
      MarkIntact(i);
    }

    /** prescanProtectedMatches */
    method PrescanProtectedMatches(ctx: Context)
      requires p.Proper() && IsSound() && Early(p, disk, damage) && AllByHash(p, disk, places)
      requires PlannedWhole(p, disk, places, renames)
      modifies this`damage, this`places, ctx
      ensures AllByHash(p, disk, places) && PlannedWhole(p, disk, places, renames) && ctx.Later()
      ensures IsSound() && Early(p, disk, damage) && damage.Keys == old(damage).Keys
      ensures AllEmpty(p, disk) ==> places == old(places)
      ensures !ctx.failed && !ctx.cancelled ==> Prescanned(p, disk, old(damage), damage, |p.files|)
    {
      hide Par2Set.Proper, Sound, AllEmpty, Early, PlannedWhole, Prescanned, AllByHash, Undamaged;
      NonePrescanned(p, disk, damage);
      SoundHasDamage(p, disk, damage, renames, places);
      for i := 0 to |p.files|
        invariant AllByHash(p, disk, places) && (AllEmpty(p, disk) ==> places == old(places))
        invariant PlannedWhole(p, disk, places, renames) && ctx.Later()
        invariant IsSound() && Early(p, disk, damage) && damage.Keys == old(damage).Keys
        invariant !ctx.failed && !ctx.cancelled ==> Prescanned(p, disk, old(damage), damage, i)
        invariant forall j :: i <= j < |p.files| ==>
          p.files[j].fileID in damage && damage[p.files[j].fileID] == old(damage)[p.files[j].fileID]
      {
        var stop := ctx.Err();
        if stop {
          return;
        }
        ghost var before := damage;
        ProperFile(p, i);
        PrescanProtected(ctx, i);
        if !ctx.failed {
          PrescannedNext(p, disk, old(damage), before, damage, i);
        }
      }
    }
  
    /** buildLookupTable, and the scanner that uses the table. */
    method NewScanner(window: Window)
      returns (scanner: Scanner, ghost m: map<U32, seq<Expected>>, ghost blocks: set<Block>, ghost flags: nat)
      requires p.Proper() && p.blockSize > 0 && damage.Keys == p.Identifiers() && p.TotalBlocks(|p.files|) <= MAX_BLOCKS
      requires window.Valid() && window.windowSize == p.blockSize && p.blockSize >= 4
      ensures fresh(scanner) && scanner.Valid() && scanner.damage == damage && scanner.candidates == p.candidateByID.Keys
      ensures var g := scanner.g;
        && g.blockSize == p.blockSize && g.files == FilesOnDisk(p, disk) && g.md5 == p.md5 && g.known == places
        && g.ends == Ends(p, disk) && Quiet(scanner.state) && scanner.state.places == places
        && Lists(m, p.checksums, blocks) && Flagged(m, g.table, flags) && m.Keys == g.table.Keys
      ensures BlocksOfFiles(blocks, p.checksums, p.Identifiers())
    {
      hide Par2Set.Proper, Par2Set.Identifiers, FilesOnDisk, Ends, Lists, Flagged, Window.Valid, CrcLookupTable.Valid;
      hide Setting.OwnFlags, Setting.Contains, Holds, Initial;
      var expected := BuildChecksumMap(p.checksums, damage.Keys);
      m, blocks := expected, KnownBlocks(p.checksums, damage.Keys);
      FewBlocks(p, blocks);
      NoMoreThanBlocks(m, p.checksums, blocks);
      var table := new CrcLookupTable(expected);
      flags := table.flags.Length;
      var held := table.Listing(expected.Keys);
      var g := Setting(p.blockSize, FilesOnDisk(p, disk), Ends(p, disk), p.md5, held, places);
      TableOwnsFlags(g, m, flags);
      scanner := new Scanner(g, table, window, p.candidateByID.Keys, damage);
      InitiallyQuiet(g, scanner.state);
    }

    /** The block scan: a table and a window are built, and every file that is not settled yet is searched. */
    method RunScan(ctx: Context, resolved: set<string>) returns (err: Option<VerifyError>, ghost firsts: set<Event>)
      requires p.Proper() && IsSound() && Early(p, disk, damage) && AllByHash(p, disk, places)
      requires PlannedWhole(p, disk, places, renames)
      requires damage.Keys == p.Identifiers() && p.TotalBlocks(|p.files|) <= MAX_BLOCKS
      modifies this`damage, this`places, ctx
      ensures ctx.Later() && (err == Some(Unreadable) ==> ctx.failed)
      ensures damage.Keys == old(damage).Keys
      ensures err == Some(WindowTooSmall) <==> p.blockSize < 4
      ensures err == None || err == Some(WindowTooSmall) || err == Some(Unreadable)
      ensures err.None? ==> IsSound() && AllJustified(p, disk, places) && PlannedWhole(p, disk, places, renames)
      ensures err.None? && !ctx.cancelled ==> AllInPlaceLocated(p, disk, places)
      ensures AllEmpty(p, disk) ==> places == old(places)
      ensures err.None? && !ctx.cancelled ==> Scanned(p, disk, old(damage), damage)
      ensures err.None? && !ctx.cancelled ==>
        FirstReports(p, disk, firsts) && AllAccounted(p, disk, places, firsts, old(damage), resolved)
    {
      hide Par2Set.Proper, Par2Set.Identifiers, Par2Set.TotalBlocks, Sound, FilesOnDisk, Ends, Lists, Flagged, AllFound;
      hide Scanner.Valid, Window.Valid, Holds, Quiet, Grows, FilesSearched, CandidatesSearched, WellFormed;
      hide BlocksOfFiles;
      hide AllInPlaceLocated, Early, SettledStay, AllByHash, AllJustified, PlannedWhole, FirstReports, AllAccounted;
      hide FirstsOf, Scanned;
      firsts := {};
      var window := NewWindow(p.blockSize);
      if window.None? {
        return Some(WindowTooSmall), {};
      }
      var scanner;
      ghost var m, blocks, flags;
      scanner, m, blocks, flags := NewScanner(window.value);
      ghost var known, before := places, damage;
      ProperFiles(p, damage);
      EndsKnown(p, disk, scanner.g);
      var scanErr := scanner.Scan(ctx, p.files, p.candidateFiles, resolved);
      damage, places := scanner.damage, scanner.state.places;
      if scanErr.Some? {
        return Some(Unreadable), {};
      }
      err, firsts := None, FirstsOf(scanner.state);
      ValidHolds(scanner);
      ScanResults(p, disk, scanner.g, m, blocks, flags, scanner.state, before, damage, known, renames, resolved,
                  !ctx.cancelled);
    }

    /** isAllShardsConsecutive, for a source file that may also be a candidate. */
    method AllConsecutive(fd: FileDesc, source: FileID) returns (all: bool)
      requires p.blockSize > 0
      ensures all <==> AllIn(p, places, fd, source)
    {
      hide GridPos;
      var k := 0;
      while k < BlockCount(fd.byteCount, p.blockSize)
        invariant forall l: nat :: l < k ==>
          Block(fd.fileID, l) in places && places[Block(fd.fileID, l)] == Place(source, GridPos(l, p.blockSize))
      {
        GridPosIs(k, p.blockSize);
        var expected := k * p.blockSize;
        var b := Block(fd.fileID, k);
        if b !in places || places[b].offset != expected || places[b].source != source {
          return false;
        }
        k := k + 1;
      }
      all := true;
    }

    /** detectRenameCandidate: the candidate that holds all of the file, if there is one. */
    method DetectRenameCandidate(ctx: Context, fd: FileDesc) returns (rename: Option<string>)
      requires p.blockSize > 0 && fd.byteCount > 0 && fd.fileID !in p.candidateByID
      requires forall id :: id in p.candidateByID ==> p.candidateByID[id] in p.candidateFiles
      modifies ctx`failed
      ensures ctx.Later()
      ensures rename.Some? ==> IsRename(p, disk, places, fd, rename.value) && rename.value in p.candidateFiles
      ensures rename.Some? ==> HasContent(p, disk, rename.value, fd)
      ensures !ctx.failed ==> (rename.Some? <==> exists path :: IsRename(p, disk, places, fd, path))
    {
      hide AllIn;
      FirstBlock(p, places, fd);
      var first := Block(fd.fileID, 0);
      if first !in places {
        return None;
      }
      var candidateID := places[first].source;
      if candidateID == fd.fileID || candidateID !in p.candidateByID {
        return None;
      }
      var candidatePath := p.candidateByID[candidateID];
      if candidatePath == fd.filename {
        return None;
      }
      var all := AllConsecutive(fd, candidateID);
      var fails := ctx.Fails();
      if !all || fails || candidatePath !in disk || p.md5(disk[candidatePath]) != fd.hash {
        return None;
      }
      rename := Some(candidatePath);
    }

    /** verifySingleFileHash */
    method VerifySingleFileHash(ctx: Context, fd: FileDesc) returns (d: Damage)
      modifies ctx`failed
      ensures ctx.Later()
      ensures d == DamageNone ==> HasContent(p, disk, fd.filename, fd)
      ensures fd.filename !in disk ==> d == DamageMissing
      ensures d == DamageNone || d == DamageMissing || d == DamageWrongHash
      ensures !ctx.failed ==> d == HashDamage(p, disk, fd)
    {
      var openFails := ctx.Fails();
      if openFails || fd.filename !in disk {
        return DamageMissing;
      }
      var copyFails := ctx.Fails();
      if copyFails || p.md5(disk[fd.filename]) != fd.hash {
        return DamageWrongHash;
      }
      d := DamageNone;
    }

    /** A rename is planned for a file that has to be rebuilt otherwise, if a candidate holds all of it. */
    method PlanRename(ctx: Context, i: nat)
      requires p.Proper() && IsSound() && i < |p.files| && PlannedWhole(p, disk, places, renames) && p.blockSize > 0
      requires p.files[i].fileID in damage && NeedsRebuild(damage[p.files[i].fileID])
      requires p.files[i].fileID !in renames
      modifies this`renames, ctx`failed
      ensures IsSound() && PlannedWhole(p, disk, places, renames) && (old(ctx.failed) ==> ctx.failed)
      ensures forall id :: id != p.files[i].fileID ==> SamePlan(old(renames), renames, id)
      ensures ctx.failed || (p.files[i].fileID in renames <==> exists path :: IsRename(p, disk, places, p.files[i], path))
    {
      hide Par2Set.Proper, HasContent, AllIn, Sound, PlannedWhole, IsRename;
      var fd := p.files[i];
      ProperFile(p, i);
      ProperCandidates(p);
      var rename := DetectRenameCandidate(ctx, fd);
      if rename.Some? {
        RenamePlanned(p, disk, damage, renames, places, i, rename.value);
        AddedWhole(p, disk, places, renames, i, rename.value);
        renames := renames[fd.fileID := rename.value];
      }
    }

    /** The part of verifyProtectedFilesHashes for one file. */
    method AssessFile(ctx: Context, i: nat)
      requires p.Proper() && IsSound() && i < |p.files| && PlannedWhole(p, disk, places, renames)
      modifies this`damage, this`renames, ctx`failed
      ensures IsSound() && damage.Keys == old(damage).Keys && PlannedWhole(p, disk, places, renames)
      ensures old(ctx.failed) ==> ctx.failed
      ensures forall id :: id in damage && id != p.files[i].fileID ==> damage[id] == old(damage)[id]
      ensures forall id :: id != p.files[i].fileID ==> SamePlan(old(renames), renames, id)
      ensures IsAssessed(damage[p.files[i].fileID])
      ensures HashKnown(p, disk, places, p.files[i], old(damage), old(renames), damage, renames, ctx.failed)
    {
      hide Par2Set.Proper, HasContent, AllIn, Sound, PlannedWhole, IsRename, HashKnown, HashDamage;
      var fd := p.files[i];
      ghost var had, rest := damage, renames;
      ProperFile(p, i);
      SoundHasDamage(p, disk, damage, renames, places);
      if damage[fd.fileID] == DamageNone || damage[fd.fileID] == DamageWrongSize || fd.fileID in renames {
        RenamedNeedsRebuild(p, disk, damage, renames, places, i);
        HashSettled(p, disk, places, fd, damage, renames, ctx.failed);
        return;
      }
      if damage[fd.fileID] == DamageMissing {
        PlanRename(ctx, i);
        HashElsewhere(p, disk, places, fd, had, rest, damage, renames, ctx.failed);
        return;
      }
      var consecutive := AllConsecutive(fd, fd.fileID);
      if consecutive {
        NotElsewhere(p, disk, places, i);
        var d := VerifySingleFileHash(ctx, fd);
        DamageKnown(p, disk, damage, renames, places, i, d);
        HashInPlace(p, disk, places, fd, damage, renames, d, ctx.failed);
        damage := damage[fd.fileID := d];
        return;
      }
      DamageKnown(p, disk, damage, renames, places, i, DamageWrongHash);
      damage := damage[fd.fileID := DamageWrongHash];
      PlanRename(ctx, i);
      HashElsewhere(p, disk, places, fd, had, rest, damage, renames, ctx.failed);
    }

    /** verifyProtectedFilesHashes */
    method VerifyProtectedFilesHashes(ctx: Context)
      requires p.Proper() && IsSound() && p.blockSize > 0 && PlannedWhole(p, disk, places, renames)
      modifies this`damage, this`renames, ctx`failed
      ensures IsSound() && Assessed(p, disk, damage, places) && damage.Keys == old(damage).Keys
      ensures ctx.Later() && PlannedWhole(p, disk, places, renames)
      ensures HashesKnown(p, disk, places, old(damage), old(renames), damage, renames, |p.files|, ctx.failed)
    {
      hide Par2Set.Proper, Sound, Assessed, IsAssessed, PlannedWhole, HashesKnown, HashKnown;
      SoundHasDamage(p, disk, damage, renames, places);
      NoHashesKnown(p, disk, places, damage, renames, ctx.failed);
      for i := 0 to |p.files|
        invariant IsSound() && damage.Keys == old(damage).Keys
        invariant forall j :: 0 <= j < |p.files| ==> p.files[j].fileID in damage
        invariant forall j :: 0 <= j < i ==> IsAssessed(damage[p.files[j].fileID])
        invariant ctx.Later() && PlannedWhole(p, disk, places, renames)
        invariant HashesKnown(p, disk, places, old(damage), old(renames), damage, renames, i, ctx.failed)
      {
        ghost var had, rest, failed := damage, renames, ctx.failed;
        ProperFile(p, i);
        AssessFile(ctx, i);
        HashesNext(p, disk, places, old(damage), old(renames), had, rest, damage, renames, i, failed, ctx.failed);
      }
      AllAssessed(p, disk, damage, renames, places);
    }

    /** VerifyScans */
    method VerifyScans(ctx: Context) returns (err: Option<VerifyError>, ghost firsts: set<Event>)
      requires p.Proper()
      modifies this`damage, this`renames, this`places, ctx
      ensures err == Some(InvalidSet) <==> p.files != [] && (p.blockSize == 0 || p.TotalBlocks(|p.files|) > MAX_BLOCKS)
      ensures err == Some(WindowTooSmall) ==> p.blockSize < 4
      ensures (err == Some(Cancelled) ==> ctx.cancelled) && (err == Some(Unreadable) ==> ctx.failed) && ctx.Later()
      ensures err.None? ==> IsSound() && Assessed(p, disk, damage, places) && !ctx.cancelled
      ensures err.None? ==> p.blockSize >= 4 && AllInPlaceLocated(p, disk, places) && AllJustified(p, disk, places)
      ensures err.None? && AllEmpty(p, disk) ==> places == map[]
      ensures err.None? && !ctx.failed ==> FoundOut(p, disk, damage, renames, places)
      ensures err.None? ==> FirstReports(p, disk, firsts)
      ensures err.None? && !ctx.failed ==> AllSearched(p, disk, damage, renames, places, firsts)
    {
      hide Par2Set.Proper, Par2Set.Identifiers, Par2Set.TotalBlocks, Sound, Assessed, Early, AllFound, AllEmpty;
      hide AllInPlaceLocated, AllJustified, FirstReports, AllAccounted, AllSearched, FoundOut, PlannedWhole, Resolved;
      hide Prescanned, Scanned, HashesKnown, ExistenceKnown, OnlyMissing;
      firsts := {};
      err := InitFileIntegrity();
      if err.Some? {
        return;
      }
      err := CheckFileExistence(ctx);
      if err.Some? {
        return;
      }
      StartIsSound(p, disk, damage);
      ghost var there := damage;
      var resolved := PrescanCandidateMatches(ctx);
      ghost var copies := renames;
      EarlyRenames(p, disk, damage, renames, places);
      PrescanProtectedMatches(ctx);
      ghost var matched := damage;
      err, firsts := RunScan(ctx, resolved);
      if err.Some? {
        return;
      }
      ghost var scanned := damage;
      VerifyProtectedFilesHashes(ctx);
      var stop := ctx.Err();
      err := if stop then Some(Cancelled) else None;
      if !stop && !ctx.failed {
        VerifiedAll(p, disk, places, there, matched, scanned, copies, damage, renames);
        VerifiedSearch(p, disk, places, matched, scanned, copies, damage, renames, firsts, resolved);
      }
    }

    /** The part of renameMisnamedFiles for one file for which a rename is planned. */
    method RenameFile(ctx: Context, i: nat) returns (done: bool)
      requires p.Proper() && Planned(p, damage, renames) && i < |p.files| && p.files[i].fileID in renames
      modifies this`disk, this`damage, this`renames, this`places, ctx`failed
      ensures (old(ctx.failed) ==> ctx.failed) && (!done && old(renames)[p.files[i].fileID] in disk ==> ctx.failed)
      ensures Planned(p, damage, renames) && damage.Keys == old(damage).Keys
      ensures renames == old(renames) - {p.files[i].fileID}
      ensures damage == if done then old(damage)[p.files[i].fileID := DamageNone] else old(damage)
      ensures !done ==> disk == old(disk) && places == old(places)
      ensures done ==> old(renames)[p.files[i].fileID] in old(disk)
      ensures done ==> disk == Moved(old(disk), old(renames)[p.files[i].fileID], p.files[i].filename)
      ensures done ==> PlacesFollow(p, old(disk), old(places), disk, places, p.files[i], old(renames)[p.files[i].fileID])
      ensures old(InOrder(p, disk, damage, renames, places, i)) ==>
        && InOrder(p, disk, damage, renames, places, i + 1)
        && ProtectedKept(p, old(disk), disk, {old(renames)[p.files[i].fileID]})
    {
      hide Par2Set.Proper, Sound, Assessed, ProtectedKept, Apart, PlacesFollow;
      var fd := p.files[i];
      ProperFile(p, i);
      var source := renames[fd.fileID];
      var mkdirFails := ctx.Fails();
      var renameFails := ctx.Fails();
      if mkdirFails || renameFails || source !in disk {
        if InOrder(p, disk, damage, renames, places, i) {
          RenameDropped(p, disk, damage, renames, places, i);
        }
        KeptAsIs(p, disk, {source});
        renames := renames - {fd.fileID};
        return false;
      }
      disk := Moved(disk, source, fd.filename);
      var moved := Redirected(places, p.candidateFiles[source], fd.fileID);
      renames := renames - {fd.fileID};
      damage := damage[fd.fileID := DamageNone];
      places := PlaceAll(p, moved, fd, fd.fileID);
      RedirectedFollow(p, old(disk), old(places), places, i, source);
      if old(InOrder(p, disk, damage, renames, places, i)) {
        Renamed(p, old(disk), old(damage), old(renames), old(places), i, moved, places);
        RenameKeeps(p, old(disk), old(damage), old(renames), old(places), i);
      }
      done := true;
    }

    /**
      renameMisnamedFiles. What verification has established survives if the renames planned are apart; and when none
      of them fails, the disk is as DiskAfter says.
     */
    method RenameMisnamedFiles(ctx: Context) returns (renamed: nat)
      requires p.Proper() && Planned(p, damage, renames)
      modifies this`disk, this`damage, this`renames, this`places, ctx`failed
      ensures old(ctx.failed) ==> ctx.failed
      ensures Planned(p, damage, renames) && damage.Keys == old(damage).Keys
      ensures forall i :: 0 <= i < |p.files| ==> p.files[i].fileID !in renames
      ensures forall id :: id in damage ==>
        damage[id] == old(damage)[id] || (damage[id] == DamageNone && id in old(renames))
      ensures renamed == 0 ==> damage == old(damage) && disk == old(disk) && places == old(places)
      ensures renamed <= Renames(p, old(renames), |p.files|)
      ensures renamed == Renames(p, old(renames), |p.files|) ==> disk == DiskAfter(p, old(disk), old(renames), |p.files|)
      ensures old(InOrder(p, disk, damage, renames, places, 0)) ==>
        && Sound(p, disk, damage, renames, places) && Assessed(p, disk, damage, places)
        && ProtectedKept(p, old(disk), disk, old(renames).Values)
      ensures old(InOrder(p, disk, damage, renames, places, 0)) ==>
        AllFollow(p, old(disk), old(places), old(renames), disk, places, damage)
      ensures !ctx.failed ==> disk == DiskAfter(p, old(disk), old(renames), |p.files|)
      ensures OnlyMoved(old(disk), disk)
    {
      hide *;
      ghost var first, was, known, planned := disk, places, damage, renames;
      ghost var inOrder := InOrder(p, disk, damage, renames, places, 0);
      renamed := 0;
      CourseBegins(p, first, was, known, planned, inOrder, ctx.failed);
      for i := 0 to |p.files|
        invariant Planned(p, damage, renames) && (old(ctx.failed) ==> ctx.failed)
        invariant Course(p, first, was, known, planned, inOrder, disk, places, damage, renames, renamed, ctx.failed, i)
      {
        ghost var before, at, had, rest, failed := disk, places, damage, renames, ctx.failed;
        if p.files[i].fileID !in renames {
          CourseSkips(p, first, was, known, planned, inOrder, disk, places, damage, renames, renamed, failed, i);
          continue;
        }
        var done := RenameFile(ctx, i);
        CourseGoesOn(p, first, was, known, planned, inOrder, before, at, had, rest, renamed, failed, disk, places, damage,
                     renames, ctx.failed, i, done);
        if done {
          renamed := renamed + 1;
        }
      }
      CourseEnds(p, first, was, known, planned, inOrder, disk, places, damage, renames, renamed, ctx.failed);
    }

    /** shardCountsLocked */
    method CountShards() returns (sc: ShardCounts)
      requires forall i :: 0 <= i < |p.files| ==> p.files[i].fileID in damage
      ensures sc == CountsOf(p, damage, renames, places)
    {
      var usable, unusable, renamesNeeded, rebuilds := 0, 0, 0, 0;
      for i := 0 to |p.files|
        invariant unusable == Unusable(p, places, i) && usable == p.TotalBlocks(i) - unusable
        invariant renamesNeeded == Renames(p, renames, i) && rebuilds == Rebuilds(p, damage, renames, i)
      {
        var fd := p.files[i];
        var count := if p.blockSize == 0 then 0 else BlockCount(fd.byteCount, p.blockSize);
        for k := 0 to count
          invariant unusable == Unusable(p, places, i) + MissingIn(places, fd.fileID, k)
          invariant usable == p.TotalBlocks(i) + k - unusable
        {
          if Block(fd.fileID, k) in places {
            usable := usable + 1;
          } else {
            unusable := unusable + 1;
          }
        }
        if fd.fileID in renames {
          renamesNeeded := renamesNeeded + 1;
        } else if NeedsRebuild(damage[fd.fileID]) {
          rebuilds := rebuilds + 1;
        }
      }
      sc := ShardCounts(usable, unusable, |p.parity|, renamesNeeded, rebuilds);
    }

    /** buildNeedsWrite: the names of the files that have to be written. */
    method BuildNeedsWrite() returns (names: set<string>)
      requires p.blockSize > 0 && forall i :: 0 <= i < |p.files| ==> p.files[i].fileID in damage
      ensures forall name :: name in names <==>
        exists i :: 0 <= i < |p.files| && p.files[i].filename == name && MustWrite(p, damage, places, p.files[i])
    {
      hide AllIn;
      names := {};
      for i := 0 to |p.files|
        invariant forall name :: name in names <==>
          exists j :: 0 <= j < i && p.files[j].filename == name && MustWrite(p, damage, places, p.files[j])
      {
        var fd := p.files[i];
        if NeedsRebuild(damage[fd.fileID]) {
          names := names + {fd.filename};
          continue;
        }
        var all := AllConsecutive(fd, fd.fileID);
        if !all {
          names := names + {fd.filename};
        }
      }
    }
  }

  /** The file has to be written: it is damaged, or not all of its blocks are where they belong. */
  ghost predicate MustWrite(p: Par2Set, damage: map<FileID, Damage>, places: map<Block, Place>, fd: FileDesc)
    requires p.blockSize > 0
  {
    fd.fileID in damage && (NeedsRebuild(damage[fd.fileID]) || !AllIn(p, places, fd, fd.fileID))
  }

  /** A protected name that is not taken away keeps what it has, unless it gets what it should have. */
  ghost predicate ProtectedKept(p: Par2Set, before: Disk, after: Disk, taken: set<string>) {
    forall i :: 0 <= i < |p.files| && p.files[i].filename !in taken ==>
      HasContent(p, after, p.files[i].filename, p.files[i]) || SameAt(before, after, p.files[i].filename)
  }

  predicate SameAt(before: Disk, after: Disk, path: string) {
    (path in before <==> path in after) && (path in after ==> after[path] == before[path])
  }

  lemma KeptAsIs(p: Par2Set, disk: Disk, taken: set<string>)
    ensures ProtectedKept(p, disk, disk, taken)
  {
  }

  lemma KeptTrans(p: Par2Set, before: Disk, middle: Disk, after: Disk, taken: set<string>, more: set<string>)
    requires ProtectedKept(p, before, middle, taken) && ProtectedKept(p, middle, after, more) && more <= taken
    ensures ProtectedKept(p, before, after, taken)
  {
  }

  // Renaming.

  /** The blocks found in the file from are now in the file to, at the same offsets. */
  function Redirected(places: map<Block, Place>, from: FileID, to: FileID): map<Block, Place> {
    map b | b in places :: if places[b].source == from then Place(to, places[b].offset) else places[b]
  }

  /** The file source now has the name target, and what had that name before is gone. */
  function Moved(disk: Disk, source: string, target: string): Disk
    requires source in disk
  {
    (disk - {source})[target := disk[source]]
  }

  /** What renaming needs to be told: every file has been assessed, and what is to be renamed are candidates. */
  ghost predicate Planned(p: Par2Set, damage: map<FileID, Damage>, renames: map<FileID, string>) {
    && p.blockSize > 0
    && (forall i :: 0 <= i < |p.files| ==> p.files[i].fileID in damage)
    && (forall i :: 0 <= i < |p.files| && p.files[i].fileID in renames ==>
          renames[p.files[i].fileID] in p.candidateFiles)
  }

  predicate SamePlan(before: map<FileID, string>, after: map<FileID, string>, id: FileID) {
    (id in before <==> id in after) && (id in after ==> after[id] == before[id])
  }

  /**
    The renames planned do not get in the way of each other or of intact files: a candidate that is to be renamed is
    either not a protected file at all, or one that is not intact and will not have been put right before.
   */
  predicate Apart(p: Par2Set, damage: map<FileID, Damage>, renames: map<FileID, string>) {
    forall i, k :: 0 <= i < |p.files| && 0 <= k < |p.files| && Takes(p, renames, k, i) ==>
      && p.files[i].fileID in damage && damage[p.files[i].fileID] != DamageNone
      && (p.files[i].fileID in renames ==> k <= i)
  }

  /** The rename planned for file k takes away the file under the name of file i. */
  predicate Takes(p: Par2Set, renames: map<FileID, string>, k: nat, i: nat)
    requires k < |p.files| && i < |p.files|
  {
    p.files[k].fileID in renames && renames[p.files[k].fileID] == p.files[i].filename
  }

  /** Renaming has come to file i, and all is well. */
  ghost predicate InOrder(p: Par2Set, disk: Disk, damage: map<FileID, Damage>, renames: map<FileID, string>,
                          places: map<Block, Place>, i: nat)
  {
    && Sound(p, disk, damage, renames, places) && Assessed(p, disk, damage, places) && Apart(p, damage, renames)
    && forall j :: 0 <= j < i && j < |p.files| ==> p.files[j].fileID !in renames
  }

  lemma InOrderIsSound(p: Par2Set, disk: Disk, damage: map<FileID, Damage>, renames: map<FileID, string>,
                       places: map<Block, Place>, i: nat)
    requires InOrder(p, disk, damage, renames, places, i)
    ensures Sound(p, disk, damage, renames, places) && Assessed(p, disk, damage, places)
  {
    hide Sound, Assessed, Apart;
  }

  lemma NothingPlanned(p: Par2Set, disk: Disk, damage: map<FileID, Damage>, renames: map<FileID, string>,
                       places: map<Block, Place>, i: nat)
    requires InOrder(p, disk, damage, renames, places, i) && i < |p.files| && p.files[i].fileID !in renames
    ensures InOrder(p, disk, damage, renames, places, i + 1)
  {
    hide Sound, Assessed, Apart;
  }

  lemma RenameDropped(p: Par2Set, disk: Disk, damage: map<FileID, Damage>, renames: map<FileID, string>,
                      places: map<Block, Place>, i: nat)
    requires InOrder(p, disk, damage, renames, places, i) && i < |p.files|
    ensures InOrder(p, disk, damage, renames - {p.files[i].fileID}, places, i + 1)
  {
    hide Intact, HasContent;
    var renames' := renames - {p.files[i].fileID};
    forall j, k | 0 <= j < |p.files| && 0 <= k < |p.files| && Takes(p, renames', k, j)
      ensures Takes(p, renames, k, j)
    {
    }
  }

  /** What an intact file and a file that is to be renamed have to do with each other. */
  lemma Unaffected(p: Par2Set, disk: Disk, damage: map<FileID, Damage>, renames: map<FileID, string>,
                   places: map<Block, Place>, i: nat, j: nat)
    requires p.Proper() && InOrder(p, disk, damage, renames, places, i) && i < |p.files| && j < |p.files|
    requires p.files[i].fileID in renames && renames[p.files[i].fileID] in disk
    requires damage[p.files[j].fileID] == DamageNone
    ensures j != i && p.files[j].filename != p.files[i].filename && p.files[j].fileID != p.files[i].fileID
    ensures renames[p.files[i].fileID] != p.files[j].filename
  {
    hide Par2Set.Proper, Intact, HasContent;
    if j != i {
      ProperFile(p, j);
    }
    assert !Takes(p, renames, i, j);
  }

  lemma MovedFiles(disk: Disk, source: string, target: string, other: string)
    requires source in disk && other != target
    ensures other in Moved(disk, source, target) <==> other in disk && other != source
    ensures other in Moved(disk, source, target) ==> Moved(disk, source, target)[other] == disk[other]
  {
  }

  lemma MovedTo(disk: Disk, source: string, target: string)
    requires source in disk
    ensures target in Moved(disk, source, target) && Moved(disk, source, target)[target] == disk[source]
  {
  }

  /** A rename changes what is under its own name for the better. */
  lemma RenameKeeps(p: Par2Set, disk: Disk, damage: map<FileID, Damage>, renames: map<FileID, string>,
                    places: map<Block, Place>, i: nat)
    requires p.Proper() && InOrder(p, disk, damage, renames, places, i) && i < |p.files|
    requires p.files[i].fileID in renames && renames[p.files[i].fileID] in disk
    ensures var source := renames[p.files[i].fileID];
      ProtectedKept(p, disk, Moved(disk, source, p.files[i].filename), {source})
  {
    hide Par2Set.Proper, Moved, Assessed, Apart;
    var fd, source := p.files[i], renames[p.files[i].fileID];
    ProperFile(p, i);
    assert HasContent(p, disk, source, fd);
    MovedTo(disk, source, fd.filename);
    forall j | 0 <= j < |p.files| && p.files[j].filename != source
      ensures HasContent(p, Moved(disk, source, fd.filename), p.files[j].filename, p.files[j])
              || SameAt(disk, Moved(disk, source, fd.filename), p.files[j].filename)
    {
      if j != i {
        MovedFiles(disk, source, fd.filename, p.files[j].filename);
      }
    }
  }

  /** After a rename the file is intact, the other intact files still are, and the other planned renames are sound. */
  lemma Renamed(p: Par2Set, disk: Disk, damage: map<FileID, Damage>, renames: map<FileID, string>,
                places: map<Block, Place>, i: nat, moved: map<Block, Place>, after: map<Block, Place>)
    requires p.Proper() && InOrder(p, disk, damage, renames, places, i) && i < |p.files|
    requires p.files[i].fileID in renames && renames[p.files[i].fileID] in disk
    requires renames[p.files[i].fileID] in p.candidateFiles
    requires moved == Redirected(places, p.candidateFiles[renames[p.files[i].fileID]], p.files[i].fileID)
    requires AllIn(p, after, p.files[i], p.files[i].fileID)
    requires forall other: FileDesc, from: FileID ::
      other.fileID != p.files[i].fileID && AllIn(p, moved, other, from) ==> AllIn(p, after, other, from)
    ensures var fd := p.files[i];
      InOrder(p, Moved(disk, renames[fd.fileID], fd.filename), damage[fd.fileID := DamageNone], renames - {fd.fileID},
              after, i + 1)
  {
    hide Par2Set.Proper, Apart, Moved, AllIn, RenamesHold, HasContent;
    var fd, source := p.files[i], renames[p.files[i].fileID];
    var disk', damage' := Moved(disk, source, fd.filename), damage[fd.fileID := DamageNone];
    ProperFile(p, i);
    RenamedApart(p, disk, damage, renames, places, i);
    RenamedSources(p, disk, damage, renames, places, i);
    forall j | 0 <= j < |p.files| && damage'[p.files[j].fileID] == DamageNone
      ensures Intact(p, disk', after, p.files[j])
    {
      RenamedIntact(p, disk, damage, renames, places, i, j, moved);
    }
    forall j | 0 <= j < |p.files|
      ensures p.files[j].fileID in damage'
      ensures NeedsRebuild(damage'[p.files[j].fileID]) || damage'[p.files[j].fileID] == DamageNone
    {
      assert p.files[j].fileID in damage;
    }
  }

  lemma RenamedApart(p: Par2Set, disk: Disk, damage: map<FileID, Damage>, renames: map<FileID, string>,
                     places: map<Block, Place>, i: nat)
    requires p.Proper() && InOrder(p, disk, damage, renames, places, i) && i < |p.files|
    requires p.files[i].fileID in renames
    ensures Apart(p, damage[p.files[i].fileID := DamageNone], renames - {p.files[i].fileID})
  {
    hide Par2Set.Proper, Sound, Assessed;
    ProperFile(p, i);
    var renames' := renames - {p.files[i].fileID};
    forall j, k | 0 <= j < |p.files| && 0 <= k < |p.files| && Takes(p, renames', k, j)
      ensures j != i && Takes(p, renames, k, j)
    {
      assert Takes(p, renames, k, j);
    }
  }

  lemma RenamedSources(p: Par2Set, disk: Disk, damage: map<FileID, Damage>, renames: map<FileID, string>,
                       places: map<Block, Place>, i: nat)
    requires p.Proper() && InOrder(p, disk, damage, renames, places, i) && i < |p.files|
    requires p.files[i].fileID in renames && renames[p.files[i].fileID] in disk
    ensures var fd := p.files[i];
      RenamesHold(p, Moved(disk, renames[fd.fileID], fd.filename), damage[fd.fileID := DamageNone],
                  renames - {fd.fileID})
  {
    hide Par2Set.Proper, Assessed, Moved;
    var fd, source := p.files[i], renames[p.files[i].fileID];
    ProperFile(p, i);
    forall k | 0 <= k < |p.files| && k != i && p.files[k].fileID in renames
      ensures renames[p.files[k].fileID] != fd.filename
      ensures var from := renames[p.files[k].fileID];
        from in Moved(disk, source, fd.filename) ==> from in disk && Moved(disk, source, fd.filename)[from] == disk[from]
    {
      assert !Takes(p, renames, k, i);
      MovedFiles(disk, source, fd.filename, renames[p.files[k].fileID]);
    }
  }

  lemma RenamedIntact(p: Par2Set, disk: Disk, damage: map<FileID, Damage>, renames: map<FileID, string>,
                      places: map<Block, Place>, i: nat, j: nat, moved: map<Block, Place>)
    requires p.Proper() && InOrder(p, disk, damage, renames, places, i) && i < |p.files| && j < |p.files|
    requires p.files[i].fileID in renames && renames[p.files[i].fileID] in disk
    requires renames[p.files[i].fileID] in p.candidateFiles
    requires moved == Redirected(places, p.candidateFiles[renames[p.files[i].fileID]], p.files[i].fileID)
    requires j == i || damage[p.files[j].fileID] == DamageNone
    ensures HasContent(p, Moved(disk, renames[p.files[i].fileID], p.files[i].filename), p.files[j].filename, p.files[j])
    ensures j != i ==> p.files[j].fileID != p.files[i].fileID && AllIn(p, moved, p.files[j], p.files[j].fileID)
  {
    hide Par2Set.Proper, GridPos, Apart;
    if j == i {
      assert HasContent(p, disk, renames[p.files[i].fileID], p.files[i]);
    } else {
      assert Intact(p, disk, places, p.files[j]);
      Unaffected(p, disk, damage, renames, places, i, j);
      MovedFiles(disk, renames[p.files[i].fileID], p.files[i].filename, p.files[j].filename);
      ProperFile(p, j);
      CandidateKnown(p, renames[p.files[i].fileID]);
    }
  }

  lemma CandidateKnown(p: Par2Set, path: string)
    requires p.Proper() && path in p.candidateFiles
    ensures p.candidateFiles[path] in p.candidateByID
  {
  }

  // Where located blocks are read from after a rename.

  /** What is under the path of the file that a place is in. */
  function SourceAt(p: Par2Set, disk: Disk, place: Place): Option<Bytes> {
    if place.source in PathsOf(p) && PathsOf(p)[place.source] in disk then Some(disk[PathsOf(p)[place.source]]) else None
  }

  /** The rename of source to target does not overwrite the file, and takes it away only as the candidate it is. */
  predicate Undisturbed(p: Par2Set, place: Place, source: string, target: string) {
    && place.source in PathsOf(p) && PathsOf(p)[place.source] != target
    && (PathsOf(p)[place.source] == source ==> place.source in p.candidateByID)
  }

  /** The block is at the same offset of a file with the same content. */
  predicate SameSource(p: Par2Set, before: Disk, old_: Place, after: Disk, new_: Place) {
    new_.offset == old_.offset && SourceAt(p, after, new_) == SourceAt(p, before, old_)
  }

  /**
    After fd has been put right from source: every block located before still is; those of fd are in place, and the
    others are where they were, or have gone with the file they are in.
   */
  ghost predicate PlacesFollow(p: Par2Set, before: Disk, was: map<Block, Place>, after: Disk, places: map<Block, Place>,
                               fd: FileDesc, source: string)
  {
    && p.blockSize > 0 && AllIn(p, places, fd, fd.fileID)
    && (forall b :: b in places ==> b in was || b.fileID == fd.fileID)
    && forall b :: b in was ==>
      && b in places
      && (b.fileID != fd.fileID && Undisturbed(p, was[b], source, fd.filename) ==>
            SameSource(p, before, was[b], after, places[b]))
      && (b.fileID != fd.fileID ==> places[b] == was[b] || places[b] == Place(fd.fileID, was[b].offset))
      && (b.fileID != fd.fileID && places[b] != was[b] ==>
            was[b].source in p.candidateByID && p.candidateByID[was[b].source] == source)
  }

  lemma RedirectedFollow(p: Par2Set, before: Disk, was: map<Block, Place>, places: map<Block, Place>, i: nat,
                         source: string)
    requires p.Proper() && p.blockSize > 0 && i < |p.files| && source in p.candidateFiles && source in before
    requires AllIn(p, places, p.files[i], p.files[i].fileID)
    requires Placed(p, Redirected(was, p.candidateFiles[source], p.files[i].fileID), places, p.files[i],
                    p.files[i].fileID, BlockCount(p.files[i].byteCount, p.blockSize))
    ensures PlacesFollow(p, before, was, Moved(before, source, p.files[i].filename), places, p.files[i], source)
  {
    hide Par2Set.Proper, AllIn, Moved, PathsOf, BlockCount;
    var fd := p.files[i];
    PathOfFile(p, i);
    PathOfCandidate(p, source);
    MovedTo(before, source, fd.filename);
    forall b | b in was && b.fileID != fd.fileID && Undisturbed(p, was[b], source, fd.filename)
      ensures b in places && SameSource(p, before, was[b], Moved(before, source, fd.filename), places[b])
    {
      if PathsOf(p)[was[b].source] == source {
        OneCandidate(p, was[b].source, source);
      } else {
        MovedFiles(before, source, fd.filename, PathsOf(p)[was[b].source]);
      }
    }
    forall b | b in was && was[b].source == p.candidateFiles[source]
      ensures was[b].source in p.candidateByID && p.candidateByID[was[b].source] == source
    {
      CandidateIsKnown(p, source);
    }
  }

  /**
    Exactly when the rename of a candidate to the name of file i lets a block of another file be read from the same
    content as before: the file it was found in is not taken away under a protected name, and if it is overwritten,
    then by the same content.
   */
  lemma SameSourceIff(p: Par2Set, disk: Disk, i: nat, source: string, was: Place, place: Place)
    requires p.Proper() && i < |p.files| && source in p.candidateFiles && source in disk && source != p.files[i].filename
    requires was.source in PathsOf(p) && PathsOf(p)[was.source] in disk
    requires place == if was.source == p.candidateFiles[source] then Place(p.files[i].fileID, was.offset) else was
    ensures SameSource(p, disk, was, Moved(disk, source, p.files[i].filename), place) <==>
      && (PathsOf(p)[was.source] == source ==> was.source in p.candidateByID)
      && (PathsOf(p)[was.source] == p.files[i].filename ==> disk[p.files[i].filename] == disk[source])
  {
    hide Par2Set.Proper, Moved, PathsOf;
    var path, target := PathsOf(p)[was.source], p.files[i].filename;
    PathOfFile(p, i);
    PathOfCandidate(p, source);
    CandidateIsKnown(p, source);
    MovedTo(disk, source, target);
    if path == source && was.source in p.candidateByID {
      OneCandidate(p, was.source, source);
    }
    if path != target {
      MovedFiles(disk, source, target, path);
    }
  }

  /** Two protected files; the second is registered as a candidate as well, and the content x of the first is in it. */
  function Misplaced(blockSize: nat, x: Bytes, hash: Hash, quick: Hash, pairs: seq<ChecksumPair>,
                     other: seq<ChecksumPair>, md5: Bytes -> Hash): Par2Set
  {
    Par2Set(blockSize, [FileDesc([1], md5(x), quick, |x|, "a.dat"), FileDesc([2], hash, quick, |x|, "b.dat")],
            map[[1] := pairs, [2] := other], map[], map["b.dat" := [3]], map[[3] := "b.dat"], md5)
  }

  /**
    An input for which a located block cannot be read any more: a.dat is missing, its content is in b.dat, and a block
    of b.dat has been found there too, in the protected file. The rename to a.dat, apart as it is, takes it away.
   */
  lemma StaleBlock(blockSize: nat, x: Bytes, hash: Hash, quick: Hash, pairs: seq<ChecksumPair>,
                   other: seq<ChecksumPair>, md5: Bytes -> Hash, places: map<Block, Place>, offset: nat)
    requires blockSize > 0 && x != []
    ensures var p, disk := Misplaced(blockSize, x, hash, quick, pairs, other, md5), map["b.dat" := x];
      var damage, renames := map[[1] := DamageMissing, [2] := DamageWrongHash], map[[1] := "b.dat"];
      && Sound(p, disk, damage, renames, places) && Assessed(p, disk, damage, places) && Apart(p, damage, renames)
      && SourceAt(p, disk, Place([2], offset)) == Some(x)
      && SourceAt(p, Moved(disk, "b.dat", "a.dat"), Place([2], offset)) == None
  {
    var p, disk := Misplaced(blockSize, x, hash, quick, pairs, other, md5), map["b.dat" := x];
    assert "a.dat"[0] != "b.dat"[0];
    hide Intact, BlockCount, PathsOf;
    MisplacedPaths(blockSize, x, hash, quick, pairs, other, md5);
    assert forall i, k :: 0 <= i < 2 && 0 <= k < 2 && Takes(p, map[[1] := "b.dat"], k, i) ==> k == 0 && i == 1;
  }

  lemma MisplacedPaths(blockSize: nat, x: Bytes, hash: Hash, quick: Hash, pairs: seq<ChecksumPair>,
                       other: seq<ChecksumPair>, md5: Bytes -> Hash)
    ensures var p := Misplaced(blockSize, x, hash, quick, pairs, other, md5); [2] in PathsOf(p) && PathsOf(p)[[2]] == "b.dat"
  {
    var p := Misplaced(blockSize, x, hash, quick, pairs, other, md5);
    assert FilePaths(p.files, 0) == map[];
    assert FilePaths(p.files, 1) == map[[1] := "a.dat"];
    assert FilePaths(p.files, 2) == map[[1] := "a.dat", [2] := "b.dat"];
  }

  lemma CandidateIsKnown(p: Par2Set, path: string)
    requires p.Proper() && path in p.candidateFiles
    ensures p.candidateFiles[path] in p.candidateByID && p.candidateByID[p.candidateFiles[path]] == path
  {
  }

  /** A path belongs to one candidate. */
  lemma OneCandidate(p: Par2Set, id: FileID, path: string)
    requires p.Proper() && path in p.candidateFiles && id in PathsOf(p) && PathsOf(p)[id] == path && id in p.candidateByID
    ensures id == p.candidateFiles[path]
  {
  }

  // All renames.

  /** No file has a content that none had before. */
  ghost predicate OnlyMoved(before: Disk, after: Disk) {
    forall path :: path in after ==> exists q :: q in before && before[q] == after[path]
  }

  lemma NothingMoved(disk: Disk)
    ensures OnlyMoved(disk, disk)
  {
  }

  lemma MovedOnly(first: Disk, before: Disk, source: string, target: string)
    requires OnlyMoved(first, before) && source in before
    ensures OnlyMoved(first, Moved(before, source, target))
  {
  }

  /** No rename from file i on disturbs the place. */
  predicate SafeFrom(p: Par2Set, planned: map<FileID, string>, place: Place, i: nat) {
    place.source in PathsOf(p) && forall k :: i <= k < |p.files| && p.files[k].fileID in planned ==>
      Undisturbed(p, place, planned[p.files[k].fileID], p.files[k].filename)
  }

  /** A rename has been carried out for the file of the block. */
  predicate PutRightFor(planned: map<FileID, string>, damage: map<FileID, Damage>, b: Block) {
    b.fileID in planned && b.fileID in damage && damage[b.fileID] == DamageNone
  }

  /**
    Every block located before is located after; and unless its file has been put right, or a rename disturbs the file
    it was found in, it can be read from where it is now as it could from where it was.
   */
  ghost predicate AllFollow(p: Par2Set, before: Disk, was: map<Block, Place>, planned: map<FileID, string>, after: Disk,
                            places: map<Block, Place>, damage: map<FileID, Damage>)
  {
    && (forall b :: b in places ==> b in was || PutRightFor(planned, damage, b))
    && forall b :: b in was ==>
      b in places && (SafeFrom(p, planned, was[b], 0) && !PutRightFor(planned, damage, b) ==>
                        SameSource(p, before, was[b], after, places[b]))
  }

  /** So far for the files below i, and the renames to come do not disturb the new places either. */
  ghost predicate FollowUpto(p: Par2Set, before: Disk, was: map<Block, Place>, planned: map<FileID, string>, after: Disk,
                             places: map<Block, Place>, damage: map<FileID, Damage>, i: nat)
  {
    && (forall b :: b in places ==> b in was || PutRightFor(planned, damage, b))
    && forall b :: b in was ==>
      b in places && (SafeFrom(p, planned, was[b], 0) && !PutRightFor(planned, damage, b) ==>
                        SameSource(p, before, was[b], after, places[b]) && SafeFrom(p, planned, places[b], i))
  }

  lemma FollowAtFirst(p: Par2Set, disk: Disk, places: map<Block, Place>, planned: map<FileID, string>,
                      damage: map<FileID, Damage>)
    ensures FollowUpto(p, disk, places, planned, disk, places, damage, 0)
  {
    hide SafeFrom, SourceAt;
  }

  lemma FollowAll(p: Par2Set, before: Disk, was: map<Block, Place>, planned: map<FileID, string>, after: Disk,
                  places: map<Block, Place>, damage: map<FileID, Damage>)
    requires FollowUpto(p, before, was, planned, after, places, damage, |p.files|)
    ensures AllFollow(p, before, was, planned, after, places, damage)
  {
    hide SafeFrom, SameSource;
  }

  lemma FollowSame(p: Par2Set, before: Disk, was: map<Block, Place>, planned: map<FileID, string>, after: Disk,
                   places: map<Block, Place>, damage: map<FileID, Damage>, i: nat)
    requires FollowUpto(p, before, was, planned, after, places, damage, i)
    ensures FollowUpto(p, before, was, planned, after, places, damage, i + 1)
  {
    hide SameSource, Undisturbed;
    forall b | b in was && SafeFrom(p, planned, was[b], 0) && !PutRightFor(planned, damage, b)
      ensures SafeFrom(p, planned, places[b], i + 1)
    {
      assert SafeFrom(p, planned, places[b], i);
    }
  }

  lemma FollowNext(p: Par2Set, first: Disk, was: map<Block, Place>, known: map<FileID, Damage>,
                   planned: map<FileID, string>, had: map<FileID, Damage>, rest: map<FileID, string>, before: Disk,
                   at: map<Block, Place>, disk: Disk, places: map<Block, Place>, damage: map<FileID, Damage>, i: nat)
    requires p.Proper() && i < |p.files| && p.files[i].fileID in rest && Progress(p, known, planned, had, rest, i)
    requires FollowUpto(p, first, was, planned, before, at, had, i) && InOrder(p, before, had, rest, at, i)
    requires PlacesFollow(p, before, at, disk, places, p.files[i], rest[p.files[i].fileID])
    requires damage == had[p.files[i].fileID := DamageNone]
    ensures FollowUpto(p, first, was, planned, disk, places, damage, i + 1)
  {
    hide *;
    StillPlanned(p, known, planned, had, rest, i);
    forall b | b in was
      ensures b in places
      ensures SafeFrom(p, planned, was[b], 0) && !PutRightFor(planned, damage, b) ==>
        SameSource(p, first, was[b], disk, places[b]) && SafeFrom(p, planned, places[b], i + 1)
    {
      BlockFollows(p, first, was, known, planned, had, rest, before, at, disk, places, damage, i, b);
    }
    forall b | b in places && b !in was
      ensures PutRightFor(planned, damage, b)
    {
      NewBlock(p, first, was, planned, had, rest, before, at, disk, places, damage, i, b);
    }
    FollowFrom(p, first, was, planned, disk, places, damage, i + 1);
  }

  lemma NewBlock(p: Par2Set, first: Disk, was: map<Block, Place>, planned: map<FileID, string>,
                 had: map<FileID, Damage>, rest: map<FileID, string>, before: Disk, at: map<Block, Place>, disk: Disk,
                 places: map<Block, Place>, damage: map<FileID, Damage>, i: nat, b: Block)
    requires i < |p.files| && p.files[i].fileID in rest && p.files[i].fileID in planned
    requires FollowUpto(p, first, was, planned, before, at, had, i)
    requires PlacesFollow(p, before, at, disk, places, p.files[i], rest[p.files[i].fileID])
    requires damage == had[p.files[i].fileID := DamageNone] && b in places && b !in was
    ensures PutRightFor(planned, damage, b)
  {
    hide SafeFrom, SameSource, AllIn, Undisturbed;
  }

  lemma FollowFrom(p: Par2Set, before: Disk, was: map<Block, Place>, planned: map<FileID, string>, after: Disk,
                   places: map<Block, Place>, damage: map<FileID, Damage>, i: nat)
    requires forall b :: b in was ==> b in places
    requires forall b :: b in places ==> b in was || PutRightFor(planned, damage, b)
    requires forall b :: b in was && SafeFrom(p, planned, was[b], 0) && !PutRightFor(planned, damage, b) ==>
      SameSource(p, before, was[b], after, places[b]) && SafeFrom(p, planned, places[b], i)
    ensures FollowUpto(p, before, was, planned, after, places, damage, i)
  {
    hide SafeFrom, SameSource, PutRightFor;
  }

  lemma BlockFollows(p: Par2Set, first: Disk, was: map<Block, Place>, known: map<FileID, Damage>,
                     planned: map<FileID, string>, had: map<FileID, Damage>, rest: map<FileID, string>, before: Disk,
                     at: map<Block, Place>, disk: Disk, places: map<Block, Place>, damage: map<FileID, Damage>, i: nat,
                     b: Block)
    requires p.Proper() && i < |p.files| && p.files[i].fileID in rest && Progress(p, known, planned, had, rest, i)
    requires FollowUpto(p, first, was, planned, before, at, had, i) && InOrder(p, before, had, rest, at, i)
    requires PlacesFollow(p, before, at, disk, places, p.files[i], rest[p.files[i].fileID])
    requires damage == had[p.files[i].fileID := DamageNone] && b in was
    requires p.files[i].fileID in planned && rest[p.files[i].fileID] == planned[p.files[i].fileID]
    ensures b in places
    ensures SafeFrom(p, planned, was[b], 0) && !PutRightFor(planned, damage, b) ==>
      SameSource(p, first, was[b], disk, places[b]) && SafeFrom(p, planned, places[b], i + 1)
  {
    hide Par2Set.Proper, Sound, Assessed, PathsOf, AllIn, SourceAt, Progress, Apart;
    var fd := p.files[i];
    if SafeFrom(p, planned, was[b], 0) && !PutRightFor(planned, damage, b) {
      assert b.fileID != fd.fileID && !PutRightFor(planned, had, b);
      assert SafeFrom(p, planned, at[b], i);
      assert Undisturbed(p, at[b], planned[fd.fileID], fd.filename);
      if places[b] != at[b] {
        NewPlaceSafe(p, known, planned, had, rest, i, places[b]);
      }
    }
  }

  /** The place a block has moved to with its file is safe from the renames that follow. */
  lemma NewPlaceSafe(p: Par2Set, known: map<FileID, Damage>, planned: map<FileID, string>, had: map<FileID, Damage>,
                     rest: map<FileID, string>, i: nat, place: Place)
    requires p.Proper() && i < |p.files| && p.files[i].fileID in rest && Progress(p, known, planned, had, rest, i)
    requires Apart(p, had, rest) && place.source == p.files[i].fileID
    ensures SafeFrom(p, planned, place, i + 1)
  {
    hide Par2Set.Proper, PathsOf;
    PathOfFile(p, i);
    ProperFile(p, i);
    forall k | i + 1 <= k < |p.files| && p.files[k].fileID in planned
      ensures Undisturbed(p, place, planned[p.files[k].fileID], p.files[k].filename)
    {
      assert SamePlan(planned, rest, p.files[k].fileID);
      assert !Takes(p, rest, k, i);
    }
  }

  lemma DiskSkips(p: Par2Set, first: Disk, planned: map<FileID, string>, known: map<FileID, Damage>,
                  had: map<FileID, Damage>, rest: map<FileID, string>, i: nat)
    requires i < |p.files| && Progress(p, known, planned, had, rest, i) && p.files[i].fileID !in rest
    ensures DiskAfter(p, first, planned, i + 1) == DiskAfter(p, first, planned, i)
  {
    assert SamePlan(planned, rest, p.files[i].fileID);
  }

  lemma DiskSteps(p: Par2Set, first: Disk, planned: map<FileID, string>, known: map<FileID, Damage>,
                  had: map<FileID, Damage>, rest: map<FileID, string>, before: Disk, disk: Disk, i: nat, done: bool)
    requires i < |p.files| && Progress(p, known, planned, had, rest, i) && p.files[i].fileID in rest
    requires before == DiskAfter(p, first, planned, i)
    requires var source := rest[p.files[i].fileID];
      if done then source in before && disk == Moved(before, source, p.files[i].filename)
      else source !in before && disk == before
    ensures disk == DiskAfter(p, first, planned, i + 1)
  {
    hide Moved;
    assert SamePlan(planned, rest, p.files[i].fileID);
  }

  // What renaming does when no rename fails.

  /** The disk when the renames planned for the first n files have been carried out one after the other. */
  function DiskAfter(p: Par2Set, disk: Disk, renames: map<FileID, string>, n: nat): Disk
    requires n <= |p.files|
  {
    if n == 0 then disk else
    var before, fd := DiskAfter(p, disk, renames, n - 1), p.files[n - 1];
    if fd.fileID in renames && renames[fd.fileID] in before then Moved(before, renames[fd.fileID], fd.filename)
    else before
  }

  /** Of the renames planned for the first n files, renamed have been carried out; if it is all of them, as DiskAfter says. */
  ghost predicate CarriedOut(p: Par2Set, first: Disk, renames: map<FileID, string>, disk: Disk, renamed: nat, n: nat) {
    n <= |p.files| && renamed <= Renames(p, renames, n)
    && (renamed == Renames(p, renames, n) ==> disk == DiskAfter(p, first, renames, n))
  }

  /** How far renaming has come: the files below i are done, and nothing has changed for the others. */
  ghost predicate Progress(p: Par2Set, known: map<FileID, Damage>, planned: map<FileID, string>,
                           damage: map<FileID, Damage>, renames: map<FileID, string>, i: nat)
  {
    && i <= |p.files| && damage.Keys == known.Keys && renames.Keys <= planned.Keys
    && (forall j :: 0 <= j < i ==> p.files[j].fileID !in renames)
    && (forall j :: i <= j < |p.files| ==> SamePlan(planned, renames, p.files[j].fileID))
    && (forall id :: id in damage ==> damage[id] == known[id] || (damage[id] == DamageNone && id in planned))
  }

  /** All that is known about the renames of the first i files. */
  ghost predicate Course(p: Par2Set, first: Disk, was: map<Block, Place>, known: map<FileID, Damage>,
                         planned: map<FileID, string>, inOrder: bool, disk: Disk, places: map<Block, Place>,
                         damage: map<FileID, Damage>, renames: map<FileID, string>, renamed: nat, failed: bool, i: nat)
  {
    && Progress(p, known, planned, damage, renames, i) && CarriedOut(p, first, planned, disk, renamed, i)
    && OnlyMoved(first, disk) && (!failed ==> disk == DiskAfter(p, first, planned, i))
    && (renamed == 0 ==> damage == known && disk == first && places == was)
    && (inOrder ==>
          && InOrder(p, disk, damage, renames, places, i) && ProtectedKept(p, first, disk, planned.Values)
          && FollowUpto(p, first, was, planned, disk, places, damage, i))
  }

  lemma CourseBegins(p: Par2Set, first: Disk, was: map<Block, Place>, known: map<FileID, Damage>,
                     planned: map<FileID, string>, inOrder: bool, failed: bool)
    requires inOrder ==> InOrder(p, first, known, planned, was, 0)
    ensures Course(p, first, was, known, planned, inOrder, first, was, known, planned, 0, failed, 0)
  {
    hide InOrder, Progress, CarriedOut, OnlyMoved, DiskAfter, ProtectedKept, FollowUpto;
    NoneRenamed(p, first, known, planned);
    KeptAsIs(p, first, planned.Values);
    DiskAtFirst(p, first, planned);
    FollowAtFirst(p, first, was, planned, known);
    NothingMoved(first);
  }

  lemma CourseSkips(p: Par2Set, first: Disk, was: map<Block, Place>, known: map<FileID, Damage>,
                    planned: map<FileID, string>, inOrder: bool, disk: Disk, places: map<Block, Place>,
                    damage: map<FileID, Damage>, renames: map<FileID, string>, renamed: nat, failed: bool, i: nat)
    requires p.Proper() && i < |p.files| && p.files[i].fileID !in renames
    requires Course(p, first, was, known, planned, inOrder, disk, places, damage, renames, renamed, failed, i)
    ensures Course(p, first, was, known, planned, inOrder, disk, places, damage, renames, renamed, failed, i + 1)
  {
    hide Par2Set.Proper, InOrder, Progress, CarriedOut, OnlyMoved, DiskAfter, ProtectedKept, FollowUpto;
    CarriedOutNext(p, first, planned, disk, disk, renamed, i, false);
    ProgressNext(p, known, planned, damage, renames, damage, renames, i);
    DiskSkips(p, first, planned, known, damage, renames, i);
    if inOrder {
      NothingPlanned(p, disk, damage, renames, places, i);
      FollowSame(p, first, was, planned, disk, places, damage, i);
    }
  }

  lemma CourseGoesOn(p: Par2Set, first: Disk, was: map<Block, Place>, known: map<FileID, Damage>,
                     planned: map<FileID, string>, inOrder: bool, before: Disk, at: map<Block, Place>,
                     had: map<FileID, Damage>, rest: map<FileID, string>, renamed: nat, failed: bool, disk: Disk,
                     places: map<Block, Place>, damage: map<FileID, Damage>, renames: map<FileID, string>, later: bool,
                     i: nat, done: bool)
    requires p.Proper() && i < |p.files| && p.files[i].fileID in rest && (failed ==> later)
    requires Course(p, first, was, known, planned, inOrder, before, at, had, rest, renamed, failed, i)
    requires renames == rest - {p.files[i].fileID} && damage.Keys == had.Keys
    requires damage == if done then had[p.files[i].fileID := DamageNone] else had
    requires !done ==> disk == before && places == at && (later || rest[p.files[i].fileID] !in before)
    requires done ==>
      && rest[p.files[i].fileID] in before && disk == Moved(before, rest[p.files[i].fileID], p.files[i].filename)
      && PlacesFollow(p, before, at, disk, places, p.files[i], rest[p.files[i].fileID])
    requires InOrder(p, before, had, rest, at, i) ==>
      && InOrder(p, disk, damage, renames, places, i + 1)
      && ProtectedKept(p, before, disk, {rest[p.files[i].fileID]})
    ensures Course(p, first, was, known, planned, inOrder, disk, places, damage, renames,
                   if done then renamed + 1 else renamed, later, i + 1)
  {
    hide *;
    CourseIs(p, first, was, known, planned, inOrder, before, at, had, rest, renamed, failed, i);
    StillPlanned(p, known, planned, had, rest, i);
    ProgressNext(p, known, planned, had, rest, damage, renames, i);
    CarriedOutNext(p, first, planned, before, disk, renamed, i, done);
    if done {
      MovedOnly(first, before, rest[p.files[i].fileID], p.files[i].filename);
    }
    if !later {
      DiskSteps(p, first, planned, known, had, rest, before, disk, i, done);
    }
    if inOrder {
      if done {
        FollowNext(p, first, was, known, planned, had, rest, before, at, disk, places, damage, i);
      } else {
        FollowSame(p, first, was, planned, disk, places, damage, i);
      }
      KeptTrans(p, first, before, disk, planned.Values, {planned[p.files[i].fileID]});
    }
    CourseFrom(p, first, was, known, planned, inOrder, disk, places, damage, renames,
               if done then renamed + 1 else renamed, later, i + 1);
  }

  lemma CourseIs(p: Par2Set, first: Disk, was: map<Block, Place>, known: map<FileID, Damage>,
                 planned: map<FileID, string>, inOrder: bool, disk: Disk, places: map<Block, Place>,
                 damage: map<FileID, Damage>, renames: map<FileID, string>, renamed: nat, failed: bool, i: nat)
    requires Course(p, first, was, known, planned, inOrder, disk, places, damage, renames, renamed, failed, i)
    ensures Progress(p, known, planned, damage, renames, i) && CarriedOut(p, first, planned, disk, renamed, i)
    ensures OnlyMoved(first, disk) && (!failed ==> i <= |p.files| && disk == DiskAfter(p, first, planned, i))
    ensures renamed == 0 ==> damage == known && disk == first && places == was
    ensures inOrder ==>
      && InOrder(p, disk, damage, renames, places, i) && ProtectedKept(p, first, disk, planned.Values)
      && FollowUpto(p, first, was, planned, disk, places, damage, i)
  {
    hide InOrder, CarriedOut, OnlyMoved, DiskAfter, ProtectedKept, FollowUpto;
  }

  lemma CourseFrom(p: Par2Set, first: Disk, was: map<Block, Place>, known: map<FileID, Damage>,
                   planned: map<FileID, string>, inOrder: bool, disk: Disk, places: map<Block, Place>,
                   damage: map<FileID, Damage>, renames: map<FileID, string>, renamed: nat, failed: bool, i: nat)
    requires i <= |p.files|
    requires Progress(p, known, planned, damage, renames, i) && CarriedOut(p, first, planned, disk, renamed, i)
    requires OnlyMoved(first, disk) && (!failed ==> disk == DiskAfter(p, first, planned, i))
    requires renamed == 0 ==> damage == known && disk == first && places == was
    requires inOrder ==>
      && InOrder(p, disk, damage, renames, places, i) && ProtectedKept(p, first, disk, planned.Values)
      && FollowUpto(p, first, was, planned, disk, places, damage, i)
    ensures Course(p, first, was, known, planned, inOrder, disk, places, damage, renames, renamed, failed, i)
  {
    hide InOrder, Progress, CarriedOut, OnlyMoved, DiskAfter, ProtectedKept, FollowUpto;
  }

  lemma CourseEnds(p: Par2Set, first: Disk, was: map<Block, Place>, known: map<FileID, Damage>,
                   planned: map<FileID, string>, inOrder: bool, disk: Disk, places: map<Block, Place>,
                   damage: map<FileID, Damage>, renames: map<FileID, string>, renamed: nat, failed: bool)
    requires Course(p, first, was, known, planned, inOrder, disk, places, damage, renames, renamed, failed, |p.files|)
    ensures damage.Keys == known.Keys && forall i :: 0 <= i < |p.files| ==> p.files[i].fileID !in renames
    ensures forall id :: id in damage ==> damage[id] == known[id] || (damage[id] == DamageNone && id in planned)
    ensures renamed == 0 ==> damage == known && disk == first && places == was
    ensures renamed <= Renames(p, planned, |p.files|)
    ensures renamed == Renames(p, planned, |p.files|) || !failed ==> disk == DiskAfter(p, first, planned, |p.files|)
    ensures OnlyMoved(first, disk)
    ensures inOrder ==>
      && Sound(p, disk, damage, renames, places) && Assessed(p, disk, damage, places)
      && ProtectedKept(p, first, disk, planned.Values) && AllFollow(p, first, was, planned, disk, places, damage)
  {
    hide *;
    CourseIs(p, first, was, known, planned, inOrder, disk, places, damage, renames, renamed, failed, |p.files|);
    CarriedOutAll(p, first, planned, disk, renamed);
    ProgressAll(p, known, planned, damage, renames);
    if inOrder {
      InOrderIsSound(p, disk, damage, renames, places, |p.files|);
      FollowAll(p, first, was, planned, disk, places, damage);
    }
  }

  lemma NoneRenamed(p: Par2Set, first: Disk, known: map<FileID, Damage>, planned: map<FileID, string>)
    ensures CarriedOut(p, first, planned, first, 0, 0) && Progress(p, known, planned, known, planned, 0)
  {
  }

  lemma ProgressNext(p: Par2Set, known: map<FileID, Damage>, planned: map<FileID, string>, had: map<FileID, Damage>,
                     rest: map<FileID, string>, damage: map<FileID, Damage>, renames: map<FileID, string>, i: nat)
    requires p.Proper() && i < |p.files| && Progress(p, known, planned, had, rest, i)
    requires renames == rest - {p.files[i].fileID} && damage.Keys == had.Keys
    requires damage == had || (p.files[i].fileID in rest && damage == had[p.files[i].fileID := DamageNone])
    ensures Progress(p, known, planned, damage, renames, i + 1)
  {
    hide Par2Set.Proper;
    ProperFile(p, i);
  }

  lemma ProgressAll(p: Par2Set, known: map<FileID, Damage>, planned: map<FileID, string>,
                    damage: map<FileID, Damage>, renames: map<FileID, string>)
    requires Progress(p, known, planned, damage, renames, |p.files|)
    ensures damage.Keys == known.Keys && forall i :: 0 <= i < |p.files| ==> p.files[i].fileID !in renames
    ensures forall id :: id in damage ==> damage[id] == known[id] || (damage[id] == DamageNone && id in planned)
  {
  }

  lemma StillPlanned(p: Par2Set, known: map<FileID, Damage>, planned: map<FileID, string>,
                     damage: map<FileID, Damage>, renames: map<FileID, string>, i: nat)
    requires Progress(p, known, planned, damage, renames, i) && i < |p.files| && p.files[i].fileID in renames
    ensures p.files[i].fileID in planned && renames[p.files[i].fileID] == planned[p.files[i].fileID]
  {
  }

  lemma CarriedOutNext(p: Par2Set, first: Disk, renames: map<FileID, string>, before: Disk, disk: Disk, renamed: nat,
                       i: nat, done: bool)
    requires i < |p.files| && CarriedOut(p, first, renames, before, renamed, i)
    requires var id := p.files[i].fileID;
      if !done then disk == before else
      id in renames && renames[id] in before && disk == Moved(before, renames[id], p.files[i].filename)
    ensures CarriedOut(p, first, renames, disk, if done then renamed + 1 else renamed, i + 1)
  {
    hide Moved;
  }

  lemma CarriedOutAll(p: Par2Set, first: Disk, renames: map<FileID, string>, disk: Disk, renamed: nat)
    requires CarriedOut(p, first, renames, disk, renamed, |p.files|)
    ensures renamed <= Renames(p, renames, |p.files|)
    ensures renamed == Renames(p, renames, |p.files|) ==> disk == DiskAfter(p, first, renames, |p.files|)
  {
  }

  /** A name that the renames from a to b neither take away nor give to a file keeps what it has. */
  lemma {:induction false} NameKept(p: Par2Set, disk: Disk, renames: map<FileID, string>, a: nat, b: nat, name: string)
    requires a <= b <= |p.files|
    requires forall m :: a <= m < b && p.files[m].fileID in renames ==>
      p.files[m].filename != name && renames[p.files[m].fileID] != name
    ensures SameAt(DiskAfter(p, disk, renames, a), DiskAfter(p, disk, renames, b), name)
  {
    hide Moved;
    if a == b {
    } else {
      NameKept(p, disk, renames, a, b - 1, name);
      var before, fd := DiskAfter(p, disk, renames, b - 1), p.files[b - 1];
      if fd.fileID in renames && renames[fd.fileID] in before {
        MovedFiles(before, renames[fd.fileID], fd.filename, name);
      }
    }
  }

  /** A name that a rename takes away is gone unless a later one brings it back. */
  lemma {:induction false} NameGone(p: Par2Set, disk: Disk, renames: map<FileID, string>, k: nat, n: nat, name: string)
    requires k < n <= |p.files| && p.files[k].fileID in renames && renames[p.files[k].fileID] == name
    requires forall m :: k <= m < n && p.files[m].fileID in renames ==> p.files[m].filename != name
    ensures name !in DiskAfter(p, disk, renames, n)
  {
    hide Moved;
    var before, fd := DiskAfter(p, disk, renames, n - 1), p.files[n - 1];
    if k == n - 1 {
      if name in before {
        MovedFiles(before, name, fd.filename, name);
      }
    } else {
      NameGone(p, disk, renames, k, n - 1, name);
      if fd.fileID in renames && renames[fd.fileID] in before {
        MovedFiles(before, renames[fd.fileID], fd.filename, name);
      }
    }
  }

  /** No intact file is under a name that is to be renamed. */
  predicate SparesIntact(p: Par2Set, damage: map<FileID, Damage>, renames: map<FileID, string>) {
    forall i, k :: 0 <= i < |p.files| && 0 <= k < |p.files| && Takes(p, renames, k, i) ==>
      p.files[i].fileID in damage && damage[p.files[i].fileID] != DamageNone
  }

  /**
    Renaming keeps the intact files intact exactly when no file that is to be renamed is one of them. That is not
    ruled out: a candidate may be registered under a protected name, and protected files may have equal contents.
   */
  lemma IntactKeptIff(p: Par2Set, disk: Disk, damage: map<FileID, Damage>, renames: map<FileID, string>,
                      places: map<Block, Place>)
    requires p.Proper() && Sound(p, disk, damage, renames, places)
    ensures SparesIntact(p, damage, renames) <==>
      forall i :: 0 <= i < |p.files| && damage[p.files[i].fileID] == DamageNone ==>
        HasContent(p, DiskAfter(p, disk, renames, |p.files|), p.files[i].filename, p.files[i])
  {
    hide Par2Set.Proper, DiskAfter;
    forall i | 0 <= i < |p.files| && damage[p.files[i].fileID] == DamageNone
      ensures (forall k :: 0 <= k < |p.files| ==> !Takes(p, renames, k, i)) <==>
        HasContent(p, DiskAfter(p, disk, renames, |p.files|), p.files[i].filename, p.files[i])
    {
      ProperFile(p, i);
      assert Intact(p, disk, places, p.files[i]);
      if k :| 0 <= k < |p.files| && Takes(p, renames, k, i) {
        NameGone(p, disk, renames, k, |p.files|, p.files[i].filename);
      } else {
        NeverTaken(p, disk, damage, renames, places, i);
      }
    }
  }

  lemma NeverTaken(p: Par2Set, disk: Disk, damage: map<FileID, Damage>, renames: map<FileID, string>,
                   places: map<Block, Place>, i: nat)
    requires p.Proper() && Sound(p, disk, damage, renames, places) && i < |p.files|
    requires damage[p.files[i].fileID] == DamageNone && forall k :: 0 <= k < |p.files| ==> !Takes(p, renames, k, i)
    ensures HasContent(p, DiskAfter(p, disk, renames, |p.files|), p.files[i].filename, p.files[i])
  {
    hide Par2Set.Proper, DiskAfter;
    assert DiskAfter(p, disk, renames, 0) == disk by { DiskAtFirst(p, disk, renames); }
    assert Intact(p, disk, places, p.files[i]);
    ProperFile(p, i);
    forall m | 0 <= m < |p.files| && p.files[m].fileID in renames
      ensures p.files[m].filename != p.files[i].filename && renames[p.files[m].fileID] != p.files[i].filename
    {
      assert !Takes(p, renames, m, i);
    }
    NameKept(p, disk, renames, 0, |p.files|, p.files[i].filename);
  }

  lemma DiskAtFirst(p: Par2Set, disk: Disk, renames: map<FileID, string>)
    ensures DiskAfter(p, disk, renames, 0) == disk
  {
  }

  /** Every file that is to be renamed is there, and none of them is to be renamed twice. */
  predicate SourcesThere(p: Par2Set, disk: Disk, renames: map<FileID, string>) {
    && (forall i :: 0 <= i < |p.files| && p.files[i].fileID in renames ==> renames[p.files[i].fileID] in disk)
    && (forall i, k :: 0 <= i < k < |p.files| && p.files[i].fileID in renames && p.files[k].fileID in renames ==>
          renames[p.files[i].fileID] != renames[p.files[k].fileID])
  }

  /** The file is marked as intact once the renames have been carried out. */
  predicate SaidIntact(p: Par2Set, damage: map<FileID, Damage>, renames: map<FileID, string>, i: nat)
    requires i < |p.files| && p.files[i].fileID in damage
  {
    damage[p.files[i].fileID] == DamageNone || p.files[i].fileID in renames
  }

  /** All files that renaming leaves marked as intact are intact exactly when the renames planned are apart. */
  lemma RenamingRightIff(p: Par2Set, disk: Disk, damage: map<FileID, Damage>, renames: map<FileID, string>,
                         places: map<Block, Place>)
    requires p.Proper() && Sound(p, disk, damage, renames, places) && SourcesThere(p, disk, renames)
    ensures Apart(p, damage, renames) <==>
      forall i :: 0 <= i < |p.files| && SaidIntact(p, damage, renames, i) ==>
        HasContent(p, DiskAfter(p, disk, renames, |p.files|), p.files[i].filename, p.files[i])
  {
    hide Par2Set.Proper, DiskAfter, Intact, SourcesThere;
    if Apart(p, damage, renames) {
      forall i | 0 <= i < |p.files| && SaidIntact(p, damage, renames, i)
        ensures HasContent(p, DiskAfter(p, disk, renames, |p.files|), p.files[i].filename, p.files[i])
      {
        if damage[p.files[i].fileID] == DamageNone {
          NeverTaken(p, disk, damage, renames, places, i);
        } else {
          PutRight(p, disk, damage, renames, places, i);
        }
      }
    } else {
      var i, k :| 0 <= i < |p.files| && 0 <= k < |p.files| && Takes(p, renames, k, i)
        && (damage[p.files[i].fileID] == DamageNone || (p.files[i].fileID in renames && k > i));
      TakenForGood(p, disk, damage, renames, places, i, k);
    }
  }

  lemma TakenForGood(p: Par2Set, disk: Disk, damage: map<FileID, Damage>, renames: map<FileID, string>,
                     places: map<Block, Place>, i: nat, k: nat)
    requires p.Proper() && Sound(p, disk, damage, renames, places)
    requires i < |p.files| && k < |p.files| && Takes(p, renames, k, i)
    requires damage[p.files[i].fileID] == DamageNone || (p.files[i].fileID in renames && k > i)
    ensures p.files[i].filename !in DiskAfter(p, disk, renames, |p.files|)
  {
    hide Par2Set.Proper, DiskAfter, Intact;
    ProperFile(p, i);
    NameGone(p, disk, renames, k, |p.files|, p.files[i].filename);
  }

  lemma PutRight(p: Par2Set, disk: Disk, damage: map<FileID, Damage>, renames: map<FileID, string>,
                 places: map<Block, Place>, i: nat)
    requires p.Proper() && Sound(p, disk, damage, renames, places) && SourcesThere(p, disk, renames)
    requires Apart(p, damage, renames) && i < |p.files| && p.files[i].fileID in renames
    ensures HasContent(p, DiskAfter(p, disk, renames, |p.files|), p.files[i].filename, p.files[i])
  {
    hide Par2Set.Proper, Intact, Moved;
    var fd, source := p.files[i], renames[p.files[i].fileID];
    ProperFile(p, i);
    assert HasContent(p, disk, source, fd);
    forall m | 0 <= m < i && p.files[m].fileID in renames
      ensures p.files[m].filename != source && renames[p.files[m].fileID] != source
    {
      assert !Takes(p, renames, i, m);
    }
    NameKept(p, disk, renames, 0, i, source);
    var before := DiskAfter(p, disk, renames, i);
    MovedTo(before, source, fd.filename);
    assert DiskAfter(p, disk, renames, i + 1) == Moved(before, source, fd.filename);
    forall m | i + 1 <= m < |p.files| && p.files[m].fileID in renames
      ensures renames[p.files[m].fileID] != fd.filename
    {
      assert !Takes(p, renames, m, i);
    }
    NameKept(p, disk, renames, i + 1, |p.files|, fd.filename);
  }

  // Counting.

  datatype ShardCounts = ShardCounts(usableData: nat, unusableData: nat, usableParity: nat, renamesNeeded: nat,
                                     filesNeedingRebuild: nat)
  {
    predicate RepairNeeded() {
      unusableData > 0 || renamesNeeded > 0 || filesNeedingRebuild > 0
    }

    predicate RepairPossible() {
      usableParity >= unusableData
    }

    /** The counts with more recovery blocks. */
    function With(more: nat): ShardCounts {
      this.(usableParity := usableParity + more)
    }

    /** The smallest number of further recovery blocks with which a repair is possible. */
    function BlocksNeeded(): (n: nat)
      ensures forall m: nat :: With(m).RepairPossible() <==> m >= n
    {
      var deficit := unusableData - usableParity;
      if deficit < 0 then 0 else deficit
    }
  }

  /** The number of blocks below k that have not been located. */
  function MissingIn(places: map<Block, Place>, id: FileID, k: nat): (n: nat)
    ensures n <= k
    ensures n == 0 <==> forall l: nat :: l < k ==> Block(id, l) in places
  {
    if k == 0 then 0 else
    MissingIn(places, id, k - 1) + (if Block(id, k - 1) in places then 0 else 1)
  }

  function Unusable(p: Par2Set, places: map<Block, Place>, n: nat): nat
    requires n <= |p.files|
  {
    if n == 0 || p.blockSize == 0 then 0 else
    Unusable(p, places, n - 1)
    + MissingIn(places, p.files[n - 1].fileID, BlockCount(p.files[n - 1].byteCount, p.blockSize))
  }

  function Renames(p: Par2Set, renames: map<FileID, string>, n: nat): nat
    requires n <= |p.files|
  {
    if n == 0 then 0 else Renames(p, renames, n - 1) + (if p.files[n - 1].fileID in renames then 1 else 0)
  }

  function Rebuilds(p: Par2Set, damage: map<FileID, Damage>, renames: map<FileID, string>, n: nat): nat
    requires n <= |p.files| && forall i :: 0 <= i < n ==> p.files[i].fileID in damage
  {
    if n == 0 then 0 else
    var id := p.files[n - 1].fileID;
    Rebuilds(p, damage, renames, n - 1) + (if id !in renames && NeedsRebuild(damage[id]) then 1 else 0)
  }

  function CountsOf(p: Par2Set, damage: map<FileID, Damage>, renames: map<FileID, string>, places: map<Block, Place>)
    : ShardCounts
    requires forall i :: 0 <= i < |p.files| ==> p.files[i].fileID in damage
  {
    var unusable := Unusable(p, places, |p.files|);
    UnusableBound(p, places, |p.files|);
    ShardCounts(p.TotalBlocks(|p.files|) - unusable, unusable, |p.parity|, Renames(p, renames, |p.files|),
                Rebuilds(p, damage, renames, |p.files|))
  }

  // What the counts are the counts of.

  /** The files among the first n for which a rename is planned. */
  function RenameSet(p: Par2Set, renames: map<FileID, string>, n: nat): set<nat>
    requires n <= |p.files|
  {
    set i: nat | i < n && p.files[i].fileID in renames
  }

  /** The files among the first n that have to be rebuilt. */
  function RebuildSet(p: Par2Set, damage: map<FileID, Damage>, renames: map<FileID, string>, n: nat): set<nat>
    requires n <= |p.files| && forall i :: 0 <= i < n ==> p.files[i].fileID in damage
  {
    set i: nat | i < n && p.files[i].fileID !in renames && NeedsRebuild(damage[p.files[i].fileID])
  }

  lemma SizeWith<X>(s: set<X>, x: X)
    ensures |s + {x}| == if x in s then |s| else |s| + 1
  {
    if x in s {
      assert s + {x} == s;
    }
  }

  lemma SumSize<X>(s: set<X>, a: set<X>, b: set<X>)
    requires s == a + b && a !! b
    ensures |s| == |a| + |b|
  {
  }

  lemma RenameNext(p: Par2Set, renames: map<FileID, string>, n: nat)
    requires 0 < n <= |p.files|
    ensures var before := RenameSet(p, renames, n - 1);
      && n - 1 !in before
      && RenameSet(p, renames, n) == if p.files[n - 1].fileID in renames then before + {n - 1} else before
  {
  }

  lemma {:induction false} RenamesAre(p: Par2Set, renames: map<FileID, string>, n: nat)
    requires n <= |p.files|
    ensures Renames(p, renames, n) == |RenameSet(p, renames, n)|
  {
    if n == 0 {
      assert RenameSet(p, renames, 0) == {};
    } else {
      RenamesAre(p, renames, n - 1);
      RenameNext(p, renames, n);
      hide RenameSet;
      SizeWith(RenameSet(p, renames, n - 1), n - 1);
    }
  }

  lemma RebuildNext(p: Par2Set, damage: map<FileID, Damage>, renames: map<FileID, string>, n: nat)
    requires 0 < n <= |p.files| && forall i :: 0 <= i < n ==> p.files[i].fileID in damage
    ensures var id, before := p.files[n - 1].fileID, RebuildSet(p, damage, renames, n - 1);
      && n - 1 !in before
      && RebuildSet(p, damage, renames, n)
         == if id !in renames && NeedsRebuild(damage[id]) then before + {n - 1} else before
  {
    hide NeedsRebuild;
  }

  lemma {:induction false} RebuildsAre(p: Par2Set, damage: map<FileID, Damage>, renames: map<FileID, string>, n: nat)
    requires n <= |p.files| && forall i :: 0 <= i < n ==> p.files[i].fileID in damage
    ensures Rebuilds(p, damage, renames, n) == |RebuildSet(p, damage, renames, n)|
  {
    hide NeedsRebuild, RebuildSet;
    if n == 0 {
      NoRebuilds(p, damage, renames);
    } else {
      RebuildsAre(p, damage, renames, n - 1);
      RebuildNext(p, damage, renames, n);
      SizeWith(RebuildSet(p, damage, renames, n - 1), n - 1);
    }
  }

  lemma NoRebuilds(p: Par2Set, damage: map<FileID, Damage>, renames: map<FileID, string>)
    ensures RebuildSet(p, damage, renames, 0) == {}
  {
  }

  /** The blocks below k of a file that have not been located. */
  function Lost(places: map<Block, Place>, id: FileID, k: nat): set<Block> {
    BlocksUpto(id, k) - places.Keys
  }

  lemma LostNext(places: map<Block, Place>, id: FileID, k: nat)
    requires k > 0
    ensures var before, last := Lost(places, id, k - 1), Block(id, k - 1);
      last !in before && Lost(places, id, k) == if last in places then before else before + {last}
  {
    hide BlocksUpto;
    var before, last := Lost(places, id, k - 1), Block(id, k - 1);
    forall b
      ensures b in Lost(places, id, k) <==> b in if last in places then before else before + {last}
    {
    }
  }

  lemma {:induction false} MissingAre(places: map<Block, Place>, id: FileID, k: nat)
    ensures MissingIn(places, id, k) == |Lost(places, id, k)|
  {
    hide Lost, BlocksUpto;
    if k == 0 {
      NothingLost(places, id);
    } else {
      MissingAre(places, id, k - 1);
      LostNext(places, id, k);
      SizeWith(Lost(places, id, k - 1), Block(id, k - 1));
    }
  }

  lemma NothingLost(places: map<Block, Place>, id: FileID)
    ensures Lost(places, id, 0) == {}
  {
  }

  /** The blocks of the first n files that have not been located. */
  function AllLost(p: Par2Set, places: map<Block, Place>, n: nat): set<Block>
    requires p.blockSize > 0 && n <= |p.files|
  {
    AllBlocks(p, n) - places.Keys
  }

  lemma {:induction false} UnusableAre(p: Par2Set, places: map<Block, Place>, n: nat)
    requires p.Proper() && p.blockSize > 0 && n <= |p.files|
    ensures Unusable(p, places, n) == |AllLost(p, places, n)| && p.TotalBlocks(n) == |AllBlocks(p, n)|
  {
    hide *;
    if n == 0 {
      NoBlocks(p, places);
    } else {
      UnusableAre(p, places, n - 1);
      var fd := p.files[n - 1];
      var count := BlockCount(fd.byteCount, p.blockSize);
      MissingAre(places, fd.fileID, count);
      BlocksNext(p, places, n);
      CountsNext(p, places, n);
      SumSize(AllBlocks(p, n), AllBlocks(p, n - 1), BlocksUpto(fd.fileID, count));
      SumSize(AllLost(p, places, n), AllLost(p, places, n - 1), Lost(places, fd.fileID, count));
    }
  }

  lemma CountsNext(p: Par2Set, places: map<Block, Place>, n: nat)
    requires p.blockSize > 0 && 0 < n <= |p.files|
    ensures var count := BlockCount(p.files[n - 1].byteCount, p.blockSize);
      && Unusable(p, places, n) == Unusable(p, places, n - 1) + MissingIn(places, p.files[n - 1].fileID, count)
      && p.TotalBlocks(n) == p.TotalBlocks(n - 1) + count
  {
    hide BlockCount;
  }

  lemma NoBlocks(p: Par2Set, places: map<Block, Place>)
    requires p.blockSize > 0
    ensures AllBlocks(p, 0) == {} && AllLost(p, places, 0) == {}
    ensures Unusable(p, places, 0) == 0 && p.TotalBlocks(0) == 0
  {
  }

  lemma BlocksNext(p: Par2Set, places: map<Block, Place>, n: nat)
    requires p.Proper() && p.blockSize > 0 && 0 < n <= |p.files|
    ensures var fd := p.files[n - 1];
      var before, count := AllBlocks(p, n - 1), BlockCount(fd.byteCount, p.blockSize);
      && before !! BlocksUpto(fd.fileID, count) && AllBlocks(p, n) == before + BlocksUpto(fd.fileID, count)
      && AllLost(p, places, n - 1) !! Lost(places, fd.fileID, count)
      && AllLost(p, places, n) == AllLost(p, places, n - 1) + Lost(places, fd.fileID, count)
  {
    hide Par2Set.Proper, BlockCount, BlocksUpto, AllBlocks;
    var fd := p.files[n - 1];
    AllBlocksIs(p, n);
    forall b | b in AllBlocks(p, n - 1)
      ensures b.fileID != fd.fileID
    {
      ApartBlocks(p, n - 1, b);
    }
  }

  lemma AllBlocksIs(p: Par2Set, n: nat)
    requires p.blockSize > 0 && 0 < n <= |p.files|
    ensures AllBlocks(p, n)
      == AllBlocks(p, n - 1) + BlocksUpto(p.files[n - 1].fileID, BlockCount(p.files[n - 1].byteCount, p.blockSize))
  {
    hide BlocksUpto, BlockCount;
  }

  lemma ApartBlocks(p: Par2Set, n: nat, b: Block)
    requires p.Proper() && p.blockSize > 0 && n < |p.files| && b in AllBlocks(p, n)
    ensures b.fileID != p.files[n].fileID
  {
    hide Par2Set.Proper, BlockCount;
    var i := FileOfBlock(p, n, b);
    ProperFile(p, n);
  }

  lemma {:induction false} FileOfBlock(p: Par2Set, n: nat, b: Block) returns (i: nat)
    requires p.blockSize > 0 && n <= |p.files| && b in AllBlocks(p, n)
    ensures i < n && b.fileID == p.files[i].fileID
  {
    hide BlocksUpto, BlockCount, AllBlocks;
    SomeFile(p, n, b);
    AllBlocksIs(p, n);
    if b.fileID == p.files[n - 1].fileID {
      i := n - 1;
    } else {
      i := FileOfBlock(p, n - 1, b);
    }
  }

  lemma SomeFile(p: Par2Set, n: nat, b: Block)
    requires p.blockSize > 0 && n <= |p.files| && b in AllBlocks(p, n)
    ensures n > 0
  {
  }

  /** The counts are the numbers of blocks lost, of files to be renamed and of other files to be rebuilt. */
  lemma CountsAre(p: Par2Set, damage: map<FileID, Damage>, renames: map<FileID, string>, places: map<Block, Place>)
    requires p.Proper() && p.blockSize > 0 && forall i :: 0 <= i < |p.files| ==> p.files[i].fileID in damage
    ensures var counts, n := CountsOf(p, damage, renames, places), |p.files|;
      && counts.unusableData == |AllLost(p, places, n)| && counts.usableData == |AllBlocks(p, n) * places.Keys|
      && counts.usableParity == |p.parity.Keys| && counts.renamesNeeded == |RenameSet(p, renames, n)|
      && counts.filesNeedingRebuild == |RebuildSet(p, damage, renames, n)|
  {
    hide Par2Set.Proper, AllBlocks, RenameSet, RebuildSet;
    var n := |p.files|;
    UnusableAre(p, places, n);
    RenamesAre(p, renames, n);
    RebuildsAre(p, damage, renames, n);
    var all := AllBlocks(p, n);
    SumSize(all, all - places.Keys, all * places.Keys);
    assert |p.parity| == |p.parity.Keys|;
  }

  lemma {:induction false} NothingUnusable(p: Par2Set, places: map<Block, Place>, n: nat)
    requires p.blockSize > 0 && n <= |p.files|
    ensures Unusable(p, places, n) == 0 <==>
      forall i, k: nat :: 0 <= i < n && k < BlockCount(p.files[i].byteCount, p.blockSize) ==>
        Block(p.files[i].fileID, k) in places
  {
    hide BlockCount;
    if n == 0 {
    } else {
      NothingUnusable(p, places, n - 1);
      var fd := p.files[n - 1];
      assert MissingIn(places, fd.fileID, BlockCount(fd.byteCount, p.blockSize)) == 0 <==>
        forall k: nat :: k < BlockCount(fd.byteCount, p.blockSize) ==> Block(fd.fileID, k) in places;
    }
  }

  lemma {:induction false} NothingToDo(p: Par2Set, damage: map<FileID, Damage>, renames: map<FileID, string>, n: nat)
    requires n <= |p.files| && forall i :: 0 <= i < n ==> p.files[i].fileID in damage
    ensures Renames(p, renames, n) == 0 && Rebuilds(p, damage, renames, n) == 0 <==>
      forall i :: 0 <= i < n ==> p.files[i].fileID !in renames && !NeedsRebuild(damage[p.files[i].fileID])
  {
    if n == 0 {
    } else {
      NothingToDo(p, damage, renames, n - 1);
    }
  }

  /** After verification, a repair is needed exactly when some file is not intact. */
  lemma RepairNeededIff(p: Par2Set, disk: Disk, damage: map<FileID, Damage>, renames: map<FileID, string>,
                        places: map<Block, Place>)
    requires Sound(p, disk, damage, renames, places) && Assessed(p, disk, damage, places)
    ensures !CountsOf(p, damage, renames, places).RepairNeeded() <==>
      forall i :: 0 <= i < |p.files| ==> damage[p.files[i].fileID] == DamageNone
    ensures !CountsOf(p, damage, renames, places).RepairNeeded() ==>
      forall i :: 0 <= i < |p.files| ==> Intact(p, disk, places, p.files[i])
  {
    hide GridPos, HasContent;
    NothingUnusable(p, places, |p.files|);
    NothingToDo(p, damage, renames, |p.files|);
    if forall i :: 0 <= i < |p.files| ==> damage[p.files[i].fileID] == DamageNone {
      forall i, k: nat | 0 <= i < |p.files| && k < BlockCount(p.files[i].byteCount, p.blockSize)
        ensures Block(p.files[i].fileID, k) in places
      {
        assert Intact(p, disk, places, p.files[i]);
      }
    }
  }

  /** Once every file has been assessed, the files to be written are those that have to be rebuilt. */
  lemma MustWriteIffRebuild(p: Par2Set, disk: Disk, damage: map<FileID, Damage>, places: map<Block, Place>, i: nat)
    requires Assessed(p, disk, damage, places) && i < |p.files|
    ensures MustWrite(p, damage, places, p.files[i]) <==> NeedsRebuild(damage[p.files[i].fileID])
  {
    hide HasContent, AllIn;
  }

  lemma {:induction false} UnusableBound(p: Par2Set, places: map<Block, Place>, n: nat)
    requires n <= |p.files|
    ensures Unusable(p, places, n) <= p.TotalBlocks(n)
  {
    if n == 0 {
    } else {
      UnusableBound(p, places, n - 1);
    }
  }

  /** A candidate as long as a protected file is not empty. */
  lemma NotEmpty(p: Par2Set, disk: Disk, path: string, fd: FileDesc)
    requires p.Proper() && path in p.candidateFiles && path in disk && fd in p.files && |disk[path]| == fd.byteCount
    ensures !AllEmpty(p, disk)
  {
    hide Par2Set.Proper, FilesOnDisk;
    var i :| 0 <= i < |p.files| && p.files[i] == fd;
    ProperFile(p, i);
    EndOfCandidate(p, disk, path);
  }

  lemma FileNotEmpty(p: Par2Set, disk: Disk, i: nat)
    requires p.Proper() && i < |p.files| && p.files[i].filename in disk
    requires |disk[p.files[i].filename]| == p.files[i].byteCount
    ensures !AllEmpty(p, disk)
  {
    hide Par2Set.Proper, FilesOnDisk;
    ProperFile(p, i);
    FileOnDisk(p, disk, i);
  }

  lemma StartIsSound(p: Par2Set, disk: Disk, damage: map<FileID, Damage>)
    requires ExistenceKnown(p, disk, damage, |p.files|) && (p.files == [] || p.blockSize > 0)
    ensures Sound(p, disk, damage, map[], map[]) && Early(p, disk, damage)
  {
  }

  /** The file is verified or has to be rebuilt. */
  predicate IsAssessed(d: Damage) {
    d == DamageNone || NeedsRebuild(d)
  }

  lemma ProperCandidates(p: Par2Set)
    requires p.Proper()
    ensures forall id :: id in p.candidateByID ==> p.candidateByID[id] in p.candidateFiles
  {
  }

  lemma AllAssessed(p: Par2Set, disk: Disk, damage: map<FileID, Damage>, renames: map<FileID, string>,
                    places: map<Block, Place>)
    requires Sound(p, disk, damage, renames, places) && p.blockSize > 0
    requires forall i :: 0 <= i < |p.files| ==> IsAssessed(damage[p.files[i].fileID])
    ensures Assessed(p, disk, damage, places)
  {
    hide Intact;
  }

  /** Whatever block is on disk where it belongs has been located, unless its file is empty. */
  ghost predicate AllInPlaceLocated(p: Par2Set, disk: Disk, places: map<Block, Place>) {
    p.blockSize > 0 && forall i, k: nat :: 0 <= i < |p.files| && InPlace(p, disk, p.files[i], k) ==>
      disk[p.files[i].filename] == [] || Block(p.files[i].fileID, k) in places
  }

  /** No known file has any content. */
  predicate AllEmpty(p: Par2Set, disk: Disk) {
    forall id :: id in FilesOnDisk(p, disk) ==> FilesOnDisk(p, disk)[id] == []
  }

  /** Before the scan a file is unchecked, missing or verified. */
  ghost predicate Early(p: Par2Set, disk: Disk, damage: map<FileID, Damage>) {
    forall i :: 0 <= i < |p.files| ==>
      && p.files[i].fileID in damage && damage[p.files[i].fileID] in {DamageUnchecked, DamageMissing, DamageNone}
      && (damage[p.files[i].fileID] == DamageMissing ==> p.files[i].filename !in disk)
  }

  lemma DamageKnown(p: Par2Set, disk: Disk, damage: map<FileID, Damage>, renames: map<FileID, string>,
                    places: map<Block, Place>, i: nat, d: Damage)
    requires p.Proper() && p.blockSize > 0 && Sound(p, disk, damage, renames, places) && i < |p.files|
    requires p.files[i].fileID !in renames && (d == DamageNone ==> Intact(p, disk, places, p.files[i]))
    ensures Sound(p, disk, damage[p.files[i].fileID := d], renames, places)
  {
    hide Par2Set.Proper, Intact, HasContent;
    ProperFile(p, i);
  }

  lemma RenamePlanned(p: Par2Set, disk: Disk, damage: map<FileID, Damage>, renames: map<FileID, string>,
                      places: map<Block, Place>, i: nat, path: string)
    requires p.Proper() && Sound(p, disk, damage, renames, places) && i < |p.files|
    requires NeedsRebuild(damage[p.files[i].fileID]) && path in p.candidateFiles
    requires HasContent(p, disk, path, p.files[i])
    ensures Sound(p, disk, damage, renames[p.files[i].fileID := path], places)
  {
    hide Par2Set.Proper, Intact, HasContent;
    ProperFile(p, i);
  }

  lemma RenamedNeedsRebuild(p: Par2Set, disk: Disk, damage: map<FileID, Damage>, renames: map<FileID, string>,
                            places: map<Block, Place>, i: nat)
    requires Sound(p, disk, damage, renames, places) && i < |p.files|
    ensures p.files[i].fileID in renames ==> NeedsRebuild(damage[p.files[i].fileID])
  {
  }

  // What verification finds out when nothing fails.

  /** The file is there with its length, its quick hash and its hash. */
  predicate Undamaged(p: Par2Set, disk: Disk, fd: FileDesc) {
    HasContent(p, disk, fd.filename, fd) && QuickMatch(p, disk[fd.filename], fd)
  }

  /** The prescan has marked those of the first n files that are right, and no others. */
  predicate Prescanned(p: Par2Set, disk: Disk, before: map<FileID, Damage>, after: map<FileID, Damage>, n: nat) {
    n <= |p.files| && forall i :: 0 <= i < n ==>
      var id := p.files[i].fileID;
      && id in before && id in after
      && after[id] == if before[id] != DamageMissing && Undamaged(p, disk, p.files[i]) then DamageNone else before[id]
  }

  /** The scan has found out which of the files that were not settled have the wrong size. */
  predicate Scanned(p: Par2Set, disk: Disk, before: map<FileID, Damage>, after: map<FileID, Damage>) {
    forall i :: 0 <= i < |p.files| ==>
      var fd := p.files[i];
      && fd.fileID in before && fd.fileID in after
      && after[fd.fileID] ==
           if SkipsBlockScan(before[fd.fileID]) then before[fd.fileID] else
           if fd.filename !in disk then DamageMissing else
           if |disk[fd.filename]| != fd.byteCount then DamageWrongSize else before[fd.fileID]
  }

  /** What checking the hash of a file by itself comes to. */
  function HashDamage(p: Par2Set, disk: Disk, fd: FileDesc): Damage {
    if fd.filename !in disk then DamageMissing else if HasContent(p, disk, fd.filename, fd) then DamageNone else DamageWrongHash
  }

  /** The path holds the whole file under another name. */
  ghost predicate IsRename(p: Par2Set, disk: Disk, places: map<Block, Place>, fd: FileDesc, path: string)
    requires p.blockSize > 0
  {
    path != fd.filename && HasContent(p, disk, path, fd) && WholeIn(p, places, fd, path)
  }

  /**
    What the check of hashes does to one file: settled files and files to be renamed stay; a file with all blocks in
    place is judged by its hash, and any other is wrong; a rename is planned if a candidate holds the whole file.
   */
  ghost predicate HashKnown(p: Par2Set, disk: Disk, places: map<Block, Place>, fd: FileDesc,
                            before: map<FileID, Damage>, planned: map<FileID, string>, damage: map<FileID, Damage>,
                            renames: map<FileID, string>, failed: bool)
  {
    && p.blockSize > 0 && fd.fileID in before && fd.fileID in damage
    && (fd.fileID in planned ==> SamePlan(planned, renames, fd.fileID))
    && (if before[fd.fileID] == DamageNone || before[fd.fileID] == DamageWrongSize || before[fd.fileID] == DamageMissing
           || fd.fileID in planned then damage[fd.fileID] == before[fd.fileID] else
        if !AllIn(p, places, fd, fd.fileID) then damage[fd.fileID] == DamageWrongHash else
        failed || damage[fd.fileID] == HashDamage(p, disk, fd))
    && (fd.fileID !in planned && !failed ==>
          (fd.fileID in renames <==>
             before[fd.fileID] != DamageNone && before[fd.fileID] != DamageWrongSize
             && exists path :: IsRename(p, disk, places, fd, path)))
  }

  ghost predicate HashesKnown(p: Par2Set, disk: Disk, places: map<Block, Place>, before: map<FileID, Damage>,
                              planned: map<FileID, string>, damage: map<FileID, Damage>, renames: map<FileID, string>,
                              n: nat, failed: bool)
  {
    && n <= |p.files|
    && (forall i :: 0 <= i < n ==> HashKnown(p, disk, places, p.files[i], before, planned, damage, renames, failed))
    && (forall i :: n <= i < |p.files| ==>
          var id := p.files[i].fileID;
          id in before && id in damage && damage[id] == before[id] && SamePlan(planned, renames, id))
  }

  /** What is known about a file in the end. */
  ghost function FinalDamage(p: Par2Set, disk: Disk, places: map<Block, Place>, fd: FileDesc): Damage
    requires p.blockSize > 0
  {
    if fd.filename !in disk then DamageMissing else
    if |disk[fd.filename]| != fd.byteCount then DamageWrongSize else
    if Undamaged(p, disk, fd) || (HasContent(p, disk, fd.filename, fd) && AllIn(p, places, fd, fd.fileID)) then DamageNone
    else DamageWrongHash
  }

  /** The damage of every file is what it should be, and renames are planned for the files that are found elsewhere. */
  ghost predicate FoundOut(p: Par2Set, disk: Disk, damage: map<FileID, Damage>, renames: map<FileID, string>,
                           places: map<Block, Place>)
  {
    p.blockSize > 0 && forall i :: 0 <= i < |p.files| ==>
      var fd := p.files[i];
      && fd.fileID in damage && damage[fd.fileID] == FinalDamage(p, disk, places, fd)
      && (fd.fileID in renames <==>
            damage[fd.fileID] != DamageNone && damage[fd.fileID] != DamageWrongSize
            && exists path :: IsRename(p, disk, places, fd, path))
  }

  /** Every rename planned is one from a candidate that is there and holds all blocks of the file. */
  ghost predicate PlannedWhole(p: Par2Set, disk: Disk, places: map<Block, Place>, renames: map<FileID, string>) {
    forall i :: 0 <= i < |p.files| && p.files[i].fileID in renames ==>
      p.blockSize > 0 && IsRename(p, disk, places, p.files[i], renames[p.files[i].fileID])
  }

  lemma NoneWhole(p: Par2Set, disk: Disk, places: map<Block, Place>)
    ensures PlannedWhole(p, disk, places, map[])
  {
  }

  lemma WholeKept(p: Par2Set, before: map<Block, Place>, after: map<Block, Place>, fd: FileDesc, path: string)
    requires p.blockSize > 0 && WholeIn(p, before, fd, path)
    requires forall from: FileID :: AllIn(p, before, fd, from) ==> AllIn(p, after, fd, from)
    ensures WholeIn(p, after, fd, path)
  {
    hide AllIn;
    var id :| id in p.candidateByID && p.candidateByID[id] == path && AllIn(p, before, fd, id);
    assert AllIn(p, after, fd, id);
  }

  lemma StillWhole(p: Par2Set, disk: Disk, before: map<Block, Place>, after: map<Block, Place>,
                   renames: map<FileID, string>, i: nat)
    requires p.Proper() && p.blockSize > 0 && PlannedWhole(p, disk, before, renames) && i < |p.files|
    requires p.files[i].fileID !in renames
    requires forall other: FileDesc, from: FileID ::
      other.fileID != p.files[i].fileID && AllIn(p, before, other, from) ==> AllIn(p, after, other, from)
    ensures PlannedWhole(p, disk, after, renames)
  {
    hide Par2Set.Proper, AllIn, HasContent, WholeIn;
    ProperFile(p, i);
    forall j | 0 <= j < |p.files| && p.files[j].fileID in renames
      ensures IsRename(p, disk, after, p.files[j], renames[p.files[j].fileID])
    {
      WholeKept(p, before, after, p.files[j], renames[p.files[j].fileID]);
    }
  }

  lemma NextWhole(p: Par2Set, disk: Disk, damage: map<FileID, Damage>, before: map<Block, Place>,
                  after: map<Block, Place>, renames: map<FileID, string>, i: nat, path: string)
    requires p.Proper() && p.blockSize > 0 && PlannedWhole(p, disk, before, renames) && i < |p.files|
    requires Early(p, disk, damage) && damage[p.files[i].fileID] == DamageMissing
    requires path in p.candidateFiles && HasContent(p, disk, path, p.files[i])
    requires AllIn(p, after, p.files[i], p.candidateFiles[path])
    requires forall other: FileDesc, from: FileID ::
      other.fileID != p.files[i].fileID && AllIn(p, before, other, from) ==> AllIn(p, after, other, from)
    ensures PlannedWhole(p, disk, after, renames[p.files[i].fileID := path])
  {
    hide AllIn, WholeIn, Par2Set.Proper;
    ProperFile(p, i);
    CandidateIs(p, after, p.files[i], path);
    forall j | 0 <= j < |p.files| && j != i && p.files[j].fileID in renames
      ensures IsRename(p, disk, after, p.files[j], renames[p.files[j].fileID])
    {
      WholeKept(p, before, after, p.files[j], renames[p.files[j].fileID]);
    }
  }

  lemma CandidateIs(p: Par2Set, places: map<Block, Place>, fd: FileDesc, path: string)
    requires p.Proper() && p.blockSize > 0 && path in p.candidateFiles && AllIn(p, places, fd, p.candidateFiles[path])
    ensures WholeIn(p, places, fd, path)
  {
    hide AllIn;
  }

  lemma AddedWhole(p: Par2Set, disk: Disk, places: map<Block, Place>, renames: map<FileID, string>, i: nat, path: string)
    requires p.Proper() && p.blockSize > 0 && PlannedWhole(p, disk, places, renames) && i < |p.files|
    requires IsRename(p, disk, places, p.files[i], path)
    ensures PlannedWhole(p, disk, places, renames[p.files[i].fileID := path])
  {
    hide IsRename, Par2Set.Proper;
    ProperFile(p, i);
  }

  /** What the scan adds does not move what was located before. */
  lemma WholeAfterScan(p: Par2Set, disk: Disk, g: Setting, s: State, known: map<Block, Place>,
                       renames: map<FileID, string>)
    requires PlannedWhole(p, disk, known, renames) && g.known == known && Holds(g, s)
    ensures PlannedWhole(p, disk, s.places, renames)
  {
    hide Holds, HasContent, WholeIn;
    KnownKept(g, s);
    forall j | 0 <= j < |p.files| && p.files[j].fileID in renames
      ensures IsRename(p, disk, s.places, p.files[j], renames[p.files[j].fileID])
    {
      hide GridPos;
      WholeKept(p, known, s.places, p.files[j], renames[p.files[j].fileID]);
    }
  }

  /** A file that is whole somewhere else is not in place, and the first block says where to look. */
  lemma FirstBlock(p: Par2Set, places: map<Block, Place>, fd: FileDesc)
    requires p.blockSize > 0 && fd.byteCount > 0
    ensures forall id: FileID :: AllIn(p, places, fd, id) ==>
      Block(fd.fileID, 0) in places && places[Block(fd.fileID, 0)].source == id
  {
    hide GridPos;
    assert BlockCount(fd.byteCount, p.blockSize) > 0;
  }

  lemma NotElsewhere(p: Par2Set, disk: Disk, places: map<Block, Place>, i: nat)
    requires p.Proper() && p.blockSize > 0 && i < |p.files| && AllIn(p, places, p.files[i], p.files[i].fileID)
    ensures forall path :: !IsRename(p, disk, places, p.files[i], path)
  {
    hide Par2Set.Proper, AllIn, HasContent;
    ProperFile(p, i);
    FirstBlock(p, places, p.files[i]);
  }

  // The prescan of candidates.

  function QuickKey(fd: FileDesc): (nat, Hash) {
    (fd.byteCount, fd.sixteenKHash)
  }

  /** Of the missing files among the first n with its quick key, file i is the last. */
  predicate LastMissing(p: Par2Set, damage: map<FileID, Damage>, i: nat, n: nat)
    requires forall j :: 0 <= j < |p.files| ==> p.files[j].fileID in damage
  {
    && i < n <= |p.files| && damage[p.files[i].fileID] == DamageMissing
    && forall j :: i < j < n && damage[p.files[j].fileID] == DamageMissing ==> QuickKey(p.files[j]) != QuickKey(p.files[i])
  }

  /** The candidate has the content of a file for which a rename is planned. */
  ghost predicate CopyOfRenamed(p: Par2Set, disk: Disk, renames: map<FileID, string>, path: string) {
    exists i :: 0 <= i < |p.files| && p.files[i].fileID in renames && HasContent(p, disk, path, p.files[i])
  }

  /** Only candidates that are not there, cannot be read or are such copies are left out of the scan. */
  ghost predicate Resolved(p: Par2Set, disk: Disk, renames: map<FileID, string>, resolved: set<string>, failed: bool) {
    resolved <= p.candidateFiles.Keys && forall path :: path in resolved && path in disk ==>
      failed || CopyOfRenamed(p, disk, renames, path)
  }

  /** If the candidate has the content of a missing file, a rename is planned for that file. */
  ghost predicate MissingMatched(p: Par2Set, disk: Disk, damage: map<FileID, Damage>, renames: map<FileID, string>,
                                 path: string)
  {
    && (forall j :: 0 <= j < |p.files| ==> p.files[j].fileID in damage)
    && forall i :: 0 <= i < |p.files| && LastMissing(p, damage, i, |p.files|) && IsCopy(p, disk, path, p.files[i]) ==>
         p.files[i].fileID in renames
  }

  /** The file under this path has the length, the quick hash and the hash of fd. */
  predicate IsCopy(p: Par2Set, disk: Disk, path: string, fd: FileDesc) {
    HasContent(p, disk, path, fd) && QuickMatch(p, disk[path], fd)
  }

  lemma NothingMatched(p: Par2Set, disk: Disk, damage: map<FileID, Damage>, renames: map<FileID, string>, path: string)
    requires path !in disk && forall j :: 0 <= j < |p.files| ==> p.files[j].fileID in damage
    ensures MissingMatched(p, disk, damage, renames, path)
  {
  }

  /** Of the missing files among the first n, the map holds the last one for every quick key. */
  predicate KeysBelow(p: Par2Set, damage: map<FileID, Damage>, m: map<(nat, Hash), FileDesc>, n: nat) {
    && n <= |p.files| && (forall j :: 0 <= j < |p.files| ==> p.files[j].fileID in damage)
    && (forall i :: 0 <= i < n && LastMissing(p, damage, i, n) ==>
          QuickKey(p.files[i]) in m && m[QuickKey(p.files[i])] == p.files[i])
  }

  predicate KeysMissing(p: Par2Set, damage: map<FileID, Damage>, m: map<(nat, Hash), FileDesc>) {
    KeysBelow(p, damage, m, |p.files|)
  }

  lemma NoKeys(p: Par2Set, damage: map<FileID, Damage>)
    requires forall j :: 0 <= j < |p.files| ==> p.files[j].fileID in damage
    ensures KeysBelow(p, damage, map[], 0) && OnlyTheMissing(p, damage, map[])
  {
  }

  lemma KeysNext(p: Par2Set, damage: map<FileID, Damage>, m: map<(nat, Hash), FileDesc>, i: nat)
    requires i < |p.files| && KeysBelow(p, damage, m, i) && OnlyTheMissing(p, damage, m)
    ensures var fd := p.files[i];
      var next := if damage[fd.fileID] == DamageMissing then m[QuickKey(fd) := fd] else m;
      KeysBelow(p, damage, next, i + 1) && OnlyTheMissing(p, damage, next)
  {
    forall j | 0 <= j < i && LastMissing(p, damage, j, i + 1)
      ensures LastMissing(p, damage, j, i)
      ensures damage[p.files[i].fileID] == DamageMissing ==> QuickKey(p.files[j]) != QuickKey(p.files[i])
    {
    }
  }

  predicate OnlyTheMissing(p: Par2Set, damage: map<FileID, Damage>, m: map<(nat, Hash), FileDesc>) {
    forall key :: key in m ==>
      && m[key] in p.files && m[key].fileID in damage && damage[m[key].fileID] == DamageMissing
      && m[key].byteCount == key.0
  }

  ghost predicate AllMatched(p: Par2Set, disk: Disk, damage: map<FileID, Damage>, renames: map<FileID, string>,
                             paths: set<string>)
  {
    forall path :: path in paths ==> MissingMatched(p, disk, damage, renames, path)
  }

  lemma NoKeyMatched(p: Par2Set, disk: Disk, damage: map<FileID, Damage>, renames: map<FileID, string>,
                     m: map<(nat, Hash), FileDesc>, path: string)
    requires KeysMissing(p, damage, m) && path in disk && (|disk[path]|, QuickHash(p, disk[path])) !in m
    ensures MissingMatched(p, disk, damage, renames, path)
  {
    hide LastMissing, HasContent, QuickHash;
  }

  lemma KeyMatched(p: Par2Set, disk: Disk, damage: map<FileID, Damage>, renames: map<FileID, string>,
                   m: map<(nat, Hash), FileDesc>, path: string)
    requires KeysMissing(p, damage, m) && path in disk && (|disk[path]|, QuickHash(p, disk[path])) in m
    requires var fd := m[(|disk[path]|, QuickHash(p, disk[path]))];
      !HasContent(p, disk, path, fd) || fd.fileID in renames
    ensures MissingMatched(p, disk, damage, renames, path)
  {
    hide LastMissing, HasContent, QuickHash;
  }

  lemma MatchedStays(p: Par2Set, disk: Disk, damage: map<FileID, Damage>, planned: map<FileID, string>,
                     renames: map<FileID, string>, paths: set<string>, path: string)
    requires planned.Keys <= renames.Keys && MissingMatched(p, disk, damage, renames, path)
    ensures AllMatched(p, disk, damage, planned, paths) ==> AllMatched(p, disk, damage, renames, paths + {path})
  {
    hide LastMissing, IsCopy;
  }

  lemma NoneResolved(p: Par2Set, disk: Disk, damage: map<FileID, Damage>, renames: map<FileID, string>, failed: bool)
    ensures Resolved(p, disk, renames, {}, failed) && AllMatched(p, disk, damage, renames, {})
  {
  }

  lemma CopyMatched(p: Par2Set, disk: Disk, renames: map<FileID, string>, fd: FileDesc, path: string)
    requires fd in p.files && fd.fileID in renames && HasContent(p, disk, path, fd)
    ensures CopyOfRenamed(p, disk, renames, path)
  {
    var i :| 0 <= i < |p.files| && p.files[i] == fd;
  }

  lemma ResolvedMore(p: Par2Set, disk: Disk, planned: map<FileID, string>, renames: map<FileID, string>,
                     resolved: set<string>, failed: bool, later: bool, path: string, add: bool)
    requires Resolved(p, disk, planned, resolved, failed) && planned.Keys <= renames.Keys && (failed ==> later)
    requires add ==> path in p.candidateFiles && (path in disk ==> later || CopyOfRenamed(p, disk, renames, path))
    ensures Resolved(p, disk, renames, if add then resolved + {path} else resolved, later)
  {
    hide HasContent;
    forall q | q in resolved && q in disk && !failed
      ensures CopyOfRenamed(p, disk, renames, q)
    {
      assert CopyOfRenamed(p, disk, planned, q);
    }
  }

  // The other stages.

  lemma NonePrescanned(p: Par2Set, disk: Disk, damage: map<FileID, Damage>)
    ensures Prescanned(p, disk, damage, damage, 0)
  {
  }

  lemma EarlyFile(p: Par2Set, disk: Disk, damage: map<FileID, Damage>, i: nat)
    requires Early(p, disk, damage) && i < |p.files|
    ensures p.files[i].fileID in damage
    ensures damage[p.files[i].fileID] in {DamageUnchecked, DamageMissing, DamageNone}
    ensures damage[p.files[i].fileID] == DamageMissing ==> p.files[i].filename !in disk
  {
  }

  lemma EarlyMarked(p: Par2Set, disk: Disk, damage: map<FileID, Damage>, i: nat)
    requires p.Proper() && Early(p, disk, damage) && i < |p.files|
    ensures Early(p, disk, damage[p.files[i].fileID := DamageNone])
  {
    hide Par2Set.Proper;
    ProperFile(p, i);
  }

  lemma PrescannedNext(p: Par2Set, disk: Disk, before: map<FileID, Damage>, had: map<FileID, Damage>,
                       damage: map<FileID, Damage>, i: nat)
    requires p.Proper() && i < |p.files| && p.files[i].fileID in before && p.files[i].fileID in had
    requires had[p.files[i].fileID] == before[p.files[i].fileID]
    requires damage == (if before[p.files[i].fileID] != DamageMissing && Undamaged(p, disk, p.files[i])
                        then had[p.files[i].fileID := DamageNone] else had)
    ensures Prescanned(p, disk, before, had, i) ==> Prescanned(p, disk, before, damage, i + 1)
  {
    hide Par2Set.Proper, Undamaged;
    ProperFile(p, i);
  }

  /** What a scan that has come to its end establishes, and what more if it was not cancelled. */
  lemma ScanResults(p: Par2Set, disk: Disk, g: Setting, m: map<U32, seq<Expected>>, blocks: set<Block>, n: nat, s: State,
                    before: map<FileID, Damage>, damage: map<FileID, Damage>, known: map<Block, Place>,
                    renames: map<FileID, string>, resolved: set<string>, done: bool)
    requires p.Proper() && p.blockSize > 0 && g.blockSize == p.blockSize && g.md5 == p.md5 && g.ends == Ends(p, disk)
    requires g.files == FilesOnDisk(p, disk) && g.known == known
    requires Lists(m, p.checksums, blocks) && Flagged(m, g.table, n) && m.Keys == g.table.Keys
    requires BlocksOfFiles(blocks, p.checksums, p.Identifiers()) && Holds(g, s) && Quiet(s)
    requires before.Keys == p.Identifiers() && Sound(p, disk, before, renames, known) && Early(p, disk, before)
    requires AllByHash(p, disk, known) && PlannedWhole(p, disk, known, renames)
    requires SettledStay(g, p.files, |p.files|, before, damage)
    requires done ==> FilesSearched(g, p.candidateByID.Keys, s, p.files, |p.files|, before, damage)
    requires done ==> CandidatesSearched(g, p.candidateByID.Keys, s, p.candidateFiles,
                                         p.candidateFiles.Keys - resolved - Names(p.files))
    ensures Sound(p, disk, damage, renames, s.places) && AllJustified(p, disk, s.places)
    ensures PlannedWhole(p, disk, s.places, renames)
    ensures done ==> AllInPlaceLocated(p, disk, s.places) && Scanned(p, disk, before, damage)
    ensures done ==> FirstReports(p, disk, FirstsOf(s)) && AllAccounted(p, disk, s.places, FirstsOf(s), before, resolved)
  {
    hide *;
    SettledKeep(p, disk, g, s, before, renames, known, damage);
    ScanJustified(p, disk, g, m, blocks, n, s);
    WholeAfterScan(p, disk, g, s, known, renames);
    if done {
      ScannedDamage(p, disk, g, s, before, damage);
      FirstsAre(p, disk, g, m, blocks, n, s);
      SearchAccounted(p, disk, g, m, blocks, n, s, before, damage, resolved);
      FoundAfterScan(p, disk, g, m, blocks, n, s, before, damage);
      FoundOrSettled(p, disk, before, renames, known, g, s);
    }
  }

  lemma ScannedDamage(p: Par2Set, disk: Disk, g: Setting, s: State, before: map<FileID, Damage>,
                      damage: map<FileID, Damage>)
    requires p.Proper() && g.files == FilesOnDisk(p, disk)
    requires FilesSearched(g, p.candidateByID.Keys, s, p.files, |p.files|, before, damage)
    ensures Scanned(p, disk, before, damage)
  {
    hide Par2Set.Proper, FilesOnDisk, Searched;
    forall i | 0 <= i < |p.files|
      ensures var fd := p.files[i];
        && fd.fileID in before && fd.fileID in damage
        && damage[fd.fileID] ==
             if SkipsBlockScan(before[fd.fileID]) then before[fd.fileID] else
             if fd.filename !in disk then DamageMissing else
             if |disk[fd.filename]| != fd.byteCount then DamageWrongSize else before[fd.fileID]
    {
      FileOnDisk(p, disk, i);
      assert FileSearched(g, p.candidateByID.Keys, s, p.files[i], before, damage);
    }
  }

  lemma HashSettled(p: Par2Set, disk: Disk, places: map<Block, Place>, fd: FileDesc, damage: map<FileID, Damage>,
                    renames: map<FileID, string>, failed: bool)
    requires p.blockSize > 0 && fd.fileID in damage
    requires damage[fd.fileID] == DamageNone || damage[fd.fileID] == DamageWrongSize || fd.fileID in renames
    ensures HashKnown(p, disk, places, fd, damage, renames, damage, renames, failed)
  {
    hide AllIn, IsRename, HashDamage;
  }

  lemma HashElsewhere(p: Par2Set, disk: Disk, places: map<Block, Place>, fd: FileDesc, before: map<FileID, Damage>,
                      planned: map<FileID, string>, damage: map<FileID, Damage>, renames: map<FileID, string>,
                      failed: bool)
    requires p.blockSize > 0 && fd.fileID in before && fd.fileID in damage && fd.fileID !in planned
    requires before[fd.fileID] != DamageNone && before[fd.fileID] != DamageWrongSize
    requires if before[fd.fileID] == DamageMissing then damage[fd.fileID] == DamageMissing
             else damage[fd.fileID] == DamageWrongHash && !AllIn(p, places, fd, fd.fileID)
    requires failed || (fd.fileID in renames <==> exists path :: IsRename(p, disk, places, fd, path))
    ensures HashKnown(p, disk, places, fd, before, planned, damage, renames, failed)
  {
    hide AllIn, IsRename, HashDamage;
  }

  lemma HashInPlace(p: Par2Set, disk: Disk, places: map<Block, Place>, fd: FileDesc, before: map<FileID, Damage>,
                    renames: map<FileID, string>, d: Damage, failed: bool)
    requires p.blockSize > 0 && fd.fileID in before && fd.fileID !in renames && AllIn(p, places, fd, fd.fileID)
    requires before[fd.fileID] != DamageNone && before[fd.fileID] != DamageWrongSize
    requires before[fd.fileID] != DamageMissing && (forall path :: !IsRename(p, disk, places, fd, path))
    requires failed || d == HashDamage(p, disk, fd)
    ensures HashKnown(p, disk, places, fd, before, renames, before[fd.fileID := d], renames, failed)
  {
    hide AllIn, IsRename, HashDamage;
  }

  lemma NoHashesKnown(p: Par2Set, disk: Disk, places: map<Block, Place>, damage: map<FileID, Damage>,
                      renames: map<FileID, string>, failed: bool)
    requires forall i :: 0 <= i < |p.files| ==> p.files[i].fileID in damage
    ensures HashesKnown(p, disk, places, damage, renames, damage, renames, 0, failed)
  {
    hide HashKnown;
  }

  lemma HashesNext(p: Par2Set, disk: Disk, places: map<Block, Place>, before: map<FileID, Damage>,
                   planned: map<FileID, string>, had: map<FileID, Damage>, rest: map<FileID, string>,
                   damage: map<FileID, Damage>, renames: map<FileID, string>, i: nat, failed: bool, later: bool)
    requires p.Proper() && i < |p.files| && HashesKnown(p, disk, places, before, planned, had, rest, i, failed)
    requires damage.Keys == had.Keys && (failed ==> later)
    requires forall id :: id in damage && id != p.files[i].fileID ==> damage[id] == had[id]
    requires forall id :: id != p.files[i].fileID ==> SamePlan(rest, renames, id)
    requires HashKnown(p, disk, places, p.files[i], had, rest, damage, renames, later)
    ensures HashesKnown(p, disk, places, before, planned, damage, renames, i + 1, later)
  {
    hide Par2Set.Proper, HashKnown;
    ProperFile(p, i);
    forall j | 0 <= j < i
      ensures HashKnown(p, disk, places, p.files[j], before, planned, damage, renames, later)
    {
      HashStays(p, disk, places, p.files[j], before, planned, had, rest, damage, renames, failed, later);
    }
    SameHashStart(p, disk, places, p.files[i], before, planned, had, rest, damage, renames, later);
    forall j | i + 1 <= j < |p.files|
      ensures var id := p.files[j].fileID;
        id in before && id in damage && damage[id] == before[id] && SamePlan(planned, renames, id)
    {
      assert p.files[j].fileID != p.files[i].fileID;
      assert SamePlan(rest, renames, p.files[j].fileID);
    }
  }

  lemma HashStays(p: Par2Set, disk: Disk, places: map<Block, Place>, fd: FileDesc, before: map<FileID, Damage>,
                  planned: map<FileID, string>, had: map<FileID, Damage>, rest: map<FileID, string>,
                  damage: map<FileID, Damage>, renames: map<FileID, string>, failed: bool, later: bool)
    requires HashKnown(p, disk, places, fd, before, planned, had, rest, failed) && (failed ==> later)
    requires damage.Keys == had.Keys && (fd.fileID in had ==> damage[fd.fileID] == had[fd.fileID])
    requires SamePlan(rest, renames, fd.fileID)
    ensures HashKnown(p, disk, places, fd, before, planned, damage, renames, later)
  {
    hide AllIn, IsRename, HashDamage;
  }

  lemma SameHashStart(p: Par2Set, disk: Disk, places: map<Block, Place>, fd: FileDesc, before: map<FileID, Damage>,
                      planned: map<FileID, string>, had: map<FileID, Damage>, rest: map<FileID, string>,
                      damage: map<FileID, Damage>, renames: map<FileID, string>, failed: bool)
    requires HashKnown(p, disk, places, fd, had, rest, damage, renames, failed)
    requires fd.fileID in before && before[fd.fileID] == had[fd.fileID] && SamePlan(planned, rest, fd.fileID)
    ensures HashKnown(p, disk, places, fd, before, planned, damage, renames, failed)
  {
    hide AllIn, IsRename, HashDamage;
  }

  /** All stages together. */
  lemma VerifiedAll(p: Par2Set, disk: Disk, places: map<Block, Place>, there: map<FileID, Damage>,
                    matched: map<FileID, Damage>, scanned: map<FileID, Damage>, copies: map<FileID, string>,
                    damage: map<FileID, Damage>, renames: map<FileID, string>)
    requires p.Proper() && p.blockSize > 0 && ExistenceKnown(p, disk, there, |p.files|)
    requires Prescanned(p, disk, there, matched, |p.files|) && Scanned(p, disk, matched, scanned)
    requires HashesKnown(p, disk, places, scanned, copies, damage, renames, |p.files|, false)
    requires OnlyMissing(p, there, copies) && PlannedWhole(p, disk, places, copies)
    ensures FoundOut(p, disk, damage, renames, places)
  {
    hide Par2Set.Proper, AllIn, IsRename, HasContent, QuickMatch, PlannedWhole, ExistenceKnown, Prescanned, Scanned, HashesKnown;
    hide OnlyMissing;
    forall i | 0 <= i < |p.files|
      ensures var fd := p.files[i];
        && fd.fileID in damage && damage[fd.fileID] == FinalDamage(p, disk, places, fd)
        && (fd.fileID in renames <==>
              damage[fd.fileID] != DamageNone && damage[fd.fileID] != DamageWrongSize
              && exists path :: IsRename(p, disk, places, fd, path))
    {
      VerifiedOne(p, disk, places, there, matched, scanned, copies, damage, renames, i);
    }
  }

  lemma VerifiedOne(p: Par2Set, disk: Disk, places: map<Block, Place>, there: map<FileID, Damage>,
                    matched: map<FileID, Damage>, scanned: map<FileID, Damage>, copies: map<FileID, string>,
                    damage: map<FileID, Damage>, renames: map<FileID, string>, i: nat)
    requires p.Proper() && p.blockSize > 0 && ExistenceKnown(p, disk, there, |p.files|) && i < |p.files|
    requires Prescanned(p, disk, there, matched, |p.files|) && Scanned(p, disk, matched, scanned)
    requires HashesKnown(p, disk, places, scanned, copies, damage, renames, |p.files|, false)
    requires OnlyMissing(p, there, copies) && PlannedWhole(p, disk, places, copies)
    ensures var fd := p.files[i];
      && fd.fileID in damage && damage[fd.fileID] == FinalDamage(p, disk, places, fd)
      && (fd.fileID in renames <==>
            damage[fd.fileID] != DamageNone && damage[fd.fileID] != DamageWrongSize
            && exists path :: IsRename(p, disk, places, fd, path))
  {
    hide AllIn, IsRename, QuickHash, Par2Set.Proper;
    var fd := p.files[i];
    if AllIn(p, places, fd, fd.fileID) {
      NotElsewhere(p, disk, places, i);
    }
    assert HashKnown(p, disk, places, fd, scanned, copies, damage, renames, false);
    if fd.fileID in copies {
      assert IsRename(p, disk, places, fd, copies[fd.fileID]);
    }
  }

  /** Renames are planned for missing files only. */
  predicate OnlyMissing(p: Par2Set, damage: map<FileID, Damage>, renames: map<FileID, string>) {
    forall i :: 0 <= i < |p.files| && p.files[i].fileID in renames ==>
      p.files[i].fileID in damage && damage[p.files[i].fileID] == DamageMissing
  }

  lemma EarlyRenames(p: Par2Set, disk: Disk, damage: map<FileID, Damage>, renames: map<FileID, string>,
                     places: map<Block, Place>)
    requires Sound(p, disk, damage, renames, places) && Early(p, disk, damage)
    ensures OnlyMissing(p, damage, renames)
  {
    hide Intact, HasContent;
  }

  // What the search has covered.

  /** The block has the checksums of these bytes. */
  ghost predicate HasChecksums(p: Par2Set, b: Block, w: Bytes) {
    && b.fileID in p.Identifiers() && b.fileID in p.checksums && b.index < |p.checksums[b.fileID]|
    && p.checksums[b.fileID][b.index] == ChecksumPair(p.md5(w), Checksum(w))
  }

  /** Every block with the checksums of these bytes has been located. */
  ghost predicate AllLocated(p: Par2Set, places: map<Block, Place>, w: Bytes) {
    forall b :: HasChecksums(p, b, w) ==> b in places
  }

  /** The position is in a block that the file holds where it belongs; a candidate may be any file. */
  ghost predicate InBlockInPlace(p: Par2Set, source: FileID, content: Bytes, pos: nat)
    requires p.blockSize > 0
  {
    var at := GridPos(pos / p.blockSize, p.blockSize);
    && at <= pos < at + p.blockSize <= |content|
    && exists b :: HasChecksums(p, b, content[at..at + p.blockSize]) && b.index == pos / p.blockSize
         && (b.fileID == source || source in p.candidateByID)
  }

  /** Less than a block before the position, a block was reported for the first time. */
  ghost predicate AfterFirst(firsts: set<Event>, source: FileID, pos: nat, blockSize: nat) {
    exists n: nat, b :: n < pos < n + blockSize && Event(b, Place(source, n)) in firsts
  }

  /** The blocks a window equals are located, or the window could be skipped. */
  ghost predicate WindowAccounted(p: Par2Set, places: map<Block, Place>, firsts: set<Event>, source: FileID,
                                  content: Bytes, pos: nat)
    requires p.blockSize > 0 && pos + p.blockSize <= |content|
  {
    || AllLocated(p, places, content[pos..pos + p.blockSize]) || InBlockInPlace(p, source, content, pos)
    || AfterFirst(firsts, source, pos, p.blockSize)
  }

  /** So it is for every window of the file, and the last block, if it is cut off, has been looked for. */
  ghost predicate FileAccounted(p: Par2Set, disk: Disk, places: map<Block, Place>, firsts: set<Event>, source: FileID,
                                path: string)
  {
    path in disk && disk[path] != [] ==>
      && p.blockSize > 0 && source in Ends(p, disk) && Ends(p, disk)[source] > 0
      && (forall pos: nat :: pos + p.blockSize <= |disk[path]| ==>
            WindowAccounted(p, places, firsts, source, disk[path], pos))
      && (var end := Ends(p, disk)[source];
          end % p.blockSize != 0 ==>
            AllLocated(p, places, WindowBytes(disk[path], GridPos(BlockCount(end, p.blockSize) - 1, p.blockSize), end,
                                              p.blockSize)))
  }

  /** Each block has been reported for the first time at most once, and where it was a window has its checksums. */
  ghost predicate FirstReports(p: Par2Set, disk: Disk, firsts: set<Event>) {
    && (forall e :: e in firsts ==> PlacedByChecksums(p, disk, e.block, e.place))
    && (forall d, e :: d in firsts && e in firsts && d.block == e.block ==> d == e)
  }

  /** The files that were not settled and the candidates left have been searched. */
  ghost predicate AllAccounted(p: Par2Set, disk: Disk, places: map<Block, Place>, firsts: set<Event>,
                               before: map<FileID, Damage>, resolved: set<string>)
  {
    && (forall i :: 0 <= i < |p.files| ==>
          && p.files[i].fileID in before
          && (SkipsBlockScan(before[p.files[i].fileID])
              || FileAccounted(p, disk, places, firsts, p.files[i].fileID, p.files[i].filename)))
    && (forall path :: path in p.candidateFiles && path !in resolved && path !in Names(p.files) ==>
          FileAccounted(p, disk, places, firsts, p.candidateFiles[path], path))
  }

  /**
    Every protected file that is not intact has been searched, and so has every candidate that is no protected file,
    unless it is a copy of a file for which a rename is planned.
   */
  ghost predicate AllSearched(p: Par2Set, disk: Disk, damage: map<FileID, Damage>, renames: map<FileID, string>,
                              places: map<Block, Place>, firsts: set<Event>)
  {
    && (forall i :: 0 <= i < |p.files| ==>
          && p.files[i].fileID in damage
          && (damage[p.files[i].fileID] == DamageNone
              || FileAccounted(p, disk, places, firsts, p.files[i].fileID, p.files[i].filename)))
    && (forall path :: path in p.candidateFiles && path !in Names(p.files) ==>
          || FileAccounted(p, disk, places, firsts, p.candidateFiles[path], path)
          || CopyOfRenamed(p, disk, renames, path))
  }

  /** For each flag claimed: the block it belongs to, and the window of the call that claimed it. */
  ghost function FirstsOf(s: State): set<Event> {
    set f | f in s.claims && s.claims[f].call in s.finished ::
      Event(s.claims[f].loc.block, s.finished[s.claims[f].call].place)
  }

  lemma FirstsAre(p: Par2Set, disk: Disk, g: Setting, m: map<U32, seq<Expected>>, blocks: set<Block>, n: nat, s: State)
    requires g.files == FilesOnDisk(p, disk) && g.blockSize == p.blockSize && g.md5 == p.md5 && Holds(g, s)
    requires g.ends == Ends(p, disk)
    requires Lists(m, p.checksums, blocks) && Flagged(m, g.table, n) && m.Keys == g.table.Keys
    ensures FirstReports(p, disk, FirstsOf(s))
  {
    hide Holds, Lists, Flagged, PlacedByChecksums, FilesOnDisk, Ends;
    forall f | f in s.claims && s.claims[f].call in s.finished
      ensures PlacedByChecksums(p, disk, s.claims[f].loc.block, s.finished[s.claims[f].call].place)
    {
      ClaimIsTrue(g, s, f);
      FoundIsJustified(p, disk, g, m, blocks, n, s.claims[f].loc.block, s.finished[s.claims[f].call].place);
    }
    forall f, h | f in s.claims && h in s.claims && s.claims[f].loc.block == s.claims[h].loc.block
      ensures f == h
    {
      OneClaim(p, g, m, blocks, n, s, f, h);
    }
  }

  lemma ClaimIsTrue(g: Setting, s: State, f: nat)
    requires Holds(g, s) && f in s.claims && s.claims[f].call in s.finished
    ensures g.Truthful(Event(s.claims[f].loc.block, s.finished[s.claims[f].call].place))
  {
    hide EventsHold, Setting.Contains, Setting.FoundAt, FollowedUp;
    var id := s.claims[f].call;
    assert CallHolds(g, s, id, s.finished[id]);
    assert s.claims[f].loc in s.finished[id].hits;
  }

  lemma OneClaim(p: Par2Set, g: Setting, m: map<U32, seq<Expected>>, blocks: set<Block>, n: nat, s: State, f: nat,
                 h: nat)
    requires Lists(m, p.checksums, blocks) && Flagged(m, g.table, n) && m.Keys == g.table.Keys && Holds(g, s)
    requires f in s.claims && h in s.claims && s.claims[f].loc.block == s.claims[h].loc.block
    ensures f == h
  {
    hide EventsHold, CallsHold, Lists, Flagged, Setting.Contains, Setting.OwnFlags, FollowedUp;
    OneLocation(g, m, p.checksums, blocks, n, s.claims[f].loc, s.claims[h].loc);
  }

  lemma KnownIsLocated(p: Par2Set, g: Setting, m: map<U32, seq<Expected>>, blocks: set<Block>, n: nat, s: State,
                       w: Bytes)
    requires Lists(m, p.checksums, blocks) && Flagged(m, g.table, n) && m.Keys == g.table.Keys && g.md5 == p.md5
    requires BlocksOfFiles(blocks, p.checksums, p.Identifiers()) && Holds(g, s) && Quiet(s) && Scan.AllKnown(g, s, w)
    ensures AllLocated(p, s.places, w)
  {
    hide Holds, Lists, Flagged, Quiet, Par2Set.Identifiers, Setting.Equal, Setting.Contains, Checksum;
    forall b | HasChecksums(p, b, w)
      ensures b in s.places
    {
      var loc := ListedIsFound(g, m, p.checksums, blocks, n, b, w);
      EqualIsContained(g, loc, w);
      QuietLocated(g, s, loc);
    }
  }

  lemma ExpectedIsBlock(p: Par2Set, g: Setting, m: map<U32, seq<Expected>>, blocks: set<Block>, n: nat, source: FileID,
                        pos: nat, content: Bytes)
    requires p.blockSize > 0 && g.blockSize == p.blockSize && g.md5 == p.md5
    requires source in g.files && g.files[source] == content
    requires Lists(m, p.checksums, blocks) && Flagged(m, g.table, n) && m.Keys == g.table.Keys
    requires BlocksOfFiles(blocks, p.checksums, p.Identifiers())
    requires InIntactBlock(g, p.candidateByID.Keys, source, pos)
    ensures InBlockInPlace(p, source, content, pos)
  {
    hide Lists, Flagged, Par2Set.Identifiers, Setting.Equal, Checksum, GridPos;
    var at := GridPos(pos / g.blockSize, g.blockSize);
    var w := FullWindow(g, source, at);
    var loc :| Expects(g, p.candidateByID.Keys, source, at, w, loc);
    GridNumber(pos / g.blockSize, g.blockSize);
    FoundIsListed(g, m, p.checksums, blocks, n, loc, w);
    assert HasChecksums(p, loc.block, w);
  }

  lemma NewIsFirst(g: Setting, s: State, source: FileID, pos: nat)
    requires Holds(g, s) && AfterNew(g, s, source, pos)
    ensures AfterFirst(FirstsOf(s), source, pos, g.blockSize)
  {
    hide EventsHold, ClaimsHold, Setting.Contains, Setting.FoundAt;
    var n: nat :| n < pos < n + g.blockSize && ReportedNewAt(s, Place(source, n));
    var id :| id in s.finished && s.finished[id].isNew && s.finished[id].place == Place(source, n);
    assert CallHolds(g, s, id, s.finished[id]);
    var f :| f in s.claims && s.claims[f].call == id;
    assert Event(s.claims[f].loc.block, Place(source, n)) in FirstsOf(s);
  }

  lemma SearchedIsAccounted(p: Par2Set, disk: Disk, g: Setting, m: map<U32, seq<Expected>>, blocks: set<Block>, n: nat,
                            s: State, source: FileID, path: string, byteCount: nat)
    requires p.blockSize > 0 && g.blockSize == p.blockSize && g.md5 == p.md5 && g.ends == Ends(p, disk)
    requires Lists(m, p.checksums, blocks) && Flagged(m, g.table, n) && m.Keys == g.table.Keys
    requires BlocksOfFiles(blocks, p.checksums, p.Identifiers()) && Holds(g, s) && Quiet(s)
    requires path in disk && source in g.files && g.files[source] == disk[path]
    requires EndsAt(g, source, byteCount) && byteCount > 0
    requires Searched(g, p.candidateByID.Keys, s, source, byteCount)
    ensures FileAccounted(p, disk, s.places, FirstsOf(s), source, path)
  {
    hide Holds, Lists, Flagged, Quiet, Par2Set.Identifiers, Setting.Equal, Setting.Contains, Checksum, GridPos, Searched;
    hide FirstsOf, Ends, BlocksOfFiles, InIntactBlock, AfterNew, AfterFirst, InBlockInPlace, AllLocated, Scan.AllKnown;
    var content := disk[path];
    forall pos: nat | pos + p.blockSize <= |content|
      ensures WindowAccounted(p, s.places, FirstsOf(s), source, content, pos)
    {
      EveryWindow(g, p.candidateByID.Keys, s, source, byteCount, pos);
      if WindowExamined(g, s, source, pos) {
        KnownIsLocated(p, g, m, blocks, n, s, FullWindow(g, source, pos));
      } else if AfterNew(g, s, source, pos) {
        NewIsFirst(g, s, source, pos);
      } else {
        ExpectedIsBlock(p, g, m, blocks, n, source, pos, content);
      }
    }
    if byteCount % p.blockSize != 0 {
      var k := BlockCount(byteCount, p.blockSize) - 1;
      LastIsKnown(g, p.candidateByID.Keys, s, source, byteCount);
      KnownIsLocated(p, g, m, blocks, n, s, OnDisk(g, source, byteCount, k));
      CutOffBytes(g, source, byteCount);
    }
  }

  lemma LastIsKnown(g: Setting, candidates: set<FileID>, s: State, source: FileID, byteCount: nat)
    requires source in g.files && g.blockSize > 0 && Searched(g, candidates, s, source, byteCount)
    requires byteCount % g.blockSize != 0
    ensures Scan.AllKnown(g, s, OnDisk(g, source, byteCount, BlockCount(byteCount, g.blockSize) - 1))
  {
    hide FileScanned, AllSent, Scan.AllKnown, OnDisk;
  }

  lemma CutOffBytes(g: Setting, source: FileID, byteCount: nat)
    requires source in g.files && g.blockSize > 0 && byteCount > 0
    ensures var k := BlockCount(byteCount, g.blockSize) - 1;
      OnDisk(g, source, byteCount, k) == WindowBytes(g.files[source], GridPos(k, g.blockSize), byteCount, g.blockSize)
  {
    hide GridPos;
    LastBlock(byteCount, g.blockSize);
  }

  lemma SearchAccounted(p: Par2Set, disk: Disk, g: Setting, m: map<U32, seq<Expected>>, blocks: set<Block>, n: nat,
                        s: State, before: map<FileID, Damage>, damage: map<FileID, Damage>, resolved: set<string>)
    requires p.Proper() && p.blockSize > 0 && g.blockSize == p.blockSize && g.md5 == p.md5 && g.ends == Ends(p, disk)
    requires g.files == FilesOnDisk(p, disk)
    requires Lists(m, p.checksums, blocks) && Flagged(m, g.table, n) && m.Keys == g.table.Keys
    requires BlocksOfFiles(blocks, p.checksums, p.Identifiers()) && Holds(g, s) && Quiet(s)
    requires FilesSearched(g, p.candidateByID.Keys, s, p.files, |p.files|, before, damage)
    requires CandidatesSearched(g, p.candidateByID.Keys, s, p.candidateFiles,
                                p.candidateFiles.Keys - resolved - Names(p.files))
    ensures AllAccounted(p, disk, s.places, FirstsOf(s), before, resolved)
  {
    hide Par2Set.Proper, Holds, Lists, Flagged, Quiet, Par2Set.Identifiers, Searched, FileAccounted, FirstsOf, Ends;
    hide FilesOnDisk, BlocksOfFiles, FilesSearched, CandidatesSearched, Names;
    forall i | 0 <= i < |p.files|
      ensures p.files[i].fileID in before
      ensures SkipsBlockScan(before[p.files[i].fileID])
              || FileAccounted(p, disk, s.places, FirstsOf(s), p.files[i].fileID, p.files[i].filename)
    {
      FileIsAccounted(p, disk, g, m, blocks, n, s, before, damage, i);
    }
    forall path | path in p.candidateFiles && path !in resolved && path !in Names(p.files)
      ensures FileAccounted(p, disk, s.places, FirstsOf(s), p.candidateFiles[path], path)
    {
      CandidateIsAccounted(p, disk, g, m, blocks, n, s, p.candidateFiles.Keys - resolved - Names(p.files), path);
    }
  }

  lemma NotThere(p: Par2Set, disk: Disk, places: map<Block, Place>, firsts: set<Event>, source: FileID, path: string)
    requires path !in disk || disk[path] == []
    ensures FileAccounted(p, disk, places, firsts, source, path)
  {
  }

  lemma FileIsAccounted(p: Par2Set, disk: Disk, g: Setting, m: map<U32, seq<Expected>>, blocks: set<Block>, n: nat,
                        s: State, before: map<FileID, Damage>, damage: map<FileID, Damage>, i: nat)
    requires p.Proper() && p.blockSize > 0 && g.blockSize == p.blockSize && g.md5 == p.md5 && g.ends == Ends(p, disk)
    requires g.files == FilesOnDisk(p, disk) && i < |p.files|
    requires Lists(m, p.checksums, blocks) && Flagged(m, g.table, n) && m.Keys == g.table.Keys
    requires BlocksOfFiles(blocks, p.checksums, p.Identifiers()) && Holds(g, s) && Quiet(s)
    requires FilesSearched(g, p.candidateByID.Keys, s, p.files, |p.files|, before, damage)
    ensures p.files[i].fileID in before
    ensures SkipsBlockScan(before[p.files[i].fileID])
            || FileAccounted(p, disk, s.places, FirstsOf(s), p.files[i].fileID, p.files[i].filename)
  {
    hide Par2Set.Proper, Holds, Lists, Flagged, Quiet, Par2Set.Identifiers, Searched, FileAccounted, FirstsOf, Ends;
    hide FilesOnDisk, BlocksOfFiles, DamageFound;
    var fd := p.files[i];
    ProperFile(p, i);
    FileOnDisk(p, disk, i);
    EndOfFile(p, disk, i);
    assert FileSearched(g, p.candidateByID.Keys, s, fd, before, damage);
    if fd.filename !in disk || disk[fd.filename] == [] {
      NotThere(p, disk, s.places, FirstsOf(s), fd.fileID, fd.filename);
    } else if !SkipsBlockScan(before[fd.fileID]) {
      SearchedIsAccounted(p, disk, g, m, blocks, n, s, fd.fileID, fd.filename, fd.byteCount);
    }
  }

  lemma CandidateIsAccounted(p: Par2Set, disk: Disk, g: Setting, m: map<U32, seq<Expected>>, blocks: set<Block>, n: nat,
                             s: State, paths: set<string>, path: string)
    requires p.Proper() && p.blockSize > 0 && g.blockSize == p.blockSize && g.md5 == p.md5 && g.ends == Ends(p, disk)
    requires g.files == FilesOnDisk(p, disk) && path in p.candidateFiles && path in paths
    requires Lists(m, p.checksums, blocks) && Flagged(m, g.table, n) && m.Keys == g.table.Keys
    requires BlocksOfFiles(blocks, p.checksums, p.Identifiers()) && Holds(g, s) && Quiet(s)
    requires CandidatesSearched(g, p.candidateByID.Keys, s, p.candidateFiles, paths)
    ensures FileAccounted(p, disk, s.places, FirstsOf(s), p.candidateFiles[path], path)
  {
    hide Par2Set.Proper, Holds, Lists, Flagged, Quiet, Par2Set.Identifiers, Searched, FileAccounted, FirstsOf, Ends;
    hide FilesOnDisk, BlocksOfFiles;
    EndOfCandidate(p, disk, path);
    if path !in disk || disk[path] == [] {
      NotThere(p, disk, s.places, FirstsOf(s), p.candidateFiles[path], path);
    } else {
      SearchedIsAccounted(p, disk, g, m, blocks, n, s, p.candidateFiles[path], path, |disk[path]|);
    }
  }

  lemma VerifiedSearch(p: Par2Set, disk: Disk, places: map<Block, Place>, matched: map<FileID, Damage>,
                       scanned: map<FileID, Damage>, copies: map<FileID, string>, damage: map<FileID, Damage>,
                       renames: map<FileID, string>, firsts: set<Event>, resolved: set<string>)
    requires AllAccounted(p, disk, places, firsts, matched, resolved) && Early(p, disk, matched)
    requires Resolved(p, disk, copies, resolved, false) && Scanned(p, disk, matched, scanned)
    requires HashesKnown(p, disk, places, scanned, copies, damage, renames, |p.files|, false)
    ensures AllSearched(p, disk, damage, renames, places, firsts)
  {
    hide FileAccounted, HasContent, AllIn, IsRename, Names;
    forall i | 0 <= i < |p.files|
      ensures p.files[i].fileID in damage
      ensures damage[p.files[i].fileID] == DamageNone
              || FileAccounted(p, disk, places, firsts, p.files[i].fileID, p.files[i].filename)
    {
      assert HashKnown(p, disk, places, p.files[i], scanned, copies, damage, renames, false);
      if matched[p.files[i].fileID] == DamageMissing {
        NotThere(p, disk, places, firsts, p.files[i].fileID, p.files[i].filename);
      }
    }
    forall path | path in p.candidateFiles && path !in Names(p.files) && path in resolved
      ensures FileAccounted(p, disk, places, firsts, p.candidateFiles[path], path) || CopyOfRenamed(p, disk, renames, path)
    {
      if path in disk {
        var i :| 0 <= i < |p.files| && p.files[i].fileID in copies && HasContent(p, disk, path, p.files[i]);
        assert HashKnown(p, disk, places, p.files[i], scanned, copies, damage, renames, false);
      } else {
        NotThere(p, disk, places, firsts, p.candidateFiles[path], path);
      }
    }
  }

  lemma NotRenamed(p: Par2Set, disk: Disk, damage: map<FileID, Damage>, renames: map<FileID, string>,
                   places: map<Block, Place>, i: nat)
    requires Sound(p, disk, damage, renames, places) && i < |p.files|
    requires damage[p.files[i].fileID] in {DamageUnchecked, DamageNone}
    ensures p.files[i].fileID !in renames
  {
  }

  lemma SoundHasDamage(p: Par2Set, disk: Disk, damage: map<FileID, Damage>, renames: map<FileID, string>,
                       places: map<Block, Place>)
    requires Sound(p, disk, damage, renames, places)
    ensures p.files == [] || p.blockSize > 0
    ensures forall i :: 0 <= i < |p.files| ==> p.files[i].fileID in damage
  {
  }

  lemma ValidHolds(scanner: Scanner)
    requires scanner.Valid()
    ensures Holds(scanner.g, scanner.state)
  {
  }

  lemma InitiallyQuiet(g: Setting, s: State)
    requires Initial(g, s)
    ensures Quiet(s) && s.places == g.known
  {
  }

  lemma NoMoreThanBlocks(m: map<U32, seq<Expected>>, checksums: map<FileID, seq<ChecksumPair>>, blocks: set<Block>)
    requires Lists(m, checksums, blocks)
    ensures |m| <= |blocks|
  {
  }

  // The files of a set, by identifier.

  /** The first n protected files by identifier, and then the candidates: buildFileIDToFilenameMap. */
  function FilePaths(files: seq<FileDesc>, n: nat): map<FileID, string>
    requires n <= |files|
  {
    if n == 0 then map[] else FilePaths(files, n - 1)[files[n - 1].fileID := files[n - 1].filename]
  }

  function PathsOf(p: Par2Set): map<FileID, string> {
    FilePaths(p.files, |p.files|) + p.candidateByID
  }

  function FileSizes(files: seq<FileDesc>, n: nat): map<FileID, nat>
    requires n <= |files|
  {
    if n == 0 then map[] else FileSizes(files, n - 1)[files[n - 1].fileID := files[n - 1].byteCount]
  }

  /** Where the last block of a file is cut off: at the protected length, or at the end of a candidate. */
  function Ends(p: Par2Set, disk: Disk): map<FileID, nat> {
    FileSizes(p.files, |p.files|)
    + map id | id in p.candidateByID && p.candidateByID[id] in disk :: |disk[p.candidateByID[id]]|
  }

  lemma {:induction false} FileSizesOf(files: seq<FileDesc>, n: nat, i: nat)
    requires WellFormed(files) && i < n <= |files|
    ensures files[i].fileID in FileSizes(files, n) && FileSizes(files, n)[files[i].fileID] == files[i].byteCount
  {
    if i < n - 1 {
      FileSizesOf(files, n - 1, i);
    } else {
    }
  }

  lemma EndOfFile(p: Par2Set, disk: Disk, i: nat)
    requires p.Proper() && i < |p.files|
    ensures p.files[i].fileID in Ends(p, disk) && Ends(p, disk)[p.files[i].fileID] == p.files[i].byteCount
  {
    FileSizesOf(p.files, |p.files|, i);
  }

  lemma EndOfCandidate(p: Par2Set, disk: Disk, path: string)
    requires p.Proper() && path in p.candidateFiles
    ensures p.candidateFiles[path] in FilesOnDisk(p, disk) <==> path in disk
    ensures path in disk ==> FilesOnDisk(p, disk)[p.candidateFiles[path]] == disk[path]
    ensures path in disk ==> p.candidateFiles[path] in Ends(p, disk) && Ends(p, disk)[p.candidateFiles[path]] == |disk[path]|
  {
    PathOfCandidate(p, path);
  }

  lemma EndsKnown(p: Par2Set, disk: Disk, g: Setting)
    requires p.Proper() && g.files == FilesOnDisk(p, disk) && g.ends == Ends(p, disk)
    ensures FilesEnd(g, p.files) && CandidatesEnd(g, p.candidateFiles)
  {
    hide Par2Set.Proper, Ends, FilesOnDisk;
    forall i | 0 <= i < |p.files|
      ensures EndsAt(g, p.files[i].fileID, p.files[i].byteCount)
    {
      EndOfFile(p, disk, i);
    }
    forall path | path in p.candidateFiles && p.candidateFiles[path] in g.files
      ensures EndsAt(g, p.candidateFiles[path], |g.files[p.candidateFiles[path]]|)
    {
      EndOfCandidate(p, disk, path);
    }
  }

  /** What is on disk under the path of every known identifier. */
  function FilesOnDisk(p: Par2Set, disk: Disk): map<FileID, Bytes> {
    map id | id in PathsOf(p) && PathsOf(p)[id] in disk :: disk[PathsOf(p)[id]]
  }

  lemma {:induction false} FilePathsOf(files: seq<FileDesc>, n: nat, i: nat)
    requires WellFormed(files) && i < n <= |files|
    ensures files[i].fileID in FilePaths(files, n) && FilePaths(files, n)[files[i].fileID] == files[i].filename
  {
    if i == n - 1 {
    } else {
      FilePathsOf(files, n - 1, i);
    }
  }

  lemma PathOfFile(p: Par2Set, i: nat)
    requires p.Proper() && i < |p.files|
    ensures p.files[i].fileID in PathsOf(p) && PathsOf(p)[p.files[i].fileID] == p.files[i].filename
  {
    FilePathsOf(p.files, |p.files|, i);
  }

  lemma FileOnDisk(p: Par2Set, disk: Disk, i: nat)
    requires p.Proper() && i < |p.files|
    ensures p.files[i].fileID in FilesOnDisk(p, disk) <==> p.files[i].filename in disk
    ensures p.files[i].filename in disk ==> FilesOnDisk(p, disk)[p.files[i].fileID] == disk[p.files[i].filename]
  {
    hide Par2Set.Proper;
    PathOfFile(p, i);
  }

  lemma ProperFiles(p: Par2Set, damage: map<FileID, Damage>)
    requires p.Proper() && damage.Keys == p.Identifiers()
    ensures WellFormed(p.files) && forall i :: 0 <= i < |p.files| ==> p.files[i].fileID in damage
  {
  }

  // The number of blocks.

  function AllBlocks(p: Par2Set, n: nat): (s: set<Block>)
    requires p.blockSize > 0 && n <= |p.files|
    ensures |s| <= p.TotalBlocks(n)
  {
    if n == 0 then {} else
    var more := BlocksUpto(p.files[n - 1].fileID, BlockCount(p.files[n - 1].byteCount, p.blockSize));
    UnionSize(AllBlocks(p, n - 1), more);
    AllBlocks(p, n - 1) + more
  }

  lemma UnionSize(a: set<Block>, b: set<Block>)
    ensures |a + b| <= |a| + |b|
  {
    assert a + b == a + (b - a);
    assert |a + (b - a)| == |a| + |b - a|;
    assert b == (b - a) + (b * a);
    assert |b| == |b - a| + |b * a|;
  }

  lemma {:induction false} InAllBlocks(p: Par2Set, n: nat, i: nat, b: Block)
    requires p.blockSize > 0 && i < n <= |p.files|
    requires b.fileID == p.files[i].fileID && b.index < BlockCount(p.files[i].byteCount, p.blockSize)
    ensures b in AllBlocks(p, n)
  {
    hide BlockCount, BlocksUpto, Par2Set.TotalBlocks;
    if i == n - 1 {
    } else {
      InAllBlocks(p, n - 1, i, b);
    }
  }

  lemma {:induction false} BlockSubset(a: set<Block>, b: set<Block>)
    requires a <= b
    ensures |a| <= |b|
  {
    if a == {} {
    } else {
      var x :| x in a;
      BlockSubset(a - {x}, b - {x});
    }
  }

  lemma {:induction false} IdentifierOf(files: seq<FileDesc>, n: nat, id: FileID) returns (i: nat)
    requires n <= |files| && id in FirstIdentifiers(files, n)
    ensures i < n && files[i].fileID == id
  {
    if id == files[n - 1].fileID {
      i := n - 1;
    } else {
      i := IdentifierOf(files, n - 1, id);
    }
  }

  /** There are no more blocks listed than the set has. */
  lemma FewBlocks(p: Par2Set, blocks: set<Block>)
    requires p.Proper() && p.blockSize > 0 && BlocksOfFiles(blocks, p.checksums, p.Identifiers())
    ensures |blocks| <= p.TotalBlocks(|p.files|)
  {
    forall b | b in blocks
      ensures b in AllBlocks(p, |p.files|)
    {
      var i := IdentifierOf(p.files, |p.files|, b.fileID);
      InAllBlocks(p, |p.files|, i, b);
    }
    BlockSubset(blocks, AllBlocks(p, |p.files|));
  }

  // What the scan has found.

  /** The bytes of block number k of a file that has this content and should have byteCount bytes. */
  function BlockBytes(content: Bytes, byteCount: nat, blockSize: nat, k: nat): (w: Bytes)
    ensures |w| == blockSize
  {
    var pos := GridPos(k, blockSize);
    seq(blockSize, b requires b >= 0 => if pos + b < byteCount && pos + b < |content| then content[pos + b] else 0)
  }

  /** Block number k of fd is on disk where it belongs: whole, unless it is the last one and cut off. */
  ghost predicate InPlace(p: Par2Set, disk: Disk, fd: FileDesc, k: nat)
    requires p.blockSize > 0
  {
    && k < BlockCount(fd.byteCount, p.blockSize)
    && fd.filename in disk
    && (GridPos(k, p.blockSize) + p.blockSize <= |disk[fd.filename]| || GridPos(k, p.blockSize) + p.blockSize > fd.byteCount)
    && fd.fileID in p.checksums && k < |p.checksums[fd.fileID]|
    && p.checksums[fd.fileID][k] == (var w := BlockBytes(disk[fd.filename], fd.byteCount, p.blockSize, k);
                                     ChecksumPair(p.md5(w), Checksum(w)))
  }

  /** Every block in place has been located, unless its file had been settled before the scan. */
  ghost predicate AllFound(p: Par2Set, disk: Disk, before: map<FileID, Damage>, places: map<Block, Place>) {
    p.blockSize > 0 && forall i, k: nat :: 0 <= i < |p.files| && InPlace(p, disk, p.files[i], k) ==>
      && p.files[i].fileID in before
      && (SkipsBlockScan(before[p.files[i].fileID]) || disk[p.files[i].filename] == []
          || Block(p.files[i].fileID, k) in places)
  }

  /**
    A block of an empty file is in place exactly if it is the last one, is cut off, and has the checksums of zeros:
    padding then makes up for the bytes that are not there.
   */
  lemma EmptyInPlaceIff(p: Par2Set, disk: Disk, i: nat, k: nat)
    requires p.Proper() && p.blockSize > 0 && i < |p.files| && p.files[i].fileID in p.checksums
    requires p.files[i].filename in disk && disk[p.files[i].filename] == []
    ensures InPlace(p, disk, p.files[i], k) <==>
      && k == BlockCount(p.files[i].byteCount, p.blockSize) - 1 && p.files[i].byteCount % p.blockSize != 0
      && p.checksums[p.files[i].fileID][k] == ZeroPair(p)
  {
    hide Par2Set.Proper, GridPos, BlockBytes, Checksum, Zeros;
    var fd := p.files[i];
    ChecksumsProper(p, i);
    BlockOfNothing(fd.byteCount, p.blockSize, k);
    ProperFile(p, i);
    if k < BlockCount(fd.byteCount, p.blockSize) && GridPos(k, p.blockSize) + p.blockSize > fd.byteCount {
      CutOff(fd.byteCount, p.blockSize, k);
    }
    if k == BlockCount(fd.byteCount, p.blockSize) - 1 && fd.byteCount % p.blockSize != 0 {
      LastBlock(fd.byteCount, p.blockSize);
      if GridPos(k, p.blockSize) + p.blockSize == fd.byteCount {
        GridNext(k, p.blockSize);
        GridNumber(k + 1, p.blockSize);
      }
    }
  }

  lemma ChecksumsProper(p: Par2Set, i: nat)
    requires p.Proper() && p.blockSize > 0 && i < |p.files| && p.files[i].fileID in p.checksums
    ensures |p.checksums[p.files[i].fileID]| == BlockCount(p.files[i].byteCount, p.blockSize)
  {
  }

  lemma BlockOfNothing(byteCount: nat, blockSize: nat, k: nat)
    ensures BlockBytes([], byteCount, blockSize, k) == Zeros(blockSize)
  {
  }

  /** The checksums of a block of zeros. */
  function ZeroPair(p: Par2Set): ChecksumPair {
    ChecksumPair(p.md5(Zeros(p.blockSize)), Checksum(Zeros(p.blockSize)))
  }

  /** A set of one file, the bytes of which are all zero as far as the checksums of its blocks tell. */
  function ZeroFile(blockSize: nat, byteCount: nat, hash: Hash, quick: Hash, md5: Bytes -> Hash): Par2Set
    requires blockSize > 0
  {
    var pair := ChecksumPair(md5(Zeros(blockSize)), Checksum(Zeros(blockSize)));
    Par2Set(blockSize, [FileDesc([1], hash, quick, byteCount, "zeros")],
            map[[1] := seq(BlockCount(byteCount, blockSize), _ => pair)], map[], map[], map[], md5)
  }

  /**
    The one way to lose a block: if the file of such a set is empty and the last block is cut off, that block is in
    place, but nothing has any content, so that VerifyScans leaves it out.
   */
  lemma EmptyFileLosesZeros(blockSize: nat, byteCount: nat, hash: Hash, quick: Hash, md5: Bytes -> Hash)
    requires blockSize > 0 && byteCount % blockSize != 0
    ensures var p, disk := ZeroFile(blockSize, byteCount, hash, quick, md5), map["zeros" := []];
      && p.Proper() && AllEmpty(p, disk)
      && InPlace(p, disk, p.files[0], BlockCount(byteCount, blockSize) - 1)
  {
    hide GridPos, Checksum, Zeros, BlockCount;
    var p, disk := ZeroFile(blockSize, byteCount, hash, quick, md5), map["zeros" := []];
    assert p.Proper();
    assert AllEmpty(p, disk);
    assert p.files[0].filename in disk && disk["zeros"] == [];
    EmptyInPlaceIff(p, disk, 0, BlockCount(byteCount, blockSize) - 1);
  }

  /**
    So for a file on its own, with nothing else to be searched, what VerifyScans establishes comes to this: a block
    that is in place is located if and only if the file is not empty.
   */
  lemma LoneFileIff(p: Par2Set, disk: Disk, places: map<Block, Place>, k: nat)
    requires p.Proper() && p.blockSize > 0 && |p.files| == 1 && p.candidateFiles == map[]
    requires AllInPlaceLocated(p, disk, places) && (AllEmpty(p, disk) ==> places == map[])
    requires InPlace(p, disk, p.files[0], k)
    ensures Block(p.files[0].fileID, k) in places <==> disk[p.files[0].filename] != []
  {
    hide GridPos, Checksum, BlockBytes, BlockCount;
    if disk[p.files[0].filename] == [] {
      forall id | id in FilesOnDisk(p, disk)
        ensures FilesOnDisk(p, disk)[id] == []
      {
        assert id !in p.candidateByID;
        assert FilePaths(p.files, 0) == map[];
        assert FilePaths(p.files, 1) == map[p.files[0].fileID := p.files[0].filename];
      }
    }
  }

  lemma OnDiskIs(p: Par2Set, disk: Disk, g: Setting, i: nat, k: nat)
    requires p.Proper() && i < |p.files| && p.files[i].filename in disk
    requires g.files == FilesOnDisk(p, disk) && g.blockSize == p.blockSize
    ensures p.files[i].fileID in g.files
    ensures OnDisk(g, p.files[i].fileID, p.files[i].byteCount, k)
            == BlockBytes(disk[p.files[i].filename], p.files[i].byteCount, p.blockSize, k)
  {
    hide Par2Set.Proper, GridPos, FilesOnDisk;
    FileOnDisk(p, disk, i);
  }

  lemma FoundAfterScan(p: Par2Set, disk: Disk, g: Setting, m: map<U32, seq<Expected>>, blocks: set<Block>, n: nat,
                       s: State, before: map<FileID, Damage>, damage: map<FileID, Damage>)
    requires p.Proper() && p.blockSize > 0 && g.files == FilesOnDisk(p, disk) && g.blockSize == p.blockSize
    requires g.md5 == p.md5 && Holds(g, s) && Quiet(s)
    requires Lists(m, p.checksums, blocks) && Flagged(m, g.table, n) && m.Keys == g.table.Keys
    requires BlocksOfFiles(blocks, p.checksums, p.Identifiers()) && before.Keys == p.Identifiers()
    requires FilesSearched(g, p.candidateByID.Keys, s, p.files, |p.files|, before, damage)
    ensures AllFound(p, disk, before, s.places)
  {
    hide Par2Set.Proper, GridPos, FilesOnDisk, Holds, Quiet, Lists, Flagged, Searched, Checksum, BlockBytes, OnDisk;
    forall i, k: nat | 0 <= i < |p.files| && InPlace(p, disk, p.files[i], k)
      ensures p.files[i].fileID in before
      ensures SkipsBlockScan(before[p.files[i].fileID]) || disk[p.files[i].filename] == []
              || Block(p.files[i].fileID, k) in s.places
    {
      var fd := p.files[i];
      assert FileSearched(g, p.candidateByID.Keys, s, fd, before, damage);
      FileOnDisk(p, disk, i);
      OnDiskIs(p, disk, g, i, k);
      var w := OnDisk(g, fd.fileID, fd.byteCount, k);
      if !SkipsBlockScan(before[fd.fileID]) && disk[fd.filename] != [] {
        var loc := ListedIsFound(g, m, p.checksums, blocks, n, Block(fd.fileID, k), w);
        InPlaceIsLocated(g, p.candidateByID.Keys, s, fd.fileID, fd.byteCount, k, loc);
      }
    }
  }

  /** The scan keeps what was known before it. */
  lemma SettledKeep(p: Par2Set, disk: Disk, g: Setting, s: State, before: map<FileID, Damage>,
                    renames: map<FileID, string>, known: map<Block, Place>, damage: map<FileID, Damage>)
    requires Sound(p, disk, before, renames, known) && g.known == known && Holds(g, s)
    requires SettledStay(g, p.files, |p.files|, before, damage)
    ensures Sound(p, disk, damage, renames, s.places)
  {
    hide Intact, HasContent, SettledStay, RenamesHold;
    KnownKept(g, s);
    hide Holds;
    forall i | 0 <= i < |p.files|
      ensures p.files[i].fileID in damage
      ensures damage[p.files[i].fileID] == DamageNone ==> Intact(p, disk, s.places, p.files[i])
      ensures NeedsRebuild(before[p.files[i].fileID]) ==> NeedsRebuild(damage[p.files[i].fileID])
    {
      assert p.files[i].fileID in before;
      OneSettled(g, p.files, before, damage, i);
      if before[p.files[i].fileID] == DamageNone {
        IntactStays(p, disk, known, s.places, p.files[i]);
      }
    }
    hide Sound;
    SoundAgain(p, disk, before, renames, known, damage, s.places);
  }

  lemma OneSettled(g: Setting, files: seq<FileDesc>, before: map<FileID, Damage>, damage: map<FileID, Damage>, i: nat)
    requires SettledStay(g, files, |files|, before, damage) && i < |files|
    ensures files[i].fileID in damage && files[i].fileID in before
    ensures damage[files[i].fileID] == DamageNone ==> before[files[i].fileID] == DamageNone
    ensures NeedsRebuild(before[files[i].fileID]) ==> NeedsRebuild(damage[files[i].fileID])
  {
  }

  lemma SoundAgain(p: Par2Set, disk: Disk, before: map<FileID, Damage>, renames: map<FileID, string>,
                   known: map<Block, Place>, damage: map<FileID, Damage>, places: map<Block, Place>)
    requires Sound(p, disk, before, renames, known)
    requires forall i :: 0 <= i < |p.files| ==> p.files[i].fileID in damage
    requires forall i :: 0 <= i < |p.files| ==>
      && (damage[p.files[i].fileID] == DamageNone ==> Intact(p, disk, places, p.files[i]))
      && (NeedsRebuild(before[p.files[i].fileID]) ==> NeedsRebuild(damage[p.files[i].fileID]))
    ensures Sound(p, disk, damage, renames, places)
  {
    hide Intact, HasContent;
  }

  /** With what was settled before the scan, no block in place is left out. */
  lemma FoundOrSettled(p: Par2Set, disk: Disk, before: map<FileID, Damage>, renames: map<FileID, string>,
                       known: map<Block, Place>, g: Setting, s: State)
    requires Sound(p, disk, before, renames, known) && Early(p, disk, before) && g.known == known && Holds(g, s)
    requires AllFound(p, disk, before, s.places)
    ensures AllInPlaceLocated(p, disk, s.places)
  {
    hide GridPos, BlockBytes, Checksum, RenamesHold;
    KnownKept(g, s);
    hide Holds;
    forall i, k: nat | 0 <= i < |p.files| && InPlace(p, disk, p.files[i], k) && disk[p.files[i].filename] != []
      ensures Block(p.files[i].fileID, k) in s.places
    {
      if before[p.files[i].fileID] == DamageNone {
        assert Intact(p, disk, known, p.files[i]);
      }
    }
  }

  lemma KnownKept(g: Setting, s: State)
    requires Holds(g, s)
    ensures forall b :: b in g.known ==> b in s.places && s.places[b] == g.known[b]
  {
    hide CallsHold, ClaimsHold, Setting.Contains, Setting.Truthful;
  }

  lemma IntactStays(p: Par2Set, disk: Disk, known: map<Block, Place>, places: map<Block, Place>, fd: FileDesc)
    requires p.blockSize > 0 && Intact(p, disk, known, fd)
    requires forall b :: b in known ==> b in places && places[b] == known[b]
    ensures Intact(p, disk, places, fd)
  {
    hide GridPos;
  }

  lemma {:induction false} TotalGrows(p: Par2Set, m: nat, n: nat)
    requires p.blockSize > 0 && m <= n <= |p.files|
    ensures p.TotalBlocks(m) <= p.TotalBlocks(n)
    decreases n - m
  {
    if m == n {
    } else {
      TotalGrows(p, m + 1, n);
    }
  }
}
