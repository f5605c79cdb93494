/**
  The block scan of par2/scan.go. Every file is read in chunks; a chunk is searched for blocks on the block grid and
  then between the blocks found there. Goroutines share the flags, the channel and the collector; before every access
  to one of them, a goroutine here lets the others take any number of steps of the protocol in Reports.
 */
module Scan {
  import opened Wrappers
  import opened Contexts
  import opened Bits
  import opened Crc32
  import opened CrcWindow
  import opened Packets
  import opened CrcTable
  import opened Reports

  const SCAN_CHUNK_SIZE: nat := 32 * 1024 * 1024

  /** The locations among the first n that have this MD5. */
  function Hits(locs: seq<Location>, n: nat, hash: Hash): (h: seq<Location>)
    requires n <= |locs|
    ensures |h| <= n && forall i :: 0 <= i < |h| ==> h[i] in locs && h[i].md5Hash == hash
  {
    if n == 0 then [] else
    if locs[n - 1].md5Hash == hash then Hits(locs, n - 1, hash) + [locs[n - 1]] else Hits(locs, n - 1, hash)
  }

  lemma {:induction false} HitsComplete(locs: seq<Location>, n: nat, hash: Hash, i: nat)
    requires i < n <= |locs| && locs[i].md5Hash == hash
    ensures locs[i] in Hits(locs, n, hash)
  {
    if i == n - 1 {
    } else {
      HitsComplete(locs, n - 1, hash, i);
    }
  }

  lemma {:induction false} HitsPrefix(locs: seq<Location>, n: nat, hash: Hash)
    requires n <= |locs|
    ensures Hits(locs, n, hash) <= Hits(locs, |locs|, hash)
    decreases |locs| - n
  {
    if n == |locs| {
    } else {
      HitsPrefix(locs, n + 1, hash);
      assert Hits(locs, n, hash) <= Hits(locs, n + 1, hash);
    }
  }

  lemma GrowsTrans(s: State, t: State, u: State)
    requires Grows(s, t) && Grows(t, u)
    ensures Grows(s, u)
  {
  }

  /** The calls in mine are where they were, and have claimed nothing more. */
  ghost predicate Untouched(mine: set<nat>, s: State, t: State) {
    && (forall a :: a in mine && a in s.calls ==> a in t.calls && t.calls[a] == s.calls[a])
    && (forall f :: f in t.claims && t.claims[f].call in mine ==> f in s.claims)
  }

  /** The blocks that the window w at place equals. */
  function BlocksOf(g: Setting, w: seq<Byte>): seq<Location> {
    var crc := Checksum(w);
    if crc in g.table then Hits(g.table[crc], |g.table[crc]|, g.md5(w)) else []
  }

  lemma BlocksOfMayBegin(g: Setting, s: State, place: Place, limit: nat, w: seq<Byte>)
    requires g.IsWindow(place, limit, w)
    ensures Enabled(g, s, Begin(place, BlocksOf(g, w)))
    ensures forall i :: 0 <= i < |BlocksOf(g, w)| ==> g.Contains(BlocksOf(g, w)[i])
    ensures forall loc :: loc in BlocksOf(g, w) <==> g.Equal(loc, w)
  {
    hide Checksum, Setting.IsWindow;
    var crc, hits := Checksum(w), BlocksOf(g, w);
    forall i | 0 <= i < |hits|
      ensures g.Contains(hits[i]) && g.FoundAt(hits[i], place) && g.Equal(hits[i], w)
    {
      assert g.Equal(hits[i], w);
      var k :| 0 <= k < |g.table[crc]| && g.table[crc][k] == hits[i];
    }
    forall loc | g.Equal(loc, w)
      ensures loc in hits
    {
      var k :| 0 <= k < |g.table[crc]| && g.table[crc][k] == loc;
      HitsComplete(g.table[crc], |g.table[crc]|, g.md5(w), k);
    }
  }

  /** The window at place, read up to limit and padded with zeros. */
  function WindowAt(g: Setting, place: Place, limit: nat): (w: seq<Byte>)
    requires place.source in g.files
    ensures g.IsLimit(place, limit) ==> g.IsWindow(place, limit, w)
  {
    var file := g.files[place.source];
    seq(g.blockSize, b requires b >= 0 =>
      if place.offset + b < limit && place.offset + b < |file| then file[place.offset + b] else 0)
  }

  /** What matchBlock found in one window. */
  datatype BlockMatch = BlockMatch(inPlace: bool, reportedNew: bool)

  /** An event has been sent for every block that the window w at place equals. */
  ghost predicate AllSent(g: Setting, s: State, place: Place, w: seq<Byte>) {
    forall loc :: g.Equal(loc, w) ==> Event(loc.block, place) in s.sent
  }

  /** Every block that the window w equals has been reported. */
  ghost predicate AllKnown(g: Setting, s: State, w: seq<Byte>) {
    forall loc :: g.Equal(loc, w) ==> IsReported(s, loc)
  }

  /** The window w is the block expected at absPos in the file source. */
  ghost predicate Expects(g: Setting, candidates: set<FileID>, source: FileID, absPos: nat, w: seq<Byte>, loc: Location)
    requires g.blockSize > 0
  {
    && g.Equal(loc, w) && absPos % g.blockSize == 0 && loc.block.index == absPos / g.blockSize
    && (loc.block.fileID == source || source in candidates)
  }

  ghost predicate IsExpected(g: Setting, candidates: set<FileID>, source: FileID, absPos: nat, w: seq<Byte>)
    requires g.blockSize > 0
  {
    exists loc :: Expects(g, candidates, source, absPos, w, loc)
  }

  /** What a call of matchBlock leaves behind. */
  ghost predicate Recorded(g: Setting, s: State, place: Place, w: seq<Byte>, m: BlockMatch, call: Option<nat>) {
    match call
    case Some(id) =>
      && id in s.finished && s.finished[id].place == place && s.finished[id].hits == BlocksOf(g, w)
      && (m.reportedNew <==> s.finished[id].isNew) && AllSent(g, s, place, w)
    case None => !m.reportedNew
  }

  datatype ScanError = IOError

  /** What the scan of a chunk has done: the blocks claimed, the windows examined, and those that reported a block. */
  datatype ChunkScan = ChunkScan(first: nat, claimed: seq<bool>, examined: set<nat>, news: set<nat>)

  class Scanner {
    const g: Setting
    const table: CrcLookupTable
    const window: Window
    const candidates: set<FileID>
    var state: State
    var damage: map<FileID, Damage>

    ghost predicate Valid()
      reads this, table, table.table
    {
      && table.Valid() && g.table == table.contents && Holds(g, state)
      && window.Valid() && window.windowSize == g.blockSize && g.blockSize >= 4
    }

    constructor (g: Setting, table: CrcLookupTable, window: Window, candidates: set<FileID>,
                 damage: map<FileID, Damage>)
      requires table.Valid() && g.table == table.contents && g.OwnFlags()
      requires forall loc :: g.Contains(loc) ==> loc.reported < table.flags.Length
      requires forall f :: 0 <= f < table.flags.Length ==> !table.flags[f]
      requires window.Valid() && window.windowSize == g.blockSize && g.blockSize >= 4
      ensures Valid() && Initial(this.g, state) && this.g == g && this.damage == damage && this.candidates == candidates
    {
      this.g, this.table, this.window, this.candidates, this.damage := g, table, window, candidates, damage;
      var start := State(table.flags[..], [], g.known, map[], {}, map[], map[], {}, 0);
      state := start;
      InitiallyHolds(g, start);
    }

    /** A step of the protocol. */
    method Take(step: Step)
      requires Valid() && Enabled(g, state, step)
      modifies this`state
      ensures Valid() && state == After(g, old(state), step) && Grows(old(state), state)
    {
      hide Holds, Grows, After, Enabled, CrcLookupTable.Valid, Window.Valid;
      StepKeeps(g, state, step);
      state := After(g, state, step);
    }

    /** One step of some other goroutine or of the collector; perhaps none. */
    method OtherStep(mine: set<nat>)
      requires Valid()
      modifies this`state
      ensures Valid() && Grows(old(state), state) && Untouched(mine, old(state), state)
    {
      hide After, Setting.IsWindow, Setting.FoundAt, Setting.Contains, CrcLookupTable.Valid, Window.Valid;
      hide BlocksOf, ClaimsHold, EventsHold, FollowedUp, Untouched, WindowAt;
      var kind: nat, a: nat := *, *;
      UntouchedAtRest(mine, state);
      if kind == 0 && state.queue != [] {
        OthersOnly(g, mine, state, Receive);
        Take(Receive);
      } else if a in state.calls && a !in mine {
        var c := state.calls[a];
        CallsBefore(g, state, a);
        if c.done == |c.hits| {
          OthersOnly(g, mine, state, Finish(a));
          Take(Finish(a));
        } else if c.passed {
          OthersOnly(g, mine, state, Send(a));
          Take(Send(a));
        } else {
          assert g.Contains(c.hits[c.done]);
          OthersOnly(g, mine, state, Pass(a));
          Take(Pass(a));
        }
      } else {
        var place: Place, limit: nat := *, *;
        if place.source in g.files && g.IsLimit(place, limit) {
          var hits := BlocksOf(g, WindowAt(g, place, limit));
          BlocksOfMayBegin(g, state, place, limit, WindowAt(g, place, limit));
          if kind == 1 {
            OthersOnly(g, mine, state, Begin(place, hits));
            Take(Begin(place, hits));
          } else if forall i :: 0 <= i < |hits| ==> IsReported(state, hits[i]) {
            OthersOnly(g, mine, state, Skip(hits));
            Take(Skip(hits));
          }
        }
      }
    }
  
    /** The others take any number of steps. */
    method Others(mine: set<nat>)
      requires Valid()
      modifies this`state
      ensures Valid() && Grows(old(state), state) && Untouched(mine, old(state), state)
    {
      hide *;
      var n: int := *;
      ghost var first := state;
      UntouchedAtRest(mine, state);
      while n > 0
        invariant Valid() && Grows(first, state) && Untouched(mine, first, state)
        decreases n
      {
        ghost var before := state;
        n := n - 1;
        OtherStep(mine);
        GrowsTrans(first, before, state);
        UntouchedTrans(mine, first, before, state);
      }
    }

    /** allReported: one flag is loaded after the other. */
    method AllReported(locations: seq<Location>) returns (all: bool)
      requires Valid() && forall i :: 0 <= i < |locations| ==> g.Contains(locations[i])
      modifies this`state
      ensures Valid() && Grows(old(state), state)
      ensures all ==> forall i :: 0 <= i < |locations| ==> IsReported(state, locations[i])
      ensures !all ==> exists i :: 0 <= i < |locations| && !IsReported(old(state), locations[i])
    {
      hide CallsHold, ClaimsHold, EventsHold, CrcLookupTable.Valid, Setting.Contains;
      ghost var first := state;
      for i := 0 to |locations|
        invariant Valid() && Grows(first, state)
        invariant forall k :: 0 <= k < i ==> IsReported(state, locations[k])
      {
        ghost var before := state;
        Others({});
        GrowsTrans(first, before, state);
        assert g.Contains(locations[i]);
        if !state.flags[locations[i].reported] {
          return false;
        }
      }
      all := true;
    }

    /** The flag of the next block: loaded and, unless it was set, set by compare-and-swap. */
    method PassFlag(me: nat, loc: Location) returns (swapped: bool)
      requires Valid() && me in state.calls && !state.calls[me].passed
      requires state.calls[me].done < |state.calls[me].hits| && state.calls[me].hits[state.calls[me].done] == loc
      modifies this`state
      ensures Valid() && Grows(old(state), state) && me in state.calls
      ensures var c := old(state).calls[me]; state.calls[me] == c.(passed := true, isNew := c.isNew || swapped)
      ensures swapped <==>
        loc.reported in state.claims && state.claims[loc.reported].call == me && loc.reported !in old(state).claims
    {
      hide CallsHold, ClaimsHold, EventsHold, CrcLookupTable.Valid, Setting.Contains, Setting.FoundAt;
      hide Grows, Untouched;
      ghost var first := state;
      CallsBefore(g, state, me);
      assert g.Contains(loc);
      Others({me});
      var loaded := state.flags[loc.reported];
      ghost var middle := state;
      UntouchedAtRest({me}, state);
      if !loaded {
        Others({me});
      }
      UntouchedTrans({me}, first, middle, state);
      GrowsTrans(first, middle, state);
      swapped := !state.flags[loc.reported];
      ghost var before := state;
      SetByMe(g, first, state, me);
      Take(Pass(me));
      GrowsTrans(first, before, state);
    }

    /** The event of the next block is sent. */
    method SendEvent(me: nat)
      requires Valid() && me in state.calls && state.calls[me].passed && state.calls[me].done < |state.calls[me].hits|
      modifies this`state
      ensures Valid() && Grows(old(state), state) && me in state.calls
      ensures var c := old(state).calls[me]; state.calls[me] == c.(passed := false, done := c.done + 1)
    {
      hide CallsHold, ClaimsHold, EventsHold, CrcLookupTable.Valid, Setting.Contains, Setting.FoundAt;
      ghost var first := state;
      Others({me});
      ghost var before := state;
      Take(Send(me));
      GrowsTrans(first, before, state);
    }
  
    /** One round of the loop over the locations: a block is reported if it has the right MD5. */
    method ReportLocation(me: nat, locations: seq<Location>, i: nat, hash: Hash, ghost c: Call)
      returns (isNew: bool)
      requires Valid() && i < |locations| && c.hits == Hits(locations, |locations|, hash) && !c.passed
      requires me in state.calls && state.calls[me] == c.(done := |Hits(locations, i, hash)|)
      modifies this`state
      ensures Valid() && Grows(old(state), state)
      ensures me in state.calls
      ensures state.calls[me] == c.(done := |Hits(locations, i + 1, hash)|, isNew := c.isNew || isNew)
    {
      hide Holds, Grows, CrcLookupTable.Valid, Window.Valid;
      ghost var first := state;
      var loc := locations[i];
      UntouchedAtRest({}, state);
      if loc.md5Hash != hash {
        return false;
      }
      HitsPrefix(locations, i + 1, hash);
      assert Hits(locations, i + 1, hash)[|Hits(locations, i, hash)|] == loc;
      hide Hits;
      isNew := PassFlag(me, loc);
      ghost var before := state;
      SendEvent(me);
      GrowsTrans(first, before, state);
    }

    /** The part of matchBlock that takes the locations one by one. */
    method Report(source: FileID, slice: seq<Byte>, locations: seq<Location>, absPos: nat, ghost limit: nat)
      returns (m: BlockMatch, ghost call: nat)
      requires Valid() && g.IsWindow(Place(source, absPos), limit, slice)
      requires Checksum(slice) in g.table && locations == g.table[Checksum(slice)]
      modifies this`state
      ensures Valid() && Grows(old(state), state)
      ensures m.inPlace <==> IsExpected(g, candidates, source, absPos, slice)
      ensures call in state.finished
      ensures state.finished[call] == Call(Place(source, absPos), BlocksOf(g, slice), |BlocksOf(g, slice)|, false,
                                           m.reportedNew)
    {
      hide Holds, Grows, Enabled, Setting.IsWindow, Setting.FoundAt, Setting.Contains, CrcLookupTable.Valid;
      hide Window.Valid;
      hide Checksum, IsExpected, Seen, Hits;
      ghost var first := state;
      var place, blockHash := Place(source, absPos), g.md5(slice);
      var hits := Hits(locations, |locations|, blockHash);
      var shardIdx, atShardBoundary := absPos / g.blockSize, absPos % g.blockSize == 0;
      var me := state.next;
      BlocksOfMayBegin(g, state, place, limit, slice);
      Take(Begin(place, hits));
      var own, other, reportedNew := false, false, false;
      SeenNone(locations, blockHash, absPos, g.blockSize, source);
      for i := 0 to |locations|
        invariant Valid() && Grows(first, state) && me in state.calls
        invariant state.calls[me] == Call(place, hits, |Hits(locations, i, blockHash)|, false, reportedNew)
        invariant own == Seen(locations, i, blockHash, absPos, g.blockSize, source, true)
        invariant other == Seen(locations, i, blockHash, absPos, g.blockSize, source, false)
      {
        var loc := locations[i];
        SeenNext(locations, i, blockHash, absPos, g.blockSize, source);
        if loc.md5Hash == blockHash && atShardBoundary && loc.block.index == shardIdx {
          own := own || loc.block.fileID == source;
          other := other || loc.block.fileID != source;
        }
        ghost var before := state;
        var isNew := ReportLocation(me, locations, i, blockHash, Call(place, hits, 0, false, reportedNew));
        GrowsTrans(first, before, state);
        reportedNew := reportedNew || isNew;
      }
      ghost var before := state;
      OwnFinish(me);
      GrowsTrans(first, before, state);
      SeenIsExpected(g, candidates, source, absPos, slice);
      m, call := BlockMatch(own || (other && source in candidates), reportedNew), me;
    }

    /** matchBlock: what slice, the window at absPos, is, and telling the collector about it. */
    method MatchBlock(source: FileID, slice: seq<Byte>, crc: U32, absPos: nat, ghost limit: nat)
      returns (m: BlockMatch, ghost call: Option<nat>)
      requires Valid() && g.IsWindow(Place(source, absPos), limit, slice) && crc == Checksum(slice)
      modifies this`state
      ensures Valid() && Grows(old(state), state)
      ensures m.inPlace <==> IsExpected(g, candidates, source, absPos, slice)
      ensures Recorded(g, state, Place(source, absPos), slice, m, call) && AllKnown(g, state, slice)
      ensures absPos % g.blockSize == 0 ==> AllSent(g, state, Place(source, absPos), slice)
    {
      hide Holds, Grows, Enabled, Setting.IsWindow, Setting.FoundAt, Setting.Contains, Setting.Equal;
      hide Checksum, IsExpected, Recorded, AllSent, AllKnown, CrcLookupTable.Valid, Window.Valid;
      UntouchedAtRest({}, state);
      var found := table.Lookup(crc);
      if found.None? {
        NoBlocks(g, candidates, state, source, absPos, slice);
        return BlockMatch(false, false), None;
      }
      if absPos % g.blockSize != 0 {
        TableContains(g, crc);
        ghost var first := state;
        var all := AllReported(found.value);
        if all {
          NothingLeft(g, candidates, state, source, absPos, slice);
          ghost var before := state;
          SkipAll(Place(source, absPos), slice, limit);
          GrowsTrans(first, before, state);
          KnownGrows(g, before, state, slice);
          return BlockMatch(false, false), None;
        }
        ghost var middle := state;
        ghost var id: nat;
        m, id := Report(source, slice, found.value, absPos, limit);
        GrowsTrans(first, middle, state);
        call := Some(id);
      } else {
        ghost var id: nat;
        m, id := Report(source, slice, found.value, absPos, limit);
        call := Some(id);
      }
      ReportedAll(g, state, Place(source, absPos), limit, slice, m, call.value);
    }

    /** A call that has nothing to report leaves its blocks to those who reported them. */
    method SkipAll(place: Place, slice: seq<Byte>, ghost limit: nat)
      requires Valid() && g.IsWindow(place, limit, slice) && AllKnown(g, state, slice)
      modifies this`state
      ensures Valid() && Grows(old(state), state)
      ensures forall loc :: g.Equal(loc, slice) ==> loc in state.handled
    {
      hide Holds, Grows, Setting.IsWindow, Setting.FoundAt, Setting.Contains, Setting.Equal, CrcLookupTable.Valid;
      BlocksOfMayBegin(g, state, place, limit, slice);
      hide BlocksOf;
      Take(Skip(BlocksOf(g, slice)));
    }

    method OwnFinish(me: nat)
      requires Valid() && me in state.calls && state.calls[me].done == |state.calls[me].hits|
      modifies this`state
      ensures Valid() && Grows(old(state), state)
      ensures me in state.finished && state.finished[me] == old(state).calls[me]
    {
      hide Holds, Grows, CrcLookupTable.Valid, Window.Valid;
      Take(Finish(me));
    }
  
    /** One window on the grid, that of block number k. */
    method CheckGridWindow(source: FileID, data: seq<Byte>, start: nat, abs: nat, ghost k: nat)
      returns (inPlace: bool)
      requires Valid() && IsChunk(g, source, start, data)
      requires abs == GridPos(k, g.blockSize) && start <= abs && abs - start + g.blockSize <= |data|
      modifies this`state
      ensures Valid() && Grows(old(state), state)
      ensures GridChecked(g, candidates, state, source, k, inPlace)
    {
      hide Holds, Grows, GridPos, CrcLookupTable.Valid, Window.Valid;
      hide Setting.IsWindow, Checksum, IsExpected, Recorded, AllSent, AllKnown, FullWindow;
      var slice := data[abs - start..abs - start + g.blockSize];
      ChunkWindow(g, source, start, data, abs - start);
      GridNumber(k, g.blockSize);
      var m;
      ghost var call;
      m, call := MatchBlock(source, slice, Checksum(slice), abs, abs + g.blockSize);
      inPlace := m.inPlace;
    }

    /** claimGrid: checks every window on the block grid; the first one is that of block number first. */
    method ClaimGrid(source: FileID, data: seq<Byte>, start: nat)
      returns (firstAligned: nat, claimed: seq<bool>, ghost first: nat)
      requires Valid() && IsChunk(g, source, start, data) && |data| >= g.blockSize
      modifies this`state
      ensures Valid() && Grows(old(state), state)
      ensures firstAligned == GridPos(first, g.blockSize) && firstAligned >= start
      ensures forall k: nat :: start <= GridPos(k, g.blockSize) <= start + |data| - g.blockSize ==> first <= k < first + |claimed|
      ensures GridDone(g, candidates, state, source, first, claimed)
    {
      hide Holds, Grows, GridPos, GridDone, GridChecked, CrcLookupTable.Valid, Window.Valid, IsChunk;
      var bs := g.blockSize;
      ghost var initial := state;
      firstAligned := (start + bs - 1) / bs * bs;
      first := (start + bs - 1) / bs;
      claimed := [];
      FirstAligned(start, bs);
      UntouchedAtRest({}, state);
      NoneChecked(g, candidates, state, source, first, start, data);
      var abs := firstAligned;
      while abs - start <= |data| - bs
        invariant Valid() && Grows(initial, state)
        invariant abs == GridPos(first + |claimed|, bs) && abs >= start
        invariant GridDone(g, candidates, state, source, first, claimed)
        decreases |data| - (abs - start)
      {
        ghost var before, k := state, first + |claimed|;
        GridNext(k, bs);
        var inPlace := CheckGridWindow(source, data, start, abs, k);
        GrowsTrans(initial, before, state);
        OneMoreChecked(g, candidates, before, state, source, first, claimed, inPlace);
        claimed := claimed + [inPlace];
        abs := abs + bs;
      }
      ChunkCovered(start, |data|, bs, first, first + |claimed|);
    }
  
    /** One window of the slide. Its checksum is rolled on from that of the window before if that one missed. */
    method CheckWindow(source: FileID, data: seq<Byte>, start: nat, j: nat, justMissed: bool, crc: U32)
      returns (crcSlice: U32, reportedNew: bool)
      requires Valid() && IsChunk(g, source, start, data) && j + g.blockSize <= |data|
      requires justMissed ==> j > 0 && crc == Checksum(data[j - 1..j - 1 + g.blockSize])
      modifies this`state
      ensures Valid() && Grows(old(state), state)
      ensures crcSlice == Checksum(data[j..j + g.blockSize])
      ensures WindowExamined(g, state, source, start + j)
      ensures reportedNew ==> ReportedNewAt(state, Place(source, start + j))
    {
      hide Holds, Grows, CrcLookupTable.Valid, Window.Valid, Window.Update;
      hide Setting.IsWindow, Checksum, IsExpected, AllSent, AllKnown, FullWindow;
      var slice := data[j..j + g.blockSize];
      if justMissed {
        Rolled(window, data, j, g.blockSize);
        crcSlice := window.Update(crc, data[j - 1], slice[|slice| - 1]);
      } else {
        crcSlice := Checksum(slice);
      }
      ChunkWindow(g, source, start, data, j);
      var m;
      ghost var call;
      m, call := MatchBlock(source, slice, crcSlice, start + j, start + j + g.blockSize);
      reportedNew := m.reportedNew;
    }

    /** The slide of scanChunk through the windows between the claimed blocks. */
    method Slide(ctx: Context, source: FileID, data: seq<Byte>, start: nat, firstAligned: nat, claimed: seq<bool>,
                 ghost first: nat)
      returns (ghost examined: set<nat>, ghost news: set<nat>)
      requires Valid() && IsChunk(g, source, start, data) && firstAligned == GridPos(first, g.blockSize)
      requires |data| >= g.blockSize
      modifies this`state, ctx
      ensures Valid() && Grows(old(state), state)
      ensures ctx.Later()
      ensures Examined(g, state, source, examined, news, first, claimed)
      ensures !ctx.cancelled ==>
        CoveredUpto(start, start + |data| - g.blockSize + 1, g.blockSize, examined, news, first, claimed)
    {
      hide Holds, Grows, GridPos, CrcLookupTable.Valid, Window.Valid, IsChunk, Checksum;
      hide Examined, CoveredUpto, WindowExamined, ReportedNewAt;
      var bs := g.blockSize;
      var lastWindow := |data| - bs;
      ghost var initial := state;
      UntouchedAtRest({}, state);
      examined, news := {}, {};
      NothingExamined(g, state, source, first, claimed, start);
      var crcSlice: U32, justMissed, nextBoundary := 0, false, -1;
      var j: nat := 0;
      while j <= lastWindow
        invariant Valid() && Grows(initial, state)
        invariant ctx.Later()
        invariant justMissed ==> 0 < j <= lastWindow + 1 && crcSlice == Checksum(data[j - 1..j - 1 + bs])
        invariant OnBoundary(start + j, nextBoundary, bs, first, claimed)
        invariant Examined(g, state, source, examined, news, first, claimed)
        invariant CoveredUpto(start, start + j, bs, examined, news, first, claimed)
        decreases lastWindow - j
      {
        if j % 65536 == 0 {
          var e := ctx.Err();
          if e {
            return;
          }
        }
        var absPos := start + j;
        if absPos >= nextBoundary {
          var blockStart := absPos / bs * bs;
          EnterBlock(absPos, bs, firstAligned, first, claimed);
          nextBoundary := blockStart + bs;
          if blockStart >= firstAligned {
            var i := (blockStart - firstAligned) / bs;
            if i < |claimed| && claimed[i] {
              CoverClaimed(start, absPos, bs, examined, news, first, claimed);
              j := nextBoundary - start;
              justMissed := false;
              continue;
            }
          }
        }
        ghost var before := state;
        var reportedNew;
        crcSlice, reportedNew := CheckWindow(source, data, start, j, justMissed, crcSlice);
        GrowsTrans(initial, before, state);
        ExaminedMore(g, before, state, source, examined, news, first, claimed, absPos);
        if reportedNew {
          CoverNew(start, absPos, bs, examined, news, first, claimed);
          Advance(absPos, absPos + bs, nextBoundary, bs, first, claimed);
          examined, news := examined + {absPos}, news + {absPos};
          j := j + bs;
          justMissed := false;
        } else {
          CoverMiss(start, absPos, bs, examined, news, first, claimed);
          Advance(absPos, absPos + 1, nextBoundary, bs, first, claimed);
          examined := examined + {absPos};
          j := j + 1;
          justMissed := true;
        }
      }
      CoverLess(start, start + lastWindow + 1, start + j, bs, examined, news, first, claimed);
    }
  
    /** scanChunk: searches the windows that start in the chunk and do not reach beyond its end. */
    method ScanChunk(ctx: Context, source: FileID, start: nat, end: nat)
      returns (err: Option<ScanError>, ghost c: ChunkScan)
      requires Valid() && source in g.files && start <= end <= |g.files[source]|
      modifies this`state, ctx
      ensures Valid() && Grows(old(state), state)
      ensures ctx.Later() && (err.Some? ==> ctx.failed)
      ensures err.None? && !ctx.cancelled ==> ChunkScanned(g, candidates, state, source, start, end, c)
    {
      hide Holds, Grows, GridPos, CrcLookupTable.Valid, Window.Valid, Examined, CoveredUpto, GridDone, Covered;
      UntouchedAtRest({}, state);
      if end - start < g.blockSize {
        NoWindows(g, candidates, state, source, start, end);
        return None, ChunkScan(0, [], {}, {});
      }
      var fails := ctx.Fails();
      if fails {
        return Some(IOError), ChunkScan(0, [], {}, {});
      }
      var data := g.files[source][start..end];
      ghost var initial := state;
      var firstAligned, claimed;
      ghost var first, examined, news;
      firstAligned, claimed, first := ClaimGrid(source, data, start);
      ghost var before := state;
      examined, news := Slide(ctx, source, data, start, firstAligned, claimed, first);
      GridGrows(g, candidates, before, state, source, first, claimed);
      GrowsTrans(initial, before, state);
      c := ChunkScan(first, claimed, examined, news);
      err := None;
      assert ctx.cancelled || ChunkScanned(g, candidates, state, source, start, end, c) by {
        if !ctx.cancelled {
          CoverMeans(start, end, g.blockSize, c);
        }
      }
    }

    /** scanFileChunks: the goroutines of a file, which share the work chunk by chunk. */
    method ScanFileChunks(ctx: Context, source: FileID) returns (err: Option<ScanError>, ghost chunks: seq<ChunkScan>)
      requires Valid() && source in g.files
      modifies this`state, ctx
      ensures Valid() && Grows(old(state), state)
      ensures ctx.Later() && (err.Some? ==> ctx.failed)
      ensures err.None? && !ctx.cancelled ==> FileScanned(g, candidates, state, source, chunks)
    {
      hide Holds, Grows, GridPos, CrcLookupTable.Valid, Window.Valid, ChunkScanned;
      var fileSize := |g.files[source]|;
      var numChunks := (fileSize + SCAN_CHUNK_SIZE - 1) / SCAN_CHUNK_SIZE;
      ghost var initial := state;
      UntouchedAtRest({}, state);
      err, chunks := None, [];
      for i := 0 to numChunks
        invariant Valid() && Grows(initial, state)
        invariant ctx.Later() && (err.Some? ==> ctx.failed)
        invariant err.None? && !ctx.cancelled ==> ChunksScanned(g, candidates, state, source, i, chunks)
      {
        var stop := ctx.Err();
        if stop {
          return;
        }
        stop := ctx.Err();
        ghost var before := state;
        Others({});
        if stop {
          GrowsTrans(initial, before, state);
          return;
        }
        var start := i * SCAN_CHUNK_SIZE;
        var end := ChunkEnd(i, fileSize, g.blockSize);
        var chunkErr;
        ghost var c;
        ghost var middle := state;
        chunkErr, c := ScanChunk(ctx, source, start, end);
        GrowsTrans(before, middle, state);
        GrowsTrans(initial, before, state);
        if err.None? && chunkErr.None? && !ctx.cancelled {
          ChunksGrow(g, candidates, before, state, source, i, chunks);
        }
        chunks := chunks + [c];
        err := if err.None? then chunkErr else err;
      }
    }
  
    /** scanLastPartialBlock: the last block of a file whose length is byteCount, padded with zeros. */
    method ScanLastPartialBlock(ctx: Context, source: FileID, byteCount: nat) returns (err: Option<ScanError>)
      requires Valid() && source in g.files && byteCount > 0 && EndsAt(g, source, byteCount)
      modifies this`state, ctx`failed
      ensures Valid() && Grows(old(state), state)
      ensures ctx.Later() && (err.Some? ==> ctx.failed)
      ensures err.None? ==> LastBlockChecked(g, state, source, byteCount)
    {
      hide Holds, Grows, GridPos, CrcLookupTable.Valid, Window.Valid, Setting.IsWindow, Checksum, WindowAt;
      hide AllSent, AllKnown, IsExpected, Recorded;
      UntouchedAtRest({}, state);
      if byteCount % g.blockSize == 0 {
        return None;
      }
      var fails := ctx.Fails();
      if fails {
        return Some(IOError);
      }
      var lastBlockStart := (BlockCount(byteCount, g.blockSize) - 1) * g.blockSize;
      LastBlock(byteCount, g.blockSize);
      GridNumber(BlockCount(byteCount, g.blockSize) - 1, g.blockSize);
      var paddedBlock := WindowAt(g, Place(source, lastBlockStart), byteCount);
      var m;
      ghost var call;
      m, call := MatchBlock(source, paddedBlock, Checksum(paddedBlock), lastBlockStart, byteCount);
      err := None;
    }

    /** scanFile, once the file has been opened; byteCount is the length its last block is cut to. */
    method ScanContent(ctx: Context, source: FileID, byteCount: nat) returns (err: Option<ScanError>)
      requires Valid() && source in g.files && byteCount > 0 && EndsAt(g, source, byteCount)
      modifies this`state, ctx
      ensures Valid() && Grows(old(state), state)
      ensures ctx.Later() && (err.Some? ==> ctx.failed)
      ensures err.None? && !ctx.cancelled && g.files[source] != [] ==>
        Searched(g, candidates, state, source, byteCount)
      ensures g.files[source] == [] ==> state == old(state)
    {
      hide Holds, Grows, CrcLookupTable.Valid, Window.Valid, FileScanned, LastBlockChecked;
      UntouchedAtRest({}, state);
      if |g.files[source]| == 0 {
        return None;
      }
      ghost var initial := state;
      ghost var chunks;
      err, chunks := ScanFileChunks(ctx, source);
      if err.Some? {
        return;
      }
      ghost var before := state;
      err := ScanLastPartialBlock(ctx, source, byteCount);
      GrowsTrans(initial, before, state);
      if err.None? && !ctx.cancelled {
        FileGrows(g, candidates, before, state, source, chunks);
      }
    }
  
    /** scanFile, and what it finds out about the file as a whole. */
    method ScanFile(ctx: Context, fd: FileDesc) returns (err: Option<ScanError>)
      requires Valid() && fd.byteCount > 0 && fd.fileID in damage && EndsAt(g, fd.fileID, fd.byteCount)
      modifies this`state, this`damage, ctx
      ensures Valid() && Grows(old(state), state)
      ensures ctx.Later() && (err.Some? ==> ctx.failed)
      ensures damage.Keys == old(damage).Keys && forall id :: id in damage && id != fd.fileID ==> damage[id] == old(damage)[id]
      ensures err.None? ==> damage[fd.fileID] == DamageFound(g, fd, old(damage)[fd.fileID])
      ensures damage[fd.fileID] in {old(damage)[fd.fileID], DamageFound(g, fd, old(damage)[fd.fileID])}
      ensures err.None? && !ctx.cancelled && fd.fileID in g.files && g.files[fd.fileID] != [] ==>
        Searched(g, candidates, state, fd.fileID, fd.byteCount)
      ensures Contentless(g, fd.fileID) ==> state == old(state)
    {
      hide Holds, Grows, CrcLookupTable.Valid, Window.Valid, Searched;
      UntouchedAtRest({}, state);
      if fd.fileID !in g.files {
        damage := damage[fd.fileID := DamageMissing];
        return None;
      }
      var fails := ctx.Fails();
      if fails {
        return Some(IOError);
      }
      if |g.files[fd.fileID]| != fd.byteCount {
        damage := damage[fd.fileID := DamageWrongSize];
      }
      err := ScanContent(ctx, fd.fileID, fd.byteCount);
    }

    /** scanCandidateFile: its own length stands in for the length of the file it may be. */
    method ScanCandidateFile(ctx: Context, id: FileID) returns (err: Option<ScanError>)
      requires Valid() && (id in g.files ==> EndsAt(g, id, |g.files[id]|))
      modifies this`state, ctx
      ensures Valid() && Grows(old(state), state)
      ensures ctx.Later() && (err.Some? ==> ctx.failed)
      ensures err.None? && !ctx.cancelled && id in g.files && g.files[id] != [] ==>
        Searched(g, candidates, state, id, |g.files[id]|)
      ensures Contentless(g, id) ==> state == old(state)
    {
      hide Holds, Grows, CrcLookupTable.Valid, Window.Valid, Searched;
      UntouchedAtRest({}, state);
      if id !in g.files {
        return None;
      }
      var fails := ctx.Fails();
      if fails {
        return Some(IOError);
      }
      if |g.files[id]| == 0 {
        return None;
      }
      err := ScanContent(ctx, id, |g.files[id]|);
    }

    /** A call that is still running steps on. */
    method StepOn(a: nat)
      requires Valid() && a in state.calls && state.calls[a].done < |state.calls[a].hits|
      modifies this`state
      ensures Valid() && Grows(old(state), state)
      ensures a in state.calls && state.calls - {a} == old(state).calls - {a}
      ensures var c, d := old(state).calls[a], state.calls[a];
        d.hits == c.hits && d.passed == !c.passed && d.done == if c.passed then c.done + 1 else c.done
    {
      hide Grows, Holds, CrcLookupTable.Valid, Window.Valid;
      HitHasFlag(g, state, a);
      if state.calls[a].passed {
        Take(Send(a));
      } else {
        Take(Pass(a));
      }
    }

    /** A call that is still running comes to its end. */
    method Complete(a: nat)
      requires Valid() && a in state.calls
      modifies this`state
      ensures Valid() && Grows(old(state), state) && state.calls == old(state).calls - {a}
    {
      hide Grows, Holds, CrcLookupTable.Valid, Window.Valid;
      ghost var first := state;
      UntouchedAtRest({}, state);
      NoMoreThanAll(g, state, a);
      while state.calls[a].done < |state.calls[a].hits|
        invariant Valid() && Grows(first, state)
        invariant a in state.calls && state.calls - {a} == first.calls - {a}
        decreases |state.calls[a].hits| - state.calls[a].done, if state.calls[a].passed then 0 else 1
      {
        ghost var before := state;
        StepOn(a);
        GrowsTrans(first, before, state);
      }
      ghost var before := state;
      NoMoreThanAll(g, state, a);
      Take(Finish(a));
      GrowsTrans(first, before, state);
    }

    /** Waits for the goroutines, closes the channel and lets the collector receive what is left. */
    method Wait()
      requires Valid()
      modifies this`state
      ensures Valid() && Grows(old(state), state) && Quiet(state)
      ensures Quiet(old(state)) ==> state == old(state)
    {
      hide Holds, Grows, CrcLookupTable.Valid, Window.Valid;
      ghost var first := state;
      UntouchedAtRest({}, state);
      while state.calls != map[]
        invariant Valid() && Grows(first, state)
        invariant Quiet(first) ==> state == first
        decreases state.calls.Keys
      {
        var a :| a in state.calls;
        ghost var before := state;
        Complete(a);
        GrowsTrans(first, before, state);
      }
      while state.queue != []
        invariant Valid() && Grows(first, state) && state.calls == map[]
        invariant Quiet(first) ==> state == first
        decreases |state.queue|
      {
        ghost var before := state;
        Take(Receive);
        GrowsTrans(first, before, state);
      }
    }
  
    /** The goroutines that scan the protected files which are there and have not been verified already. */
    method ScanProtected(ctx: Context, files: seq<FileDesc>) returns (err: Option<ScanError>)
      requires Valid() && WellFormed(files) && forall i :: 0 <= i < |files| ==> files[i].fileID in damage
      requires FilesEnd(g, files)
      modifies this`state, this`damage, ctx
      ensures Valid() && Grows(old(state), state)
      ensures ctx.Later() && (err.Some? ==> ctx.failed)
      ensures damage.Keys == old(damage).Keys && SettledStay(g, files, |files|, old(damage), damage)
      ensures err.None? && !ctx.cancelled ==> FilesSearched(g, candidates, state, files, |files|, old(damage), damage)
      ensures AllContentless(g) ==> state == old(state)
    {
      hide Holds, Grows, CrcLookupTable.Valid, Window.Valid, FilesSearched, WellFormed;
      ghost var first, known := state, damage;
      UntouchedAtRest({}, state);
      NoneSearched(g, candidates, state, files, known);
      err := None;
      for i := 0 to |files|
        invariant Valid() && Grows(first, state) && (AllContentless(g) ==> state == first)
        invariant ctx.Later() && (err.Some? ==> ctx.failed)
        invariant damage.Keys == known.Keys && SettledStay(g, files, i, known, damage)
        invariant forall j :: i <= j < |files| ==> damage[files[j].fileID] == known[files[j].fileID]
        invariant err.None? && !ctx.cancelled ==> FilesSearched(g, candidates, state, files, i, known, damage)
      {
        var stop := ctx.Err();
        if stop {
          assert SettledStay(g, files, |files|, known, damage);
          return;
        }
        var fd := files[i];
        FilesApart(files, i);
        if SkipsBlockScan(damage[fd.fileID]) {
          if err.None? {
            UntouchedAtRest({}, state);
            NextSearched(g, candidates, state, state, files, i, known, damage, damage);
          }
          continue;
        }
        ghost var before, had := state, damage;
        var fileErr := ScanFile(ctx, fd);
        GrowsTrans(first, before, state);
        if err.None? && fileErr.None? && !ctx.cancelled {
          NextSearched(g, candidates, before, state, files, i, known, had, damage);
        }
        err := if err.None? then fileErr else err;
      }
    }

    /** The goroutines that scan the candidate files not resolved yet. */
    method ScanCandidates(ctx: Context, candidateFiles: map<string, FileID>, leaveOut: set<string>)
      returns (err: Option<ScanError>)
      requires Valid() && CandidatesEnd(g, candidateFiles)
      modifies this`state, ctx
      ensures Valid() && Grows(old(state), state)
      ensures ctx.Later() && (err.Some? ==> ctx.failed)
      ensures err.None? && !ctx.cancelled ==>
        CandidatesSearched(g, candidates, state, candidateFiles, candidateFiles.Keys - leaveOut)
      ensures AllContentless(g) ==> state == old(state)
    {
      hide Holds, Grows, CrcLookupTable.Valid, Window.Valid, Searched;
      ghost var first := state;
      UntouchedAtRest({}, state);
      err := None;
      var rest := candidateFiles.Keys;
      while rest != {}
        invariant Valid() && Grows(first, state) && rest <= candidateFiles.Keys
        invariant AllContentless(g) ==> state == first
        invariant ctx.Later() && (err.Some? ==> ctx.failed)
        invariant err.None? && !ctx.cancelled ==>
          CandidatesSearched(g, candidates, state, candidateFiles, candidateFiles.Keys - leaveOut - rest)
        decreases rest
      {
        var stop := ctx.Err();
        if stop {
          return;
        }
        var path :| path in rest;
        rest := rest - {path};
        if path in leaveOut {
          continue;
        }
        ghost var before := state;
        var fileErr := ScanCandidateFile(ctx, candidateFiles[path]);
        GrowsTrans(first, before, state);
        if err.None? && fileErr.None? && !ctx.cancelled {
          CandidatesGrow(g, candidates, before, state, candidateFiles, candidateFiles.Keys - leaveOut - rest - {path});
        }
        err := if err.None? then fileErr else err;
      }
    }

    /** scan */
    method Scan(ctx: Context, files: seq<FileDesc>, candidateFiles: map<string, FileID>, resolved: set<string>)
      returns (err: Option<ScanError>)
      requires Valid() && WellFormed(files) && forall i :: 0 <= i < |files| ==> files[i].fileID in damage
      requires FilesEnd(g, files) && CandidatesEnd(g, candidateFiles)
      modifies this`state, this`damage, ctx
      ensures Valid() && Grows(old(state), state) && Quiet(state)
      ensures AllContentless(g) && Quiet(old(state)) ==> state == old(state)
      ensures ctx.Later() && (err.Some? ==> ctx.failed)
      ensures damage.Keys == old(damage).Keys && SettledStay(g, files, |files|, old(damage), damage)
      ensures err.None? && !ctx.cancelled ==> FilesSearched(g, candidates, state, files, |files|, old(damage), damage)
      ensures err.None? && !ctx.cancelled ==>
        CandidatesSearched(g, candidates, state, candidateFiles, candidateFiles.Keys - resolved - Names(files))
    {
      hide Holds, Grows, CrcLookupTable.Valid, Window.Valid, FilesSearched, CandidatesSearched, WellFormed;
      ghost var first := state;
      err := ScanProtected(ctx, files);
      ghost var second := state;
      var candidateErr := ScanCandidates(ctx, candidateFiles, resolved + Names(files));
      GrowsTrans(first, second, state);
      ghost var third := state;
      Wait();
      GrowsTrans(second, third, state);
      GrowsTrans(first, second, state);
      err := if err.None? then candidateErr else err;
      if err.None? && !ctx.cancelled {
        FilesGrow(g, candidates, second, state, files, |files|, old(damage), damage);
        assert candidateFiles.Keys - (resolved + Names(files)) == candidateFiles.Keys - resolved - Names(files);
        CandidatesGrow(g, candidates, third, state, candidateFiles, candidateFiles.Keys - resolved - Names(files));
      }
    }
  }

  /** skipsBlockScan */
  predicate SkipsBlockScan(d: Damage) {
    d == DamageMissing || d == DamageNone
  }

  function Names(files: seq<FileDesc>): set<string> {
    set i | 0 <= i < |files| :: files[i].filename
  }

  /** The last block of the file is cut off at byteCount. */
  predicate EndsAt(g: Setting, source: FileID, byteCount: nat) {
    source in g.ends && g.ends[source] == byteCount
  }

  ghost predicate FilesEnd(g: Setting, files: seq<FileDesc>) {
    forall i :: 0 <= i < |files| ==> EndsAt(g, files[i].fileID, files[i].byteCount)
  }

  ghost predicate CandidatesEnd(g: Setting, candidateFiles: map<string, FileID>) {
    forall path :: path in candidateFiles && candidateFiles[path] in g.files ==>
      EndsAt(g, candidateFiles[path], |g.files[candidateFiles[path]]|)
  }

  /** There is nothing to scan in the file: it does not exist or is empty. */
  predicate Contentless(g: Setting, source: FileID) {
    source !in g.files || g.files[source] == []
  }

  ghost predicate AllContentless(g: Setting) {
    forall id :: id in g.files ==> g.files[id] == []
  }

  /** The protected files have distinct identifiers, and none of them is empty. */
  ghost predicate WellFormed(files: seq<FileDesc>) {
    && (forall i :: 0 <= i < |files| ==> files[i].byteCount > 0)
    && forall i, j :: 0 <= i < j < |files| ==> files[i].fileID != files[j].fileID
  }

  lemma FilesApart(files: seq<FileDesc>, i: nat)
    requires WellFormed(files) && i < |files|
    ensures files[i].byteCount > 0
    ensures forall j :: 0 <= j < |files| && j != i ==> files[j].fileID != files[i].fileID
  {
  }

  /** What scanning the first n files may do to their damage; files that are not scanned keep theirs. */
  ghost predicate SettledStay(g: Setting, files: seq<FileDesc>, n: nat, known: map<FileID, Damage>,
                              damage: map<FileID, Damage>)
  {
    n <= |files| && forall i :: 0 <= i < n ==>
      var id := files[i].fileID;
      && id in known && id in damage
      && (damage[id] == known[id] || (!SkipsBlockScan(known[id]) && damage[id] == DamageFound(g, files[i], known[id])))
  }

  /** The first n files have been searched, unless there was nothing to search, and their damage has been recorded. */
  ghost predicate FilesSearched(g: Setting, candidates: set<FileID>, s: State, files: seq<FileDesc>, n: nat,
                                known: map<FileID, Damage>, damage: map<FileID, Damage>)
  {
    n <= |files| && forall i :: 0 <= i < n ==> FileSearched(g, candidates, s, files[i], known, damage)
  }

  ghost predicate FileSearched(g: Setting, candidates: set<FileID>, s: State, fd: FileDesc, known: map<FileID, Damage>,
                               damage: map<FileID, Damage>)
  {
    && fd.fileID in known && fd.fileID in damage
    && if SkipsBlockScan(known[fd.fileID]) then damage[fd.fileID] == known[fd.fileID] else
       && damage[fd.fileID] == DamageFound(g, fd, known[fd.fileID])
       && (fd.fileID in g.files && g.files[fd.fileID] != [] ==> Searched(g, candidates, s, fd.fileID, fd.byteCount))
  }

  ghost predicate CandidatesSearched(g: Setting, candidates: set<FileID>, s: State, candidateFiles: map<string, FileID>,
                                     paths: set<string>)
  {
    paths <= candidateFiles.Keys && forall p :: p in paths ==>
      var id := candidateFiles[p];
      id in g.files && g.files[id] != [] ==> Searched(g, candidates, s, id, |g.files[id]|)
  }

  lemma CandidatesGrow(g: Setting, candidates: set<FileID>, s: State, t: State, candidateFiles: map<string, FileID>,
                       paths: set<string>)
    requires CandidatesSearched(g, candidates, s, candidateFiles, paths) && Grows(s, t)
    ensures CandidatesSearched(g, candidates, t, candidateFiles, paths)
  {
    hide Searched, Grows;
    forall p | p in paths && candidateFiles[p] in g.files && g.files[candidateFiles[p]] != []
      ensures Searched(g, candidates, t, candidateFiles[p], |g.files[candidateFiles[p]]|)
    {
      SearchedGrows(g, candidates, s, t, candidateFiles[p], |g.files[candidateFiles[p]]|);
    }
  }

  lemma NoneSearched(g: Setting, candidates: set<FileID>, s: State, files: seq<FileDesc>, known: map<FileID, Damage>)
    ensures FilesSearched(g, candidates, s, files, 0, known, known)
  {
  }

  lemma FilesGrow(g: Setting, candidates: set<FileID>, s: State, t: State, files: seq<FileDesc>, n: nat,
                  known: map<FileID, Damage>, damage: map<FileID, Damage>)
    requires FilesSearched(g, candidates, s, files, n, known, damage) && Grows(s, t)
    ensures FilesSearched(g, candidates, t, files, n, known, damage)
  {
    hide Searched, Grows;
    forall i | 0 <= i < n
      ensures FileSearched(g, candidates, t, files[i], known, damage)
    {
      var fd := files[i];
      assert FileSearched(g, candidates, s, fd, known, damage);
      if Searched(g, candidates, s, fd.fileID, fd.byteCount) {
        SearchedGrows(g, candidates, s, t, fd.fileID, fd.byteCount);
      }
    }
  }

  lemma NextSearched(g: Setting, candidates: set<FileID>, s: State, t: State, files: seq<FileDesc>, i: nat,
                     known: map<FileID, Damage>, before: map<FileID, Damage>, damage: map<FileID, Damage>)
    requires i < |files| && FilesSearched(g, candidates, s, files, i, known, before) && Grows(s, t)
    requires WellFormed(files) && damage.Keys == before.Keys
    requires forall id :: id in damage && id != files[i].fileID ==> damage[id] == before[id]
    requires FileSearched(g, candidates, t, files[i], known, damage)
    ensures FilesSearched(g, candidates, t, files, i + 1, known, damage)
  {
    FilesGrow(g, candidates, s, t, files, i, known, before);
    hide Searched, Grows;
    forall j | 0 <= j < i
      ensures FileSearched(g, candidates, t, files[j], known, damage)
    {
      assert FileSearched(g, candidates, t, files[j], known, before);
    }
  }

  /** What scanFile records about the file: gone, of the wrong size, or nothing new. */
  function DamageFound(g: Setting, fd: FileDesc, before: Damage): Damage {
    if fd.fileID !in g.files then DamageMissing else
    if |g.files[fd.fileID]| != fd.byteCount then DamageWrongSize else before
  }

  /** The location is block number absPos / blockSize of its file, absPos is on the grid, and the MD5 is right. */
  predicate IsBlock(loc: Location, hash: Hash, absPos: nat, blockSize: nat)
    requires blockSize > 0
  {
    loc.md5Hash == hash && absPos % blockSize == 0 && loc.block.index == absPos / blockSize
  }

  /** Among the first n locations there is the block expected at absPos, of the file itself or of another one. */
  ghost predicate Seen(locs: seq<Location>, n: nat, hash: Hash, absPos: nat, blockSize: nat, source: FileID, own: bool)
    requires n <= |locs| && blockSize > 0
  {
    exists k :: 0 <= k < n && IsBlock(locs[k], hash, absPos, blockSize) && (locs[k].block.fileID == source) == own
  }

  lemma SeenNone(locs: seq<Location>, hash: Hash, absPos: nat, blockSize: nat, source: FileID)
    requires blockSize > 0
    ensures !Seen(locs, 0, hash, absPos, blockSize, source, true)
    ensures !Seen(locs, 0, hash, absPos, blockSize, source, false)
  {
  }

  lemma SeenNext(locs: seq<Location>, n: nat, hash: Hash, absPos: nat, blockSize: nat, source: FileID)
    requires n < |locs| && blockSize > 0
    ensures forall own :: Seen(locs, n + 1, hash, absPos, blockSize, source, own) <==>
      (Seen(locs, n, hash, absPos, blockSize, source, own)
       || (IsBlock(locs[n], hash, absPos, blockSize) && (locs[n].block.fileID == source) == own))
  {
  }

  lemma SeenIsExpected(g: Setting, candidates: set<FileID>, source: FileID, absPos: nat, w: seq<Byte>)
    requires g.blockSize > 0 && Checksum(w) in g.table
    ensures var locs, hash := g.table[Checksum(w)], g.md5(w);
      IsExpected(g, candidates, source, absPos, w) <==>
        (Seen(locs, |locs|, hash, absPos, g.blockSize, source, true)
         || (Seen(locs, |locs|, hash, absPos, g.blockSize, source, false) && source in candidates))
  {
    hide Checksum;
    var locs, hash := g.table[Checksum(w)], g.md5(w);
    if IsExpected(g, candidates, source, absPos, w) {
      var loc :| Expects(g, candidates, source, absPos, w, loc);
      var k :| 0 <= k < |locs| && locs[k] == loc;
      assert IsBlock(locs[k], hash, absPos, g.blockSize);
    }
    forall k | 0 <= k < |locs| && IsBlock(locs[k], hash, absPos, g.blockSize)
        && (locs[k].block.fileID == source || source in candidates)
      ensures Expects(g, candidates, source, absPos, w, locs[k])
    {
    }
  }

  lemma NoBlocks(g: Setting, candidates: set<FileID>, s: State, source: FileID, absPos: nat, w: seq<Byte>)
    requires g.blockSize > 0 && Checksum(w) !in g.table
    ensures !IsExpected(g, candidates, source, absPos, w)
    ensures Recorded(g, s, Place(source, absPos), w, BlockMatch(false, false), None)
    ensures AllKnown(g, s, w) && AllSent(g, s, Place(source, absPos), w)
  {
    hide Checksum;
  }

  /** Off the grid, when all blocks with this CRC have been reported, hashing the window would find nothing. */
  lemma NothingLeft(g: Setting, candidates: set<FileID>, s: State, source: FileID, absPos: nat, w: seq<Byte>)
    requires g.blockSize > 0 && Checksum(w) in g.table && absPos % g.blockSize != 0
    requires forall i :: 0 <= i < |g.table[Checksum(w)]| ==> IsReported(s, g.table[Checksum(w)][i])
    ensures !IsExpected(g, candidates, source, absPos, w)
    ensures AllKnown(g, s, w)
    ensures forall t :: Recorded(g, t, Place(source, absPos), w, BlockMatch(false, false), None)
  {
    hide Checksum;
  }

  lemma KnownGrows(g: Setting, s: State, t: State, w: seq<Byte>)
    requires AllKnown(g, s, w) && Grows(s, t)
    ensures AllKnown(g, t, w)
  {
    hide Setting.Equal;
  }

  lemma SentGrows(g: Setting, s: State, t: State, place: Place, w: seq<Byte>)
    requires AllSent(g, s, place, w) && Grows(s, t)
    ensures AllSent(g, t, place, w)
  {
    hide Setting.Equal;
  }

  /** A finished call has reported everything it hit. */
  lemma ReportedAll(g: Setting, s: State, place: Place, limit: nat, w: seq<Byte>, m: BlockMatch, id: nat)
    requires Holds(g, s) && g.IsWindow(place, limit, w) && id in s.finished
    requires s.finished[id] == Call(place, BlocksOf(g, w), |BlocksOf(g, w)|, false, m.reportedNew)
    ensures AllSent(g, s, place, w) && AllKnown(g, s, w) && Recorded(g, s, place, w, m, Some(id))
  {
    hide ClaimsHold, EventsHold, Setting.IsWindow, Setting.FoundAt, Setting.Contains;
    BlocksOfMayBegin(g, s, place, limit, w);
    hide Setting.Equal, BlocksOf;
    assert CallHolds(g, s, id, s.finished[id]);
  }

  lemma UntouchedAtRest(mine: set<nat>, s: State)
    ensures Untouched(mine, s, s) && Grows(s, s)
  {
  }

  lemma HitHasFlag(g: Setting, s: State, a: nat)
    requires Holds(g, s) && a in s.calls && s.calls[a].done < |s.calls[a].hits|
    ensures s.calls[a].hits[s.calls[a].done].reported < |s.flags|
  {
    hide ClaimsHold, EventsHold, Setting.Contains, Setting.FoundAt;
    assert CallHolds(g, s, a, s.calls[a]);
    assert g.Contains(s.calls[a].hits[s.calls[a].done]);
  }

  lemma NoMoreThanAll(g: Setting, s: State, a: nat)
    requires Holds(g, s) && a in s.calls
    ensures s.calls[a].done <= |s.calls[a].hits|
  {
    hide ClaimsHold, EventsHold;
    assert CallHolds(g, s, a, s.calls[a]);
  }

  /** A call that finds the flag of its next block unset claims it, and otherwise some other call has. */
  lemma SetByMe(g: Setting, first: State, s: State, me: nat)
    requires Holds(g, s) && Untouched({me}, first, s) && Grows(first, s) && Enabled(g, s, Pass(me))
    ensures var f, t := s.calls[me].hits[s.calls[me].done].reported, AfterPass(s, me);
      !s.flags[f] <==> f in t.claims && t.claims[f].call == me && f !in first.claims
  {
    hide CallsHold, EventsHold, Setting.Contains, Setting.FoundAt, FollowedUp;
  }

  lemma UntouchedTrans(mine: set<nat>, s: State, t: State, u: State)
    requires Untouched(mine, s, t) && Untouched(mine, t, u) && Grows(t, u)
    ensures Untouched(mine, s, u)
  {
  }

  /** A step of a call that is not in mine leaves those alone. */
  lemma OthersOnly(g: Setting, mine: set<nat>, s: State, step: Step)
    requires Holds(g, s) && Enabled(g, s, step)
    requires match step case Pass(a) => a !in mine case Send(a) => a !in mine case Finish(a) => a !in mine case _ => true
    ensures Untouched(mine, s, After(g, s, step))
  {
    hide ClaimsHold, EventsHold, CallsHold, Setting.Contains, Setting.FoundAt;
    NextIsFree(g, s);
  }

  lemma TableContains(g: Setting, crc: U32)
    requires crc in g.table
    ensures forall i :: 0 <= i < |g.table[crc]| ==> g.Contains(g.table[crc][i])
  {
  }

  // The block grid.

  /** Where block number k starts. */
  function GridPos(k: nat, blockSize: nat): nat {
    k * blockSize
  }

  lemma GridNext(k: nat, blockSize: nat)
    ensures GridPos(k + 1, blockSize) == GridPos(k, blockSize) + blockSize
  {
  }

  lemma GridNumber(k: nat, blockSize: nat)
    requires blockSize > 0
    ensures GridPos(k, blockSize) / blockSize == k && GridPos(k, blockSize) % blockSize == 0
  {
    DivMod(0, k, blockSize);
  }

  lemma GridOrder(k: nat, l: nat, blockSize: nat)
    requires k <= l
    ensures GridPos(k, blockSize) <= GridPos(l, blockSize)
  {
  }

  lemma GridBelow(x: nat, blockSize: nat)
    requires blockSize > 0
    ensures GridPos(x / blockSize, blockSize) <= x < GridPos(x / blockSize, blockSize) + blockSize
  {
    DivModSum(x, blockSize);
  }

  /** data is the part of the file source that begins at start. */
  ghost predicate IsChunk(g: Setting, source: FileID, start: nat, data: seq<Byte>) {
    source in g.files && start + |data| <= |g.files[source]| && data == g.files[source][start..start + |data|]
  }

  /** The window at pos, which is inside the file. */
  function FullWindow(g: Setting, source: FileID, pos: nat): seq<Byte>
    requires source in g.files && pos + g.blockSize <= |g.files[source]|
  {
    g.files[source][pos..pos + g.blockSize]
  }

  lemma ChunkWindow(g: Setting, source: FileID, start: nat, data: seq<Byte>, j: nat)
    requires IsChunk(g, source, start, data) && j + g.blockSize <= |data|
    ensures start + j + g.blockSize <= |g.files[source]|
    ensures data[j..j + g.blockSize] == FullWindow(g, source, start + j)
    ensures g.IsWindow(Place(source, start + j), start + j + g.blockSize, data[j..j + g.blockSize])
  {
    var file := g.files[source];
    assert file[start..start + |data|][j..j + g.blockSize] == file[start + j..start + j + g.blockSize];
  }

  /** The grid windows from block number first on have been checked. */
  ghost predicate GridDone(g: Setting, candidates: set<FileID>, s: State, source: FileID, first: nat,
                           claimed: seq<bool>)
  {
    g.blockSize > 0 && source in g.files && forall i :: 0 <= i < |claimed| ==>
      GridChecked(g, candidates, s, source, first + i, claimed[i])
  }

  /** Block number k is claimed if the window there is the block expected there, and what it equals is known. */
  ghost predicate GridChecked(g: Setting, candidates: set<FileID>, s: State, source: FileID, k: nat, claimed: bool)
    requires g.blockSize > 0 && source in g.files
  {
    var pos := GridPos(k, g.blockSize);
    && pos + g.blockSize <= |g.files[source]|
    && (claimed <==> IsExpected(g, candidates, source, pos, FullWindow(g, source, pos)))
    && AllSent(g, s, Place(source, pos), FullWindow(g, source, pos))
    && AllKnown(g, s, FullWindow(g, source, pos))
  }

  lemma GridGrows(g: Setting, candidates: set<FileID>, s: State, t: State, source: FileID, first: nat,
                  claimed: seq<bool>)
    requires GridDone(g, candidates, s, source, first, claimed) && Grows(s, t)
    ensures GridDone(g, candidates, t, source, first, claimed)
  {
    hide GridPos, Grows, AllSent, AllKnown, IsExpected;
    forall i | 0 <= i < |claimed|
      ensures GridChecked(g, candidates, t, source, first + i, claimed[i])
    {
      assert GridChecked(g, candidates, s, source, first + i, claimed[i]);
      var pos := GridPos(first + i, g.blockSize);
      SentGrows(g, s, t, Place(source, pos), FullWindow(g, source, pos));
      KnownGrows(g, s, t, FullWindow(g, source, pos));
    }
  }

  lemma FirstAligned(start: nat, blockSize: nat)
    requires blockSize > 0
    ensures (start + blockSize - 1) / blockSize * blockSize == GridPos((start + blockSize - 1) / blockSize, blockSize)
    ensures start <= GridPos((start + blockSize - 1) / blockSize, blockSize) < start + blockSize
  {
    GridBelow(start + blockSize - 1, blockSize);
  }

  lemma NoneChecked(g: Setting, candidates: set<FileID>, s: State, source: FileID, first: nat, start: nat,
                    data: seq<Byte>)
    requires IsChunk(g, source, start, data) && g.blockSize > 0
    ensures GridDone(g, candidates, s, source, first, [])
  {
  }

  lemma OneMoreChecked(g: Setting, candidates: set<FileID>, s: State, t: State, source: FileID, first: nat,
                       claimed: seq<bool>, last: bool)
    requires GridDone(g, candidates, s, source, first, claimed) && Grows(s, t)
    requires GridChecked(g, candidates, t, source, first + |claimed|, last)
    ensures GridDone(g, candidates, t, source, first, claimed + [last])
  {
    hide GridChecked, Grows;
    GridGrows(g, candidates, s, t, source, first, claimed);
  }

  lemma ChunkCovered(start: nat, len: nat, blockSize: nat, first: nat, end: nat)
    requires blockSize > 0 && first == (start + blockSize - 1) / blockSize
    requires GridPos(end, blockSize) - start > len - blockSize
    ensures forall k: nat :: start <= GridPos(k, blockSize) <= start + len - blockSize ==> first <= k < end
  {
    hide GridPos;
    FirstAligned(start, blockSize);
    forall k: nat | start <= GridPos(k, blockSize) <= start + len - blockSize
      ensures first <= k < end
    {
      if k < first {
        GridOrder(k + 1, first, blockSize);
        GridNext(k, blockSize);
      }
      if k >= end {
        GridOrder(end, k, blockSize);
      }
    }
  }

  // The slide.

  lemma Rolled(w: Window, data: seq<Byte>, j: nat, blockSize: nat)
    requires w.Valid() && w.windowSize == blockSize > 0 && 0 < j && j + blockSize <= |data|
    ensures w.Update(Checksum(data[j - 1..j - 1 + blockSize]), data[j - 1], data[j..j + blockSize][blockSize - 1])
            == Checksum(data[j..j + blockSize])
  {
    hide Checksum, Window.Update, Window.Valid;
    var before, slice := data[j - 1..j - 1 + blockSize], data[j..j + blockSize];
    RollingIsExact(w, before, slice[blockSize - 1]);
    assert before[1..] + [slice[blockSize - 1]] == slice;
  }

  /** The window at pos has been looked at: all blocks it equals have been reported. */
  ghost predicate WindowExamined(g: Setting, s: State, source: FileID, pos: nat) {
    && source in g.files && pos + g.blockSize <= |g.files[source]| && AllKnown(g, s, FullWindow(g, source, pos))
  }

  /** A call on the window at place has reported a block as new. */
  ghost predicate ReportedNewAt(s: State, place: Place) {
    exists id :: id in s.finished && s.finished[id].isNew && s.finished[id].place == place
  }

  /** The position pos is in a claimed block. */
  predicate InClaimed(pos: nat, blockSize: nat, first: nat, claimed: seq<bool>)
    requires blockSize > 0
  {
    var k := pos / blockSize;
    first <= k < first + |claimed| && claimed[k - first]
  }

  /** The windows examined are outside the claimed blocks, and those in news have reported a new block. */
  ghost predicate Examined(g: Setting, s: State, source: FileID, examined: set<nat>, news: set<nat>, first: nat,
                           claimed: seq<bool>)
  {
    && g.blockSize > 0
    && (forall w :: w in examined ==>
          WindowExamined(g, s, source, w) && !InClaimed(w, g.blockSize, first, claimed))
    && (forall w :: w in news ==> w in examined && ReportedNewAt(s, Place(source, w)))
  }

  /**
    A window is examined, or it starts in a claimed block, or less than a block after one that reported a new
    block.
   */
  ghost predicate Covered(pos: nat, blockSize: nat, examined: set<nat>, news: set<nat>, first: nat, claimed: seq<bool>)
    requires blockSize > 0
  {
    || pos in examined || InClaimed(pos, blockSize, first, claimed)
    || exists n :: n in news && n < pos < n + blockSize
  }

  ghost predicate CoveredUpto(lo: nat, hi: nat, blockSize: nat, examined: set<nat>, news: set<nat>, first: nat,
                              claimed: seq<bool>)
  {
    blockSize > 0 && forall pos: nat :: lo <= pos < hi ==> Covered(pos, blockSize, examined, news, first, claimed)
  }

  lemma NothingExamined(g: Setting, s: State, source: FileID, first: nat, claimed: seq<bool>, start: nat)
    requires g.blockSize > 0
    ensures Examined(g, s, source, {}, {}, first, claimed)
    ensures CoveredUpto(start, start, g.blockSize, {}, {}, first, claimed)
  {
  }

  /** Before nextBoundary, which is the end of the block that pos is in, that block is not claimed. */
  ghost predicate OnBoundary(pos: nat, nextBoundary: int, blockSize: nat, first: nat, claimed: seq<bool>)
    requires blockSize > 0
  {
    pos < nextBoundary ==>
      nextBoundary == GridPos(pos / blockSize, blockSize) + blockSize && !InClaimed(pos, blockSize, first, claimed)
  }

  lemma SameBlock(k: nat, pos: nat, blockSize: nat)
    requires blockSize > 0 && GridPos(k, blockSize) <= pos < GridPos(k, blockSize) + blockSize
    ensures pos / blockSize == k
  {
    DivMod(pos - GridPos(k, blockSize), k, blockSize);
  }

  /** Moving on does not enter a claimed block unnoticed. */
  lemma Advance(pos: nat, next: nat, nextBoundary: int, blockSize: nat, first: nat, claimed: seq<bool>)
    requires blockSize > 0 && pos <= next && pos < nextBoundary
    requires OnBoundary(pos, nextBoundary, blockSize, first, claimed)
    ensures OnBoundary(next, nextBoundary, blockSize, first, claimed)
  {
    hide GridPos;
    GridBelow(pos, blockSize);
    if next < nextBoundary {
      SameBlock(pos / blockSize, next, blockSize);
    }
  }

  /** The lookup of the block that pos is in. */
  lemma EnterBlock(pos: nat, blockSize: nat, firstAligned: nat, first: nat, claimed: seq<bool>)
    requires blockSize > 0 && firstAligned == GridPos(first, blockSize)
    ensures var blockStart := pos / blockSize * blockSize;
      && blockStart == GridPos(pos / blockSize, blockSize) && blockStart <= pos < blockStart + blockSize
      && (blockStart >= firstAligned ==> (blockStart - firstAligned) / blockSize == pos / blockSize - first >= 0)
      && (blockStart < firstAligned ==> !InClaimed(pos, blockSize, first, claimed))
  {
    GridBelow(pos, blockSize);
    var k := pos / blockSize;
    if k >= first {
      assert GridPos(k, blockSize) - GridPos(first, blockSize) == 0 + (k - first) * blockSize;
      DivMod(0, k - first, blockSize);
    } else {
      GridOrder(k + 1, first, blockSize);
      GridNext(k, blockSize);
    }
  }

  lemma CoverClaimed(lo: nat, pos: nat, blockSize: nat, examined: set<nat>, news: set<nat>, first: nat,
                     claimed: seq<bool>)
    requires CoveredUpto(lo, pos, blockSize, examined, news, first, claimed)
    requires InClaimed(pos, blockSize, first, claimed)
    ensures CoveredUpto(lo, GridPos(pos / blockSize, blockSize) + blockSize, blockSize, examined, news, first, claimed)
  {
    hide GridPos;
    var k := pos / blockSize;
    GridBelow(pos, blockSize);
    forall p: nat | pos <= p < GridPos(k, blockSize) + blockSize
      ensures InClaimed(p, blockSize, first, claimed)
    {
      SameBlock(k, p, blockSize);
    }
  }

  lemma CoverMiss(lo: nat, pos: nat, blockSize: nat, examined: set<nat>, news: set<nat>, first: nat, claimed: seq<bool>)
    requires CoveredUpto(lo, pos, blockSize, examined, news, first, claimed)
    ensures CoveredUpto(lo, pos + 1, blockSize, examined + {pos}, news, first, claimed)
  {
    hide InClaimed;
    forall p: nat | lo <= p < pos + 1
      ensures Covered(p, blockSize, examined + {pos}, news, first, claimed)
    {
      if p < pos {
        assert Covered(p, blockSize, examined, news, first, claimed);
      }
    }
  }

  lemma CoverNew(lo: nat, pos: nat, blockSize: nat, examined: set<nat>, news: set<nat>, first: nat, claimed: seq<bool>)
    requires CoveredUpto(lo, pos, blockSize, examined, news, first, claimed)
    ensures CoveredUpto(lo, pos + blockSize, blockSize, examined + {pos}, news + {pos}, first, claimed)
  {
    hide InClaimed;
    forall p: nat | lo <= p < pos + blockSize
      ensures Covered(p, blockSize, examined + {pos}, news + {pos}, first, claimed)
    {
      if p < pos {
        assert Covered(p, blockSize, examined, news, first, claimed);
      } else if p > pos {
        assert pos in news + {pos};
      }
    }
  }

  lemma CoverLess(lo: nat, less: nat, hi: nat, blockSize: nat, examined: set<nat>, news: set<nat>, first: nat,
                  claimed: seq<bool>)
    requires CoveredUpto(lo, hi, blockSize, examined, news, first, claimed) && less <= hi
    ensures CoveredUpto(lo, less, blockSize, examined, news, first, claimed)
  {
    hide Covered;
  }

  /** One more window has been examined. */
  lemma ExaminedMore(g: Setting, s: State, t: State, source: FileID, examined: set<nat>, news: set<nat>, first: nat,
                     claimed: seq<bool>, pos: nat)
    requires Examined(g, s, source, examined, news, first, claimed) && Grows(s, t)
    requires WindowExamined(g, t, source, pos) && !InClaimed(pos, g.blockSize, first, claimed)
    ensures Examined(g, t, source, examined + {pos}, news, first, claimed)
    ensures ReportedNewAt(t, Place(source, pos)) ==>
      Examined(g, t, source, examined + {pos}, news + {pos}, first, claimed)
  {
    hide InClaimed, AllKnown, FullWindow;
    forall w | w in examined
      ensures WindowExamined(g, t, source, w)
    {
      KnownGrows(g, s, t, FullWindow(g, source, w));
    }
    forall w | w in news
      ensures ReportedNewAt(t, Place(source, w))
    {
      assert ReportedNewAt(s, Place(source, w));
    }
  }

  // Chunks.

  /** Every window of the chunk is accounted for, and every window on the grid has been checked. */
  ghost predicate ChunkScanned(g: Setting, candidates: set<FileID>, s: State, source: FileID, start: nat, end: nat,
                               c: ChunkScan)
  {
    && source in g.files && end <= |g.files[source]|
    && GridDone(g, candidates, s, source, c.first, c.claimed)
    && Examined(g, s, source, c.examined, c.news, c.first, c.claimed)
    && (forall k: nat :: start <= GridPos(k, g.blockSize) <= end - g.blockSize ==> c.first <= k < c.first + |c.claimed|)
    && (forall pos: nat :: start <= pos <= end - g.blockSize ==>
          Covered(pos, g.blockSize, c.examined, c.news, c.first, c.claimed))
  }

  lemma NoWindows(g: Setting, candidates: set<FileID>, s: State, source: FileID, start: nat, end: nat)
    requires source in g.files && end <= |g.files[source]| && end - start < g.blockSize && g.blockSize > 0
    ensures ChunkScanned(g, candidates, s, source, start, end, ChunkScan(0, [], {}, {}))
  {
    hide GridPos;
  }

  lemma CoverMeans(start: nat, end: nat, blockSize: nat, c: ChunkScan)
    requires end >= blockSize
    requires CoveredUpto(start, end - blockSize + 1, blockSize, c.examined, c.news, c.first, c.claimed)
    ensures forall pos: nat :: start <= pos <= end - blockSize ==>
      Covered(pos, blockSize, c.examined, c.news, c.first, c.claimed)
  {
    hide Covered;
  }

  /** Where chunk i of the scan ends: it overlaps the next one by a block less one byte. */
  function ChunkEnd(i: nat, fileSize: nat, blockSize: nat): nat
    requires blockSize > 0
  {
    var end := i * SCAN_CHUNK_SIZE + SCAN_CHUNK_SIZE + blockSize - 1;
    if end < fileSize then end else fileSize
  }

  ghost predicate ChunksScanned(g: Setting, candidates: set<FileID>, s: State, source: FileID, n: nat,
                                chunks: seq<ChunkScan>)
  {
    source in g.files && g.blockSize > 0 && |chunks| == n && forall i :: 0 <= i < n ==>
      ChunkScanned(g, candidates, s, source, i * SCAN_CHUNK_SIZE, ChunkEnd(i, |g.files[source]|, g.blockSize), chunks[i])
  }

  ghost predicate FileScanned(g: Setting, candidates: set<FileID>, s: State, source: FileID, chunks: seq<ChunkScan>) {
    && source in g.files
    && ChunksScanned(g, candidates, s, source, (|g.files[source]| + SCAN_CHUNK_SIZE - 1) / SCAN_CHUNK_SIZE, chunks)
  }

  lemma ChunkGrows(g: Setting, candidates: set<FileID>, s: State, t: State, source: FileID, start: nat, end: nat,
                   c: ChunkScan)
    requires ChunkScanned(g, candidates, s, source, start, end, c) && Grows(s, t)
    ensures ChunkScanned(g, candidates, t, source, start, end, c)
  {
    hide GridPos, GridDone, Covered, AllKnown, FullWindow, InClaimed, IsExpected;
    GridGrows(g, candidates, s, t, source, c.first, c.claimed);
    forall w | w in c.examined
      ensures WindowExamined(g, t, source, w)
    {
      KnownGrows(g, s, t, FullWindow(g, source, w));
    }
    forall w | w in c.news
      ensures ReportedNewAt(t, Place(source, w))
    {
      assert ReportedNewAt(s, Place(source, w));
    }
  }

  lemma ChunksGrow(g: Setting, candidates: set<FileID>, s: State, t: State, source: FileID, n: nat,
                   chunks: seq<ChunkScan>)
    requires ChunksScanned(g, candidates, s, source, n, chunks) && Grows(s, t)
    ensures ChunksScanned(g, candidates, t, source, n, chunks)
  {
    hide ChunkScanned, Grows, ChunkEnd;
    forall i | 0 <= i < n
      ensures ChunkScanned(g, candidates, t, source, i * SCAN_CHUNK_SIZE,
                           ChunkEnd(i, |g.files[source]|, g.blockSize), chunks[i])
    {
      ChunkGrows(g, candidates, s, t, source, i * SCAN_CHUNK_SIZE, ChunkEnd(i, |g.files[source]|, g.blockSize),
                 chunks[i]);
    }
  }

  /** Every window of a file belongs to exactly one chunk. */
  lemma OneChunk(pos: nat, fileSize: nat, blockSize: nat, i: nat)
    requires blockSize > 0 && pos + blockSize <= fileSize
    ensures pos / SCAN_CHUNK_SIZE < (fileSize + SCAN_CHUNK_SIZE - 1) / SCAN_CHUNK_SIZE
    ensures i == pos / SCAN_CHUNK_SIZE <==>
      i * SCAN_CHUNK_SIZE <= pos && pos + blockSize <= ChunkEnd(i, fileSize, blockSize)
  {
  }

  lemma FileGrows(g: Setting, candidates: set<FileID>, s: State, t: State, source: FileID, chunks: seq<ChunkScan>)
    requires FileScanned(g, candidates, s, source, chunks) && Grows(s, t)
    ensures FileScanned(g, candidates, t, source, chunks)
  {
    hide ChunksScanned;
    ChunksGrow(g, candidates, s, t, source, (|g.files[source]| + SCAN_CHUNK_SIZE - 1) / SCAN_CHUNK_SIZE, chunks);
  }

  // Whole files.

  /** The last block is cut off at byteCount. */
  lemma LastBlock(byteCount: nat, blockSize: nat)
    requires blockSize > 0 && byteCount > 0
    ensures GridPos(BlockCount(byteCount, blockSize) - 1, blockSize) < byteCount
    ensures byteCount <= GridPos(BlockCount(byteCount, blockSize) - 1, blockSize) + blockSize
    ensures (BlockCount(byteCount, blockSize) - 1) * blockSize == GridPos(BlockCount(byteCount, blockSize) - 1, blockSize)
  {
    GridBelow(byteCount + blockSize - 1, blockSize);
  }

  /** The bytes of block number k as the file has them now, the last block cut off at byteCount and padded. */
  function OnDisk(g: Setting, source: FileID, byteCount: nat, k: nat): seq<Byte>
    requires source in g.files
  {
    var pos := GridPos(k, g.blockSize);
    WindowAt(g, Place(source, pos), if byteCount < pos + g.blockSize then byteCount else pos + g.blockSize)
  }

  /** The last block, if it is cut off, has been compared with what the table holds. */
  ghost predicate LastBlockChecked(g: Setting, s: State, source: FileID, byteCount: nat) {
    && g.blockSize > 0 && byteCount > 0 && source in g.files
    && (byteCount % g.blockSize != 0 ==>
          var k := BlockCount(byteCount, g.blockSize) - 1;
          && AllSent(g, s, Place(source, GridPos(k, g.blockSize)), OnDisk(g, source, byteCount, k))
          && AllKnown(g, s, OnDisk(g, source, byteCount, k)))
  }

  /** The whole file has been searched. */
  ghost predicate Searched(g: Setting, candidates: set<FileID>, s: State, source: FileID, byteCount: nat) {
    LastBlockChecked(g, s, source, byteCount) && exists chunks :: FileScanned(g, candidates, s, source, chunks)
  }

  lemma SearchedGrows(g: Setting, candidates: set<FileID>, s: State, t: State, source: FileID, byteCount: nat)
    requires Searched(g, candidates, s, source, byteCount) && Grows(s, t)
    ensures Searched(g, candidates, t, source, byteCount)
  {
    hide GridPos, FileScanned, Grows, AllSent, AllKnown, OnDisk;
    var chunks :| FileScanned(g, candidates, s, source, chunks);
    FileGrows(g, candidates, s, t, source, chunks);
    if byteCount % g.blockSize != 0 {
      var k := BlockCount(byteCount, g.blockSize) - 1;
      SentGrows(g, s, t, Place(source, GridPos(k, g.blockSize)), OnDisk(g, source, byteCount, k));
      KnownGrows(g, s, t, OnDisk(g, source, byteCount, k));
    }
  }

  /** Which block is cut off: the last one, if any. */
  lemma CutOff(byteCount: nat, blockSize: nat, k: nat)
    requires blockSize > 0 && k < BlockCount(byteCount, blockSize) && GridPos(k, blockSize) + blockSize > byteCount
    ensures k == BlockCount(byteCount, blockSize) - 1 && byteCount % blockSize != 0
  {
    hide GridPos;
    var last := BlockCount(byteCount, blockSize) - 1;
    LastBlock(byteCount, blockSize);
    if k < last {
      GridOrder(k + 1, last, blockSize);
      GridNext(k, blockSize);
    }
    if byteCount % blockSize == 0 {
      GridBelow(byteCount, blockSize);
      CutOffExact(byteCount, blockSize, k);
    }
  }

  lemma GridExact(x: nat, n: nat, blockSize: nat)
    requires x == n * blockSize
    ensures GridPos(n, blockSize) == x
  {
  }

  lemma CutOffExact(byteCount: nat, blockSize: nat, k: nat)
    requires blockSize > 0 && byteCount % blockSize == 0 && GridPos(k, blockSize) < byteCount
    ensures GridPos(k, blockSize) + blockSize <= byteCount
  {
    hide GridPos;
    var n := byteCount / blockSize;
    DivModSum(byteCount, blockSize);
    GridExact(byteCount, n, blockSize);
    if k >= n {
      GridOrder(n, k, blockSize);
    } else {
      GridOrder(k + 1, n, blockSize);
      GridNext(k, blockSize);
    }
  }

  /** The chunk that a window inside the file belongs to. */
  lemma ChunkOf(g: Setting, candidates: set<FileID>, s: State, source: FileID, chunks: seq<ChunkScan>, pos: nat)
    returns (c: ChunkScan)
    requires FileScanned(g, candidates, s, source, chunks) && g.blockSize > 0 && pos + g.blockSize <= |g.files[source]|
    ensures GridDone(g, candidates, s, source, c.first, c.claimed)
    ensures Examined(g, s, source, c.examined, c.news, c.first, c.claimed)
    ensures Covered(pos, g.blockSize, c.examined, c.news, c.first, c.claimed)
    ensures forall k: nat :: GridPos(k, g.blockSize) == pos ==> c.first <= k < c.first + |c.claimed|
  {
    hide GridPos, Covered, Examined, GridDone;
    var i := pos / SCAN_CHUNK_SIZE;
    OneChunk(pos, |g.files[source]|, g.blockSize, i);
    c := chunks[i];
    assert ChunkScanned(g, candidates, s, source, i * SCAN_CHUNK_SIZE,
                        ChunkEnd(i, |g.files[source]|, g.blockSize), c);
  }

  /** Every block the file holds where it belongs has been reported. */
  lemma InPlaceIsKnown(g: Setting, candidates: set<FileID>, s: State, source: FileID, byteCount: nat, k: nat)
    requires Searched(g, candidates, s, source, byteCount) && k < BlockCount(byteCount, g.blockSize)
    requires GridPos(k, g.blockSize) + g.blockSize <= |g.files[source]| || GridPos(k, g.blockSize) + g.blockSize > byteCount
    ensures AllKnown(g, s, OnDisk(g, source, byteCount, k))
  {
    hide GridPos, FileScanned, AllSent, AllKnown, Examined, Covered, IsExpected;
    var pos := GridPos(k, g.blockSize);
    if pos + g.blockSize > byteCount {
      CutOff(byteCount, g.blockSize, k);
    } else {
      var chunks :| FileScanned(g, candidates, s, source, chunks);
      var c := ChunkOf(g, candidates, s, source, chunks, pos);
      assert GridChecked(g, candidates, s, source, c.first + (k - c.first), c.claimed[k - c.first]);
      assert OnDisk(g, source, byteCount, k) == FullWindow(g, source, pos);
    }
  }

  /**
    Blocks in place are not lost: when nothing is under way any more, every block of a file that is there where it
    belongs has been located, there or somewhere else.
   */
  lemma InPlaceIsLocated(g: Setting, candidates: set<FileID>, s: State, source: FileID, byteCount: nat, k: nat,
                         loc: Location)
    requires Holds(g, s) && Quiet(s) && Searched(g, candidates, s, source, byteCount)
    requires k < BlockCount(byteCount, g.blockSize)
    requires GridPos(k, g.blockSize) + g.blockSize <= |g.files[source]| || GridPos(k, g.blockSize) + g.blockSize > byteCount
    requires g.Equal(loc, OnDisk(g, source, byteCount, k))
    ensures loc.block in s.places
  {
    hide Holds, Setting.Equal, OnDisk, Checksum;
    InPlaceIsKnown(g, candidates, s, source, byteCount, k);
    EqualIsContained(g, loc, OnDisk(g, source, byteCount, k));
    QuietLocated(g, s, loc);
  }

  lemma EqualIsContained(g: Setting, loc: Location, w: seq<Byte>)
    requires g.Equal(loc, w)
    ensures g.Contains(loc)
  {
    hide Checksum;
    var locs := g.table[Checksum(w)];
    var i :| 0 <= i < |locs| && locs[i] == loc;
  }

  /** The position pos is in a block that the file holds where it belongs. */
  ghost predicate InIntactBlock(g: Setting, candidates: set<FileID>, source: FileID, pos: nat)
    requires source in g.files && g.blockSize > 0
  {
    var at := GridPos(pos / g.blockSize, g.blockSize);
    && at <= pos < at + g.blockSize <= |g.files[source]|
    && IsExpected(g, candidates, source, at, FullWindow(g, source, at))
  }

  /** Less than a block before pos, a window reported a block that no window had reported before. */
  ghost predicate AfterNew(g: Setting, s: State, source: FileID, pos: nat) {
    exists n: nat :: n < pos < n + g.blockSize && ReportedNewAt(s, Place(source, n))
  }

  /**
    Coverage: whatever window of the file is taken, it has been examined, or it starts in a block that is in place, or
    less than a block after a window that reported a new block.
   */
  lemma EveryWindow(g: Setting, candidates: set<FileID>, s: State, source: FileID, byteCount: nat, pos: nat)
    requires Searched(g, candidates, s, source, byteCount) && pos + g.blockSize <= |g.files[source]|
    ensures WindowExamined(g, s, source, pos) || InIntactBlock(g, candidates, source, pos) || AfterNew(g, s, source, pos)
  {
    hide GridPos, FileScanned, AllSent, AllKnown, IsExpected, ReportedNewAt, WindowExamined;
    var chunks :| FileScanned(g, candidates, s, source, chunks);
    var c := ChunkOf(g, candidates, s, source, chunks, pos);
    if InClaimed(pos, g.blockSize, c.first, c.claimed) {
      GridBelow(pos, g.blockSize);
      var i := pos / g.blockSize - c.first;
      assert GridChecked(g, candidates, s, source, c.first + i, c.claimed[i]);
    } else if pos !in c.examined {
      var n :| n in c.news && n < pos < n + g.blockSize;
      assert ReportedNewAt(s, Place(source, n));
    }
  }
}
