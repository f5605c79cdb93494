/**
  The report-once protocol of par2/scan.go as a transition system. Any number of matchBlock calls run at once; each
  takes the blocks its window equals one at a time, claims the block's reported flag and sends an event. A collector
  receives the events and keeps the first place it learns for a block. The order of all these steps is left open.
 */
module Reports {
  import opened Bits
  import opened Crc32
  import opened Packets
  import opened CrcTable

  /** A position in a file on disk. */
  datatype Place = Place(source: FileID, offset: nat)

  /** matchEvent: block has been found at place. */
  datatype Event = Event(block: Block, place: Place)

  /**
    A call of matchBlock on the window at place. It has found the window to equal the blocks in hits and has dealt
    with the first done of them; passed says that it has passed the flag of the next one, but not sent its event yet.
   */
  datatype Call = Call(place: Place, hits: seq<Location>, done: nat, passed: bool, isNew: bool)

  /** Who set a flag. */
  datatype Claim = Claim(call: nat, loc: Location)

  /** The shared state, and what has happened so far: sent, claims, finished, handled and next only record history. */
  datatype State = State(
    flags: seq<bool>, queue: seq<Event>, places: map<Block, Place>, calls: map<nat, Call>,
    sent: set<Event>, claims: map<nat, Claim>, finished: map<nat, Call>, handled: set<Location>, next: nat)

  /**
    What stays the same during a scan: block size, the files on disk, the lengths their last blocks are cut off at, the
    hash, the table, places already known.
   */
  datatype Setting = Setting(blockSize: nat, files: map<FileID, seq<Byte>>, ends: map<FileID, nat>,
                             md5: seq<Byte> -> Hash, table: map<U32, seq<Location>>, known: map<Block, Place>)
  {
    ghost predicate Contains(loc: Location) {
      exists crc, i :: crc in table && 0 <= i < |table[crc]| && table[crc][i] == loc
    }

    ghost predicate OwnFlags() {
      forall a, b :: Contains(a) && Contains(b) && a.reported == b.reported ==> a == b
    }

    /** Where a window at place may end: after a whole block, or where the last block of the file is cut off. */
    predicate IsLimit(place: Place, limit: nat) {
      && limit <= place.offset + blockSize
      && (limit == place.offset + blockSize || (place.source in ends && limit == ends[place.source]))
    }

    /** What a call reads at place: the file up to limit, then zeros. */
    ghost predicate IsWindow(place: Place, limit: nat, w: seq<Byte>) {
      && place.source in files && |w| == blockSize && IsLimit(place, limit)
      && forall b :: 0 <= b < blockSize ==>
           var at := place.offset + b;
           w[b] == if at < limit && at < |files[place.source]| then files[place.source][at] else 0
    }

    /** Some window at place has the checksums of the block loc. */
    ghost predicate FoundAt(loc: Location, place: Place) {
      exists limit, w :: IsWindow(place, limit, w) && Equal(loc, w)
    }

    /** The window w has the CRC and the MD5 of the block loc. */
    ghost predicate Equal(loc: Location, w: seq<Byte>) {
      Checksum(w) in table && loc in table[Checksum(w)] && md5(w) == loc.md5Hash
    }

    ghost predicate Truthful(e: Event) {
      exists loc :: Contains(loc) && loc.block == e.block && FoundAt(loc, e.place)
    }
  }

  datatype Step =
    | Begin(place: Place, hits: seq<Location>)
    | Skip(skipped: seq<Location>)
    | Pass(call: nat)
    | Send(call: nat)
    | Finish(call: nat)
    | Receive

  predicate IsReported(s: State, loc: Location) {
    loc.reported < |s.flags| && s.flags[loc.reported]
  }

  ghost predicate Enabled(g: Setting, s: State, step: Step) {
    match step
    case Begin(place, hits) => forall i :: 0 <= i < |hits| ==> g.Contains(hits[i]) && g.FoundAt(hits[i], place)
    case Skip(hits) =>
      forall i :: 0 <= i < |hits| ==> g.Contains(hits[i]) && IsReported(s, hits[i])
    case Pass(a) =>
      && a in s.calls && s.calls[a].done < |s.calls[a].hits| && !s.calls[a].passed
      && s.calls[a].hits[s.calls[a].done].reported < |s.flags|
    case Send(a) => a in s.calls && s.calls[a].done < |s.calls[a].hits| && s.calls[a].passed
    case Finish(a) => a in s.calls && s.calls[a].done == |s.calls[a].hits|
    case Receive => s.queue != []
  }

  /** A call passes the flag of its next block: it sets the flag unless it is set already. */
  function AfterPass(s: State, a: nat): State
    requires a in s.calls && s.calls[a].done < |s.calls[a].hits|
    requires s.calls[a].hits[s.calls[a].done].reported < |s.flags|
  {
    var c := s.calls[a];
    var loc := c.hits[c.done];
    if s.flags[loc.reported] then s.(calls := s.calls[a := c.(passed := true)])
    else s.(flags := s.flags[loc.reported := true], claims := s.claims[loc.reported := Claim(a, loc)],
            calls := s.calls[a := c.(passed := true, isNew := true)])
  }

  function AfterSend(s: State, a: nat): State
    requires a in s.calls && s.calls[a].done < |s.calls[a].hits|
  {
    var c := s.calls[a];
    var e := Event(c.hits[c.done].block, c.place);
    s.(queue := s.queue + [e], sent := s.sent + {e},
       calls := s.calls[a := c.(done := c.done + 1, passed := false)])
  }

  function AfterFinish(s: State, a: nat): State
    requires a in s.calls
  {
    s.(calls := s.calls - {a}, finished := s.finished[a := s.calls[a]],
       handled := s.handled + Elements(s.calls[a].hits))
  }

  /** The collector keeps the first place it learns for a block. */
  function AfterReceive(s: State): State
    requires s.queue != []
  {
    var e := s.queue[0];
    s.(queue := s.queue[1..], places := if e.block in s.places then s.places else s.places[e.block := e.place])
  }

  function Elements(locs: seq<Location>): set<Location> {
    set i | 0 <= i < |locs| :: locs[i]
  }

  function After(g: Setting, s: State, step: Step): State
    requires Enabled(g, s, step)
  {
    match step
    case Begin(place, hits) => s.(calls := s.calls[s.next := Call(place, hits, 0, false, false)], next := s.next + 1)
    case Skip(hits) => s.(handled := s.handled + Elements(hits))
    case Pass(a) => AfterPass(s, a)
    case Send(a) => AfterSend(s, a)
    case Finish(a) => AfterFinish(s, a)
    case Receive => AfterReceive(s)
  }

  // The invariant.

  ghost predicate Initial(g: Setting, s: State) {
    && g.OwnFlags() && (forall loc :: g.Contains(loc) ==> loc.reported < |s.flags|)
    && (forall f :: 0 <= f < |s.flags| ==> !s.flags[f])
    && s.queue == [] && s.places == g.known && s.calls == map[] && s.sent == {} && s.claims == map[]
    && s.finished == map[] && s.handled == {}
  }

  /** The claim is followed up: its event has been sent, or its call is about to send it. */
  ghost predicate FollowedUp(s: State, claim: Claim) {
    || (exists place :: Event(claim.loc.block, place) in s.sent)
    || (claim.call in s.calls && AboutToSend(s.calls[claim.call], claim.loc))
  }

  predicate AboutToSend(c: Call, loc: Location) {
    c.passed && c.done < |c.hits| && c.hits[c.done] == loc
  }

  /** What holds of a call, running or finished: it claims only what it hits, and it is new if it claimed anything. */
  ghost predicate CallHolds(g: Setting, s: State, id: nat, c: Call) {
    && id < s.next && c.done <= |c.hits|
    && (forall i :: 0 <= i < |c.hits| ==> g.Contains(c.hits[i]) && g.FoundAt(c.hits[i], c.place))
    && (forall i :: 0 <= i < c.done ==>
          Event(c.hits[i].block, c.place) in s.sent && IsReported(s, c.hits[i]))
    && (c.passed ==> c.done < |c.hits| && IsReported(s, c.hits[c.done]))
    && (c.isNew <==> exists f :: f in s.claims && s.claims[f].call == id)
    && (forall f :: f in s.claims && s.claims[f].call == id ==> s.claims[f].loc in c.hits)
  }

  ghost predicate ClaimsHold(g: Setting, s: State) {
    && (forall f: nat :: f in s.claims <==> f < |s.flags| && s.flags[f])
    && (forall f :: f in s.claims ==>
          && g.Contains(s.claims[f].loc) && s.claims[f].loc.reported == f && s.claims[f].call < s.next
          && FollowedUp(s, s.claims[f]))
  }

  ghost predicate EventsHold(g: Setting, s: State) {
    && (forall e :: e in s.sent ==> g.Truthful(e) && (e in s.queue || e.block in s.places))
    && (forall i :: 0 <= i < |s.queue| ==> s.queue[i] in s.sent)
    && (forall b :: b in g.known ==> b in s.places && s.places[b] == g.known[b])
    && (forall b :: b in s.places ==> b in g.known || Event(b, s.places[b]) in s.sent)
    && (forall e :: e in s.sent ==> exists loc: Location :: loc.block == e.block && Accounted(s, loc))
  }

  /** A location some call has hit. */
  ghost predicate Accounted(s: State, loc: Location) {
    loc in s.handled || exists a :: a in s.calls && loc in s.calls[a].hits
  }

  ghost predicate Holds(g: Setting, s: State) {
    && g.OwnFlags() && (forall loc :: g.Contains(loc) ==> loc.reported < |s.flags|)
    && CallsHold(g, s) && ClaimsHold(g, s) && EventsHold(g, s)
    && (forall loc :: loc in s.handled ==> g.Contains(loc) && IsReported(s, loc))
  }

  /** Nothing that was there before is taken back. */
  ghost predicate Grows(s: State, t: State) {
    && |s.flags| == |t.flags| && (forall f :: 0 <= f < |s.flags| && s.flags[f] ==> t.flags[f])
    && s.sent <= t.sent && s.handled <= t.handled && s.next <= t.next
    && (forall b :: b in s.places ==> b in t.places && t.places[b] == s.places[b])
    && (forall f :: f in s.claims ==> f in t.claims && t.claims[f] == s.claims[f])
    && (forall a :: a in s.finished ==> a in t.finished && t.finished[a] == s.finished[a])
  }

  lemma InitiallyHolds(g: Setting, s: State)
    requires Initial(g, s)
    ensures Holds(g, s)
  {
  }

  // Every step keeps the invariant and takes nothing back.

  ghost predicate CallsHold(g: Setting, s: State) {
    && (forall a :: a in s.calls ==> CallHolds(g, s, a, s.calls[a]) && a !in s.finished)
    && (forall a :: a in s.finished ==>
          CallHolds(g, s, a, s.finished[a]) && s.finished[a].done == |s.finished[a].hits| && !s.finished[a].passed)
  }

  /** A call other than the one that works keeps what it is entitled to. */
  lemma CallStays(g: Setting, s: State, t: State, id: nat, c: Call)
    requires CallHolds(g, s, id, c) && Grows(s, t)
    requires forall f :: f in t.claims && t.claims[f].call == id ==> f in s.claims
    ensures CallHolds(g, t, id, c)
  {
    hide Setting.Contains, Setting.FoundAt;
    if c.isNew {
      var f :| f in s.claims && s.claims[f].call == id;
      assert f in t.claims && t.claims[f].call == id;
    }
  }

  lemma OthersStay(g: Setting, s: State, t: State, id: nat)
    requires CallsHold(g, s) && Grows(s, t)
    requires forall f :: f in t.claims && f !in s.claims ==> t.claims[f].call == id
    requires forall a :: a in t.calls && a != id ==> a in s.calls && t.calls[a] == s.calls[a]
    requires forall a :: a in t.finished && a != id ==> a in s.finished && t.finished[a] == s.finished[a]
    requires id in t.calls ==> CallHolds(g, t, id, t.calls[id]) && id !in t.finished
    requires id in t.finished ==> CallHolds(g, t, id, t.finished[id]) && id !in t.calls
    requires id in t.finished ==> t.finished[id].done == |t.finished[id].hits| && !t.finished[id].passed
    requires id !in s.finished
    ensures CallsHold(g, t)
  {
    hide CallHolds, Grows;
    forall a | a in t.calls && a != id
      ensures CallHolds(g, t, a, t.calls[a]) && a !in t.finished
    {
      CallStays(g, s, t, a, t.calls[a]);
    }
    forall a | a in t.finished && a != id
      ensures CallHolds(g, t, a, t.finished[a])
    {
      CallStays(g, s, t, a, t.finished[a]);
    }
  }

  lemma BeginKeeps(g: Setting, s: State, place: Place, hits: seq<Location>)
    requires Holds(g, s) && Enabled(g, s, Begin(place, hits))
    ensures Holds(g, After(g, s, Begin(place, hits))) && Grows(s, After(g, s, Begin(place, hits)))
  {
    hide Setting.Contains, Setting.FoundAt, Setting.Truthful, Setting.OwnFlags, CallsHold;
    var t := After(g, s, Begin(place, hits));
    NextIsFree(g, s);
    assert CallHolds(g, t, s.next, t.calls[s.next]);
    OthersStay(g, s, t, s.next);
    EventsStay(g, s, t);
    ClaimsStay(g, s, t, s.next);
  }

  lemma NextIsFree(g: Setting, s: State)
    requires CallsHold(g, s)
    ensures s.next !in s.calls && s.next !in s.finished
  {
    hide Setting.Contains, Setting.FoundAt;
  }

  /** Without a new event and with the same queue, only the accounting has to be kept up. */
  lemma EventsStay(g: Setting, s: State, t: State)
    requires EventsHold(g, s) && t.sent == s.sent && t.queue == s.queue && t.places == s.places
    requires forall loc: Location :: Accounted(s, loc) ==> Accounted(t, loc)
    ensures EventsHold(g, t)
  {
    hide Setting.Contains, Setting.FoundAt, Setting.Truthful, Accounted;
  }

  lemma ClaimsStay(g: Setting, s: State, t: State, id: nat)
    requires ClaimsHold(g, s) && t.claims == s.claims && t.flags == s.flags && s.next <= t.next && s.sent <= t.sent
    requires forall a :: a in s.calls && a != id ==> a in t.calls && t.calls[a] == s.calls[a]
    requires forall f :: f in s.claims && s.claims[f].call == id ==> FollowedUp(t, s.claims[f])
    ensures ClaimsHold(g, t)
  {
    hide Setting.Contains;
    forall f | f in t.claims
      ensures FollowedUp(t, t.claims[f])
    {
      assert FollowedUp(s, s.claims[f]);
    }
  }

  lemma SkipKeeps(g: Setting, s: State, hits: seq<Location>)
    requires Holds(g, s) && Enabled(g, s, Skip(hits))
    ensures Holds(g, After(g, s, Skip(hits))) && Grows(s, After(g, s, Skip(hits)))
  {
    hide Setting.Contains, Setting.FoundAt, Setting.Truthful, Setting.OwnFlags, CallsHold;
    var t := After(g, s, Skip(hits));
    NextIsFree(g, s);
    OthersStay(g, s, t, s.next);
    EventsStay(g, s, t);
    ClaimsStay(g, s, t, s.next);
  }

  lemma PassKeeps(g: Setting, s: State, a: nat)
    requires Holds(g, s) && Enabled(g, s, Pass(a))
    ensures Holds(g, AfterPass(s, a)) && Grows(s, AfterPass(s, a))
  {
    hide Setting.Contains, Setting.FoundAt, Setting.Truthful, Setting.OwnFlags, CallsHold, ClaimsHold, EventsHold;
    var t := AfterPass(s, a);
    var loc := s.calls[a].hits[s.calls[a].done];
    PassedCall(g, s, a);
    CallsBefore(g, s, a);
    OthersStay(g, s, t, a);
    PassedClaims(g, s, a);
    SameHits(s, t, a);
    EventsStay(g, s, t);
  }

  lemma CallsBefore(g: Setting, s: State, a: nat)
    requires CallsHold(g, s) && a in s.calls
    ensures CallHolds(g, s, a, s.calls[a]) && a !in s.finished
  {
  }

  lemma SameHits(s: State, t: State, a: nat)
    requires a in s.calls && a in t.calls && t.calls[a].hits == s.calls[a].hits && s.handled <= t.handled
    requires forall b :: b in s.calls && b != a ==> b in t.calls && t.calls[b] == s.calls[b]
    ensures forall loc: Location :: Accounted(s, loc) ==> Accounted(t, loc)
  {
  }

  lemma PassedGrows(g: Setting, s: State, a: nat)
    requires ClaimsHold(g, s) && Enabled(g, s, Pass(a))
    ensures Grows(s, AfterPass(s, a))
    ensures s.claims.Keys <= AfterPass(s, a).claims.Keys
  {
    hide Setting.Contains, FollowedUp;
  }

  /** No flag is claimed twice, so the call that sets one is the only one to have claimed it. */
  lemma PassedCall(g: Setting, s: State, a: nat)
    requires CallsHold(g, s) && ClaimsHold(g, s) && Enabled(g, s, Pass(a))
    ensures CallHolds(g, AfterPass(s, a), a, AfterPass(s, a).calls[a]) && Grows(s, AfterPass(s, a))
  {
    hide Setting.Contains, Setting.FoundAt, CallsHold, ClaimsHold;
    var t := AfterPass(s, a);
    var c := s.calls[a];
    var loc := c.hits[c.done];
    CallsBefore(g, s, a);
    PassedGrows(g, s, a);
    if s.flags[loc.reported] {
      assert t.claims == s.claims;
    } else {
      assert t.claims[loc.reported] == Claim(a, loc) && t.calls[a].isNew;
      hide Grows;
      assert forall i :: 0 <= i < |c.hits| ==> IsReported(s, c.hits[i]) ==> IsReported(t, c.hits[i]);
      hide IsReported, Enabled;
    }
  }

  lemma PassedClaims(g: Setting, s: State, a: nat)
    requires CallsHold(g, s) && ClaimsHold(g, s) && Enabled(g, s, Pass(a))
    ensures ClaimsHold(g, AfterPass(s, a))
  {
    hide Setting.Contains, Setting.FoundAt, CallsHold;
    var t := AfterPass(s, a);
    CallsBefore(g, s, a);
    assert g.Contains(s.calls[a].hits[s.calls[a].done]);
    hide CallHolds;
    forall f | f in s.claims
      ensures FollowedUp(t, s.claims[f])
    {
      StillFollowedUp(s, a, s.claims[f]);
    }
    hide FollowedUp;
    NewFollowedUp(s, a);
  }

  lemma StillFollowedUp(s: State, a: nat, claim: Claim)
    requires FollowedUp(s, claim) && a in s.calls && s.calls[a].done < |s.calls[a].hits| && !s.calls[a].passed
    requires s.calls[a].hits[s.calls[a].done].reported < |s.flags|
    ensures FollowedUp(AfterPass(s, a), claim)
  {
  }

  lemma NewFollowedUp(s: State, a: nat)
    requires a in s.calls && s.calls[a].done < |s.calls[a].hits|
    requires s.calls[a].hits[s.calls[a].done].reported < |s.flags|
    ensures FollowedUp(AfterPass(s, a), Claim(a, s.calls[a].hits[s.calls[a].done]))
  {
  }

  lemma SendKeeps(g: Setting, s: State, a: nat)
    requires Holds(g, s) && Enabled(g, s, Send(a))
    ensures Holds(g, AfterSend(s, a)) && Grows(s, AfterSend(s, a))
  {
    hide Setting.Contains, Setting.FoundAt, Setting.Truthful, Setting.OwnFlags, CallsHold, ClaimsHold, EventsHold;
    var t := AfterSend(s, a);
    CallsBefore(g, s, a);
    SentCall(g, s, a);
    OthersStay(g, s, t, a);
    SentClaims(g, s, a);
    SentEvents(g, s, a);
  }

  lemma SentCall(g: Setting, s: State, a: nat)
    requires CallsHold(g, s) && Enabled(g, s, Send(a))
    ensures CallHolds(g, AfterSend(s, a), a, AfterSend(s, a).calls[a]) && Grows(s, AfterSend(s, a))
  {
    hide Setting.Contains, Setting.FoundAt, FollowedUp;
    assert CallHolds(g, s, a, s.calls[a]);
  }

  lemma SentClaims(g: Setting, s: State, a: nat)
    requires CallsHold(g, s) && ClaimsHold(g, s) && Enabled(g, s, Send(a))
    ensures ClaimsHold(g, AfterSend(s, a))
  {
    hide Setting.Contains, Setting.FoundAt, CallsHold;
    var t := AfterSend(s, a);
    var c := s.calls[a];
    var e := Event(c.hits[c.done].block, c.place);
    assert e in t.sent;
    forall f | f in t.claims
      ensures FollowedUp(t, t.claims[f])
    {
      assert FollowedUp(s, s.claims[f]);
    }
  }

  lemma SentEvents(g: Setting, s: State, a: nat)
    requires CallsHold(g, s) && EventsHold(g, s) && Enabled(g, s, Send(a))
    ensures EventsHold(g, AfterSend(s, a))
  {
    hide Setting.Contains, Setting.FoundAt, Accounted;
    var t := AfterSend(s, a);
    var c := s.calls[a];
    var loc := c.hits[c.done];
    var e := Event(loc.block, c.place);
    assert CallHolds(g, s, a, c);
    assert g.Contains(loc) && g.FoundAt(loc, e.place);
    assert g.Truthful(e);
    SameHits(s, t, a);
    assert t.queue[|s.queue|] == e;
    HitIsAccounted(t, a, c.done);
    QueueLonger(g, s, e, t);
  }

  lemma HitIsAccounted(t: State, a: nat, i: nat)
    requires a in t.calls && i < |t.calls[a].hits|
    ensures Accounted(t, t.calls[a].hits[i])
  {
  }

  lemma QueueLonger(g: Setting, s: State, e: Event, t: State)
    requires EventsHold(g, s) && g.Truthful(e) && t.sent == s.sent + {e} && t.queue == s.queue + [e] && t.places == s.places
    requires forall loc: Location :: Accounted(s, loc) ==> Accounted(t, loc)
    requires exists loc: Location :: loc.block == e.block && Accounted(t, loc)
    ensures EventsHold(g, t)
  {
    hide Setting.Contains, Setting.FoundAt, Setting.Truthful, Accounted;
    forall x | x in t.sent
      ensures x in t.queue || x.block in t.places
    {
      if x in s.queue {
        var i :| 0 <= i < |s.queue| && s.queue[i] == x;
        assert t.queue[i] == x;
      } else if x == e {
        assert t.queue[|s.queue|] == x;
      }
    }
  }

  lemma FinishKeeps(g: Setting, s: State, a: nat)
    requires Holds(g, s) && Enabled(g, s, Finish(a))
    ensures Holds(g, AfterFinish(s, a)) && Grows(s, AfterFinish(s, a))
  {
    hide Setting.Contains, Setting.FoundAt, Setting.Truthful, Setting.OwnFlags, CallsHold, ClaimsHold, EventsHold;
    var t := AfterFinish(s, a);
    CallsBefore(g, s, a);
    CallStays(g, s, t, a, s.calls[a]);
    OthersStay(g, s, t, a);
    ClaimsBefore(g, s, a);
    ClaimsStay(g, s, t, a);
    FinishedAccounted(s, a);
    EventsStay(g, s, t);
  }

  lemma ClaimsBefore(g: Setting, s: State, a: nat)
    requires ClaimsHold(g, s) && a in s.calls && s.calls[a].done == |s.calls[a].hits|
    ensures forall f :: f in s.claims && s.claims[f].call == a ==> FollowedUp(AfterFinish(s, a), s.claims[f])
  {
    hide Setting.Contains;
    forall f | f in s.claims && s.claims[f].call == a
      ensures FollowedUp(AfterFinish(s, a), s.claims[f])
    {
      assert FollowedUp(s, s.claims[f]);
    }
  }

  lemma FinishedAccounted(s: State, a: nat)
    requires a in s.calls
    ensures forall loc: Location :: Accounted(s, loc) ==> Accounted(AfterFinish(s, a), loc)
  {
    var t := AfterFinish(s, a);
    forall loc: Location | Accounted(s, loc)
      ensures Accounted(t, loc)
    {
      if loc !in t.handled {
        var b :| b in s.calls && loc in s.calls[b].hits;
        assert b != a;
        assert b in t.calls;
      }
    }
  }

  lemma ReceiveKeeps(g: Setting, s: State)
    requires Holds(g, s) && Enabled(g, s, Receive)
    ensures Holds(g, AfterReceive(s)) && Grows(s, AfterReceive(s))
  {
    hide Setting.Contains, Setting.FoundAt, Setting.Truthful, Setting.OwnFlags, CallsHold, EventsHold;
    var t := AfterReceive(s);
    NextIsFree(g, s);
    OthersStay(g, s, t, s.next);
    ClaimsStay(g, s, t, s.next);
    ReceivedEvents(g, s);
  }

  lemma ReceivedEvents(g: Setting, s: State)
    requires EventsHold(g, s) && s.queue != []
    ensures EventsHold(g, AfterReceive(s))
  {
    hide Setting.Contains, Setting.FoundAt, Setting.Truthful;
    var t := AfterReceive(s);
    assert s.queue[0] in s.sent;
    forall x | x in t.sent
      ensures x in t.queue || x.block in t.places
    {
      if x in s.queue {
        var i :| 0 <= i < |s.queue| && s.queue[i] == x;
        if i > 0 {
          assert t.queue[i - 1] == x;
        }
      }
    }
    forall i | 0 <= i < |t.queue|
      ensures t.queue[i] in t.sent
    {
      assert t.queue[i] == s.queue[i + 1];
    }
    forall loc: Location | Accounted(s, loc)
      ensures Accounted(t, loc)
    {
    }
  }

  /** Whatever step is taken, the invariant is kept and nothing is taken back. */
  lemma StepKeeps(g: Setting, s: State, step: Step)
    requires Holds(g, s) && Enabled(g, s, step)
    ensures Holds(g, After(g, s, step)) && Grows(s, After(g, s, step))
  {
    hide Holds, Grows, AfterPass, AfterSend, AfterFinish, AfterReceive;
    match step
    case Begin(place, hits) => BeginKeeps(g, s, place, hits);
    case Skip(hits) => SkipKeeps(g, s, hits);
    case Pass(a) => PassKeeps(g, s, a);
    case Send(a) => SendKeeps(g, s, a);
    case Finish(a) => FinishKeeps(g, s, a);
    case Receive => ReceiveKeeps(g, s);
  }

  // Whole runs.

  ghost predicate ByStep(g: Setting, s: State, step: Step, t: State) {
    Enabled(g, s, step) && After(g, s, step) == t
  }

  ghost predicate Leads(g: Setting, s: State, t: State) {
    exists step :: ByStep(g, s, step, t)
  }

  /** A run: any sequence of steps that are enabled one after the other. */
  ghost predicate Run(g: Setting, run: seq<State>) {
    && |run| > 0 && Initial(g, run[0])
    && forall i :: 0 < i < |run| ==> Leads(g, run[i - 1], run[i])
  }

  lemma {:induction false} RunHolds(g: Setting, run: seq<State>, i: nat)
    requires Run(g, run) && i < |run|
    ensures Holds(g, run[i])
  {
    hide Enabled, After, Holds, Initial;
    if i == 0 {
      InitiallyHolds(g, run[0]);
    } else {
      RunHolds(g, run, i - 1);
      var step :| ByStep(g, run[i - 1], step, run[i]);
      StepKeeps(g, run[i - 1], step);
    }
  }

  /** Flags, claims, results, sent events and the places learned are never taken back. */
  lemma {:induction false} RunGrows(g: Setting, run: seq<State>, i: nat, j: nat)
    requires Run(g, run) && i <= j < |run|
    ensures Grows(run[i], run[j])
    decreases j - i
  {
    hide Enabled, After, Holds, Initial;
    if i == j {
    } else {
      RunGrows(g, run, i, j - 1);
      RunHolds(g, run, j - 1);
      var step :| ByStep(g, run[j - 1], step, run[j]);
      StepKeeps(g, run[j - 1], step);
    }
  }

  // What the invariant means.

  /**
    A call that is over has reported a new block exactly when it has claimed a flag, the flag of one of the blocks it
    hits; and a flag, once claimed, belongs to the same call for ever.
   */
  lemma ReportedOnce(g: Setting, s: State, t: State, a: nat)
    requires Holds(g, s) && Holds(g, t) && Grows(s, t) && a in s.finished
    ensures s.finished[a].isNew <==> exists f :: f in s.claims && s.claims[f].call == a
    ensures forall f :: f in t.claims && t.claims[f].call == a ==>
      t.claims[f].loc in s.finished[a].hits && t.claims[f].loc.reported == f
    ensures forall f :: f in s.claims ==> f in t.claims && t.claims[f] == s.claims[f]
  {
    hide Setting.Contains, Setting.FoundAt, EventsHold, FollowedUp;
  }

  /** A call whose blocks have all been reported before it starts reports nothing new. */
  lemma NothingNew(g: Setting, s: State, t: State, a: nat)
    requires Holds(g, s) && Holds(g, t) && Grows(s, t) && a >= s.next && a in t.finished
    requires forall k :: 0 <= k < |t.finished[a].hits| ==> IsReported(s, t.finished[a].hits[k])
    ensures !t.finished[a].isNew
  {
    hide Setting.Contains, Setting.FoundAt, EventsHold, FollowedUp, Grows;
    assert CallHolds(g, t, a, t.finished[a]);
    forall f | f in t.claims && t.claims[f].call == a
      ensures f in s.claims && s.claims[f].call == a
    {
      ClaimedBefore(g, s, t, a, f);
    }
  }

  lemma ClaimedBefore(g: Setting, s: State, t: State, a: nat, f: nat)
    requires Holds(g, s) && Holds(g, t) && Grows(s, t) && a in t.finished && f in t.claims && t.claims[f].call == a
    requires forall k :: 0 <= k < |t.finished[a].hits| ==> IsReported(s, t.finished[a].hits[k])
    ensures f in s.claims && s.claims[f].call == a
  {
    hide Setting.Contains, Setting.FoundAt, EventsHold, FollowedUp;
    assert CallHolds(g, t, a, t.finished[a]);
  }

  /** Nothing is under way: no call is running and the channel is empty. */
  predicate Quiet(s: State) {
    s.calls == map[] && s.queue == []
  }

  /** Once the channel is drained, every block that has been reported has been located. */
  lemma QuietLocated(g: Setting, s: State, loc: Location)
    requires Holds(g, s) && Quiet(s) && g.Contains(loc) && IsReported(s, loc)
    ensures loc.block in s.places
  {
    hide CallsHold;
    var claim := s.claims[loc.reported];
    assert claim.loc == loc;
    assert FollowedUp(s, claim);
  }

  /**
    Once the channel is drained, the blocks located are those known before and those that some call hit or was spared
    because of the shortcut. So the shortcut does not change which blocks are located.
   */
  lemma LocatedAreHandled(g: Setting, s: State, b: Block)
    requires Holds(g, s) && Quiet(s)
    ensures b in s.places <==> b in g.known || exists loc :: loc in s.handled && loc.block == b
  {
    hide Setting.Contains, Setting.FoundAt, Setting.Truthful, ClaimsHold, CallsHold;
    if b in s.places && b !in g.known {
      assert Event(b, s.places[b]) in s.sent;
      var loc: Location :| loc.block == b && Accounted(s, loc);
    }
    if exists loc :: loc in s.handled && loc.block == b {
      var loc :| loc in s.handled && loc.block == b;
      QuietLocated(g, s, loc);
    }
  }

  /** The places learned are true: a window there has the checksums of the block. */
  lemma PlacesAreTruthful(g: Setting, s: State, b: Block)
    requires Holds(g, s) && b in s.places && b !in g.known
    ensures g.Truthful(Event(b, s.places[b]))
  {
    hide Setting.Contains, Setting.FoundAt, Setting.Truthful, ClaimsHold, CallsHold;
  }

  /** All of this holds in every run, at all times. */
  lemma InEveryRun(g: Setting, run: seq<State>, i: nat)
    requires Run(g, run) && i < |run|
    ensures forall j, a :: i <= j < |run| && a in run[i].finished ==>
      && (run[i].finished[a].isNew <==> exists f :: f in run[i].claims && run[i].claims[f].call == a)
      && forall f :: f in run[j].claims && run[j].claims[f].call == a ==> run[j].claims[f].loc in run[i].finished[a].hits
    ensures Quiet(run[i]) ==> forall b ::
      b in run[i].places <==> b in g.known || exists loc :: loc in run[i].handled && loc.block == b
    ensures forall b :: b in run[i].places && b !in g.known ==> g.Truthful(Event(b, run[i].places[b]))
  {
    hide Run, Holds, Grows, Setting.Truthful;
    RunHolds(g, run, i);
    forall j, a | i <= j < |run| && a in run[i].finished
      ensures run[i].finished[a].isNew <==> exists f :: f in run[i].claims && run[i].claims[f].call == a
      ensures forall f :: f in run[j].claims && run[j].claims[f].call == a ==>
        run[j].claims[f].loc in run[i].finished[a].hits
    {
      RunHolds(g, run, j);
      RunGrows(g, run, i, j);
      ReportedOnce(g, run[i], run[j], a);
    }
    if Quiet(run[i]) {
      forall b
        ensures b in run[i].places <==> b in g.known || exists loc :: loc in run[i].handled && loc.block == b
      {
        LocatedAreHandled(g, run[i], b);
      }
    }
    forall b | b in run[i].places && b !in g.known
      ensures g.Truthful(Event(b, run[i].places[b]))
    {
      PlacesAreTruthful(g, run[i], b);
    }
  }
}
