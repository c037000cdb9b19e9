/** The ring with a sleeping reader: a wait flag and an eventfd around
    `BufferQueue`. One writer thread and one reader thread take turns, one memory
    access at a time, in any order; the fences of the source make the accesses
    sequentially consistent. */
module BufferedFdQueue {
  import opened BufferQueue

  /** Number of Backoff::next calls after which it answers false */
  const BACKOFF_LIMIT: nat := 500

  /** Where the writer stands inside put, put_noflush or flush_writer. `publish`
      tells put from put_noflush. */
  datatype WriterPc =
    | WIdle
    | WTestFull(v: Value, publish: bool)
    | WUpdate(v: Value, publish: bool)
    | WStore(v: Value, publish: bool)
    | WPublish
    | WTestFlag
    | WNotify
    | WAborted

  datatype ReaderCall = Get | WaitReader

  /** Where the reader stands inside get, wait_reader, get_unsafe,
      get_unsafe_flush or flush_reader */
  datatype ReaderPc =
    | RIdle
    | RTestEmpty
    | RSpin(call: ReaderCall, cnt: nat)
    | RSetFlag(call: ReaderCall)
    | RRecheck(call: ReaderCall)
    | RBlocked(call: ReaderCall)
    | RClearFlag(call: ReaderCall)
    | RTake(publish: bool)
    | RPublish

  datatype State = State(ring: Ring, waitFlag: bool, eventFd: nat, wpc: WriterPc, rpc: ReaderPc)

  /** What an observer of the memory sees of one step */
  datatype Event =
    | Quiet
    | Put(v: Value)
    | Got(v: Value)
    | WriterPublished
    | ReaderPublished
    | WriterUpdated
    | ReaderUpdated

  predicate Init(s: State) {
    InitRing(s.ring) && !s.waitFlag && s.eventFd == 0 && s.wpc == WIdle && s.rpc == RIdle
  }

  // ---------- Steps of the writer

  predicate WriterNext(s: State, s': State, e: Event)
    requires |s.ring.slots| == QUEUE_BUF_SIZE
  {
    match s.wpc
    case WIdle =>
      && e == Quiet
      && (s'.wpc.WTestFull? || s'.wpc.WPublish?)
      && s' == s.(wpc := s'.wpc)
    case WTestFull(v, publish) =>
      && e == Quiet
      && s' == s.(wpc := if WriterEmpty(s.ring) then WUpdate(v, publish) else WStore(v, publish))
    case WUpdate(v, publish) =>
      var ring := UpdateWriter(s.ring);
      && e == WriterUpdated
      && s' == s.(ring := ring, wpc := if WriterReady(ring) == 0 then WAborted else WStore(v, publish))
    case WStore(v, publish) =>
      && e == Put(v)
      && s' == s.(ring := PutUnsafe(s.ring, v), wpc := if publish then WPublish else WIdle)
    case WPublish =>
      && e == WriterPublished
      && s' == s.(ring := FlushWriter(s.ring), wpc := WTestFlag)
    case WTestFlag =>
      && e == Quiet
      && s' == s.(wpc := if s.waitFlag then WNotify else WIdle)
    case WNotify =>
      && e == Quiet
      && s' == s.(eventFd := s.eventFd + 1, wpc := WIdle)
    case WAborted => false
  }

  // ---------- Steps of the reader

  /** The call has found something to read. */
  function Found(call: ReaderCall): ReaderPc {
    if call == Get then RTake(true) else RIdle
  }

  predicate ReaderNext(s: State, s': State, e: Event)
    requires |s.ring.slots| == QUEUE_BUF_SIZE
  {
    match s.rpc
    case RIdle =>
      && e == Quiet
      && s' == s.(rpc := s'.rpc)
      && (s'.rpc in {RTestEmpty, RSpin(WaitReader, 0), RPublish} || (s'.rpc.RTake? && !ReaderEmpty(s.ring)))
    case RTestEmpty =>
      && e == Quiet
      && s' == s.(rpc := if ReaderEmpty(s.ring) then RSpin(Get, 0) else RTake(true))
    case RSpin(call, cnt) =>
      if cnt + 1 < BACKOFF_LIMIT then
        var ring := UpdateReader(s.ring);
        && e == ReaderUpdated
        && s' == s.(ring := ring, rpc := if ReaderReady(ring) != 0 then Found(call) else RSpin(call, cnt + 1))
      else
        e == Quiet && s' == s.(rpc := RSetFlag(call))
    case RSetFlag(call) =>
      && e == Quiet
      && s' == s.(waitFlag := true, rpc := RRecheck(call))
    case RRecheck(call) =>
      var ring := UpdateReader(s.ring);
      && e == ReaderUpdated
      && s' == s.(ring := ring, rpc := if ReaderReady(ring) != 0 then RClearFlag(call) else RBlocked(call))
    case RBlocked(call) =>
      && s.eventFd > 0
      && e == Quiet
      && s' == s.(eventFd := 0, rpc := RRecheck(call))
    case RClearFlag(call) =>
      && e == Quiet
      && s' == s.(waitFlag := false, rpc := Found(call))
    case RTake(publish) =>
      var (v, ring) := GetUnsafe(s.ring);
      && e == Got(v)
      && s' == s.(ring := ring, rpc := if publish then RPublish else RIdle)
    case RPublish =>
      && e == ReaderPublished
      && s' == s.(ring := FlushReader(s.ring), rpc := RIdle)
  }

  /** An abort of the writer ends the whole process. */
  predicate Next(s: State, s': State, e: Event)
    requires |s.ring.slots| == QUEUE_BUF_SIZE
  {
    s.wpc != WAborted && (WriterNext(s, s', e) || ReaderNext(s, s', e))
  }

  /** `events` leads from an initial state to `s`. */
  ghost predicate Reaches(events: seq<Event>, s: State)
    decreases |events|
  {
    if events == [] then
      Init(s)
    else
      exists p: State ::
        Reaches(events[..|events| - 1], p) && |p.ring.slots| == QUEUE_BUF_SIZE && Next(p, s, events[|events| - 1])
  }

  // ---------- What the observer concludes

  function Advance(c: Counters, e: Event): Counters {
    match e
    case Quiet => c
    case Put(v) => c.(puts := c.puts + [v])
    case Got(_) => c.(localRead := c.localRead + 1)
    case WriterPublished => c.(publishedWrite := |c.puts|)
    case ReaderPublished => c.(publishedRead := c.localRead)
    case WriterUpdated => c.(seenRead := c.publishedRead)
    case ReaderUpdated => c.(seenWrite := c.publishedWrite)
  }

  function Count(events: seq<Event>): Counters {
    if events == [] then ZERO_COUNTERS
    else Advance(Count(events[..|events| - 1]), events[|events| - 1])
  }

  /** The values put, in order */
  function Puts(events: seq<Event>): seq<Value> {
    Count(events).puts
  }

  /** The values got, in order */
  function Gets(events: seq<Event>): seq<Value> {
    if events == [] then []
    else Gets(events[..|events| - 1]) + var e := events[|events| - 1]; if e.Got? then [e.v] else []
  }

  // ---------- The invariant

  ghost predicate PcInv(s: State, c: Counters) {
    && (s.wpc.WStore? ==> |c.puts| < c.seenRead + QUEUE_BUF_SIZE)
    && (s.wpc.WAborted? ==> c.seenRead == c.publishedRead && |c.puts| == c.seenRead + QUEUE_BUF_SIZE)
    && (s.rpc.RTake? || s.rpc.RClearFlag? ==> c.localRead < c.seenWrite)
    && (s.waitFlag <==> s.rpc.RRecheck? || s.rpc.RBlocked? || s.rpc.RClearFlag?)
    && (s.rpc.RBlocked? ==> c.localRead == c.seenWrite)
    && (s.rpc.RBlocked? ==>
          s.eventFd > 0 || c.publishedWrite == c.localRead || s.wpc.WTestFlag? || s.wpc.WNotify?)
  }

  ghost predicate Inv(s: State, c: Counters) {
    RingInv(s.ring, c) && PcInv(s, c)
  }

  lemma InvInit(s: State)
    requires Init(s)
    ensures Inv(s, ZERO_COUNTERS)
  {
  }

  lemma WriterKeepsInv(s: State, s': State, e: Event, c: Counters)
    requires Inv(s, c) && WriterNext(s, s', e)
    ensures Inv(s', Advance(c, e))
  {
    WriterReadiness(s.ring, c);
    FlushesKeepInv(s.ring, c);
    match s.wpc
    case WUpdate(_, _) => WriterReadiness(UpdateWriter(s.ring), Advance(c, e));
    case WStore(v, _) => PutKeepsInv(s.ring, c, v);
    case _ =>
  }

  /** Reloading the write index in RSpin or RRecheck */
  lemma PollKeepsInv(s: State, s': State, e: Event, c: Counters)
    requires Inv(s, c) && ReaderNext(s, s', e) && (s.rpc.RSpin? || s.rpc.RRecheck?)
    ensures Inv(s', Advance(c, e))
  {
    if e == ReaderUpdated {
      var ring, c' := UpdateReader(s.ring), c.(seenWrite := c.publishedWrite);
      FlushesKeepInv(s.ring, c);
      ReaderReadiness(ring, c');
      assert s'.ring == ring && RingInv(s'.ring, c');
    }
  }

  lemma TakeKeepsInv(s: State, s': State, e: Event, c: Counters)
    requires Inv(s, c) && ReaderNext(s, s', e) && s.rpc.RTake?
    ensures Inv(s', Advance(c, e))
    ensures e.Got? && e.v == c.puts[c.localRead]
  {
    GetKeepsInv(s.ring, c);
  }

  lemma ReaderKeepsInv(s: State, s': State, e: Event, c: Counters)
    requires Inv(s, c) && ReaderNext(s, s', e) && s.wpc != WAborted
    ensures Inv(s', Advance(c, e))
    ensures e.Got? ==> c.localRead < |c.puts| && e.v == c.puts[c.localRead]
  {
    if s.rpc.RSpin? || s.rpc.RRecheck? {
      PollKeepsInv(s, s', e, c);
    } else if s.rpc.RTake? {
      TakeKeepsInv(s, s', e, c);
    } else {
      ReaderReadiness(s.ring, c);
      assert s'.ring == if s.rpc.RPublish? then FlushReader(s.ring) else s.ring;
      FlushesKeepInv(s.ring, c);
    }
  }

  lemma NextKeepsInv(s: State, s': State, e: Event, c: Counters)
    requires Inv(s, c) && Next(s, s', e)
    ensures Inv(s', Advance(c, e))
    ensures e.Got? ==> c.localRead < |c.puts| && e.v == c.puts[c.localRead]
  {
    if WriterNext(s, s', e) {
      WriterKeepsInv(s, s', e, c);
    } else {
      ReaderKeepsInv(s, s', e, c);
    }
  }

  ghost predicate History(c: Counters, gets: seq<Value>) {
    c.localRead <= |c.puts| && gets == c.puts[..c.localRead]
  }

  lemma {:induction false} InvHolds(events: seq<Event>, s: State)
    requires Reaches(events, s)
    ensures Inv(s, Count(events))
    ensures History(Count(events), Gets(events))
    decreases |events|
  {
    hide Inv, Next, Init;
    if events == [] {
      InvInit(s);
    } else {
      var before, e := events[..|events| - 1], events[|events| - 1];
      var p: State :| Reaches(before, p) && |p.ring.slots| == QUEUE_BUF_SIZE && Next(p, s, e);
      InvHolds(before, p);
      NextKeepsInv(p, s, e, Count(before));
    }
  }

  // ---------- Main results

  /** First in, first out, whatever the interleaving and however often the counters wrap:
      what was got is a prefix of what was put, and every later value is still in its slot. */
  lemma Fifo(events: seq<Event>, s: State)
    requires Reaches(events, s)
    ensures Gets(events) <= Puts(events)
    ensures |Puts(events)| <= |Gets(events)| + QUEUE_BUF_SIZE
    ensures |s.ring.slots| == QUEUE_BUF_SIZE
    ensures forall i :: |Gets(events)| <= i < |Puts(events)| ==> s.ring.slots[i % QUEUE_BUF_SIZE] == Puts(events)[i]
  {
    InvHolds(events, s);
  }

  /** The writer never stores into the slot the reader is reading. */
  lemma NoConcurrentSlotAccess(events: seq<Event>, s: State)
    requires Reaches(events, s) && s.wpc.WStore? && s.rpc.RTake?
    ensures GetSlot(s.ring) != PutSlot(s.ring)
  {
    InvHolds(events, s);
    NoSlotRace(s.ring, Count(events));
  }

  /** Reloading the read index lets a put go on exactly when the ring has a published free slot. */
  lemma PutAbortsIffFull(events: seq<Event>, s: State, s': State)
    requires Reaches(events, s) && s.wpc.WUpdate? && WriterNext(s, s', WriterUpdated)
    ensures s'.wpc.WAborted? <==> |Puts(events)| == Count(events).publishedRead + QUEUE_BUF_SIZE
  {
    InvHolds(events, s);
    FlushesKeepInv(s.ring, Count(events));
    WriterReadiness(UpdateWriter(s.ring), Advance(Count(events), WriterUpdated));
  }

  /** A run in which the only call that the reader starts is get */
  ghost predicate ReachesByGets(events: seq<Event>, s: State)
    decreases |events|
  {
    if events == [] then
      Init(s)
    else
      exists p: State ::
        && ReachesByGets(events[..|events| - 1], p)
        && |p.ring.slots| == QUEUE_BUF_SIZE && Next(p, s, events[|events| - 1])
        && (p.rpc == RIdle ==> s.rpc in {RIdle, RTestEmpty})
  }

  /** Such a reader has published all its reads, but for the last one between reading and publishing. */
  predicate Published(rpc: ReaderPc, c: Counters) {
    rpc != RTake(false) && c.localRead == c.publishedRead + if rpc == RPublish then 1 else 0
  }

  lemma StepKeepsPublished(p: State, s: State, e: Event, c: Counters)
    requires |p.ring.slots| == QUEUE_BUF_SIZE && Next(p, s, e) && Published(p.rpc, c)
    requires p.rpc == RIdle ==> s.rpc in {RIdle, RTestEmpty}
    ensures Published(s.rpc, Advance(c, e))
  {
    hide UpdateReader, UpdateWriter, GetUnsafe, PutUnsafe, FlushReader, FlushWriter;
    hide ReaderEmpty, ReaderReady, WriterEmpty, WriterReady;
    if WriterNext(p, s, e) {
      assert s.rpc == p.rpc;
    }
  }

  lemma {:induction false} GetsArePublished(events: seq<Event>, s: State)
    requires ReachesByGets(events, s)
    ensures Reaches(events, s) && Published(s.rpc, Count(events))
    decreases |events|
  {
    hide Next, Published, Init;
    if events == [] {
      NothingToPublish(s);
    } else {
      var before, e := events[..|events| - 1], events[|events| - 1];
      var p: State :|
        && ReachesByGets(before, p) && |p.ring.slots| == QUEUE_BUF_SIZE && Next(p, s, e)
        && (p.rpc == RIdle ==> s.rpc in {RIdle, RTestEmpty});
      GetsArePublished(before, p);
      StepKeepsPublished(p, s, e, Count(before));
    }
  }

  lemma NothingToPublish(s: State)
    requires Init(s)
    ensures Published(s.rpc, ZERO_COUNTERS)
  {
  }

  /** With such a reader a put is never refused while the unread values and one more leave a slot free. */
  lemma PutHasRoom(events: seq<Event>, s: State)
    requires ReachesByGets(events, s) && |Puts(events)| - |Gets(events)| + 1 < QUEUE_BUF_SIZE
    ensures s.wpc != WAborted
  {
    GetsArePublished(events, s);
    InvHolds(events, s);
  }

  /** A reader asleep on a zero eventfd has read everything published, unless the
      writer is still between its publication and its notification. */
  lemma NoLostWakeup(events: seq<Event>, s: State)
    requires Reaches(events, s) && s.rpc.RBlocked? && s.eventFd == 0
    ensures |Gets(events)| == Count(events).publishedWrite || s.wpc.WTestFlag? || s.wpc.WNotify?
  {
    InvHolds(events, s);
  }

  /** In that window the writer's own next steps, taken in any interleaving, end
      with the reader runnable. */
  lemma NotificationArrives(events: seq<Event>, s: State, s': State, e: Event)
    requires Reaches(events, s) && s.rpc.RBlocked? && s.eventFd == 0
    requires |Gets(events)| < Count(events).publishedWrite
    requires Next(s, s', e)
    ensures s'.rpc == s.rpc
    ensures s.wpc.WTestFlag? ==> s'.wpc.WNotify?
    ensures s.wpc.WNotify? ==> s'.eventFd > 0
  {
    hide Reaches, Count, Gets, RingInv, UpdateReader, UpdateWriter, GetUnsafe, PutUnsafe, FlushReader, FlushWriter;
    hide ReaderEmpty, ReaderReady, WriterEmpty, WriterReady;
    InvHolds(events, s);
  }

  /** An upper bound on the steps the reader still takes in its current call */
  function Rank(rpc: ReaderPc): nat {
    match rpc
    case RIdle => 0
    case RPublish => 1
    case RTake(_) => 2
    case RClearFlag(_) => 3
    case RRecheck(_) => 4
    case RBlocked(_) => 5
    case RSetFlag(_) => 6
    case RSpin(_, cnt) => 7 + if cnt < BACKOFF_LIMIT then BACKOFF_LIMIT - cnt else 0
    case RTestEmpty => 8 + BACKOFF_LIMIT
  }

  lemma ReaderAdvances(s: State, s': State, e: Event, c: Counters)
    requires Inv(s, c) && s.rpc != RIdle && ReaderNext(s, s', e) && c.localRead < c.publishedWrite
    ensures Rank(s'.rpc) < Rank(s.rpc)
  {
    if s.rpc.RSpin? || s.rpc.RRecheck? {
      FlushesKeepInv(s.ring, c);
      ReaderReadiness(UpdateReader(s.ring), c.(seenWrite := c.publishedWrite));
    }
  }

  /** While something unread is published, every step of a running call of the
      reader brings its end nearer, and no step of the writer moves it away. */
  lemma CallTerminates(events: seq<Event>, s: State, s': State, e: Event)
    requires Reaches(events, s) && s.rpc != RIdle && Next(s, s', e)
    requires |Gets(events)| < Count(events).publishedWrite
    ensures ReaderNext(s, s', e) ==> Rank(s'.rpc) < Rank(s.rpc)
    ensures WriterNext(s, s', e) ==> s'.rpc == s.rpc
  {
    hide PcInv, Chain, Represents, UnreadIntact, Reaches, Count, Gets;
    hide UpdateReader, UpdateWriter, GetUnsafe, PutUnsafe, FlushReader, FlushWriter;
    hide ReaderEmpty, ReaderReady, WriterEmpty, WriterReady, Rank;
    InvHolds(events, s);
    if ReaderNext(s, s', e) {
      ReaderAdvances(s, s', e, Count(events));
    }
  }
}
