/** The ping-pong of the benchmark on two rings with sleeping readers: one atomic memory access of one of the two
    threads at a time, and programs that know only the values which come out of the rings. Every run follows a run over
    abstract queues, no put is refused, no check fails, nobody sleeps forever, and every run ends with all rounds
    played. */
module BenchmarkOnRings {
  import opened BufferQueue
  import Q = BufferedFdQueue
  import B = QueueBenchmark

  datatype Side = Client | Server

  function Other(side: Side): Side {
    if side == Client then Server else Client
  }

  // ---------- The programs of the two threads

  /** The variables of both threads; the queues are not among them. */
  datatype Program = Program(
    n: nat, queries: nat,
    clientPc: B.ClientPc, clientConn: seq<nat>, clientActive: int,
    serverPc: B.ServerPc, serverConn: seq<nat>, serverActive: int)

  /** What a thread does next with a queue when it is not inside a call */
  datatype Call = Put(value: Value) | Get | NoCall

  function NextCall(p: Program, side: Side): Call {
    if side == Client then
      match p.clientPc
      case Sending(i) => if i < p.n then Put(i * B.FIRST) else NoCall
      case Getting => if p.clientActive > 0 then Get else NoCall
      case Holding(value) =>
        if B.Expected(value, p.clientConn) && B.No(value) + 1 < p.queries then Put(value + 1) else NoCall
      case Failed => NoCall
    else
      match p.serverPc
      case Waiting => if p.serverActive > 0 then Get else NoCall
      case Serving(value) => if B.Expected(value, p.serverConn) then Put(value) else NoCall
      case Crashed => NoCall
  }

  /** The thread has left its loop, or a check has failed. */
  predicate HasStopped(p: Program, side: Side) {
    if side == Client then p.clientPc == B.Failed || (p.clientPc == B.Getting && p.clientActive <= 0)
    else p.serverPc == B.Crashed || (p.serverPc == B.Waiting && p.serverActive <= 0)
  }

  /** The variables once the value of the next put is stored */
  function AfterPut(p: Program, side: Side): Program
    requires NextCall(p, side).Put?
  {
    if side == Client then
      match p.clientPc
      case Sending(i) => p.(clientPc := B.Sending(i + 1))
      case Holding(value) => p.(clientPc := B.Getting, clientConn := B.Received(p.clientConn, value))
    else
      var value := p.serverPc.value;
      p.(serverPc := B.Waiting, serverConn := B.Received(p.serverConn, value),
         serverActive := if B.No(value) + 1 >= p.queries then p.serverActive - 1 else p.serverActive)
  }

  /** The variables once get has read `value` from the ring */
  function AfterGet(p: Program, side: Side, value: Value): Program {
    if side == Client then p.(clientPc := B.Holding(value)) else p.(serverPc := B.Serving(value))
  }

  /** A step without a queue: the end of the first loop, the last round of a connection, or a failed check */
  function AfterThought(p: Program, side: Side): Program
    requires NextCall(p, side) == NoCall && !HasStopped(p, side)
  {
    if side == Client then
      match p.clientPc
      case Sending(_) => p.(clientPc := B.Getting)
      case Holding(value) =>
        if !B.Expected(value, p.clientConn) then p.(clientPc := B.Failed)
        else p.(clientPc := B.Getting, clientConn := B.Received(p.clientConn, value),
                clientActive := p.clientActive - 1)
    else
      p.(serverPc := B.Crashed)
  }

  // ---------- States and steps

  /** A ring, and what its memory has seen so far */
  datatype Link = Link(queue: Q.State, events: seq<Q.Event>)

  /** The client thread writes to `toServer` and reads from `toClient`, the server thread the other way round. */
  datatype State = State(program: Program, toServer: Link, toClient: Link)
  {
    /** The ring that a side writes */
    function Out(side: Side): Link {
      if side == Client then toServer else toClient
    }

    /** The ring that it reads */
    function In(side: Side): Link {
      Out(Other(side))
    }

    function Wpc(side: Side): Q.WriterPc {
      Out(side).queue.wpc
    }

    function Rpc(side: Side): Q.ReaderPc {
      In(side).queue.rpc
    }
  }

  function With(side: Side, program: Program, output: Link, input: Link): State {
    if side == Client then State(program, output, input) else State(program, input, output)
  }

  /** One access of the writer or of the reader of a ring */
  predicate LinkStep(l: Link, l': Link, e: Q.Event, writer: bool) {
    && |l.queue.ring.slots| == QUEUE_BUF_SIZE
    && l'.events == l.events + [e]
    && (if writer then Q.WriterNext(l.queue, l'.queue, e) else Q.ReaderNext(l.queue, l'.queue, e))
  }

  function StartPut(l: Link, value: Value): Link {
    Link(l.queue.(wpc := Q.WTestFull(value, true)), l.events + [Q.Quiet])
  }

  function StartGet(l: Link): Link {
    Link(l.queue.(rpc := Q.RTestEmpty), l.events + [Q.Quiet])
  }

  /** Inside put, the program goes on when its value is stored. */
  predicate PutStep(s: State, s': State, side: Side, e: Q.Event) {
    && LinkStep(s.Out(side), s'.Out(side), e, true) && s'.In(side) == s.In(side)
    && s'.program == if e.Put? && NextCall(s.program, side).Put? then AfterPut(s.program, side) else s.program
  }

  /** Inside get, it goes on with the value that has been read from the ring. */
  predicate GetStep(s: State, s': State, side: Side, e: Q.Event) {
    && LinkStep(s.In(side), s'.In(side), e, false) && s'.Out(side) == s.Out(side)
    && s'.program == if e.Got? then AfterGet(s.program, side, e.v) else s.program
  }

  /** Between two calls */
  predicate ProgramStep(s: State, s': State, side: Side) {
    match NextCall(s.program, side)
    case Put(value) => s' == With(side, s.program, StartPut(s.Out(side), value), s.In(side))
    case Get => s' == With(side, s.program, s.Out(side), StartGet(s.In(side)))
    case NoCall => !HasStopped(s.program, side) && s' == s.(program := AfterThought(s.program, side))
  }

  ghost predicate SideNext(s: State, s': State, side: Side) {
    if s.Wpc(side) != Q.WIdle then exists e: Q.Event :: PutStep(s, s', side, e)
    else if s.Rpc(side) != Q.RIdle then exists e: Q.Event :: GetStep(s, s', side, e)
    else ProgramStep(s, s', side)
  }

  predicate Aborted(s: State) {
    s.toServer.queue.wpc == Q.WAborted || s.toClient.queue.wpc == Q.WAborted
  }

  ghost predicate Next(s: State, s': State) {
    !Aborted(s) && exists side: Side :: SideNext(s, s', side)
  }

  predicate Init(s: State) {
    && B.Init(BenchOf(s.program, [], [])) && B.Settings(BenchOf(s.program, [], []))
    && Q.Init(s.toServer.queue) && Q.Init(s.toClient.queue)
    && s.toServer.events == s.toClient.events == []
  }

  ghost predicate Run(states: seq<State>)
    decreases |states|
  {
    && |states| > 0
    && var last := |states| - 1;
       if last == 0 then Init(states[0])
       else Run(states[..last]) && Next(states[last - 1], states[last])
  }

  // ---------- The abstract benchmark that a state stands for

  function BenchOf(p: Program, toServer: seq<Value>, toClient: seq<Value>): B.State {
    B.State(p.n, p.queries, toClient, toServer, p.clientPc, p.clientConn, p.clientActive,
            p.serverPc, p.serverConn, p.serverActive)
  }

  /** What has been put into a ring and not yet got */
  function Unread(l: Link): seq<Value> {
    if |Q.Gets(l.events)| <= |Q.Puts(l.events)| then Q.Puts(l.events)[|Q.Gets(l.events)|..] else []
  }

  /** The rings as queues */
  function Abstract(s: State): B.State {
    BenchOf(s.program, Unread(s.toServer), Unread(s.toClient))
  }

  function BenchWith(side: Side, p: Program, output: seq<Value>, input: seq<Value>): B.State {
    if side == Client then BenchOf(p, output, input) else BenchOf(p, input, output)
  }

  predicate BenchStep(b: B.State, b': B.State, side: Side) {
    if side == Client then B.ClientStep(b, b') else B.ServerStep(b, b')
  }

  lemma AbstractWith(s: State, side: Side)
    ensures Abstract(s) == BenchWith(side, s.program, Unread(s.Out(side)), Unread(s.In(side)))
  {
  }

  /** Storing the value of the next put is a step of the abstract program. */
  lemma PutIsStep(p: Program, side: Side, output: seq<Value>, input: seq<Value>)
    requires NextCall(p, side).Put? && B.HasRoom(output)
    ensures BenchStep(BenchWith(side, p, output, input),
                      BenchWith(side, AfterPut(p, side), output + [NextCall(p, side).value], input), side)
  {
    hide B.HasRoom, B.Received, B.No;
  }

  /** So is going on with the front value of the queue, if it is the front value that has come out of the ring. */
  lemma GetIsStep(p: Program, side: Side, output: seq<Value>, input: seq<Value>)
    requires NextCall(p, side) == Get && input != []
    ensures BenchStep(BenchWith(side, p, output, input),
                      BenchWith(side, AfterGet(p, side, input[0]), output, input[1..]), side)
  {
  }

  lemma ThoughtIsStep(p: Program, side: Side, output: seq<Value>, input: seq<Value>)
    requires NextCall(p, side) == NoCall && !HasStopped(p, side)
    ensures BenchStep(BenchWith(side, p, output, input), BenchWith(side, AfterThought(p, side), output, input), side)
  {
    hide B.HasRoom, B.Received, B.No;
  }

  /** The other thread's next call stays what it is. */
  lemma OthersCall(p: Program, side: Side, value: Value)
    ensures NextCall(AfterGet(p, side, value), Other(side)) == NextCall(p, Other(side))
    ensures NextCall(p, side).Put? ==> NextCall(AfterPut(p, side), Other(side)) == NextCall(p, Other(side))
    ensures NextCall(p, side) == NoCall && !HasStopped(p, side) ==>
              NextCall(AfterThought(p, side), Other(side)) == NextCall(p, Other(side))
  {
    hide B.Received, B.No, B.Expected;
  }

  // ---------- A ring is a queue

  /** A put has published its value when it returns. */
  predicate PutsPublished(wpc: Q.WriterPc, c: Counters) {
    && (wpc.WTestFull? || wpc.WUpdate? || wpc.WStore? ==> wpc.publish)
    && c.publishedWrite + (if wpc.WPublish? then 1 else 0) == |c.puts|
  }

  ghost predicate LinkInv(l: Link) {
    && Q.ReachesByGets(l.events, l.queue)
    && PutsPublished(l.queue.wpc, Q.Count(l.events))
    && Q.Gets(l.events) <= Q.Puts(l.events)
  }

  lemma LinkInit(l: Link)
    requires Q.Init(l.queue) && l.events == []
    ensures LinkInv(l) && Unread(l) == []
  {
  }

  /** A queue after a step */
  function After(queue: seq<Value>, e: Q.Event): seq<Value> {
    match e
    case Put(v) => queue + [v]
    case Got(_) => if queue == [] then [] else queue[1..]
    case _ => queue
  }

  lemma CountsOn(events: seq<Q.Event>, e: Q.Event)
    ensures Q.Count(events + [e]) == Q.Advance(Q.Count(events), e)
    ensures Q.Gets(events + [e]) == Q.Gets(events) + if e.Got? then [e.v] else []
  {
    assert (events + [e])[..|events|] == events;
  }

  lemma ReachesOn(l: Link, l': Link, e: Q.Event)
    requires Q.ReachesByGets(l.events, l.queue) && |l.queue.ring.slots| == QUEUE_BUF_SIZE
    requires l'.events == l.events + [e] && Q.Next(l.queue, l'.queue, e)
    requires l.queue.rpc == Q.RIdle ==> l'.queue.rpc in {Q.RIdle, Q.RTestEmpty}
    ensures Q.ReachesByGets(l'.events, l'.queue)
    ensures Q.Gets(l'.events) <= Q.Puts(l'.events)
    ensures e.Got? ==> |Q.Gets(l.events)| < |Q.Puts(l.events)| && e.v == Q.Puts(l.events)[|Q.Gets(l.events)|]
  {
    hide Q.Next, Q.Inv, Q.Count, Q.Gets, Q.Published;
    assert l'.events[..|l'.events| - 1] == l.events;
    Q.GetsArePublished(l'.events, l'.queue);
    Q.Fifo(l'.events, l'.queue);
    Q.GetsArePublished(l.events, l.queue);
    Q.InvHolds(l.events, l.queue);
    Q.NextKeepsInv(l.queue, l'.queue, e, Q.Count(l.events));
  }

  /** A step does to the unread values what its event says, and what is got is the first of them. */
  lemma LinkOn(l: Link, l': Link, e: Q.Event)
    requires LinkInv(l) && |l.queue.ring.slots| == QUEUE_BUF_SIZE
    requires l'.events == l.events + [e] && Q.Next(l.queue, l'.queue, e)
    requires l.queue.rpc == Q.RIdle ==> l'.queue.rpc in {Q.RIdle, Q.RTestEmpty}
    requires PutsPublished(l'.queue.wpc, Q.Count(l'.events))
    ensures LinkInv(l') && Unread(l') == After(Unread(l), e)
    ensures e.Got? ==> Unread(l) != [] && e.v == Unread(l)[0]
  {
    hide Q.Next, Q.ReachesByGets, PutsPublished;
    ReachesOn(l, l', e);
    CountsOn(l.events, e);
    hide Q.Count, Q.Gets;
    var puts, gets := Q.Puts(l.events), |Q.Gets(l.events)|;
    if e.Put? {
      assert (puts + [e.v])[gets..] == puts[gets..] + [e.v];
    } else if e.Got? {
      assert puts[gets..][1..] == puts[gets + 1..];
    }
  }

  lemma PublishedOn(l: Link, l': Link, e: Q.Event, writer: bool)
    requires LinkStep(l, l', e, writer) && (writer ==> l.queue.wpc != Q.WIdle)
    requires PutsPublished(l.queue.wpc, Q.Count(l.events))
    ensures PutsPublished(l'.queue.wpc, Q.Count(l'.events))
  {
    CountsOn(l.events, e);
    hide Q.Count, Q.Gets, UpdateReader, UpdateWriter, GetUnsafe, PutUnsafe, FlushReader, FlushWriter;
    hide ReaderEmpty, ReaderReady, WriterEmpty, WriterReady;
  }

  lemma LinkKept(l: Link, l': Link, e: Q.Event, writer: bool)
    requires LinkInv(l) && LinkStep(l, l', e, writer) && l.queue.wpc != Q.WAborted
    requires if writer then l.queue.wpc != Q.WIdle else l.queue.rpc != Q.RIdle
    ensures LinkInv(l') && Unread(l') == After(Unread(l), e)
    ensures e.Got? ==> Unread(l) != [] && e.v == Unread(l)[0]
  {
    PublishedOn(l, l', e, writer);
    OtherSide(l, l', e, writer);
    hide Q.WriterNext, Q.ReaderNext, PutsPublished, LinkInv, After, Unread;
    LinkOn(l, l', e);
  }

  /** The other thread's program counter stays. */
  lemma OtherSide(l: Link, l': Link, e: Q.Event, writer: bool)
    requires LinkStep(l, l', e, writer)
    ensures if writer then l'.queue.rpc == l.queue.rpc else l'.queue.wpc == l.queue.wpc
    ensures if writer then !e.Got? else !e.Put?
  {
    hide UpdateReader, UpdateWriter, GetUnsafe, PutUnsafe, FlushReader, FlushWriter;
    hide ReaderEmpty, ReaderReady, WriterEmpty, WriterReady;
  }

  lemma LinkStarts(l: Link, value: Value)
    requires LinkInv(l)
    ensures l.queue.wpc == Q.WIdle ==>
              LinkInv(StartPut(l, value)) && Unread(StartPut(l, value)) == Unread(l)
    ensures l.queue.rpc == Q.RIdle && l.queue.wpc != Q.WAborted ==>
              LinkInv(StartGet(l)) && Unread(StartGet(l)) == Unread(l)
  {
    LinkIsWhole(l);
    CountsOn(l.events, Q.Quiet);
    hide Q.Count, Q.Gets, Q.ReachesByGets, Q.Reaches, Unread;
    if l.queue.wpc == Q.WIdle {
      LinkOn(l, StartPut(l, value), Q.Quiet);
    }
    if l.queue.rpc == Q.RIdle && l.queue.wpc != Q.WAborted {
      LinkOn(l, StartGet(l), Q.Quiet);
    }
  }

  /** While the unread values leave room, the writer of the ring does not abort. */
  lemma RingHasRoom(l: Link)
    requires LinkInv(l) && B.HasRoom(Unread(l))
    ensures l.queue.wpc != Q.WAborted
  {
    hide Q.Count, Q.Gets, Q.ReachesByGets;
    Q.PutHasRoom(l.events, l.queue);
  }

  lemma LinkIsWhole(l: Link)
    requires LinkInv(l)
    ensures |l.queue.ring.slots| == QUEUE_BUF_SIZE
  {
    hide Q.Gets, Q.Count;
    Q.GetsArePublished(l.events, l.queue);
    Q.Fifo(l.events, l.queue);
  }

  // ---------- The invariant

  /** Where a thread stands in its put or get, and that it is the call which its program makes */
  predicate Carries(wpc: Q.WriterPc, call: Call) {
    wpc.WTestFull? || wpc.WUpdate? || wpc.WStore? ==> wpc.publish && call.Put? && call.value == wpc.v
  }

  predicate IsInGet(rpc: Q.ReaderPc) {
    && rpc != Q.RTake(false)
    && (rpc.RSpin? || rpc.RSetFlag? || rpc.RRecheck? || rpc.RBlocked? || rpc.RClearFlag? ==> rpc.call == Q.Get)
  }

  predicate PcInv(wpc: Q.WriterPc, rpc: Q.ReaderPc, call: Call) {
    && Carries(wpc, call) && IsInGet(rpc)
    && (wpc != Q.WIdle ==> rpc == Q.RIdle)
    && (rpc != Q.RIdle && rpc != Q.RPublish ==> call == Get)
  }

  ghost predicate SideInv(s: State, side: Side) {
    LinkInv(s.Out(side)) && PcInv(s.Wpc(side), s.Rpc(side), NextCall(s.program, side))
  }

  ghost predicate Inv(s: State) {
    B.Inv(Abstract(s)) && SideInv(s, Client) && SideInv(s, Server)
  }

  lemma BenchKeepsInv(b: B.State, b': B.State, side: Side)
    requires B.Inv(b) && BenchStep(b, b', side)
    ensures B.Inv(b')
  {
    hide B.Inv, B.ClientStep, B.ServerStep;
    if side == Client {
      B.ClientKeepsInv(b, b');
    } else {
      B.ServerKeepsInv(b, b');
    }
  }

  /** There is always room in the ring that a side writes. */
  lemma OutHasRoom(s: State, side: Side)
    requires B.Inv(Abstract(s))
    ensures B.HasRoom(Unread(s.Out(side)))
  {
    hide B.Inv, B.HasRoom, Unread;
    B.SmallQueues(Abstract(s));
  }

  /** The pc of a thread inside a put */
  lemma PutGoesOn(l: Link, l': Link, e: Q.Event, rpc: Q.ReaderPc, call: Call)
    requires LinkStep(l, l', e, true) && l.queue.wpc != Q.WIdle && PcInv(l.queue.wpc, rpc, call)
    ensures e.Put? ==> call.Put? && e.v == call.value && !e.Got?
    ensures e.Put? ==> l'.queue.wpc == Q.WPublish
    ensures !e.Put? ==> PcInv(l'.queue.wpc, rpc, call)
  {
    hide UpdateReader, UpdateWriter, GetUnsafe, PutUnsafe, FlushReader, FlushWriter;
    hide ReaderEmpty, ReaderReady, WriterEmpty, WriterReady;
  }

  /** The pc of a thread inside a get */
  lemma GetGoesOn(l: Link, l': Link, e: Q.Event, wpc: Q.WriterPc, call: Call)
    requires LinkStep(l, l', e, false) && l.queue.rpc != Q.RIdle && PcInv(wpc, l.queue.rpc, call)
    ensures e.Got? ==> call == Get && l'.queue.rpc == Q.RPublish
    ensures !e.Got? ==> PcInv(wpc, l'.queue.rpc, call)
  {
    hide UpdateReader, UpdateWriter, GetUnsafe, PutUnsafe, FlushReader, FlushWriter;
    hide ReaderEmpty, ReaderReady, WriterEmpty, WriterReady;
  }

  lemma InitInv(s: State)
    requires Init(s)
    ensures Inv(s) && B.Init(Abstract(s)) && B.Settings(Abstract(s))
  {
    LinkInit(s.toServer);
    LinkInit(s.toClient);
    B.InitInv(Abstract(s));
    hide B.Inv, LinkInv, Unread;
  }

  /** The abstract states before and after a step of a side: one step of that side, or the same state */
  predicate Follows(s: State, s': State, side: Side) {
    Abstract(s') == Abstract(s) || BenchStep(Abstract(s), Abstract(s'), side)
  }

  /** Storing a value in the ring is putting it into the queue. */
  lemma InPut(s: State, s': State, side: Side, e: Q.Event)
    requires Inv(s) && !Aborted(s) && s.Wpc(side) != Q.WIdle && PutStep(s, s', side, e)
    ensures Inv(s')
    ensures if e.Put? then BenchStep(Abstract(s), Abstract(s'), side) else Abstract(s') == Abstract(s)
  {
    hide LinkInv, LinkStep, NextCall, AfterPut, B.Inv, BenchStep, BenchOf, Unread, B.HasRoom;
    var p, l := s.program, s.Out(side);
    PutGoesOn(l, s'.Out(side), e, s.Rpc(side), NextCall(p, side));
    OtherSide(l, s'.Out(side), e, true);
    LinkKept(l, s'.Out(side), e, true);
    AbstractWith(s, side);
    AbstractWith(s', side);
    if e.Put? {
      OutHasRoom(s, side);
      PutIsStep(p, side, Unread(l), Unread(s.In(side)));
      OthersCall(p, side, 0);
      BenchKeepsInv(Abstract(s), Abstract(s'), side);
    }
  }

  /** The value that comes out of the ring is the front value of the queue. */
  lemma InGet(s: State, s': State, side: Side, e: Q.Event)
    requires Inv(s) && !Aborted(s) && s.Wpc(side) == Q.WIdle && s.Rpc(side) != Q.RIdle && GetStep(s, s', side, e)
    ensures Inv(s')
    ensures if e.Got? then BenchStep(Abstract(s), Abstract(s'), side) else Abstract(s') == Abstract(s)
  {
    hide LinkInv, LinkStep, NextCall, AfterGet, B.Inv, BenchStep, BenchOf, Unread;
    var p, l := s.program, s.In(side);
    GetGoesOn(l, s'.In(side), e, s.Wpc(side), NextCall(p, side));
    OtherSide(l, s'.In(side), e, false);
    LinkKept(l, s'.In(side), e, false);
    AbstractWith(s, side);
    AbstractWith(s', side);
    if e.Got? {
      GetIsStep(p, side, Unread(s.Out(side)), Unread(l));
      OthersCall(p, side, e.v);
      BenchKeepsInv(Abstract(s), Abstract(s'), side);
    }
  }

  lemma BetweenCalls(s: State, s': State, side: Side)
    requires Inv(s) && !Aborted(s) && s.Wpc(side) == Q.WIdle && s.Rpc(side) == Q.RIdle && ProgramStep(s, s', side)
    ensures Inv(s')
    ensures if NextCall(s.program, side) == NoCall then BenchStep(Abstract(s), Abstract(s'), side)
            else Abstract(s') == Abstract(s)
  {
    hide LinkInv, NextCall, AfterThought, B.Inv, BenchStep, BenchOf, Unread, HasStopped;
    AbstractWith(s, side);
    AbstractWith(s', side);
    match NextCall(s.program, side)
    case Put(value) => LinkStarts(s.Out(side), value);
    case Get => LinkStarts(s.In(side), 0);
    case NoCall =>
      ThoughtIsStep(s.program, side, Unread(s.Out(side)), Unread(s.In(side)));
      OthersCall(s.program, side, 0);
      BenchKeepsInv(Abstract(s), Abstract(s'), side);
  }

  lemma SideRefines(s: State, s': State, side: Side)
    requires Inv(s) && !Aborted(s) && SideNext(s, s', side)
    ensures Inv(s') && Follows(s, s', side)
  {
    hide Inv, PutStep, GetStep, ProgramStep, BenchStep, Abstract, NextCall;
    if s.Wpc(side) != Q.WIdle {
      var e: Q.Event :| PutStep(s, s', side, e);
      InPut(s, s', side, e);
    } else if s.Rpc(side) != Q.RIdle {
      var e: Q.Event :| GetStep(s, s', side, e);
      InGet(s, s', side, e);
    } else {
      BetweenCalls(s, s', side);
    }
  }

  lemma NoAbort(s: State)
    requires Inv(s)
    ensures !Aborted(s)
  {
    hide LinkInv, B.Inv, B.HasRoom, Unread;
    OutHasRoom(s, Client);
    OutHasRoom(s, Server);
    RingHasRoom(s.toServer);
    RingHasRoom(s.toClient);
  }

  lemma NextRefines(s: State, s': State)
    requires Inv(s) && Next(s, s')
    ensures Inv(s') && (Abstract(s') == Abstract(s) || B.Next(Abstract(s), Abstract(s')))
  {
    hide Inv, SideNext, B.ClientStep, B.ServerStep, Abstract;
    var side: Side :| SideNext(s, s', side);
    SideRefines(s, s', side);
  }

  // ---------- Main results

  /** No put is refused, no check on a value that came out of a ring fails, and each ring holds at most one unread value
      per connection. */
  predicate Safe(s: State) {
    && !Aborted(s) && s.program.clientPc != B.Failed && s.program.serverPc != B.Crashed
    && |Unread(s.toServer)| <= s.program.n && |Unread(s.toClient)| <= s.program.n
    && Q.Puts(s.toServer.events) == Q.Gets(s.toServer.events) + Unread(s.toServer)
    && Q.Puts(s.toClient.events) == Q.Gets(s.toClient.events) + Unread(s.toClient)
  }

  lemma InvIsSafe(s: State)
    requires Inv(s)
    ensures Safe(s)
  {
    NoAbort(s);
    B.SmallQueues(Abstract(s));
    B.NobodyFails(Abstract(s));
    hide B.Inv, Q.Gets, Q.Count, Q.ReachesByGets, PcInv, NextCall;
  }

  /** Every state of every run is safe. */
  lemma RingsAreSafe(states: seq<State>)
    requires Run(states)
    ensures Inv(states[|states| - 1]) && Safe(states[|states| - 1])
  {
    RunInv(states);
    hide Inv, Safe;
    InvIsSafe(states[|states| - 1]);
  }

  lemma {:induction false} RunInv(states: seq<State>)
    requires Run(states)
    ensures Inv(states[|states| - 1])
    decreases |states|
  {
    hide Inv, Next, Init;
    var last := |states| - 1;
    if last == 0 {
      InitInv(states[0]);
    } else {
      RunInv(states[..last]);
      assert states[..last][last - 1] == states[last - 1];
      NextRefines(states[last - 1], states[last]);
    }
  }

  /** The run over abstract queues that a run on the rings follows; the queues hold what is unread in the rings. */
  lemma {:induction false} RunRefines(states: seq<State>) returns (followed: seq<B.State>)
    requires Run(states)
    ensures B.Run(followed) && followed[|followed| - 1] == Abstract(states[|states| - 1])
    decreases |states|
  {
    hide Inv, Next, B.Next, Abstract, Init, B.Init, B.Settings;
    var last := |states| - 1;
    if last == 0 {
      InitInv(states[0]);
      return [Abstract(states[0])];
    }
    var before := RunRefines(states[..last]);
    RunInv(states[..last]);
    assert states[..last][last - 1] == states[last - 1];
    NextRefines(states[last - 1], states[last]);
    if Abstract(states[last]) == Abstract(states[last - 1]) {
      return before;
    }
    followed := before + [Abstract(states[last])];
    assert followed[..|before|] == before;
  }

  // ---------- Somebody can always go on

  predicate Sleeping(l: Link) {
    l.queue.rpc.RBlocked? && l.queue.eventFd == 0
  }

  /** Both threads have left their loops. */
  predicate Ended(s: State) {
    && B.Finished(Abstract(s))
    && s.Wpc(Client) == s.Wpc(Server) == Q.WIdle
    && s.Rpc(Client) == s.Rpc(Server) == Q.RIdle
  }

  predicate Stuck(s: State, side: Side) {
    s.Wpc(side) == Q.WIdle && if s.Rpc(side) == Q.RIdle then HasStopped(s.program, side) else Sleeping(s.In(side))
  }

  lemma PutMove(l: Link) returns (l': Link, e: Q.Event)
    requires |l.queue.ring.slots| == QUEUE_BUF_SIZE && l.queue.wpc != Q.WIdle && l.queue.wpc != Q.WAborted
    ensures LinkStep(l, l', e, true)
  {
    var q := l.queue;
    var q';
    match q.wpc {
      case WTestFull(v, publish) =>
        q', e := q.(wpc := if WriterEmpty(q.ring) then Q.WUpdate(v, publish) else Q.WStore(v, publish)), Q.Quiet;
      case WUpdate(v, publish) =>
        var ring := UpdateWriter(q.ring);
        q' := q.(ring := ring, wpc := if WriterReady(ring) == 0 then Q.WAborted else Q.WStore(v, publish));
        e := Q.WriterUpdated;
      case WStore(v, publish) =>
        q', e := q.(ring := PutUnsafe(q.ring, v), wpc := if publish then Q.WPublish else Q.WIdle), Q.Put(v);
      case WPublish => q', e := q.(ring := FlushWriter(q.ring), wpc := Q.WTestFlag), Q.WriterPublished;
      case WTestFlag => q', e := q.(wpc := if q.waitFlag then Q.WNotify else Q.WIdle), Q.Quiet;
      case WNotify => q', e := q.(eventFd := q.eventFd + 1, wpc := Q.WIdle), Q.Quiet;
    }
    l' := Link(q', l.events + [e]);
  }

  lemma GetMove(l: Link) returns (l': Link, e: Q.Event)
    requires |l.queue.ring.slots| == QUEUE_BUF_SIZE && l.queue.rpc != Q.RIdle && !Sleeping(l)
    ensures LinkStep(l, l', e, false)
  {
    var q := l.queue;
    var ring := UpdateReader(q.ring);
    var q';
    match q.rpc {
      case RTestEmpty =>
        q', e := q.(rpc := if ReaderEmpty(q.ring) then Q.RSpin(Q.Get, 0) else Q.RTake(true)), Q.Quiet;
      case RSpin(call, cnt) =>
        if cnt + 1 < Q.BACKOFF_LIMIT {
          q' := q.(ring := ring, rpc := if ReaderReady(ring) != 0 then Q.Found(call) else Q.RSpin(call, cnt + 1));
          e := Q.ReaderUpdated;
        } else {
          q', e := q.(rpc := Q.RSetFlag(call)), Q.Quiet;
        }
      case RSetFlag(call) => q', e := q.(waitFlag := true, rpc := Q.RRecheck(call)), Q.Quiet;
      case RRecheck(call) =>
        q' := q.(ring := ring, rpc := if ReaderReady(ring) != 0 then Q.RClearFlag(call) else Q.RBlocked(call));
        e := Q.ReaderUpdated;
      case RBlocked(call) => q', e := q.(eventFd := 0, rpc := Q.RRecheck(call)), Q.Quiet;
      case RClearFlag(call) => q', e := q.(waitFlag := false, rpc := Q.Found(call)), Q.Quiet;
      case RTake(publish) =>
        var (v, after) := GetUnsafe(q.ring);
        q', e := q.(ring := after, rpc := if publish then Q.RPublish else Q.RIdle), Q.Got(v);
      case RPublish => q', e := q.(ring := FlushReader(q.ring), rpc := Q.RIdle), Q.ReaderPublished;
    }
    l' := Link(q', l.events + [e]);
  }

  /** Nobody sleeps beside a value, once the writer has returned from its put. */
  lemma SleepersQueueIsEmpty(l: Link)
    requires LinkInv(l) && Sleeping(l) && l.queue.wpc == Q.WIdle
    ensures Unread(l) == []
  {
    hide Q.Gets, Q.Count, Q.ReachesByGets, Q.Reaches;
    Q.GetsArePublished(l.events, l.queue);
    Q.NoLostWakeup(l.events, l.queue);
  }

  lemma CanMove(s: State, side: Side) returns (s': State)
    requires Inv(s) && !Aborted(s) && !Stuck(s, side)
    ensures SideNext(s, s', side)
  {
    hide LinkInv, LinkStep, B.Inv, NextCall, HasStopped, AfterPut, AfterGet, AfterThought, Abstract, PcInv;
    LinkIsWhole(s.Out(side));
    LinkIsWhole(s.In(side));
    var p, call := s.program, NextCall(s.program, side);
    if s.Wpc(side) != Q.WIdle {
      var l', e := PutMove(s.Out(side));
      s' := With(side, if e.Put? && call.Put? then AfterPut(p, side) else p, l', s.In(side));
      assert PutStep(s, s', side, e);
    } else if s.Rpc(side) != Q.RIdle {
      var l', e := GetMove(s.In(side));
      s' := With(side, if e.Got? then AfterGet(p, side, e.v) else p, s.Out(side), l');
      assert GetStep(s, s', side, e);
    } else {
      match call {
        case Put(value) => s' := With(side, p, StartPut(s.Out(side), value), s.In(side));
        case Get => s' := With(side, p, s.Out(side), StartGet(s.In(side)));
        case NoCall => s' := s.(program := AfterThought(p, side));
      }
    }
  }

  /** In every state in which not both threads have ended, one of them can take a step: in particular, not both sleep,
      and nobody sleeps while the other one has ended. */
  lemma NoDeadlock(s: State)
    requires Inv(s)
    ensures Ended(s) || exists s' :: Next(s, s')
  {
    hide LinkInv, SideNext, B.Inv, Unread;
    NoAbort(s);
    if !Stuck(s, Client) {
      var s' := CanMove(s, Client);
      assert Next(s, s');
    } else if !Stuck(s, Server) {
      var s' := CanMove(s, Server);
      assert Next(s, s');
    } else {
      if Sleeping(s.toClient) {
        SleepersQueueIsEmpty(s.toClient);
      }
      if Sleeping(s.toServer) {
        SleepersQueueIsEmpty(s.toServer);
      }
      B.NobodyFails(Abstract(s));
      BothWait(Abstract(s));
    }
  }

  lemma BothWait(b: B.State)
    requires B.Inv(b) && b.clientPc == B.Getting && b.serverPc == B.Waiting
    requires (b.clientActive <= 0 || b.client == []) && (b.serverActive <= 0 || b.server == [])
    ensures B.Finished(b)
  {
    B.NothingLeft(b);
  }

  // ---------- Every run ends

  /** An upper bound on the steps of a thread until its program takes its next step, or for one that has just put or got
      a value, until it has returned and called again; every call of eventfd's write pays for two more. */
  function PcRank(wpc: Q.WriterPc, rpc: Q.ReaderPc): nat {
    match wpc
    case WTestFull(_, _) => 30
    case WUpdate(_, _) => 20
    case WStore(_, _) => 10
    case WPublish => 4000
    case WTestFlag => 3000
    case WNotify => 2000
    case WAborted => 0
    case WIdle =>
      match rpc
      case RIdle => 1000
      case RPublish => 2000
      case RTake(_) => 2
      case RClearFlag(_) => 3
      case RBlocked(_) => 4
      case RRecheck(_) => 5
      case RSetFlag(_) => 6
      case RSpin(_, cnt) => 7 + if cnt < Q.BACKOFF_LIMIT then Q.BACKOFF_LIMIT - cnt else 0
      case RTestEmpty => 8 + Q.BACKOFF_LIMIT
  }

  const BENCH_STEP: nat := 5000

  function Rank(s: State): int {
    BENCH_STEP * B.Rank(Abstract(s))
    + PcRank(s.Wpc(Client), s.Rpc(Client)) + PcRank(s.Wpc(Server), s.Rpc(Server))
    + 2 * s.toServer.queue.eventFd + 2 * s.toClient.queue.eventFd
  }

  lemma PutRank(l: Link, l': Link, e: Q.Event, rpc: Q.ReaderPc, call: Call)
    requires LinkStep(l, l', e, true) && l.queue.wpc != Q.WIdle && PcInv(l.queue.wpc, rpc, call)
    ensures PcRank(l'.queue.wpc, rpc) + 2 * l'.queue.eventFd
            < PcRank(l.queue.wpc, rpc) + 2 * l.queue.eventFd + if e.Put? then BENCH_STEP else 0
  {
    hide UpdateReader, UpdateWriter, GetUnsafe, PutUnsafe, FlushReader, FlushWriter;
    hide ReaderEmpty, ReaderReady, WriterEmpty, WriterReady;
  }

  lemma GetRank(l: Link, l': Link, e: Q.Event, call: Call)
    requires LinkStep(l, l', e, false) && l.queue.rpc != Q.RIdle && PcInv(Q.WIdle, l.queue.rpc, call)
    ensures PcRank(Q.WIdle, l'.queue.rpc) + 2 * l'.queue.eventFd
            < PcRank(Q.WIdle, l.queue.rpc) + 2 * l.queue.eventFd + if e.Got? then BENCH_STEP else 0
  {
    hide UpdateReader, UpdateWriter, GetUnsafe, PutUnsafe, FlushReader, FlushWriter;
    hide ReaderEmpty, ReaderReady, WriterEmpty, WriterReady;
  }

  lemma BenchRank(b: B.State, b': B.State, side: Side)
    requires B.Inv(b) && BenchStep(b, b', side)
    ensures BENCH_STEP * B.Rank(b') + BENCH_STEP <= BENCH_STEP * B.Rank(b)
  {
    hide B.Inv, B.ClientStep, B.ServerStep, B.Rank;
    B.StepsEndRun(b, b');
  }

  /** Every access of either thread lowers a natural number, so no run goes on forever: every spin, every sleep and
      every loop ends. */
  lemma EveryRunEnds(s: State, s': State)
    requires Inv(s) && Next(s, s')
    ensures 0 <= Rank(s') < Rank(s)
  {
    hide LinkInv, B.Inv, B.Rank, SideNext, Abstract;
    var side: Side :| SideNext(s, s', side);
    SideLowersRank(s, s', side);
    NextRefines(s, s');
    B.RankIsNatural(Abstract(s'));
  }

  lemma SideLowersRank(s: State, s': State, side: Side)
    requires Inv(s) && !Aborted(s) && SideNext(s, s', side)
    ensures Rank(s') < Rank(s)
  {
    hide LinkInv, LinkStep, B.Inv, B.Rank, BenchStep, PcRank, NextCall, Abstract, AfterPut, AfterGet, AfterThought;
    var call := NextCall(s.program, side);
    if s.Wpc(side) != Q.WIdle {
      var e: Q.Event :| PutStep(s, s', side, e);
      PutRank(s.Out(side), s'.Out(side), e, s.Rpc(side), call);
      OtherSide(s.Out(side), s'.Out(side), e, true);
      InPut(s, s', side, e);
      if e.Put? {
        BenchRank(Abstract(s), Abstract(s'), side);
      }
    } else if s.Rpc(side) != Q.RIdle {
      var e: Q.Event :| GetStep(s, s', side, e);
      GetRank(s.In(side), s'.In(side), e, call);
      OtherSide(s.In(side), s'.In(side), e, false);
      InGet(s, s', side, e);
      if e.Got? {
        BenchRank(Abstract(s), Abstract(s'), side);
      }
    } else {
      CallRank(s.Wpc(side), s.Rpc(side));
      BetweenCalls(s, s', side);
      if call == NoCall {
        BenchRank(Abstract(s), Abstract(s'), side);
      }
    }
  }

  /** Starting a call lowers the rank. */
  lemma CallRank(wpc: Q.WriterPc, rpc: Q.ReaderPc)
    requires wpc == Q.WIdle && rpc == Q.RIdle
    ensures forall value: Value :: PcRank(Q.WTestFull(value, true), rpc) < PcRank(wpc, rpc)
    ensures PcRank(wpc, Q.RTestEmpty) < PcRank(wpc, rpc)
  {
  }

  /** When both have ended, everything put has been got, and every connection has played all its rounds on both
      sides. */
  lemma EndOfRun(s: State)
    requires Inv(s) && Ended(s)
    ensures Q.Gets(s.toServer.events) == Q.Puts(s.toServer.events)
    ensures Q.Gets(s.toClient.events) == Q.Puts(s.toClient.events)
    ensures var p := s.program;
            forall c :: 0 <= c < p.n ==>
              c < |p.clientConn| && c < |p.serverConn|
              && p.clientConn[c] == p.serverConn[c] == if p.queries == 0 then 1 else p.queries
  {
    hide Q.Gets, Q.Count, Q.ReachesByGets;
    B.EndOfRun(Abstract(s));
  }
}
