/** The ping-pong of the benchmark: a client and a server pass one number per connection back and forth
    through two queues. */
module QueueBenchmark {
  import opened BufferQueue

  const FIRST: nat := 0x100_0000

  /** A value carries its query number in the lower 24 bits and its connection in those above; the shift keeps the
      sign. */
  function Co(value: Value): int {
    value / FIRST
  }

  function No(value: Value): nat {
    value % FIRST
  }

  datatype ClientPc =
    | Sending(i: nat)
    | Getting
    | Holding(value: Value)
    | Failed

  datatype ServerPc =
    | Waiting
    | Serving(value: Value)
    | Crashed

  /** `client` and `server` are the queues that the client and the server read. */
  datatype State = State(
    n: nat, queries: nat, client: seq<Value>, server: seq<Value>,
    clientPc: ClientPc, clientConn: seq<nat>, clientActive: int,
    serverPc: ServerPc, serverConn: seq<nat>, serverActive: int)

  predicate Init(s: State) {
    && s.client == [] && s.server == []
    && s.clientPc == Sending(0) && s.serverPc == Waiting
    && s.clientConn == s.serverConn == seq(s.n, _ => 0)
    && s.clientActive == s.serverActive == s.n
  }

  /** The settings that the benchmark demands, and that keep a value within 31 bits */
  predicate Settings(s: State) {
    s.n <= 128 && s.queries < FIRST
  }

  /** A queue of the ring kind refuses a value when all its slots are taken; a reader that has not yet published its
      last read still holds one. BenchmarkOnRings puts two such rings in the place of the queues. */
  predicate HasRoom(queue: seq<Value>) {
    |queue| + 1 < QUEUE_BUF_SIZE
  }

  /** Both checks on a received value */
  predicate Expected(value: Value, conn: seq<nat>) {
    0 <= Co(value) < |conn| && No(value) == conn[Co(value)]
  }

  function Received(conn: seq<nat>, value: Value): (r: seq<nat>)
    requires 0 <= Co(value) < |conn|
    ensures |r| == |conn|
  {
    conn[Co(value) := conn[Co(value)] + 1]
  }

  predicate ClientStep(s: State, s': State) {
    match s.clientPc
    case Sending(i) =>
      if i >= s.n then s' == s.(clientPc := Getting)
      else if !HasRoom(s.server) then s' == s.(clientPc := Failed)
      else s' == s.(clientPc := Sending(i + 1), server := s.server + [i * FIRST])
    case Getting =>
      && s.clientActive > 0 && s.client != []
      && s' == s.(clientPc := Holding(s.client[0]), client := s.client[1..])
    case Holding(value) =>
      if !Expected(value, s.clientConn) then s' == s.(clientPc := Failed)
      else if No(value) + 1 < s.queries then
        if !HasRoom(s.server) then s' == s.(clientPc := Failed)
        else
          s' == s.(clientPc := Getting, clientConn := Received(s.clientConn, value), server := s.server + [value + 1])
      else
        s' == s.(clientPc := Getting, clientConn := Received(s.clientConn, value), clientActive := s.clientActive - 1)
    case Failed => false
  }

  predicate ServerStep(s: State, s': State) {
    match s.serverPc
    case Waiting =>
      && s.serverActive > 0 && s.server != []
      && s' == s.(serverPc := Serving(s.server[0]), server := s.server[1..])
    case Serving(value) =>
      if !Expected(value, s.serverConn) || !HasRoom(s.client) then s' == s.(serverPc := Crashed)
      else
        s' == s.(serverPc := Waiting, serverConn := Received(s.serverConn, value), client := s.client + [value],
                 serverActive := if No(value) + 1 >= s.queries then s.serverActive - 1 else s.serverActive)
    case Crashed => false
  }

  predicate Next(s: State, s': State) {
    ClientStep(s, s') || ServerStep(s, s')
  }

  predicate Finished(s: State) {
    s.clientPc == Getting && s.clientActive <= 0 && s.serverPc == Waiting && s.serverActive <= 0
  }

  ghost predicate Run(states: seq<State>)
    decreases |states|
  {
    && |states| > 0
    && var last := |states| - 1;
       if last == 0 then Init(states[0]) && Settings(states[0])
       else Run(states[..last]) && Next(states[last - 1], states[last])
  }

  // ---------- The tokens form a circle

  function InHand(pc: ClientPc): seq<Value> {
    if pc.Holding? then [pc.value] else []
  }

  function Served(pc: ServerPc): seq<Value> {
    if pc.Serving? then [pc.value] else []
  }

  /** The first values of the connections that the client has not started yet */
  function Unsent(pc: ClientPc, n: nat): seq<Value> {
    if pc.Sending? && pc.i < n then seq(n - pc.i, k requires 0 <= k => (pc.i + k) * FIRST) else []
  }

  /** Tokens on their way back to the client, from the one that it gets next */
  function Back(s: State): seq<Value> {
    InHand(s.clientPc) + s.client
  }

  /** Tokens on their way to the server */
  function Forth(s: State): seq<Value> {
    Served(s.serverPc) + s.server + Unsent(s.clientPc, s.n)
  }

  /** Every step of the server, and every get, leaves the circle as it is; a step of the client turns it by one. */
  function Circle(s: State): seq<Value> {
    Back(s) + Forth(s)
  }

  /** At least one round is played, even with no queries. */
  function Rounds(s: State): nat {
    if s.queries == 0 then 1 else s.queries
  }

  function CountBelow(conn: seq<nat>, rounds: nat): nat {
    if conn == [] then 0 else (if conn[0] < rounds then 1 else 0) + CountBelow(conn[1..], rounds)
  }

  ghost predicate HasToken(circle: seq<Value>, c: nat) {
    exists k :: 0 <= k < |circle| && Co(circle[k]) == c
  }

  /** One token per unfinished connection, with the round that its connection is in on both sides; the first `back`
      tokens have been served and not yet received. A connection without a token has played all rounds. */
  ghost predicate Fits(circle: seq<Value>, back: nat, client: seq<nat>, server: seq<nat>, rounds: nat) {
    && |client| == |server| && back <= |circle|
    && (forall i, j :: 0 <= i < j < |circle| ==> Co(circle[i]) != Co(circle[j]))
    && (forall k :: 0 <= k < |circle| ==> 0 <= Co(circle[k]) < |client|)
    && (forall k :: 0 <= k < |circle| ==> No(circle[k]) < rounds && No(circle[k]) == client[Co(circle[k])])
    && (forall k :: 0 <= k < |circle| ==> server[Co(circle[k])] == No(circle[k]) + if k < back then 1 else 0)
    && (forall c :: 0 <= c < |client| && !HasToken(circle, c) ==> client[c] == server[c] == rounds)
  }

  ghost predicate Inv(s: State) {
    && Settings(s) && |s.clientConn| == s.n
    && s.clientPc != Failed && s.serverPc != Crashed
    && (s.clientPc.Sending? ==> s.clientPc.i <= s.n && s.clientConn == seq(s.n, _ => 0))
    && Fits(Circle(s), |Back(s)|, s.clientConn, s.serverConn, Rounds(s))
    && s.clientActive == |Circle(s)| <= s.n
    && s.serverActive == CountBelow(s.serverConn, Rounds(s))
  }

  // ---------- Turning the circle

  lemma Split(value: Value)
    ensures value == Co(value) * FIRST + No(value)
  {
  }

  lemma NextValue(value: Value)
    requires No(value) + 1 < FIRST
    ensures Co(value + 1) == Co(value) && No(value + 1) == No(value) + 1
  {
    Split(value);
    Joined(Co(value), No(value) + 1);
  }

  lemma Joined(co: int, no: nat)
    requires no < FIRST
    ensures Co(co * FIRST + no) == co && No(co * FIRST + no) == no
  {
  }

  /** The server serves the first token that has not been served. */
  lemma ServeFits(circle: seq<Value>, back: nat, client: seq<nat>, server: seq<nat>, rounds: nat)
    requires Fits(circle, back, client, server, rounds) && back < |circle|
    ensures Expected(circle[back], server)
    ensures Fits(circle, back + 1, client, Received(server, circle[back]), rounds)
  {
    hide Co, No;
  }

  /** The client gets the token at the front, and sends the next one. */
  lemma TurnFits(value: Value, rest: seq<Value>, back: nat, client: seq<nat>, server: seq<nat>, rounds: nat)
    requires Fits([value] + rest, back, client, server, rounds) && back > 0 && No(value) + 1 < rounds <= FIRST
    ensures Expected(value, client)
    ensures Fits(rest + [value + 1], back - 1, Received(client, value), server, rounds)
  {
    NextValue(value);
    hide Co, No;
    var before, after := [value] + rest, rest + [value + 1];
    assert before[0] == value && forall k :: 0 <= k < |rest| ==> after[k] == before[k + 1];
    forall c: nat | HasToken(before, c)
      ensures HasToken(after, c)
    {
      TokensTurn(value, rest, c);
    }
  }

  lemma TokensTurn(value: Value, rest: seq<Value>, c: nat)
    requires HasToken([value] + rest, c) && Co(value + 1) == Co(value)
    ensures HasToken(rest + [value + 1], c)
  {
    hide Co;
    var before, after := [value] + rest, rest + [value + 1];
    var k :| 0 <= k < |before| && Co(before[k]) == c;
    assert Co(after[if k == 0 then |rest| else k - 1]) == c;
  }

  /** The client gets the last token of a connection. */
  lemma DropFits(value: Value, rest: seq<Value>, back: nat, client: seq<nat>, server: seq<nat>, rounds: nat)
    requires Fits([value] + rest, back, client, server, rounds) && back > 0 && No(value) + 1 >= rounds
    ensures Expected(value, client)
    ensures Fits(rest, back - 1, Received(client, value), server, rounds)
  {
    hide Co, No;
    var before := [value] + rest;
    assert before[0] == value && forall k :: 0 <= k < |rest| ==> rest[k] == before[k + 1];
    forall c | HasToken(before, c) && c != Co(value)
      ensures HasToken(rest, c)
    {
      var k :| 0 <= k < |before| && Co(before[k]) == c;
      assert Co(rest[k - 1]) == c;
    }
  }

  lemma {:induction false} CountStep(conn: seq<nat>, c: nat, rounds: nat)
    requires c < |conn| && conn[c] < rounds
    ensures CountBelow(conn[c := conn[c] + 1], rounds)
            == CountBelow(conn, rounds) - if conn[c] + 1 >= rounds then 1 else 0
  {
    var after := conn[c := conn[c] + 1];
    if c == 0 {
      assert after[1..] == conn[1..];
    } else {
      assert after[1..] == conn[1..][c - 1 := conn[c] + 1];
      CountStep(conn[1..], c - 1, rounds);
    }
  }

  // ---------- Steps keep the invariant

  lemma ServerKeepsInv(s: State, s': State)
    requires Inv(s) && ServerStep(s, s')
    ensures Inv(s')
  {
    if s.serverPc.Serving? {
      ServingKeepsInv(s, s');
    } else {
      hide Fits, Circle;
      ServerKeepsCircle(s, s');
    }
  }

  lemma ServingKeepsInv(s: State, s': State)
    requires Inv(s) && ServerStep(s, s') && s.serverPc.Serving?
    ensures Inv(s')
  {
    var value, back := s.serverPc.value, |Back(s)|;
    assert Circle(s)[back] == value;
    hide Fits, Co, No, Circle;
    ServeFits(Circle(s), back, s.clientConn, s.serverConn, Rounds(s));
    SmallQueues(s);
    TokenNumber(Circle(s), back, s.clientConn, s.serverConn, Rounds(s), back);
    CountStep(s.serverConn, Co(value), Rounds(s));
    ServerKeepsCircle(s, s');
  }

  /** All tokens together are at most one per connection: no queue is ever near its size. */
  lemma SmallQueues(s: State)
    requires Inv(s)
    ensures HasRoom(s.client) && HasRoom(s.server)
    ensures |s.client| <= s.n && |s.server| <= s.n
  {
    assert |Circle(s)| == |Back(s)| + |Forth(s)|;
  }

  lemma TokenNumber(circle: seq<Value>, back: nat, client: seq<nat>, server: seq<nat>, rounds: nat, k: nat)
    requires Fits(circle, back, client, server, rounds) && k < |circle|
    ensures 0 <= Co(circle[k]) < |client| && No(circle[k]) < rounds
    ensures k >= back ==> server[Co(circle[k])] == No(circle[k])
  {
  }

  lemma ClientKeepsInv(s: State, s': State)
    requires Inv(s) && ClientStep(s, s')
    ensures Inv(s')
  {
    if s.clientPc.Holding? {
      HoldingKeepsInv(s, s');
    } else {
      hide Fits, Co, No, Circle;
      SmallQueues(s);
      ClientKeepsCircle(s, s');
    }
  }

  lemma HoldingKeepsInv(s: State, s': State)
    requires Inv(s) && ClientStep(s, s') && s.clientPc.Holding?
    ensures Inv(s')
  {
    hide Fits, Co, No;
    SmallQueues(s);
    var value, rest, back := s.clientPc.value, s.client + Forth(s), |Back(s)|;
    assert Circle(s) == [value] + rest;
    TokenNumber(Circle(s), back, s.clientConn, s.serverConn, Rounds(s), 0);
    if No(value) + 1 < s.queries {
      TurnFits(value, rest, back, s.clientConn, s.serverConn, Rounds(s));
      assert Circle(s') == rest + [value + 1];
    } else {
      DropFits(value, rest, back, s.clientConn, s.serverConn, Rounds(s));
      assert Circle(s') == rest;
    }
  }

  /** The first sends, and gets, leave the circle as it is. */
  lemma ClientKeepsCircle(s: State, s': State)
    requires ClientStep(s, s') && !s.clientPc.Holding?
    ensures s'.clientPc != Failed ==> Circle(s') == Circle(s) && |Back(s')| == |Back(s)|
  {
    hide Co, No, HasRoom;
    if s.clientPc.Getting? {
      assert [s.client[0]] + s.client[1..] == s.client;
    } else if s'.clientPc != Failed {
      var i := s.clientPc.i;
      if i < s.n {
        assert Unsent(s.clientPc, s.n) == [i * FIRST] + Unsent(s'.clientPc, s.n);
      }
    }
  }

  lemma InitInv(s: State)
    requires Init(s) && Settings(s)
    ensures Inv(s)
  {
    var circle := Circle(s);
    assert circle == Unsent(Sending(0), s.n);
    forall k | 0 <= k < |circle|
      ensures Co(circle[k]) == k && No(circle[k]) == 0
    {
      Joined(k, 0);
    }
    forall c: nat | c < s.n
      ensures HasToken(circle, c)
    {
      assert Co(circle[c]) == c;
    }
    AllBelow(s.serverConn, Rounds(s));
  }

  lemma {:induction false} AllBelow(conn: seq<nat>, rounds: nat)
    requires forall c :: 0 <= c < |conn| ==> conn[c] < rounds
    ensures CountBelow(conn, rounds) == |conn|
  {
    if conn != [] {
      AllBelow(conn[1..], rounds);
    }
  }

  // ---------- All runs

  /** No check fails and no put is refused, in any state of any run; each queue holds at most one value per
      connection. */
  lemma {:induction false} RunIsSafe(states: seq<State>)
    requires Run(states)
    ensures var s := states[|states| - 1];
            && Inv(s) && s.clientPc != Failed && s.serverPc != Crashed
            && |s.client| <= s.n && |s.server| <= s.n
    decreases |states|
  {
    hide Inv;
    var last := |states| - 1;
    var s := states[last];
    if last == 0 {
      InitInv(s);
    } else {
      RunIsSafe(states[..last]);
      var before := states[last - 1];
      assert before == states[..last][last - 1];
      if ClientStep(before, s) {
        ClientKeepsInv(before, s);
      } else {
        ServerKeepsInv(before, s);
      }
    }
    SmallQueues(s);
    NobodyFails(s);
  }

  lemma NobodyFails(s: State)
    requires Inv(s)
    ensures s.clientPc != Failed && s.serverPc != Crashed
  {
  }

  lemma {:induction false} NoneBelow(conn: seq<nat>, rounds: nat, c: nat)
    requires CountBelow(conn, rounds) == 0 && c < |conn|
    ensures conn[c] >= rounds
  {
    if c > 0 {
      NoneBelow(conn[1..], rounds, c - 1);
    }
  }

  /** There is always someone who can go on, until both have ended. */
  lemma NoDeadlock(s: State)
    requires Inv(s)
    ensures Finished(s) || exists s' :: Next(s, s')
  {
    if s.clientPc.Getting? && (s.clientActive == 0 || s.client == []) {
      if s.serverPc.Waiting? && (s.serverActive == 0 || s.server == []) {
        NothingLeft(s);
      } else {
        var s' := ServerMove(s);
      }
    } else {
      var s' := ClientMove(s);
    }
  }

  /** When both wait for nothing, both have ended. */
  lemma NothingLeft(s: State)
    requires Inv(s) && s.clientPc.Getting? && s.serverPc.Waiting?
    requires (s.clientActive == 0 || s.client == []) && (s.serverActive == 0 || s.server == [])
    ensures Finished(s)
  {
    hide Co, No;
    var circle, rounds := Circle(s), Rounds(s);
    if circle != [] {
      assert circle == s.server;
      TokenNumber(circle, 0, s.clientConn, s.serverConn, rounds, 0);
      NoneBelow(s.serverConn, rounds, Co(circle[0]));
      assert false;
    } else {
      forall c | 0 <= c < |s.serverConn|
        ensures s.serverConn[c] == rounds
      {
        assert !HasToken(circle, c);
      }
      AllPlayed(s.serverConn, rounds);
    }
  }

  lemma {:induction false} AllPlayed(conn: seq<nat>, rounds: nat)
    requires forall c :: 0 <= c < |conn| ==> conn[c] == rounds
    ensures CountBelow(conn, rounds) == 0
  {
    if conn != [] {
      AllPlayed(conn[1..], rounds);
    }
  }

  lemma ClientMove(s: State) returns (s': State)
    requires Inv(s) && !(s.clientPc.Getting? && (s.clientActive == 0 || s.client == []))
    ensures Next(s, s')
  {
    hide Fits, Co, No;
    SmallQueues(s);
    match s.clientPc
    case Sending(i) =>
      s' := if i >= s.n then s.(clientPc := Getting)
            else s.(clientPc := Sending(i + 1), server := s.server + [i * FIRST]);
      assert ClientStep(s, s');
    case Getting =>
      s' := s.(clientPc := Holding(s.client[0]), client := s.client[1..]);
      assert ClientStep(s, s');
    case Holding(value) =>
      if !Expected(value, s.clientConn) {
        s' := s.(clientPc := Failed);
      } else if No(value) + 1 < s.queries {
        s' := s.(clientPc := Getting, clientConn := Received(s.clientConn, value), server := s.server + [value + 1]);
      } else {
        s' := s.(clientPc := Getting, clientConn := Received(s.clientConn, value), clientActive := s.clientActive - 1);
      }
      assert ClientStep(s, s');
  }

  lemma ServerMove(s: State) returns (s': State)
    requires Inv(s) && !(s.serverPc.Waiting? && (s.serverActive == 0 || s.server == []))
    ensures Next(s, s')
  {
    hide Fits, Co, No;
    SmallQueues(s);
    match s.serverPc
    case Waiting =>
      s' := s.(serverPc := Serving(s.server[0]), server := s.server[1..]);
      assert ServerStep(s, s');
    case Serving(value) =>
      if !Expected(value, s.serverConn) {
        s' := s.(serverPc := Crashed);
      } else {
        s' := s.(serverPc := Waiting, serverConn := Received(s.serverConn, value), client := s.client + [value],
                 serverActive := if No(value) + 1 >= s.queries then s.serverActive - 1 else s.serverActive);
      }
      assert ServerStep(s, s');
  }

  /** When both have ended, every connection has played its rounds on both sides and the queues are empty. */
  lemma EndOfRun(s: State)
    requires Inv(s) && Finished(s)
    ensures s.client == s.server == []
    ensures forall c :: 0 <= c < s.n ==> s.clientConn[c] == s.serverConn[c] == Rounds(s)
  {
    var circle := Circle(s);
    assert circle == [];
    forall c | 0 <= c < s.n
      ensures s.clientConn[c] == s.serverConn[c] == Rounds(s)
    {
      assert !HasToken(circle, c);
    }
  }

  // ---------- Every run ends

  /** The rounds that the tokens still have to go */
  function Left(circle: seq<Value>, rounds: nat): int {
    if circle == [] then 0 else rounds - 1 - No(circle[0]) + Left(circle[1..], rounds)
  }

  lemma {:induction false} LeftConcat(a: seq<Value>, b: seq<Value>, rounds: nat)
    ensures Left(a + b, rounds) == Left(a, rounds) + Left(b, rounds)
  {
    if a == [] {
      assert a + b == b;
    } else {
      assert (a + b)[1..] == a[1..] + b;
      LeftConcat(a[1..], b, rounds);
    }
  }

  lemma {:induction false} LeftIsNatural(circle: seq<Value>, rounds: nat)
    requires forall k :: 0 <= k < |circle| ==> No(circle[k]) < rounds
    ensures Left(circle, rounds) >= 0
  {
    if circle != [] {
      LeftIsNatural(circle[1..], rounds);
    }
  }

  /** Four steps for every round, less the steps of the current one */
  function Rank(s: State): int {
    4 * Left(Circle(s), Rounds(s)) + |InHand(s.clientPc)| + 2 * |s.client| + 3 * |Served(s.serverPc)| + 4 * |s.server|
    + 5 * |Unsent(s.clientPc, s.n)| + if s.clientPc.Sending? then 1 else 0
  }

  lemma OneLeft(value: Value, rounds: nat)
    ensures Left([value], rounds) == rounds - 1 - No(value)
  {
    assert [value][1..] == [];
  }

  /** Every step, of whichever side, takes the run nearer to its end. */
  lemma StepsEndRun(s: State, s': State)
    requires Inv(s) && Next(s, s')
    ensures 0 <= Rank(s') < Rank(s)
  {
    hide Fits, Co, No, Left;
    if ClientStep(s, s') {
      ClientKeepsInv(s, s');
      ClientRank(s, s');
    } else {
      ServerKeepsInv(s, s');
      ServerRank(s, s');
    }
    RankIsNatural(s');
  }

  lemma RankIsNatural(s: State)
    requires Inv(s)
    ensures Rank(s) >= 0
  {
    LeftIsNatural(Circle(s), Rounds(s));
  }

  lemma ServerRank(s: State, s': State)
    requires Inv(s) && Inv(s') && ServerStep(s, s')
    ensures Rank(s') < Rank(s)
  {
    NobodyFails(s');
    hide Co, No, Left, Inv, Expected, Received, HasRoom, Circle, Unsent, InHand;
    ServerKeepsCircle(s, s');
  }

  lemma ServerKeepsCircle(s: State, s': State)
    requires ServerStep(s, s') && s'.serverPc != Crashed
    ensures Circle(s') == Circle(s)
  {
    hide Co, No, Expected, Received, HasRoom, Unsent, InHand;
    if s.serverPc.Waiting? {
      assert [s.server[0]] + s.server[1..] == s.server;
    }
  }

  lemma ClientRank(s: State, s': State)
    requires Inv(s) && Inv(s') && ClientStep(s, s')
    ensures Rank(s') < Rank(s)
  {
    hide Fits, Co, No, Left, Inv;
    NobodyFails(s');
    if s.clientPc.Holding? {
      HoldingRank(s, s');
    } else {
      ClientKeepsCircle(s, s');
    }
  }

  lemma HoldingRank(s: State, s': State)
    requires Inv(s) && ClientStep(s, s') && s.clientPc.Holding? && s'.clientPc != Failed
    ensures Rank(s') < Rank(s)
  {
    HoldingLeft(s, s');
    HoldingCounts(s, s');
    RankOutsideSending(s);
    RankOutsideSending(s');
    hide *;
  }

  lemma HoldingLeft(s: State, s': State)
    requires Inv(s) && ClientStep(s, s') && s.clientPc.Holding? && s'.clientPc != Failed
    ensures Left(Circle(s), Rounds(s))
            == Left(Circle(s'), Rounds(s)) + if No(s.clientPc.value) + 1 < s.queries then 1 else 0
  {
    hide *;
    LastRound(s);
    HoldingTurnsCircle(s, s');
    var rounds, value, rest := Rounds(s), s.clientPc.value, s.client + Forth(s);
    if No(value) + 1 < s.queries {
      TurnLeft(value, rest, rounds);
    } else {
      DropLeft(value, rest, rounds);
    }
  }

  lemma RankOutsideSending(s: State)
    requires !s.clientPc.Sending?
    ensures Rank(s) == 4 * Left(Circle(s), Rounds(s)) + |InHand(s.clientPc)| + 2 * |s.client|
                       + 3 * |Served(s.serverPc)| + 4 * |s.server|
  {
  }

  /** How many values stand where, before and after */
  lemma HoldingCounts(s: State, s': State)
    requires ClientStep(s, s') && s.clientPc.Holding? && s'.clientPc != Failed
    ensures |InHand(s.clientPc)| == 1 && |InHand(s'.clientPc)| == 0 && s'.clientPc == Getting
    ensures |Unsent(s.clientPc, s.n)| == |Unsent(s'.clientPc, s'.n)| == 0
    ensures s'.client == s.client && s'.serverPc == s.serverPc && Rounds(s') == Rounds(s)
    ensures |s'.server| == |s.server| + if No(s.clientPc.value) + 1 < s.queries then 1 else 0
  {
    hide Expected, Co, No, HasRoom, Received;
  }

  /** The token in the client's hand goes to the end of the circle, or leaves it. */
  lemma HoldingTurnsCircle(s: State, s': State)
    requires ClientStep(s, s') && s.clientPc.Holding? && s'.clientPc != Failed
    ensures var value, rest := s.clientPc.value, s.client + Forth(s);
            && Circle(s) == [value] + rest
            && Circle(s') == if No(value) + 1 < s.queries then rest + [value + 1] else rest
  {
    hide Expected, Co, No, HasRoom, Received;
    assert Unsent(s.clientPc, s.n) == [] == Unsent(s'.clientPc, s.n);
  }

  lemma TurnLeft(value: Value, rest: seq<Value>, rounds: nat)
    requires No(value) + 1 < FIRST
    ensures Left([value] + rest, rounds) == Left(rest + [value + 1], rounds) + 1
  {
    LeftConcat([value], rest, rounds);
    LeftConcat(rest, [value + 1], rounds);
    OneLeft(value, rounds);
    OneLeft(value + 1, rounds);
    NextValue(value);
  }

  lemma DropLeft(value: Value, rest: seq<Value>, rounds: nat)
    requires No(value) + 1 == rounds
    ensures Left([value] + rest, rounds) == Left(rest, rounds)
  {
    LeftConcat([value], rest, rounds);
    OneLeft(value, rounds);
  }

  lemma LastRound(s: State)
    requires Inv(s) && s.clientPc.Holding?
    ensures var next := No(s.clientPc.value) + 1; if next < s.queries then next < FIRST else next == Rounds(s)
  {
    assert Circle(s)[0] == s.clientPc.value;
    TokenNumber(Circle(s), |Back(s)|, s.clientConn, s.serverConn, Rounds(s), 0);
    hide Fits, Circle, Back, Co, No;
  }
}
