/** Packing queries and service messages into one packet: a single message, or a container of all of them. */
module Container {
  import opened Bytes
  import opened Options
  import opened AuthData

  const CONTAINER_ID: nat := 0x73f1f8dc

  /** One message as stored: identifier, sequence number, length, body */
  datatype Record = Record(id: nat, seqNo: nat, body: seq<byte>)

  predicate IsStorable(r: Record) {
    r.id < 0x1_0000_0000_0000_0000 && r.seqNo < 0x8000_0000 && |r.body| < 0x8000_0000
  }

  function StoreRecord(r: Record): seq<byte> {
    LittleEndian(r.id, 8) + LittleEndian(r.seqNo, 4) + LittleEndian(|r.body|, 4) + r.body
  }

  function StoreRecords(rs: seq<Record>): seq<byte> {
    if rs == [] then [] else StoreRecord(rs[0]) + StoreRecords(rs[1..])
  }

  function StoreContainer(rs: seq<Record>): seq<byte> {
    LittleEndian(CONTAINER_ID, 4) + LittleEndian(|rs|, 4) + StoreRecords(rs)
  }

  /** Identifier in eight bytes, then sequence number and length in four each, low bytes first */
  lemma RecordLayout(r: Record)
    requires IsStorable(r)
    ensures StoreRecord(r)
            == Word(r.id) + Word(r.id / 0x1_0000_0000) + Word(r.seqNo) + Word(|r.body|) + r.body
  {
    hide LittleEndian, Word;
    WordIsLittleEndian(r.seqNo);
    WordIsLittleEndian(|r.body|);
    EightBytes(r.id);
  }

  lemma ContainerLayout(rs: seq<Record>)
    ensures StoreContainer(rs) == [0xdc, 0xf8, 0xf1, 0x73] + Word(|rs|) + StoreRecords(rs)
  {
    hide LittleEndian, Word;
    IdBytes();
    WordIsLittleEndian(CONTAINER_ID);
    WordIsLittleEndian(|rs|);
  }

  lemma IdBytes()
    ensures Word(CONTAINER_ID) == [0xdc, 0xf8, 0xf1, 0x73]
    ensures Word(INVOKE_AFTER_MSG) == [0x2d, 0x37, 0x9f, 0xcb]
    ensures Word(INVOKE_AFTER_MSGS) == [0xf0, 0xb4, 0xc4, 0x3d]
    ensures Word(VECTOR) == [0x15, 0xc4, 0xb5, 0x1c]
  {
  }

  // ---------- Reading a container back

  datatype Parsed<T> = Parsed(value: T, rest: seq<byte>)

  function ParseRecord(s: seq<byte>): (r: Option<Parsed<Record>>)
    ensures r.Some? ==> |r.value.rest| < |s|
  {
    if |s| < 16 then None
    else
      var size := FromLittleEndian(s[12..16]);
      if |s| < 16 + size then None
      else Some(Parsed(Record(FromLittleEndian(s[..8]), FromLittleEndian(s[8..12]), s[16..16 + size]), s[16 + size..]))
  }

  function ParseRecords(s: seq<byte>, count: nat): Option<Parsed<seq<Record>>> {
    if count == 0 then Some(Parsed([], s))
    else
      var first :- ParseRecord(s);
      var others :- ParseRecords(first.rest, count - 1);
      Some(Parsed([first.value] + others.value, others.rest))
  }

  /** The body of a container: its type, the number of messages, and exactly that many messages */
  function ParseContainer(s: seq<byte>): Option<seq<Record>> {
    if |s| < 8 || FromLittleEndian(s[..4]) != CONTAINER_ID then None
    else
      var parsed :- ParseRecords(s[8..], FromLittleEndian(s[4..8]));
      if parsed.rest == [] then Some(parsed.value) else None
  }

  lemma Powers()
    ensures Pow256(4) == 0x1_0000_0000 && Pow256(8) == 0x1_0000_0000_0000_0000
  {
    assert Pow256(2) == 0x1_0000 && Pow256(3) == 0x100_0000;
    assert Pow256(5) == 0x100_0000_0000 && Pow256(6) == 0x1_0000_0000_0000;
  }

  predicate AreStorable(rs: seq<Record>) {
    |rs| < 0x8000_0000 && forall i :: 0 <= i < |rs| ==> IsStorable(rs[i])
  }

  lemma RecordRoundTrip(r: Record, rest: seq<byte>)
    requires IsStorable(r)
    ensures ParseRecord(StoreRecord(r) + rest) == Some(Parsed(r, rest))
  {
    Powers();
    LittleEndianRoundTrip(r.id, 8);
    LittleEndianRoundTrip(r.seqNo, 4);
    LittleEndianRoundTrip(|r.body|, 4);
    var s, size := StoreRecord(r) + rest, |r.body|;
    hide LittleEndian, FromLittleEndian;
    assert s[..8] == LittleEndian(r.id, 8) && s[8..12] == LittleEndian(r.seqNo, 4);
    assert s[12..16] == LittleEndian(size, 4) && s[16..16 + size] == r.body && s[16 + size..] == rest;
  }

  lemma {:induction false} RecordsRoundTrip(rs: seq<Record>)
    requires forall i :: 0 <= i < |rs| ==> IsStorable(rs[i])
    ensures ParseRecords(StoreRecords(rs), |rs|) == Some(Parsed(rs, []))
  {
    hide StoreRecord, ParseRecord, IsStorable;
    if rs != [] {
      RecordRoundTrip(rs[0], StoreRecords(rs[1..]));
      RecordsRoundTrip(rs[1..]);
      assert [rs[0]] + rs[1..] == rs;
    }
  }

  /** A container parses back into exactly its messages, in order. */
  lemma ContainerRoundTrip(rs: seq<Record>)
    requires AreStorable(rs)
    ensures ParseContainer(StoreContainer(rs)) == Some(rs)
  {
    Powers();
    LittleEndianRoundTrip(CONTAINER_ID, 4);
    LittleEndianRoundTrip(|rs|, 4);
    RecordsRoundTrip(rs);
    var s := StoreContainer(rs);
    hide LittleEndian, FromLittleEndian, StoreRecords, ParseRecords, IsStorable;
    assert s[..4] == LittleEndian(CONTAINER_ID, 4) && s[4..8] == LittleEndian(|rs|, 4) && s[8..] == StoreRecords(rs);
  }

  /** A stored container, as one message among others, opens to its messages. */
  lemma PacketRoundTrip(id: nat, seqNo: nat, rs: seq<Record>, rest: seq<byte>)
    requires AreStorable(rs)
    requires IsStorable(Record(id, seqNo, StoreContainer(rs)))
    ensures var parsed := ParseRecord(StoreRecord(Record(id, seqNo, StoreContainer(rs))) + rest);
            && parsed.Some? && parsed.value.rest == rest && parsed.value.value.id == id
            && ParseContainer(parsed.value.value.body) == Some(rs)
  {
    hide StoreContainer, ParseContainer, StoreRecord, ParseRecord;
    RecordRoundTrip(Record(id, seqNo, StoreContainer(rs)), rest);
    ContainerRoundTrip(rs);
  }

  lemma StoredTogether(id: nat, seqNo: nat, rs: seq<Record>)
    ensures AreStorable(rs) && IsStorable(Record(id, seqNo, StoreContainer(rs))) ==>
              var parsed := ParseRecord(StoreRecord(Record(id, seqNo, StoreContainer(rs))));
              && parsed.Some? && parsed.value.rest == [] && parsed.value.value.id == id
              && ParseContainer(parsed.value.value.body) == Some(rs)
  {
    hide StoreContainer, ParseContainer, StoreRecord, ParseRecord;
    if AreStorable(rs) && IsStorable(Record(id, seqNo, StoreContainer(rs))) {
      var bytes := StoreRecord(Record(id, seqNo, StoreContainer(rs)));
      PacketRoundTrip(id, seqNo, rs, []);
      assert bytes + [] == bytes;
    }
  }

  lemma StoredAlone(r: Record)
    ensures IsStorable(r) ==> ParseRecord(StoreRecord(r)) == Some(Parsed(r, []))
  {
    hide StoreRecord, ParseRecord;
    if IsStorable(r) {
      RecordRoundTrip(r, []);
      assert StoreRecord(r) + [] == StoreRecord(r);
    }
  }

  // ---------- Sizes

  /** What the length pass adds up for a record */
  function RecordSize(r: Record): nat {
    8 + 4 + 4 + |r.body|
  }

  function RecordsSize(rs: seq<Record>): nat {
    if rs == [] then 0 else RecordSize(rs[0]) + RecordsSize(rs[1..])
  }

  lemma {:induction false} SizeIsStored(rs: seq<Record>)
    ensures |StoreRecords(rs)| == RecordsSize(rs)
  {
    if rs != [] {
      SizeIsStored(rs[1..]);
    }
  }

  lemma OneRecord(r: Record)
    ensures StoreRecords([r]) == StoreRecord(r)
  {
    assert [r][1..] == [] && StoreRecord(r) + [] == StoreRecord(r);
  }

  // ---------- Queries

  datatype Query = Query(id: nat, seqNo: nat, packet: seq<byte>, invokeAfter: seq<nat>)

  function StoreIds(ids: seq<nat>): seq<byte> {
    if ids == [] then [] else LittleEndian(ids[0], 8) + StoreIds(ids[1..])
  }

  const INVOKE_AFTER_MSG: nat := 0xcb9f372d
  const INVOKE_AFTER_MSGS: nat := 0x3dc4b4f0
  const VECTOR: nat := 0x1cb5c415

  /** InvokeAfter::store */
  function StoreInvokeAfter(ids: seq<nat>): seq<byte> {
    if ids == [] then []
    else if |ids| == 1 then LittleEndian(INVOKE_AFTER_MSG, 4) + LittleEndian(ids[0], 8)
    else LittleEndian(INVOKE_AFTER_MSGS, 4) + LittleEndian(VECTOR, 4) + LittleEndian(|ids|, 4) + StoreIds(ids)
  }

  lemma {:induction false} InvokeAfterLayout(ids: seq<nat>)
    ensures |ids| == 1 ==>
              StoreInvokeAfter(ids) == [0x2d, 0x37, 0x9f, 0xcb] + Word(ids[0]) + Word(ids[0] / 0x1_0000_0000)
    ensures |ids| > 1 ==>
              StoreInvokeAfter(ids)
              == [0xf0, 0xb4, 0xc4, 0x3d] + [0x15, 0xc4, 0xb5, 0x1c] + Word(|ids|) + StoreIds(ids)
    ensures |StoreIds(ids)| == 8 * |ids|
  {
    hide LittleEndian, Word;
    IdBytes();
    WordIsLittleEndian(INVOKE_AFTER_MSG);
    WordIsLittleEndian(INVOKE_AFTER_MSGS);
    WordIsLittleEndian(VECTOR);
    WordIsLittleEndian(|ids|);
    if ids != [] {
      EightBytes(ids[0]);
      InvokeAfterLayout(ids[1..]);
    }
  }

  function QueryRecord(q: Query, header: seq<byte>): Record {
    Record(q.id, q.seqNo, header + (StoreInvokeAfter(q.invokeAfter) + q.packet))
  }

  function QueryRecords(queries: seq<Query>, header: seq<byte>): (rs: seq<Record>)
    ensures |rs| == |queries|
  {
    seq(|queries|, i requires 0 <= i < |queries| => QueryRecord(queries[i], header))
  }

  // ---------- What the other side reads of a query

  datatype QueryBody = QueryBody(invokeAfter: seq<nat>, packet: seq<byte>)

  function ParseIds(s: seq<byte>, count: nat): Option<Parsed<seq<nat>>> {
    if count == 0 then Some(Parsed([], s))
    else if |s| < 8 then None
    else
      var others :- ParseIds(s[8..], count - 1);
      Some(Parsed([FromLittleEndian(s[..8])] + others.value, others.rest))
  }

  /** The body behind the header: the prefix names the queries to wait for, all else is the packet. */
  function ParseQuery(s: seq<byte>): Option<QueryBody> {
    if StartsWith(s, INVOKE_AFTER_MSG) then
      var ids :- ParseIds(s[4..], 1);
      Some(QueryBody(ids.value, ids.rest))
    else if StartsWith(s, INVOKE_AFTER_MSGS) then
      if |s| < 12 || FromLittleEndian(s[4..8]) != VECTOR then None
      else
        var ids :- ParseIds(s[12..], FromLittleEndian(s[8..12]));
        Some(QueryBody(ids.value, ids.rest))
    else
      Some(QueryBody([], s))
  }

  predicate StartsWith(s: seq<byte>, id: nat) {
    |s| >= 4 && FromLittleEndian(s[..4]) == id
  }

  predicate AreIds(ids: seq<nat>) {
    forall i :: 0 <= i < |ids| ==> ids[i] < 0x1_0000_0000_0000_0000
  }

  lemma {:induction false} IdsRoundTrip(ids: seq<nat>, rest: seq<byte>)
    requires AreIds(ids)
    ensures ParseIds(StoreIds(ids) + rest, |ids|) == Some(Parsed(ids, rest))
  {
    if ids == [] {
      assert [] + rest == rest;
    } else {
      hide LittleEndian, FromLittleEndian;
      IdComesFirst(ids[0], StoreIds(ids[1..]), rest);
      IdsRoundTrip(ids[1..], rest);
      assert [ids[0]] + ids[1..] == ids;
    }
  }

  lemma IdComesFirst(id: nat, others: seq<byte>, rest: seq<byte>)
    requires id < 0x1_0000_0000_0000_0000
    ensures var s := LittleEndian(id, 8) + others + rest;
            FromLittleEndian(s[..8]) == id && s[8..] == others + rest
  {
    Powers();
    LittleEndianRoundTrip(id, 8);
    hide LittleEndian, FromLittleEndian, Pow256;
    FirstOfThree(LittleEndian(id, 8), others, rest);
  }

  lemma FirstOfThree(a: seq<byte>, b: seq<byte>, c: seq<byte>)
    ensures (a + b + c)[..|a|] == a && (a + b + c)[|a|..] == b + c
  {
  }

  lemma WordComesFirst(id: nat, rest: seq<byte>)
    requires id < 0x1_0000_0000
    ensures StartsWith(LittleEndian(id, 4) + rest, id) && (LittleEndian(id, 4) + rest)[4..] == rest
    ensures forall other :: other != id ==> !StartsWith(LittleEndian(id, 4) + rest, other)
  {
    Powers();
    LittleEndianRoundTrip(id, 4);
    assert (LittleEndian(id, 4) + rest)[..4] == LittleEndian(id, 4);
  }

  /** The identifiers to wait for and the packet come back exactly if there are such identifiers or the packet does not
      itself begin like such a prefix. */
  lemma QueryRoundTrip(q: Query, header: seq<byte>)
    requires |q.invokeAfter| < 0x8000_0000 && AreIds(q.invokeAfter)
    ensures var body := QueryRecord(q, header).body;
            && body[..|header|] == header
            && (ParseQuery(body[|header|..]) == Some(QueryBody(q.invokeAfter, q.packet))
                <==> q.invokeAfter != []
                     || !(StartsWith(q.packet, INVOKE_AFTER_MSG) || StartsWith(q.packet, INVOKE_AFTER_MSGS)))
  {
    var body := QueryRecord(q, header).body;
    assert body[|header|..] == StoreInvokeAfter(q.invokeAfter) + q.packet;
    PrefixRoundTrip(q.invokeAfter, q.packet);
  }

  lemma PrefixRoundTrip(ids: seq<nat>, packet: seq<byte>)
    requires |ids| < 0x8000_0000 && AreIds(ids)
    ensures ParseQuery(StoreInvokeAfter(ids) + packet) == Some(QueryBody(ids, packet))
            <==> ids != [] || !(StartsWith(packet, INVOKE_AFTER_MSG) || StartsWith(packet, INVOKE_AFTER_MSGS))
  {
    hide LittleEndian, FromLittleEndian, StartsWith, ParseIds, StoreIds;
    IdsRoundTrip(ids, packet);
    if ids == [] {
      assert [] + packet == packet;
      QueryWithoutPrefix(packet);
    } else if |ids| == 1 {
      OneIdStored(ids);
      WordComesFirst(INVOKE_AFTER_MSG, StoreIds(ids) + packet);
      assert StoreInvokeAfter(ids) + packet == LittleEndian(INVOKE_AFTER_MSG, 4) + (StoreIds(ids) + packet);
    } else {
      VectorPrefix(ids, packet);
    }
  }

  lemma OneIdStored(ids: seq<nat>)
    requires |ids| == 1
    ensures StoreIds(ids) == LittleEndian(ids[0], 8)
  {
    assert ids[1..] == [];
  }

  lemma QueryWithoutPrefix(packet: seq<byte>)
    ensures ParseQuery(packet) == Some(QueryBody([], packet))
            <==> !(StartsWith(packet, INVOKE_AFTER_MSG) || StartsWith(packet, INVOKE_AFTER_MSGS))
  {
    if StartsWith(packet, INVOKE_AFTER_MSG) {
      IdsAreShorter(packet[4..], 1);
    } else if StartsWith(packet, INVOKE_AFTER_MSGS) && |packet| >= 12 {
      IdsAreShorter(packet[12..], FromLittleEndian(packet[8..12]));
    }
  }

  lemma {:induction false} IdsAreShorter(s: seq<byte>, count: nat)
    ensures ParseIds(s, count).Some? ==> |ParseIds(s, count).value.rest| <= |s|
  {
    if count > 0 && |s| >= 8 {
      IdsAreShorter(s[8..], count - 1);
    }
  }

  lemma VectorPrefix(ids: seq<nat>, packet: seq<byte>)
    requires 1 < |ids| < 0x8000_0000 && ParseIds(StoreIds(ids) + packet, |ids|) == Some(Parsed(ids, packet))
    ensures ParseQuery(StoreInvokeAfter(ids) + packet) == Some(QueryBody(ids, packet))
  {
    Powers();
    LittleEndianRoundTrip(VECTOR, 4);
    LittleEndianRoundTrip(|ids|, 4);
    var s, rest := StoreInvokeAfter(ids) + packet, StoreIds(ids) + packet;
    WordComesFirst(INVOKE_AFTER_MSGS, LittleEndian(VECTOR, 4) + (LittleEndian(|ids|, 4) + rest));
    hide LittleEndian, FromLittleEndian, StartsWith, ParseIds, StoreIds;
    ThreeWords(LittleEndian(INVOKE_AFTER_MSGS, 4), LittleEndian(VECTOR, 4), LittleEndian(|ids|, 4),
               StoreIds(ids), packet);
  }

  lemma ThreeWords(a: seq<byte>, b: seq<byte>, c: seq<byte>, ids: seq<byte>, packet: seq<byte>)
    requires |a| == |b| == |c| == 4
    ensures var s := a + b + c + ids + packet;
            s == a + (b + (c + (ids + packet))) && s[4..8] == b && s[8..12] == c && s[12..] == ids + packet
  {
    var s := a + b + c + ids + packet;
    assert s == a + b + c + (ids + packet);
  }

  // ---------- One packet

  /** The bodies of the service messages of one packet; a body that is absent is not sent. */
  datatype Services = Services(
    ack: Option<seq<byte>>, httpWait: Option<seq<byte>>, getFutureSalts: Option<seq<byte>>, getInfo: Option<seq<byte>>,
    resend: Option<seq<byte>>, cancels: seq<seq<byte>>, destroyKey: Option<seq<byte>>, ping: Option<seq<byte>>)

  datatype Kind =
    | Mixed | OnlyQuery | OnlyAck | OnlyPing | OnlyHttpWait | OnlyGetFutureSalts | OnlyGetInfo | OnlyResend | OnlyCancel
    | OnlyDestroyKey

  function Optional(body: Option<seq<byte>>): seq<seq<byte>> {
    if body.Some? then [body.value] else []
  }

  /** The bodies in the order in which they are stored */
  function Bodies(s: Services): seq<seq<byte>> {
    Optional(s.ack) + Optional(s.httpWait) + Optional(s.getFutureSalts) + Optional(s.getInfo) + Optional(s.resend)
    + s.cancels + Optional(s.destroyKey) + Optional(s.ping)
  }

  /** Messages created one after the other: identifiers grow, starting above `last`. */
  predicate Created(rs: seq<Record>, bodies: seq<seq<byte>>, last: nat, end: nat, seqNo: nat) {
    && |rs| == |bodies|
    && (forall i :: 0 <= i < |rs| ==> rs[i].body == bodies[i] && rs[i].seqNo == seqNo && last < rs[i].id <= end)
    && (forall i, j :: 0 <= i < j < |rs| ==> rs[i].id < rs[j].id)
    && last <= end
  }

  lemma CreatedConcat(a: seq<Record>, x: seq<seq<byte>>, b: seq<Record>, y: seq<seq<byte>>,
                      l: nat, m: nat, e: nat, no: nat)
    requires Created(a, x, l, m, no) && Created(b, y, m, e, no)
    ensures Created(a + b, x + y, l, e, no)
  {
  }

  /** ObjectImpl: a message that is not empty takes the next identifier. */
  method CreateObject(body: Option<seq<byte>>, auth: AuthData, now: real) returns (rs: seq<Record>)
    requires auth.Valid() && auth.GetServerTime(now) >= 0.0
    modifies auth`lastMessageId, auth`seqNo
    ensures auth.Valid() && auth.seqNo == old(auth.seqNo) && |rs| == |Optional(body)|
    ensures Created(rs, Optional(body), old(auth.lastMessageId), auth.lastMessageId, auth.seqNo)
    ensures Carries(rs, body)
  {
    if body == None {
      return [];
    }
    var id := auth.NextMessageId(now);
    var no := auth.NextSeqNo(false);
    return [Record(id, no, body.value)];
  }

  /** CancelVectorImpl */
  method CreateCancels(bodies: seq<seq<byte>>, auth: AuthData, now: real) returns (rs: seq<Record>)
    requires auth.Valid() && auth.GetServerTime(now) >= 0.0
    modifies auth`lastMessageId, auth`seqNo
    ensures auth.Valid() && auth.seqNo == old(auth.seqNo) && |rs| == |bodies|
    ensures Created(rs, bodies, old(auth.lastMessageId), auth.lastMessageId, auth.seqNo)
  {
    rs := [];
    for i := 0 to |bodies|
      invariant auth.Valid() && auth.seqNo == old(auth.seqNo)
      invariant Created(rs, bodies[..i], old(auth.lastMessageId), auth.lastMessageId, auth.seqNo)
    {
      var r := CreateObject(Some(bodies[i]), auth, now);
      assert bodies[..i + 1] == bodies[..i] + Optional(Some(bodies[i]));
      rs := rs + r;
    }
    assert bodies[..|bodies|] == bodies;
  }

  /** The service messages of one packet, each list empty or with one message, but for the cancellations */
  datatype ServiceRecords = ServiceRecords(
    ack: seq<Record>, httpWait: seq<Record>, getFutureSalts: seq<Record>, getInfo: seq<Record>, resend: seq<Record>,
    cancels: seq<Record>, destroyKey: seq<Record>, ping: seq<Record>)
  {
    function All(): seq<Record> {
      ack + httpWait + getFutureSalts + getInfo + resend + cancels + destroyKey + ping
    }

    function Count(): nat {
      |ack| + |ping| + |httpWait| + |getFutureSalts| + |getInfo| + |resend| + |cancels| + |destroyKey|
    }

    ghost predicate Fits(s: Services) {
      && |ack| == |Optional(s.ack)| && |httpWait| == |Optional(s.httpWait)|
      && |getFutureSalts| == |Optional(s.getFutureSalts)| && |getInfo| == |Optional(s.getInfo)|
      && |resend| == |Optional(s.resend)| && |cancels| == |s.cancels|
      && |destroyKey| == |Optional(s.destroyKey)| && |ping| == |Optional(s.ping)|
      && Carries(getInfo, s.getInfo) && Carries(resend, s.resend) && Carries(ping, s.ping)
    }
  }

  /** The messages that an optional body has become */
  predicate Carries(rs: seq<Record>, body: Option<seq<byte>>) {
    |rs| == |Optional(body)| && (rs != [] ==> body == Some(rs[0].body))
  }

  /** The identifier that is written through a pointer, if the message exists */
  function FirstId(rs: seq<Record>): Option<nat> {
    if rs == [] then None else Some(rs[0].id)
  }

  /** Of all messages, the one with this identifier, and no other, has the body. */
  ghost predicate Names(id: Option<nat>, rs: seq<Record>, body: Option<seq<byte>>) {
    && (id.Some? <==> body.Some?)
    && (id.Some? ==>
          exists i :: 0 <= i < |rs| && rs[i].id == id.value && rs[i].body == body.value
                      && forall k :: 0 <= k < |rs| && rs[k].id == id.value ==> k == i)
  }

  /** The members of CryptoImpl are constructed in the order in which they are declared. */
  method CreateServices(s: Services, auth: AuthData, now: real) returns (r: ServiceRecords)
    requires auth.Valid() && auth.GetServerTime(now) >= 0.0
    modifies auth`lastMessageId, auth`seqNo
    ensures auth.Valid() && auth.seqNo == old(auth.seqNo) && r.Fits(s)
    ensures Created(r.All(), Bodies(s), old(auth.lastMessageId), auth.lastMessageId, auth.seqNo)
  {
    hide Created, Optional, Carries;
    ghost var start, no := auth.lastMessageId, auth.seqNo;
    var ack := CreateObject(s.ack, auth, now);
    ghost var rs, bs := ack, Optional(s.ack);
    ghost var l := auth.lastMessageId;
    var httpWait := CreateObject(s.httpWait, auth, now);
    CreatedConcat(rs, bs, httpWait, Optional(s.httpWait), start, l, auth.lastMessageId, no);
    rs, bs, l := rs + httpWait, bs + Optional(s.httpWait), auth.lastMessageId;
    var salts := CreateObject(s.getFutureSalts, auth, now);
    CreatedConcat(rs, bs, salts, Optional(s.getFutureSalts), start, l, auth.lastMessageId, no);
    rs, bs, l := rs + salts, bs + Optional(s.getFutureSalts), auth.lastMessageId;
    var info := CreateObject(s.getInfo, auth, now);
    CreatedConcat(rs, bs, info, Optional(s.getInfo), start, l, auth.lastMessageId, no);
    rs, bs, l := rs + info, bs + Optional(s.getInfo), auth.lastMessageId;
    var resend := CreateObject(s.resend, auth, now);
    CreatedConcat(rs, bs, resend, Optional(s.resend), start, l, auth.lastMessageId, no);
    rs, bs, l := rs + resend, bs + Optional(s.resend), auth.lastMessageId;
    var cancels := CreateCancels(s.cancels, auth, now);
    CreatedConcat(rs, bs, cancels, s.cancels, start, l, auth.lastMessageId, no);
    rs, bs, l := rs + cancels, bs + s.cancels, auth.lastMessageId;
    var destroyKey := CreateObject(s.destroyKey, auth, now);
    CreatedConcat(rs, bs, destroyKey, Optional(s.destroyKey), start, l, auth.lastMessageId, no);
    rs, bs, l := rs + destroyKey, bs + Optional(s.destroyKey), auth.lastMessageId;
    var ping := CreateObject(s.ping, auth, now);
    CreatedConcat(rs, bs, ping, Optional(s.ping), start, l, auth.lastMessageId, no);
    r := ServiceRecords(ack, httpWait, salts, info, resend, cancels, destroyKey, ping);
  }

  /** The part that is stored alone */
  function Sole(kind: Kind, queries: seq<Record>, r: ServiceRecords): seq<Record>
    requires kind != Mixed
  {
    match kind
    case OnlyQuery => queries
    case OnlyAck => r.ack
    case OnlyPing => r.ping
    case OnlyHttpWait => r.httpWait
    case OnlyGetFutureSalts => r.getFutureSalts
    case OnlyGetInfo => r.getInfo
    case OnlyResend => r.resend
    case OnlyCancel => r.cancels
    case OnlyDestroyKey => r.destroyKey
  }

  /** The first part, in this order, that is not empty */
  function FirstKind(queries: seq<Record>, r: ServiceRecords): (kind: Kind)
    ensures kind != Mixed
  {
    if queries != [] then OnlyQuery
    else if r.ack != [] then OnlyAck
    else if r.ping != [] then OnlyPing
    else if r.httpWait != [] then OnlyHttpWait
    else if r.getFutureSalts != [] then OnlyGetFutureSalts
    else if r.getInfo != [] then OnlyGetInfo
    else if r.resend != [] then OnlyResend
    else if r.cancels != [] then OnlyCancel
    else OnlyDestroyKey
  }

  /** If there is one message in all, the chosen part is that message. */
  lemma FirstKindIsSole(queries: seq<Record>, r: ServiceRecords)
    requires |queries| + r.Count() == 1
    ensures Sole(FirstKind(queries, r), queries, r) == queries + r.All()
  {
    assert forall a: seq<Record> :: a + [] == a && [] + a == a;
    if queries != [] {
    } else if r.ack != [] {
    } else if r.ping != [] {
    } else if r.httpWait != [] {
    } else if r.getFutureSalts != [] {
    } else if r.getInfo != [] {
    } else if r.resend != [] {
    } else if r.cancels != [] {
    } else {
      assert r.destroyKey != [];
    }
  }

  lemma CreatedCount(r: ServiceRecords, bodies: seq<seq<byte>>, last: nat, end: nat, seqNo: nat)
    requires Created(r.All(), bodies, last, end, seqNo)
    ensures r.Count() == |bodies|
  {
  }

  lemma ContainerComesLast(queries: seq<Record>, rs: seq<Record>, bodies: seq<seq<byte>>, last: nat, end: nat,
                           seqNo: nat, id: nat)
    requires Created(rs, bodies, last, end, seqNo) && end < id
    requires forall i :: 0 <= i < |queries| ==> queries[i].id <= last && queries[i].seqNo <= seqNo
    ensures forall i :: 0 <= i < |queries + rs| ==> (queries + rs)[i].id < id && (queries + rs)[i].seqNo <= seqNo
  {
  }

  /** The identifiers behind the pointers are those of the parts that the packet stores for them. Those of queries are
      older than all others. */
  lemma PointersNameParts(queries: seq<Record>, r: ServiceRecords, s: Services, last: nat, end: nat, seqNo: nat)
    requires r.Fits(s) && Created(r.All(), Bodies(s), last, end, seqNo)
    requires forall i :: 0 <= i < |queries| ==> queries[i].id <= last
    ensures Names(FirstId(r.getInfo), queries + r.All(), s.getInfo)
    ensures Names(FirstId(r.resend), queries + r.All(), s.resend)
    ensures Names(FirstId(r.ping), queries + r.All(), s.ping)
  {
    hide Created, Names, Carries;
    var before := r.ack + r.httpWait + r.getFutureSalts;
    var inner := before + r.getInfo;
    var last3 := r.cancels + r.destroyKey + r.ping;
    Regroup(inner, r.resend, r.cancels, r.destroyKey, r.ping, before, r.getInfo);
    PartIsNamed(queries, before, r.getInfo, r.resend + last3, s.getInfo, Bodies(s), last, end, seqNo);
    PartIsNamed(queries, inner, r.resend, last3, s.resend, Bodies(s), last, end, seqNo);
    PartIsNamed(queries, inner + r.resend + r.cancels + r.destroyKey, r.ping, [], s.ping, Bodies(s), last, end, seqNo);
  }

  lemma Regroup(a: seq<Record>, b: seq<Record>, c: seq<Record>, d: seq<Record>, e: seq<Record>, x: seq<Record>,
                y: seq<Record>)
    requires a == x + y
    ensures a + b + c + d + e == a + b + (c + d + e) == x + y + (b + (c + d + e)) == (a + b + c + d) + e + []
  {
    assert a + b + c + d + e == a + b + (c + d + e);
    assert x + y + (b + (c + d + e)) == x + y + b + (c + d + e);
  }

  lemma PartIsNamed(queries: seq<Record>, a: seq<Record>, part: seq<Record>, b: seq<Record>, body: Option<seq<byte>>,
                    bodies: seq<seq<byte>>, last: nat, end: nat, seqNo: nat)
    requires Carries(part, body) && Created(a + part + b, bodies, last, end, seqNo)
    requires forall i :: 0 <= i < |queries| ==> queries[i].id <= last
    ensures Names(FirstId(part), queries + (a + part + b), body)
  {
    if part != [] {
      var all, own := a + part + b, queries + (a + part + b);
      assert own[|queries| + |a|] == all[|a|] == part[0];
      forall k | 0 <= k < |own| && own[k].id == part[0].id
        ensures k == |queries| + |a|
      {
        if k >= |queries| {
          assert own[k] == all[k - |queries|];
        }
      }
    }
  }

  class CryptoImpl {
    const queries: seq<Record>
    const services: ServiceRecords
    const kind: Kind
    const messageId: nat
    const seqNo: nat
    const parentMessageId: nat
    /** What is written through the pointers for these messages */
    const getInfoMessageId: Option<nat>
    const resendMessageId: Option<nat>
    const pingMessageId: Option<nat>

    function Parts(): seq<Record> {
      queries + services.All()
    }

    /** A container that comes after everything in it, or the one message there is */
    ghost predicate Valid() {
      if kind == Mixed then
        && parentMessageId == messageId
        && forall i :: 0 <= i < |Parts()| ==> Parts()[i].id < messageId && Parts()[i].seqNo <= seqNo
      else
        |Parts()| == 1 && Sole(kind, queries, services) == Parts() && parentMessageId == Parts()[0].id
    }

    /** Queries have got their numbers from the same session before. */
    constructor (toSend: seq<Query>, header: seq<byte>, bodies: Services, auth: AuthData, now: real)
      requires auth.Valid() && auth.GetServerTime(now) >= 0.0
      requires toSend != [] || Bodies(bodies) != []
      requires forall i :: 0 <= i < |toSend| ==> toSend[i].id <= auth.lastMessageId && toSend[i].seqNo <= auth.seqNo
      modifies auth`lastMessageId, auth`seqNo
      ensures Valid() && auth.Valid()
      ensures queries == QueryRecords(toSend, header) && services.Fits(bodies)
      ensures exists end :: Created(services.All(), Bodies(bodies), old(auth.lastMessageId), end, auth.seqNo)
      ensures getInfoMessageId == FirstId(services.getInfo) && Names(getInfoMessageId, Parts(), bodies.getInfo)
      ensures resendMessageId == FirstId(services.resend) && Names(resendMessageId, Parts(), bodies.resend)
      ensures pingMessageId == FirstId(services.ping) && Names(pingMessageId, Parts(), bodies.ping)
      ensures kind == Mixed <==>
                |Parts()| > 1 || (toSend != [] && !auth.IsValidOutboundMsgId(toSend[0].id, now))
    {
      hide Created, Names, Carries, Bodies, Optional;
      var qs := QueryRecords(toSend, header);
      var parts := CreateServices(bodies, auth, now);
      ghost var end := auth.lastMessageId;
      CreatedCount(parts, Bodies(bodies), old(auth.lastMessageId), end, auth.seqNo);
      var cnt := |qs| + parts.Count();
      queries := qs;
      services := parts;
      getInfoMessageId := FirstId(parts.getInfo);
      resendMessageId := FirstId(parts.resend);
      pingMessageId := FirstId(parts.ping);
      if cnt > 1 || (toSend != [] && !auth.IsValidOutboundMsgId(toSend[0].id, now)) {
        kind := Mixed;
        var id := auth.NextMessageId(now);
        var no := auth.NextSeqNo(false);
        messageId := id;
        seqNo := no;
        parentMessageId := id;
        ContainerComesLast(qs, parts.All(), Bodies(bodies), old(auth.lastMessageId), end, no, id);
      } else {
        FirstKindIsSole(qs, parts);
        kind := FirstKind(qs, parts);
        messageId := 0;
        seqNo := 0;
        parentMessageId := Sole(FirstKind(qs, parts), qs, parts)[0].id;
      }
      new;
      assert Created(services.All(), Bodies(bodies), old(auth.lastMessageId), end, auth.seqNo);
      PointersNameParts(queries, services, bodies, old(auth.lastMessageId), end, auth.seqNo);
    }

    /** do_store: a container with all parts, or only the part there is */
    method Store() returns (bytes: seq<byte>)
      requires Valid()
      ensures bytes == StoreRecord(
                         if kind == Mixed then Record(messageId, seqNo, StoreContainer(Parts())) else Parts()[0])
      ensures kind == Mixed && AreStorable(Parts()) && IsStorable(Record(messageId, seqNo, StoreContainer(Parts()))) ==>
                var parsed := ParseRecord(bytes);
                && parsed.Some? && parsed.value.rest == [] && parsed.value.value.id == messageId
                && ParseContainer(parsed.value.value.body) == Some(Parts())
      ensures kind != Mixed && IsStorable(Parts()[0]) ==> ParseRecord(bytes) == Some(Parsed(Parts()[0], []))
    {
      if kind != Mixed {
        bytes := StoreRecords(Sole(kind, queries, services));
        OneRecord(Parts()[0]);
        assert Parts() == [Parts()[0]];
        StoredAlone(Parts()[0]);
      } else {
        bytes := LittleEndian(messageId, 8) + LittleEndian(seqNo, 4) + LittleEndian(8 + RecordsSize(Parts()), 4);
        bytes := bytes + StoreContainer(Parts());
        SizeIsStored(Parts());
        assert |StoreContainer(Parts())| == 8 + RecordsSize(Parts());
        StoredTogether(messageId, seqNo, Parts());
      }
    }
  }
}
