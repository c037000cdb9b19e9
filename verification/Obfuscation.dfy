/** The obfuscated transport: one keystream over everything that is sent, cut into
    TLS records when TLS is emulated. */
module Obfuscation {
  import opened Bytes
  import opened Options
  import opened Streaming
  import opened Framing

  const MAX_TLS_PACKET_LENGTH: nat := 2878
  const HEADER_SIZE: nat := 64
  const PLAIN_SIZE: nat := 56

  // ---------- The keystream

  /** Counter mode (section 6.5 of NIST SP 800-38A): the byte at a position depends on key and counter only. */
  type Keystream = nat -> byte

  function Crypt(s: seq<byte>, ks: Keystream, position: nat): (r: seq<byte>)
    ensures |r| == |s|
  {
    seq(|s|, i requires 0 <= i < |s| => Xor(s[i], ks(position + i)))
  }

  /** A bit comes out turned over exactly if it is on in the keystream at the position of its byte. */
  lemma CryptBits(s: seq<byte>, ks: Keystream, position: nat, j: nat, k: nat)
    requires j < |s| && k < 8
    ensures Bit(Crypt(s, ks, position)[j], k) <==> Bit(s[j], k) != Bit(ks(position + j), k)
  {
    XorBitsAt(s[j], ks(position + j), 8, k);
  }

  lemma CryptTwice(s: seq<byte>, ks: Keystream, position: nat)
    ensures Crypt(Crypt(s, ks, position), ks, position) == s
  {
    hide Xor;
    forall i | 0 <= i < |s|
      ensures Crypt(Crypt(s, ks, position), ks, position)[i] == s[i]
    {
      XorTwice(s[i], ks(position + i));
    }
  }

  lemma CryptConcat(a: seq<byte>, b: seq<byte>, ks: Keystream, position: nat)
    ensures Crypt(a + b, ks, position) == Crypt(a, ks, position) + Crypt(b, ks, position + |a|)
  {
    hide Xor;
  }

  // ---------- TLS records

  const CHANGE_CIPHER_SPEC: seq<byte> := [0x14, 0x03, 0x03, 0x00, 0x01, 0x01]
  const RECORD_TYPE: seq<byte> := [0x17, 0x03, 0x03]

  /** TlsReaderByteFlow::loop on what has arrived */
  function NextRecord(s: seq<byte>): Step<seq<byte>> {
    if |s| < 5 then Wait
    else if s[..3] != RECORD_TYPE then Broken
    else
      var size := 256 * (s[3] as int) + s[4] as int;
      if |s| < 5 + size then Wait else Take(s[5..5 + size], 5 + size)
  }

  lemma NextRecordIsStreaming()
    ensures IsStreaming(NextRecord)
  {
    forall a: seq<byte>, b: seq<byte> | !NextRecord(a).Wait?
      ensures NextRecord(a + b) == NextRecord(a)
    {
      assert (a + b)[..3] == a[..3];
      if NextRecord(a).Take? {
        var used := NextRecord(a).used;
        assert (a + b)[5..used] == a[5..used];
      }
    }
  }

  function Record(payload: seq<byte>): seq<byte>
    requires |payload| < 0x1_0000
  {
    RECORD_TYPE + BigEndian16(|payload|) + payload
  }

  lemma RecordLayout(payload: seq<byte>)
    requires |payload| < 0x1_0000
    ensures Record(payload) == [0x17, 0x03, 0x03, |payload| / 256, |payload| % 256] + payload
  {
  }

  predicate AreSendable(payloads: seq<seq<byte>>) {
    forall i :: 0 <= i < |payloads| ==> 0 < |payloads[i]| <= MAX_TLS_PACKET_LENGTH
  }

  function Records(payloads: seq<seq<byte>>): seq<byte>
    requires forall i :: 0 <= i < |payloads| ==> |payloads[i]| < 0x1_0000
  {
    if payloads == [] then [] else Record(payloads[0]) + Records(payloads[1..])
  }

  lemma RecordRoundTrip(payload: seq<byte>, rest: seq<byte>)
    requires |payload| < 0x1_0000
    ensures NextRecord(Record(payload) + rest) == Take(payload, |Record(payload)|)
  {
    var s := Record(payload) + rest;
    assert s[..3] == RECORD_TYPE && s[3..5] == BigEndian16(|payload|);
    assert s[3] == s[3..5][0] && s[4] == s[3..5][1];
    assert s[5..5 + |payload|] == payload;
  }

  /** The record reader takes every payload back, in order. */
  lemma {:induction false} RecordsRoundTrip(payloads: seq<seq<byte>>)
    requires forall i :: 0 <= i < |payloads| ==> |payloads[i]| < 0x1_0000
    ensures IsStreaming(NextRecord) && Drain(NextRecord, Records(payloads)) == Drained(payloads, [])
    decreases |payloads|
  {
    hide NextRecord, Record;
    NextRecordIsStreaming();
    if payloads != [] {
      var first, others := Record(payloads[0]), Records(payloads[1..]);
      RecordRoundTrip(payloads[0], others);
      RecordsRoundTrip(payloads[1..]);
      assert (first + others)[|first|..] == others;
    }
  }

  lemma {:induction false} RecordsConcat(a: seq<seq<byte>>, b: seq<seq<byte>>)
    requires forall i :: 0 <= i < |a| ==> |a[i]| < 0x1_0000
    requires forall i :: 0 <= i < |b| ==> |b[i]| < 0x1_0000
    ensures Records(a + b) == Records(a) + Records(b)
    decreases |a|
  {
    hide Record;
    if a == [] {
      assert a + b == b && [] + Records(b) == Records(b);
    } else {
      assert (a + b)[1..] == a[1..] + b && (a + b)[0] == a[0];
      RecordsConcat(a[1..], b);
      assert Record(a[0]) + (Records(a[1..]) + Records(b)) == Record(a[0]) + Records(a[1..]) + Records(b);
    }
  }

  lemma {:induction false} PayloadsConcat(a: seq<seq<byte>>, b: seq<seq<byte>>)
    ensures Concat(a + b) == Concat(a) + Concat(b)
    decreases |a|
  {
    if a == [] {
      assert a + b == b && [] + Concat(b) == Concat(b);
    } else {
      assert (a + b)[1..] == a[1..] + b && (a + b)[0] == a[0];
      PayloadsConcat(a[1..], b);
      assert a[0] + (Concat(a[1..]) + Concat(b)) == a[0] + Concat(a[1..]) + Concat(b);
    }
  }

  lemma OneRecord(payload: seq<byte>)
    requires |payload| < 0x1_0000
    ensures Records([payload]) == Record(payload) && Concat([payload]) == payload
  {
    assert [payload][1..] == [];
  }

  // ---------- The writer

  /** Appending to what is encrypted continues the keystream. */
  class AesCtrState {
    const keystream: Keystream
    var position: nat

    constructor (keystream: Keystream)
      ensures this.keystream == keystream && position == 0
    {
      this.keystream := keystream;
      position := 0;
    }

    /** In place on the bytes of a message */
    method EncryptMessage(message: BufferWriter)
      requires message.Valid()
      modifies this, message.buffer
      ensures message.Valid() && message.Contents() == Crypt(old(message.Contents()), keystream, old(position))
      ensures position == old(position) + |message.Contents()|
    {
      hide Xor;
      ghost var plain := message.Contents();
      var size := message.end - message.begin;
      var a, begin, k, start := message.buffer, message.begin, keystream, position;
      for i := 0 to size
        modifies a
        invariant forall j :: 0 <= j < i ==> a[begin + j] == Xor(plain[j], k(start + j))
        invariant forall j :: i <= j < size ==> a[begin + j] == plain[j]
      {
        a[begin + i] := Xor(a[begin + i], k(start + i));
      }
      position := position + size;
    }

    method Encrypt(data: seq<byte>) returns (r: seq<byte>)
      modifies this
      ensures r == Crypt(data, keystream, old(position)) && position == old(position) + |data|
    {
      r := Crypt(data, keystream, position);
      position := position + |data|;
    }
  }

  function Magic(withPadding: bool): byte {
    if withPadding then 0xdd else 0xee
  }

  /** The header before encryption: random bytes, the kind of framing, the data center */
  function PlainHeader(random: seq<byte>, withPadding: bool, dcId: int): (h: seq<byte>)
    requires |random| == HEADER_SIZE && -0x8000 <= dcId < 0x8000
    ensures |h| == HEADER_SIZE
  {
    var m := Magic(withPadding);
    random[..56] + [m, m, m, m]
    + (if dcId == 0 then random[60..62] else LittleEndian(if dcId < 0 then dcId + 0x1_0000 else dcId, 2))
    + random[62..]
  }

  /** The signed 16-bit number at a position */
  function Int16At(s: seq<byte>, i: nat): int
    requires i + 2 <= |s|
  {
    var n := (s[i] as int) + 256 * (s[i + 1] as int);
    if n < 0x8000 then n else n - 0x1_0000
  }

  /** Four marks tell the framing and two bytes the data center, if there is one; all other bytes are random. */
  lemma PlainHeaderShows(random: seq<byte>, withPadding: bool, dcId: int)
    requires |random| == HEADER_SIZE && -0x8000 <= dcId < 0x8000
    ensures var h := PlainHeader(random, withPadding, dcId);
            && FromLittleEndian(h[56..60]) == (if withPadding then 0xdddddddd else 0xeeeeeeee)
            && (if dcId == 0 then h[60..62] == random[60..62] else Int16At(h, 60) == dcId)
            && forall i :: 0 <= i < 64 && !(56 <= i < 62) ==> h[i] == random[i]
  {
    var h, m := PlainHeader(random, withPadding, dcId), Magic(withPadding);
    assert h[56..60] == [m] + [m] + [m] + [m];
    assert Pow256(3) == 0x100_0000 by {
      assert Pow256(2) == 256 * Pow256(1);
    }
    LastByteIsHighest([], m);
    LastByteIsHighest([m], m);
    LastByteIsHighest([m] + [m], m);
    LastByteIsHighest([m] + [m] + [m], m);
    assert [] + [m] == [m];
    if dcId != 0 {
      var n := if dcId < 0 then dcId + 0x1_0000 else dcId;
      assert LittleEndian(n, 2) == [n % 256] + LittleEndian(n / 256, 1) == [n % 256, n / 256];
      assert h[60] == n % 256 && h[61] == n / 256;
    }
  }

  function Reversed(s: seq<byte>): (r: seq<byte>)
    ensures |r| == |s|
  {
    seq(|s|, i requires 0 <= i < |s| => s[|s| - 1 - i])
  }

  /** The keystream of what arrives: its key and counter are those bytes of the header read from the back. */
  function InputKeystream(header: seq<byte>, derive: (seq<byte>, seq<byte>) -> Keystream): Keystream
    requires |header| == HEADER_SIZE
  {
    derive(Reversed(header)[8..40], Reversed(header)[40..56])
  }

  /** Key and counter lie in the plain part, so that the peer finds them in the header as it was sent. */
  lemma InputKeystreamIsShown(start: seq<byte>, sent: seq<byte>, derive: (seq<byte>, seq<byte>) -> Keystream)
    requires |start| == |sent| == HEADER_SIZE && start[..PLAIN_SIZE] == sent[..PLAIN_SIZE]
    ensures InputKeystream(start, derive) == InputKeystream(sent, derive)
    ensures exists key: seq<byte>, counter: seq<byte> ::
              && |key| == 32 && |counter| == 16
              && (forall i :: 0 <= i < 32 ==> key[i] == sent[55 - i])
              && (forall i :: 0 <= i < 16 ==> counter[i] == sent[23 - i])
              && InputKeystream(start, derive) == derive(key, counter)
  {
    var key, counter := Reversed(sent)[8..40], Reversed(sent)[40..56];
    forall i | 8 <= i < 56
      ensures start[i] == sent[i]
    {
      assert start[..PLAIN_SIZE][i] == sent[..PLAIN_SIZE][i];
    }
    assert Reversed(start)[8..40] == key && Reversed(start)[40..56] == counter;
  }

  /** Not what a connection without obfuscation, or with another protocol, would start with */
  predicate IsAccepted(random: seq<byte>) {
    && |random| == HEADER_SIZE
    && random[0] != 0xef
    && FromLittleEndian(random[..4]) !in
         {0x44414548, 0x54534f50, 0x20544547, 0x4954504f, 0xdddddddd, 0xeeeeeeee, 0x02010316}
    && FromLittleEndian(random[4..8]) != 0
  }

  /** The peer's parser takes exactly these requests out of the framed bytes. */
  ghost predicate Holds(framed: seq<byte>, requests: seq<Request>) {
    IsStreaming(NextRequest) && Drain(NextRequest, framed) == Drained(requests, [])
  }

  lemma NoRequests()
    ensures Holds([], [])
  {
    NextRequestIsStreaming();
  }

  lemma RequestsGrow(framed: seq<byte>, requests: seq<Request>, message: seq<byte>, quickAck: bool, padding: seq<byte>)
    requires Holds(framed, requests) && |message| < MAX_SIZE && |padding| <= MAX_PADDING
    ensures Holds(framed + Frame(message, quickAck, padding), requests + [Request(message + padding, quickAck)])
  {
    hide NextRequest, Frame;
    var frame := Frame(message, quickAck, padding);
    RequestRoundTrip(message, quickAck, padding, []);
    assert frame + [] == frame && [] + frame == frame;
    DrainInPieces(NextRequest, framed, frame);
    assert Drain(NextRequest, frame) == Drained([Request(message + padding, quickAck)], []);
  }

  /** The header and the framed messages under one keystream; the header is plain up to its last 8 bytes. */
  function WireOf(start: seq<byte>, framed: seq<byte>, keystream: Keystream): seq<byte>
    requires |start| == HEADER_SIZE
  {
    start[..PLAIN_SIZE] + Crypt(start[PLAIN_SIZE..] + framed, keystream, PLAIN_SIZE)
  }

  lemma WireGrows(start: seq<byte>, framed: seq<byte>, frame: seq<byte>, keystream: Keystream)
    requires |start| == HEADER_SIZE
    ensures WireOf(start, framed + frame, keystream)
            == WireOf(start, framed, keystream) + Crypt(frame, keystream, HEADER_SIZE + |framed|)
  {
    hide Crypt;
    CryptConcat(start[PLAIN_SIZE..] + framed, frame, keystream, PLAIN_SIZE);
    assert start[PLAIN_SIZE..] + framed + frame == start[PLAIN_SIZE..] + (framed + frame);
  }

  lemma RecordSize(payload: seq<byte>)
    requires |payload| < 0x1_0000
    ensures |Record(payload)| == 5 + |payload|
  {
  }

  lemma RecordIsAppended(payloads: seq<seq<byte>>, payload: seq<byte>)
    requires AreSendable(payloads) && 0 < |payload| <= MAX_TLS_PACKET_LENGTH
    ensures AreSendable(payloads + [payload]) && |Record(payload)| == 5 + |payload|
    ensures Concat(payloads + [payload]) == Concat(payloads) + payload
    ensures CHANGE_CIPHER_SPEC + Records(payloads) + Record(payload)
            == CHANGE_CIPHER_SPEC + Records(payloads + [payload])
    ensures payloads == [] ==> payloads + [payload] == [payload] && Records([payload]) == Record(payload)
    ensures Concat([payload]) == payload
  {
    hide Record, Records, Concat;
    RecordsConcat(payloads, [payload]);
    PayloadsConcat(payloads, [payload]);
    OneRecord(payload);
    RecordSize(payload);
    assert CHANGE_CIPHER_SPEC + Records(payloads) + Record(payload)
           == CHANGE_CIPHER_SPEC + (Records(payloads) + Record(payload));
  }

  lemma HeaderParts(start: seq<byte>)
    requires |start| == HEADER_SIZE
    ensures var last := start[PLAIN_SIZE..];
            && last[..4] == start[56..60] && last[4..6] == start[60..62] && last[6..] == start[62..]
            && Int16At(last, 4) == Int16At(start, 60)
  {
  }

  class ObfuscatedTransport {
    const emulateTls: bool
    const withPadding: bool
    const dcId: int
    const inputKeystream: Keystream
    var header: seq<byte>
    var isFirstTlsPacket: bool
    var output: seq<byte>
    var outputState: AesCtrState
    /** The 64 bytes in front of all messages, and the framed messages, before encryption */
    ghost const random: seq<byte>
    ghost const start: seq<byte>
    ghost var framed: seq<byte>
    ghost var requests: seq<Request>
    /** The payloads of the records sent */
    ghost var payloads: seq<seq<byte>>

    /** What is to be sent, without the marks of TLS */
    ghost function Wire(): seq<byte>
      reads this, outputState
      requires |start| == HEADER_SIZE
    {
      WireOf(start, framed, outputState.keystream)
    }

    /** All of it but `rest` has been sent, or the header has not been sent yet. */
    ghost predicate Sent(rest: seq<byte>)
      reads this, outputState
    {
      && |start| == HEADER_SIZE
      && outputState.position == HEADER_SIZE + |framed|
      && (if header != [] then
            |header| == HEADER_SIZE && header + rest == Wire() && payloads == [] && output == [] && isFirstTlsPacket
          else if emulateTls then
            && !isFirstTlsPacket && AreSendable(payloads)
            && output == CHANGE_CIPHER_SPEC + Records(payloads) && Concat(payloads) + rest == Wire()
          else
            output + rest == Wire())
    }

    ghost predicate HasStart() {
      |random| == HEADER_SIZE && -0x8000 <= dcId < 0x8000 && start == PlainHeader(random, withPadding, dcId)
    }

    ghost predicate Valid()
      reads this, outputState
    {
      && HasStart() && Sent([]) && (header == [] <==> framed != [])
      && Holds(framed, requests)
    }

    /** ObfuscatedTransport::init; `derive` makes the keystream from key and counter, which stand in the header. */
    constructor (emulateTls: bool, withPadding: bool, dcId: int, random: seq<byte>,
                 derive: (seq<byte>, seq<byte>) -> Keystream)
      requires |random| == HEADER_SIZE && -0x8000 <= dcId < 0x8000
      requires !emulateTls ==> IsAccepted(random)
      ensures Valid() && fresh(outputState)
      ensures this.emulateTls == emulateTls && this.withPadding == withPadding && this.dcId == dcId && requests == []
      ensures this.random == random && forall i :: 0 <= i < 56 ==> header[i] == random[i]
      ensures inputKeystream == InputKeystream(start, derive)
      ensures outputState.keystream == derive(start[8..40], start[40..56])
      ensures !emulateTls ==>
                && header[0] != 0xef && FromLittleEndian(header[4..8]) != 0
                && FromLittleEndian(header[..4]) !in
                     {0x44414548, 0x54534f50, 0x20544547, 0x4954504f, 0xdddddddd, 0xeeeeeeee, 0x02010316}
    {
      hide Crypt, Holds;
      var h := PlainHeader(random, withPadding, dcId);
      var state := new AesCtrState(derive(h[8..40], h[40..56]));
      var encrypted := state.Encrypt(h);
      CryptConcat(h[..PLAIN_SIZE], h[PLAIN_SIZE..], state.keystream, 0);
      assert h[..PLAIN_SIZE] + h[PLAIN_SIZE..] == h;
      this.emulateTls := emulateTls;
      this.withPadding := withPadding;
      this.dcId := dcId;
      this.random := random;
      inputKeystream := InputKeystream(h, derive);
      outputState := state;
      header := h[..PLAIN_SIZE] + encrypted[PLAIN_SIZE..];
      isFirstTlsPacket := true;
      output := [];
      start := h;
      framed := [];
      requests := [];
      payloads := [];
      new;
      NoRequests();
      assert h[PLAIN_SIZE..] + [] == h[PLAIN_SIZE..] && header + [] == header;
      PlainHeaderShows(random, withPadding, dcId);
      assert header[..8] == random[..8];
      assert header[..4] == random[..8][..4] == random[..4] && header[4..8] == random[..8][4..8] == random[4..8];
    }

    method Write(message: BufferWriter, quickAck: bool, padding: seq<byte>) returns (ok: bool)
      requires Valid() && message.Valid() && |padding| <= MAX_PADDING
      modifies this, outputState, message, message.buffer
      ensures var size := |old(message.Contents())|;
              ok <==> size % 4 == 0 && size < 0x100_0000 && old(message.begin) >= 4
                      && old(message.end) + |padding| <= message.buffer.Length
      ensures ok ==> Valid() && requests == old(requests) + [Request(old(message.Contents()) + padding, quickAck)]
      ensures outputState == old(outputState) && (ok ==> header == [])
      ensures var size := |old(message.Contents())|;
              && size % 4 == 0 && size < 0x100_0000 && old(message.begin) >= old(MaxPrependSize())
              && old(message.end) + MaxAppendSize() <= message.buffer.Length
              ==> ok
      ensures var frameSize := 4 + |old(message.Contents())| + |padding|;
              ok && (emulateTls ==> old(|header|) + frameSize <= MAX_TLS_PACKET_LENGTH) ==>
                |output| == old(|output| + InFront()) + frameSize
    {
      hide HasStart, Xor, PlainHeader, Crypt, Records, Frame, Holds, WireOf, MaxPrependSize, AreSendable, Concat;
      hide NextRequest, IsStreaming, Drain;
      ghost var before, request := Wire(), Request(message.Contents() + padding, quickAck);
      ok := WritePrepareInplace(message, quickAck, padding);
      if !ok {
        return;
      }
      ghost var frame := message.Contents();
      outputState.EncryptMessage(message);
      RequestsGrow(framed, requests, old(message.Contents()), quickAck, padding);
      framed, requests := framed + frame, requests + [request];
      var data := message.buffer[message.begin..message.end];
      WireGrows(start, old(framed), frame, outputState.keystream);
      assert Wire() == before + data && Sent(data);
      if emulateTls {
        DoWriteTls(data);
      } else {
        DoWriteMain(data);
      }
    }

    method DoWriteMain(data: seq<byte>)
      requires Sent(data) && !emulateTls
      modifies this`header, this`output
      ensures Sent([]) && header == [] && |output| == old(|output|) + old(|header|) + |data|
    {
      hide Crypt;
      var message := data;
      if header != [] {
        message := header + message;
        header := [];
      }
      output := output + message;
      assert output + [] == output;
    }

    /** The bytes that a write puts in front of what is framed, if one record is enough */
    function InFront(): nat
      reads this
    {
      |header| + if emulateTls then 5 + if isFirstTlsPacket then |CHANGE_CIPHER_SPEC| else 0 else 0
    }

    /** The room a message must have in front: what the next write puts there, rounded up */
    function MaxPrependSize(): (size: nat)
      reads this
      ensures size % 4 == 0
      ensures 4 + InFront() <= size < 8 + InFront()
    {
      var tls := if emulateTls then if isFirstTlsPacket then 11 else 5 else 0;
      var size := 4 + tls + |header|;
      if size % 4 != 0 then size + (4 - size % 4) else size
    }

    /** The room it must have behind */
    function MaxAppendSize(): nat {
      15
    }

    /** Once something has been written, the peer recovers all of it from the output alone: the messages, the kind
        of framing, the data center, and the keystream that the object expects of the peer. */
    lemma OutputIsReadable(derive: (seq<byte>, seq<byte>) -> Keystream)
      requires Valid() && header == [] && outputState.keystream == derive(start[8..40], start[40..56])
      requires inputKeystream == InputKeystream(start, derive)
      ensures Unwrap(output, emulateTls).Some?
      ensures emulateTls ==>
                && (forall i :: 0 <= i < |payloads| ==> 0 < |payloads[i]| <= 2878)
                && output == [0x14, 0x03, 0x03, 0x00, 0x01, 0x01] + Records(payloads)
      ensures var wire := Unwrap(output, emulateTls).value;
              && |wire| >= HEADER_SIZE && wire[..PLAIN_SIZE] == start[..PLAIN_SIZE] == random[..PLAIN_SIZE]
              && Decrypt(wire, derive)[..HEADER_SIZE - PLAIN_SIZE] == start[PLAIN_SIZE..]
              && Holds(Decrypt(wire, derive)[HEADER_SIZE - PLAIN_SIZE..], requests)
      ensures var wire := Unwrap(output, emulateTls).value;
              var last := Decrypt(wire, derive)[..HEADER_SIZE - PLAIN_SIZE];
              && FromLittleEndian(last[..4]) == (if withPadding then 0xdddddddd else 0xeeeeeeee)
              && (if dcId == 0 then last[4..6] == random[60..62] else Int16At(last, 4) == dcId)
              && last[6..] == random[62..]
              && inputKeystream == InputKeystream(wire[..HEADER_SIZE], derive)
    {
      hide Crypt, Records, Unwrap, Holds, Decrypt;
      assert output + [] == output && Concat(payloads) + [] == Concat(payloads);
      if emulateTls {
        UnwrapRecords(payloads);
      } else {
        UnwrapPlain(output);
      }
      PeerRecovers(start, framed, requests, derive);
      var wire := Unwrap(output, emulateTls).value;
      assert wire == Wire() && Wire()[..PLAIN_SIZE] == start[..PLAIN_SIZE];
      PlainHeaderShows(random, withPadding, dcId);
      assert start[..PLAIN_SIZE] == random[..PLAIN_SIZE] && start[62..] == random[62..];
      HeaderParts(start);
      assert wire[..HEADER_SIZE][..PLAIN_SIZE] == wire[..PLAIN_SIZE];
      InputKeystreamIsShown(start, wire[..HEADER_SIZE], derive);
    }

    /** ObfuscatedTransport::do_write_tls on a message: as few records as fit */
    method DoWriteTls(data: seq<byte>)
      requires Sent(data) && emulateTls && data != []
      modifies this`header, this`output, this`isFirstTlsPacket, this`payloads
      ensures Sent([]) && header == []
      ensures |data| + old(|header|) <= MAX_TLS_PACKET_LENGTH ==> |output| == old(|output| + InFront()) + |data|
    {
      if |data| + |header| > MAX_TLS_PACKET_LENGTH {
        var slice := data;
        while slice != []
          invariant Sent(slice) && (header != [] ==> slice == data)
          decreases |slice|
        {
          var room := MAX_TLS_PACKET_LENGTH - |header|;
          var buf := if |slice| <= room then slice else slice[..room];
          assert slice == buf + slice[|buf|..];
          slice := slice[|buf|..];
          DoWriteRecord(buf, slice);
        }
        return;
      }
      assert data + [] == data;
      DoWriteRecord(data, []);
    }

    /** ObfuscatedTransport::do_write_tls on the contents of one record */
    method DoWriteRecord(data: seq<byte>, ghost rest: seq<byte>)
      requires Sent(data + rest) && emulateTls && data != [] && |header| + |data| <= MAX_TLS_PACKET_LENGTH
      modifies this`header, this`output, this`isFirstTlsPacket, this`payloads
      ensures Sent(rest) && header == [] && |output| == old(|output| + InFront()) + |data|
    {
      hide Crypt, Record, Records, Concat;
      assert header + (data + rest) == header + data + rest;
      assert Concat(payloads) + (data + rest) == Concat(payloads) + data + rest;
      var payload := data;
      if header != [] {
        payload := header + payload;
        header := [];
      }
      RecordIsAppended(payloads, payload);
      var message := Record(payload);
      if isFirstTlsPacket {
        isFirstTlsPacket := false;
        message := CHANGE_CIPHER_SPEC + message;
      }
      output := output + message;
      payloads := payloads + [payload];
    }
  }

  // ---------- The other side

  /** The stream without the marks of TLS: one leading change-cipher-spec record, then whole records */
  ghost function Unwrap(output: seq<byte>, emulateTls: bool): Option<seq<byte>>
  {
    if !emulateTls then Some(output)
    else if |output| < 6 || output[..6] != CHANGE_CIPHER_SPEC then None
    else
      NextRecordIsStreaming();
      var drained := Drain(NextRecord, output[6..]);
      if drained.rest == [] then Some(Concat(drained.items)) else None
  }

  /** Key and counter stand in the plain part of the header; the rest is one keystream from position 56 on. */
  function Decrypt(wire: seq<byte>, derive: (seq<byte>, seq<byte>) -> Keystream): seq<byte>
    requires |wire| >= HEADER_SIZE
  {
    Crypt(wire[PLAIN_SIZE..], derive(wire[8..40], wire[40..56]), PLAIN_SIZE)
  }

  lemma UnwrapRecords(payloads: seq<seq<byte>>)
    requires AreSendable(payloads)
    ensures Unwrap(CHANGE_CIPHER_SPEC + Records(payloads), true) == Some(Concat(payloads))
  {
    hide NextRecord, Records, Concat;
    var output := CHANGE_CIPHER_SPEC + Records(payloads);
    assert output[..6] == CHANGE_CIPHER_SPEC && output[6..] == Records(payloads);
    RecordsRoundTrip(payloads);
  }

  /** From the encrypted stream alone, the peer recovers the header and every message of every write: nothing is
      lost, repeated or reordered. */
  lemma PeerRecovers(start: seq<byte>, framed: seq<byte>, requests: seq<Request>,
                     derive: (seq<byte>, seq<byte>) -> Keystream)
    requires |start| == HEADER_SIZE && Holds(framed, requests)
    ensures var ks := derive(start[8..40], start[40..56]);
            var wire := start[..PLAIN_SIZE] + Crypt(start[PLAIN_SIZE..] + framed, ks, PLAIN_SIZE);
            && Decrypt(wire, derive) == start[PLAIN_SIZE..] + framed
            && Holds(Decrypt(wire, derive)[HEADER_SIZE - PLAIN_SIZE..], requests)
  {
    hide Crypt, Holds;
    var ks, plain := derive(start[8..40], start[40..56]), start[PLAIN_SIZE..] + framed;
    var wire := start[..PLAIN_SIZE] + Crypt(plain, ks, PLAIN_SIZE);
    assert wire[8..40] == start[8..40] && wire[40..56] == start[40..56];
    CryptTwice(plain, ks, PLAIN_SIZE);
    assert wire[PLAIN_SIZE..] == Crypt(plain, ks, PLAIN_SIZE);
    assert plain[HEADER_SIZE - PLAIN_SIZE..] == framed;
  }

  lemma UnwrapPlain(output: seq<byte>)
    ensures Unwrap(output, false) == Some(output)
  {
  }
}
