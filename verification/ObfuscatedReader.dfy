/** Reading through three layers: TLS records, the keystream, framing. However the bytes
    of the connection arrive, the same items are delivered. */
module ObfuscatedReader {
  import opened Bytes
  import opened Options
  import opened Streaming
  import opened Framing
  import opened Obfuscation

  /** What the bytes that arrived mean: the encrypted stream inside them */
  ghost function Encrypted(arrived: seq<byte>, emulateTls: bool): seq<byte> {
    NextRecordIsStreaming();
    if emulateTls then Concat(Drain(NextRecord, arrived).items) else arrived
  }

  /** The items in a stream */
  ghost function Items(arrived: seq<byte>, emulateTls: bool, ks: Keystream): seq<Item> {
    NextItemIsStreaming();
    Drain(NextItem, Crypt(Encrypted(arrived, emulateTls), ks, 0)).items
  }

  /** `taken` items have been taken out of all that arrived, and `left` is still to be parsed. */
  ghost predicate Parsed<T(!new)>(next: Parser<T>, arrived: seq<byte>, taken: seq<T>, left: seq<byte>) {
    && IsStreaming(next)
    && Drain(next, arrived) == Drained(taken + Drain(next, left).items, Drain(next, left).rest)
  }

  lemma ParsedArrives<T(!new)>(next: Parser<T>, arrived: seq<byte>, taken: seq<T>, left: seq<byte>, chunk: seq<byte>)
    requires Parsed(next, arrived, taken, left)
    ensures Parsed(next, arrived + chunk, taken, left + chunk)
  {
    hide Drain, IsStreaming;
    DrainInPieces(next, arrived, chunk);
    DrainInPieces(next, left, chunk);
    var second := Drain(next, Drain(next, left).rest + chunk);
    assert taken + Drain(next, left).items + second.items == taken + (Drain(next, left).items + second.items);
  }

  lemma ParsedTake<T(!new)>(next: Parser<T>, arrived: seq<byte>, taken: seq<T>, left: seq<byte>)
    requires Parsed(next, arrived, taken, left)
    ensures next(left).Take? ==>
              0 < next(left).used <= |left| && Parsed(next, arrived, taken + [next(left).item], left[next(left).used..])
    ensures !next(left).Take? ==> Drain(next, arrived) == Drained(taken, left)
  {
    hide Drain;
    DrainStep(next, taken, left);
  }

  lemma NothingParsed<T(!new)>(next: Parser<T>)
    requires IsStreaming(next)
    ensures Parsed(next, [], [], [])
  {
    assert [] + Drain(next, []).items == Drain(next, []).items;
  }

  lemma ConcatAppend(a: seq<seq<byte>>, x: seq<byte>)
    ensures Concat(a + [x]) == Concat(a) + x
    decreases |a|
  {
    if a == [] {
      assert [] + [x] == [x] && [x][1..] == [];
    } else {
      assert (a + [x])[1..] == a[1..] + [x];
      ConcatAppend(a[1..], x);
    }
  }

  class Reader {
    const emulateTls: bool
    const input: InputStream
    const sink: InputStream
    const state: AesCtrState
    var stopped: bool
    /** All that arrived, the records taken out of it, the encrypted bytes inside them, and the items delivered */
    ghost var arrived: seq<byte>
    ghost var records: seq<seq<byte>>
    ghost var passed: seq<byte>
    ghost var delivered: seq<Item>

    ghost predicate Valid()
      reads this, input, sink, state
    {
      && input != sink
      && (if emulateTls then
            && Parsed(NextRecord, arrived, records, input.bytes) && passed == Concat(records)
            && (stopped ==> NextRecord(input.bytes).Broken?)
          else
            arrived == passed + input.bytes)
      && state.position == |passed|
      && Parsed(NextItem, Crypt(passed, state.keystream, 0), delivered, sink.bytes)
    }

    /** All that can be read has been read. */
    ghost predicate Drained()
      reads this, input
    {
      passed == Encrypted(arrived, emulateTls)
    }

    constructor (emulateTls: bool, keystream: Keystream)
      ensures Valid() && fresh(input) && fresh(sink) && fresh(state)
      ensures this.emulateTls == emulateTls && state.keystream == keystream && arrived == [] && delivered == []
    {
      this.emulateTls := emulateTls;
      input := new InputStream();
      sink := new InputStream();
      state := new AesCtrState(keystream);
      stopped := false;
      arrived, records, passed, delivered := [], [], [], [];
      new;
      NextRecordIsStreaming();
      NextItemIsStreaming();
      NothingParsed(NextRecord);
      NothingParsed(NextItem);
    }

    method Feed(chunk: seq<byte>)
      requires Valid()
      modifies this`arrived, input
      ensures Valid() && arrived == old(arrived) + chunk && delivered == old(delivered)
    {
      hide Parsed, NextRecord;
      if emulateTls {
        ParsedArrives(NextRecord, arrived, records, input.bytes, chunk);
        BrokenStays(input.bytes, chunk);
      }
      input.Append(chunk);
      arrived := arrived + chunk;
    }

    /** TlsReaderByteFlow::loop: takes one record, or closes the flow on bytes that are no record */
    method TakeRecord() returns (payload: Option<seq<byte>>)
      modifies this`stopped, input
      ensures payload.Some? <==> NextRecord(old(input.bytes)).Take?
      ensures payload.Some? ==> var step := NextRecord(old(input.bytes));
                                payload.value == step.item && input.bytes == old(input.bytes)[step.used..]
      ensures payload.None? ==> input.bytes == old(input.bytes)
      ensures stopped == (old(stopped) || NextRecord(old(input.bytes)).Broken?)
    {
      ghost var before := input.bytes;
      if |input.bytes| < 5 {
        return None;
      }
      if input.bytes[..3] != RECORD_TYPE {
        stopped := true;
        return None;
      }
      var size := 256 * (input.bytes[3] as int) + input.bytes[4] as int;
      if |input.bytes| - 5 < size {
        return None;
      }
      input.Advance(5);
      var taken := input.CutHead(size);
      assert before[5..][..size] == before[5..5 + size] && before[5..][size..] == before[5 + size..];
      return Some(taken);
    }

    /** The loop of the first layer */
    method TakeRecords() returns (taken: seq<byte>)
      requires Valid() && emulateTls
      modifies this`stopped, this`records, input
      ensures Parsed(NextRecord, arrived, records, input.bytes) && passed + taken == Concat(records)
      ensures stopped ==> NextRecord(input.bytes).Broken?
      ensures Concat(records) == Encrypted(arrived, true)
    {
      hide Parsed, NextRecord, Concat;
      taken := [];
      while true
        invariant Parsed(NextRecord, arrived, records, input.bytes) && passed + taken == Concat(records)
        invariant stopped ==> NextRecord(input.bytes).Broken?
        decreases |input.bytes|
      {
        ParsedTake(NextRecord, arrived, records, input.bytes);
        if stopped {
          return;
        }
        var payload := TakeRecord();
        if payload == None {
          return;
        }
        ConcatAppend(records, payload.value);
        records := records + [payload.value];
        taken := taken + payload.value;
      }
    }

    /** The layers below the framing */
    method Wakeup()
      requires Valid()
      modifies this`stopped, this`records, this`passed, input, sink, state
      ensures Valid() && passed == Encrypted(arrived, emulateTls)
    {
      hide Parsed, NextRecord, Crypt, NextItem;
      var taken;
      if emulateTls {
        taken := TakeRecords();
      } else {
        taken := input.CutHead(|input.bytes|);
        assert arrived == passed + taken;
      }
      CryptConcat(passed, taken, state.keystream, 0);
      var plain := state.Encrypt(taken);
      ParsedArrives(NextItem, Crypt(passed, state.keystream, 0), delivered, sink.bytes, plain);
      sink.Append(plain);
      passed := passed + taken;
    }

    /** ObfuscatedTransport::read_next. When it asks for more bytes, every item in what arrived was delivered. */
    method ReadNext() returns (size: nat, item: Option<Item>)
      requires Valid()
      modifies this`stopped, this`records, this`passed, this`delivered, input, sink, state
      ensures Valid()
      ensures size == 0 ==> item.Some? && delivered == old(delivered) + [item.value]
      ensures size != 0 ==> item == None && delivered == old(delivered) == Items(arrived, emulateTls, state.keystream)
    {
      hide Parsed, NextRecord, Crypt, NextItem;
      Wakeup();
      ParsedTake(NextItem, Crypt(passed, state.keystream, 0), delivered, sink.bytes);
      size, item := ReadFromStream(sink);
      if size == 0 {
        delivered := delivered + [item.value];
      }
    }
  }

  lemma BrokenStays(a: seq<byte>, b: seq<byte>)
    ensures NextRecord(a).Broken? ==> NextRecord(a + b).Broken?
  {
    NextRecordIsStreaming();
  }

  /** If the peer sends some items, encrypted, in records of any size, exactly those items are delivered. */
  lemma PeerItemsArrive(items: seq<Item>, payloads: seq<seq<byte>>, emulateTls: bool, ks: Keystream)
    requires forall i :: 0 <= i < |items| ==> IsSendable(items[i])
    requires forall i :: 0 <= i < |payloads| ==> |payloads[i]| < 0x1_0000
    requires Concat(payloads) == Crypt(Encode(items), ks, 0)
    ensures Items(if emulateTls then Records(payloads) else Concat(payloads), emulateTls, ks) == items
  {
    hide Crypt, NextItem, Encode, NextRecord, Records, Concat;
    CryptTwice(Encode(items), ks, 0);
    NothingWaits();
    EncodeRoundTrip(items, []);
    assert Encode(items) + [] == Encode(items);
    if emulateTls {
      RecordsRoundTrip(payloads);
    }
  }

  lemma NothingWaits()
    ensures NextItem([]).Wait?
  {
  }
}
