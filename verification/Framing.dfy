/** The intermediate transport: every message is preceded by a word with its length. */
module Framing {
  import opened Bytes
  import opened Options
  import opened Streaming

  const TOP_BIT: nat := 0x8000_0000
  const MAX_SIZE: nat := 0x100_0000
  const MAX_PADDING: nat := 15

  datatype Item = Message(data: seq<byte>) | QuickAck(word: nat)

  /** One item at the front of s */
  function NextItem(s: seq<byte>): Step<Item> {
    if |s| < 4 then Wait
    else
      var word := FromLittleEndian(s[..4]);
      if word >= TOP_BIT then Take(QuickAck(word), 4)
      else if |s| < 4 + word then Wait
      else Take(Message(s[4..4 + word]), 4 + word)
  }

  lemma NextItemIsStreaming()
    ensures IsStreaming(NextItem)
  {
    forall a: seq<byte>, b: seq<byte> | !NextItem(a).Wait?
      ensures NextItem(a + b) == NextItem(a)
    {
      assert (a + b)[..4] == a[..4];
      if NextItem(a).Take? && NextItem(a).item.Message? {
        var used := NextItem(a).used;
        assert (a + b)[4..used] == a[4..used];
      }
    }
  }

  /** An item as the other side sends it: a word with the length of the data, or a word with the top bit */
  predicate IsSendable(item: Item) {
    match item
    case Message(data) => |data| < TOP_BIT
    case QuickAck(word) => TOP_BIT <= word < 2 * TOP_BIT
  }

  function EncodeItem(item: Item): seq<byte> {
    match item
    case Message(data) => LittleEndian(|data|, 4) + data
    case QuickAck(word) => LittleEndian(word, 4)
  }

  function Encode(items: seq<Item>): seq<byte> {
    if items == [] then [] else EncodeItem(items[0]) + Encode(items[1..])
  }

  lemma WordRoundTrip(n: nat)
    requires n < 2 * TOP_BIT
    ensures FromLittleEndian(LittleEndian(n, 4)) == n
  {
    assert Pow256(2) == 0x1_0000 && Pow256(4) == 0x1_0000_0000;
    LittleEndianRoundTrip(n, 4);
  }

  lemma ItemRoundTrip(item: Item, rest: seq<byte>)
    requires IsSendable(item)
    ensures NextItem(EncodeItem(item) + rest) == Take(item, |EncodeItem(item)|)
  {
    var s, word := EncodeItem(item) + rest, if item.Message? then |item.data| else item.word;
    WordRoundTrip(word);
    assert s[..4] == LittleEndian(word, 4);
    if item.Message? {
      assert s[4..4 + word] == item.data;
    }
  }

  /** All items come back, in order, and what follows them is left alone. */
  lemma {:induction false} EncodeRoundTrip(items: seq<Item>, rest: seq<byte>)
    requires forall i :: 0 <= i < |items| ==> IsSendable(items[i])
    requires NextItem(rest).Wait?
    ensures IsStreaming(NextItem) && Drain(NextItem, Encode(items) + rest) == Drained(items, rest)
    decreases |items|
  {
    hide NextItem, EncodeItem, IsSendable, IsStreaming, Drain;
    NextItemIsStreaming();
    if items == [] {
      assert [] + rest == rest;
      DrainUnfolds(NextItem, rest);
    } else {
      var front, back := EncodeItem(items[0]), Encode(items[1..]) + rest;
      ItemRoundTrip(items[0], back);
      EncodeRoundTrip(items[1..], rest);
      assert Encode(items) + rest == front + back;
      assert (front + back)[|front|..] == back;
      DrainUnfolds(NextItem, front + back);
    }
  }

  /** A proper prefix of an item is waited for. */
  lemma PartialItemWaits(item: Item, n: nat)
    requires IsSendable(item) && n < |EncodeItem(item)|
    ensures NextItem(EncodeItem(item)[..n]).Wait?
  {
    if n >= 4 {
      WordRoundTrip(|item.data|);
      assert EncodeItem(item)[..n][..4] == LittleEndian(|item.data|, 4);
    }
  }

  // ---------- The reader

  /** ChainBufferReader */
  class InputStream {
    var bytes: seq<byte>

    constructor ()
      ensures bytes == []
    {
      bytes := [];
    }

    method Append(chunk: seq<byte>)
      modifies this
      ensures bytes == old(bytes) + chunk
    {
      bytes := bytes + chunk;
    }

    method Advance(n: nat)
      requires n <= |bytes|
      modifies this
      ensures bytes == old(bytes)[n..]
    {
      bytes := bytes[n..];
    }

    method CutHead(n: nat) returns (head: seq<byte>)
      requires n <= |bytes|
      modifies this
      ensures head == old(bytes)[..n] && bytes == old(bytes)[n..]
    {
      head := bytes[..n];
      bytes := bytes[n..];
    }
  }

  /** IntermediateTransport::read_from_stream: an item and 0, or nothing and the number of bytes to wait for: with fewer
      there is no item, and once its length is there, with as many there is one */
  method ReadFromStream(stream: InputStream) returns (size: nat, item: Option<Item>)
    modifies stream
    ensures size == 0 ==>
              item.Some? && NextItem(old(stream.bytes)).Take? && item.value == NextItem(old(stream.bytes)).item
    ensures size == 0 ==> stream.bytes == old(stream.bytes)[NextItem(old(stream.bytes)).used..]
    ensures size != 0 ==> item == None && NextItem(old(stream.bytes)).Wait?
    ensures size != 0 ==> stream.bytes == old(stream.bytes) && size > |stream.bytes|
    ensures size != 0 ==>
              forall more: seq<byte> :: NextItem(stream.bytes + more).Take? ==> |stream.bytes + more| >= size
    ensures size != 0 && |stream.bytes| >= 4 ==>
              forall more: seq<byte> :: |stream.bytes + more| >= size ==> NextItem(stream.bytes + more).Take?
  {
    var streamSize, headerSize := |stream.bytes|, 4;
    if streamSize < headerSize {
      return headerSize, None;
    }
    var dataSize := FromLittleEndian(stream.bytes[..headerSize]);
    if dataSize >= TOP_BIT {
      stream.Advance(headerSize);
      return 0, Some(QuickAck(dataSize));
    }
    var totalSize := dataSize + headerSize;
    if streamSize < totalSize {
      forall more: seq<byte>
        ensures NextItem(stream.bytes + more).Take? <==> |stream.bytes + more| >= totalSize
      {
        assert (stream.bytes + more)[..4] == stream.bytes[..4];
      }
      return totalSize, None;
    }
    ghost var before := stream.bytes;
    stream.Advance(headerSize);
    var data := stream.CutHead(dataSize);
    assert before[4..][..dataSize] == before[4..totalSize] && before[4..][dataSize..] == before[totalSize..];
    return 0, Some(Message(data));
  }

  /** The loop that reads items for as long as there are complete ones */
  method ReadItems(stream: InputStream) returns (items: seq<Item>, size: nat)
    modifies stream
    ensures IsStreaming(NextItem) && Drain(NextItem, old(stream.bytes)) == Drained(items, stream.bytes)
    ensures size > |stream.bytes|
  {
    hide NextItem, Drain, IsStreaming;
    NextItemIsStreaming();
    items := [];
    assert [] + Drain(NextItem, stream.bytes).items == Drain(NextItem, stream.bytes).items;
    while true
      invariant var now := Drain(NextItem, stream.bytes);
                Drain(NextItem, old(stream.bytes)) == Drained(items + now.items, now.rest)
      decreases |stream.bytes|
    {
      DrainStep(NextItem, items, stream.bytes);
      var item;
      size, item := ReadFromStream(stream);
      if size != 0 {
        return;
      }
      items := items + [item.value];
    }
  }

  /** However the bytes are cut into arriving chunks, the same items come out. */
  method ReadChunks(stream: InputStream, chunks: seq<seq<byte>>) returns (items: seq<Item>)
    requires NextItem(stream.bytes).Wait?
    modifies stream
    ensures IsStreaming(NextItem)
    ensures Drain(NextItem, old(stream.bytes) + Concat(chunks)) == Drained(items, stream.bytes)
    ensures !NextItem(stream.bytes).Take?
  {
    hide NextItem, IsStreaming, Drain;
    NextItemIsStreaming();
    items := [];
    ghost var arrived := stream.bytes;
    DrainUnfolds(NextItem, arrived);
    for i := 0 to |chunks|
      invariant arrived + Concat(chunks[i..]) == old(stream.bytes) + Concat(chunks)
      invariant Drain(NextItem, arrived) == Drained(items, stream.bytes)
    {
      assert chunks[i..][1..] == chunks[i + 1..];
      DrainInPieces(NextItem, arrived, chunks[i]);
      assert arrived + (chunks[i] + Concat(chunks[i + 1..])) == arrived + chunks[i] + Concat(chunks[i + 1..]);
      stream.Append(chunks[i]);
      var more, _ := ReadItems(stream);
      items := items + more;
      arrived := arrived + chunks[i];
    }
    assert arrived + [] == arrived;
    NothingLeft(NextItem, arrived);
  }

  // ---------- The writer

  /** A message as written: the top bit of its word asks for a quick ack. */
  function Frame(message: seq<byte>, quickAck: bool, padding: seq<byte>): seq<byte> {
    LittleEndian(|message| + |padding| + (if quickAck then TOP_BIT else 0), 4) + message + padding
  }

  /** The length stands in the first four bytes, and the request is the highest bit of the fourth. */
  lemma FrameLayout(message: seq<byte>, quickAck: bool, padding: seq<byte>)
    requires |message| < MAX_SIZE && |padding| <= MAX_PADDING
    ensures var n := |message| + |padding|;
            Frame(message, quickAck, padding)
            == [n % 256, n / 256 % 256, n / 0x1_0000 % 256, n / 0x100_0000 + if quickAck then 0x80 else 0]
               + message + padding
  {
    hide LittleEndian, Word;
    var n := |message| + |padding|;
    WordIsLittleEndian(n + if quickAck then TOP_BIT else 0);
    WordWithBit(n);
    WordOf(n);
  }

  lemma WordOf(n: nat)
    requires n / 0x100_0000 < 256
    ensures Word(n) == [n % 256, n / 256 % 256, n / 0x1_0000 % 256, n / 0x100_0000]
  {
  }

  lemma WordWithBit(n: nat)
    requires n < TOP_BIT
    ensures n / 0x100_0000 < 0x80
    ensures Word(n + TOP_BIT) == [n % 256, n / 256 % 256, n / 0x1_0000 % 256, n / 0x100_0000 + 0x80]
  {
    var a := n / 256;
    var b := a / 256;
    Thrice(n);
    Thrice(n + TOP_BIT);
    Shift(n, 0x80_0000);
    Shift(a, 0x8000);
    Shift(b, 0x80);
  }

  lemma Thrice(n: nat)
    ensures n / 256 / 256 == n / 0x1_0000 && n / 256 / 256 / 256 == n / 0x100_0000
  {
  }

  lemma Shift(n: nat, m: nat)
    ensures (n + 256 * m) / 256 == n / 256 + m && (n + 256 * m) % 256 == n % 256
  {
  }

  /** The reader takes a written message back exactly when no quick ack was asked for. */
  lemma FrameRoundTrip(message: seq<byte>, quickAck: bool, padding: seq<byte>, rest: seq<byte>)
    requires |message| < MAX_SIZE && |padding| <= MAX_PADDING
    ensures var step := NextItem(Frame(message, quickAck, padding) + rest);
            step == Take(Message(message + padding), 4 + |message| + |padding|) <==> !quickAck
    ensures quickAck ==>
              NextItem(Frame(message, quickAck, padding) + rest) == Take(QuickAck(TOP_BIT + |message| + |padding|), 4)
  {
    var data := message + padding;
    if quickAck {
      ItemRoundTrip(QuickAck(TOP_BIT + |data|), data + rest);
      assert Frame(message, quickAck, padding) + rest == EncodeItem(QuickAck(TOP_BIT + |data|)) + (data + rest);
    } else {
      ItemRoundTrip(Message(data), rest);
      assert Frame(message, quickAck, padding) == EncodeItem(Message(data));
    }
  }

  /** A message as the other side of the connection reads it, with the request for a quick ack */
  datatype Request = Request(data: seq<byte>, quickAck: bool)

  /** The peer's parser: the low 31 bits of the word are the length. */
  function NextRequest(s: seq<byte>): Step<Request> {
    if |s| < 4 then Wait
    else
      var word := FromLittleEndian(s[..4]);
      var size := if word >= TOP_BIT then word - TOP_BIT else word;
      if |s| < 4 + size then Wait else Take(Request(s[4..4 + size], word >= TOP_BIT), 4 + size)
  }

  lemma NextRequestIsStreaming()
    ensures IsStreaming(NextRequest)
  {
    forall a: seq<byte>, b: seq<byte> | !NextRequest(a).Wait?
      ensures NextRequest(a + b) == NextRequest(a)
    {
      assert (a + b)[..4] == a[..4];
      var used := NextRequest(a).used;
      assert (a + b)[4..used] == a[4..used];
    }
  }

  lemma RequestRoundTrip(message: seq<byte>, quickAck: bool, padding: seq<byte>, rest: seq<byte>)
    requires |message| < MAX_SIZE && |padding| <= MAX_PADDING
    ensures NextRequest(Frame(message, quickAck, padding) + rest)
            == Take(Request(message + padding, quickAck), |Frame(message, quickAck, padding)|)
  {
    var s, n := Frame(message, quickAck, padding) + rest, |message| + |padding|;
    var word := n + if quickAck then TOP_BIT else 0;
    WordRoundTrip(word);
    assert s[..4] == LittleEndian(word, 4);
    assert s[4..4 + n] == message + padding;
  }

  /** BufferWriter: a message in the middle of an array, with room on both sides */
  class BufferWriter {
    const buffer: array<byte>
    var begin: nat
    var end: nat

    ghost predicate Valid()
      reads this
    {
      begin <= end <= buffer.Length
    }

    ghost function Contents(): seq<byte>
      reads this, buffer
      requires Valid()
    {
      buffer[begin..end]
    }

    constructor (message: seq<byte>, prepend: nat, append: nat)
      ensures Valid() && fresh(buffer) && Contents() == message
      ensures begin == prepend && buffer.Length == end + append
    {
      buffer := new byte[prepend + |message| + append](
        i => if prepend <= i < prepend + |message| then message[i - prepend] else 0);
      begin := prepend;
      end := prepend + |message|;
      new;
      assert buffer[begin..end] == message;
    }

    method Store(at: nat, bytes: seq<byte>)
      requires Valid() && at + |bytes| <= buffer.Length
      modifies buffer
      ensures buffer[..] == old(buffer[..at]) + bytes + old(buffer[at + |bytes|..])
    {
      for i := 0 to |bytes|
        invariant buffer[..] == old(buffer[..at]) + bytes[..i] + old(buffer[at + i..])
      {
        buffer[at + i] := bytes[i];
      }
      assert bytes[..|bytes|] == bytes;
    }

    method ConfirmPrepend(n: nat)
      requires Valid() && n <= begin
      modifies this`begin
      ensures Valid() && begin == old(begin) - n && |Contents()| == n + |old(Contents())|
      ensures Contents()[n..] == old(Contents())
    {
      begin := begin - n;
    }

    method Append(bytes: seq<byte>)
      requires Valid() && end + |bytes| <= buffer.Length
      modifies buffer, this`end
      ensures Valid() && end == old(end) + |bytes| && Contents() == old(Contents()) + bytes
    {
      Store(end, bytes);
      end := end + |bytes|;
    }

    method WriteFront(bytes: seq<byte>)
      requires Valid() && |bytes| <= |Contents()|
      modifies buffer
      ensures Contents() == bytes + old(Contents())[|bytes|..]
    {
      Store(begin, bytes);
    }
  }

  /** IntermediateTransport::write_prepare_inplace; `padding` is what the random source yields (none
      without padding), and false is a failed CHECK. */
  method WritePrepareInplace(message: BufferWriter, quickAck: bool, padding: seq<byte>) returns (ok: bool)
    requires message.Valid() && |padding| <= MAX_PADDING
    modifies message, message.buffer
    ensures var size := |old(message.Contents())|;
            ok <==> size % 4 == 0 && size < 0x100_0000 && old(message.begin) >= 4
                    && old(message.end) + |padding| <= message.buffer.Length
    ensures ok ==> message.Valid() && message.Contents() == Frame(old(message.Contents()), quickAck, padding)
    ensures ok ==> message.begin == old(message.begin) - 4 && message.end == old(message.end) + |padding|
  {
    var size := message.end - message.begin;
    if size % 4 != 0 || size >= MAX_SIZE {
      return false;
    }
    if message.begin < 4 {
      return false;
    }
    message.ConfirmPrepend(4);
    if message.buffer.Length - message.end < |padding| {
      return false;
    }
    message.Append(padding);
    message.WriteFront(LittleEndian(size + |padding| + (if quickAck then TOP_BIT else 0), 4));
    return true;
  }
}
