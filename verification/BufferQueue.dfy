/** The single-producer single-consumer ring of the queue benchmark.

    The memory of the ring is modelled word by word, with the 32-bit counters of
    the source. `Counters` holds the unbounded counts that those words stand for;
    it appears only in invariants. */
module BufferQueue {
  import opened Bytes

  /** qvalue_t */
  type Value = int

  const UINT32_MODULUS: nat := 0x1_0000_0000
  const QUEUE_BUF_SIZE: nat := 1024

  type uint32 = n: nat | n < UINT32_MODULUS

  function Wrap(n: int): uint32 {
    n % UINT32_MODULUS
  }

  /** `writerI` and `readerI` are the two published (atomic) indices. The other
      four words are private to one thread each. */
  datatype Ring = Ring(
    slots: seq<Value>,
    writerI: uint32, writerLocalRead: uint32, writerLocalWrite: uint32,
    readerI: uint32, readerLocalRead: uint32, readerLocalWrite: uint32)

  predicate InitRing(r: Ring) {
    && |r.slots| == QUEUE_BUF_SIZE
    && r.writerI == r.writerLocalRead == r.writerLocalWrite == 0
    && r.readerI == r.readerLocalRead == r.readerLocalWrite == 0
  }

  predicate ReaderEmpty(r: Ring) {
    r.readerLocalWrite == r.readerLocalRead
  }

  predicate WriterEmpty(r: Ring) {
    r.writerLocalWrite == Wrap(r.writerLocalRead + QUEUE_BUF_SIZE)
  }

  function ReaderReady(r: Ring): int {
    ToInt32(Wrap(r.readerLocalWrite - r.readerLocalRead))
  }

  function WriterReady(r: Ring): int {
    ToInt32(Wrap(r.writerLocalRead + QUEUE_BUF_SIZE - r.writerLocalWrite))
  }

  function GetSlot(r: Ring): nat {
    r.readerLocalRead % QUEUE_BUF_SIZE
  }

  function PutSlot(r: Ring): nat {
    r.writerLocalWrite % QUEUE_BUF_SIZE
  }

  /** The value read and the ring afterwards */
  function GetUnsafe(r: Ring): (Value, Ring)
    requires |r.slots| == QUEUE_BUF_SIZE
  {
    (r.slots[GetSlot(r)], r.(readerLocalRead := Wrap(r.readerLocalRead + 1)))
  }

  function PutUnsafe(r: Ring, v: Value): Ring
    requires |r.slots| == QUEUE_BUF_SIZE
  {
    r.(slots := r.slots[PutSlot(r) := v], writerLocalWrite := Wrap(r.writerLocalWrite + 1))
  }

  function FlushReader(r: Ring): Ring { r.(readerI := r.readerLocalRead) }
  function UpdateReader(r: Ring): Ring { r.(readerLocalWrite := r.writerI) }
  function FlushWriter(r: Ring): Ring { r.(writerI := r.writerLocalWrite) }
  function UpdateWriter(r: Ring): Ring { r.(writerLocalRead := r.readerI) }

  /** What the words of the ring count, without wrap-around. `puts` holds every
      value ever written, oldest first. */
  datatype Counters = Counters(
    puts: seq<Value>,
    seenRead: nat, publishedRead: nat, localRead: nat,
    seenWrite: nat, publishedWrite: nat)

  const ZERO_COUNTERS := Counters([], 0, 0, 0, 0, 0)

  /** The chain of counts that keeps the two threads apart */
  ghost predicate Chain(c: Counters) {
    c.seenRead <= c.publishedRead <= c.localRead <= c.seenWrite <= c.publishedWrite <= |c.puts|
      <= c.seenRead + QUEUE_BUF_SIZE
  }

  ghost predicate Represents(r: Ring, c: Counters) {
    && r.writerLocalRead == Wrap(c.seenRead)
    && r.readerI == Wrap(c.publishedRead)
    && r.readerLocalRead == Wrap(c.localRead)
    && r.readerLocalWrite == Wrap(c.seenWrite)
    && r.writerI == Wrap(c.publishedWrite)
    && r.writerLocalWrite == Wrap(|c.puts|)
  }

  /** Every value that was put and not yet got is still in its slot. */
  ghost predicate UnreadIntact(r: Ring, c: Counters)
    requires |r.slots| == QUEUE_BUF_SIZE
  {
    forall i :: c.localRead <= i < |c.puts| ==> r.slots[i % QUEUE_BUF_SIZE] == c.puts[i]
  }

  ghost predicate RingInv(r: Ring, c: Counters) {
    && |r.slots| == QUEUE_BUF_SIZE
    && Chain(c)
    && Represents(r, c)
    && UnreadIntact(r, c)
  }

  // ---------- Wrap-around arithmetic

  lemma WrapSucc(n: nat)
    ensures Wrap(Wrap(n) + 1) == Wrap(n + 1)
  {
    var q, w: int := n / UINT32_MODULUS, Wrap(n);
    assert n == q * UINT32_MODULUS + w;
    if w + 1 == UINT32_MODULUS {
      assert n + 1 == (q + 1) * UINT32_MODULUS;
    } else {
      assert n + 1 == q * UINT32_MODULUS + (w + 1);
    }
  }

  /** The mask picks the same slot before and after wrap-around. */
  lemma WrapKeepsSlot(n: nat)
    ensures Wrap(n) % QUEUE_BUF_SIZE == n % QUEUE_BUF_SIZE
  {
    var q, w := n / UINT32_MODULUS, Wrap(n);
    var a, b := w / QUEUE_BUF_SIZE, w % QUEUE_BUF_SIZE;
    assert n == (q * 0x40_0000 + a) * QUEUE_BUF_SIZE + b;
  }

  lemma WrapDifference(m: nat, n: nat)
    requires m <= n <= m + QUEUE_BUF_SIZE
    ensures Wrap(Wrap(n) - Wrap(m)) == n - m
    ensures Wrap(m + QUEUE_BUF_SIZE) == Wrap(Wrap(m) + QUEUE_BUF_SIZE)
  {
    var p, q := m / UINT32_MODULUS, n / UINT32_MODULUS;
    assert m == p * UINT32_MODULUS + Wrap(m);
    assert n == q * UINT32_MODULUS + Wrap(n);
    assert q == p || q == p + 1;
  }

  lemma WrapInner(m: nat, n: nat)
    ensures Wrap(Wrap(m) - n) == Wrap(m - n)
  {
    var q := m / UINT32_MODULUS;
    assert m - n == q * UINT32_MODULUS + (Wrap(m) - n);
  }

  lemma DistinctSlots(i: nat, j: nat)
    requires i < j < i + QUEUE_BUF_SIZE
    ensures i % QUEUE_BUF_SIZE != j % QUEUE_BUF_SIZE
  {
  }

  // ---------- What the private tests of the two threads mean

  /** The 32-bit comparisons and differences decide exactly the unbounded ones. */
  lemma ReaderReadiness(r: Ring, c: Counters)
    requires Chain(c) && Represents(r, c)
    ensures ReaderEmpty(r) <==> c.localRead == c.seenWrite
    ensures ReaderReady(r) == c.seenWrite - c.localRead
  {
    hide Wrap, ToInt32;
    WrapDifference(c.localRead, c.seenWrite);
    SmallDifference(c.seenWrite - c.localRead);
  }

  /** A difference of at most the buffer size, as a signed number; no difference is zero. */
  lemma SmallDifference(n: nat)
    requires n <= QUEUE_BUF_SIZE
    ensures ToInt32(n) == n && Wrap(0) == 0
  {
  }

  lemma WriterReadiness(r: Ring, c: Counters)
    requires Chain(c) && Represents(r, c)
    ensures WriterEmpty(r) <==> |c.puts| == c.seenRead + QUEUE_BUF_SIZE
    ensures WriterReady(r) == c.seenRead + QUEUE_BUF_SIZE - |c.puts|
  {
    hide Wrap, ToInt32;
    var limit := c.seenRead + QUEUE_BUF_SIZE;
    WrapDifference(|c.puts|, limit);
    WrapDifference(c.seenRead, limit);
    WrapInner(r.writerLocalRead + QUEUE_BUF_SIZE, r.writerLocalWrite);
    SmallDifference(limit - |c.puts|);
  }

  // ---------- Each access keeps the invariant

  lemma PutKeepsInv(r: Ring, c: Counters, v: Value)
    requires RingInv(r, c) && |c.puts| < c.seenRead + QUEUE_BUF_SIZE
    ensures RingInv(PutUnsafe(r, v), c.(puts := c.puts + [v]))
  {
    var n := |c.puts|;
    WrapSucc(n);
    WrapKeepsSlot(n);
    var r', c' := PutUnsafe(r, v), c.(puts := c.puts + [v]);
    forall i | c.localRead <= i < n + 1
      ensures r'.slots[i % QUEUE_BUF_SIZE] == c'.puts[i]
    {
      if i < n {
        DistinctSlots(i, n);
      }
    }
  }

  lemma GetKeepsInv(r: Ring, c: Counters)
    requires RingInv(r, c) && c.localRead < c.seenWrite
    ensures GetUnsafe(r).0 == c.puts[c.localRead]
    ensures RingInv(GetUnsafe(r).1, c.(localRead := c.localRead + 1))
  {
    WrapSucc(c.localRead);
    WrapKeepsSlot(c.localRead);
  }

  lemma FlushesKeepInv(r: Ring, c: Counters)
    requires RingInv(r, c)
    ensures RingInv(FlushReader(r), c.(publishedRead := c.localRead))
    ensures RingInv(FlushWriter(r), c.(publishedWrite := |c.puts|))
    ensures RingInv(UpdateReader(r), c.(seenWrite := c.publishedWrite))
    ensures RingInv(UpdateWriter(r), c.(seenRead := c.publishedRead))
  {
  }

  /** When both threads are at a slot access at the same time, they touch different slots. */
  lemma NoSlotRace(r: Ring, c: Counters)
    requires RingInv(r, c)
    requires c.localRead < c.seenWrite && |c.puts| < c.seenRead + QUEUE_BUF_SIZE
    ensures GetSlot(r) != PutSlot(r)
  {
    WrapKeepsSlot(c.localRead);
    WrapKeepsSlot(|c.puts|);
    DistinctSlots(c.localRead, |c.puts|);
  }
}
