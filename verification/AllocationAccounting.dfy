/** The profiled allocator: each block is charged to the slot of its backtrace. */
module AllocationAccounting {
  import opened Bytes
  import opened Options

  /** A block of memory: `size` and `pos` stand in front of the data. Pointers are indices of blocks. */
  datatype Block = Freed | Live(size: int, pos: nat, data: seq<byte>)

  lemma TruncationIsExact(n: nat)
    ensures ToInt32(n) <= n
    ensures ToInt32(n) == n <==> n < 0x8000_0000
  {
  }

  function ChargeOf(block: Block, p: nat): int {
    if block.Live? && block.pos == p then block.size else 0
  }

  /** What the live blocks are charged to slot p */
  function Charged(blocks: seq<Block>, p: nat): int {
    if blocks == [] then 0 else ChargeOf(blocks[0], p) + Charged(blocks[1..], p)
  }

  /** The sizes recorded in the live blocks */
  function Recorded(blocks: seq<Block>): int {
    if blocks == [] then 0 else (if blocks[0].Live? then blocks[0].size else 0) + Recorded(blocks[1..])
  }

  /** The bytes of the live blocks */
  function LiveBytes(blocks: seq<Block>): nat {
    if blocks == [] then 0 else (if blocks[0].Live? then |blocks[0].data| else 0) + LiveBytes(blocks[1..])
  }

  predicate AreBlocks(blocks: seq<Block>, slots: nat) {
    forall k :: 0 <= k < |blocks| && blocks[k].Live? ==>
      blocks[k].pos < slots && blocks[k].size == ToInt32(|blocks[k].data|) >= 0
  }

  lemma {:induction false} ChargedReplace(blocks: seq<Block>, k: nat, block: Block, p: nat)
    requires k < |blocks|
    ensures Charged(blocks[k := block], p) == Charged(blocks, p) - ChargeOf(blocks[k], p) + ChargeOf(block, p)
  {
    if k == 0 {
      assert blocks[k := block][1..] == blocks[1..];
    } else {
      assert blocks[k := block][1..] == blocks[1..][k - 1 := block];
      ChargedReplace(blocks[1..], k - 1, block, p);
    }
  }

  lemma {:induction false} ChargedAppend(blocks: seq<Block>, block: Block, p: nat)
    ensures Charged(blocks + [block], p) == Charged(blocks, p) + ChargeOf(block, p)
  {
    if blocks == [] {
      assert [] + [block] == [block] && [block][1..] == [];
    } else {
      assert (blocks + [block])[1..] == blocks[1..] + [block];
      ChargedAppend(blocks[1..], block, p);
    }
  }

  /** A block is charged no more than its slot holds. */
  lemma {:induction false} ChargeIsCovered(blocks: seq<Block>, slots: nat, k: nat)
    requires AreBlocks(blocks, slots) && k < |blocks| && blocks[k].Live?
    ensures Charged(blocks, blocks[k].pos) >= blocks[k].size
    decreases |blocks|
  {
    ChargesAreNatural(blocks[1..], slots, blocks[k].pos);
    if k > 0 {
      ChargeIsCovered(blocks[1..], slots, k - 1);
    }
  }

  lemma {:induction false} ChargesAreNatural(blocks: seq<Block>, slots: nat, p: nat)
    requires AreBlocks(blocks, slots)
    ensures Charged(blocks, p) >= 0
    decreases |blocks|
  {
    if blocks != [] {
      ChargesAreNatural(blocks[1..], slots, p);
    }
  }

  /** The charges of the slots below n */
  function SlotSum(blocks: seq<Block>, n: nat): int {
    if n == 0 then 0 else SlotSum(blocks, n - 1) + Charged(blocks, n - 1)
  }

  lemma {:induction false} SlotSumFirst(blocks: seq<Block>, n: nat)
    requires blocks != []
    ensures SlotSum(blocks, n)
            == SlotSum(blocks[1..], n) + if blocks[0].Live? && blocks[0].pos < n then blocks[0].size else 0
  {
    if n > 0 {
      SlotSumFirst(blocks, n - 1);
    }
  }

  lemma {:induction false} NoBlocksNoSum(n: nat)
    ensures SlotSum([], n) == 0
  {
    if n > 0 {
      NoBlocksNoSum(n - 1);
    }
  }

  /** Nothing is charged twice or left out. */
  lemma {:induction false} SlotsCoverBlocks(blocks: seq<Block>, slots: nat)
    requires AreBlocks(blocks, slots)
    ensures SlotSum(blocks, slots) == Recorded(blocks)
    decreases |blocks|
  {
    if blocks == [] {
      NoBlocksNoSum(slots);
    } else {
      SlotSumFirst(blocks, slots);
      SlotsCoverBlocks(blocks[1..], slots);
    }
  }

  /** The sum of the counters is the live memory exactly when no live block has 2^31 bytes or more. */
  lemma {:induction false} RecordedIsLive(blocks: seq<Block>, slots: nat)
    requires AreBlocks(blocks, slots)
    ensures Recorded(blocks) <= LiveBytes(blocks)
    ensures Recorded(blocks) == LiveBytes(blocks)
            <==> forall k :: 0 <= k < |blocks| && blocks[k].Live? ==> |blocks[k].data| < 0x8000_0000
    decreases |blocks|
  {
    if blocks != [] {
      RecordedIsLive(blocks[1..], slots);
      if blocks[0].Live? {
        TruncationIsExact(|blocks[0].data|);
      }
      assert forall k :: 0 < k < |blocks| ==> blocks[k] == blocks[1..][k - 1];
    }
  }

  /** A block of 2^32 bytes is counted as empty. */
  lemma HugeBlockIsNotCounted(data: seq<byte>)
    requires |data| == 0x1_0000_0000
    ensures var blocks := [Live(ToInt32(|data|), 0, data)];
            AreBlocks(blocks, 1) && Recorded(blocks) == 0 && LiveBytes(blocks) == 0x1_0000_0000
  {
    var blocks := [Live(ToInt32(|data|), 0, data)];
    assert blocks[1..] == [];
  }

  // ---------- What realloc copies

  /** The smaller one of the two 32-bit sizes */
  function ToCopy(before: seq<byte>, size: nat): (n: int)
    ensures n <= size && n <= |before|
  {
    if ToInt32(size) < ToInt32(|before|) then ToInt32(size) else ToInt32(|before|)
  }

  /** The data after a realloc into a block that holds `garbage` */
  function Reallocated(before: seq<byte>, garbage: seq<byte>): (after: seq<byte>)
    requires ToInt32(|before|) >= 0 && ToInt32(|garbage|) >= 0
    ensures |after| == |garbage|
  {
    before[..ToCopy(before, |garbage|)] + garbage[ToCopy(before, |garbage|)..]
  }

  function Shorter(before: seq<byte>, size: nat): nat {
    if |before| <= size then |before| else size
  }

  /** A block that differs from `before` wherever it has a byte to compare */
  function Unlike(before: seq<byte>, size: nat): (garbage: seq<byte>)
    ensures |garbage| == size
    ensures forall k :: 0 <= k < size && k < |before| ==> garbage[k] != before[k]
  {
    seq(size, k => if 0 <= k < |before| && before[k] == 0 then 1 else 0)
  }

  /** Whatever the new block held, it starts like the old one, as far as both reach, exactly when neither 32-bit size
      falls short of that. Up to 2^31 bytes this is always so. */
  lemma ReallocKeepsStart(before: seq<byte>, size: nat)
    requires ToInt32(|before|) >= 0 && ToInt32(size) >= 0
    ensures (forall garbage: seq<byte> :: |garbage| == size ==>
              var kept := Shorter(before, size); Reallocated(before, garbage)[..kept] == before[..kept])
            <==>
            ToInt32(size) >= Shorter(before, size)
            && ToInt32(|before|) >= Shorter(before, size)
    ensures |before| < 0x8000_0000 && size < 0x8000_0000 ==>
              ToInt32(size) >= Shorter(before, size) && ToInt32(|before|) >= Shorter(before, size)
  {
    var kept, n := Shorter(before, size), ToCopy(before, size);
    if n < kept {
      var garbage := Unlike(before, size);
      assert Reallocated(before, garbage)[..kept][n] == garbage[n] != before[..kept][n];
    } else {
      forall garbage: seq<byte> | |garbage| == size
        ensures Reallocated(before, garbage)[..kept] == before[..kept]
      {
      }
    }
  }

  lemma StartIsKept(before: seq<byte>, garbage: seq<byte>)
    requires ToInt32(|before|) >= 0 && ToInt32(|garbage|) >= 0
    ensures var size, kept, after := |garbage|, Shorter(before, |garbage|), Reallocated(before, garbage);
            && kept <= |after| && kept <= |before|
            && (ToInt32(size) >= kept && ToInt32(|before|) >= kept ==> after[..kept] == before[..kept])
            && (|before| < 0x8000_0000 && size < 0x8000_0000 ==> after[..kept] == before[..kept])
  {
    TruncationIsExact(|before|);
    TruncationIsExact(|garbage|);
    hide ToInt32;
    var kept := Shorter(before, |garbage|);
    if ToCopy(before, |garbage|) >= kept {
      assert Reallocated(before, garbage)[..kept] == before[..kept];
    }
  }

  /** A block of 100 bytes that grows to 2^32 loses all of them. */
  lemma GrowingCanLoseAll(before: seq<byte>, garbage: seq<byte>)
    requires |before| == 100 && |garbage| == 0x1_0000_0000
    ensures Reallocated(before, garbage) == garbage
  {
    assert ToInt32(0x1_0000_0000) == 0;
  }

  class Profiler {
    const sizes: array<int>
    var blocks: seq<Block>

    ghost predicate Valid()
      reads this, sizes
    {
      && AreBlocks(blocks, sizes.Length)
      && forall p :: 0 <= p < sizes.Length ==> sizes[p] == Charged(blocks, p)
    }

    constructor (slots: nat)
      ensures Valid() && fresh(sizes) && blocks == [] && sizes.Length == slots
    {
      sizes := new int[slots](_ => 0);
      blocks := [];
    }

    /** malloc_with_frame with the slot that get_ht_pos found; None is a failed assertion. */
    method Malloc(data: seq<byte>, pos: nat) returns (ptr: Option<nat>)
      requires Valid() && pos < sizes.Length
      modifies this, sizes
      ensures ptr.Some? <==> ToInt32(|data|) >= 0
      ensures ptr.Some? ==>
                && Valid() && ptr.value == |old(blocks)|
                && blocks == old(blocks) + [Live(ToInt32(|data|), pos, data)]
    {
      var info := Live(ToInt32(|data|), pos, data);
      var registered := RegisterAlloc(info);
      if !registered {
        return None;
      }
      forall p | 0 <= p < sizes.Length
        ensures sizes[p] == Charged(blocks + [info], p)
      {
        ChargedAppend(blocks, info, p);
      }
      blocks := blocks + [info];
      return Some(|blocks| - 1);
    }

    /** register_xalloc with a positive difference */
    method RegisterAlloc(info: Block) returns (ok: bool)
      requires info.Live? && info.pos < sizes.Length
      modifies sizes
      ensures ok == (info.size >= 0)
      ensures ok ==> forall p :: 0 <= p < sizes.Length ==> sizes[p] == old(sizes[p]) + ChargeOf(info, p)
    {
      if info.size < 0 {
        return false;
      }
      sizes[info.pos] := sizes[info.pos] + info.size;
      return true;
    }

    /** register_xalloc with a negative difference */
    method RegisterFree(info: Block) returns (ok: bool)
      requires info.Live? && info.pos < sizes.Length
      modifies sizes
      ensures ok == (0 <= info.size <= old(sizes[info.pos]))
      ensures ok ==> forall p :: 0 <= p < sizes.Length ==> sizes[p] == old(sizes[p]) - ChargeOf(info, p)
    {
      if info.size < 0 {
        return false;
      }
      var oldValue := sizes[info.pos];
      sizes[info.pos] := oldValue - info.size;
      return oldValue >= info.size;
    }

    /** free: fails only on a pointer that is no live block; the counter never underflows. */
    method Free(ptr: nat) returns (ok: bool)
      requires Valid()
      modifies this, sizes
      ensures ok <==> ptr < |old(blocks)| && old(blocks)[ptr].Live?
      ensures ok ==> Valid() && blocks == old(blocks)[ptr := Freed]
      ensures !ok ==> Valid() && blocks == old(blocks)
    {
      if ptr >= |blocks| || blocks[ptr].Freed? {
        return false;
      }
      ChargeIsCovered(blocks, sizes.Length, ptr);
      ok := RegisterFree(blocks[ptr]);
      forall p | 0 <= p < sizes.Length
        ensures sizes[p] == Charged(blocks[ptr := Freed], p)
      {
        ChargedReplace(blocks, ptr, Freed, p);
      }
      blocks := blocks[ptr := Freed];
    }

    /** realloc of a live block; ReallocKeepsStart says when the start of the old data survives. */
    method Realloc(ptr: nat, size: nat, garbage: seq<byte>, pos: nat) returns (r: Option<nat>)
      requires Valid() && pos < sizes.Length && |garbage| == size && ptr < |blocks| && blocks[ptr].Live?
      modifies this, sizes
      ensures r.Some? <==> ToInt32(size) >= 0
      ensures r.Some? ==>
                && Valid() && r.value == |old(blocks)| && |blocks| == |old(blocks)| + 1
                && ToInt32(|old(blocks)[ptr].data|) >= 0
                && blocks[..r.value] == old(blocks)[ptr := Freed]
                && blocks[r.value].Live? && blocks[r.value].pos == pos
                && var before, after := old(blocks)[ptr].data, blocks[r.value].data;
                   var kept := Shorter(before, size);
                   && after == Reallocated(before, garbage)
                   && (ToInt32(size) >= kept && ToInt32(|before|) >= kept ==> after[..kept] == before[..kept])
                   && (|before| < 0x8000_0000 && size < 0x8000_0000 ==> after[..kept] == before[..kept])
    {
      hide Charged, Shorter;
      var info := blocks[ptr];
      r := Malloc(garbage, pos);
      if r == None {
        return;
      }
      var toCopy := if ToInt32(size) < info.size then ToInt32(size) else info.size;
      var data := info.data[..toCopy] + garbage[toCopy..];
      assert data == Reallocated(info.data, garbage);
      StartIsKept(info.data, garbage);
      hide Reallocated, ToInt32, ToCopy;
      var copied := blocks[r.value].(data := data);
      forall p | 0 <= p < sizes.Length
        ensures sizes[p] == Charged(blocks[r.value := copied], p)
      {
        ChargedReplace(blocks, r.value, copied, p);
      }
      blocks := blocks[r.value := copied];
      var freed := Free(ptr);
      assert freed;
    }

    /** get_used_memory_size, over all slots with a non-zero counter */
    method UsedMemory() returns (used: int)
      requires Valid()
      ensures used == Recorded(blocks)
      ensures used == LiveBytes(blocks)
              <==> forall k :: 0 <= k < |blocks| && blocks[k].Live? ==> |blocks[k].data| < 0x8000_0000
    {
      used := 0;
      for p := 0 to sizes.Length
        invariant used == SlotSum(blocks, p)
      {
        if sizes[p] != 0 {
          used := used + sizes[p];
        }
      }
      SlotsCoverBlocks(blocks, sizes.Length);
      RecordedIsLive(blocks, sizes.Length);
    }
  }
}
