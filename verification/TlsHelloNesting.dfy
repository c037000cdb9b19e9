/** Scopes at any depth: where the parts of a shuffled permutation end up in the buffer, and with them their scopes. */
module TlsHelloNesting {
  import opened Bytes
  import opened TlsHello
  import opened TlsHelloScopes

  lemma {:induction false} StoredPart(parts: seq<Part>, draws: seq<seq<Draw>>, ctx: Context, i: nat)
    requires |parts| == |draws| && forall j :: 0 <= j < |parts| ==> FitsOps(parts[j].ops, draws[j])
    requires StoreParts(parts, draws, ctx).Some? && i < |parts|
    ensures StoreOps([[]], parts[i].ops, draws[i], ctx).Some?
    ensures StoreParts(parts, draws, ctx).value[i] == Flatten(StoreOps([[]], parts[i].ops, draws[i], ctx).value)
    decreases |parts|
  {
    if i > 0 {
      StoredPart(parts[1..], draws[1..], ctx, i - 1);
    }
  }

  lemma {:induction false} ConcatHolds(parts: seq<seq<byte>>, q: nat)
    requires q < |parts|
    ensures var at := TotalLength(parts[..q]);
            at + |parts[q]| <= |Concat(parts)| && Concat(parts)[at..at + |parts[q]|] == parts[q]
    decreases |parts|
  {
    if q > 0 {
      ConcatHolds(parts[1..], q - 1);
      assert parts[..q][1..] == parts[1..][..q - 1];
      var at := TotalLength(parts[1..][..q - 1]);
      assert Concat(parts)[|parts[0]| + at..|parts[0]| + at + |parts[q]|] == Concat(parts[1..])[at..at + |parts[q]|];
    }
  }

  lemma SliceOfSlice(s: seq<byte>, a: nat, n: nat, b: nat, m: nat)
    requires a + n <= |s| && b + m <= n
    ensures s[a..a + n][b..b + m] == s[a + b..a + b + m]
  {
    var slice := s[a..a + n];
    var left, right := slice[b..b + m], s[a + b..a + b + m];
    forall k | 0 <= k < m
      ensures left[k] == right[k]
    {
      assert left[k] == slice[b + k] == s[a + b + k];
    }
  }

  // ---------- Parts

  /** Op k is a permutation with a part p. */
  predicate HasPart(ops: seq<Op>, k: nat, p: nat) {
    k < |ops| && ops[k].Permutation? && p < |ops[k].parts|
  }

  lemma PartIsStored(ops: seq<Op>, draws: seq<Draw>, ctx: Context, k: nat, p: nat)
    requires FitsOps(ops, draws) && StoreOps([[]], ops, draws, ctx).Some? && HasPart(ops, k, p)
    ensures |draws| == |ops| && FitsOp(ops[k], draws[k]) && FitsOps(ops[k].parts[p].ops, draws[k].draws[p])
    ensures StoreParts(ops[k].parts, draws[k].draws, ctx).Some?
    ensures StoreOps([[]], ops[k].parts[p].ops, draws[k].draws[p], ctx).Some?
    ensures StoreParts(ops[k].parts, draws[k].draws, ctx).value[p]
            == Flatten(StoreOps([[]], ops[k].parts[p].ops, draws[k].draws[p], ctx).value)
  {
    hide StoreOps;
    assert FitsOp(ops[k], draws[k]);
    StoreOpsSplits([[]], ops, draws, ctx, k);
    FirstOpIsStored(StoreOps([[]], ops[..k], draws[..k], ctx).value, ops[k..], draws[k..], ctx);
    StoredPart(ops[k].parts, draws[k].draws, ctx, p);
  }

  lemma FirstOpIsStored(fs: Frames, ops: seq<Op>, draws: seq<Draw>, ctx: Context)
    requires FitsOps(ops, draws) && ops != [] && StoreOps(fs, ops, draws, ctx).Some?
    ensures FitsOp(ops[0], draws[0]) && FitsOps(ops[1..], draws[1..]) && StoreOp(fs, ops[0], draws[0], ctx).Some?
    ensures StoreOps(StoreOp(fs, ops[0], draws[0], ctx).value, ops[1..], draws[1..], ctx)
            == StoreOps(fs, ops, draws, ctx)
  {
  }

  /** Where the shuffle puts part p */
  ghost function PositionOf(order: seq<nat>, n: nat, p: nat): (q: nat)
    requires IsOrder(order, n) && p < n
    ensures q < n && order[q] == p
  {
    assert p in order;
    var q :| 0 <= q < n && order[q] == p;
    q
  }

  /** Where part p of op k begins in the buffer: behind what is stored before the op, and behind the parts that the
      shuffle puts in front of it */
  ghost function PartPlace(ops: seq<Op>, draws: seq<Draw>, ctx: Context, k: nat, p: nat): nat
    requires FitsOps(ops, draws) && StoreOps([[]], ops, draws, ctx).Some? && HasPart(ops, k, p)
  {
    PartIsStored(ops, draws, ctx, k, p);
    var stored, order := StoreParts(ops[k].parts, draws[k].draws, ctx).value, draws[k].order;
    Offset(ops, draws, ctx, k) + TotalLength(Reorder(stored, order)[..PositionOf(order, |stored|, p)])
  }

  /** Every part stands in the buffer as it was stored on its own. */
  lemma PartInPlace(ops: seq<Op>, draws: seq<Draw>, ctx: Context, k: nat, p: nat)
    requires FitsOps(ops, draws) && StoreOps([[]], ops, draws, ctx).Some? && HasPart(ops, k, p)
    ensures |draws| == |ops| && FitsOp(ops[k], draws[k]) && FitsOps(ops[k].parts[p].ops, draws[k].draws[p])
    ensures StoreOps([[]], ops[k].parts[p].ops, draws[k].draws[p], ctx).Some?
    ensures var out, at := Flatten(StoreOps([[]], ops, draws, ctx).value), PartPlace(ops, draws, ctx, k, p);
            var part := Flatten(StoreOps([[]], ops[k].parts[p].ops, draws[k].draws[p], ctx).value);
            at + |part| <= |out| && out[at..at + |part|] == part
  {
    hide StoreOps, StoreParts, FitsOps, IsOrder, TotalLength, Concat, Flatten, PositionOf;
    PartIsStored(ops, draws, ctx, k, p);
    StoreOpsSplits([[]], ops, draws, ctx, k);
    var before := StoreOps([[]], ops[..k], draws[..k], ctx).value;
    FirstOpIsStored(before, ops[k..], draws[k..], ctx);
    var stored, order := StoreParts(ops[k].parts, draws[k].draws, ctx).value, draws[k].order;
    var shuffled, q := Reorder(stored, order), PositionOf(order, |stored|, p);
    AppendedStays(before, Concat(shuffled), ops[k..][1..], draws[k..][1..], ctx);
    ConcatHolds(shuffled, q);
    var out, begin, at := Flatten(StoreOps([[]], ops, draws, ctx).value), |Flatten(before)|, TotalLength(shuffled[..q]);
    SliceOfSlice(out, begin, |Concat(shuffled)|, at, |stored[p]|);
  }

  // ---------- Scopes

  /** Ops i and j are the marks of a scope in the part that is reached through the permutations along the path: at
      each step an op and one of its parts. */
  predicate HasScope(ops: seq<Op>, path: seq<(nat, nat)>, i: nat, j: nat)
    decreases |path|
  {
    if path == [] then Encloses(ops, i, j)
    else HasPart(ops, path[0].0, path[0].1) && HasScope(ops[path[0].0].parts[path[0].1].ops, path[1..], i, j)
  }

  /** Op i of the part that is reached along the path */
  predicate BeginsScope(ops: seq<Op>, path: seq<(nat, nat)>, i: nat)
    decreases |path|
  {
    if path == [] then i < |ops| && ops[i].BeginScope?
    else HasPart(ops, path[0].0, path[0].1) && BeginsScope(ops[path[0].0].parts[path[0].1].ops, path[1..], i)
  }

  /** Every opening mark of a balanced program, at any depth, is that of a scope. */
  lemma {:induction false} EveryBeginIsOfAScope(ops: seq<Op>, depth: nat, path: seq<(nat, nat)>, i: nat)
    returns (j: nat)
    requires Balanced(ops, depth) && BeginsScope(ops, path, i)
    ensures HasScope(ops, path, i, j)
    decreases |path|
  {
    if path == [] {
      j := BeginHasEnd(ops, depth, i);
    } else {
      var (k, p) := path[0];
      var open := RestIsBalanced(ops, depth, k);
      assert ops[k..][0] == ops[k];
      j := EveryBeginIsOfAScope(ops[k].parts[p].ops, 0, path[1..], i);
    }
  }

  /** Where the scope begins in the buffer */
  ghost function ScopePlace(ops: seq<Op>, draws: seq<Draw>, ctx: Context, path: seq<(nat, nat)>, i: nat, j: nat): nat
    requires FitsOps(ops, draws) && StoreOps([[]], ops, draws, ctx).Some? && HasScope(ops, path, i, j)
    decreases |path|
  {
    if path == [] then Offset(ops, draws, ctx, i)
    else
      var (k, p) := path[0];
      PartIsStored(ops, draws, ctx, k, p);
      PartPlace(ops, draws, ctx, k, p) + ScopePlace(ops[k].parts[p].ops, draws[k].draws[p], ctx, path[1..], i, j)
  }

  /** What the ops inside the scope store on their own */
  ghost function ScopeContents(ops: seq<Op>, draws: seq<Draw>, ctx: Context, path: seq<(nat, nat)>, i: nat, j: nat)
    : seq<byte>
    requires FitsOps(ops, draws) && StoreOps([[]], ops, draws, ctx).Some? && HasScope(ops, path, i, j)
    decreases |path|
  {
    if path == [] then Contents(ops, draws, ctx, i, j)
    else
      var (k, p) := path[0];
      PartIsStored(ops, draws, ctx, k, p);
      ScopeContents(ops[k].parts[p].ops, draws[k].draws[p], ctx, path[1..], i, j)
  }

  /** Once all ops have been stored, every scope, however deep in however many shuffled permutations, consists of the
      two bytes of its length and of its contents. TlsHelloSigned says what the hash leaves of it. */
  lemma {:induction false} EveryScopeHoldsItsLength(ops: seq<Op>, draws: seq<Draw>, ctx: Context, path: seq<(nat, nat)>,
                                                   i: nat, j: nat)
    requires FitsOps(ops, draws) && StoreOps([[]], ops, draws, ctx).Some? && HasScope(ops, path, i, j)
    ensures var out := Flatten(StoreOps([[]], ops, draws, ctx).value);
            var at, content := ScopePlace(ops, draws, ctx, path, i, j), ScopeContents(ops, draws, ctx, path, i, j);
            && |content| < MAX_SCOPE && at + 2 + |content| <= |out|
            && out[at..at + 2 + |content|] == BigEndian16(|content|) + content
    decreases |path|
  {
    hide StoreOps, StoreParts, FitsOps, Flatten, Offset, Contents, PartPlace;
    if path == [] {
      ScopeHoldsItsLength(ops, draws, ctx, i, j);
    } else {
      var (k, p) := path[0];
      PartInPlace(ops, draws, ctx, k, p);
      EveryScopeHoldsItsLength(ops[k].parts[p].ops, draws[k].draws[p], ctx, path[1..], i, j);
      var out, at := Flatten(StoreOps([[]], ops, draws, ctx).value), PartPlace(ops, draws, ctx, k, p);
      var part := Flatten(StoreOps([[]], ops[k].parts[p].ops, draws[k].draws[p], ctx).value);
      var inner := ScopePlace(ops[k].parts[p].ops, draws[k].draws[p], ctx, path[1..], i, j);
      var size := 2 + |ScopeContents(ops, draws, ctx, path, i, j)|;
      SliceOfSlice(out, at, |part|, inner, size);
    }
  }
}
