/** Every scope of a stored hello starts with the big-endian length of its contents. */
module TlsHelloScopes {
  import opened Options
  import opened Bytes
  import opened TlsHello

  /** Position p holds a byte that is not a placeholder of an open scope. */
  ghost predicate Settled(fs: Frames, p: nat) {
    && p < |Flatten(fs)|
    && forall k :: 0 < k < |fs| ==> !(|Flatten(fs[..k])| <= p < |Flatten(fs[..k])| + 2)
  }

  lemma {:induction false} OuterFramesComeFirst(fs: Frames, k: nat)
    requires 0 < k < |fs|
    ensures |Flatten(fs[..k])| + 2 <= |Flatten(fs)|
    decreases |fs|
  {
    var last := |fs| - 1;
    if k < last {
      OuterFramesComeFirst(fs[..last], k);
      assert fs[..last][..k] == fs[..k];
    }
  }

  /** Appending leaves the buffer as it is, up to its end. */
  lemma AppendSettles(fs: Frames, bytes: seq<byte>, p: nat)
    requires Settled(fs, p)
    ensures Settled(Append(fs, bytes), p) && Flatten(Append(fs, bytes))[p] == Flatten(fs)[p]
  {
    AppendFlattens(fs, bytes);
    forall k | 0 < k < |fs|
      ensures Append(fs, bytes)[..k] == fs[..k]
    {
    }
  }

  lemma BeginSettles(fs: Frames, p: nat)
    requires Settled(fs, p)
    ensures Settled(fs + [[]], p) && Flatten(fs + [[]])[p] == Flatten(fs)[p]
  {
    var fs' := fs + [[]];
    forall k | 0 < k <= |fs|
      ensures fs'[..k] == fs[..k]
    {
    }
    assert fs'[..|fs|] == fs;
  }

  lemma PatchKeeps(outer: seq<byte>, old2: seq<byte>, new2: seq<byte>, content: seq<byte>, p: nat)
    requires |old2| == |new2| == 2 && p < |outer + old2 + content| && !(|outer| <= p < |outer| + 2)
    ensures p < |outer + new2 + content| && (outer + new2 + content)[p] == (outer + old2 + content)[p]
  {
  }

  lemma EndSettles(fs: Frames, p: nat)
    requires |fs| > 1 && |fs[|fs| - 1]| < MAX_SCOPE && Settled(fs, p)
    ensures var last := |fs| - 1;
            var fs' := Append(fs[..last], BigEndian16(|fs[last]|) + fs[last]);
            Settled(fs', p) && Flatten(fs')[p] == Flatten(fs)[p]
  {
    var last := |fs| - 1;
    var fs' := Append(fs[..last], BigEndian16(|fs[last]|) + fs[last]);
    FlattenLast(fs);
    hide Flatten, Append;
    EndFlattens(fs);
    EndKeepsOuter(fs);
    PatchKeeps(Flatten(fs[..last]), [0, 0], BigEndian16(|fs[last]|), fs[last], p);
  }

  lemma FlattenLast(fs: Frames)
    requires |fs| > 1
    ensures Flatten(fs) == Flatten(fs[..|fs| - 1]) + [0, 0] + fs[|fs| - 1]
  {
  }

  lemma EndKeepsOuter(fs: Frames)
    requires |fs| > 1 && |fs[|fs| - 1]| < MAX_SCOPE
    ensures var last := |fs| - 1;
            var fs' := Append(fs[..last], BigEndian16(|fs[last]|) + fs[last]);
            |fs'| == last && forall k :: 0 < k < last ==> fs'[..k] == fs[..k]
  {
  }

  lemma OpSettles(fs: Frames, op: Op, draw: Draw, ctx: Context, p: nat)
    requires FitsOp(op, draw) && StoreOp(fs, op, draw, ctx).Some? && Settled(fs, p)
    ensures var fs' := StoreOp(fs, op, draw, ctx).value;
            Settled(fs', p) && Flatten(fs')[p] == Flatten(fs)[p]
  {
    if op.BeginScope? {
      BeginSettles(fs, p);
    } else if op.EndScope? {
      EndSettles(fs, p);
    } else {
      var bytes := Appended(fs, op, draw, ctx);
      AppendSettles(fs, bytes, p);
    }
  }

  lemma {:induction false} OpsSettle(fs: Frames, ops: seq<Op>, draws: seq<Draw>, ctx: Context, p: nat)
    requires FitsOps(ops, draws) && StoreOps(fs, ops, draws, ctx).Some? && Settled(fs, p)
    ensures var fs' := StoreOps(fs, ops, draws, ctx).value;
            Settled(fs', p) && Flatten(fs')[p] == Flatten(fs)[p]
    decreases |ops|
  {
    if ops != [] {
      OpSettles(fs, ops[0], draws[0], ctx, p);
      OpsSettle(StoreOp(fs, ops[0], draws[0], ctx).value, ops[1..], draws[1..], ctx, p);
    }
  }

  lemma {:induction false} StoreOpsSplits(fs: Frames, ops: seq<Op>, draws: seq<Draw>, ctx: Context, k: nat)
    requires FitsOps(ops, draws) && k <= |ops| && StoreOps(fs, ops, draws, ctx).Some?
    ensures FitsOps(ops[..k], draws[..k]) && FitsOps(ops[k..], draws[k..])
    ensures StoreOps(fs, ops[..k], draws[..k], ctx).Some?
    ensures StoreOps(StoreOps(fs, ops[..k], draws[..k], ctx).value, ops[k..], draws[k..], ctx)
            == StoreOps(fs, ops, draws, ctx)
    decreases |ops|
  {
    if k == 0 {
      assert ops[0..] == ops && draws[0..] == draws;
    } else {
      StoreOpsSplits(StoreOp(fs, ops[0], draws[0], ctx).value, ops[1..], draws[1..], ctx, k - 1);
      assert ops[..k][1..] == ops[1..][..k - 1] && draws[..k][1..] == draws[1..][..k - 1];
      assert ops[k..] == ops[1..][k - 1..] && draws[k..] == draws[1..][k - 1..];
    }
  }

  /** Balanced ops leave the enclosing frames alone. */
  lemma {:induction false} OuterFramesStay(fs: Frames, ops: seq<Op>, draws: seq<Draw>, depth: nat, ctx: Context)
    requires FitsOps(ops, draws) && StoreOps(fs, ops, draws, ctx).Some? && Balanced(ops, depth) && depth < |fs|
    ensures var fs' := StoreOps(fs, ops, draws, ctx).value;
            |fs'| == |fs| - depth && fs'[..|fs'| - 1] == fs[..|fs'| - 1]
    decreases |ops|
  {
    if ops != [] {
      var fs1 := StoreOp(fs, ops[0], draws[0], ctx).value;
      var depth' := if ops[0].BeginScope? then depth + 1 else if ops[0].EndScope? then depth - 1 else depth;
      OuterFramesStay(fs1, ops[1..], draws[1..], depth', ctx);
      var n := |fs| - depth - 1;
      assert fs1[..n] == fs[..n];
    }
  }

  /** The scope opened by op i is closed by op j. */
  predicate Encloses(ops: seq<Op>, i: nat, j: nat) {
    i < j < |ops| && ops[i].BeginScope? && ops[j].EndScope? && Balanced(ops[i + 1..j], 0)
  }

  /** From any op on, the rest of a balanced program closes the scopes that are open there. */
  lemma {:induction false} RestIsBalanced(ops: seq<Op>, depth: nat, i: nat) returns (open: nat)
    requires Balanced(ops, depth) && i <= |ops|
    ensures Balanced(ops[i..], open)
    decreases |ops|
  {
    if i == 0 {
      assert ops[0..] == ops;
      return depth;
    }
    var depth' := if ops[0].BeginScope? then depth + 1 else if ops[0].EndScope? then depth - 1 else depth;
    open := RestIsBalanced(ops[1..], depth', i - 1);
    assert ops[1..][i - 1..] == ops[i..];
  }

  /** Of `depth` open scopes, all but the innermost `inner` ones are still open in front of some closing mark. */
  lemma {:induction false} ScopeCloses(ops: seq<Op>, depth: nat, inner: nat) returns (j: nat)
    requires Balanced(ops, depth) && inner < depth
    ensures j < |ops| && ops[j].EndScope? && Balanced(ops[..j], inner)
    decreases |ops|
  {
    if ops[0].EndScope? && inner == 0 {
      return 0;
    }
    var change := if ops[0].BeginScope? then 1 else if ops[0].EndScope? then -1 else 0;
    j := ScopeCloses(ops[1..], depth + change, inner + change);
    assert ops[..j + 1][1..] == ops[1..][..j];
    j := j + 1;
  }

  /** In a balanced program every scope that is opened is closed. */
  lemma BeginHasEnd(ops: seq<Op>, depth: nat, i: nat) returns (j: nat)
    requires Balanced(ops, depth) && i < |ops| && ops[i].BeginScope?
    ensures Encloses(ops, i, j)
  {
    var open := RestIsBalanced(ops, depth, i);
    assert ops[i..][1..] == ops[i + 1..];
    j := ScopeCloses(ops[i + 1..], open + 1, 0);
    assert ops[i + 1..][..j] == ops[i + 1..i + 1 + j];
    j := i + 1 + j;
  }

  /** Where the buffer ends before op k */
  ghost function Offset(ops: seq<Op>, draws: seq<Draw>, ctx: Context, k: nat): nat
    requires FitsOps(ops, draws) && k <= |ops| && StoreOps([[]], ops, draws, ctx).Some?
  {
    StoreOpsSplits([[]], ops, draws, ctx, k);
    |Flatten(StoreOps([[]], ops[..k], draws[..k], ctx).value)|
  }

  /** What has been appended keeps its place and its bytes, whatever is stored after it. */
  lemma AppendedStays(fs: Frames, bytes: seq<byte>, ops: seq<Op>, draws: seq<Draw>, ctx: Context)
    requires FitsOps(ops, draws) && StoreOps(Append(fs, bytes), ops, draws, ctx).Some?
    ensures var out, begin := Flatten(StoreOps(Append(fs, bytes), ops, draws, ctx).value), |Flatten(fs)|;
            begin + |bytes| <= |out| && out[begin..begin + |bytes|] == bytes
  {
    hide StoreOps, FitsOps, Flatten;
    var after, begin := Append(fs, bytes), |Flatten(fs)|;
    var out := Flatten(StoreOps(after, ops, draws, ctx).value);
    AppendFlattens(fs, bytes);
    LengthGrows(after, ops, draws, ctx);
    forall k | 0 < k < |after|
      ensures |Flatten(after[..k])| + 2 <= begin
    {
      assert after[..k] == fs[..k];
      OuterFramesComeFirst(fs, k);
    }
    forall p | begin <= p < begin + |bytes|
      ensures out[p] == bytes[p - begin]
    {
      OpsSettle(after, ops, draws, ctx, p);
    }
  }

  /** Balanced ops do the same inside other frames as on their own. */
  lemma {:induction false} StoreIsLocal(outer: seq<seq<byte>>, inner: Frames, ops: seq<Op>, draws: seq<Draw>,
                                        depth: nat,
                                       ctx: Context)
    requires FitsOps(ops, draws) && Balanced(ops, depth) && depth < |inner|
    requires StoreOps(outer + inner, ops, draws, ctx).Some?
    ensures StoreOps(inner, ops, draws, ctx).Some?
    ensures StoreOps(outer + inner, ops, draws, ctx).value == outer + StoreOps(inner, ops, draws, ctx).value
    decreases |ops|
  {
    if ops != [] {
      OpIsLocal(outer, inner, ops[0], draws[0], ctx);
      var depth' := if ops[0].BeginScope? then depth + 1 else if ops[0].EndScope? then depth - 1 else depth;
      StoreIsLocal(outer, StoreOp(inner, ops[0], draws[0], ctx).value, ops[1..], draws[1..], depth', ctx);
    }
  }

  lemma OpIsLocal(outer: seq<seq<byte>>, inner: Frames, op: Op, draw: Draw, ctx: Context)
    requires FitsOp(op, draw) && (op.EndScope? ==> |inner| > 1) && StoreOp(outer + inner, op, draw, ctx).Some?
    ensures StoreOp(inner, op, draw, ctx).Some?
    ensures StoreOp(outer + inner, op, draw, ctx).value == outer + StoreOp(inner, op, draw, ctx).value
  {
    var fs, last := outer + inner, |inner| - 1;
    if op.BeginScope? {
      assert fs + [[]] == outer + (inner + [[]]);
    } else if op.EndScope? {
      assert fs[..|fs| - 1] == outer + inner[..last];
    }
  }

  /** The bytes that the ops inside a scope store on their own */
  ghost function Contents(ops: seq<Op>, draws: seq<Draw>, ctx: Context, i: nat, j: nat): seq<byte>
    requires FitsOps(ops, draws) && StoreOps([[]], ops, draws, ctx).Some? && Encloses(ops, i, j)
  {
    InsideIsStored(ops, draws, ctx, i, j);
    Flatten(StoreOps([[]], ops[i + 1..j], draws[i + 1..j], ctx).value)
  }

  /** The frames when the scope is about to be closed */
  lemma InsideIsStored(ops: seq<Op>, draws: seq<Draw>, ctx: Context, i: nat, j: nat)
    requires FitsOps(ops, draws) && StoreOps([[]], ops, draws, ctx).Some? && Encloses(ops, i, j)
    ensures FitsOps(ops[..i], draws[..i]) && FitsOps(ops[..j], draws[..j]) && FitsOps(ops[i + 1..j], draws[i + 1..j])
    ensures StoreOps([[]], ops[..i], draws[..i], ctx).Some?
    ensures StoreOps([[]], ops[i + 1..j], draws[i + 1..j], ctx).Some?
    ensures StoreOps([[]], ops[..j], draws[..j], ctx)
            == Some(StoreOps([[]], ops[..i], draws[..i], ctx).value
                    + [Flatten(StoreOps([[]], ops[i + 1..j], draws[i + 1..j], ctx).value)])
  {
    hide StoreOp;
    StoreOpsSplits([[]], ops, draws, ctx, j);
    var front, drawn := ops[..j], draws[..j];
    StoreOpsSplits([[]], front, drawn, ctx, i);
    assert front[..i] == ops[..i] && drawn[..i] == draws[..i];
    var before := StoreOps([[]], ops[..i], draws[..i], ctx).value;
    ScopeOpens(before, front[i..], drawn[i..], ctx);
    assert front[i..][1..] == ops[i + 1..j] && drawn[i..][1..] == draws[i + 1..j];
    StoreIsLocal(before, [[]], ops[i + 1..j], draws[i + 1..j], 0, ctx);
    OuterFramesStay([[]], ops[i + 1..j], draws[i + 1..j], 0, ctx);
    var inside := StoreOps([[]], ops[i + 1..j], draws[i + 1..j], ctx).value;
    assert inside == [Flatten(inside)];
  }

  lemma ScopeOpens(fs: Frames, ops: seq<Op>, draws: seq<Draw>, ctx: Context)
    requires FitsOps(ops, draws) && ops != [] && ops[0].BeginScope?
    ensures FitsOps(ops[1..], draws[1..])
    ensures StoreOps(fs, ops, draws, ctx) == StoreOps(fs + [[]], ops[1..], draws[1..], ctx)
  {
  }

  /** What the two passes promise about a scope of the program: where it begins, its contents stand behind the two
      bytes of their length. */
  lemma ScopeHoldsItsLength(ops: seq<Op>, draws: seq<Draw>, ctx: Context, i: nat, j: nat)
    requires FitsOps(ops, draws) && StoreOps([[]], ops, draws, ctx).Some? && Encloses(ops, i, j)
    ensures var out, begin := Flatten(StoreOps([[]], ops, draws, ctx).value), Offset(ops, draws, ctx, i);
            var content := Contents(ops, draws, ctx, i, j);
            && |content| < MAX_SCOPE && Offset(ops, draws, ctx, j) == begin + 2 + |content| <= |out|
            && out[begin..begin + 2 + |content|] == BigEndian16(|content|) + content
  {
    hide StoreOp, Balanced;
    InsideIsStored(ops, draws, ctx, i, j);
    StoreOpsSplits([[]], ops, draws, ctx, j);
    var before := StoreOps([[]], ops[..i], draws[..i], ctx).value;
    var content := Contents(ops, draws, ctx, i, j);
    assert (before + [content])[..|before|] == before;
    CloseScope(before + [content], ops[j..], draws[j..], ctx);
    AppendedStays(before, BigEndian16(|content|) + content, ops[j..][1..], draws[j..][1..], ctx);
  }

  lemma CloseScope(fs: Frames, ops: seq<Op>, draws: seq<Draw>, ctx: Context)
    requires FitsOps(ops, draws) && StoreOps(fs, ops, draws, ctx).Some? && ops != [] && ops[0].EndScope?
    ensures |fs| > 1 && |fs[|fs| - 1]| < MAX_SCOPE && FitsOps(ops[1..], draws[1..])
    ensures var content := fs[|fs| - 1];
            StoreOps(Append(fs[..|fs| - 1], BigEndian16(|content|) + content), ops[1..], draws[1..], ctx)
            == StoreOps(fs, ops, draws, ctx)
  {
  }
}
