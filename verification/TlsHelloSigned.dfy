/** What the hash leaves of the stored hello: all but the bytes 11 to 42, and with it the scopes that do not reach into
    them. */
module TlsHelloSigned {
  import opened Options
  import opened Bytes
  import opened TlsHello
  import opened TlsHelloScopes
  import opened TlsHelloNesting
  import opened TlsHelloPasses
  import opened TlsHelloHeader

  const HASH_END: nat := HASH_BEGIN + HASH_SIZE

  // ---------- The hash

  lemma SignedKeeps(hello: seq<byte>, digest: seq<byte>, unixTime: nat, a: nat, b: nat)
    requires |hello| >= HASH_END && |digest| == HASH_SIZE && a <= b <= |hello|
    requires b <= HASH_BEGIN || a >= HASH_END
    ensures Signed(hello, digest, unixTime)[a..b] == hello[a..b]
  {
    hide XorAll, LittleEndian;
    var header := Signed(hello, digest, unixTime);
    assert forall p :: 0 <= p < HASH_BEGIN || HASH_END <= p < |hello| ==> header[p] == hello[p];
  }

  /** Whoever can compute the digest reads the time back from the last four of its bytes. */
  lemma TimeIsRecovered(hello: seq<byte>, digest: seq<byte>, unixTime: nat)
    requires |hello| >= HASH_END && |digest| == HASH_SIZE && unixTime < 0x1_0000_0000
    ensures var header := Signed(hello, digest, unixTime);
            && header[11..39] == digest[..28]
            && FromLittleEndian(XorAll(header[39..43], digest[28..])) == unixTime
            && header[..11] == hello[..11] && header[43..] == hello[43..]
  {
    hide LittleEndian, Xor;
    var header, time := Signed(hello, digest, unixTime), LittleEndian(unixTime, 4);
    assert header[39..43] == XorAll(digest[28..], time);
    forall i | 0 <= i < 4
      ensures XorAll(header[39..43], digest[28..])[i] == time[i]
    {
      XorCancels(digest[28..][i], time[i]);
    }
    assert XorAll(header[39..43], digest[28..]) == time;
    assert Pow256(4) == 0x1_0000_0000 by {
      assert Pow256(2) == 256 * Pow256(1);
    }
    LittleEndianRoundTrip(unixTime, 4);
  }

  lemma XorCancels(a: byte, b: byte)
    ensures Xor(Xor(a, b), a) == b
  {
    XorBitsCommute(a, b, 8);
    XorTwice(b, a);
  }

  /** Some digest makes byte p, one of those that are overwritten, something else than v. */
  lemma SomeDigestChanges(hello: seq<byte>, p: nat, v: byte) returns (digest: seq<byte>)
    requires |hello| >= HASH_END && HASH_BEGIN <= p < HASH_END
    ensures |digest| == HASH_SIZE && Signed(hello, digest, 0)[p] != v
  {
    hide LittleEndian;
    var wanted: byte := if v == 0 then 1 else 0;
    var time := LittleEndian(0, 4);
    if p < 39 {
      digest := seq(HASH_SIZE, _ => wanted);
    } else {
      var mixed := Xor(wanted, time[p - 39]);
      XorTwice(wanted, time[p - 39]);
      digest := seq(HASH_SIZE, _ => mixed);
      assert digest[28..][p - 39] == mixed;
      assert XorAll(digest[28..], time)[p - 39] == wanted;
    }
  }

  /** Whatever the digest and the time, a stretch of the hello survives exactly if it does not overlap the hash. */
  lemma SurvivesIffOutsideHash(hello: seq<byte>, a: nat, b: nat)
    requires HASH_END <= |hello| && a < b <= |hello|
    ensures (forall digest: seq<byte>, unixTime: nat :: |digest| == HASH_SIZE ==>
               Signed(hello, digest, unixTime)[a..b] == hello[a..b])
            <==> b <= HASH_BEGIN || a >= HASH_END
  {
    hide Signed;
    if b <= HASH_BEGIN || a >= HASH_END {
      forall digest: seq<byte>, unixTime: nat | |digest| == HASH_SIZE
        ensures Signed(hello, digest, unixTime)[a..b] == hello[a..b]
      {
        SignedKeeps(hello, digest, unixTime, a, b);
      }
    } else {
      var p := if a < HASH_BEGIN then HASH_BEGIN else a;
      var digest := SomeDigestChanges(hello, p, hello[p]);
      assert Signed(hello, digest, 0)[a..b][p - a] != hello[a..b][p - a];
    }
  }

  // ---------- The programs that yield a header

  /** The length pass succeeds. */
  ghost predicate Passes(ops: seq<Op>, draws: seq<Draw>, ctx: Context) {
    && FitsOps(ops, draws)
    && (forall i :: 0 <= i < |ops| && ops[i].Permutation? ==> BalancedParts(ops[i].parts))
    && FinishLength(LengthOps(NO_LENGTH, ops, ctx), ctx).Some?
  }

  lemma PassingStores(ops: seq<Op>, draws: seq<Draw>, ctx: Context)
    requires Passes(ops, draws, ctx)
    ensures Balanced(ops, 0) && StoreOps([[]], ops, draws, ctx).Some?
    ensures var frames := StoreOps([[]], ops, draws, ctx).value;
            |frames| == 1 && HASH_END <= |frames[0]| <= 514 && Flatten(frames) == frames[0]
  {
    hide LengthOps, StoreOps, Balanced, FitsOps, BalancedParts, FinishLength;
    PassingLength(LengthOps(NO_LENGTH, ops, ctx), ctx);
    PassingIsBalanced(NO_LENGTH, ops, ctx);
    OpsStore(NO_LENGTH, [[]], ops, draws, 0, ctx);
  }

  /** The stored ops with padding, before the hash */
  ghost function Hello(ops: seq<Op>, draws: seq<Draw>, ctx: Context): (hello: seq<byte>)
    requires Passes(ops, draws, ctx)
    ensures |hello| == PADDED_LENGTH
  {
    PassingStores(ops, draws, ctx);
    Padded(StoreOps([[]], ops, draws, ctx).value[0])
  }

  lemma HelloIsPadded(ops: seq<Op>, draws: seq<Draw>, ctx: Context)
    requires Passes(ops, draws, ctx)
    ensures StoreOps([[]], ops, draws, ctx).Some? && |StoreOps([[]], ops, draws, ctx).value[0]| <= 514
    ensures Hello(ops, draws, ctx) == Padded(StoreOps([[]], ops, draws, ctx).value[0])
  {
    hide StoreOps, Passes, Padded;
    PassingStores(ops, draws, ctx);
  }

  /** Padding only follows what has been stored. */
  lemma PaddedHolds(ops: seq<Op>, draws: seq<Draw>, ctx: Context, a: nat, b: nat)
    requires Passes(ops, draws, ctx) && StoreOps([[]], ops, draws, ctx).Some?
    requires a <= b <= |Flatten(StoreOps([[]], ops, draws, ctx).value)|
    ensures b <= PADDED_LENGTH
    ensures Hello(ops, draws, ctx)[a..b] == Flatten(StoreOps([[]], ops, draws, ctx).value)[a..b]
  {
    hide StoreOps, Passes, Flatten;
    PassingStores(ops, draws, ctx);
  }

  /** The scope with this content stands at this place. */
  predicate Stands(out: seq<byte>, at: nat, content: seq<byte>) {
    |content| < MAX_SCOPE && at + 2 + |content| <= |out|
    && out[at..at + 2 + |content|] == BigEndian16(|content|) + content
  }

  /** In the header, a scope at any depth of any shuffle stands as its length and its contents, whatever the digest and
      the time, if and only if it does not overlap the hash; and so do its two length bytes. */
  lemma ScopeInHeader(ops: seq<Op>, draws: seq<Draw>, ctx: Context, path: seq<(nat, nat)>, i: nat, j: nat)
    requires Passes(ops, draws, ctx) && HasScope(ops, path, i, j)
    ensures StoreOps([[]], ops, draws, ctx).Some?
    ensures var at, content := ScopePlace(ops, draws, ctx, path, i, j), ScopeContents(ops, draws, ctx, path, i, j);
            && Stands(Hello(ops, draws, ctx), at, content)
            && ((forall digest: seq<byte>, unixTime: nat :: |digest| == HASH_SIZE ==>
                   Stands(Signed(Hello(ops, draws, ctx), digest, unixTime), at, content))
                <==> at + 2 + |content| <= HASH_BEGIN || at >= HASH_END)
            && ((forall digest: seq<byte>, unixTime: nat :: |digest| == HASH_SIZE ==>
                   Signed(Hello(ops, draws, ctx), digest, unixTime)[at..at + 2] == BigEndian16(|content|))
                <==> at + 2 <= HASH_BEGIN || at >= HASH_END)
  {
    hide StoreOps, HasScope, ScopePlace, ScopeContents, Flatten, Hello;
    PassingStores(ops, draws, ctx);
    hide Passes;
    EveryScopeHoldsItsLength(ops, draws, ctx, path, i, j);
    var at, content := ScopePlace(ops, draws, ctx, path, i, j), ScopeContents(ops, draws, ctx, path, i, j);
    PaddedHolds(ops, draws, ctx, at, at + 2 + |content|);
    StandsInHeader(Hello(ops, draws, ctx), at, content);
  }

  lemma StandsInHeader(hello: seq<byte>, at: nat, content: seq<byte>)
    requires HASH_END <= |hello| && Stands(hello, at, content)
    ensures (forall digest: seq<byte>, unixTime: nat :: |digest| == HASH_SIZE ==>
               Stands(Signed(hello, digest, unixTime), at, content))
            <==> at + 2 + |content| <= HASH_BEGIN || at >= HASH_END
    ensures (forall digest: seq<byte>, unixTime: nat :: |digest| == HASH_SIZE ==>
               Signed(hello, digest, unixTime)[at..at + 2] == BigEndian16(|content|))
            <==> at + 2 <= HASH_BEGIN || at >= HASH_END
  {
    hide Signed, BigEndian16;
    SurvivesIffOutsideHash(hello, at, at + 2 + |content|);
    SurvivesIffOutsideHash(hello, at, at + 2);
    assert hello[at..at + 2] == hello[at..at + 2 + |content|][..2] == BigEndian16(|content|) by {
      assert |BigEndian16(|content|)| == 2 by { TwoBytes(|content|); }
    }
  }

  lemma TwoBytes(n: nat)
    requires n < 0x1_0000
    ensures |BigEndian16(n)| == 2
  {
  }

  /** So does a whole part of a shuffle. */
  lemma PartInHeader(ops: seq<Op>, draws: seq<Draw>, ctx: Context, k: nat, p: nat, digest: seq<byte>, unixTime: nat)
    requires Passes(ops, draws, ctx) && HasPart(ops, k, p) && |digest| == HASH_SIZE
    ensures StoreOps([[]], ops, draws, ctx).Some? && |draws| == |ops| && FitsOp(ops[k], draws[k])
    ensures FitsOps(ops[k].parts[p].ops, draws[k].draws[p])
    ensures StoreOps([[]], ops[k].parts[p].ops, draws[k].draws[p], ctx).Some?
    ensures var header, at := Signed(Hello(ops, draws, ctx), digest, unixTime), PartPlace(ops, draws, ctx, k, p);
            var part := Flatten(StoreOps([[]], ops[k].parts[p].ops, draws[k].draws[p], ctx).value);
            at + |part| <= HASH_BEGIN || at >= HASH_END ==> at + |part| <= |header| && header[at..at + |part|] == part
  {
    hide StoreOps, Flatten, Hello, Signed, FitsOps, PartPlace;
    PassingStores(ops, draws, ctx);
    PartInPlace(ops, draws, ctx, k, p);
    hide Passes;
    var at := PartPlace(ops, draws, ctx, k, p);
    var part := Flatten(StoreOps([[]], ops[k].parts[p].ops, draws[k].draws[p], ctx).value);
    PaddedHolds(ops, draws, ctx, at, at + |part|);
    if at + |part| <= HASH_BEGIN || at >= HASH_END {
      SignedKeeps(Hello(ops, draws, ctx), digest, unixTime, at, at + |part|);
    }
  }

  // ---------- A scope that is lost

  /** A program that yields a header, with a scope whose length stands where the hash goes */
  const LOST_OPS: seq<Op> := [Zero(11), BeginScope, Zero(32), EndScope]
  const LOST_DRAWS: seq<Draw> := [Nothing, Nothing, Nothing, Nothing]

  lemma LengthIsOverwritten(ops: seq<Op>, draws: seq<Draw>, ctx: Context, digest: seq<byte>, unixTime: nat)
    requires ops == LOST_OPS && draws == LOST_DRAWS && |digest| == HASH_SIZE
    ensures Passes(ops, draws, ctx) && HasScope(ops, [], 1, 3)
    ensures StoreOps([[]], ops, draws, ctx).Some? && ScopePlace(ops, draws, ctx, [], 1, 3) == 11
    ensures Signed(Hello(ops, draws, ctx), digest, unixTime)[11..13] == digest[..2]
  {
    LostPasses(ctx);
    PassingStores(ops, draws, ctx);
    LostPlace(ctx);
    hide Passes, HasScope, Hello, ScopePlace, Signed, StoreOps;
    DigestComesFirst(Hello(ops, draws, ctx), digest, unixTime);
  }

  lemma DigestComesFirst(hello: seq<byte>, digest: seq<byte>, unixTime: nat)
    requires |hello| >= HASH_END && |digest| == HASH_SIZE
    ensures Signed(hello, digest, unixTime)[11..13] == digest[..2]
  {
    hide XorAll, LittleEndian;
    var header := Signed(hello, digest, unixTime);
    assert header[11] == digest[0] && header[12] == digest[1];
  }

  lemma LostPasses(ctx: Context)
    ensures Passes(LOST_OPS, LOST_DRAWS, ctx) && HasScope(LOST_OPS, [], 1, 3)
  {
    LostLength(ctx);
    LostScope();
    FinishFits(45, ctx);
    hide LengthOps, FinishLength, HasScope, FitsOp, BalancedParts;
    LostFits();
  }

  lemma LostFits()
    ensures FitsOps(LOST_OPS, LOST_DRAWS)
  {
  }

  lemma LostScope()
    ensures HasScope(LOST_OPS, [], 1, 3)
  {
    assert LOST_OPS[2..3] == [Zero(32)] && [Zero(32)][1..] == [];
  }

  lemma LostLength(ctx: Context)
    ensures LengthOps(NO_LENGTH, LOST_OPS, ctx) == Length(45, false, [])
  {
    hide LengthOp;
    var ops := LOST_OPS;
    var l1, l2, l3 := Length(11, false, []), Length(13, false, [13]), Length(45, false, [13]);
    LostLengths(ctx);
    assert ops[1..] == [BeginScope, Zero(32), EndScope] && ops[1..][1..] == [Zero(32), EndScope];
    assert [Zero(32), EndScope][1..] == [EndScope] && [EndScope][1..] == [];
    assert LengthOps(l3, [EndScope], ctx) == Length(45, false, []);
    assert LengthOps(l2, [Zero(32), EndScope], ctx) == Length(45, false, []);
    assert LengthOps(l1, ops[1..], ctx) == Length(45, false, []);
  }

  lemma LostLengths(ctx: Context)
    ensures LengthOp(NO_LENGTH, Zero(11), ctx) == Length(11, false, [])
    ensures LengthOp(Length(11, false, []), BeginScope, ctx) == Length(13, false, [13])
    ensures LengthOp(Length(13, false, [13]), Zero(32), ctx) == Length(45, false, [13])
    ensures LengthOp(Length(45, false, [13]), EndScope, ctx) == Length(45, false, [])
  {
  }

  lemma LostPlace(ctx: Context)
    requires FitsOps(LOST_OPS, LOST_DRAWS) && StoreOps([[]], LOST_OPS, LOST_DRAWS, ctx).Some?
    requires HasScope(LOST_OPS, [], 1, 3)
    ensures ScopePlace(LOST_OPS, LOST_DRAWS, ctx, [], 1, 3) == 11
  {
    StoreOpsSplits([[]], LOST_OPS, LOST_DRAWS, ctx, 1);
    assert LOST_OPS[..1] == [Zero(11)] && [Zero(11)][1..] == [];
    assert StoreOps([[]], LOST_OPS[..1], LOST_DRAWS[..1], ctx) == Some(Append([[]], Zeros(11)));
  }
}
