/** The finished hello: padding, keyed hash, and the guarantee that the length
    pass sized the buffer exactly. */
module TlsHelloHeader {
  import opened Options
  import opened Bytes
  import opened TlsHello
  import opened TlsHelloPasses

  type Hmac = (seq<byte>, seq<byte>) -> seq<byte>

  const HASH_BEGIN: nat := 11
  const HASH_SIZE: nat := 32

  function XorAll(a: seq<byte>, b: seq<byte>): (r: seq<byte>)
    requires |a| == |b|
    ensures |r| == |a|
  {
    seq(|a|, i requires 0 <= i < |a| => Xor(a[i], b[i]))
  }

  /** The padding extension behind the stored ops */
  function Padded(body: seq<byte>): (r: seq<byte>)
    requires |body| <= 514
    ensures |r| == PADDED_LENGTH
  {
    body + BigEndian16(515 - |body|) + Zeros(515 - |body|)
  }

  /** The hash over the whole hello, with the time mixed into its last four bytes,
      takes the place of the 32 bytes at offset 11. */
  function Signed(hello: seq<byte>, digest: seq<byte>, unixTime: nat): (r: seq<byte>)
    requires |hello| >= HASH_BEGIN + HASH_SIZE && |digest| == HASH_SIZE
    ensures |r| == |hello|
  {
    hello[..HASH_BEGIN] + digest[..28] + XorAll(digest[28..], LittleEndian(unixTime, 4))
    + hello[HASH_BEGIN + HASH_SIZE..]
  }

  /** TlsHelloStore::finish on a store whose scopes are closed: false is a failed CHECK */
  method Finish(store: TlsHelloStore, secret: seq<byte>, unixTime: nat, hmac: Hmac, ctx: Context) returns (ok: bool)
    requires store.Valid() && |store.frames| == 1 && HASH_BEGIN + HASH_SIZE <= store.offset <= 514
    requires forall message: seq<byte> :: |hmac(secret, message)| == HASH_SIZE
    modifies store, store.data
    ensures ok == (store.data.Length == PADDED_LENGTH)
    ensures ok ==> var hello := Padded(old(store.frames)[0]);
                   store.data[..] == Signed(hello, hmac(secret, hello), unixTime)
  {
    ghost var body := store.frames[0];
    var zeroPad := 515 - store.offset;
    if store.offset + 2 + zeroPad > store.data.Length {
      return false;
    }
    store.BeginScope();
    ok := store.Put(Zeros(zeroPad));
    assert store.frames == [body, Zeros(zeroPad)] by {
      assert [] + Zeros(zeroPad) == Zeros(zeroPad);
    }
    assert store.frames[..1] == [body];
    ok := store.EndScope();
    assert store.frames == [Padded(body)] by {
      assert body + (BigEndian16(zeroPad) + Zeros(zeroPad)) == Padded(body);
    }
    if store.offset != store.data.Length {
      return false;
    }
    var data := store.data;
    assert data[..] == Padded(body);
    Sign(data, secret, unixTime, hmac);
    return true;
  }

  /** The hash part of TlsHelloStore::finish */
  method Sign(data: array<byte>, secret: seq<byte>, unixTime: nat, hmac: Hmac)
    requires data.Length >= HASH_BEGIN + HASH_SIZE
    requires forall message: seq<byte> :: |hmac(secret, message)| == HASH_SIZE
    modifies data
    ensures data[..] == Signed(old(data[..]), hmac(secret, old(data[..])), unixTime)
  {
    hide XorAll, LittleEndian;
    ghost var hello := data[..];
    var digest := hmac(secret, data[..]);
    var hash := digest[..28] + XorAll(digest[28..], LittleEndian(unixTime, 4));
    for i := 0 to HASH_SIZE
      invariant data[..] == hello[..HASH_BEGIN] + hash[..i] + hello[HASH_BEGIN + i..]
    {
      data[HASH_BEGIN + i] := hash[i];
    }
    assert hash[..HASH_SIZE] == hash;
  }

  /** Whatever passes the length pass with balanced parts is balanced throughout. */
  lemma {:induction false} PassingIsBalanced(l: Length, ops: seq<Op>, ctx: Context)
    requires forall i :: 0 <= i < |ops| && ops[i].Permutation? ==> BalancedParts(ops[i].parts)
    requires !LengthOps(l, ops, ctx).error && LengthOps(l, ops, ctx).scopes == []
    ensures !l.error && Balanced(ops, |l.scopes|)
    decreases |ops|
  {
    if l.error {
      LengthErrorStays(l, ops, ctx);
    } else if ops != [] {
      PassingIsBalanced(LengthOp(l, ops[0], ctx), ops[1..], ctx);
      if ops[0].Permutation? {
        PartsShift(l, ops[0].parts, ctx, 0, []);
      }
    }
  }

  lemma PassingLength(l: Length, ctx: Context)
    requires FinishLength(l, ctx).Some?
    ensures !l.error && l.scopes == [] && HASH_BEGIN + HASH_SIZE <= l.size <= 514
    ensures FinishLength(l, ctx) == Some(PADDED_LENGTH)
  {
    ThreeLengths(l, BeginScope, Zero(515 - l.size), EndScope, ctx);
  }

  lemma FinishFits(n: nat, ctx: Context)
    requires HASH_BEGIN + HASH_SIZE <= n <= 514
    ensures FinishLength(Length(n, false, []), ctx) == Some(PADDED_LENGTH)
  {
    ThreeLengths(Length(n, false, []), BeginScope, Zero(515 - n), EndScope, ctx);
  }

  /** TlsObfusaction::generate_header for any op program whose permutation parts are balanced. It
      produces a hello exactly when the length pass does; the hello is then always 517 bytes long, the
      store pass fills it to the last byte, and no check fails. */
  method GenerateHeader(ops: seq<Op>, draws: seq<Draw>, ctx: Context, secret: seq<byte>, unixTime: nat, hmac: Hmac)
    returns (header: Option<seq<byte>>)
    requires FitsOps(ops, draws)
    requires forall i :: 0 <= i < |ops| && ops[i].Permutation? ==> BalancedParts(ops[i].parts)
    requires forall message: seq<byte> :: |hmac(secret, message)| == HASH_SIZE
    ensures header.Some? <==> FinishLength(LengthOps(NO_LENGTH, ops, ctx), ctx).Some?
    ensures header.Some? ==>
              && |header.value| == PADDED_LENGTH
              && StoreOps([[]], ops, draws, ctx).Some?
              && var frames := StoreOps([[]], ops, draws, ctx).value;
                 && |frames| == 1 && HASH_BEGIN + HASH_SIZE <= |frames[0]| <= 514
                 && var hello := Padded(frames[0]);
                    header.value == Signed(hello, hmac(secret, hello), unixTime)
  {
    var calcLength := new TlsHelloCalcLength();
    for i := 0 to |ops|
      invariant LengthOps(calcLength.State(), ops[i..], ctx) == LengthOps(NO_LENGTH, ops, ctx)
    {
      calcLength.DoOp(ops[i], ctx);
      assert ops[i..][1..] == ops[i + 1..];
    }
    ghost var l := calcLength.State();
    var length := calcLength.Finish(ctx);
    if length.None? {
      return None;
    }
    PassingLength(l, ctx);
    PassingIsBalanced(NO_LENGTH, ops, ctx);
    OpsStore(NO_LENGTH, [[]], ops, draws, 0, ctx);
    OpsAreSound(NO_LENGTH, ops, 0, ctx);
    var data := new byte[length.value](_ => 0);
    var storer := new TlsHelloStore(data);
    var ok := storer.DoOps(ops, draws, ctx);
    assert ok;
    ok := Finish(storer, secret, unixTime, hmac, ctx);
    assert ok;
    return Some(data[..]);
  }
}
