/** The default program, run through both passes, is a ClientHello record. */
module TlsHelloRecord {
  import opened Options
  import opened Bytes
  import opened TlsHello
  import opened TlsHelloScopes
  import opened TlsHelloNesting
  import opened TlsHelloPasses
  import opened TlsHelloHeader
  import opened TlsHelloSigned
  import opened TlsHelloDefault
  import opened TlsGrease
  import opened TlsHelloBodies

  lemma FirstOpsSize(ctx: Context)
    requires |ctx.grease| == GREASE_SIZE
    ensures AllFlat(FIRST_OPS, ctx) && FlatSize(FIRST_OPS, ctx) == 118
  {
    hide FlatSize;
    var ops := FIRST_OPS;
    FlatSizeNext(ops, 8, ctx);
    FlatSizeNext(ops, 7, ctx);
    FlatSizeNext(ops, 6, ctx);
    FlatSizeNext(ops, 5, ctx);
    FlatSizeNext(ops, 4, ctx);
    FlatSizeNext(ops, 3, ctx);
    FlatSizeNext(ops, 2, ctx);
    FlatSizeNext(ops, 1, ctx);
    FlatSizeNext(ops, 0, ctx);
    assert ops[0..] == ops;
  }

  lemma LastOpsSize(ctx: Context)
    requires |ctx.grease| == GREASE_SIZE
    ensures AllFlat(LAST_OPS, ctx) && FlatSize(LAST_OPS, ctx) == 7
  {
    assert LAST_OPS[1..][1..] == [];
    assert FlatSize(LAST_OPS[1..], ctx) == 5;
  }

  lemma PermutationLength(l: Length, ctx: Context)
    requires !l.error && |ctx.grease| == GREASE_SIZE
    ensures LengthOps(l, [Permutation(PARTS)], ctx) == Grow(l, 175 + |ctx.GetDomain()|)
    ensures BalancedParts(PARTS)
  {
    hide SizeFrom, LengthParts, BalancedParts;
    SizeOfParts(ctx);
    PartsLength(l, 0, ctx);
    PartsBalanced(ctx);
    assert PARTS[0..] == PARTS;
    assert LengthOp(l, Permutation(PARTS), ctx) == LengthParts(l, PARTS, ctx);
    assert [Permutation(PARTS)][1..] == [];
  }

  /** The default program passes the length pass for every domain. */
  lemma DefaultLength(ctx: Context)
    requires |ctx.grease| == GREASE_SIZE
    ensures LengthOps(NO_LENGTH, DEFAULT_OPS, ctx) == Length(300 + |ctx.GetDomain()|, false, [])
    ensures Balanced(DEFAULT_OPS, 0) && BalancedParts(PARTS)
  {
    hide LengthOps, FlatSize, Balanced, BalancedParts, AllFlat;
    FirstOpsFlat(NO_LENGTH, ctx);
    PermutationLength(Grow(NO_LENGTH, 118), ctx);
    LastOpsFlat(Length(293 + |ctx.GetDomain()|, false, []), ctx);
    LengthOpsConcat(NO_LENGTH, FIRST_OPS, [Permutation(PARTS)] + LAST_OPS, ctx);
    LengthOpsConcat(Grow(NO_LENGTH, 118), [Permutation(PARTS)], LAST_OPS, ctx);
    DefaultBalanced(ctx);
  }

  lemma FirstOpsFlat(l: Length, ctx: Context)
    requires !l.error && |ctx.grease| == GREASE_SIZE
    ensures LengthOps(l, FIRST_OPS, ctx) == Grow(l, 118)
  {
    FirstOpsSize(ctx);
    FlatOpsLength(l, FIRST_OPS, ctx);
  }

  lemma LastOpsFlat(l: Length, ctx: Context)
    requires !l.error && |ctx.grease| == GREASE_SIZE
    ensures LengthOps(l, LAST_OPS, ctx) == Grow(l, 7)
  {
    LastOpsSize(ctx);
    FlatOpsLength(l, LAST_OPS, ctx);
  }

  /** The default hello is always produced, and is 517 bytes long. */
  lemma DefaultFits(ctx: Context)
    requires |ctx.grease| == GREASE_SIZE
    ensures FinishLength(LengthOps(NO_LENGTH, DEFAULT_OPS, ctx), ctx) == Some(PADDED_LENGTH)
  {
    hide LengthOps, FinishLength, Balanced, BalancedParts;
    DefaultLength(ctx);
    FinishFits(300 + |ctx.GetDomain()|, ctx);
  }

  lemma DefaultBalanced(ctx: Context)
    requires LengthOps(NO_LENGTH, DEFAULT_OPS, ctx) == Length(300 + |ctx.GetDomain()|, false, [])
    requires BalancedParts(PARTS)
    ensures Balanced(DEFAULT_OPS, 0)
  {
    assert forall i :: 0 <= i < |DEFAULT_OPS| && DEFAULT_OPS[i].Permutation? ==> DEFAULT_OPS[i].parts == PARTS;
    PassingIsBalanced(NO_LENGTH, DEFAULT_OPS, ctx);
  }

  lemma LastBytes(draws: seq<Draw>, ctx: Context)
    requires |ctx.grease| == GREASE_SIZE && FitsOps(LAST_OPS, draws) && AllFlat(LAST_OPS, ctx)
    ensures FlatBytes(LAST_OPS, draws, ctx) == [ctx.grease[3], ctx.grease[3], 0x00, 0x01, 0x00] + [0x00, 0x15]
  {
    hide FlatBytes, AllFlat, IsFlat, FitsOp;
    var ops, g3: byte := LAST_OPS, ctx.grease[3];
    var first: seq<byte>, last: seq<byte> := [g3, g3], [0x00, 0x01, 0x00, 0x00, 0x15];
    assert ops[2..] == [] && draws[2..] == [] && ops[0..] == ops && draws[0..] == draws;
    NoFlatBytes(ctx);
    FlatBytesNext(ops, draws, 1, last, [], ctx);
    assert last + [] == last;
    FlatBytesNext(ops, draws, 0, first, last, ctx);
    assert first + last == [g3, g3, 0x00, 0x01, 0x00] + [0x00, 0x15];
  }

  /** From the session id to the cipher suites */
  function SessionAndCiphers(session: seq<byte>, g0: byte): seq<byte> {
    [0x20] + session + [0x00, 0x20] + [g0, g0] + CIPHERS
  }

  /** From the cipher suites to the first extension */
  lemma CipherBytes(draws: seq<Draw>, ctx: Context)
    requires |ctx.grease| == GREASE_SIZE && FitsOps(FIRST_OPS, draws) && AllFlat(FIRST_OPS, ctx)
    ensures AllFlat(FIRST_OPS[4..], ctx) && FitsOps(FIRST_OPS[4..], draws[4..])
    ensures var g0, g2 := ctx.grease[0], ctx.grease[2];
            FlatBytes(FIRST_OPS[4..], draws[4..], ctx)
            == [0x00, 0x20] + ([g0, g0] + (CIPHERS + EXTENSIONS_START + ([g2, g2] + [0x00, 0x00])))
  {
    var ops, g0, g2 := FIRST_OPS, ctx.grease[0], ctx.grease[2];
    assert FlatBytes(ops[9..], draws[9..], ctx) == [];
    hide FlatBytes;
    var b8: seq<byte> := [0x00, 0x00];
    FlatBytesNext(ops, draws, 8, b8, [], ctx);
    assert b8 + [] == b8;
    FlatBytesNext(ops, draws, 7, [g2, g2], b8, ctx);
    FlatBytesNext(ops, draws, 6, CIPHERS + EXTENSIONS_START, [g2, g2] + b8, ctx);
    var b6 := CIPHERS + EXTENSIONS_START + ([g2, g2] + b8);
    FlatBytesNext(ops, draws, 5, [g0, g0], b6, ctx);
    FlatBytesNext(ops, draws, 4, [0x00, 0x20], [g0, g0] + b6, ctx);
  }

  lemma SessionBytes(draws: seq<Draw>, rest: seq<byte>, ctx: Context)
    requires |ctx.grease| == GREASE_SIZE && FitsOps(FIRST_OPS, draws) && AllFlat(FIRST_OPS, ctx)
    requires AllFlat(FIRST_OPS[4..], ctx) && FitsOps(FIRST_OPS[4..], draws[4..])
    requires FlatBytes(FIRST_OPS[4..], draws[4..], ctx) == rest
    ensures |draws| == 9 && draws[3].Raw? && |draws[3].bytes| == 32
    ensures FlatBytes(FIRST_OPS, draws, ctx) == RECORD_START + (Zeros(32) + ([0x20] + (draws[3].bytes + rest)))
  {
    hide FlatBytes;
    var ops, session := FIRST_OPS, draws[3].bytes;
    FlatBytesNext(ops, draws, 3, session, rest, ctx);
    FlatBytesNext(ops, draws, 2, [0x20], session + rest, ctx);
    FlatBytesNext(ops, draws, 1, Zeros(32), [0x20] + (session + rest), ctx);
    FlatBytesNext(ops, draws, 0, RECORD_START, Zeros(32) + ([0x20] + (session + rest)), ctx);
    assert ops[0..] == ops && draws[0..] == draws;
  }

  /** What comes before the shuffled extensions */
  lemma FirstBytes(draws: seq<Draw>, ctx: Context)
    requires |ctx.grease| == GREASE_SIZE && FitsOps(FIRST_OPS, draws) && AllFlat(FIRST_OPS, ctx)
    ensures |draws| == 9 && draws[3].Raw? && |draws[3].bytes| == 32
    ensures var g0, g2 := ctx.grease[0], ctx.grease[2];
            FlatBytes(FIRST_OPS, draws, ctx)
            == RECORD_START + Zeros(32)
               + (SessionAndCiphers(draws[3].bytes, g0) + EXTENSIONS_START + [g2, g2] + [0x00, 0x00])
  {
    hide FlatBytes, AllFlat;
    var g0, g2 := ctx.grease[0], ctx.grease[2];
    CipherBytes(draws, ctx);
    SessionBytes(draws, FlatBytes(FIRST_OPS[4..], draws[4..], ctx), ctx);
    Regroup(RECORD_START, Zeros(32), [0x20], draws[3].bytes, [0x00, 0x20],
            [g0, g0], CIPHERS, EXTENSIONS_START, [g2, g2],
            [0x00, 0x00]);
  }

  lemma Regroup(r: seq<byte>, z: seq<byte>, a: seq<byte>, b: seq<byte>, c: seq<byte>, d: seq<byte>, e: seq<byte>,
                f: seq<byte>, g: seq<byte>, h: seq<byte>)
    ensures r + (z + (a + (b + (c + (d + (e + f + (g + h)))))))  == r + z + (a + b + c + d + e + f + g + h)
  {
    assert a + (b + (c + (d + (e + f + (g + h))))) == a + b + c + d + e + f + g + h;
  }

  // ---------- Parsing

  lemma TailParses(session: seq<byte>, g0: byte, extensions: seq<byte>)
    requires |session| == 32 && |extensions| == 403 && IsExtensionList(extensions)
    ensures var tail := SessionAndCiphers(session, g0) + EXTENSIONS_START + extensions;
            IsHelloTail(tail) && TailExtensions(tail) == extensions
  {
    var s := SessionAndCiphers(session, g0) + EXTENSIONS_START + extensions;
    assert |SessionAndCiphers(session, g0)| == 67;
    assert s[0] == 0x20 && s[33] == 0x00 && s[34] == 0x20;
    assert U16(s, 33) == 32;
    assert s[67] == 0x01 && s[69] == 0x01 && s[70] == 0x93;
    assert U16(s, 69) == 403;
    assert s[71..] == extensions;
  }

  /** An extension without content, the shuffled ones, one with a byte of content, and the padding */
  lemma ExtensionsParse(g2: byte, list: seq<byte>, g3: byte, pad: nat)
    requires IsExtensionList(list) && pad < 0x1_0000
    ensures var extensions := [g2, g2] + [0x00, 0x00] + list + [g3, g3, 0x00, 0x01, 0x00]
                              + ([0x00, 0x15] + BigEndian16(pad) + Zeros(pad));
            && IsExtensionList(extensions)
            && Extensions(extensions) == AllExtensions(g2, Extensions(list), g3, pad)
  {
    hide IsExtensionList, Extensions;
    var first, third, last := [g2, g2] + [0x00, 0x00], [g3, g3, 0x00, 0x01, 0x00],
                              [0x00, 0x15] + BigEndian16(pad) + Zeros(pad);
    var noBytes: seq<byte>, oneByte: seq<byte> := [], [0x00];
    assert first[4..] == noBytes && third[4..] == oneByte && last[4..] == Zeros(pad);
    ExtensionIsList(first);
    ExtensionIsList(third);
    assert U16(last, 2) == pad;
    ExtensionIsList(last);
    ListsConcatenate(first, list);
    ListsConcatenate(first + list, third);
    ListsConcatenate(first + list + third, last);
  }

  // ---------- The three stretches of the program: fixed fields, shuffled extensions, closing extensions

  lemma FitsSplits(a: seq<Op>, b: seq<Op>, draws: seq<Draw>)
    requires FitsOps(a + b, draws)
    ensures |draws| == |a| + |b| && FitsOps(a, draws[..|a|]) && FitsOps(b, draws[|a|..])
  {
    hide FitsOp;
    var ops := a + b;
    forall i | 0 <= i < |a|
      ensures FitsOp(a[i], draws[..|a|][i])
    {
      assert FitsOp(ops[i], draws[i]);
    }
    forall i | 0 <= i < |b|
      ensures FitsOp(b[i], draws[|a|..][i])
    {
      assert FitsOp(ops[|a| + i], draws[|a| + i]);
    }
  }

  lemma StretchesFit(a: seq<Op>, op: Op, b: seq<Op>, draws: seq<Draw>)
    requires FitsOps(a + ([op] + b), draws)
    ensures |draws| == |a| + 1 + |b| && FitsOps(a, draws[..|a|]) && FitsOp(op, draws[|a|])
    ensures FitsOps([op], [draws[|a|]]) && FitsOps(b, draws[|a| + 1..])
  {
    FitsSplits(a, [op] + b, draws);
    FitsSplits([op], b, draws[|a|..]);
    assert draws[|a|..][..1] == [draws[|a|]] && draws[|a|..][1..] == draws[|a| + 1..];
    assert FitsOp([op][0], [draws[|a|]][0]);
  }

  lemma StoreOpsConcat(fs: Frames, a: seq<Op>, b: seq<Op>, draws: seq<Draw>, ctx: Context)
    requires FitsOps(a + b, draws) && |draws| == |a| + |b| && FitsOps(a, draws[..|a|]) && FitsOps(b, draws[|a|..])
    requires StoreOps(fs, a, draws[..|a|], ctx).Some?
    ensures StoreOps(fs, a + b, draws, ctx)
            == StoreOps(StoreOps(fs, a, draws[..|a|], ctx).value, b, draws[|a|..], ctx)
    decreases |a|
  {
    if a == [] {
      assert a + b == b && draws[0..] == draws;
    } else {
      var fs' := StoreOp(fs, a[0], draws[0], ctx).value;
      assert (a + b)[1..] == a[1..] + b;
      assert draws[..|a|][1..] == draws[1..][..|a| - 1] && draws[1..][|a| - 1..] == draws[|a|..];
      FitsSplits(a[1..], b, draws[1..]);
      StoreOpsConcat(fs', a[1..], b, draws[1..], ctx);
    }
  }

  lemma StretchesStore(a: seq<Op>, op: Op, b: seq<Op>, draws: seq<Draw>, list: seq<byte>, ctx: Context)
    requires FitsOps(a + ([op] + b), draws)
    requires AllFlat(a, ctx) && AllFlat(b, ctx)
    requires |draws| == |a| + 1 + |b| && FitsOps(a, draws[..|a|]) && FitsOps(b, draws[|a| + 1..])
    requires FitsOp(op, draws[|a|])
    requires var first := FlatBytes(a, draws[..|a|], ctx);
             StoreOp([first], op, draws[|a|], ctx) == Some(Append([first], list))
    ensures StoreOps([[]], a + ([op] + b), draws, ctx)
            == Some([FlatBytes(a, draws[..|a|], ctx) + list + FlatBytes(b, draws[|a| + 1..], ctx)])
  {
    hide FitsOps, FitsOp, FlatBytes, StoreOp, StoreOps, Append, IsFlat;
    var first, last, rest := FlatBytes(a, draws[..|a|], ctx), FlatBytes(b, draws[|a| + 1..], ctx), draws[|a|..];
    FitsSplits(a, [op] + b, draws);
    FlatStored([], a, draws[..|a|], ctx);
    assert [] + first == first;
    StoreOpsConcat([[]], a, [op] + b, draws, ctx);
    AppendToOne(first, list);
    StoreOpsNext([first], op, b, rest, [first + list], ctx);
    assert rest[1..] == draws[|a| + 1..];
    FlatStored(first + list, b, draws[|a| + 1..], ctx);
  }

  lemma AppendToOne(first: seq<byte>, bytes: seq<byte>)
    ensures Append([first], bytes) == [first + bytes]
  {
  }

  lemma FlatStored(first: seq<byte>, ops: seq<Op>, draws: seq<Draw>, ctx: Context)
    requires FitsOps(ops, draws) && AllFlat(ops, ctx)
    ensures StoreOps([first], ops, draws, ctx) == Some([first + FlatBytes(ops, draws, ctx)])
  {
    hide FitsOps, FlatBytes, StoreOps;
    FlatOpsStore([first], ops, draws, ctx);
    AppendToOne(first, FlatBytes(ops, draws, ctx));
  }

  lemma StoreOpsNext(fs: Frames, op: Op, b: seq<Op>, draws: seq<Draw>, fs': Frames, ctx: Context)
    requires FitsOps([op] + b, draws) && |draws| == 1 + |b|
    requires FitsOp(op, draws[0]) && FitsOps(b, draws[1..]) && StoreOp(fs, op, draws[0], ctx) == Some(fs')
    ensures StoreOps(fs, [op] + b, draws, ctx) == StoreOps(fs', b, draws[1..], ctx)
  {
    hide FitsOps, FitsOp, StoreOp;
    assert ([op] + b)[1..] == b;
  }

  /** The default program stores a ClientHello, up to the padding. */
  lemma DefaultStores(draws: seq<Draw>, ctx: Context) returns (first: seq<byte>, list: seq<byte>, last: seq<byte>)
    requires |ctx.grease| == GREASE_SIZE && FitsOps(DEFAULT_OPS, draws)
    ensures |draws| == 12 && draws[3].Raw? && |draws[3].bytes| == 32
    ensures StoreOps([[]], DEFAULT_OPS, draws, ctx) == Some([first + list + last])
    ensures var g0, g2 := ctx.grease[0], ctx.grease[2];
            first == RECORD_START + Zeros(32)
                     + (SessionAndCiphers(draws[3].bytes, g0) + EXTENSIONS_START + [g2, g2] + [0x00, 0x00])
    ensures IsExtensionList(list) && |list| == 175 + |ctx.GetDomain()|
    ensures draws[9].Shuffled? && IsOrder(draws[9].order, |PARTS|)
    ensures AreShuffledParts(Extensions(list), draws[9].order)
    ensures last == [ctx.grease[3], ctx.grease[3], 0x00, 0x01, 0x00] + [0x00, 0x15]
  {
    hide FitsOps, AllFlat, FlatBytes, FlatSize, StoreOps, StoreOp, IsExtensionList, Extensions, AreShuffledParts;
    StretchesFit(FIRST_OPS, Permutation(PARTS), LAST_OPS, draws);
    FirstOpsSize(ctx);
    LastOpsSize(ctx);
    assert |FIRST_OPS| == 9 && |LAST_OPS| == 2;
    FirstBytes(draws[..9], ctx);
    LastBytes(draws[10..], ctx);
    first, last := FlatBytes(FIRST_OPS, draws[..9], ctx), FlatBytes(LAST_OPS, draws[10..], ctx);
    list := PermutationStores([first], draws[9], ctx);
    StretchesStore(FIRST_OPS, Permutation(PARTS), LAST_OPS, draws, list, ctx);
  }

  /** The scopes of the default program all stand in one part of its permutation. */
  const NAME_PATH: seq<(nat, nat)> := [(9, 0)]

  lemma DefaultScopes()
    ensures HasScope(DEFAULT_OPS, NAME_PATH, 1, 8) && HasScope(DEFAULT_OPS, NAME_PATH, 2, 7)
    ensures HasScope(DEFAULT_OPS, NAME_PATH, 4, 6)
  {
    NameScopes();
    var ops := DEFAULT_OPS;
    assert ops[9] == Permutation(PARTS) && PARTS[0] == Part(SERVER_NAME);
    hide Encloses;
    assert HasPart(ops, 9, 0) && ops[9].parts[0].ops == SERVER_NAME && NAME_PATH[1..] == [];
    assert forall i, j :: Encloses(SERVER_NAME, i, j) ==> HasScope(ops, NAME_PATH, i, j);
  }

  lemma NameScopes()
    ensures Encloses(SERVER_NAME, 1, 8) && Encloses(SERVER_NAME, 2, 7) && Encloses(SERVER_NAME, 4, 6)
  {
    ServerNameEncloses();
    hide Balanced;
    var end, inner := [EndScope], SERVER_NAME[4..7];
    NothingIsBalanced();
    BalancedNext(EndScope, [], 1);
    assert end == [EndScope] + [] && inner == [BeginScope] + ([Domain] + end);
    BalancedNext(Domain, end, 1);
    BalancedNext(BeginScope, [Domain] + end, 0);
    BalancedNext(Str([0x00]), inner, 0);
    assert SERVER_NAME[3..7] == [Str([0x00])] + inner;
    BalancedNext(Domain, [], 0);
    assert SERVER_NAME[5..6] == [Domain] + [];
  }

  lemma NothingIsBalanced()
    ensures Balanced([], 0)
  {
  }

  lemma BalancedNext(op: Op, ops: seq<Op>, depth: nat)
    requires !op.Permutation?
    ensures Balanced([op] + ops, depth)
            == match op
               case BeginScope => Balanced(ops, depth + 1)
               case EndScope => depth > 0 && Balanced(ops, depth - 1)
               case _ => Balanced(ops, depth)
  {
    assert ([op] + ops)[1..] == ops;
  }

  lemma HostNameContents(draws: seq<Draw>, ctx: Context)
    requires FitsOps(DEFAULT_OPS, draws) && StoreOps([[]], DEFAULT_OPS, draws, ctx).Some?
    requires HasScope(DEFAULT_OPS, NAME_PATH, 4, 6)
    ensures ScopeContents(DEFAULT_OPS, draws, ctx, NAME_PATH, 4, 6) == ctx.GetDomain()
  {
    hide StoreOps, FitsOps, Flatten;
    PartIsStored(DEFAULT_OPS, draws, ctx, 9, 0);
    assert DEFAULT_OPS[9] == Permutation(PARTS) && PARTS[0] == Part(SERVER_NAME) && NAME_PATH[1..] == [];
    var inner := draws[9].draws[0];
    NameIsStored(inner, ctx);
  }

  lemma NameIsStored(draws: seq<Draw>, ctx: Context)
    requires FitsOps(SERVER_NAME, draws) && StoreOps([[]], SERVER_NAME, draws, ctx).Some? && Encloses(SERVER_NAME, 4, 6)
    ensures Contents(SERVER_NAME, draws, ctx, 4, 6) == ctx.GetDomain()
  {
    hide StoreOps;
    InsideIsStored(SERVER_NAME, draws, ctx, 4, 6);
    assert SERVER_NAME[5..6] == [Domain];
    OneDomain(draws[5..6], ctx);
  }

  lemma OneDomain(draws: seq<Draw>, ctx: Context)
    requires FitsOps([Domain], draws)
    ensures StoreOps([[]], [Domain], draws, ctx).Some?
    ensures Flatten(StoreOps([[]], [Domain], draws, ctx).value) == ctx.GetDomain()
  {
    assert [Domain][1..] == [] && draws[1..] == [];
    var name := ctx.GetDomain();
    assert [] + name == name && Append([[]], name) == [name];
  }

  lemma DefaultPasses(draws: seq<Draw>, ctx: Context)
    requires |ctx.grease| == GREASE_SIZE && FitsOps(DEFAULT_OPS, draws)
    ensures Passes(DEFAULT_OPS, draws, ctx)
  {
    hide LengthOps, FitsOps, FinishLength, Balanced;
    DefaultFits(ctx);
    DefaultLength(ctx);
    assert forall i :: 0 <= i < |DEFAULT_OPS| && DEFAULT_OPS[i].Permutation? ==> DEFAULT_OPS[i].parts == PARTS;
  }

  /** The shuffled extensions begin behind the hash. */
  lemma PartsComeLate(draws: seq<Draw>, ctx: Context)
    requires |ctx.grease| == GREASE_SIZE && FitsOps(DEFAULT_OPS, draws)
    requires StoreOps([[]], DEFAULT_OPS, draws, ctx).Some?
    ensures Offset(DEFAULT_OPS, draws, ctx, 9) == 118
  {
    hide FitsOps, FlatBytes, StoreOps, AllFlat;
    StretchesFit(FIRST_OPS, Permutation(PARTS), LAST_OPS, draws);
    FirstOpsSize(ctx);
    assert DEFAULT_OPS[..9] == FIRST_OPS;
    FirstBytes(draws[..9], ctx);
    FlatStored([], FIRST_OPS, draws[..9], ctx);
  }

  /** In the header, whatever the shuffle, the hash and the time, the host name stands behind its length. */
  lemma HostNameHasLength(draws: seq<Draw>, ctx: Context, digest: seq<byte>, unixTime: nat) returns (at: nat)
    requires |ctx.grease| == GREASE_SIZE && FitsOps(DEFAULT_OPS, draws) && |digest| == HASH_SIZE
    ensures Passes(DEFAULT_OPS, draws, ctx)
    ensures at >= 118 && Stands(Signed(Hello(DEFAULT_OPS, draws, ctx), digest, unixTime), at, ctx.GetDomain())
  {
    hide StoreOps, FitsOps, HasScope, Signed, Hello, Stands, Offset, ScopeContents;
    DefaultPasses(draws, ctx);
    hide Passes;
    DefaultScopes();
    ScopeInHeader(DEFAULT_OPS, draws, ctx, NAME_PATH, 4, 6);
    HostNameContents(draws, ctx);
    PartsComeLate(draws, ctx);
    at := ScopePlace(DEFAULT_OPS, draws, ctx, NAME_PATH, 4, 6);
    assert at >= 118 by { PartIsStored(DEFAULT_OPS, draws, ctx, 9, 0); }
  }

  // ---------- The public key

  /** What the random source yields for the public key */
  predicate HasKey(draws: seq<Draw>) {
    && |draws| == 12 && draws[9].Shuffled? && |draws[9].draws| == 15
    && |draws[9].draws[12]| == 4 && draws[9].draws[12][3].Raw? && |draws[9].draws[12][3].bytes| == 32
  }

  function KeyOf(draws: seq<Draw>): seq<byte>
    requires HasKey(draws)
  {
    draws[9].draws[12][3].bytes
  }

  /** The group and the length of the own key share stand in front of the key. */
  ghost predicate ShowsKey(header: seq<byte>, key: seq<byte>) {
    exists at: nat :: at >= 118 && KeyStandsAt(header, at, key)
  }

  predicate KeyStandsAt(header: seq<byte>, at: nat, key: seq<byte>) {
    |key| == 32 && at + 36 <= |header| && header[at..at + 36] == [0x00, 0x1d, 0x00, 0x20] + key
  }

  /** Wherever the shuffle puts the key share, the key stands in the header. */
  lemma KeyInHeader(draws: seq<Draw>, ctx: Context, digest: seq<byte>, unixTime: nat)
    requires |ctx.grease| == GREASE_SIZE && FitsOps(DEFAULT_OPS, draws) && |digest| == HASH_SIZE
    ensures Passes(DEFAULT_OPS, draws, ctx) && HasKey(draws)
    ensures ShowsKey(Signed(Hello(DEFAULT_OPS, draws, ctx), digest, unixTime), KeyOf(draws))
  {
    hide StoreOps, FitsOps, Signed, Hello, Offset, PartPlace, Flatten, ShowsKey;
    DefaultPasses(draws, ctx);
    hide Passes;
    var ops := DEFAULT_OPS;
    assert |ops| == 12 && ops[9] == Permutation(PARTS) && PARTS[12] == Part(KEY_SHARE) && HasPart(ops, 9, 12);
    PassingStores(ops, draws, ctx);
    PartInHeader(ops, draws, ctx, 9, 12, digest, unixTime);
    var key := KeyShareStores(draws[9].draws[12], ctx);
    var at := PartPlace(ops, draws, ctx, 9, 12);
    KeyComesLate(draws, ctx);
    KeyStands(Signed(Hello(ops, draws, ctx), digest, unixTime), at, ctx.grease[4], key);
  }

  lemma KeyComesLate(draws: seq<Draw>, ctx: Context)
    requires |ctx.grease| == GREASE_SIZE && FitsOps(DEFAULT_OPS, draws) && HasPart(DEFAULT_OPS, 9, 12)
    requires StoreOps([[]], DEFAULT_OPS, draws, ctx).Some?
    ensures PartPlace(DEFAULT_OPS, draws, ctx, 9, 12) >= 118
  {
    hide StoreOps, FitsOps, Offset, StoreParts;
    PartsComeLate(draws, ctx);
    PartIsStored(DEFAULT_OPS, draws, ctx, 9, 12);
  }

  lemma KeyStands(header: seq<byte>, at: nat, g: byte, key: seq<byte>)
    requires |key| == 32 && 118 <= at && at + 47 <= |header|
    requires header[at..at + 47] == SHARES_START + ([g, g] + (OWN_SHARE + key))
    ensures ShowsKey(header, key)
  {
    var share := SHARES_START + ([g, g] + (OWN_SHARE + key));
    assert share[11..] == [0x00, 0x1d, 0x00, 0x20] + key;
    var own := at + 11;
    assert header[own..own + 36] == header[at..at + 47][11..];
    assert KeyStandsAt(header, own, key);
  }

  // ---------- The record

  /** The numbers that the program hard-codes (512, 508, 403) are the lengths that a parser meets. */
  lemma PaddedParses(session: seq<byte>, ctx: Context, list: seq<byte>)
    requires |ctx.grease| == GREASE_SIZE && |session| == 32
    requires IsExtensionList(list) && |list| == 175 + |ctx.GetDomain()|
    ensures var g0, g2, g3, pad := ctx.grease[0], ctx.grease[2], ctx.grease[3], 215 - |ctx.GetDomain()|;
            && pad >= 33
            && var extensions := [g2, g2] + [0x00, 0x00] + list + [g3, g3, 0x00, 0x01, 0x00]
                                 + ([0x00, 0x15] + BigEndian16(pad) + Zeros(pad));
               && |extensions| == 403 && IsExtensionList(extensions)
               && Extensions(extensions) == AllExtensions(g2, Extensions(list), g3, pad)
               && var tail := SessionAndCiphers(session, g0) + EXTENSIONS_START + extensions;
                  IsHelloTail(tail) && TailExtensions(tail) == extensions
  {
    hide IsExtensionList, IsHelloTail, SessionAndCiphers, Extensions, TailExtensions;
    var pad := 215 - |ctx.GetDomain()|;
    ExtensionsParse(ctx.grease[2], list, ctx.grease[3], pad);
    TailParses(session, ctx.grease[0], [ctx.grease[2], ctx.grease[2]] + [0x00, 0x00] + list
                                       + [ctx.grease[3], ctx.grease[3], 0x00, 0x01, 0x00]
                                       + ([0x00, 0x15] + BigEndian16(pad) + Zeros(pad)));
  }

  lemma RecordAroundTail(tail: seq<byte>, digest: seq<byte>, unixTime: nat)
    requires IsHelloTail(tail) && |tail| == 474 && |digest| == HASH_SIZE
    ensures var header := Signed(RECORD_START + Zeros(32) + tail, digest, unixTime);
            IsClientHelloRecord(header) && header[43..] == tail
  {
    hide IsHelloTail, XorAll, LittleEndian;
    var hello := RECORD_START + Zeros(32) + tail;
    var h := Signed(hello, digest, unixTime);
    assert hello[HASH_BEGIN + HASH_SIZE..] == tail;
    assert h[43..] == tail;
    assert hello[..HASH_BEGIN] == RECORD_START;
    assert h[..11] == RECORD_START;
    assert forall i :: 0 <= i < 11 ==> h[i] == h[..11][i];
  }

  lemma Reassemble(start: seq<byte>, middle: seq<byte>, g: seq<byte>, list: seq<byte>, last: seq<byte>, p: seq<byte>,
                   n: seq<byte>, z: seq<byte>)
    ensures start + (middle + g) + list + (last + p) + n + z == start + (middle + (g + list + last + (p + n + z)))
  {
  }

  /** Whatever the domain, the random fill, the shuffle, the hash and the time: one ClientHello record */
  lemma DefaultRecord(draws: seq<Draw>, ctx: Context, digest: seq<byte>, unixTime: nat)
    requires |ctx.grease| == GREASE_SIZE && FitsOps(DEFAULT_OPS, draws) && |digest| == HASH_SIZE
    ensures StoreOps([[]], DEFAULT_OPS, draws, ctx).Some?
    ensures var frames := StoreOps([[]], DEFAULT_OPS, draws, ctx).value;
            && |frames| == 1 && |frames[0]| == 300 + |ctx.GetDomain()|
            && IsClientHelloRecord(Signed(Padded(frames[0]), digest, unixTime))
            && (IsGrease(ctx.grease) ==> HasProperExtensions(Signed(Padded(frames[0]), digest, unixTime)))
  {
    hide TailExtensions, Extensions, IsGrease, AreProper, AreShuffledParts, AllExtensions;
    hide IsExtensionList, IsHelloTail, SessionAndCiphers, IsClientHelloRecord, Signed, StoreOps, FitsOps;
    var first, list, last := DefaultStores(draws, ctx);
    var session, g0, g2, g3, d := draws[3].bytes, ctx.grease[0], ctx.grease[2], ctx.grease[3], |ctx.GetDomain()|;
    PaddedParses(session, ctx, list);
    var middle := SessionAndCiphers(session, g0) + EXTENSIONS_START;
    assert |middle| == 71 by { SessionLength(session, g0); }
    var g: seq<byte>, p: seq<byte>, pad := [g2, g2] + [0x00, 0x00], [0x00, 0x15], 215 - d;
    var tail := middle + (g + list + [g3, g3, 0x00, 0x01, 0x00] + (p + BigEndian16(pad) + Zeros(pad)));
    assert first == RECORD_START + Zeros(32) + (middle + g) by {
      assert middle + [g2, g2] + [0x00, 0x00] == middle + g;
    }
    Reassemble(RECORD_START + Zeros(32), middle, g, list, [g3, g3, 0x00, 0x01, 0x00], p, BigEndian16(pad), Zeros(pad));
    RecordAroundTail(tail, digest, unixTime);
    if IsGrease(ctx.grease) {
      AllAreProper(draws[9].order, ctx.grease, Extensions(list), pad);
    }
  }

  lemma SessionLength(session: seq<byte>, g0: byte)
    requires |session| == 32
    ensures |SessionAndCiphers(session, g0)| == 67
  {
  }

  /** The place of the hash is zero in the hello that is hashed. */
  lemma HashIsBlank(draws: seq<Draw>, ctx: Context)
    requires |ctx.grease| == GREASE_SIZE && FitsOps(DEFAULT_OPS, draws)
    ensures StoreOps([[]], DEFAULT_OPS, draws, ctx).Some?
    ensures var frames := StoreOps([[]], DEFAULT_OPS, draws, ctx).value;
            |frames| == 1 && |frames[0]| <= 514 && Padded(frames[0])[11..43] == Zeros(32)
  {
    hide FitsOps, StoreOps, IsExtensionList, Extensions, AreShuffledParts, SessionAndCiphers;
    var first, list, last := DefaultStores(draws, ctx);
    assert first[11..43] == Zeros(32);
    assert |first + list + last| <= 514 by {
      DefaultRecord(draws, ctx, Zeros(32), 0);
    }
  }

  /** Whoever knows the secret can check a header and read the time in it: the hash is that of the header with zeros in
      its place. */
  predicate IsAuthentic(header: seq<byte>, secret: seq<byte>, unixTime: nat, hmac: Hmac)
    requires |header| == PADDED_LENGTH && forall message: seq<byte> :: |hmac(secret, message)| == HASH_SIZE
  {
    var digest := hmac(secret, header[..11] + Zeros(32) + header[43..]);
    header[11..39] == digest[..28] && FromLittleEndian(XorAll(header[39..43], digest[28..])) == unixTime
  }

  lemma SignedIsAuthentic(hello: seq<byte>, secret: seq<byte>, unixTime: nat, hmac: Hmac)
    requires |hello| == PADDED_LENGTH && forall message: seq<byte> :: |hmac(secret, message)| == HASH_SIZE
    requires hello[11..43] == Zeros(32) && unixTime < 0x1_0000_0000
    ensures IsAuthentic(Signed(hello, hmac(secret, hello), unixTime), secret, unixTime, hmac)
  {
    hide Signed, XorAll;
    TimeIsRecovered(hello, hmac(secret, hello), unixTime);
    assert hello[..11] + hello[11..43] + hello[43..] == hello;
  }

  /** TlsObfusaction::generate_header with the default program, from the making of the grease on; `random` is what the
      random source yields for it. The result is always a ClientHello record with an authentic hash, with the
      host name behind its length, the key in its share, and all extensions of different types and with bodies that
      parse to the last byte. */
  method GenerateDefaultHeader(random: seq<byte>, domain: seq<byte>, draws: seq<Draw>, secret: seq<byte>,
                               unixTime: nat, hmac: Hmac)
    returns (header: seq<byte>)
    requires |random| == GREASE_SIZE && FitsOps(DEFAULT_OPS, draws)
    requires forall message: seq<byte> :: |hmac(secret, message)| == HASH_SIZE
    ensures |header| == PADDED_LENGTH && IsClientHelloRecord(header) && HasProperExtensions(header)
    ensures var name := if |domain| <= 182 then domain else domain[..182];
            exists at: nat :: at >= 118 && Stands(header, at, name)
    ensures HasKey(draws) && ShowsKey(header, KeyOf(draws))
    ensures unixTime < 0x1_0000_0000 ==> IsAuthentic(header, secret, unixTime, hmac)
  {
    hide StoreOps, LengthOps, FitsOps, IsClientHelloRecord, HasProperExtensions, IsGrease, Signed, Padded, Balanced;
    hide Stands, Hello, Passes, IsAuthentic, HasKey, ShowsKey;
    var grease := new byte[GREASE_SIZE](_ => 0);
    Init(grease, random);
    var ctx := Context(grease[..], domain);
    DefaultFits(ctx);
    DefaultLength(ctx);
    assert forall i :: 0 <= i < |DEFAULT_OPS| && DEFAULT_OPS[i].Permutation? ==> DEFAULT_OPS[i].parts == PARTS;
    var result := GenerateHeader(DEFAULT_OPS, draws, ctx, secret, unixTime, hmac);
    ghost var body := StoreOps([[]], DEFAULT_OPS, draws, ctx).value[0];
    DefaultRecord(draws, ctx, hmac(secret, Padded(body)), unixTime);
    ghost var at := HostNameHasLength(draws, ctx, hmac(secret, Padded(body)), unixTime);
    HelloIsPadded(DEFAULT_OPS, draws, ctx);
    KeyInHeader(draws, ctx, hmac(secret, Padded(body)), unixTime);
    HashIsBlank(draws, ctx);
    if unixTime < 0x1_0000_0000 {
      SignedIsAuthentic(Padded(body), secret, unixTime, hmac);
    }
    return result.value;
  }
}
