/** The default op program (the one used off Darwin) always yields a well-formed
    TLS record with one ClientHello, for every domain, random fill and shuffle. */
module TlsHelloDefault {
  import opened Options
  import opened Bytes
  import opened TlsHello
  import opened TlsHelloScopes
  import opened TlsHelloPasses

  const GREASE_SIZE: nat := 7

  // ---------- The program

  const RECORD_START: seq<byte> := [0x16, 0x03, 0x01, 0x02, 0x00, 0x01, 0x00, 0x01, 0xfc, 0x03, 0x03]

  const CIPHERS: seq<byte> := [
    0x13, 0x01, 0x13, 0x02, 0x13, 0x03, 0xc0, 0x2b, 0xc0, 0x2f, 0xc0, 0x2c, 0xc0, 0x30, 0xcc, 0xa9, 0xcc, 0xa8,
    0xc0, 0x13, 0xc0, 0x14, 0x00, 0x9c, 0x00, 0x9d, 0x00, 0x2f, 0x00, 0x35]

  /** One compression method, and the length of the extensions */
  const EXTENSIONS_START: seq<byte> := [0x01, 0x00, 0x01, 0x93]

  const FIRST_OPS: seq<Op> := [
    Str(RECORD_START), Zero(32), Str([0x20]), Random(32), Str([0x00, 0x20]), Grease(0),
    Str(CIPHERS + EXTENSIONS_START), Grease(2), Str([0x00, 0x00])]

  const SERVER_NAME: seq<Op> := [
    Str([0x00, 0x00]), BeginScope, BeginScope, Str([0x00]), BeginScope, Domain, EndScope, EndScope, EndScope]

  const STATUS_REQUEST: seq<Op> := [Str([0x00, 0x05, 0x00, 0x05, 0x01, 0x00, 0x00, 0x00, 0x00])]

  const SUPPORTED_GROUPS: seq<Op> := [
    Str([0x00, 0x0a, 0x00, 0x0a, 0x00, 0x08]), Grease(4), Str([0x00, 0x1d, 0x00, 0x17, 0x00, 0x18])]

  const POINT_FORMATS: seq<Op> := [Str([0x00, 0x0b, 0x00, 0x02, 0x01, 0x00])]

  const SIGNATURE_ALGORITHMS: seq<Op> := [
    Str([0x00, 0x0d, 0x00, 0x12, 0x00, 0x10, 0x04, 0x03, 0x08, 0x04, 0x04, 0x01, 0x05, 0x03, 0x08, 0x05, 0x05, 0x01,
         0x08, 0x06, 0x06, 0x01])]

  const PROTOCOLS: seq<Op> := [
    Str([0x00, 0x10, 0x00, 0x0e, 0x00, 0x0c, 0x02, 0x68, 0x32, 0x08, 0x68, 0x74, 0x74, 0x70, 0x2f, 0x31, 0x2e, 0x31])]

  const CERTIFICATE_TIMESTAMP: seq<Op> := [Str([0x00, 0x12, 0x00, 0x00])]
  const EXTENDED_MASTER_SECRET: seq<Op> := [Str([0x00, 0x17, 0x00, 0x00])]
  const COMPRESS_CERTIFICATE: seq<Op> := [Str([0x00, 0x1b, 0x00, 0x03, 0x02, 0x00, 0x02])]
  const SESSION_TICKET: seq<Op> := [Str([0x00, 0x23, 0x00, 0x00])]

  const SUPPORTED_VERSIONS: seq<Op> := [
    Str([0x00, 0x2b, 0x00, 0x07, 0x06]), Grease(6), Str([0x03, 0x04, 0x03, 0x03])]

  const KEY_EXCHANGE_MODES: seq<Op> := [Str([0x00, 0x2d, 0x00, 0x02, 0x01, 0x01])]

  const KEY_SHARE: seq<Op> := [
    Str([0x00, 0x33, 0x00, 0x2b, 0x00, 0x29]), Grease(4), Str([0x00, 0x01, 0x00, 0x00, 0x1d, 0x00, 0x20]), Key]

  const APPLICATION_SETTINGS: seq<Op> := [Str([0x44, 0x69, 0x00, 0x05, 0x00, 0x03, 0x02, 0x68, 0x32])]
  const RENEGOTIATION_INFO: seq<Op> := [Str([0xff, 0x01, 0x00, 0x01, 0x00])]

  const PARTS: seq<Part> := [
    Part(SERVER_NAME), Part(STATUS_REQUEST), Part(SUPPORTED_GROUPS), Part(POINT_FORMATS), Part(SIGNATURE_ALGORITHMS),
    Part(PROTOCOLS), Part(CERTIFICATE_TIMESTAMP), Part(EXTENDED_MASTER_SECRET), Part(COMPRESS_CERTIFICATE),
    Part(SESSION_TICKET), Part(SUPPORTED_VERSIONS), Part(KEY_EXCHANGE_MODES), Part(KEY_SHARE),
    Part(APPLICATION_SETTINGS), Part(RENEGOTIATION_INFO)]

  /** A grease extension, and the type of the padding extension */
  const LAST_OPS: seq<Op> := [Grease(3), Str([0x00, 0x01, 0x00, 0x00, 0x15])]

  const DEFAULT_OPS: seq<Op> := FIRST_OPS + ([Permutation(PARTS)] + LAST_OPS)

  // ---------- The format, from RFC 8446

  function U16(s: seq<byte>, at: nat): nat
    requires at + 2 <= |s|
  {
    256 * (s[at] as int) + s[at + 1] as int
  }

  /** One extension (section 4.2): a type, a length, and exactly that many bytes */
  predicate IsExtension(s: seq<byte>) {
    |s| >= 4 && |s| == 4 + U16(s, 2)
  }

  /** A list of extensions, consumed to the last byte */
  predicate IsExtensionList(s: seq<byte>)
    decreases |s|
  {
    s == [] || (|s| >= 4 && 4 + U16(s, 2) <= |s| && IsExtensionList(s[4 + U16(s, 2)..]))
  }

  datatype Extension = Extension(typ: nat, body: seq<byte>)

  /** The extensions of a list, in order */
  function Extensions(s: seq<byte>): seq<Extension>
    requires IsExtensionList(s)
    decreases |s|
  {
    if s == [] then []
    else [Extension(U16(s, 0), s[4..4 + U16(s, 2)])] + Extensions(s[4 + U16(s, 2)..])
  }

  /** The part of a ClientHello (section 4.1.2) from its session id on: session id, an even number of
      cipher suite bytes, the one compression method, and extensions that end where the message ends */
  predicate IsHelloTail(s: seq<byte>) {
    && |s| >= 1 && s[0] <= 32
    && var p := 1 + s[0] as int;
       && |s| >= p + 2
       && U16(s, p) > 0 && U16(s, p) % 2 == 0
       && |s| >= p + 2 + U16(s, p) + 1
       && var q := p + 2 + U16(s, p);
          && var e := q + 1 + s[q] as int;
             && |s| >= e + 2 && s[q] == 1 && s[q + 1] == 0
             && |s| == e + 2 + U16(s, e) && IsExtensionList(s[e + 2..])
  }

  /** The extensions, which end where the message ends */
  function TailExtensions(s: seq<byte>): (extensions: seq<byte>)
    requires IsHelloTail(s)
    ensures IsExtensionList(extensions)
  {
    var q := 1 + s[0] as int + 2 + U16(s, 1 + s[0] as int);
    s[q + 1 + s[q] as int + 2..]
  }

  /** One record (section 5.1) that holds one handshake message (section 4), a ClientHello */
  predicate IsClientHelloRecord(h: seq<byte>) {
    && |h| >= 43
    && h[0] == 0x16 && h[1] == 0x03
    && |h| == 5 + U16(h, 3)
    && h[5] == 0x01 && |h| == 9 + 0x1_0000 * (h[6] as int) + U16(h, 7)
    && U16(h, 9) == 0x0303
    && IsHelloTail(h[43..])
  }

  // ---------- Lists of extensions

  lemma ExtensionIsList(s: seq<byte>)
    requires IsExtension(s)
    ensures IsExtensionList(s) && Extensions(s) == [Extension(U16(s, 0), s[4..])]
  {
    assert s[4 + U16(s, 2)..] == [] && s[4..4 + U16(s, 2)] == s[4..];
  }

  lemma {:induction false} ListsConcatenate(a: seq<byte>, b: seq<byte>)
    requires IsExtensionList(a) && IsExtensionList(b)
    ensures IsExtensionList(a + b) && Extensions(a + b) == Extensions(a) + Extensions(b)
    decreases |a|
  {
    hide Extensions, IsExtensionList, U16;
    if a == [] {
      NoExtensions();
      assert a + b == b && [] + Extensions(b) == Extensions(b);
    } else {
      ExtensionsUnfold(a);
      var n := 4 + U16(a, 2);
      ListsConcatenate(a[n..], b);
      SameStart(a, b);
      assert (a + b)[n..] == a[n..] + b && (a + b)[4..n] == a[4..n];
      FirstExtension(a + b, n, a[n..] + b);
      var first := [Extension(U16(a, 0), a[4..n])];
      assert first + Extensions(a[n..]) + Extensions(b) == first + (Extensions(a[n..]) + Extensions(b));
    }
  }

  lemma NoExtensions()
    ensures IsExtensionList([]) && Extensions([]) == []
  {
  }

  lemma ExtensionsUnfold(s: seq<byte>)
    requires IsExtensionList(s) && s != []
    ensures |s| >= 4 && 4 + U16(s, 2) <= |s| && IsExtensionList(s[4 + U16(s, 2)..])
    ensures var n := 4 + U16(s, 2); Extensions(s) == [Extension(U16(s, 0), s[4..n])] + Extensions(s[n..])
  {
  }

  lemma SameStart(a: seq<byte>, b: seq<byte>)
    requires |a| >= 4
    ensures U16(a + b, 0) == U16(a, 0) && U16(a + b, 2) == U16(a, 2)
  {
  }

  lemma FirstExtension(s: seq<byte>, n: nat, rest: seq<byte>)
    requires |s| >= 4 && n == 4 + U16(s, 2) && n <= |s| && s[n..] == rest && IsExtensionList(rest)
    ensures IsExtensionList(s) && Extensions(s) == [Extension(U16(s, 0), s[4..n])] + Extensions(rest)
  {
  }

  lemma {:induction false} ExtensionsConcatenate(parts: seq<seq<byte>>)
    requires forall i :: 0 <= i < |parts| ==> IsExtension(parts[i])
    ensures IsExtensionList(Concat(parts)) && |Extensions(Concat(parts))| == |parts|
    ensures forall i :: 0 <= i < |parts| ==>
              |parts[i]| >= 4 && Extensions(Concat(parts))[i] == Extension(U16(parts[i], 0), parts[i][4..])
  {
    hide Extensions, IsExtensionList, U16;
    if parts == [] {
      NoExtensions();
    } else {
      ExtensionIsList(parts[0]);
      ExtensionsConcatenate(parts[1..]);
      ListsConcatenate(parts[0], Concat(parts[1..]));
      assert forall i :: 0 < i < |parts| ==> parts[i] == parts[1..][i - 1];
    }
  }

  // ---------- Ops without scopes and permutations

  predicate IsFlat(op: Op, ctx: Context) {
    match op
    case Random(n) => 0 < n <= 1024
    case Zero(n) => 0 < n <= 1024
    case Grease(seed) => 0 <= seed < |ctx.grease|
    case Str(_) => true
    case Domain => true
    case Key => true
    case _ => false
  }

  predicate AllFlat(ops: seq<Op>, ctx: Context) {
    forall i :: 0 <= i < |ops| ==> IsFlat(ops[i], ctx)
  }

  function FlatSize(ops: seq<Op>, ctx: Context): nat
    requires AllFlat(ops, ctx)
  {
    if ops == [] then 0 else LengthOp(NO_LENGTH, ops[0], ctx).size + FlatSize(ops[1..], ctx)
  }

  function FlatBytes(ops: seq<Op>, draws: seq<Draw>, ctx: Context): seq<byte>
    requires FitsOps(ops, draws) && AllFlat(ops, ctx)
  {
    if ops == [] then []
    else
      assert IsFlat(ops[0], ctx);
      StoreOp([[]], ops[0], draws[0], ctx).value[0] + FlatBytes(ops[1..], draws[1..], ctx)
  }

  /** The size of one flat op and those behind it */
  lemma FlatSizeNext(ops: seq<Op>, k: nat, ctx: Context)
    requires k < |ops| && AllFlat(ops, ctx)
    ensures AllFlat(ops[k..], ctx) && AllFlat(ops[k + 1..], ctx)
    ensures FlatSize(ops[k..], ctx) == LengthOp(NO_LENGTH, ops[k], ctx).size + FlatSize(ops[k + 1..], ctx)
    ensures k + 1 == |ops| ==> FlatSize(ops[k + 1..], ctx) == 0
  {
    assert ops[k..][1..] == ops[k + 1..];
  }

  lemma FlatOpStores(fs: Frames, op: Op, draw: Draw, ctx: Context)
    requires FitsOp(op, draw) && IsFlat(op, ctx)
    ensures var bytes := StoreOp([[]], op, draw, ctx).value[0];
            && StoreOp(fs, op, draw, ctx) == Some(Append(fs, bytes))
            && |bytes| == LengthOp(NO_LENGTH, op, ctx).size
  {
    assert forall s: seq<byte> :: [] + s == s;
  }

  lemma {:induction false} FlatOpsStore(fs: Frames, ops: seq<Op>, draws: seq<Draw>, ctx: Context)
    requires FitsOps(ops, draws) && AllFlat(ops, ctx)
    ensures StoreOps(fs, ops, draws, ctx) == Some(Append(fs, FlatBytes(ops, draws, ctx)))
    ensures |FlatBytes(ops, draws, ctx)| == FlatSize(ops, ctx)
    decreases |ops|
  {
    if ops == [] {
      AppendTwice(fs, [], []);
    } else {
      FlatOpStores(fs, ops[0], draws[0], ctx);
      var bytes := StoreOp([[]], ops[0], draws[0], ctx).value[0];
      FlatOpsStore(Append(fs, bytes), ops[1..], draws[1..], ctx);
      AppendTwice(fs, bytes, FlatBytes(ops[1..], draws[1..], ctx));
    }
  }

  lemma {:induction false} FlatOpsLength(l: Length, ops: seq<Op>, ctx: Context)
    requires !l.error && AllFlat(ops, ctx)
    ensures LengthOps(l, ops, ctx) == Grow(l, FlatSize(ops, ctx))
    ensures Balanced(ops, 0)
    decreases |ops|
  {
    if ops != [] {
      FlatOpsLength(LengthOp(l, ops[0], ctx), ops[1..], ctx);
    }
  }

  // ---------- The parts

  /** The part has the given length and is stored as one extension. */
  ghost predicate StoresExtension(part: seq<Op>, ctx: Context, size: nat) {
    && Balanced(part, 0)
    && LengthOps(NO_LENGTH, part, ctx) == Length(size, false, [])
    && forall draws :: FitsOps(part, draws) ==>
         StoreOps([[]], part, draws, ctx).Some? && IsExtension(Flatten(StoreOps([[]], part, draws, ctx).value))
  }

  lemma FlatPart(part: seq<Op>, ctx: Context)
    requires AllFlat(part, ctx)
    requires |part| > 0 && part[0].Str? && |part[0].data| >= 4 && 4 + U16(part[0].data, 2) == FlatSize(part, ctx)
    ensures StoresExtension(part, ctx, FlatSize(part, ctx))
  {
    FlatOpsLength(NO_LENGTH, part, ctx);
    forall draws | FitsOps(part, draws)
      ensures StoreOps([[]], part, draws, ctx).Some? && IsExtension(Flatten(StoreOps([[]], part, draws, ctx).value))
    {
      FlatOpsStore([[]], part, draws, ctx);
      var bytes := FlatBytes(part, draws, ctx);
      assert [] + bytes == bytes && [] + part[0].data == part[0].data;
      assert bytes == part[0].data + FlatBytes(part[1..], draws[1..], ctx);
    }
  }

  lemma ServerNamePart(ctx: Context)
    ensures StoresExtension(SERVER_NAME, ctx, 9 + |ctx.GetDomain()|)
  {
    ServerNameBalanced();
    ServerNameLength(ctx);
    forall draws | FitsOps(SERVER_NAME, draws)
      ensures StoreOps([[]], SERVER_NAME, draws, ctx).Some?
      ensures IsExtension(Flatten(StoreOps([[]], SERVER_NAME, draws, ctx).value))
    {
      ServerNameBytes(draws, ctx);
    }
  }

  lemma ServerNameBalanced()
    ensures Balanced(SERVER_NAME, 0) && Encloses(SERVER_NAME, 1, 8)
  {
    var ops := SERVER_NAME;
    assert Balanced(ops[9..], 0) && Balanced(ops[8..], 1) && Balanced(ops[7..], 2) && Balanced(ops[6..], 3);
    assert Balanced(ops[5..], 3) && Balanced(ops[4..], 2) && Balanced(ops[3..], 2) && Balanced(ops[2..], 1);
    ServerNameEncloses();
  }

  lemma ServerNameEncloses()
    ensures Encloses(SERVER_NAME, 1, 8)
  {
    var inner := SERVER_NAME[2..8];
    assert Balanced(inner[6..], 0) && Balanced(inner[5..], 1) && Balanced(inner[4..], 2);
    assert Balanced(inner[3..], 2) && Balanced(inner[2..], 1) && Balanced(inner[1..], 1);
  }

  lemma ServerNameLength(ctx: Context)
    ensures LengthOps(NO_LENGTH, SERVER_NAME, ctx) == Length(9 + |ctx.GetDomain()|, false, [])
  {
    hide LengthOps, LengthOp;
    var ops, d := SERVER_NAME, |ctx.GetDomain()|;
    ServerNameScopesOpen(ctx);
    ServerNameScopesClose(d, ctx);
    LengthNext(NO_LENGTH, ops, 0, ctx);
    LengthNext(Length(2, false, []), ops, 1, ctx);
    LengthNext(Length(4, false, [4]), ops, 2, ctx);
    LengthNext(Length(6, false, [4, 6]), ops, 3, ctx);
    LengthNext(Length(7, false, [4, 6]), ops, 4, ctx);
    LengthNext(Length(9, false, [4, 6, 9]), ops, 5, ctx);
    LengthNext(Length(9 + d, false, [4, 6, 9]), ops, 6, ctx);
    LengthNext(Length(9 + d, false, [4, 6]), ops, 7, ctx);
    LengthNext(Length(9 + d, false, [4]), ops, 8, ctx);
    assert ops[0..] == ops;
  }

  lemma ServerNameScopesOpen(ctx: Context)
    ensures LengthOp(NO_LENGTH, SERVER_NAME[0], ctx) == Length(2, false, [])
    ensures LengthOp(Length(2, false, []), BeginScope, ctx) == Length(4, false, [4])
    ensures LengthOp(Length(4, false, [4]), BeginScope, ctx) == Length(6, false, [4, 6])
    ensures LengthOp(Length(6, false, [4, 6]), SERVER_NAME[3], ctx) == Length(7, false, [4, 6])
    ensures LengthOp(Length(7, false, [4, 6]), BeginScope, ctx) == Length(9, false, [4, 6, 9])
    ensures LengthOp(Length(9, false, [4, 6, 9]), Domain, ctx) == Length(9 + |ctx.GetDomain()|, false, [4, 6, 9])
  {
  }

  lemma ServerNameScopesClose(d: nat, ctx: Context)
    requires d <= MAX_DOMAIN_LENGTH
    ensures LengthOp(Length(9 + d, false, [4, 6, 9]), EndScope, ctx) == Length(9 + d, false, [4, 6])
    ensures LengthOp(Length(9 + d, false, [4, 6]), EndScope, ctx) == Length(9 + d, false, [4])
    ensures LengthOp(Length(9 + d, false, [4]), EndScope, ctx) == Length(9 + d, false, [])
  {
    assert [4, 6, 9][..2] == [4, 6] && [4, 6][..1] == [4] && [4][..0] == [];
  }

  lemma LengthNext(l: Length, ops: seq<Op>, k: nat, ctx: Context)
    requires k < |ops|
    ensures LengthOps(l, ops[k..], ctx) == LengthOps(LengthOp(l, ops[k], ctx), ops[k + 1..], ctx)
    ensures k + 1 == |ops| ==> LengthOps(l, ops[k..], ctx) == LengthOp(l, ops[k], ctx)
  {
    assert ops[k..][1..] == ops[k + 1..];
  }

  /** A type, then one scope around all the rest: an extension, whatever is inside. */
  lemma ScopedExtension(part: seq<Op>, draws: seq<Draw>, ctx: Context)
    requires FitsOps(part, draws) && StoreOps([[]], part, draws, ctx).Some?
    requires |part| > 2 && part[0].Str? && |part[0].data| == 2 && Encloses(part, 1, |part| - 1)
    ensures IsExtension(Flatten(StoreOps([[]], part, draws, ctx).value))
  {
    hide StoreOps, Flatten, FitsOps, Balanced;
    var last := |part| - 1;
    ScopeHoldsItsLength(part, draws, ctx, 1, last);
    TypeComesFirst(part, draws, ctx);
    LastScopeEnds(part, draws, ctx);
    var out, content := Flatten(StoreOps([[]], part, draws, ctx).value), Contents(part, draws, ctx, 1, last);
    SizeBytes(out, BigEndian16(|content|), content);
  }

  /** A type of two bytes, two bytes of length, and the contents */
  lemma SizeBytes(s: seq<byte>, size: seq<byte>, content: seq<byte>)
    requires |content| < 0x1_0000 && size == BigEndian16(|content|)
    requires |s| == 4 + |content| && s[2..4 + |content|] == size + content
    ensures IsExtension(s)
  {
    assert s[2] == s[2..4 + |content|][0] == size[0] && s[3] == s[2..4 + |content|][1] == size[1];
  }

  lemma TypeComesFirst(part: seq<Op>, draws: seq<Draw>, ctx: Context)
    requires FitsOps(part, draws) && StoreOps([[]], part, draws, ctx).Some?
    requires part != [] && part[0].Str? && |part[0].data| == 2
    ensures Offset(part, draws, ctx, 1) == 2
  {
    StoreOpsSplits([[]], part, draws, ctx, 1);
    assert part[..1][1..] == [] && StoreOps([[]], part[..1], draws[..1], ctx) == StoreOp([[]], part[0], draws[0], ctx);
  }

  /** Closing the last scope of a part does not change the length. */
  lemma LastScopeEnds(part: seq<Op>, draws: seq<Draw>, ctx: Context)
    requires FitsOps(part, draws) && StoreOps([[]], part, draws, ctx).Some?
    requires part != [] && part[|part| - 1].EndScope?
    ensures Offset(part, draws, ctx, |part| - 1) == |Flatten(StoreOps([[]], part, draws, ctx).value)|
  {
    var last := |part| - 1;
    StoreOpsSplits([[]], part, draws, ctx, last);
    var inside := StoreOps([[]], part[..last], draws[..last], ctx).value;
    assert part[last..][1..] == [];
    CloseScope(inside, part[last..], draws[last..], ctx);
    EndFlattens(inside);
  }

  lemma ServerNameBytes(draws: seq<Draw>, ctx: Context)
    requires FitsOps(SERVER_NAME, draws)
    ensures StoreOps([[]], SERVER_NAME, draws, ctx).Some?
    ensures IsExtension(Flatten(StoreOps([[]], SERVER_NAME, draws, ctx).value))
  {
    ServerNameLength(ctx);
    ServerNameBalanced();
    OpsStore(NO_LENGTH, [[]], SERVER_NAME, draws, 0, ctx);
    ScopedExtension(SERVER_NAME, draws, ctx);
  }

  // ---------- All parts together

  /** The length of part k */
  function PartSize(k: nat, ctx: Context): nat
    requires k < |PARTS|
  {
    if k == 0 then 9 + |ctx.GetDomain()| else [0, 9, 14, 6, 22, 18, 4, 4, 7, 4, 11, 6, 47, 9, 5][k]
  }

  lemma ShortPart(part: seq<Op>, ctx: Context)
    requires |part| == 1 && part[0].Str? && IsExtension(part[0].data)
    ensures StoresExtension(part, ctx, |part[0].data|)
  {
    assert part[1..] == [];
    FlatPart(part, ctx);
  }

  lemma GreasedPart(part: seq<Op>, ctx: Context)
    requires |part| == 3 && part[0].Str? && part[1].Grease? && 0 <= part[1].seed < |ctx.grease| && part[2].Str?
    requires |part[0].data| >= 4 && 4 + U16(part[0].data, 2) == |part[0].data| + 2 + |part[2].data|
    ensures StoresExtension(part, ctx, |part[0].data| + 2 + |part[2].data|)
  {
    hide FlatSize;
    FlatSizeNext(part, 2, ctx);
    FlatSizeNext(part, 1, ctx);
    FlatSizeNext(part, 0, ctx);
    assert part[0..] == part;
    FlatPart(part, ctx);
  }

  lemma KeySharePart(ctx: Context)
    requires |ctx.grease| == GREASE_SIZE
    ensures StoresExtension(KEY_SHARE, ctx, 47)
  {
    hide FlatSize;
    FlatSizeNext(KEY_SHARE, 3, ctx);
    FlatSizeNext(KEY_SHARE, 2, ctx);
    FlatSizeNext(KEY_SHARE, 1, ctx);
    FlatSizeNext(KEY_SHARE, 0, ctx);
    assert KEY_SHARE[0..] == KEY_SHARE;
    FlatPart(KEY_SHARE, ctx);
  }

  /** Every part of the permutation is stored as one extension of a known length. */
  lemma PartStoresExtension(k: nat, ctx: Context)
    requires k < |PARTS| && |ctx.grease| == GREASE_SIZE
    ensures StoresExtension(PARTS[k].ops, ctx, PartSize(k, ctx))
  {
    hide StoresExtension;
    if k == 0 {
      ServerNamePart(ctx);
    } else if k == 2 {
      GreasedPart(SUPPORTED_GROUPS, ctx);
    } else if k == 10 {
      GreasedPart(SUPPORTED_VERSIONS, ctx);
    } else if k == 12 {
      KeySharePart(ctx);
    } else {
      ShortPart(PARTS[k].ops, ctx);
    }
  }

  function SizeFrom(k: nat, ctx: Context): nat
    requires k <= |PARTS|
    decreases |PARTS| - k
  {
    if k == |PARTS| then 0 else PartSize(k, ctx) + SizeFrom(k + 1, ctx)
  }

  lemma SizeOfParts(ctx: Context)
    ensures SizeFrom(0, ctx) == 175 + |ctx.GetDomain()|
  {
    assert SizeFrom(13, ctx) == 14;
    assert SizeFrom(11, ctx) == 67;
    assert SizeFrom(9, ctx) == 82;
    assert SizeFrom(7, ctx) == 93;
    assert SizeFrom(5, ctx) == 115;
    assert SizeFrom(3, ctx) == 143;
    assert SizeFrom(1, ctx) == 166;
  }

  lemma PartLength(l: Length, k: nat, ctx: Context)
    requires !l.error && k < |PARTS| && |ctx.grease| == GREASE_SIZE
    ensures Balanced(PARTS[k].ops, 0) && LengthOps(l, PARTS[k].ops, ctx) == Grow(l, PartSize(k, ctx))
  {
    hide LengthOps, Balanced, PartSize;
    PartStoresExtension(k, ctx);
    PartIsLocal(l, PARTS[k].ops, ctx);
  }

  lemma PartsBalanced(ctx: Context)
    requires |ctx.grease| == GREASE_SIZE
    ensures BalancedParts(PARTS)
  {
    hide LengthOps, Balanced, PartSize;
    forall k | 0 <= k < |PARTS|
      ensures Balanced(PARTS[k].ops, 0)
    {
      PartLength(NO_LENGTH, k, ctx);
    }
  }

  lemma {:induction false} PartsLength(l: Length, k: nat, ctx: Context)
    requires !l.error && k <= |PARTS| && |ctx.grease| == GREASE_SIZE
    ensures LengthParts(l, PARTS[k..], ctx) == Grow(l, SizeFrom(k, ctx))
    decreases |PARTS| - k
  {
    hide LengthOps, PartSize, LengthParts;
    var parts := PARTS;
    NoPartsLength(l, ctx);
    if k < |parts| {
      PartLength(l, k, ctx);
      PartsLength(Grow(l, PartSize(k, ctx)), k + 1, ctx);
      LengthPartsNext(l, parts, k, ctx);
    } else {
      assert parts[k..] == [];
    }
  }

  lemma NoPartsLength(l: Length, ctx: Context)
    ensures LengthParts(l, [], ctx) == l
  {
  }

  lemma LengthPartsNext(l: Length, parts: seq<Part>, k: nat, ctx: Context)
    requires k < |parts|
    ensures LengthParts(l, parts[k..], ctx) == LengthParts(LengthOps(l, parts[k].ops, ctx), parts[k + 1..], ctx)
  {
    hide LengthOps;
    assert parts[k..][0] == parts[k] && parts[k..][1..] == parts[k + 1..];
  }

  // ---------- The whole program

  lemma {:induction false} LengthOpsConcat(l: Length, a: seq<Op>, b: seq<Op>, ctx: Context)
    ensures LengthOps(l, a + b, ctx) == LengthOps(LengthOps(l, a, ctx), b, ctx)
    decreases |a|
  {
    if a == [] {
      assert a + b == b;
    } else {
      assert (a + b)[1..] == a[1..] + b;
      LengthOpsConcat(LengthOp(l, a[0], ctx), a[1..], b, ctx);
    }
  }

  lemma FlatNext(ops: seq<Op>, draws: seq<Draw>, ctx: Context, k: nat)
    requires k < |ops| && FitsOps(ops, draws) && AllFlat(ops, ctx)
    ensures IsFlat(ops[k], ctx) && StoreOp([[]], ops[k], draws[k], ctx).Some?
    ensures FlatBytes(ops[k..], draws[k..], ctx)
            == StoreOp([[]], ops[k], draws[k], ctx).value[0] + FlatBytes(ops[k + 1..], draws[k + 1..], ctx)
    ensures FlatSize(ops[k..], ctx) == LengthOp(NO_LENGTH, ops[k], ctx).size + FlatSize(ops[k + 1..], ctx)
    ensures k + 1 == |ops| ==> FlatBytes(ops[k + 1..], draws[k + 1..], ctx) == [] && FlatSize(ops[k + 1..], ctx) == 0
  {
    assert ops[k..][1..] == ops[k + 1..] && draws[k..][1..] == draws[k + 1..];
  }
}
