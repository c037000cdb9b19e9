/** What stands inside the extensions of a hello: the bodies of section 4.2 of RFC 8446 and of the documents it refers
    to, consumed to the last byte. */
module TlsHelloBodies {
  import opened Options
  import opened Bytes
  import opened TlsHello
  import opened TlsHelloScopes
  import opened TlsHelloNesting
  import opened TlsHelloDefault
  import opened TlsGrease

  // ---------- The format

  /** One host name in a server name list (section 3 of RFC 6066) */
  predicate IsServerNames(b: seq<byte>) {
    |b| >= 5 && |b| == 2 + U16(b, 0) && b[2] == 0 && |b| == 5 + U16(b, 3)
  }

  /** A request for an OCSP status (section 8 of RFC 6066): responder ids and request extensions */
  predicate IsStatusRequest(b: seq<byte>) {
    |b| >= 5 && b[0] == 1 && 5 + U16(b, 1) <= |b| && |b| == 5 + U16(b, 1) + U16(b, 3 + U16(b, 1))
  }

  /** A non-empty list of numbers of two bytes, behind two bytes of length */
  predicate IsList16(b: seq<byte>) {
    |b| >= 4 && |b| == 2 + U16(b, 0) && |b| % 2 == 0
  }

  /** A non-empty list of numbers of `width` bytes, behind one byte of length */
  predicate IsList8(b: seq<byte>, width: nat)
    requires width > 0
  {
    |b| > 1 && |b| == 1 + b[0] as int && b[0] as int % width == 0
  }

  /** Names that are not empty, each behind one byte of length */
  predicate AreNames(s: seq<byte>)
    decreases |s|
  {
    s == [] || (s[0] > 0 && 1 + s[0] as int <= |s| && AreNames(s[1 + s[0] as int..]))
  }

  predicate IsNameList(b: seq<byte>) {
    |b| > 2 && |b| == 2 + U16(b, 0) && AreNames(b[2..])
  }

  /** Key shares (section 4.2.8): a group, and a key that is not empty */
  predicate AreShares(s: seq<byte>)
    decreases |s|
  {
    s == [] || (|s| >= 4 && U16(s, 2) > 0 && 4 + U16(s, 2) <= |s| && AreShares(s[4 + U16(s, 2)..]))
  }

  predicate IsKeyShare(b: seq<byte>) {
    |b| > 2 && |b| == 2 + U16(b, 0) && AreShares(b[2..])
  }

  /** The body of an extension of this type */
  predicate IsBody(typ: nat, b: seq<byte>) {
    if typ == 0x00 then IsServerNames(b)
    else if typ == 0x05 then IsStatusRequest(b)
    else if typ == 0x0a || typ == 0x0d then IsList16(b)
    else if typ == 0x0b || typ == 0x2d then IsList8(b, 1)
    else if typ == 0x1b || typ == 0x2b then IsList8(b, 2)
    else if typ == 0x10 || typ == 0x4469 then IsNameList(b)
    else if typ == 0x12 || typ == 0x17 || typ == 0x23 then b == []
    else if typ == 0x33 then IsKeyShare(b)
    else if typ == 0xff01 then |b| > 0 && |b| == 1 + b[0] as int
    else if typ == 0x15 then b == Zeros(|b|)
    else true
  }

  /** No type occurs twice, as section 4.2 demands, and all bodies parse. */
  predicate AreProper(extensions: seq<Extension>) {
    && (forall i, j :: 0 <= i < j < |extensions| ==> extensions[i].typ != extensions[j].typ)
    && (forall i :: 0 <= i < |extensions| ==> IsBody(extensions[i].typ, extensions[i].body))
  }

  ghost predicate HasProperExtensions(h: seq<byte>) {
    IsClientHelloRecord(h) && AreProper(Extensions(TailExtensions(h[43..])))
  }

  // ---------- The bytes of flat ops

  /** The bytes of one flat op, in front of those behind it */
  lemma FlatBytesNext(ops: seq<Op>, draws: seq<Draw>, k: nat, bytes: seq<byte>, rest: seq<byte>, ctx: Context)
    requires k < |ops| && FitsOps(ops, draws) && AllFlat(ops, ctx)
    requires AllFlat(ops[k + 1..], ctx) && FitsOps(ops[k + 1..], draws[k + 1..])
    requires FlatBytes(ops[k + 1..], draws[k + 1..], ctx) == rest
    requires match ops[k]
             case Str(data) => bytes == data
             case Random(_) => draws[k].Raw? && bytes == draws[k].bytes
             case Zero(n) => n >= 0 && bytes == Zeros(n)
             case Grease(seed) => 0 <= seed < |ctx.grease| && bytes == [ctx.grease[seed], ctx.grease[seed]]
             case Key => draws[k].Raw? && bytes == draws[k].bytes
             case _ => false
    ensures AllFlat(ops[k..], ctx) && FitsOps(ops[k..], draws[k..])
    ensures FlatBytes(ops[k..], draws[k..], ctx) == bytes + rest
  {
    assert forall s: seq<byte> :: [] + s == s;
    FlatNext(ops, draws, ctx, k);
  }

  lemma NoFlatBytes(ctx: Context)
    ensures AllFlat([], ctx) && FitsOps([], []) && FlatBytes([], [], ctx) == []
  {
  }

  lemma FlatPartStores(part: seq<Op>, draws: seq<Draw>, ctx: Context)
    requires FitsOps(part, draws) && AllFlat(part, ctx)
    ensures StoreOps([[]], part, draws, ctx).Some?
    ensures Flatten(StoreOps([[]], part, draws, ctx).value) == FlatBytes(part, draws, ctx)
  {
    hide FlatBytes, StoreOps, FitsOps, AllFlat;
    FlatOpsStore([[]], part, draws, ctx);
    var bytes := FlatBytes(part, draws, ctx);
    assert [] + bytes == bytes && Append([[]], bytes) == [bytes];
  }

  // ---------- The bodies of the parts

  lemma ShortPartStores(part: seq<Op>, draws: seq<Draw>, ctx: Context)
    requires |part| == 1 && part[0].Str? && FitsOps(part, draws)
    ensures StoreOps([[]], part, draws, ctx).Some?
    ensures Flatten(StoreOps([[]], part, draws, ctx).value) == part[0].data
  {
    FlatPartStores(part, draws, ctx);
    NoFlatBytes(ctx);
    assert part[1..] == [] && draws[1..] == [] && part[0..] == part && draws[0..] == draws;
    var data := part[0].data;
    hide FlatBytes;
    FlatBytesNext(part, draws, 0, data, [], ctx);
    assert data + [] == data;
  }

  lemma GreasedPartStores(part: seq<Op>, draws: seq<Draw>, ctx: Context)
    requires |part| == 3 && part[0].Str? && part[1].Grease? && 0 <= part[1].seed < |ctx.grease| && part[2].Str?
    requires FitsOps(part, draws)
    ensures StoreOps([[]], part, draws, ctx).Some?
    ensures var g := ctx.grease[part[1].seed];
            Flatten(StoreOps([[]], part, draws, ctx).value) == part[0].data + ([g, g] + part[2].data)
  {
    FlatPartStores(part, draws, ctx);
    NoFlatBytes(ctx);
    assert part[3..] == [] && draws[3..] == [] && part[0..] == part && draws[0..] == draws;
    var g, last := ctx.grease[part[1].seed], part[2].data;
    hide FlatBytes, FitsOp;
    FlatBytesNext(part, draws, 2, last, [], ctx);
    assert last + [] == last;
    FlatBytesNext(part, draws, 1, [g, g], last, ctx);
    FlatBytesNext(part, draws, 0, part[0].data, [g, g] + last, ctx);
  }

  const SHARES_START: seq<byte> := [0x00, 0x33, 0x00, 0x2b, 0x00, 0x29]
  const OWN_SHARE: seq<byte> := [0x00, 0x01, 0x00, 0x00, 0x1d, 0x00, 0x20]

  lemma KeyShareStores(draws: seq<Draw>, ctx: Context) returns (key: seq<byte>)
    requires FitsOps(KEY_SHARE, draws) && |ctx.grease| == GREASE_SIZE
    ensures |key| == 32 && StoreOps([[]], KEY_SHARE, draws, ctx).Some?
    ensures |draws| == 4 && draws[3].Raw? && key == draws[3].bytes
    ensures var g := ctx.grease[4];
            Flatten(StoreOps([[]], KEY_SHARE, draws, ctx).value) == SHARES_START + ([g, g] + (OWN_SHARE + key))
  {
    var part, g := KEY_SHARE, ctx.grease[4];
    FlatPartStores(part, draws, ctx);
    NoFlatBytes(ctx);
    assert part[4..] == [] && draws[4..] == [] && part[0..] == part && draws[0..] == draws;
    assert FitsOp(part[3], draws[3]);
    key := draws[3].bytes;
    hide FlatBytes, FitsOp;
    FlatBytesNext(part, draws, 3, key, [], ctx);
    assert key + [] == key;
    FlatBytesNext(part, draws, 2, OWN_SHARE, key, ctx);
    FlatBytesNext(part, draws, 1, [g, g], OWN_SHARE + key, ctx);
    FlatBytesNext(part, draws, 0, SHARES_START, [g, g] + (OWN_SHARE + key), ctx);
  }

  lemma KeyShareBody(g: byte, key: seq<byte>)
    requires |key| == 32
    ensures IsKeyShare((SHARES_START + ([g, g] + (OWN_SHARE + key)))[4..])
  {
    var b := (SHARES_START + ([g, g] + (OWN_SHARE + key)))[4..];
    var own := [0x00, 0x1d, 0x00, 0x20] + key;
    assert b == [0x00, 0x29] + ([g, g, 0x00, 0x01, 0x00] + own);
    assert own[36..] == [] && U16(own, 2) == 32;
    var shares := [g, g, 0x00, 0x01, 0x00] + own;
    assert shares[5..] == own && U16(shares, 2) == 1;
    assert b[2..] == shares;
  }

  /** The type of part k */
  function PartType(k: nat): nat
    requires k < |PARTS|
  {
    [0x00, 0x05, 0x0a, 0x0b, 0x0d, 0x10, 0x12, 0x17, 0x1b, 0x23, 0x2b, 0x2d, 0x33, 0x4469, 0xff01][k]
  }

  /** What a part stores first stays in front. */
  lemma PartStoresType(k: nat, draws: seq<Draw>, ctx: Context)
    requires k < |PARTS| && FitsOps(PARTS[k].ops, draws) && StoreOps([[]], PARTS[k].ops, draws, ctx).Some?
    ensures var out := Flatten(StoreOps([[]], PARTS[k].ops, draws, ctx).value);
            |out| >= 2 && U16(out, 0) == PartType(k)
  {
    hide Flatten;
    var ops, out := PARTS[k].ops, Flatten(StoreOps([[]], PARTS[k].ops, draws, ctx).value);
    TypeIsFirst(k);
    FirstStringStays(ops, draws, ctx);
    assert out[0] == out[..|ops[0].data|][0] && out[1] == out[..|ops[0].data|][1];
  }

  lemma TypeIsFirst(k: nat)
    requires k < |PARTS|
    ensures var ops := PARTS[k].ops;
            ops != [] && ops[0].Str? && |ops[0].data| >= 2 && U16(ops[0].data, 0) == PartType(k)
  {
  }

  lemma FirstStringStays(ops: seq<Op>, draws: seq<Draw>, ctx: Context)
    requires ops != [] && ops[0].Str? && FitsOps(ops, draws) && StoreOps([[]], ops, draws, ctx).Some?
    ensures var out, data := Flatten(StoreOps([[]], ops, draws, ctx).value), ops[0].data;
            |data| <= |out| && out[..|data|] == data
  {
    AppendedStays([[]], ops[0].data, ops[1..], draws[1..], ctx);
    assert Flatten([[]]) == [];
  }

  /** The extensions that the shuffled parts store */
  ghost predicate AreShuffledParts(extensions: seq<Extension>, order: seq<nat>)
    requires IsOrder(order, |PARTS|)
  {
    && |extensions| == |PARTS|
    && forall i :: 0 <= i < |PARTS| ==>
         extensions[i].typ == PartType(order[i]) && IsBody(extensions[i].typ, extensions[i].body)
  }

  /** Whatever the shuffle, the permutation is stored as a list of extensions. */
  lemma PermutationStores(fs: Frames, draw: Draw, ctx: Context) returns (list: seq<byte>)
    requires FitsOp(Permutation(PARTS), draw) && |ctx.grease| == GREASE_SIZE
    ensures StoreOp(fs, Permutation(PARTS), draw, ctx) == Some(Append(fs, list))
    ensures IsExtensionList(list) && |list| == 175 + |ctx.GetDomain()|
    ensures AreShuffledParts(Extensions(list), draw.order)
  {
    hide IsExtension, IsExtensionList, LengthOps, StoreOps, Balanced, PartSize, PartType, Extensions, U16, IsBody;
    assert PARTS[0..] == PARTS;
    PartsLength(NO_LENGTH, 0, ctx);
    PartsBalanced(ctx);
    SizeOfParts(ctx);
    PartsStore(NO_LENGTH, PARTS, draw.draws, ctx);
    var stored := StoreParts(PARTS, draw.draws, ctx).value;
    var shuffled := Reorder(stored, draw.order);
    forall i | 0 <= i < |shuffled|
      ensures IsExtension(shuffled[i]) && |shuffled[i]| >= 4 && U16(shuffled[i], 0) == PartType(draw.order[i])
      ensures IsBody(PartType(draw.order[i]), shuffled[i][4..])
    {
      var k := draw.order[i];
      PartStoresExtension(k, ctx);
      StoredPart(PARTS, draw.draws, ctx, k);
      PartStoresType(k, draw.draws[k], ctx);
      PartStoresBody(k, draw.draws[k], ctx);
      ExtensionHasFrame(shuffled[i]);
    }
    list := Concat(shuffled);
    ExtensionsConcatenate(shuffled);
    ConcatLength(shuffled);
    ReorderLength(stored, draw.order);
  }

  lemma ExtensionHasFrame(s: seq<byte>)
    requires IsExtension(s)
    ensures |s| >= 4
  {
  }

  /** The extension type of two equal grease bytes */
  function GreaseType(g: byte): nat {
    257 * (g as int)
  }

  /** All extensions of a default hello: the shuffled ones between two grease extensions, and the padding */
  function AllExtensions(g2: byte, list: seq<Extension>, g3: byte, pad: nat): seq<Extension> {
    [Extension(GreaseType(g2), [])] + list + [Extension(GreaseType(g3), [0x00])] + [Extension(0x15, Zeros(pad))]
  }

  /** The shuffled types differ from one another, from grease types and from the padding, and so do the two grease
      types. */
  lemma AllAreProper(order: seq<nat>, grease: seq<byte>, list: seq<Extension>, pad: nat)
    requires IsOrder(order, |PARTS|) && |grease| == GREASE_SIZE && IsGrease(grease) && AreShuffledParts(list, order)
    ensures AreProper(AllExtensions(grease[2], list, grease[3], pad))
  {
    hide PartType, IsBody;
    var all := AllExtensions(grease[2], list, grease[3], pad);
    GreaseDiffers(grease, pad);
    assert forall i :: 0 < i <= |PARTS| ==> all[i] == list[i - 1];
    forall i, j | 0 <= i < j < |all|
      ensures all[i].typ != all[j].typ
    {
      if 0 < i <= |PARTS| {
        PartTypeDiffers(order[i - 1], if j <= |PARTS| then order[j - 1] else order[i - 1], grease[3]);
      } else if j <= |PARTS| {
        PartTypeDiffers(order[j - 1], order[j - 1], grease[2]);
      }
    }
  }

  lemma GreaseDiffers(grease: seq<byte>, pad: nat)
    requires |grease| == GREASE_SIZE && IsGrease(grease)
    ensures GreaseType(grease[2]) != GreaseType(grease[3])
    ensures GreaseType(grease[2]) != 0x15 && GreaseType(grease[3]) != 0x15
    ensures IsBody(GreaseType(grease[2]), []) && IsBody(GreaseType(grease[3]), [0x00]) && IsBody(0x15, Zeros(pad))
  {
  }

  lemma PartTypeDiffers(k: nat, l: nat, g: byte)
    requires k < |PARTS| && l < |PARTS| && g % 16 == 10
    ensures k != l ==> PartType(k) != PartType(l)
    ensures PartType(k) != GreaseType(g) && PartType(k) != 0x15
  {
  }

  // ---------- Each part

  /** The bodies of the parts that are strings */
  lemma FirstBodies()
    ensures IsStatusRequest(STATUS_REQUEST[0].data[4..]) && IsList8(POINT_FORMATS[0].data[4..], 1)
    ensures IsList16(SIGNATURE_ALGORITHMS[0].data[4..])
    ensures CERTIFICATE_TIMESTAMP[0].data[4..] == EXTENDED_MASTER_SECRET[0].data[4..] == []
    ensures SESSION_TICKET[0].data[4..] == []
    ensures IsList8(COMPRESS_CERTIFICATE[0].data[4..], 2) && IsList8(KEY_EXCHANGE_MODES[0].data[4..], 1)
    ensures RENEGOTIATION_INFO[0].data[4..] == [0x00]
  {
  }

  lemma ProtocolBodies()
    ensures IsNameList(PROTOCOLS[0].data[4..]) && IsNameList(APPLICATION_SETTINGS[0].data[4..])
  {
    var h2: seq<byte>, http: seq<byte> := [0x68, 0x32], [0x68, 0x74, 0x74, 0x70, 0x2f, 0x31, 0x2e, 0x31];
    assert AreNames([]);
    OneMoreName(http, []);
    OneMoreName(h2, []);
    OneMoreName(h2, [8] + http + []);
    hide AreNames;
    ProtocolStrings(h2, http);
    NamesInList([2] + h2 + ([8] + http + []));
    NamesInList([2] + h2 + []);
  }

  lemma NamesInList(names: seq<byte>)
    requires 0 < |names| < 256 && AreNames(names)
    ensures IsNameList([0x00, |names|] + names)
  {
    assert ([0x00, |names|] + names)[2..] == names;
  }

  lemma ProtocolStrings(h2: seq<byte>, http: seq<byte>)
    requires h2 == [0x68, 0x32] && http == [0x68, 0x74, 0x74, 0x70, 0x2f, 0x31, 0x2e, 0x31]
    ensures PROTOCOLS[0].data[4..] == [0x00, 0x0c] + ([2] + h2 + ([8] + http + []))
    ensures APPLICATION_SETTINGS[0].data[4..] == [0x00, 0x03] + ([2] + h2 + [])
  {
  }

  lemma OneMoreName(name: seq<byte>, rest: seq<byte>)
    requires 0 < |name| < 256 && AreNames(rest)
    ensures AreNames([|name|] + name + rest)
  {
    assert ([|name|] + name + rest)[1 + |name|..] == rest;
  }

  lemma GreasedBodies(g: byte)
    ensures var s := SUPPORTED_GROUPS[0].data + ([g, g] + SUPPORTED_GROUPS[2].data); IsList16(s[4..])
    ensures var s := SUPPORTED_VERSIONS[0].data + ([g, g] + SUPPORTED_VERSIONS[2].data); IsList8(s[4..], 2)
  {
    assert (SUPPORTED_GROUPS[0].data + ([g, g] + SUPPORTED_GROUPS[2].data))[4..]
           == [0x00, 0x08, g, g, 0x00, 0x1d, 0x00, 0x17, 0x00, 0x18];
    assert (SUPPORTED_VERSIONS[0].data + ([g, g] + SUPPORTED_VERSIONS[2].data))[4..]
           == [0x06, g, g, 0x03, 0x04, 0x03, 0x03];
  }

  /** The whole extension with the host name: three lengths, one around the other */
  function HostNameExtension(name: seq<byte>): seq<byte>
    requires |name| <= MAX_DOMAIN_LENGTH
  {
    [0x00, 0x00] + (BigEndian16(5 + |name|) + (BigEndian16(3 + |name|) + ([0x00] + (BigEndian16(|name|) + name))))
  }

  lemma HostNameBody(name: seq<byte>)
    requires |name| <= MAX_DOMAIN_LENGTH
    ensures IsServerNames(HostNameExtension(name)[4..])
  {
    var n := |name|;
    var b := HostNameExtension(name)[4..];
    assert b == BigEndian16(3 + n) + ([0x00] + (BigEndian16(n) + name));
    assert b[..2] == BigEndian16(3 + n) && b[2] == 0x00 && b[3..5] == BigEndian16(n);
    assert U16(b, 0) == 3 + n && U16(b, 3) == n;
  }

  /** One op of a program that appends to the innermost frame, opens one, or closes it */
  lemma NextAppends(outer: seq<seq<byte>>, last: seq<byte>, bytes: seq<byte>, ops: seq<Op>, draws: seq<Draw>,
                    ctx: Context, k: nat)
    requires FitsOps(ops, draws) && k < |ops| && FitsOps(ops[k..], draws[k..])
    requires match ops[k] case Str(data) => bytes == data case Domain => bytes == ctx.GetDomain() case _ => false
    ensures FitsOps(ops[k + 1..], draws[k + 1..])
    ensures StoreOps(outer + [last], ops[k..], draws[k..], ctx)
            == StoreOps(outer + [last + bytes], ops[k + 1..], draws[k + 1..], ctx)
  {
    assert ops[k..][1..] == ops[k + 1..] && draws[k..][1..] == draws[k + 1..];
    assert Append(outer + [last], bytes) == outer + [last + bytes];
  }

  lemma NextOpens(fs: Frames, ops: seq<Op>, draws: seq<Draw>, ctx: Context, k: nat)
    requires FitsOps(ops, draws) && k < |ops| && FitsOps(ops[k..], draws[k..]) && ops[k].BeginScope?
    ensures FitsOps(ops[k + 1..], draws[k + 1..])
    ensures StoreOps(fs, ops[k..], draws[k..], ctx) == StoreOps(fs + [[]], ops[k + 1..], draws[k + 1..], ctx)
  {
    assert ops[k..][1..] == ops[k + 1..] && draws[k..][1..] == draws[k + 1..];
  }

  lemma NextCloses(outer: seq<seq<byte>>, last: seq<byte>, content: seq<byte>, ops: seq<Op>, draws: seq<Draw>,
                   ctx: Context, k: nat)
    requires FitsOps(ops, draws) && k < |ops| && FitsOps(ops[k..], draws[k..]) && ops[k].EndScope?
    requires |content| < MAX_SCOPE
    ensures FitsOps(ops[k + 1..], draws[k + 1..])
    ensures StoreOps(outer + [last] + [content], ops[k..], draws[k..], ctx)
            == StoreOps(outer + [last + (BigEndian16(|content|) + content)], ops[k + 1..], draws[k + 1..], ctx)
  {
    assert ops[k..][1..] == ops[k + 1..] && draws[k..][1..] == draws[k + 1..];
    var fs := outer + [last] + [content];
    assert fs[..|fs| - 1] == outer + [last];
    assert Append(outer + [last], BigEndian16(|content|) + content)
           == outer + [last + (BigEndian16(|content|) + content)];
  }

  lemma HostNameStores(draws: seq<Draw>, ctx: Context)
    requires FitsOps(SERVER_NAME, draws)
    ensures StoreOps([[]], SERVER_NAME, draws, ctx).Some?
    ensures Flatten(StoreOps([[]], SERVER_NAME, draws, ctx).value) == HostNameExtension(ctx.GetDomain())
  {
    var t: seq<byte>, z: seq<byte>, name := [0x00, 0x00], [0x00], ctx.GetDomain();
    var ops := SERVER_NAME;
    assert |draws| == 9 && ops[0..] == ops && draws[0..] == draws && ops[9..] == [] && draws[9..] == [];
    hide StoreOps, FitsOps, HostNameExtension;
    NameScopesOpen(t, z, name, draws, ctx);
    NameScopesClose(t, z, name, draws, ctx);
    NothingStores([HostNameExtension(name)], ctx);
  }

  lemma NameScopesOpen(t: seq<byte>, z: seq<byte>, name: seq<byte>, draws: seq<Draw>, ctx: Context)
    requires FitsOps(SERVER_NAME, draws) && FitsOps(SERVER_NAME[0..], draws[0..])
    requires t == [0x00, 0x00] && z == [0x00] && name == ctx.GetDomain()
    ensures FitsOps(SERVER_NAME[6..], draws[6..])
    ensures StoreOps([[]], SERVER_NAME[0..], draws[0..], ctx)
            == StoreOps([] + [t] + [[]] + [z] + [name], SERVER_NAME[6..], draws[6..], ctx)
  {
    hide StoreOps, FitsOps;
    var ops, f0: seq<seq<byte>>, none: seq<byte> := SERVER_NAME, [], [];
    assert f0 + [none] == [[]] && none + t == t && none + z == z && none + name == name;
    NextAppends(f0, none, t, ops, draws, ctx, 0);
    NextOpens(f0 + [t], ops, draws, ctx, 1);
    NextOpens(f0 + [t] + [none], ops, draws, ctx, 2);
    NextAppends(f0 + [t] + [none], none, z, ops, draws, ctx, 3);
    NextOpens(f0 + [t] + [none] + [z], ops, draws, ctx, 4);
    NextAppends(f0 + [t] + [none] + [z], none, name, ops, draws, ctx, 5);
  }

  lemma NameScopesClose(t: seq<byte>, z: seq<byte>, name: seq<byte>, draws: seq<Draw>, ctx: Context)
    requires FitsOps(SERVER_NAME, draws) && FitsOps(SERVER_NAME[6..], draws[6..])
    requires t == [0x00, 0x00] && z == [0x00] && |name| <= MAX_DOMAIN_LENGTH
    ensures FitsOps(SERVER_NAME[9..], draws[9..])
    ensures StoreOps([] + [t] + [[]] + [z] + [name], SERVER_NAME[6..], draws[6..], ctx)
            == StoreOps([HostNameExtension(name)], SERVER_NAME[9..], draws[9..], ctx)
  {
    hide StoreOps, FitsOps, BigEndian16;
    var ops, f0: seq<seq<byte>>, none: seq<byte> := SERVER_NAME, [], [];
    var inner := BigEndian16(|name|) + name;
    TwoMore(|name|);
    var middle := BigEndian16(3 + |name|) + (z + inner);
    TwoMore(3 + |name|);
    assert none + middle == middle && f0 + [HostNameExtension(name)] == [HostNameExtension(name)];
    NextCloses(f0 + [t] + [none], z, name, ops, draws, ctx, 6);
    NextCloses(f0 + [t], none, z + inner, ops, draws, ctx, 7);
    NextCloses(f0, t, middle, ops, draws, ctx, 8);
  }

  lemma TwoMore(n: nat)
    requires n < 0x1_0000
    ensures |BigEndian16(n)| == 2
  {
  }

  lemma NothingStores(fs: Frames, ctx: Context)
    ensures FitsOps([], []) && StoreOps(fs, [], [], ctx) == Some(fs)
  {
  }

  /** The body of each part parses to its last byte. */
  lemma PartStoresBody(k: nat, draws: seq<Draw>, ctx: Context)
    requires k < |PARTS| && FitsOps(PARTS[k].ops, draws) && |ctx.grease| == GREASE_SIZE
    ensures StoreOps([[]], PARTS[k].ops, draws, ctx).Some?
    ensures var out := Flatten(StoreOps([[]], PARTS[k].ops, draws, ctx).value);
            |out| >= 4 && IsBody(PartType(k), out[4..])
  {
    hide StoreOps, FitsOps, Flatten, IsBody, PartType;
    if k in {0, 2, 10, 12} {
      LongPartStoresBody(k, draws, ctx);
    } else {
      ShortBody(k);
      ShortPartStores(PARTS[k].ops, draws, ctx);
    }
  }

  lemma ShortBody(k: nat)
    requires k < |PARTS| && k !in {0, 2, 10, 12}
    ensures var part := PARTS[k].ops;
            |part| == 1 && part[0].Str? && |part[0].data| >= 4 && IsBody(PartType(k), part[0].data[4..])
  {
    FirstBodies();
    ProtocolBodies();
    hide IsServerNames, IsStatusRequest, IsList16, IsList8, IsNameList, IsKeyShare;
  }

  lemma LongPartStoresBody(k: nat, draws: seq<Draw>, ctx: Context)
    requires k in {0, 2, 10, 12} && FitsOps(PARTS[k].ops, draws) && |ctx.grease| == GREASE_SIZE
    ensures StoreOps([[]], PARTS[k].ops, draws, ctx).Some?
    ensures var out := Flatten(StoreOps([[]], PARTS[k].ops, draws, ctx).value);
            |out| >= 4 && IsBody(PartType(k), out[4..])
  {
    hide StoreOps, FitsOps, Flatten, IsServerNames, IsStatusRequest, IsList16, IsList8, IsNameList, IsKeyShare;
    if k == 0 {
      HostNameStores(draws, ctx);
      HostNameBody(ctx.GetDomain());
    } else if k == 2 {
      GreasedPartStores(SUPPORTED_GROUPS, draws, ctx);
      GreasedBodies(ctx.grease[4]);
    } else if k == 10 {
      GreasedPartStores(SUPPORTED_VERSIONS, draws, ctx);
      GreasedBodies(ctx.grease[6]);
    } else {
      var key := KeyShareStores(draws, ctx);
      KeyShareBody(ctx.grease[4], key);
    }
  }
}
