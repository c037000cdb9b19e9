/** The two passes as the source runs them: the length pass counts, the store
    pass fills a buffer of that length and patches scope lengths in place. */
module TlsHelloPasses {
  import opened Options
  import opened Bytes
  import opened TlsHello

  const PADDED_LENGTH: nat := 517

  /** What the length pass answers once the zero padding is added */
  function FinishLength(l: Length, ctx: Context): Option<nat> {
    if l.error || l.size > 514 || l.size < 11 + 32 then None
    else
      var padded := LengthOps(l, Padding(l.size), ctx);
      if padded.scopes != [] then None else Some(padded.size)
  }

  /** The padding extension's length and zeros, behind n bytes */
  function Padding(n: nat): seq<Op> {
    [BeginScope, Zero(515 - n), EndScope]
  }

  class TlsHelloCalcLength {
    var size: nat
    var error: bool
    var scopeOffset: seq<nat>

    function State(): Length
      reads this
    {
      Length(size, error, scopeOffset)
    }

    constructor ()
      ensures State() == NO_LENGTH
    {
      size, error, scopeOffset := 0, false, [];
    }

    method DoOp(op: Op, ctx: Context)
      modifies this
      ensures State() == LengthOp(old(State()), op, ctx)
      decreases op
    {
      if error {
        return;
      }
      match op
      case Str(bytes) =>
        size := size + |bytes|;
      case Random(n) =>
        if n <= 0 || n > 1024 {
          error := true;
        } else {
          size := size + n;
        }
      case Zero(n) =>
        if n <= 0 || n > 1024 {
          error := true;
        } else {
          size := size + n;
        }
      case Domain =>
        size := size + |ctx.GetDomain()|;
      case Grease(seed) =>
        if seed < 0 || seed >= |ctx.grease| {
          error := true;
        } else {
          size := size + 2;
        }
      case Key =>
        size := size + 32;
      case BeginScope =>
        size := size + 2;
        scopeOffset := scopeOffset + [size];
      case EndScope =>
        if scopeOffset == [] {
          error := true;
        } else {
          var beginOffset := scopeOffset[|scopeOffset| - 1];
          scopeOffset := scopeOffset[..|scopeOffset| - 1];
          if size - beginOffset >= MAX_SCOPE {
            error := true;
          }
        }
      case Permutation(parts) =>
        for i := 0 to |parts|
          invariant LengthParts(State(), parts[i..], ctx) == LengthParts(old(State()), parts, ctx)
        {
          var ops := parts[i].ops;
          ghost var before := State();
          for j := 0 to |ops|
            invariant LengthOps(State(), ops[j..], ctx) == LengthOps(before, ops, ctx)
          {
            DoOp(ops[j], ctx);
            assert ops[j..][1..] == ops[j + 1..];
          }
          assert parts[i..][1..] == parts[i + 1..];
        }
    }

    /** The length of the whole hello, or the reason there is none */
    method Finish(ctx: Context) returns (length: Option<nat>)
      modifies this
      ensures length == FinishLength(old(State()), ctx)
    {
      if error || size > 514 || size < 11 + 32 {
        return None;
      }
      var zeroPad := 515 - size;
      ghost var before := State();
      DoOp(BeginScope, ctx);
      DoOp(Zero(zeroPad), ctx);
      DoOp(EndScope, ctx);
      ThreeLengths(before, BeginScope, Zero(zeroPad), EndScope, ctx);
      return if scopeOffset != [] then None else Some(size);
    }
  }

  lemma ThreeLengths(l: Length, a: Op, b: Op, c: Op, ctx: Context)
    ensures LengthOps(l, [a, b, c], ctx) == LengthOp(LengthOp(LengthOp(l, a, ctx), b, ctx), c, ctx)
  {
    assert [a, b, c][1..] == [b, c] && [b, c][1..] == [c] && [c][1..] == [];
    var l1 := LengthOp(l, a, ctx);
    assert LengthOps(LengthOp(l1, b, ctx), [c], ctx) == LengthOp(LengthOp(l1, b, ctx), c, ctx);
    assert LengthOps(l1, [b, c], ctx) == LengthOps(LengthOp(l1, b, ctx), [c], ctx);
  }

  /** The length pass refuses fills outside 1 to 1024 bytes. */
  lemma FillLimits(n: int, ctx: Context)
    ensures LengthOps(NO_LENGTH, [Random(n)], ctx).error <==> !(1 <= n <= 1024)
    ensures LengthOps(NO_LENGTH, [Zero(n)], ctx).error <==> !(1 <= n <= 1024)
  {
    OneLength(NO_LENGTH, Random(n), ctx);
    OneLength(NO_LENGTH, Zero(n), ctx);
  }

  lemma OneLength(l: Length, op: Op, ctx: Context)
    ensures LengthOps(l, [op], ctx) == LengthOp(l, op, ctx)
  {
    hide LengthOp;
    assert [op][1..] == [];
  }

  /** And contents of a scope from 2^14 bytes on */
  lemma ScopeLimit(data: seq<byte>, ctx: Context)
    ensures LengthOps(NO_LENGTH, [BeginScope, Str(data), EndScope], ctx).error <==> |data| >= 0x4000
  {
    hide LengthOps;
    ThreeLengths(NO_LENGTH, BeginScope, Str(data), EndScope, ctx);
    var l := LengthOp(NO_LENGTH, BeginScope, ctx);
    assert l.size == 2 && |l.scopes| == 1 && l.scopes[0] == 2;
    assert LengthOp(l, Str(data), ctx) == Length(2 + |data|, false, l.scopes);
  }

  // ---------- Storing

  /** The part of a permutation passes its own length pass and closes its scopes. */
  predicate Sound(op: Op, ctx: Context) {
    op.Permutation? ==>
      forall i :: 0 <= i < |op.parts| ==>
        Balanced(op.parts[i].ops, 0) && !LengthOps(NO_LENGTH, op.parts[i].ops, ctx).error
  }

  predicate AllSound(ops: seq<Op>, ctx: Context) {
    forall i :: 0 <= i < |ops| ==> Sound(ops[i], ctx)
  }

  lemma {:induction false} PartsAreSound(l: Length, parts: seq<Part>, ctx: Context)
    requires BalancedParts(parts) && !l.error && !LengthParts(l, parts, ctx).error
    ensures Sound(Permutation(parts), ctx)
    decreases |parts|
  {
    if parts != [] {
      PartIsLocal(l, parts[0].ops, ctx);
      var l' := LengthOps(l, parts[0].ops, ctx);
      if l'.error {
        LengthPartsErrorStays(l', parts[1..], ctx);
      }
      PartsAreSound(l', parts[1..], ctx);
      forall i | 0 <= i < |parts|
        ensures Balanced(parts[i].ops, 0) && !LengthOps(NO_LENGTH, parts[i].ops, ctx).error
      {
        if i > 0 {
          assert parts[i] == Permutation(parts[1..]).parts[i - 1];
        }
      }
    }
  }

  /** A length pass without errors makes every op sound. */
  lemma {:induction false} OpsAreSound(l: Length, ops: seq<Op>, depth: nat, ctx: Context)
    requires Balanced(ops, depth) && !l.error && !LengthOps(l, ops, ctx).error
    ensures AllSound(ops, ctx)
    decreases |ops|
  {
    if ops != [] {
      var l' := LengthOp(l, ops[0], ctx);
      if l'.error {
        LengthErrorStays(l', ops[1..], ctx);
      }
      if ops[0].Permutation? {
        PartsAreSound(l, ops[0].parts, ctx);
      }
      var depth' := if ops[0].BeginScope? then depth + 1 else if ops[0].EndScope? then depth - 1 else depth;
      OpsAreSound(l', ops[1..], depth', ctx);
      forall i | 0 <= i < |ops|
        ensures Sound(ops[i], ctx)
      {
        if i > 0 {
          assert ops[i] == ops[1..][i - 1];
        }
      }
    }
  }

  class TlsHelloStore {
    const data: array<byte>
    var offset: nat
    var scopeOffset: seq<nat>
    ghost var frames: Frames

    ghost predicate Valid()
      reads this, data
    {
      && offset <= data.Length
      && data[..offset] == Flatten(frames)
      && (forall i :: offset <= i < data.Length ==> data[i] == 0)
      && |scopeOffset| == |frames| - 1
      && (forall k :: 0 <= k < |scopeOffset| ==> scopeOffset[k] == |Flatten(frames[..k + 1])|)
    }

    constructor (dest: array<byte>)
      requires forall i :: 0 <= i < dest.Length ==> dest[i] == 0
      ensures Valid() && data == dest && frames == [[]]
    {
      data, offset, scopeOffset := dest, 0, [];
      frames := [[]];
    }

    /** copy_from and remove_prefix: fails when the bytes do not fit */
    method Put(bytes: seq<byte>) returns (ok: bool)
      requires Valid()
      modifies this, data
      ensures ok == (old(offset) + |bytes| <= data.Length)
      ensures ok ==> Valid() && frames == Append(old(frames), bytes)
    {
      if offset + |bytes| > data.Length {
        return false;
      }
      AppendFlattens(frames, bytes);
      for i := 0 to |bytes|
        modifies data
        invariant data[..offset] == old(data[..offset])
        invariant data[offset..offset + i] == bytes[..i]
        invariant forall k :: offset + i <= k < data.Length ==> data[k] == 0
      {
        data[offset + i] := bytes[i];
      }
      assert data[..offset + |bytes|] == data[..offset] + data[offset..offset + |bytes|];
      OuterFramesOfAppend(frames, bytes);
      offset := offset + |bytes|;
      frames := Append(frames, bytes);
      return true;
    }

    method BeginScope()
      requires Valid() && offset + 2 <= data.Length
      modifies this
      ensures Valid() && frames == old(frames) + [[]]
    {
      assert data[..offset + 2] == data[..offset] + [0, 0];
      OuterFramesOfBegin(frames);
      scopeOffset := scopeOffset + [offset];
      offset := offset + 2;
      frames := frames + [[]];
    }

    /** Back-patches the length of the innermost scope. */
    method EndScope() returns (ok: bool)
      requires Valid()
      modifies this, data
      ensures var content := old(frames)[|old(frames)| - 1];
              && ok == (|old(frames)| > 1 && |content| < MAX_SCOPE)
              && (ok ==> Valid()
                         && frames == Append(old(frames)[..|old(frames)| - 1], BigEndian16(|content|) + content))
    {
      if scopeOffset == [] {
        return false;
      }
      ghost var outer, content := frames[..|frames| - 1], frames[|frames| - 1];
      var beginOffset := scopeOffset[|scopeOffset| - 1];
      assert frames[..|scopeOffset| - 1 + 1] == outer;
      assert beginOffset == |Flatten(outer)| && data[..offset] == Flatten(outer) + [0, 0] + content;
      scopeOffset := scopeOffset[..|scopeOffset| - 1];
      var size := offset - beginOffset - 2;
      if size >= MAX_SCOPE {
        return false;
      }
      assert outer + [content] == frames;
      Patch(outer, content, data[..offset]);
      EndFlattens(frames);
      data[beginOffset] := size / 256 % 256;
      data[beginOffset + 1] := size % 256;
      frames := Append(outer, BigEndian16(size) + content);
      return true;
    }

    method DoOp(op: Op, draw: Draw, ctx: Context) returns (ok: bool)
      requires Valid() && FitsOp(op, draw)
      modifies this, data
      ensures ok ==> Valid() && StoreOp(old(frames), op, draw, ctx) == Some(frames)
      ensures var r := StoreOp(old(frames), op, draw, ctx);
              Sound(op, ctx) && r.Some? && |Flatten(r.value)| <= data.Length ==> ok
      decreases op, 0
    {
      match op
      case Str(bytes) => ok := Put(bytes); AppendFlattens(old(frames), bytes);
      case Random(n) =>
        if n < 0 {
          return false;
        }
        ok := Put(draw.bytes);
        AppendFlattens(old(frames), draw.bytes);
      case Zero(n) =>
        if n < 0 {
          return false;
        }
        ok := Put(Zeros(n));
        AppendFlattens(old(frames), Zeros(n));
      case Domain => ok := Put(ctx.GetDomain()); AppendFlattens(old(frames), ctx.GetDomain());
      case Grease(seed) =>
        if seed < 0 || seed >= |ctx.grease| {
          return false;
        }
        ok := Put([ctx.grease[seed], ctx.grease[seed]]);
        AppendFlattens(old(frames), [ctx.grease[seed], ctx.grease[seed]]);
      case Key => ok := Put(draw.bytes); AppendFlattens(old(frames), draw.bytes);
      case BeginScope =>
        if offset + 2 > data.Length {
          assert (frames + [[]])[..|frames|] == frames;
          return false;
        }
        BeginScope();
        ok := true;
      case EndScope => ok := EndScope();
      case Permutation(parts) =>
        var stored, complete := StoreAllParts(parts, draw.draws, ctx);
        if !complete {
          return false;
        }
        var shuffled := Reorder(stored, draw.order);
        AppendFlattens(frames, Concat(shuffled));
        ok := PutAll(shuffled);
    }

    /** The loop over the shuffled parts */
    method PutAll(parts: seq<seq<byte>>) returns (ok: bool)
      requires Valid()
      modifies this, data
      ensures ok == (old(offset) + |Concat(parts)| <= data.Length)
      ensures ok ==> Valid() && frames == Append(old(frames), Concat(parts))
    {
      AppendTwice(frames, [], []);
      ghost var done: seq<byte> := [];
      for i := 0 to |parts|
        invariant Valid() && done + Concat(parts[i..]) == Concat(parts)
        invariant frames == Append(old(frames), done) && offset == old(offset) + |done|
      {
        assert parts[i..][1..] == parts[i + 1..];
        AppendFlattens(frames, parts[i]);
        ok := Put(parts[i]);
        if !ok {
          return false;
        }
        AppendTwice(old(frames), done, parts[i]);
        assert done + (parts[i] + Concat(parts[i + 1..])) == done + parts[i] + Concat(parts[i + 1..]);
        done := done + parts[i];
      }
      assert done == Concat(parts);
      return true;
    }

    method DoOps(ops: seq<Op>, draws: seq<Draw>, ctx: Context) returns (ok: bool)
      requires Valid() && FitsOps(ops, draws)
      modifies this, data
      ensures ok ==> Valid() && StoreOps(old(frames), ops, draws, ctx) == Some(frames)
      ensures var r := StoreOps(old(frames), ops, draws, ctx);
              AllSound(ops, ctx) && r.Some? && |Flatten(r.value)| <= data.Length ==> ok
      decreases ops, 1
    {
      for i := 0 to |ops|
        invariant Valid() && StoreOps(frames, ops[i..], draws[i..], ctx) == StoreOps(old(frames), ops, draws, ctx)
      {
        assert ops[i..][1..] == ops[i + 1..] && draws[i..][1..] == draws[i + 1..];
        ghost var r := StoreOp(frames, ops[i], draws[i], ctx);
        if r.Some? && StoreOps(r.value, ops[i + 1..], draws[i + 1..], ctx).Some? {
          LengthGrows(r.value, ops[i + 1..], draws[i + 1..], ctx);
        }
        ok := DoOp(ops[i], draws[i], ctx);
        if !ok {
          return false;
        }
      }
      return true;
    }

    /** Stores one part into a buffer of the length its own length pass gives it. */
    static method StorePart(ops: seq<Op>, draws: seq<Draw>, ctx: Context) returns (stored: seq<byte>, ok: bool)
      requires FitsOps(ops, draws)
      ensures ok ==>
                && StoreOps([[]], ops, draws, ctx).Some?
                && stored == Flatten(StoreOps([[]], ops, draws, ctx).value)
      ensures Balanced(ops, 0) && !LengthOps(NO_LENGTH, ops, ctx).error ==> ok
      decreases ops, 2
    {
      var calcLength := new TlsHelloCalcLength();
      for j := 0 to |ops|
        invariant LengthOps(calcLength.State(), ops[j..], ctx) == LengthOps(NO_LENGTH, ops, ctx)
      {
        calcLength.DoOp(ops[j], ctx);
        assert ops[j..][1..] == ops[j + 1..];
      }
      var dest := new byte[calcLength.size](_ => 0);
      var storer := new TlsHelloStore(dest);
      if Balanced(ops, 0) && !LengthOps(NO_LENGTH, ops, ctx).error {
        OpsAreSound(NO_LENGTH, ops, 0, ctx);
        OpsStore(NO_LENGTH, [[]], ops, draws, 0, ctx);
      }
      ok := storer.DoOps(ops, draws, ctx);
      return dest[..], ok && storer.offset == dest.Length;
    }

    /** Stores the parts one after the other. */
    static method StoreAllParts(parts: seq<Part>, draws: seq<seq<Draw>>, ctx: Context)
      returns (stored: seq<seq<byte>>, ok: bool)
      requires |parts| == |draws| && forall i :: 0 <= i < |parts| ==> FitsOps(parts[i].ops, draws[i])
      ensures ok ==> StoreParts(parts, draws, ctx) == Some(stored)
      ensures Sound(Permutation(parts), ctx) ==> ok
      decreases parts, 2
    {
      stored := [];
      assert parts[0..] == parts && draws[0..] == draws;
      assert forall r: seq<seq<byte>> :: [] + r == r;
      for i := 0 to |parts|
        invariant |stored| == i
        invariant StoreParts(parts, draws, ctx) == Prepend(stored, StoreParts(parts[i..], draws[i..], ctx))
      {
        var part;
        part, ok := StorePart(parts[i].ops, draws[i], ctx);
        if !ok {
          return stored, false;
        }
        assert parts[i..][1..] == parts[i + 1..] && draws[i..][1..] == draws[i + 1..];
        ghost var later := StoreParts(parts[i + 1..], draws[i + 1..], ctx);
        if later.Some? {
          assert stored + ([part] + later.value) == stored + [part] + later.value;
        }
        stored := stored + [part];
      }
      assert stored + [] == stored;
      return stored, true;
    }
  }

  function Prepend(done: seq<seq<byte>>, rest: Option<seq<seq<byte>>>): Option<seq<seq<byte>>> {
    var parts :- rest;
    Some(done + parts)
  }

  /** Writing the length over the placeholder of the innermost scope */
  lemma Patch(outer: Frames, content: seq<byte>, buffer: seq<byte>)
    requires |content| < MAX_SCOPE && buffer == Flatten(outer) + [0, 0] + content
    ensures var n, size := |Flatten(outer)|, |content|;
            var fs := Append(outer, BigEndian16(size) + content);
            && buffer[n := size / 256 % 256][n + 1 := size % 256] == Flatten(fs)
            && |fs| == |outer|
            && forall m :: 0 < m < |fs| ==> fs[..m] == (outer + [content])[..m]
  {
    AppendFlattens(outer, BigEndian16(|content|) + content);
  }

  lemma AppendTwice(fs: Frames, a: seq<byte>, b: seq<byte>)
    ensures Append(Append(fs, a), b) == Append(fs, a + b)
    ensures Append(fs, []) == fs
  {
    var last := |fs| - 1;
    assert fs[last] + a + b == fs[last] + (a + b);
    assert fs[last] + [] == fs[last];
  }

  lemma OuterFramesOfAppend(fs: Frames, bytes: seq<byte>)
    ensures forall m :: 0 < m < |fs| ==> Append(fs, bytes)[..m] == fs[..m]
  {
  }

  lemma OuterFramesOfBegin(fs: Frames)
    ensures forall m :: 0 < m <= |fs| ==> (fs + [[]])[..m] == fs[..m]
    ensures Flatten(fs + [[]]) == Flatten(fs) + [0, 0]
  {
    assert (fs + [[]])[..|fs|] == fs;
  }
}
