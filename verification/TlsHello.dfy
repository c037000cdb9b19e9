/** The op language of the TLS hello, and what its two interpreters compute:
    the length pass, and the store pass whose open scopes are a stack of frames. */
module TlsHello {
  import opened Options
  import opened Bytes

  datatype Op =
    | Str(data: seq<byte>)
    | Random(length: int)
    | Zero(length: int)
    | Domain
    | Grease(seed: int)
    | Key
    | BeginScope
    | EndScope
    | Permutation(parts: seq<Part>)

  /** One part of a permutation */
  datatype Part = Part(ops: seq<Op>)

  datatype Context = Context(grease: seq<byte>, domain: seq<byte>) {
    function GetDomain(): seq<byte> {
      if |domain| <= MAX_DOMAIN_LENGTH then domain else domain[..MAX_DOMAIN_LENGTH]
    }
  }

  const MAX_DOMAIN_LENGTH: nat := 182
  const MAX_SCOPE: nat := 0x4000

  /** The random outcomes of one op: random bytes, an accepted key, or the
      outcomes inside the parts of a permutation and the order they end up in */
  datatype Draw =
    | Nothing
    | Raw(bytes: seq<byte>)
    | Shuffled(draws: seq<seq<Draw>>, order: seq<nat>)

  predicate IsOrder(order: seq<nat>, n: nat) {
    && |order| == n
    && (forall i :: 0 <= i < n ==> order[i] < n)
    && (forall i, j :: 0 <= i < j < n ==> order[i] != order[j])
    && (forall k: nat :: k < n ==> k in order)
  }

  predicate FitsOp(op: Op, draw: Draw)
    decreases op, 0
  {
    match op
    case Random(n) => draw.Raw? && |draw.bytes| == if n < 0 then 0 else n
    case Key => draw.Raw? && |draw.bytes| == 32
    case Permutation(parts) =>
      && draw.Shuffled? && |draw.draws| == |parts| && IsOrder(draw.order, |parts|)
      && forall i :: 0 <= i < |parts| ==> FitsOps(parts[i].ops, draw.draws[i])
    case _ => draw.Nothing?
  }

  predicate FitsOps(ops: seq<Op>, draws: seq<Draw>)
    decreases ops, 1
  {
    |ops| == |draws| && forall i :: 0 <= i < |ops| ==> FitsOp(ops[i], draws[i])
  }

  // ---------- The length pass

  /** `error` records the first error, after which nothing changes. */
  datatype Length = Length(size: nat, error: bool, scopes: seq<nat>)

  const NO_LENGTH := Length(0, false, [])

  function Failed(l: Length): Length {
    l.(error := true)
  }

  function Grow(l: Length, n: nat): Length {
    l.(size := l.size + n)
  }

  function LengthOp(l: Length, op: Op, ctx: Context): Length
    decreases op, 0
  {
    if l.error then l
    else
      match op
      case Str(data) => Grow(l, |data|)
      case Random(n) => if n <= 0 || n > 1024 then Failed(l) else Grow(l, n)
      case Zero(n) => if n <= 0 || n > 1024 then Failed(l) else Grow(l, n)
      case Domain => Grow(l, |ctx.GetDomain()|)
      case Grease(seed) => if seed < 0 || seed >= |ctx.grease| then Failed(l) else Grow(l, 2)
      case Key => Grow(l, 32)
      case BeginScope => Length(l.size + 2, l.error, l.scopes + [l.size + 2])
      case EndScope =>
        if l.scopes == [] then Failed(l)
        else
          var l' := l.(scopes := l.scopes[..|l.scopes| - 1]);
          if l.size - l.scopes[|l.scopes| - 1] >= MAX_SCOPE then Failed(l') else l'
      case Permutation(parts) => LengthParts(l, parts, ctx)
  }

  function LengthOps(l: Length, ops: seq<Op>, ctx: Context): Length
    decreases ops, 1
  {
    if ops == [] then l else LengthOps(LengthOp(l, ops[0], ctx), ops[1..], ctx)
  }

  function LengthParts(l: Length, parts: seq<Part>, ctx: Context): Length
    decreases parts, 2
  {
    if parts == [] then l else LengthParts(LengthOps(l, parts[0].ops, ctx), parts[1..], ctx)
  }

  // ---------- The store pass

  /** The bytes written so far: at top level, and inside each open scope */
  type Frames = fs: seq<seq<byte>> | |fs| > 0 witness [[]]

  /** The buffer: the two length bytes of an open scope are still zero. */
  function Flatten(fs: Frames): seq<byte> {
    var last := |fs| - 1;
    if last == 0 then fs[0] else Flatten(fs[..last]) + [0, 0] + fs[last]
  }

  function Append(fs: Frames, bytes: seq<byte>): Frames {
    fs[|fs| - 1 := fs[|fs| - 1] + bytes]
  }

  function Reorder(parts: seq<seq<byte>>, order: seq<nat>): (r: seq<seq<byte>>)
    requires IsOrder(order, |parts|)
    ensures |r| == |parts|
  {
    seq(|order|, i requires 0 <= i < |order| => parts[order[i]])
  }

  /** None where a CHECK fails */
  function StoreOp(fs: Frames, op: Op, draw: Draw, ctx: Context): Option<Frames>
    requires FitsOp(op, draw)
    decreases op, 0
  {
    match op
    case Str(data) => Some(Append(fs, data))
    case Random(n) => if n < 0 then None else Some(Append(fs, draw.bytes))
    case Zero(n) => if n < 0 then None else Some(Append(fs, Zeros(n)))
    case Domain => Some(Append(fs, ctx.GetDomain()))
    case Grease(seed) =>
      if seed < 0 || seed >= |ctx.grease| then None else Some(Append(fs, [ctx.grease[seed], ctx.grease[seed]]))
    case Key => Some(Append(fs, draw.bytes))
    case BeginScope => Some(fs + [[]])
    case EndScope =>
      var content := fs[|fs| - 1];
      if |fs| == 1 || |content| >= MAX_SCOPE then None
      else Some(Append(fs[..|fs| - 1], BigEndian16(|content|) + content))
    case Permutation(parts) =>
      var stored :- StoreParts(parts, draw.draws, ctx);
      Some(Append(fs, Concat(Reorder(stored, draw.order))))
  }

  function StoreOps(fs: Frames, ops: seq<Op>, draws: seq<Draw>, ctx: Context): Option<Frames>
    requires FitsOps(ops, draws)
    decreases ops, 1
  {
    if ops == [] then Some(fs)
    else
      var fs' :- StoreOp(fs, ops[0], draws[0], ctx);
      StoreOps(fs', ops[1..], draws[1..], ctx)
  }

  /** Each part is stored into a buffer of its own. */
  function StoreParts(parts: seq<Part>, draws: seq<seq<Draw>>, ctx: Context): (r: Option<seq<seq<byte>>>)
    requires |parts| == |draws| && forall i :: 0 <= i < |parts| ==> FitsOps(parts[i].ops, draws[i])
    ensures r.Some? ==> |r.value| == |parts|
    decreases parts, 2
  {
    if parts == [] then Some([])
    else
      var first :- StoreOps([[]], parts[0].ops, draws[0], ctx);
      var others :- StoreParts(parts[1..], draws[1..], ctx);
      Some([Flatten(first)] + others)
  }

  // ---------- Scope balance

  /** The scopes of `ops` close `depth` enclosing scopes and none besides, and
      every permutation part is balanced in itself. */
  predicate Balanced(ops: seq<Op>, depth: nat)
    decreases ops, 1
  {
    if ops == [] then depth == 0
    else
      match ops[0]
      case BeginScope => Balanced(ops[1..], depth + 1)
      case EndScope => depth > 0 && Balanced(ops[1..], depth - 1)
      case Permutation(parts) => BalancedParts(parts) && Balanced(ops[1..], depth)
      case _ => Balanced(ops[1..], depth)
  }

  predicate BalancedParts(parts: seq<Part>)
    decreases parts, 2
  {
    forall i :: 0 <= i < |parts| ==> Balanced(parts[i].ops, 0)
  }

  // ---------- The passes agree

  /** The length pass is where the store pass is. */
  ghost predicate Matches(l: Length, fs: Frames) {
    && !l.error
    && l.size == |Flatten(fs)|
    && |l.scopes| == |fs| - 1
    && forall k :: 0 <= k < |l.scopes| ==> l.scopes[k] == |Flatten(fs[..k + 1])| + 2
  }

  lemma AppendFlattens(fs: Frames, bytes: seq<byte>)
    ensures Flatten(Append(fs, bytes)) == Flatten(fs) + bytes
  {
    var last := |fs| - 1;
    if last > 0 {
      assert Append(fs, bytes)[..last] == fs[..last];
      assert Flatten(fs) + bytes == Flatten(fs[..last]) + [0, 0] + (fs[last] + bytes);
    }
  }

  lemma AppendMatches(l: Length, fs: Frames, bytes: seq<byte>)
    requires Matches(l, fs)
    ensures Matches(Grow(l, |bytes|), Append(fs, bytes))
  {
    AppendFlattens(fs, bytes);
    forall m | 0 < m < |fs|
      ensures Append(fs, bytes)[..m] == fs[..m]
    {
    }
  }

  lemma BeginMatches(l: Length, fs: Frames)
    requires Matches(l, fs)
    ensures Matches(Length(l.size + 2, l.error, l.scopes + [l.size + 2]), fs + [[]])
  {
    var fs' := fs + [[]];
    assert fs'[..|fs|] == fs;
    assert Flatten(fs) + [0, 0] + [] == Flatten(fs');
    forall m | 0 < m <= |fs|
      ensures fs'[..m] == fs[..m]
    {
    }
  }

  /** Closing a scope replaces its placeholder by the length and keeps the rest. */
  lemma EndFlattens(fs: Frames)
    requires |fs| > 1 && |fs[|fs| - 1]| < MAX_SCOPE
    ensures var last := |fs| - 1;
            Flatten(Append(fs[..last], BigEndian16(|fs[last]|) + fs[last]))
            == Flatten(fs[..last]) + BigEndian16(|fs[last]|) + fs[last]
  {
    var last := |fs| - 1;
    AppendFlattens(fs[..last], BigEndian16(|fs[last]|) + fs[last]);
  }

  lemma EndMatches(l: Length, fs: Frames)
    requires Matches(l, fs) && |fs| > 1
    ensures l.size - l.scopes[|l.scopes| - 1] == |fs[|fs| - 1]|
    ensures var last := |fs| - 1;
            |fs[last]| < MAX_SCOPE ==>
              Matches(l.(scopes := l.scopes[..last - 1]), Append(fs[..last], BigEndian16(|fs[last]|) + fs[last]))
  {
    var last := |fs| - 1;
    assert fs[..last - 1 + 1] == fs[..last];
    if |fs[last]| < MAX_SCOPE {
      EndFlattens(fs);
      var fs' := Append(fs[..last], BigEndian16(|fs[last]|) + fs[last]);
      forall m | 0 < m < last
        ensures fs'[..m] == fs[..m]
      {
      }
    }
  }

  // ---------- A balanced part does not look at the enclosing scopes

  /** l seen from inside an enclosing buffer of n bytes and `outer` open scopes */
  function Shift(l: Length, n: nat, outer: seq<nat>): Length {
    Length(n + l.size, l.error, outer + seq(|l.scopes|, i requires 0 <= i < |l.scopes| => n + l.scopes[i]))
  }

  lemma {:induction false} LengthErrorStays(l: Length, ops: seq<Op>, ctx: Context)
    requires l.error
    ensures LengthOps(l, ops, ctx) == l
    decreases |ops|
  {
    if ops != [] {
      LengthErrorStays(l, ops[1..], ctx);
    }
  }

  lemma {:induction false} LengthPartsErrorStays(l: Length, parts: seq<Part>, ctx: Context)
    requires l.error
    ensures LengthParts(l, parts, ctx) == l
    decreases |parts|
  {
    if parts != [] {
      LengthErrorStays(l, parts[0].ops, ctx);
      LengthPartsErrorStays(l, parts[1..], ctx);
    }
  }

  lemma {:induction false} OpShifts(l: Length, op: Op, ctx: Context, n: nat, outer: seq<nat>)
    requires op.EndScope? ==> l.scopes != []
    requires op.Permutation? ==> BalancedParts(op.parts)
    ensures LengthOp(Shift(l, n, outer), op, ctx) == Shift(LengthOp(l, op, ctx), n, outer)
    decreases op, 0
  {
    if op.BeginScope? {
      BeginShifts(l, ctx, n, outer);
    } else if op.EndScope? {
      EndShifts(l, ctx, n, outer);
    } else if op.Permutation? && !l.error {
      PartsShift(l, op.parts, ctx, n, outer);
    }
  }

  lemma BeginShifts(l: Length, ctx: Context, n: nat, outer: seq<nat>)
    ensures LengthOp(Shift(l, n, outer), BeginScope, ctx) == Shift(LengthOp(l, BeginScope, ctx), n, outer)
  {
    var s, r := Shift(l, n, outer), LengthOp(l, BeginScope, ctx);
    assert !l.error ==> LengthOp(s, BeginScope, ctx).scopes == Shift(r, n, outer).scopes;
  }

  lemma EndShifts(l: Length, ctx: Context, n: nat, outer: seq<nat>)
    requires l.scopes != []
    ensures LengthOp(Shift(l, n, outer), EndScope, ctx) == Shift(LengthOp(l, EndScope, ctx), n, outer)
  {
    var s, r := Shift(l, n, outer), LengthOp(l, EndScope, ctx);
    assert !l.error ==> s.scopes[..|s.scopes| - 1] == Shift(r, n, outer).scopes;
  }

  lemma {:induction false} OpsShift(l: Length, ops: seq<Op>, depth: nat, ctx: Context, n: nat, outer: seq<nat>)
    requires Balanced(ops, depth) && depth <= |l.scopes|
    ensures LengthOps(Shift(l, n, outer), ops, ctx) == Shift(LengthOps(l, ops, ctx), n, outer)
    ensures var l' := LengthOps(l, ops, ctx); !l'.error ==> l'.scopes == l.scopes[..|l.scopes| - depth]
    decreases ops, 1
  {
    if l.error {
      LengthErrorStays(l, ops, ctx);
      LengthErrorStays(Shift(l, n, outer), ops, ctx);
    } else if ops != [] {
      OpShifts(l, ops[0], ctx, n, outer);
      var l' := LengthOp(l, ops[0], ctx);
      if l'.error {
        LengthErrorStays(l', ops[1..], ctx);
        LengthErrorStays(Shift(l', n, outer), ops[1..], ctx);
      } else {
        if ops[0].Permutation? {
          PartsShift(l, ops[0].parts, ctx, n, outer);
        }
        var depth' := if ops[0].BeginScope? then depth + 1 else if ops[0].EndScope? then depth - 1 else depth;
        OpsShift(l', ops[1..], depth', ctx, n, outer);
      }
    }
  }

  lemma {:induction false} PartsShift(l: Length, parts: seq<Part>, ctx: Context, n: nat, outer: seq<nat>)
    requires BalancedParts(parts)
    ensures LengthParts(Shift(l, n, outer), parts, ctx) == Shift(LengthParts(l, parts, ctx), n, outer)
    ensures var l' := LengthParts(l, parts, ctx); !l'.error ==> l'.scopes == l.scopes
    decreases parts, 2
  {
    if parts != [] {
      OpsShift(l, parts[0].ops, 0, ctx, n, outer);
      var l' := LengthOps(l, parts[0].ops, ctx);
      PartsShift(l', parts[1..], ctx, n, outer);
      if l'.error {
        LengthPartsErrorStays(l', parts[1..], ctx);
      }
    }
  }

  /** A balanced part adds the length it has by itself. */
  lemma PartIsLocal(l: Length, part: seq<Op>, ctx: Context)
    requires !l.error && Balanced(part, 0)
    ensures var own := LengthOps(NO_LENGTH, part, ctx);
            LengthOps(l, part, ctx) == if own.error then Shift(own, l.size, l.scopes) else Grow(l, own.size)
  {
    OpsShift(NO_LENGTH, part, 0, ctx, l.size, l.scopes);
    assert Shift(NO_LENGTH, l.size, l.scopes) == l;
    var own := LengthOps(NO_LENGTH, part, ctx);
    if !own.error {
      assert Shift(own, l.size, l.scopes) == Grow(l, own.size);
    }
  }

  // ---------- If the length pass succeeds, so does the store pass

  function TotalLength(parts: seq<seq<byte>>): nat {
    if parts == [] then 0 else |parts[0]| + TotalLength(parts[1..])
  }

  lemma {:induction false} ConcatLength(parts: seq<seq<byte>>)
    ensures |Concat(parts)| == TotalLength(parts)
  {
    if parts != [] {
      ConcatLength(parts[1..]);
    }
  }

  lemma {:induction false} TotalLengthSplits(a: seq<seq<byte>>, b: seq<seq<byte>>)
    ensures TotalLength(a + b) == TotalLength(a) + TotalLength(b)
  {
    if a == [] {
      assert a + b == b;
    } else {
      assert (a + b)[1..] == a[1..] + b;
      TotalLengthSplits(a[1..], b);
    }
  }

  lemma TotalLengthWithout(a: seq<seq<byte>>, x: seq<byte>, b: seq<seq<byte>>)
    ensures TotalLength(a + [x] + b) == TotalLength(a + b) + |x|
  {
    TotalLengthSplits(a + [x], b);
    TotalLengthSplits(a, [x]);
    TotalLengthSplits(a, b);
  }

  function Without<T>(s: seq<T>, p: nat): seq<T>
    requires p < |s|
  {
    s[..p] + s[p + 1..]
  }

  lemma OrderWithoutTop(order: seq<nat>, n: nat) returns (p: nat)
    requires n > 0 && IsOrder(order, n)
    ensures p < n && order[p] == n - 1 && IsOrder(Without(order, p), n - 1)
  {
    var top: nat := n - 1;
    assert top in order;
    p :| 0 <= p < n && order[p] == top;
    var order' := Without(order, p);
    forall k: nat | k < top
      ensures k in order'
    {
      StillThere(order, p, k);
    }
  }

  lemma StillThere(order: seq<nat>, p: nat, k: nat)
    requires p < |order| && k in order && order[p] != k
    ensures k in Without(order, p)
  {
    var q :| 0 <= q < |order| && order[q] == k;
    assert Without(order, p)[if q < p then q else q - 1] == k;
  }

  lemma {:induction false} ReorderLength(parts: seq<seq<byte>>, order: seq<nat>)
    requires IsOrder(order, |parts|)
    ensures TotalLength(Reorder(parts, order)) == TotalLength(parts)
    decreases |parts|
  {
    var n, reordered := |parts|, Reorder(parts, order);
    if n > 0 {
      var p := OrderWithoutTop(order, n);
      var parts', last := parts[..n - 1], parts[n - 1];
      ReorderLength(parts', Without(order, p));
      hide TotalLength, IsOrder;
      assert Reorder(parts', Without(order, p)) == reordered[..p] + reordered[p + 1..];
      assert reordered == reordered[..p] + [last] + reordered[p + 1..];
      TotalLengthWithout(reordered[..p], last, reordered[p + 1..]);
      assert parts == parts' + [last] + [] && parts' + [] == parts';
      TotalLengthWithout(parts', last, []);
    }
  }

  lemma {:induction false} OpStores(l: Length, fs: Frames, op: Op, draw: Draw, ctx: Context)
    requires Matches(l, fs) && FitsOp(op, draw) && !LengthOp(l, op, ctx).error
    requires op.Permutation? ==> BalancedParts(op.parts)
    ensures StoreOp(fs, op, draw, ctx).Some?
    ensures Matches(LengthOp(l, op, ctx), StoreOp(fs, op, draw, ctx).value)
    decreases op, 0
  {
    match op
    case BeginScope => BeginMatches(l, fs);
    case EndScope => EndMatches(l, fs);
    case Permutation(parts) =>
      PartsStore(l, parts, draw.draws, ctx);
      var stored := StoreParts(parts, draw.draws, ctx).value;
      ConcatLength(Reorder(stored, draw.order));
      ReorderLength(stored, draw.order);
      AppendMatches(l, fs, Concat(Reorder(stored, draw.order)));
    case _ =>
      var bytes := PlainOpStores(l, fs, op, draw, ctx);
      AppendMatches(l, fs, bytes);
  }

  /** Any other op appends as many bytes as the length pass counts. */
  lemma PlainOpStores(l: Length, fs: Frames, op: Op, draw: Draw, ctx: Context) returns (bytes: seq<byte>)
    requires FitsOp(op, draw) && !LengthOp(l, op, ctx).error && !l.error
    requires !op.BeginScope? && !op.EndScope? && !op.Permutation?
    ensures StoreOp(fs, op, draw, ctx) == Some(Append(fs, bytes)) && LengthOp(l, op, ctx) == Grow(l, |bytes|)
  {
    hide Append;
    match op
    case Str(data) => bytes := data;
    case Zero(n) => bytes := Zeros(n);
    case Domain => bytes := ctx.GetDomain();
    case Grease(seed) => bytes := [ctx.grease[seed], ctx.grease[seed]];
    case Random(_) => bytes := draw.bytes;
    case Key => bytes := draw.bytes;
  }

  lemma {:induction false} OpsStore(l: Length, fs: Frames, ops: seq<Op>, draws: seq<Draw>, depth: nat, ctx: Context)
    requires Matches(l, fs) && FitsOps(ops, draws) && Balanced(ops, depth) && depth < |fs|
    requires !LengthOps(l, ops, ctx).error
    ensures StoreOps(fs, ops, draws, ctx).Some?
    ensures Matches(LengthOps(l, ops, ctx), StoreOps(fs, ops, draws, ctx).value)
    ensures |StoreOps(fs, ops, draws, ctx).value| == |fs| - depth
    decreases ops, 1
  {
    if ops != [] {
      var l' := LengthOp(l, ops[0], ctx);
      if l'.error {
        LengthErrorStays(l', ops[1..], ctx);
      }
      OpStores(l, fs, ops[0], draws[0], ctx);
      var fs' := StoreOp(fs, ops[0], draws[0], ctx).value;
      var depth' := if ops[0].BeginScope? then depth + 1 else if ops[0].EndScope? then depth - 1 else depth;
      OpsStore(l', fs', ops[1..], draws[1..], depth', ctx);
    }
  }

  lemma {:induction false} PartsStore(l: Length, parts: seq<Part>, draws: seq<seq<Draw>>, ctx: Context)
    requires !l.error && BalancedParts(parts) && !LengthParts(l, parts, ctx).error
    requires |parts| == |draws| && forall i :: 0 <= i < |parts| ==> FitsOps(parts[i].ops, draws[i])
    ensures StoreParts(parts, draws, ctx).Some?
    ensures LengthParts(l, parts, ctx) == Grow(l, TotalLength(StoreParts(parts, draws, ctx).value))
    decreases parts, 2
  {
    if parts != [] {
      var part := parts[0].ops;
      PartIsLocal(l, part, ctx);
      var l' := LengthOps(l, part, ctx);
      if l'.error {
        LengthPartsErrorStays(l', parts[1..], ctx);
      }
      OpsStore(NO_LENGTH, [[]], part, draws[0], 0, ctx);
      PartsStore(l', parts[1..], draws[1..], ctx);
    }
  }

  // ---------- The buffer only grows

  /** Every op but the two scope marks appends to the innermost frame. */
  lemma Appended(fs: Frames, op: Op, draw: Draw, ctx: Context) returns (bytes: seq<byte>)
    requires FitsOp(op, draw) && StoreOp(fs, op, draw, ctx).Some? && !op.BeginScope? && !op.EndScope?
    ensures StoreOp(fs, op, draw, ctx).value == Append(fs, bytes)
  {
    var fs', last := StoreOp(fs, op, draw, ctx).value, |fs| - 1;
    bytes := fs'[last][|fs[last]|..];
    assert fs'[last] == fs[last] + bytes;
  }

  lemma {:induction false} LengthGrows(fs: Frames, ops: seq<Op>, draws: seq<Draw>, ctx: Context)
    requires FitsOps(ops, draws) && StoreOps(fs, ops, draws, ctx).Some?
    ensures |Flatten(fs)| <= |Flatten(StoreOps(fs, ops, draws, ctx).value)|
    decreases |ops|
  {
    if ops != [] {
      var fs' := StoreOp(fs, ops[0], draws[0], ctx).value;
      if ops[0].EndScope? {
        EndFlattens(fs);
      } else if ops[0].BeginScope? {
        assert fs'[..|fs|] == fs;
      } else {
        var bytes := Appended(fs, ops[0], draws[0], ctx);
        AppendFlattens(fs, bytes);
      }
      LengthGrows(fs', ops[1..], draws[1..], ctx);
    }
  }
}
