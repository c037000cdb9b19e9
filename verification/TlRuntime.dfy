/** What the emitted code does: the storer and parser classes over bytes. */
module TlRuntime {
  import opened Options
  import opened Bytes
  import opened TlSchema
  import opened TlCode

  /** A C++ value of an emitted class. `Default` is the default-constructed value
      of a field that was not parsed. */
  datatype Value =
    | Default
    | Number(bytes: seq<byte>)
    | Flags(n: nat)
    | Truth(b: bool)
    | Text(bytes: seq<byte>)
    | Array(elems: seq<Value>)
    | Object(typ: TypeName, index: nat, fields: seq<Value>)

  const ID_BOOL_FALSE: nat := 0xbc799737
  const ID_BOOL_TRUE: nat := 0x997275b5

  type Env = map<nat, nat>

  // ---------- Strings

  /** Bytes missing to the next multiple of 4 */
  function Padding(n: nat): nat {
    (4 - n % 4) % 4
  }

  /** store_string; longer strings are a fatal error */
  function StoreString(s: seq<byte>): Option<seq<byte>> {
    var len := |s|;
    if len < 254 then Some([len] + s + Zeros(Padding(len + 1)))
    else if len < 0x100_0000 then Some([254] + LittleEndian(len, 3) + s + Zeros(Padding(len)))
    else if len < 0x1_0000_0000 then Some([255] + LittleEndian(len, 4) + [0, 0, 0] + s + Zeros(Padding(len)))
    else None
  }

  /** fetch_string: the string and the bytes left; None is a parser error */
  function FetchString(input: seq<byte>): Option<(seq<byte>, seq<byte>)> {
    if |input| < 4 then None
    else if input[0] < 254 then
      var len := input[0];
      var aligned := len / 4 * 4;
      if |input| - 4 < aligned then None
      else Some((input[1..1 + len], input[4 + aligned..]))
    else if input[0] == 254 then
      var len := FromLittleEndian(input[1..4]);
      var aligned := (len + 3) / 4 * 4;
      if |input| - 4 < aligned then None
      else Some((input[4..4 + len], input[4 + aligned..]))
    else if |input| < 8 then None
    else
      var len := FromLittleEndian(input[1..8]);
      var aligned := (len + 3) / 4 * 4;
      if |input| - 8 < aligned then None
      else Some((input[8..8 + len], input[8 + aligned..]))
  }

  // ---------- Running store code

  function StoreBool(b: bool): seq<byte> {
    LittleEndian(if b then ID_BOOL_TRUE else ID_BOOL_FALSE, 4)
  }

  /** Reading a variable that was never assigned is undefined behaviour. */
  function Holds(guard: Guard, env: Env): Option<bool> {
    match guard
    case Always => Some(true)
    case IfBit(v, bit) => if v in env then Some(Bit(env[v], bit)) else None
  }

  /** field | (true1 << bit1) | (true2 << bit2) ... */
  function OrTrueBits(n: nat, bits: seq<(nat, nat)>, fields: seq<Value>): nat {
    if bits == [] then n
    else
      var last := bits[|bits| - 1];
      var on := last.0 < |fields| && fields[last.0].Truth? && fields[last.0].b;
      OrBit(OrTrueBits(n, bits[..|bits| - 1], fields), last.1, on)
  }

  function ConstructorOf(S: Schema, typ: TypeName, k: nat): Option<Combinator> {
    var cs := Supported(S(typ).constructors);
    if k < |cs| then Some(cs[k]) else None
  }

  /** The bytes written; None when the code is not defined on the value */
  function RunStore(S: Schema, code: StoreCode, v: Value): Option<seq<byte>>
    decreases v, code, 0
  {
    match code
    case SBinary =>
      if v.Number? then Some(v.bytes) else None
    case SBool => if v.Truth? then Some(StoreBool(v.b)) else None
    case SString => if v.Text? then StoreString(v.bytes) else None
    case SVector(elem) =>
      if !v.Array? || |v.elems| >= 0x8000_0000 then None
      else
        var body :- RunStoreAll(S, elem, v.elems);
        Some(LittleEndian(|v.elems|, 4) + body)
    case SObject =>
      if !v.Object? then None
      else
        var c :- ConstructorOf(S, v.typ, v.index);
        var program :- StoreProgram(S, c, 0, {});
        RunStoreFields(S, program, 0, v.fields, map[])
    case SBoxed(elem, id) =>
      var body :- RunStore(S, elem, v);
      Some(LittleEndian(id, 4) + body)
    case SBoxedUnknown(elem) =>
      if !v.Object? then None
      else
        var c :- ConstructorOf(S, v.typ, v.index);
        var body :- RunStore(S, elem, v);
        Some(LittleEndian(c.id, 4) + body)
  }

  function RunStoreAll(S: Schema, code: StoreCode, vs: seq<Value>): Option<seq<byte>>
    decreases vs, code, 1
  {
    if vs == [] then Some([])
    else
      var first :- RunStore(S, code, vs[0]);
      var others :- RunStoreAll(S, code, vs[1..]);
      Some(first + others)
  }

  /** The statements for the fields from number i on */
  function RunStoreFields(S: Schema, stmts: seq<StoreStmt>, i: nat, fields: seq<Value>, env: Env): Option<seq<byte>>
    decreases fields, |stmts|
  {
    if stmts == [] then Some([])
    else if i >= |fields| then None
    else
      match stmts[0]
      case StoreNothing => RunStoreFields(S, stmts[1..], i + 1, fields, env)
      case StoreField(guard, code) =>
        var present :- Holds(guard, env);
        var first :- if present then RunStore(S, code, fields[i]) else Some([]);
        var others :- RunStoreFields(S, stmts[1..], i + 1, fields, env);
        Some(first + others)
      case StoreVar(guard, variable, bits, _) =>
        var present :- Holds(guard, env);
        if !present then RunStoreFields(S, stmts[1..], i + 1, fields, env)
        else if !fields[i].Flags? then None
        else
          var n := OrTrueBits(fields[i].n, bits, fields);
          var others :- RunStoreFields(S, stmts[1..], i + 1, fields, env[variable := n]);
          Some(LittleEndian(n, 4) + others)
  }

  // ---------- Running fetch code

  /** fetch_int and the wider fetches */
  function FetchNumber(width: nat, input: seq<byte>): Option<(seq<byte>, seq<byte>)> {
    if |input| < width then None else Some((input[..width], input[width..]))
  }

  function FetchInt(input: seq<byte>): Option<(nat, seq<byte>)> {
    var (bytes, rest) :- FetchNumber(4, input);
    Some((FromLittleEndian(bytes), rest))
  }

  function FetchBool(input: seq<byte>): Option<(Value, seq<byte>)> {
    var (n, rest) :- FetchInt(input);
    if n == ID_BOOL_TRUE then Some((Truth(true), rest))
    else if n == ID_BOOL_FALSE then Some((Truth(false), rest))
    else None
  }

  function IndexOfId(cs: seq<Combinator>, id: nat): Option<nat> {
    if cs == [] then None
    else if cs[0].id == id then Some(0)
    else
      var k :- IndexOfId(cs[1..], id);
      Some(k + 1)
  }

  /** The value read and the bytes left; None is a parser error. `fuel` bounds the
      nesting of objects: a schema may let a bare type contain itself. */
  function RunFetch(S: Schema, fuel: nat, code: FetchCode, input: seq<byte>): Option<(Value, seq<byte>)>
    decreases fuel, 1, code, 0
  {
    match code
    case FNumber(width) =>
      var (bytes, rest) :- FetchNumber(width, input);
      Some((Number(bytes), rest))
    case FTrue => None  // no such parser class exists
    case FBool => FetchBool(input)
    case FString =>
      var (bytes, rest) :- FetchString(input);
      Some((Text(bytes), rest))
    case FVector(elem) =>
      var (n, rest) :- FetchInt(input);
      if |rest| < n then None
      else
        var (vs, rest') :- RunFetchAll(S, fuel, elem, n, rest);
        Some((Array(vs), rest'))
    case FObject(typ) =>
      var cs := Supported(S(typ).constructors);
      if fuel == 0 then None
      else if |cs| == 1 then RunFetchConstructor(S, fuel - 1, typ, 0, input)
      else
        var (id, rest) :- FetchInt(input);
        var k :- IndexOfId(cs, id);
        RunFetchConstructor(S, fuel - 1, typ, k, rest)
    case FBoxed(elem, id) =>
      var (n, rest) :- FetchInt(input);
      if n != id then None else RunFetch(S, fuel, elem, rest)
  }

  function RunFetchAll(S: Schema, fuel: nat, code: FetchCode, n: nat, input: seq<byte>): Option<(seq<Value>, seq<byte>)>
    decreases fuel, 1, code, 1, n
  {
    if n == 0 then Some(([], input))
    else
      var (v, rest) :- RunFetch(S, fuel, code, input);
      var (vs, rest') :- RunFetchAll(S, fuel, code, n - 1, rest);
      Some(([v] + vs, rest'))
  }

  function RunFetchConstructor(S: Schema, fuel: nat, typ: TypeName, k: nat, input: seq<byte>)
    : Option<(Value, seq<byte>)>
    decreases fuel + 1, 0, 1
  {
    var c :- ConstructorOf(S, typ, k);
    var program :- FetchProgram(S, c, 0, {});
    var (fields, rest) :- RunFetchFields(S, fuel, program, map[], input);
    Some((Object(typ, k, fields), rest))
  }

  /** The code parses a True, boxed or not. */
  predicate ParsesTrue(code: FetchCode) {
    code == FTrue || (code.FBoxed? && code.elem == FTrue)
  }

  /** The value of a field that is not parsed; the C++ type of a True is bool. */
  function AbsentValue(code: FetchCode): Value {
    if ParsesTrue(code) then Truth(false) else Default
  }

  function RunFetchFields(S: Schema, fuel: nat, stmts: seq<FetchStmt>, env: Env, input: seq<byte>)
      : Option<(seq<Value>, seq<byte>)>
    decreases fuel + 1, 0, 0, |stmts|
  {
    if stmts == [] then Some(([], input))
    else
      match stmts[0]
      case FetchBit(variable, bit) =>
        var b :- Holds(IfBit(variable, bit), env);
        var (vs, rest) :- RunFetchFields(S, fuel, stmts[1..], env, input);
        Some(([Truth(b)] + vs, rest))
      case FetchField(guard, code) =>
        var present :- Holds(guard, env);
        var (v, rest) :- if present then RunFetch(S, fuel, code, input) else Some((AbsentValue(code), input));
        var (vs, rest') :- RunFetchFields(S, fuel, stmts[1..], env, rest);
        Some(([v] + vs, rest'))
      case FetchVar(guard, variable, _) =>
        var present :- Holds(guard, env);
        var (n, rest) :- if present then FetchInt(input) else Some((0, input));
        if n >= 0x8000_0000 then None  // negative as an int32
        else
          var v := if present then Flags(n) else Default;
          var (vs, rest') :- RunFetchFields(S, fuel, stmts[1..], env[variable := n], rest);
          Some(([v] + vs, rest'))
  }
}
