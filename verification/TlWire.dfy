/** The bytes that stand for a value, written down directly from its type: the storing code writes them, and the
    parsing code takes them. */
module TlWire {
  import opened Options
  import opened Bytes
  import opened TlSchema
  import opened TlCode
  import opened TlRuntime
  import opened TlRoundTrip

  // ---------- Built-in types

  lemma ThreeBytes(n: nat)
    ensures LittleEndian(n, 3) == Word(n)[..3]
  {
    WordIsLittleEndian(n);
    var a := n / 256;
    var b := a / 256;
    assert a == n / 256 && b == n / 0x1_0000;
    assert LittleEndian(b, 1) == [b % 256] + LittleEndian(b / 256, 0);
    assert LittleEndian(a, 2) == [a % 256] + LittleEndian(b, 1);
  }

  /** The length in one, three or four bytes, the string, and zeros up to a multiple of four bytes */
  function StringBytes(s: seq<byte>): (r: seq<byte>)
    requires |s| < 0x1_0000_0000
    ensures |r| % 4 == 0
  {
    var len := |s|;
    if len < 254 then [len] + s + Zeros(3 - len % 4)
    else if len < 0x100_0000 then [254] + Word(len)[..3] + s + Zeros((4 - len % 4) % 4)
    else [255] + Word(len) + [0, 0, 0] + s + Zeros((4 - len % 4) % 4)
  }

  lemma StoresString(s: seq<byte>)
    requires |s| < 0x1_0000_0000
    ensures StoreString(s) == Some(StringBytes(s))
  {
    var len := |s|;
    WordIsLittleEndian(len);
    ThreeBytes(len);
    assert len % 4 < 4 && (len + 1) % 4 == if len % 4 == 3 then 0 else len % 4 + 1;
  }

  lemma BoolBytes(b: bool)
    ensures StoreBool(b) == if b then [0xb5, 0x75, 0x72, 0x99] else [0x37, 0x97, 0x79, 0xbc]
  {
    WordIsLittleEndian(ID_BOOL_TRUE);
    WordIsLittleEndian(ID_BOOL_FALSE);
  }

  /** The bytes are a value of t; they are what is stored for it and what it is read back from. */
  predicate IsNumberOf(S: Schema, t: TypeUse, bytes: seq<byte>, fuel: nat, rest: seq<byte>) {
    && Typed(S, t, Number(bytes))
    && StoreClass(S, t).Some? && RunStore(S, StoreClass(S, t).value, Number(bytes)) == Some(bytes)
    && FetchClass(S, t).Some?
    && RunFetch(S, fuel, FetchClass(S, t).value, bytes + rest) == Some((Number(bytes), rest))
  }

  lemma NumberOfWidth(S: Schema, t: TypeUse, n: nat, width: nat, fuel: nat, rest: seq<byte>)
    requires Width(t.name) == width > 0 && n < Pow256(width)
    ensures IsNumberOf(S, t, LittleEndian(n, width), fuel, rest) && FromLittleEndian(LittleEndian(n, width)) == n
  {
    LittleEndianRoundTrip(n, width);
    var bytes := LittleEndian(n, width);
    assert (bytes + rest)[..width] == bytes && (bytes + rest)[width..] == rest;
  }

  lemma NumbersOf4Bytes(S: Schema, t: TypeUse, n: nat, fuel: nat, rest: seq<byte>)
    requires t.name in {NatVar, Int, Int32} && n < 0x1_0000_0000
    ensures IsNumberOf(S, t, LittleEndian(n, 4), fuel, rest) && FromLittleEndian(LittleEndian(n, 4)) == n
  {
    Pow256At();
    NumberOfWidth(S, t, n, 4, fuel, rest);
  }

  lemma NumbersOf8Bytes(S: Schema, t: TypeUse, n: nat, fuel: nat, rest: seq<byte>)
    requires t.name in {Int53, Int64, Long, Double} && n < 0x1_0000_0000_0000_0000
    ensures IsNumberOf(S, t, LittleEndian(n, 8), fuel, rest) && FromLittleEndian(LittleEndian(n, 8)) == n
  {
    assert Pow256(8) == 0x1_0000_0000_0000_0000 by {
      Pow256At();
      assert Pow256(6) == 256 * Pow256(5) && Pow256(7) == 256 * Pow256(6);
    }
    NumberOfWidth(S, t, n, 8, fuel, rest);
  }

  lemma WiderNumbers(S: Schema, t: TypeUse, n: nat, fuel: nat, rest: seq<byte>)
    ensures t.name == Int128 && n < Pow256(16) ==>
              IsNumberOf(S, t, LittleEndian(n, 16), fuel, rest) && FromLittleEndian(LittleEndian(n, 16)) == n
    ensures t.name == Int256 && n < Pow256(32) ==>
              IsNumberOf(S, t, LittleEndian(n, 32), fuel, rest) && FromLittleEndian(LittleEndian(n, 32)) == n
    ensures t.name == Int512 && n < Pow256(64) ==>
              IsNumberOf(S, t, LittleEndian(n, 64), fuel, rest) && FromLittleEndian(LittleEndian(n, 64)) == n
  {
    hide IsNumberOf, Pow256, LittleEndian, FromLittleEndian;
    if t.name == Int128 && n < Pow256(16) {
      NumberOfWidth(S, t, n, 16, fuel, rest);
    } else if t.name == Int256 && n < Pow256(32) {
      NumberOfWidth(S, t, n, 32, fuel, rest);
    } else if t.name == Int512 && n < Pow256(64) {
      NumberOfWidth(S, t, n, 64, fuel, rest);
    }
  }

  /** A bool is read from its four bytes and from no others. */
  lemma BoolIsRead(bytes: seq<byte>, rest: seq<byte>)
    requires |bytes| == 4
    ensures FetchBool(bytes + rest)
            == if bytes == [0xb5, 0x75, 0x72, 0x99] then Some((Truth(true), rest))
               else if bytes == [0x37, 0x97, 0x79, 0xbc] then Some((Truth(false), rest))
               else None
  {
    hide LittleEndian, FromLittleEndian;
    assert (bytes + rest)[..4] == bytes && (bytes + rest)[4..] == rest;
    FourBytes(bytes);
    BoolBytes(true);
    BoolBytes(false);
    FetchIntOf(ID_BOOL_TRUE, rest);
    FetchIntOf(ID_BOOL_FALSE, rest);
  }

  lemma FourBytes(bytes: seq<byte>)
    requires |bytes| == 4
    ensures LittleEndian(FromLittleEndian(bytes), 4) == bytes
  {
    ThenBytes(bytes);
  }

  lemma {:induction false} ThenBytes(bytes: seq<byte>)
    ensures LittleEndian(FromLittleEndian(bytes), |bytes|) == bytes
  {
    if bytes != [] {
      ThenBytes(bytes[1..]);
      var others := FromLittleEndian(bytes[1..]);
      assert (bytes[0] + 256 * others) / 256 == others && (bytes[0] + 256 * others) % 256 == bytes[0];
    }
  }

  // ---------- All types

  /** The number of the constructor in front, unless the type is bare or has none */
  function Prefix(S: Schema, t: TypeUse, v: Value): seq<byte> {
    var cs := if t.name == Vector then S(Vector).constructors else Constructors(S, t.name);
    var k := if v.Object? then v.index else 0;
    if t.bare || t.name == NatVar || t.name == Bool || k >= |cs| then [] else Word(cs[k].id)
  }

  function Wire(S: Schema, t: TypeUse, v: Value): seq<byte>
    requires Typed(S, t, v)
    decreases v, 1
  {
    Prefix(S, t, v) + Contents(S, t, v)
  }

  function Contents(S: Schema, t: TypeUse, v: Value): seq<byte>
    requires Typed(S, t, v)
    decreases v, 0
  {
    match v
    case Number(bytes) => bytes
    case Truth(b) => if b then [0xb5, 0x75, 0x72, 0x99] else [0x37, 0x97, 0x79, 0xbc]
    case Text(s) => StringBytes(s)
    case Array(elems) => Word(|elems|) + WireAll(S, t.children[0], elems)
    case Object(typ, k, fields) => WireFields(S, Constructors(S, typ)[k], 0, fields, map[])
    case _ => []
  }

  function WireAll(S: Schema, t: TypeUse, vs: seq<Value>): seq<byte>
    requires forall i :: 0 <= i < |vs| ==> Typed(S, t, vs[i])
    decreases vs, 2
  {
    if vs == [] then [] else Wire(S, t, vs[0]) + WireAll(S, t, vs[1..])
  }

  /** The fields from number i on. A flags word takes four bytes, a True field none, and a conditional field is there
      if its bit is on. */
  function WireFields(S: Schema, c: Combinator, i: nat, fields: seq<Value>, env: Env): seq<byte>
    requires i <= |c.args| == |fields| && TypedFields(S, c, i, fields, env)
    decreases fields, |c.args| - i
  {
    if i == |c.args| then []
    else
      var a := c.args[i];
      if a.varNum >= 0 then
        var n := FlagsWord(c, i, fields);
        Word(n) + WireFields(S, c, i + 1, fields, env[a.varNum := n])
      else
        (if a.existVarNum < 0 then Wire(S, a.typ, fields[i])
         else if a.typ.name == True || !Bit(env[a.existVarNum], a.existVarBit) then []
         else Wire(S, a.typ, fields[i]))
        + WireFields(S, c, i + 1, fields, env)
  }

  // ---------- The storing code writes exactly these bytes

  lemma {:induction false} StoresWire(S: Schema, t: TypeUse, v: Value)
    requires GoodSchema(S) && Typed(S, t, v) && FullStoreClass(S, t).Some?
    ensures RunStore(S, FullStoreClass(S, t).value, v) == Some(Wire(S, t, v))
    decreases v, 1
  {
    StoresContents(S, t, v);
    var code := StoreClass(S, t).value;
    StoresPrefix(S, t, v);
    assert [] + Contents(S, t, v) == Contents(S, t, v);
  }

  lemma StoresPrefix(S: Schema, t: TypeUse, v: Value)
    requires GoodSchema(S) && Typed(S, t, v) && FullStoreClass(S, t).Some?
    requires StoreClass(S, t).Some? && RunStore(S, StoreClass(S, t).value, v).Some?
    ensures RunStore(S, FullStoreClass(S, t).value, v)
            == Some(Prefix(S, t, v) + RunStore(S, StoreClass(S, t).value, v).value)
  {
    hide TypedFields, Word;
    var code := StoreClass(S, t).value;
    var body := RunStore(S, code, v).value;
    assert [] + body == body;
    match FullStoreClass(S, t).value
    case SBoxed(_, id) =>
      WordIsLittleEndian(id);
    case SBoxedUnknown(_) =>
      WordIsLittleEndian(Constructors(S, t.name)[v.index].id);
    case _ =>
  }

  lemma {:induction false} StoresContents(S: Schema, t: TypeUse, v: Value)
    requires GoodSchema(S) && Typed(S, t, v) && StoreClass(S, t).Some?
    ensures RunStore(S, StoreClass(S, t).value, v) == Some(Contents(S, t, v))
    decreases v, 0
  {
    hide StringBytes, Word, WireAll, WireFields, RunStoreAll, RunStoreFields, StoreString, StoreBool, TypedFields,
         FullStoreClass;
    match v
    case Truth(b) => BoolBytes(b);
    case Text(s) => StoresString(s);
    case Array(elems) =>
      WordIsLittleEndian(|elems|);
      StoresAll(S, t.children[0], elems);
    case Object(typ, k, fields) =>
      var c := Constructors(S, typ)[k];
      assert GoodCombinator(S, Constructors(S, Named(typ.id))[k]);
      StoresFields(S, c, 0, {}, fields, map[]);
    case _ =>
  }

  lemma {:induction false} StoresAll(S: Schema, t: TypeUse, vs: seq<Value>)
    requires GoodSchema(S) && FullStoreClass(S, t).Some? && forall i :: 0 <= i < |vs| ==> Typed(S, t, vs[i])
    ensures RunStoreAll(S, FullStoreClass(S, t).value, vs) == Some(WireAll(S, t, vs))
    decreases vs, 2
  {
    if vs != [] {
      StoresWire(S, t, vs[0]);
      StoresAll(S, t, vs[1..]);
    }
  }

  lemma {:induction false} StoresFields(S: Schema, c: Combinator, i: nat, stored: set<nat>, fields: seq<Value>,
                                        env: Env)
    requires GoodSchema(S) && i <= |c.args| == |fields|
    requires forall k :: 0 <= k < |c.args| ==> GoodArg(c.args[k])
    requires TypedFields(S, c, i, fields, env) && env.Keys == stored && StoreProgram(S, c, i, stored).Some?
    ensures RunStoreFields(S, StoreProgram(S, c, i, stored).value, i, fields, env)
            == Some(WireFields(S, c, i, fields, env))
    decreases fields, |c.args| - i
  {
    if i == |c.args| {
      return;
    }
    hide RunStore, RunStoreFields, FullStoreClass, Wire, WireFields, Word, Bit, Typed, OrTrueBits, TrueBits, GoodArg;
    var a := c.args[i];
    if a.varNum >= 0 {
      StoresFields(S, c, i + 1, stored + {a.varNum}, fields, env[a.varNum := FlagsWord(c, i, fields)]);
      FlagsComeFirst(S, c, i, stored, fields, env);
    } else {
      StoresFields(S, c, i + 1, stored, fields, env);
      if IsPresent(a, env) {
        StoresWire(S, a.typ, fields[i]);
      }
      FieldComesFirst(S, c, i, stored, fields, env);
    }
  }

  lemma FlagsComeFirst(S: Schema, c: Combinator, i: nat, stored: set<nat>, fields: seq<Value>, env: Env)
    requires i < |c.args| == |fields| && c.args[i].varNum >= 0 && GoodArg(c.args[i])
    requires TypedFields(S, c, i, fields, env) && env.Keys == stored && StoreProgram(S, c, i, stored).Some?
    requires var env', stored' := env[c.args[i].varNum := FlagsWord(c, i, fields)], StoredAfter(c.args[i], stored);
             RunStoreFields(S, StoreProgram(S, c, i + 1, stored').value, i + 1, fields, env')
             == Some(WireFields(S, c, i + 1, fields, env'))
    ensures RunStoreFields(S, StoreProgram(S, c, i, stored).value, i, fields, env)
            == Some(WireFields(S, c, i, fields, env))
  {
    hide RunStore, FullStoreClass, Wire, Word, Bit, Typed, OrTrueBits, TrueBits;
    var a := c.args[i];
    WordIsLittleEndian(FlagsWord(c, i, fields));
    var stmts, others := StoreProgram(S, c, i, stored).value, StoreProgram(S, c, i + 1, StoredAfter(a, stored)).value;
    assert stmts[1..] == others && stmts[0].StoreVar?;
  }

  lemma FieldComesFirst(S: Schema, c: Combinator, i: nat, stored: set<nat>, fields: seq<Value>, env: Env)
    requires i < |c.args| == |fields| && c.args[i].varNum < 0
    requires TypedFields(S, c, i, fields, env) && env.Keys == stored && StoreProgram(S, c, i, stored).Some?
    requires RunStoreFields(S, StoreProgram(S, c, i + 1, stored).value, i + 1, fields, env)
             == Some(WireFields(S, c, i + 1, fields, env))
    requires IsPresent(c.args[i], env) ==>
               && Typed(S, c.args[i].typ, fields[i]) && FullStoreClass(S, c.args[i].typ).Some?
               && RunStore(S, FullStoreClass(S, c.args[i].typ).value, fields[i])
                  == Some(Wire(S, c.args[i].typ, fields[i]))
    ensures RunStoreFields(S, StoreProgram(S, c, i, stored).value, i, fields, env)
            == Some(WireFields(S, c, i, fields, env))
  {
    hide RunStore, FullStoreClass, Wire, Word, Bit, Typed, OrTrueBits, TrueBits;
    var stmts, others := StoreProgram(S, c, i, stored).value, StoreProgram(S, c, i + 1, stored).value;
    assert stmts[1..] == others;
    assert [] + WireFields(S, c, i + 1, fields, env) == WireFields(S, c, i + 1, fields, env);
  }

  /** A flags word with its highest bit set is a parser error. */
  lemma NegativeFlagsAreRefused(S: Schema, fuel: nat, variable: nat, code: FetchCode, stmts: seq<FetchStmt>, env: Env,
                                n: nat, rest: seq<byte>)
    requires 0x8000_0000 <= n < 0x1_0000_0000
    ensures RunFetchFields(S, fuel, [FetchVar(Always, variable, code)] + stmts, env, Word(n) + rest) == None
  {
    WordIsLittleEndian(n);
    FetchIntOf(n, rest);
  }

  /** The parsing code takes these bytes for the value that they stand for, up to what the flags say. */
  lemma ParsesWire(S: Schema, t: TypeUse, v: Value, fuel: nat, rest: seq<byte>)
    requires GoodSchema(S) && Typed(S, t, v) && Height(v) <= fuel
    requires FullStoreClass(S, t).Some? && FullFetchClass(S, t).Some?
    ensures RunFetch(S, fuel, FullFetchClass(S, t).value, Wire(S, t, v) + rest)
            == if Fits(S, FullStoreClass(S, t).value, v, |rest|) then Some((Normalize(S, v), rest)) else None
  {
    StoresWire(S, t, v);
    RoundTrip(S, t, v, fuel, rest);
  }
}
