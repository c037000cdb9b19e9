/** The emitted parser undoes the emitted storer. */
module TlRoundTrip {
  import opened Options
  import opened Bytes
  import opened TlSchema
  import opened TlCode
  import opened TlRuntime

  // ---------- Schemas and values

  function Constructors(S: Schema, typ: TypeName): seq<Combinator> {
    Supported(S(typ).constructors)
  }

  /** Both generators succeed, `#` fields are unconditional, and conditional True
      fields use one of the 32 bits of their flags word. */
  predicate GoodCombinator(S: Schema, c: Combinator) {
    && StoreProgram(S, c, 0, {}).Some?
    && FetchProgram(S, c, 0, {}).Some?
    && forall i :: 0 <= i < |c.args| ==> GoodArg(c.args[i])
  }

  predicate GoodArg(a: Arg) {
    && (a.varNum >= 0 ==> a.existVarNum < 0)
    && (a.existVarNum >= 0 && a.typ.name == True ==> a.existVarBit < 32)
  }

  predicate DistinctIds(cs: seq<Combinator>) {
    forall i, j :: 0 <= i < j < |cs| ==> cs[i].id != cs[j].id
  }

  ghost predicate GoodSchema(S: Schema) {
    && |Constructors(S, Bool)| > 1
    && S(NatVar).constructors == []
    && (forall id: nat :: DistinctIds(Constructors(S, Named(id))))
    && (forall id: nat, k: nat :: k < |Constructors(S, Named(id))| ==> GoodCombinator(S, Constructors(S, Named(id))[k]))
  }

  /** v is a value of the C++ type generated for t. */
  predicate Typed(S: Schema, t: TypeUse, v: Value)
    decreases v, 0
  {
    if IsNumeric(t.name) then v.Number? && |v.bytes| == Width(t.name)
    else if t.name == Bool then v.Truth?
    else if IsStringLike(t.name) then v.Text? && |v.bytes| < 0x1_0000_0000
    else if t.name == Vector then
      && |t.children| == 1 && v.Array? && |v.elems| < 0x8000_0000
      && forall i :: 0 <= i < |v.elems| ==> Typed(S, t.children[0], v.elems[i])
    else
      && t.name.Named? && v.Object? && v.typ == t.name
      && v.index < |Constructors(S, v.typ)|
      && var c := Constructors(S, v.typ)[v.index];
         |v.fields| == |c.args| && TypedFields(S, c, 0, v.fields, map[])
  }

  /** The fields from number i on; `env` holds the flags words before them. A
      field whose bit is clear may hold anything. */
  predicate TypedFields(S: Schema, c: Combinator, i: nat, fields: seq<Value>, env: Env)
    requires i <= |c.args| == |fields|
    decreases fields, |c.args| - i
  {
    if i == |c.args| then true
    else
      var a, v := c.args[i], fields[i];
      if a.varNum >= 0 then
        v.Flags? && v.n < 0x1_0000_0000 && TypedFields(S, c, i + 1, fields, env[a.varNum := FlagsWord(c, i, fields)])
      else
        && (if a.existVarNum < 0 then Typed(S, a.typ, v)
            else if a.typ.name == True then v.Truth?
            else a.existVarNum in env && (Bit(env[a.existVarNum], a.existVarBit) ==> Typed(S, a.typ, v)))
        && TypedFields(S, c, i + 1, fields, env)
  }

  /** The word that stands for flags field i on the wire */
  function FlagsWord(c: Combinator, i: nat, fields: seq<Value>): nat
    requires i < |c.args| == |fields| && c.args[i].varNum >= 0 && fields[i].Flags?
  {
    OrTrueBits(fields[i].n, TrueBits(c.args, c.args[i].varNum, 0), fields)
  }

  // ---------- What parsing yields

  /** Flags words absorb the True fields, True fields repeat their bit, and
      absent fields are default-constructed. */
  function Normalize(S: Schema, v: Value): Value
    decreases v, 0
  {
    match v
    case Array(elems) => Array(NormalizeAll(S, elems))
    case Object(typ, k, fields) =>
      var c := ConstructorOf(S, typ, k);
      if c.Some? && |c.value.args| == |fields|
      then Object(typ, k, NormalizeFields(S, c.value, 0, fields, map[]))
      else v
    case _ => v
  }

  function NormalizeAll(S: Schema, vs: seq<Value>): (r: seq<Value>)
    ensures |r| == |vs|
    decreases vs, 1
  {
    if vs == [] then [] else [Normalize(S, vs[0])] + NormalizeAll(S, vs[1..])
  }

  function NormalizeFields(S: Schema, c: Combinator, i: nat, fields: seq<Value>, env: Env): (r: seq<Value>)
    requires i <= |c.args| == |fields|
    ensures |r| == |fields| - i
    decreases fields, |c.args| - i
  {
    if i == |c.args| then []
    else
      var a, v := c.args[i], fields[i];
      if a.varNum >= 0 && v.Flags? then
        var n := FlagsWord(c, i, fields);
        [Flags(n)] + NormalizeFields(S, c, i + 1, fields, env[a.varNum := n])
      else
        var bit := a.existVarNum >= 0 && a.existVarNum in env && Bit(env[a.existVarNum], a.existVarBit);
        var v' := if a.existVarNum < 0 then Normalize(S, v)
                  else if a.typ.name == True then Truth(bit)
                  else if bit then Normalize(S, v) else Default;
        [v'] + NormalizeFields(S, c, i + 1, fields, env)
  }

  // ---------- When parsing succeeds

  /** The bit of a True field that is not bare is set in its flags word: the parser goes on to
      parse the field, but nothing is stored for it. */
  predicate IsAnnounced(a: Arg, env: Env) {
    !a.typ.bare && a.existVarNum in env && Bit(env[a.existVarNum], a.existVarBit)
  }

  /** The parser rejects a vector that announces more elements than there are bytes
      left, a flags word that is negative as a signed number, and an announced True field.
      `trailing` is the number of bytes after the encoding of v. */
  predicate Fits(S: Schema, code: StoreCode, v: Value, trailing: nat)
    decreases v, code, 0
  {
    match code
    case SVector(elem) =>
      v.Array? ==>
        && (RunStoreAll(S, elem, v.elems).Some? ==> |v.elems| <= |RunStoreAll(S, elem, v.elems).value| + trailing)
        && FitsAll(S, elem, v.elems, trailing)
    case SObject =>
      v.Object? ==>
        var c := ConstructorOf(S, v.typ, v.index);
        c.Some? && StoreProgram(S, c.value, 0, {}).Some? ==>
          FitsFields(S, c.value.args, StoreProgram(S, c.value, 0, {}).value, 0, v.fields, map[], trailing)
    case SBoxed(elem, _) => Fits(S, elem, v, trailing)
    case SBoxedUnknown(elem) => Fits(S, elem, v, trailing)
    case _ => true
  }

  predicate FitsAll(S: Schema, code: StoreCode, vs: seq<Value>, trailing: nat)
    decreases vs, code, 1
  {
    vs == [] ||
    var others := RunStoreAll(S, code, vs[1..]);
    others.Some? ==> Fits(S, code, vs[0], |others.value| + trailing) && FitsAll(S, code, vs[1..], trailing)
  }

  predicate FitsFields(S: Schema, args: seq<Arg>, stmts: seq<StoreStmt>, i: nat, fields: seq<Value>, env: Env,
                       trailing: nat)
    decreases fields, |stmts|
  {
    if stmts == [] || i >= |fields| then true
    else
      match stmts[0]
      case StoreNothing =>
        && (i < |args| ==> !IsAnnounced(args[i], env))
        && FitsFields(S, args, stmts[1..], i + 1, fields, env, trailing)
      case StoreField(guard, code) =>
        var others := RunStoreFields(S, stmts[1..], i + 1, fields, env);
        && (Holds(guard, env) == Some(true) && others.Some? ==> Fits(S, code, fields[i], |others.value| + trailing))
        && FitsFields(S, args, stmts[1..], i + 1, fields, env, trailing)
      case StoreVar(_, variable, bits, _) =>
        fields[i].Flags? ==>
          var word := OrTrueBits(fields[i].n, bits, fields);
          word < 0x8000_0000 && FitsFields(S, args, stmts[1..], i + 1, fields, env[variable := word], trailing)
  }

  function Height(v: Value): nat
    decreases v, 0
  {
    match v
    case Array(elems) => 1 + MaxHeight(elems)
    case Object(_, _, fields) => 1 + MaxHeight(fields)
    case _ => 0
  }

  function MaxHeight(vs: seq<Value>): (h: nat)
    ensures forall v :: v in vs ==> Height(v) <= h
    decreases vs, 1
  {
    if vs == [] then 0
    else
      var others := MaxHeight(vs[1..]);
      assert vs == [vs[0]] + vs[1..];
      if Height(vs[0]) > others then Height(vs[0]) else others
  }

  /** Storing v succeeds, and parsing the result answers the normalized v and the
      bytes after it, exactly when every vector fits. */
  predicate Inverse(S: Schema, fuel: nat, store: StoreCode, fetch: FetchCode, v: Value, rest: seq<byte>) {
    var stored := RunStore(S, store, v);
    && stored.Some?
    && RunFetch(S, fuel, fetch, stored.value + rest)
       == if Fits(S, store, v, |rest|) then Some((Normalize(S, v), rest)) else None
  }

  // ---------- Strings and numbers

  lemma Pow256At()
    ensures Pow256(3) == 0x100_0000 && Pow256(4) == 0x1_0000_0000
  {
    assert Pow256(2) == 256 * Pow256(1);
  }

  lemma FetchIntOf(n: nat, rest: seq<byte>)
    requires n < 0x1_0000_0000
    ensures FetchInt(LittleEndian(n, 4) + rest) == Some((n, rest))
  {
    Pow256At();
    LittleEndianRoundTrip(n, 4);
    var input := LittleEndian(n, 4) + rest;
    assert input[..4] == LittleEndian(n, 4) && input[4..] == rest;
  }

  lemma PaddedLength(n: nat)
    ensures n + Padding(n) == (n + 3) / 4 * 4
    ensures 1 + n + Padding(n + 1) == 4 + n / 4 * 4
  {
    var q, r := n / 4, n % 4;
    assert n == 4 * q + r;
    assert (n + 1) % 4 == if r == 3 then 0 else r + 1;
  }

  lemma {:induction false} LittleEndianZeros(n: nat, width: nat, extra: nat)
    requires n < Pow256(width)
    ensures FromLittleEndian(LittleEndian(n, width) + Zeros(extra)) == n
    decreases width, extra
  {
    if width > 0 {
      LittleEndianZeros(n / 256, width - 1, extra);
      var s := LittleEndian(n, width) + Zeros(extra);
      assert s[1..] == LittleEndian(n / 256, width - 1) + Zeros(extra);
    } else if extra > 0 {
      LittleEndianZeros(0, 0, extra - 1);
      assert (LittleEndian(n, width) + Zeros(extra))[1..] == LittleEndian(0, 0) + Zeros(extra - 1);
    }
  }

  lemma ShortStringRoundTrip(s: seq<byte>, rest: seq<byte>)
    requires |s| < 254
    ensures FetchString([|s|] + s + Zeros(Padding(|s| + 1)) + rest) == Some((s, rest))
  {
    PaddedLength(|s|);
    var input := [|s|] + s + Zeros(Padding(|s| + 1)) + rest;
    assert input[1..1 + |s|] == s;
    assert input[4 + |s| / 4 * 4..] == rest;
  }

  /** The two longer forms: a marker, the length, the string and its padding */
  lemma LongStringParts(head: seq<byte>, s: seq<byte>, rest: seq<byte>)
    ensures var input, aligned := head + s + Zeros(Padding(|s|)) + rest, (|s| + 3) / 4 * 4;
            && |head| + aligned <= |input|
            && input[..|head|] == head
            && input[|head|..|head| + |s|] == s
            && input[|head| + aligned..] == rest
  {
    PaddedLength(|s|);
  }

  lemma StringRoundTrip(s: seq<byte>, rest: seq<byte>)
    requires |s| < 0x1_0000_0000
    ensures StoreString(s).Some?
    ensures FetchString(StoreString(s).value + rest) == Some((s, rest))
  {
    var len, input := |s|, StoreString(s).value + rest;
    Pow256At();
    if len < 254 {
      ShortStringRoundTrip(s, rest);
    } else if len < 0x100_0000 {
      LongStringParts([254] + LittleEndian(len, 3), s, rest);
      LittleEndianRoundTrip(len, 3);
      assert input[1..4] == input[..4][1..] == LittleEndian(len, 3);
    } else {
      LongStringParts([255] + LittleEndian(len, 4) + [0, 0, 0], s, rest);
      LittleEndianZeros(len, 4, 3);
      assert input[1..8] == input[..8][1..] == LittleEndian(len, 4) + Zeros(3);
    }
  }

  // ---------- Boxing

  lemma BoxInverse(S: Schema, fuel: nat, store: StoreCode, fetch: FetchCode, id: int32id, v: Value, rest: seq<byte>)
    requires Inverse(S, fuel, store, fetch, v, rest)
    ensures Inverse(S, fuel, SBoxed(store, id), FBoxed(fetch, id), v, rest)
  {
    var body := RunStore(S, store, v).value;
    assert LittleEndian(id, 4) + body + rest == LittleEndian(id, 4) + (body + rest);
    FetchIntOf(id, body + rest);
  }

  lemma {:induction false} IndexOfOwnId(cs: seq<Combinator>, k: nat)
    requires k < |cs| && DistinctIds(cs)
    ensures IndexOfId(cs, cs[k].id) == Some(k)
  {
    if k > 0 {
      IndexOfOwnId(cs[1..], k - 1);
    }
  }

  /** For every type other than a polymorphic one, the two generators box alike. */
  lemma BoxesAgree(S: Schema, t: TypeUse)
    requires GoodSchema(S) && FullStoreClass(S, t).Some? && FullFetchClass(S, t).Some?
    requires IsTypeBare(S, t.name) || t.name == Bool
    ensures StoreClass(S, t).Some? && FetchClass(S, t).Some?
    ensures var store, fetch := FullStoreClass(S, t).value, FullFetchClass(S, t).value;
            || (store == StoreClass(S, t).value && fetch == FetchClass(S, t).value)
            || (exists id: int32id ::
                  store == SBoxed(StoreClass(S, t).value, id) && fetch == FBoxed(FetchClass(S, t).value, id))
  {
    if !t.bare && t.name != NatVar && t.name != Bool {
      assert Constructors(S, t.name) == Supported(S(t.name).constructors);
      var cs := if IsBuiltInComplex(t.name) then S(t.name).constructors else Constructors(S, t.name);
      var id: int32id := cs[0].id;
      assert FullStoreClass(S, t).value == SBoxed(StoreClass(S, t).value, id);
    }
  }

  // ---------- The main induction

  lemma {:induction false} RoundTrip(S: Schema, t: TypeUse, v: Value, fuel: nat, rest: seq<byte>)
    requires GoodSchema(S) && Typed(S, t, v) && Height(v) <= fuel
    requires FullStoreClass(S, t).Some? && FullFetchClass(S, t).Some?
    ensures Inverse(S, fuel, FullStoreClass(S, t).value, FullFetchClass(S, t).value, v, rest)
    decreases v, 1
  {
    if t.name.Named? && !IsTypeBare(S, t.name) {
      assert FullStoreClass(S, t).value == SBoxedUnknown(SObject);
      assert FullFetchClass(S, t).value == FObject(t.name);
      PolymorphicRoundTrip(S, v, fuel, rest);
    } else {
      BoxesAgree(S, t);
      var store, fetch := StoreClass(S, t).value, FetchClass(S, t).value;
      UnboxedRoundTrip(S, t, v, fuel, rest);
      var store', fetch' := FullStoreClass(S, t).value, FullFetchClass(S, t).value;
      if store' != store || fetch' != fetch {
        var id: int32id :| store' == SBoxed(store, id) && fetch' == FBoxed(fetch, id);
        BoxInverse(S, fuel, store, fetch, id, v, rest);
      }
    }
  }

  lemma {:induction false} UnboxedRoundTrip(S: Schema, t: TypeUse, v: Value, fuel: nat, rest: seq<byte>)
    requires GoodSchema(S) && Typed(S, t, v) && Height(v) <= fuel
    requires StoreClass(S, t).Some? && FetchClass(S, t).Some?
    requires t.name.Named? ==> IsTypeBare(S, t.name)
    ensures Inverse(S, fuel, StoreClass(S, t).value, FetchClass(S, t).value, v, rest)
    decreases v, 0
  {
    if t.name == Vector {
      VectorRoundTrip(S, t.children[0], v, fuel, rest);
    } else if t.name.Named? {
      SingleConstructorRoundTrip(S, v, fuel, rest);
    } else {
      SimpleRoundTrip(S, t, v, fuel, rest);
    }
  }

  lemma SimpleRoundTrip(S: Schema, t: TypeUse, v: Value, fuel: nat, rest: seq<byte>)
    requires Typed(S, t, v) && !t.name.Vector? && !t.name.Named?
    requires StoreClass(S, t).Some? && FetchClass(S, t).Some?
    ensures Inverse(S, fuel, StoreClass(S, t).value, FetchClass(S, t).value, v, rest)
  {
    if IsNumeric(t.name) {
      assert (v.bytes + rest)[..|v.bytes|] == v.bytes && (v.bytes + rest)[|v.bytes|..] == rest;
    } else if t.name == Bool {
      FetchIntOf(if v.b then ID_BOOL_TRUE else ID_BOOL_FALSE, rest);
    } else {
      StringRoundTrip(v.bytes, rest);
    }
  }

  lemma {:induction false} SingleConstructorRoundTrip(S: Schema, v: Value, fuel: nat, rest: seq<byte>)
    requires GoodSchema(S) && v.Object? && v.typ.Named? && Height(v) <= fuel
    requires v.index < |Constructors(S, v.typ)| == 1
    requires var c := Constructors(S, v.typ)[v.index];
             |v.fields| == |c.args| && TypedFields(S, c, 0, v.fields, map[])
    ensures Inverse(S, fuel, SObject, FObject(v.typ), v, rest)
    decreases v.fields, |v.fields| + 2
  {
    hide RunFetchConstructor, RunStoreFields, FitsFields, NormalizeFields, TypedFields, MaxHeight;
    ObjectRoundTrip(S, v, fuel - 1, rest);
  }

  lemma {:induction false} VectorRoundTrip(S: Schema, t: TypeUse, v: Value, fuel: nat, rest: seq<byte>)
    requires GoodSchema(S) && v.Array? && |v.elems| < 0x8000_0000 && Height(v) <= fuel
    requires forall i :: 0 <= i < |v.elems| ==> Typed(S, t, v.elems[i])
    requires FullStoreClass(S, t).Some? && FullFetchClass(S, t).Some?
    ensures Inverse(S, fuel, SVector(FullStoreClass(S, t).value), FVector(FullFetchClass(S, t).value), v, rest)
    decreases v.elems, 1
  {
    hide RunStoreAll, RunFetchAll, FitsAll, NormalizeAll, FullStoreClass, FullFetchClass, Typed, MaxHeight;
    AllRoundTrip(S, t, v.elems, fuel, rest);
    var n, body := |v.elems|, RunStoreAll(S, FullStoreClass(S, t).value, v.elems).value;
    assert LittleEndian(n, 4) + body + rest == LittleEndian(n, 4) + (body + rest);
    FetchIntOf(n, body + rest);
  }

  /** Inverse for a list of values */
  predicate AllInverse(S: Schema, fuel: nat, store: StoreCode, fetch: FetchCode, vs: seq<Value>, rest: seq<byte>) {
    var stored := RunStoreAll(S, store, vs);
    && stored.Some?
    && RunFetchAll(S, fuel, fetch, |vs|, stored.value + rest)
       == if FitsAll(S, store, vs, |rest|) then Some((NormalizeAll(S, vs), rest)) else None
  }

  /** The first of several values: storing it, fitting it and parsing it come first. */
  lemma FirstUnfolds(S: Schema, fuel: nat, store: StoreCode, fetch: FetchCode, vs: seq<Value>, input: seq<byte>,
                     trailing: nat)
    requires vs != [] && RunStore(S, store, vs[0]).Some? && RunStoreAll(S, store, vs[1..]).Some?
    ensures var first, others := RunStore(S, store, vs[0]).value, RunStoreAll(S, store, vs[1..]).value;
            && RunStoreAll(S, store, vs) == Some(first + others)
            && FitsAll(S, store, vs, trailing)
               == (Fits(S, store, vs[0], |others| + trailing) && FitsAll(S, store, vs[1..], trailing))
    ensures var r := RunFetch(S, fuel, fetch, input);
            RunFetchAll(S, fuel, fetch, |vs|, input)
            == if r.None? then None
               else var r' := RunFetchAll(S, fuel, fetch, |vs| - 1, r.value.1);
                    if r'.None? then None else Some(([r.value.0] + r'.value.0, r'.value.1))
  {
    hide RunStore, RunFetch, Fits;
  }

  lemma ConsInverse(S: Schema, fuel: nat, store: StoreCode, fetch: FetchCode, vs: seq<Value>, rest: seq<byte>)
    requires vs != [] && AllInverse(S, fuel, store, fetch, vs[1..], rest)
    requires Inverse(S, fuel, store, fetch, vs[0], RunStoreAll(S, store, vs[1..]).value + rest)
    ensures AllInverse(S, fuel, store, fetch, vs, rest)
  {
    hide RunStore, RunFetch, Fits, Normalize, RunStoreAll, RunFetchAll, FitsAll;
    var first, others := RunStore(S, store, vs[0]).value, RunStoreAll(S, store, vs[1..]).value;
    FirstUnfolds(S, fuel, store, fetch, vs, first + (others + rest), |rest|);
    assert first + others + rest == first + (others + rest);
  }

  lemma {:induction false} AllRoundTrip(S: Schema, t: TypeUse, vs: seq<Value>, fuel: nat, rest: seq<byte>)
    requires GoodSchema(S) && MaxHeight(vs) <= fuel
    requires forall i :: 0 <= i < |vs| ==> Typed(S, t, vs[i])
    requires FullStoreClass(S, t).Some? && FullFetchClass(S, t).Some?
    ensures AllInverse(S, fuel, FullStoreClass(S, t).value, FullFetchClass(S, t).value, vs, rest)
    decreases vs, 0
  {
    var store, fetch := FullStoreClass(S, t).value, FullFetchClass(S, t).value;
    if vs != [] {
      AllRoundTrip(S, t, vs[1..], fuel, rest);
      RoundTrip(S, t, vs[0], fuel, RunStoreAll(S, store, vs[1..]).value + rest);
      ConsInverse(S, fuel, store, fetch, vs, rest);
    } else {
      assert [] + rest == rest;
    }
  }

  /** What one constructor stores, its fetch function parses. */
  lemma {:induction false} ObjectRoundTrip(S: Schema, v: Value, fuel: nat, rest: seq<byte>)
    requires GoodSchema(S) && v.Object? && v.typ.Named? && MaxHeight(v.fields) <= fuel
    requires v.index < |Constructors(S, v.typ)|
    requires var c := Constructors(S, v.typ)[v.index];
             |v.fields| == |c.args| && TypedFields(S, c, 0, v.fields, map[])
    ensures var stored := RunStore(S, SObject, v);
            && stored.Some?
            && RunFetchConstructor(S, fuel, v.typ, v.index, stored.value + rest)
               == if Fits(S, SObject, v, |rest|) then Some((Normalize(S, v), rest)) else None
    decreases v.fields, |v.fields| + 1
  {
    var c := Constructors(S, v.typ)[v.index];
    assert GoodCombinator(S, Constructors(S, Named(v.typ.id))[v.index]);
    FieldsRoundTrip(S, c, 0, {}, v.fields, map[], fuel, rest);
  }

  lemma {:induction false} PolymorphicRoundTrip(S: Schema, v: Value, fuel: nat, rest: seq<byte>)
    requires GoodSchema(S) && v.Object? && v.typ.Named? && Height(v) <= fuel
    requires v.index < |Constructors(S, v.typ)| && |Constructors(S, v.typ)| > 1
    requires var c := Constructors(S, v.typ)[v.index];
             |v.fields| == |c.args| && TypedFields(S, c, 0, v.fields, map[])
    ensures Inverse(S, fuel, SBoxedUnknown(SObject), FObject(v.typ), v, rest)
    decreases v, 0
  {
    hide RunFetchConstructor, RunStoreFields, FitsFields, NormalizeFields, TypedFields, MaxHeight, Supported, FetchInt,
         LittleEndian, StoreProgram, GoodCombinator;
    ObjectRoundTrip(S, v, fuel - 1, rest);
    var cs := Constructors(S, v.typ);
    assert DistinctIds(Constructors(S, Named(v.typ.id)));
    IndexOfOwnId(cs, v.index);
    var id, body := cs[v.index].id, RunStore(S, SObject, v).value;
    assert LittleEndian(id, 4) + body + rest == LittleEndian(id, 4) + (body + rest);
    FetchIntOf(id, body + rest);
  }

  lemma {:induction false} OrTrueBitsBounded(n: nat, bits: seq<(nat, nat)>, fields: seq<Value>, width: nat)
    requires width in {31, 32} && n < Pow2(width) && forall p :: p in bits ==> p.1 < width
    ensures OrTrueBits(n, bits, fields) < Pow2(width)
  {
    if bits != [] {
      var last := bits[|bits| - 1];
      assert last in bits;
      OrTrueBitsBounded(n, bits[..|bits| - 1], fields, width);
      var on := last.0 < |fields| && fields[last.0].Truth? && fields[last.0].b;
      OrBitBounded(OrTrueBits(n, bits[..|bits| - 1], fields), last.1, on, width);
    }
  }

  lemma {:induction false} TrueBitsAreLow(c: Combinator, variable: nat, i: nat)
    requires i <= |c.args| && forall k :: 0 <= k < |c.args| ==> GoodArg(c.args[k])
    ensures forall p :: p in TrueBits(c.args, variable, i) ==> p.1 < 32
    decreases |c.args| - i
  {
    if i < |c.args| {
      TrueBitsAreLow(c, variable, i + 1);
    }
  }

  /** Inverse for the fields from number i on; `parsed` is what they read back as. */
  predicate FieldsInverse(S: Schema, fuel: nat, args: seq<Arg>, stores: seq<StoreStmt>, fetches: seq<FetchStmt>, i: nat,
                          fields: seq<Value>, env: Env, parsed: seq<Value>, rest: seq<byte>) {
    var stored := RunStoreFields(S, stores, i, fields, env);
    && stored.Some?
    && RunFetchFields(S, fuel, fetches, env, stored.value + rest)
       == if FitsFields(S, args, stores, i, fields, env, |rest|) then Some((parsed, rest)) else None
  }

  /** A field that is present: storing it and fitting it come first. */
  lemma PresentFieldStores(S: Schema, args: seq<Arg>, guard: Guard, store: StoreCode, stores: seq<StoreStmt>, i: nat,
                           fields: seq<Value>, env: Env, trailing: nat)
    requires i < |fields| && Holds(guard, env) == Some(true)
    requires RunStore(S, store, fields[i]).Some? && RunStoreFields(S, stores, i + 1, fields, env).Some?
    ensures var first := RunStore(S, store, fields[i]).value;
            var others := RunStoreFields(S, stores, i + 1, fields, env).value;
            && RunStoreFields(S, [StoreField(guard, store)] + stores, i, fields, env) == Some(first + others)
            && FitsFields(S, args, [StoreField(guard, store)] + stores, i, fields, env, trailing)
               == (&& Fits(S, store, fields[i], |others| + trailing)
                   && FitsFields(S, args, stores, i + 1, fields, env, trailing))
  {
    hide RunStore, Fits;
    assert ([StoreField(guard, store)] + stores)[1..] == stores;
  }

  /** And so does parsing it. */
  lemma PresentFieldFetches(S: Schema, fuel: nat, guard: Guard, fetch: FetchCode, fetches: seq<FetchStmt>, env: Env,
                            input: seq<byte>)
    requires Holds(guard, env) == Some(true)
    ensures var r := RunFetch(S, fuel, fetch, input);
            RunFetchFields(S, fuel, [FetchField(guard, fetch)] + fetches, env, input)
            == if r.None? then None
               else var r' := RunFetchFields(S, fuel, fetches, env, r.value.1);
                    if r'.None? then None else Some(([r.value.0] + r'.value.0, r'.value.1))
  {
    hide RunFetch;
    assert ([FetchField(guard, fetch)] + fetches)[1..] == fetches;
  }

  lemma PresentFieldInverse(S: Schema, fuel: nat, args: seq<Arg>, guard: Guard, store: StoreCode, fetch: FetchCode,
                            stores: seq<StoreStmt>, fetches: seq<FetchStmt>, i: nat,
                            fields: seq<Value>, env: Env, parsed: seq<Value>, rest: seq<byte>)
    requires i < |fields| && Holds(guard, env) == Some(true)
    requires FieldsInverse(S, fuel, args, stores, fetches, i + 1, fields, env, parsed, rest)
    requires Inverse(S, fuel, store, fetch, fields[i], RunStoreFields(S, stores, i + 1, fields, env).value + rest)
    ensures FieldsInverse(S, fuel, args, [StoreField(guard, store)] + stores, [FetchField(guard, fetch)] + fetches, i,
                          fields, env, [Normalize(S, fields[i])] + parsed, rest)
  {
    hide RunStore, RunFetch, Fits, Normalize, RunStoreFields, RunFetchFields, FitsFields;
    var first, others := RunStore(S, store, fields[i]).value, RunStoreFields(S, stores, i + 1, fields, env).value;
    assert first + others + rest == first + (others + rest);
    PresentFieldStores(S, args, guard, store, stores, i, fields, env, |rest|);
    PresentFieldFetches(S, fuel, guard, fetch, fetches, env, first + (others + rest));
  }

  lemma TrueIsParsed(S: Schema, t: TypeUse)
    requires FullFetchClass(S, t).Some?
    ensures ParsesTrue(FullFetchClass(S, t).value) <==> t.name == True
  {
  }

  lemma AbsentFieldInverse(S: Schema, fuel: nat, args: seq<Arg>, guard: Guard, store: StoreCode, fetch: FetchCode,
                           stores: seq<StoreStmt>, fetches: seq<FetchStmt>, i: nat,
                           fields: seq<Value>, env: Env, parsed: seq<Value>, rest: seq<byte>)
    requires i < |fields| && Holds(guard, env) == Some(false) && !ParsesTrue(fetch)
    requires FieldsInverse(S, fuel, args, stores, fetches, i + 1, fields, env, parsed, rest)
    ensures FieldsInverse(S, fuel, args, [StoreField(guard, store)] + stores, [FetchField(guard, fetch)] + fetches, i,
                          fields, env, [Default] + parsed, rest)
  {
    var others := RunStoreFields(S, stores, i + 1, fields, env).value;
    assert [] + others == others;
    assert ([StoreField(guard, store)] + stores)[1..] == stores;
    assert ([FetchField(guard, fetch)] + fetches)[1..] == fetches;
  }

  lemma TrueFieldInverse(S: Schema, fuel: nat, args: seq<Arg>, variable: nat, bit: nat,
                         stores: seq<StoreStmt>, fetches: seq<FetchStmt>, i: nat,
                         fields: seq<Value>, env: Env, parsed: seq<Value>, rest: seq<byte>)
    requires i < |fields| && variable in env && (i < |args| ==> args[i].typ.bare)
    requires FieldsInverse(S, fuel, args, stores, fetches, i + 1, fields, env, parsed, rest)
    ensures FieldsInverse(S, fuel, args, [StoreNothing] + stores, [FetchBit(variable, bit)] + fetches, i,
                          fields, env, [Truth(Bit(env[variable], bit))] + parsed, rest)
  {
    assert ([StoreNothing] + stores)[1..] == stores;
    assert ([FetchBit(variable, bit)] + fetches)[1..] == fetches;
  }

  /** A True field that is not bare comes back only as false. */
  lemma BoxedTrueFieldInverse(S: Schema, fuel: nat, args: seq<Arg>, fetch: FetchCode,
                              stores: seq<StoreStmt>, fetches: seq<FetchStmt>, i: nat,
                              fields: seq<Value>, env: Env, parsed: seq<Value>, rest: seq<byte>)
    requires i < |fields| && i < |args| && !args[i].typ.bare && args[i].existVarNum in env && ParsesTrue(fetch)
    requires FieldsInverse(S, fuel, args, stores, fetches, i + 1, fields, env, parsed, rest)
    ensures var a := args[i];
            FieldsInverse(S, fuel, args, [StoreNothing] + stores,
                          [FetchField(IfBit(a.existVarNum, a.existVarBit), fetch)] + fetches, i,
                          fields, env, [Truth(Bit(env[a.existVarNum], a.existVarBit))] + parsed, rest)
  {
    var a := args[i];
    var guard := IfBit(a.existVarNum, a.existVarBit);
    assert ([StoreNothing] + stores)[1..] == stores;
    var input := RunStoreFields(S, stores, i + 1, fields, env).value + rest;
    if Bit(env[a.existVarNum], a.existVarBit) {
      NoTrueParser(S, fuel, fetch, input);
      PresentFieldFetches(S, fuel, guard, fetch, fetches, env, input);
    } else {
      assert ([FetchField(guard, fetch)] + fetches)[1..] == fetches;
    }
  }

  lemma NoTrueParser(S: Schema, fuel: nat, code: FetchCode, input: seq<byte>)
    requires ParsesTrue(code)
    ensures RunFetch(S, fuel, code, input) == None
  {
  }

  lemma FlagsFieldInverse(S: Schema, fuel: nat, args: seq<Arg>, variable: nat, bits: seq<(nat, nat)>,
                          store: StoreCode, fetch: FetchCode,
                          stores: seq<StoreStmt>, fetches: seq<FetchStmt>, i: nat,
                          fields: seq<Value>, env: Env, n: nat, parsed: seq<Value>, rest: seq<byte>)
    requires i < |fields| && fields[i].Flags? && n == OrTrueBits(fields[i].n, bits, fields) < 0x1_0000_0000
    requires FieldsInverse(S, fuel, args, stores, fetches, i + 1, fields, env[variable := n], parsed, rest)
    ensures FieldsInverse(S, fuel, args, [StoreVar(Always, variable, bits, store)] + stores,
                          [FetchVar(Always, variable, fetch)] + fetches, i, fields, env, [Flags(n)] + parsed, rest)
  {
    var others := RunStoreFields(S, stores, i + 1, fields, env[variable := n]).value;
    assert LittleEndian(n, 4) + others + rest == LittleEndian(n, 4) + (others + rest);
    FetchIntOf(n, others + rest);
    assert ([StoreVar(Always, variable, bits, store)] + stores)[1..] == stores;
    assert ([FetchVar(Always, variable, fetch)] + fetches)[1..] == fetches;
  }

  lemma {:induction false} FieldsRoundTrip(S: Schema, c: Combinator, i: nat, stored: set<nat>, fields: seq<Value>,
                                           env: Env, fuel: nat, rest: seq<byte>)
    requires GoodSchema(S) && i <= |c.args| == |fields| && MaxHeight(fields) <= fuel
    requires forall k :: 0 <= k < |c.args| ==> GoodArg(c.args[k])
    requires TypedFields(S, c, i, fields, env) && env.Keys == stored
    requires StoreProgram(S, c, i, stored).Some? && FetchProgram(S, c, i, stored).Some?
    ensures FieldsInverse(S, fuel, c.args, StoreProgram(S, c, i, stored).value, FetchProgram(S, c, i, stored).value, i,
                          fields, env, NormalizeFields(S, c, i, fields, env), rest)
    decreases fields, |c.args| - i
  {
    if i == |c.args| {
      assert [] + rest == rest;
      return;
    }
    hide RunStore, RunFetch, Fits, Normalize, Typed, RunStoreFields, RunFetchFields, FitsFields, OrTrueBits, TrueBits,
         FullStoreClass, FullFetchClass, Bit, FieldsInverse, Inverse, GoodSchema, NormalizeFields, GoodArg;
    var a, v := c.args[i], fields[i];
    var stored' := StoredAfter(a, stored);
    if a.varNum >= 0 {
      FieldsRoundTrip(S, c, i + 1, stored', fields, env[a.varNum := FlagsWord(c, i, fields)], fuel, rest);
      FlagsFieldRoundTrip(S, c, i, stored, fields, env, fuel, rest);
    } else {
      FieldsRoundTrip(S, c, i + 1, stored, fields, env, fuel, rest);
      var stores := StoreProgram(S, c, i + 1, stored).value;
      if IsPresent(a, env) {
        RoundTrip(S, a.typ, v, fuel, RunStoreFields(S, stores, i + 1, fields, env).value + rest) by {
          InverseStores(S, fuel, c.args, stores, FetchProgram(S, c, i + 1, stored).value, i + 1, fields, env,
                        NormalizeFields(S, c, i + 1, fields, env), rest);
        }
      }
      OtherFieldRoundTrip(S, c, i, stored, fields, env, fuel, rest);
    }
  }

  /** The field has a value of its own on the wire. */
  predicate IsPresent(a: Arg, env: Env) {
    a.existVarNum < 0 || (a.typ.name != True && a.existVarNum in env && Bit(env[a.existVarNum], a.existVarBit))
  }

  lemma InverseStores(S: Schema, fuel: nat, args: seq<Arg>, stores: seq<StoreStmt>, fetches: seq<FetchStmt>, i: nat,
                      fields: seq<Value>, env: Env, parsed: seq<Value>, rest: seq<byte>)
    requires FieldsInverse(S, fuel, args, stores, fetches, i, fields, env, parsed, rest)
    ensures RunStoreFields(S, stores, i, fields, env).Some?
  {
    hide RunStoreFields, RunFetchFields, FitsFields;
  }

  lemma FlagsFieldRoundTrip(S: Schema, c: Combinator, i: nat, stored: set<nat>, fields: seq<Value>, env: Env,
                            fuel: nat, rest: seq<byte>)
    requires i < |c.args| == |fields| && c.args[i].varNum >= 0
    requires forall k :: 0 <= k < |c.args| ==> GoodArg(c.args[k])
    requires TypedFields(S, c, i, fields, env)
    requires StoreProgram(S, c, i, stored).Some? && FetchProgram(S, c, i, stored).Some?
    requires var stored', env' := StoredAfter(c.args[i], stored), env[c.args[i].varNum := FlagsWord(c, i, fields)];
             FieldsInverse(S, fuel, c.args, StoreProgram(S, c, i + 1, stored').value,
                           FetchProgram(S, c, i + 1, stored').value, i + 1, fields, env',
                           NormalizeFields(S, c, i + 1, fields, env'), rest)
    ensures FieldsInverse(S, fuel, c.args, StoreProgram(S, c, i, stored).value, FetchProgram(S, c, i, stored).value, i,
                          fields, env, NormalizeFields(S, c, i, fields, env), rest)
  {
    hide OrTrueBits, TrueBits, FullStoreClass, FullFetchClass, FieldsInverse, Typed;
    var a, n := c.args[i], FlagsWord(c, i, fields);
    var stored' := StoredAfter(a, stored);
    var stores, fetches := StoreProgram(S, c, i + 1, stored').value, FetchProgram(S, c, i + 1, stored').value;
    TrueBitsAreLow(c, a.varNum, 0);
    Pow2At31();
    OrTrueBitsBounded(fields[i].n, TrueBits(c.args, a.varNum, 0), fields, 32);
    FlagsFieldInverse(S, fuel, c.args, a.varNum, TrueBits(c.args, a.varNum, 0), FullStoreClass(S, a.typ).value,
                      FullFetchClass(S, a.typ).value, stores, fetches, i, fields, env, n,
                      NormalizeFields(S, c, i + 1, fields, env[a.varNum := n]), rest);
  }

  lemma OtherFieldRoundTrip(S: Schema, c: Combinator, i: nat, stored: set<nat>, fields: seq<Value>, env: Env,
                            fuel: nat, rest: seq<byte>)
    requires i < |c.args| == |fields| && c.args[i].varNum < 0
    requires TypedFields(S, c, i, fields, env) && env.Keys == stored
    requires StoreProgram(S, c, i, stored).Some? && FetchProgram(S, c, i, stored).Some?
    requires StoreProgram(S, c, i + 1, stored).Some? && FetchProgram(S, c, i + 1, stored).Some?
    requires FieldsInverse(S, fuel, c.args, StoreProgram(S, c, i + 1, stored).value,
                           FetchProgram(S, c, i + 1, stored).value, i + 1, fields, env,
                           NormalizeFields(S, c, i + 1, fields, env), rest)
    requires IsPresent(c.args[i], env) ==>
               var typ, stores := c.args[i].typ, StoreProgram(S, c, i + 1, stored).value;
               && FullStoreClass(S, typ).Some? && FullFetchClass(S, typ).Some?
               && RunStoreFields(S, stores, i + 1, fields, env).Some?
               && Inverse(S, fuel, FullStoreClass(S, typ).value, FullFetchClass(S, typ).value, fields[i],
                          RunStoreFields(S, stores, i + 1, fields, env).value + rest)
    ensures FieldsInverse(S, fuel, c.args, StoreProgram(S, c, i, stored).value, FetchProgram(S, c, i, stored).value, i,
                          fields, env, NormalizeFields(S, c, i, fields, env), rest)
  {
    hide RunStoreFields, FullStoreClass, FullFetchClass, FieldsInverse, Inverse, Typed, Normalize, Bit;
    var a := c.args[i];
    var stores, fetches := StoreProgram(S, c, i + 1, stored).value, FetchProgram(S, c, i + 1, stored).value;
    var parsed := NormalizeFields(S, c, i + 1, fields, env);
    if FullFetchClass(S, a.typ).Some? {
      TrueIsParsed(S, a.typ);
    }
    if a.existVarNum >= 0 && a.typ.name == True && !a.typ.bare {
      var fetch := FullFetchClass(S, a.typ).value;
      BoxedTrueFieldInverse(S, fuel, c.args, fetch, stores, fetches, i, fields, env, parsed, rest);
    } else if a.existVarNum >= 0 && a.typ.name == True {
      TrueFieldInverse(S, fuel, c.args, a.existVarNum, a.existVarBit, stores, fetches, i, fields, env, parsed, rest);
    } else {
      var store, fetch := FullStoreClass(S, a.typ).value, FullFetchClass(S, a.typ).value;
      if IsPresent(a, env) {
        PresentFieldInverse(S, fuel, c.args, FieldGuard(a), store, fetch, stores, fetches, i,
                            fields, env, parsed, rest);
      } else {
        AbsentFieldInverse(S, fuel, c.args, FieldGuard(a), store, fetch, stores, fetches, i, fields, env, parsed, rest);
      }
    }
  }
}
