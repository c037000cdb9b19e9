/** Normalization is what one trip over the wire does, once and for all; and the
    two places where the emitted storer and parser disagree: vectors of objects
    without bytes, and conditional True fields that are not bare. */
module TlNormalForm {
  import opened Options
  import opened Bytes
  import opened TlSchema
  import opened TlCode
  import opened TlRuntime
  import opened TlRoundTrip

  // ---------- Flags words

  /** A True field listed in `bits` asks for bit k. */
  ghost predicate Asked(bits: seq<(nat, nat)>, fields: seq<Value>, k: nat) {
    exists p :: 0 <= p < |bits| && bits[p].1 == k && On(fields, bits[p].0)
  }

  predicate On(fields: seq<Value>, i: nat) {
    i < |fields| && fields[i].Truth? && fields[i].b
  }

  /** A bit of the stored word is set exactly when the flags field or some True field sets it. */
  lemma {:induction false} FlagsWordBits(n: nat, bits: seq<(nat, nat)>, fields: seq<Value>, k: nat)
    ensures Bit(OrTrueBits(n, bits, fields), k) <==> Bit(n, k) || Asked(bits, fields, k)
  {
    if bits != [] {
      var before, last := bits[..|bits| - 1], bits[|bits| - 1];
      FlagsWordBits(n, before, fields, k);
      OrBitTurnsOn(OrTrueBits(n, before, fields), last.1, On(fields, last.0));
      if last.1 != k {
        OrBitOther(OrTrueBits(n, before, fields), last.1, On(fields, last.0), k);
      }
      if Asked(before, fields, k) {
        var p :| 0 <= p < |before| && before[p].1 == k && On(fields, before[p].0);
        assert bits[p] == before[p];
      }
      if Asked(bits, fields, k) && !(last.1 == k && On(fields, last.0)) {
        var p :| 0 <= p < |bits| && bits[p].1 == k && On(fields, bits[p].0);
        assert before[p] == bits[p];
      }
    }
  }

  lemma {:induction false} SaturatedWord(n: nat, bits: seq<(nat, nat)>, fields: seq<Value>)
    requires forall p :: p in bits && On(fields, p.0) ==> Bit(n, p.1)
    ensures OrTrueBits(n, bits, fields) == n
  {
    if bits != [] {
      var last := bits[|bits| - 1];
      assert last in bits;
      SaturatedWord(n, bits[..|bits| - 1], fields);
      OrBitTurnsOn(n, last.1, On(fields, last.0));
    }
  }

  lemma {:induction false} TrueBitsMembers(args: seq<Arg>, variable: nat, i: nat)
    requires i <= |args|
    ensures forall p :: p in TrueBits(args, variable, i) ==>
              args[p.0].existVarNum == variable && args[p.0].typ.name == True && p.1 == args[p.0].existVarBit
    decreases |args| - i
  {
    if i < |args| {
      TrueBitsMembers(args, variable, i + 1);
    }
  }

  // ---------- Normalized objects

  /** Every conditional field before field i depends on a stored variable. */
  predicate Guarded(c: Combinator, i: nat, stored: set<nat>)
    requires i <= |c.args|
  {
    forall p :: 0 <= p < i && c.args[p].existVarNum >= 0 ==> c.args[p].existVarNum in stored
  }

  /** After normalization, a True field from i on repeats its bit. */
  lemma {:induction false} TrueFieldsRepeatBits(S: Schema, c: Combinator, i: nat, stored: set<nat>, fields: seq<Value>,
                                               env: Env, variable: nat)
    requires i <= |c.args| == |fields| && variable in env && env.Keys == stored
    requires StoreProgram(S, c, i, stored).Some? && TypedFields(S, c, i, fields, env)
    ensures forall p :: i <= p < |c.args| && c.args[p].existVarNum == variable && c.args[p].typ.name == True ==>
              NormalizeFields(S, c, i, fields, env)[p - i] == Truth(Bit(env[variable], c.args[p].existVarBit))
    decreases |c.args| - i
  {
    if i < |c.args| {
      var a := c.args[i];
      var env' := if a.varNum >= 0 then env[a.varNum := FlagsWord(c, i, fields)] else env;
      TrueFieldsRepeatBits(S, c, i + 1, StoredAfter(a, stored), fields, env', variable);
    }
  }

  /** v and its normal form n: the normal form is typed, stays the same when normalized
      again, and is stored as the same bytes. */
  predicate Stable(S: Schema, t: TypeUse, v: Value, n: Value) {
    && Typed(S, t, n)
    && Normalize(S, n) == n
    && (FullStoreClass(S, t).Some? ==>
          RunStore(S, FullStoreClass(S, t).value, n) == RunStore(S, FullStoreClass(S, t).value, v))
  }

  lemma {:induction false} NormalFormIsStable(S: Schema, t: TypeUse, v: Value)
    requires GoodSchema(S) && Typed(S, t, v)
    ensures Stable(S, t, v, Normalize(S, v))
    decreases v, 1
  {
    if v.Array? {
      AllStable(S, t.children[0], v.elems);
      VectorIsStable(S, t, v);
    } else if v.Object? {
      var c := Constructors(S, v.typ)[v.index];
      assert GoodCombinator(S, Constructors(S, Named(v.typ.id))[v.index]);
      FieldsStable(S, c, 0, {}, v.fields, NormalizeFields(S, c, 0, v.fields, map[]), map[]);
      ObjectIsStable(S, t, v);
    }
  }

  lemma VectorIsStable(S: Schema, t: TypeUse, v: Value)
    requires v.Array? && Typed(S, t, v)
    requires var elem, normal := t.children[0], NormalizeAll(S, v.elems);
             && (forall i :: 0 <= i < |normal| ==> Typed(S, elem, normal[i]))
             && NormalizeAll(S, normal) == normal
             && (FullStoreClass(S, elem).Some? ==>
                   RunStoreAll(S, FullStoreClass(S, elem).value, normal)
                   == RunStoreAll(S, FullStoreClass(S, elem).value, v.elems))
    ensures Stable(S, t, v, Normalize(S, v))
  {
    hide NormalizeAll, RunStoreAll;
    if FullStoreClass(S, t).Some? {
      assert StoreClass(S, t).Some? && FullStoreClass(S, t.children[0]).Some?;
      var elem := FullStoreClass(S, t.children[0]).value;
      assert StoreClass(S, t) == Some(SVector(elem));
      assert RunStore(S, SVector(elem), Normalize(S, v)) == RunStore(S, SVector(elem), v);
    }
  }

  lemma ObjectIsStable(S: Schema, t: TypeUse, v: Value)
    requires v.Object? && Typed(S, t, v)
    requires var c := Constructors(S, v.typ)[v.index];
             && StoreProgram(S, c, 0, {}).Some?
             && StableFields(S, c, 0, {}, v.fields, NormalizeFields(S, c, 0, v.fields, map[]), map[])
    ensures Stable(S, t, v, Normalize(S, v))
  {
    hide NormalizeFields, RunStoreFields, TypedFields, StoreProgram;
    assert RunStore(S, SObject, Normalize(S, v)) == RunStore(S, SObject, v);
    if FullStoreClass(S, t).Some? {
      var code := FullStoreClass(S, t).value;
      assert StoreClass(S, t) == Some(SObject);
      assert code == SObject || code == SBoxedUnknown(SObject) || code == SBoxed(SObject, code.id);
    }
  }

  lemma {:induction false} AllStable(S: Schema, t: TypeUse, vs: seq<Value>)
    requires GoodSchema(S) && forall i :: 0 <= i < |vs| ==> Typed(S, t, vs[i])
    ensures forall i :: 0 <= i < |vs| ==> Typed(S, t, NormalizeAll(S, vs)[i])
    ensures NormalizeAll(S, NormalizeAll(S, vs)) == NormalizeAll(S, vs)
    ensures FullStoreClass(S, t).Some? ==>
              RunStoreAll(S, FullStoreClass(S, t).value, NormalizeAll(S, vs))
              == RunStoreAll(S, FullStoreClass(S, t).value, vs)
    decreases vs, 0
  {
    if vs != [] {
      NormalFormIsStable(S, t, vs[0]);
      AllStable(S, t, vs[1..]);
      var normal := NormalizeAll(S, vs);
      assert normal[1..] == NormalizeAll(S, vs[1..]);
    }
  }

  /** The word of a normalized flags field is the word it was normalized from. */
  lemma WordIsStable(S: Schema, c: Combinator, i: nat, stored: set<nat>, fields: seq<Value>,
                     normal: seq<Value>, env: Env)
    requires i < |c.args| == |fields| == |normal| && c.args[i].varNum >= 0
    requires forall k :: 0 <= k < |c.args| ==> GoodArg(c.args[k])
    requires TypedFields(S, c, i, fields, env) && env.Keys == stored && Guarded(c, i, stored)
    requires StoreProgram(S, c, i, stored).Some?
    requires var word := FlagsWord(c, i, fields);
             && normal[i] == Flags(word)
             && normal[i + 1..] == NormalizeFields(S, c, i + 1, fields, env[c.args[i].varNum := word])
    ensures FlagsWord(c, i, normal) == FlagsWord(c, i, fields) < 0x1_0000_0000
  {
    hide NormalizeFields, OrTrueBits, TrueBits, FullStoreClass, Typed, GoodArg;
    var a, word := c.args[i], FlagsWord(c, i, fields);
    var bits := TrueBits(c.args, a.varNum, 0);
    TrueFieldsRepeatBits(S, c, i + 1, StoredAfter(a, stored), fields, env[a.varNum := word], a.varNum);
    TrueBitsMembers(c.args, a.varNum, 0);
    forall p | p in bits && On(normal, p.0)
      ensures Bit(word, p.1)
    {
      assert normal[p.0] == normal[i + 1..][p.0 - (i + 1)];
    }
    SaturatedWord(word, bits, normal);
    TrueBitsAreLow(c, a.varNum, 0);
    Pow2At31();
    OrTrueBitsBounded(fields[i].n, bits, fields, 32);
  }

  /** Stable for the fields from number i on; `normal` holds all normalized fields and
      `env` the flags words before field i. */
  predicate StableFields(S: Schema, c: Combinator, i: nat, stored: set<nat>, fields: seq<Value>, normal: seq<Value>,
                         env: Env)
    requires i <= |c.args| == |fields| == |normal|
  {
    && TypedFields(S, c, i, normal, env)
    && NormalizeFields(S, c, i, normal, env) == normal[i..]
    && var stmts := StoreProgram(S, c, i, stored);
       stmts.Some? ==>
         RunStoreFields(S, stmts.value, i, normal, env) == RunStoreFields(S, stmts.value, i, fields, env)
  }

  lemma FlagsFieldStable(S: Schema, c: Combinator, i: nat, stored: set<nat>, fields: seq<Value>, normal: seq<Value>,
                         env: Env)
    requires i < |c.args| == |fields| == |normal|
    requires c.args[i].varNum >= 0 && GoodArg(c.args[i]) && StoreProgram(S, c, i, stored).Some?
    requires fields[i].Flags? && normal[i] == Flags(FlagsWord(c, i, fields))
    requires FlagsWord(c, i, normal) == FlagsWord(c, i, fields) < 0x1_0000_0000
    requires StableFields(S, c, i + 1, StoredAfter(c.args[i], stored), fields, normal,
                          env[c.args[i].varNum := FlagsWord(c, i, fields)])
    ensures StableFields(S, c, i, stored, fields, normal, env)
  {
    hide RunStore, Normalize, Typed, OrTrueBits, TrueBits, FullStoreClass;
    var stmts := StoreProgram(S, c, i + 1, StoredAfter(c.args[i], stored)).value;
    assert StoreProgram(S, c, i, stored).value[1..] == stmts;
  }

  lemma OtherFieldStable(S: Schema, c: Combinator, i: nat, stored: set<nat>, fields: seq<Value>, normal: seq<Value>,
                         env: Env)
    requires i < |c.args| == |fields| == |normal|
    requires c.args[i].varNum < 0 && StoreProgram(S, c, i, stored).Some? && env.Keys == stored
    requires TypedFields(S, c, i, fields, env) && normal[i..] == NormalizeFields(S, c, i, fields, env)
    requires var a := c.args[i];
             a.existVarNum < 0 || (a.typ.name != True && Bit(env[a.existVarNum], a.existVarBit)) ==>
               Stable(S, a.typ, fields[i], Normalize(S, fields[i]))
    requires StableFields(S, c, i + 1, stored, fields, normal, env)
    ensures StableFields(S, c, i, stored, fields, normal, env)
  {
    hide RunStore, Normalize, Typed, Bit, FullStoreClass;
    var stmts := StoreProgram(S, c, i + 1, stored).value;
    assert StoreProgram(S, c, i, stored).value[1..] == stmts;
    assert normal[i] == normal[i..][0] && normal[i + 1..] == normal[i..][1..];
  }

  lemma {:induction false} FieldsStable(S: Schema, c: Combinator, i: nat, stored: set<nat>, fields: seq<Value>,
                                        normal: seq<Value>, env: Env)
    requires GoodSchema(S) && i <= |c.args| == |fields| == |normal|
    requires forall k :: 0 <= k < |c.args| ==> GoodArg(c.args[k])
    requires TypedFields(S, c, i, fields, env) && env.Keys == stored && Guarded(c, i, stored)
    requires StoreProgram(S, c, i, stored).Some?
    requires normal[i..] == NormalizeFields(S, c, i, fields, env)
    ensures StableFields(S, c, i, stored, fields, normal, env)
    decreases fields, |c.args| - i
  {
    if i == |c.args| {
      return;
    }
    hide RunStore, Normalize, Typed, OrTrueBits, TrueBits, FullStoreClass, Bit, GoodSchema;
    hide RunStoreFields, StableFields;
    var a, v := c.args[i], fields[i];
    var stored' := StoredAfter(a, stored);
    assert normal[i] == normal[i..][0] && normal[i + 1..] == normal[i..][1..];
    if a.varNum >= 0 {
      WordIsStable(S, c, i, stored, fields, normal, env);
      FieldsStable(S, c, i + 1, stored', fields, normal, env[a.varNum := FlagsWord(c, i, fields)]);
      FlagsFieldStable(S, c, i, stored, fields, normal, env);
    } else {
      FieldsStable(S, c, i + 1, stored, fields, normal, env);
      if a.existVarNum < 0 || (a.typ.name != True && Bit(env[a.existVarNum], a.existVarBit)) {
        NormalFormIsStable(S, a.typ, v);
      }
      OtherFieldStable(S, c, i, stored, fields, normal, env);
    }
  }

  // ---------- Main results

  /** For every schema type and value, parsing what was stored answers the normal form and leaves
      exactly the bytes that follow it, if and only if no vector announces more elements than there
      are bytes behind its length, no flags word is negative, and none announces a True field that is not bare. */
  lemma FetchUndoesStore(S: Schema, t: TypeUse, v: Value, fuel: nat, rest: seq<byte>)
    requires GoodSchema(S) && Typed(S, t, v) && Height(v) <= fuel
    requires FullStoreClass(S, t).Some? && FullFetchClass(S, t).Some?
    ensures RunStore(S, FullStoreClass(S, t).value, v).Some?
    ensures var store := FullStoreClass(S, t).value;
            var bytes := RunStore(S, store, v).value;
            RunFetch(S, fuel, FullFetchClass(S, t).value, bytes + rest) == Some((Normalize(S, v), rest))
            <==> Fits(S, store, v, |rest|)
  {
    RoundTrip(S, t, v, fuel, rest);
  }

  /** A second trip changes nothing: what was parsed is stored as the same bytes and parsed as the same value. */
  lemma SecondTripIsExact(S: Schema, t: TypeUse, v: Value, fuel: nat, rest: seq<byte>)
    requires GoodSchema(S) && Typed(S, t, v) && Height(v) <= fuel
    requires FullStoreClass(S, t).Some? && FullFetchClass(S, t).Some?
    requires Fits(S, FullStoreClass(S, t).value, v, |rest|)
    ensures var store, fetch := FullStoreClass(S, t).value, FullFetchClass(S, t).value;
            && RunStore(S, store, v).Some?
            && var parsed := RunFetch(S, fuel, fetch, RunStore(S, store, v).value + rest);
            && parsed.Some?
            && RunStore(S, store, parsed.value.0) == RunStore(S, store, v)
            && Normalize(S, parsed.value.0) == parsed.value.0
  {
    RoundTrip(S, t, v, fuel, rest);
    NormalFormIsStable(S, t, v);
  }

  // ---------- Where the two generators part

  /** A schema with one type, whose only constructor has no fields */
  function EmptyObjectSchema(name: TypeName): TlType {
    match name
    case Named(_) => TlType([Combinator(1, 0, [], true)])
    case Bool => TlType([Combinator(ID_BOOL_FALSE, 0, [], true), Combinator(ID_BOOL_TRUE, 0, [], true)])
    case _ => TlType([])
  }

  const EMPTY_OBJECTS := TypeUse(Vector, true, [TypeUse(Named(0), true, [])])
  const ONE_EMPTY_OBJECT := Array([Object(Named(0), 0, [])])

  /** A vector of bare objects without fields is stored, but its parser answers "Wrong vector length". */
  lemma EmptyObjectsDoNotFit(fuel: nat)
    ensures GoodSchema(EmptyObjectSchema) && Typed(EmptyObjectSchema, EMPTY_OBJECTS, ONE_EMPTY_OBJECT)
    ensures FullStoreClass(EmptyObjectSchema, EMPTY_OBJECTS) == Some(SVector(SObject))
    ensures FullFetchClass(EmptyObjectSchema, EMPTY_OBJECTS) == Some(FVector(FObject(Named(0))))
    ensures RunStore(EmptyObjectSchema, SVector(SObject), ONE_EMPTY_OBJECT) == Some(LittleEndian(1, 4))
    ensures RunFetch(EmptyObjectSchema, fuel, FVector(FObject(Named(0))), LittleEndian(1, 4)) == None
  {
    EmptyObjectSchemaIsGood();
    EmptyObjectsAreStored();
    EmptyObjectsAreTyped();
    LengthAloneIsRejected(EmptyObjectSchema, fuel, FObject(Named(0)));
    hide *;
  }

  lemma LengthAloneIsRejected(S: Schema, fuel: nat, elem: FetchCode)
    ensures RunFetch(S, fuel, FVector(elem), LittleEndian(1, 4)) == None
  {
    hide LittleEndian, FetchInt;
    FetchIntOf(1, []);
    assert LittleEndian(1, 4) + [] == LittleEndian(1, 4);
  }

  lemma EmptyObjectsAreTyped()
    ensures Typed(EmptyObjectSchema, EMPTY_OBJECTS, ONE_EMPTY_OBJECT)
    ensures FullStoreClass(EmptyObjectSchema, EMPTY_OBJECTS) == Some(SVector(SObject))
    ensures FullFetchClass(EmptyObjectSchema, EMPTY_OBJECTS) == Some(FVector(FObject(Named(0))))
  {
    var S, t := EmptyObjectSchema, EMPTY_OBJECTS.children[0];
    assert Constructors(S, Named(0)) == [Combinator(1, 0, [], true)];
    assert IsTypeBare(S, Named(0)) && IsTypeBare(S, Vector);
    assert FullStoreClass(S, t) == Some(SObject) && FullFetchClass(S, t) == Some(FObject(Named(0)));
  }

  lemma EmptyObjectSchemaIsGood()
    ensures GoodSchema(EmptyObjectSchema)
  {
    TwoBools();
    assert forall id: nat :: Constructors(EmptyObjectSchema, Named(id)) == [Combinator(1, 0, [], true)];
  }

  lemma EmptyObjectsAreStored()
    ensures RunStore(EmptyObjectSchema, SVector(SObject), ONE_EMPTY_OBJECT) == Some(LittleEndian(1, 4))
  {
    var S, vs := EmptyObjectSchema, ONE_EMPTY_OBJECT.elems;
    EmptyObjectHasNoBytes();
    assert vs[1..] == [] && RunStoreAll(S, SObject, []) == Some([]);
    var nothing: seq<byte> := [];
    assert nothing + nothing == nothing;
    assert RunStoreAll(S, SObject, vs) == Some(nothing);
    StoredVector(S, SObject, ONE_EMPTY_OBJECT, nothing);
    assert LittleEndian(1, 4) + nothing == LittleEndian(1, 4);
  }

  lemma StoredVector(S: Schema, code: StoreCode, v: Value, body: seq<byte>)
    requires v.Array? && |v.elems| < 0x8000_0000 && RunStoreAll(S, code, v.elems) == Some(body)
    ensures RunStore(S, SVector(code), v) == Some(LittleEndian(|v.elems|, 4) + body)
  {
  }

  lemma EmptyObjectHasNoBytes()
    ensures RunStore(EmptyObjectSchema, SObject, Object(Named(0), 0, [])) == Some([])
  {
    var S, c := EmptyObjectSchema, Combinator(1, 0, [], true);
    assert ConstructorOf(S, Named(0), 0) == Some(c);
    assert StoreProgram(S, c, 0, {}) == Some([]);
  }

  lemma TwoBools()
    ensures |Constructors(EmptyObjectSchema, Bool)| == 2
  {
    var cs := EmptyObjectSchema(Bool).constructors;
    assert |Supported(cs[1..][1..])| == 0;
    assert |Supported(cs[1..])| == 1;
  }

  // ---------- True fields that are not bare

  /** The parser class exists: there is none for True. */
  predicate IsDefined(code: FetchCode) {
    match code
    case FTrue => false
    case FVector(elem) => IsDefined(elem)
    case FBoxed(elem, _) => IsDefined(elem)
    case _ => true
  }

  predicate UsesDefined(stmt: FetchStmt) {
    stmt.FetchBit? || IsDefined(stmt.code)
  }

  /** What can be stored, at any depth of vectors, is parsed by classes that exist. */
  lemma {:induction false} StorableIsDefined(S: Schema, t: TypeUse)
    requires FullStoreClass(S, t).Some? && FullFetchClass(S, t).Some?
    ensures IsDefined(FullFetchClass(S, t).value)
    decreases t
  {
    assert StoreClass(S, t).Some? && FetchClass(S, t).Some?;
    if t.name == Vector {
      StorableIsDefined(S, t.children[0]);
    }
  }

  /** The parser emitted for a combinator names only classes that exist if and only if every conditional True field
      is bare, although the generator accepts both and the storer is fine either way. */
  lemma {:induction false} ParserIsDefined(S: Schema, c: Combinator, i: nat, stored: set<nat>)
    requires i <= |c.args| && StoreProgram(S, c, i, stored).Some? && FetchProgram(S, c, i, stored).Some?
    ensures (forall k :: 0 <= k < |c.args| - i ==> UsesDefined(FetchProgram(S, c, i, stored).value[k]))
            <==> (forall k :: i <= k < |c.args| && c.args[k].existVarNum >= 0 && c.args[k].typ.name == True ==>
                    c.args[k].typ.bare)
    decreases |c.args| - i
  {
    hide FullFetchClass, FullStoreClass, IsTypeBare;
    if i < |c.args| {
      var a, stored' := c.args[i], StoredAfter(c.args[i], stored);
      ParserIsDefined(S, c, i + 1, stored');
      FieldIsDefined(S, c, a, stored);
      var program, others := FetchProgram(S, c, i, stored).value, FetchProgram(S, c, i + 1, stored').value;
      assert program[0] == FieldFetch(S, c.varCount, a, stored).value;
      assert forall k :: 0 < k < |program| ==> program[k] == others[k - 1];
      assert forall k :: 0 <= k < |others| ==> others[k] == program[k + 1];
    }
  }

  lemma FieldIsDefined(S: Schema, c: Combinator, a: Arg, stored: set<nat>)
    requires FieldFetch(S, c.varCount, a, stored).Some? && FieldStore(S, c.varCount, c.args, a, stored).Some?
    ensures UsesDefined(FieldFetch(S, c.varCount, a, stored).value)
            <==> (a.existVarNum >= 0 && a.typ.name == True ==> a.typ.bare)
  {
    hide FullFetchClass, FullStoreClass, IsTypeBare;
    if a.typ.name == True {
      TrueIsNotStored(S, a.typ);
    }
    if FullFetchClass(S, a.typ).Some? {
      TrueIsParsed(S, a.typ);
      assert ParsesTrue(FullFetchClass(S, a.typ).value) ==> !IsDefined(FullFetchClass(S, a.typ).value);
      if FullStoreClass(S, a.typ).Some? {
        StorableIsDefined(S, a.typ);
      }
    }
  }

  lemma TrueIsNotStored(S: Schema, t: TypeUse)
    requires t.name == True
    ensures FullStoreClass(S, t) == None
  {
  }

  /** A type with a flags word and a True field that depends on its bit 0 and is not bare */
  function BoxedTrueSchema(name: TypeName): TlType {
    match name
    case Named(_) => TlType([BOXED_TRUE])
    case Bool => TlType([Combinator(ID_BOOL_FALSE, 0, [], true), Combinator(ID_BOOL_TRUE, 0, [], true)])
    case _ => TlType([])
  }

  const FLAGS_ARG := Arg(TypeUse(NatVar, false, []), 0, -1, 0)
  const TRUE_ARG := Arg(TypeUse(True, false, []), -1, 0, 0)
  const BOXED_TRUE := Combinator(1, 1, [FLAGS_ARG, TRUE_ARG], true)

  function BoxedTrueValue(b: bool): Value {
    Object(Named(0), 0, [Flags(0), Truth(b)])
  }

  lemma BoxedTrueConstructors()
    ensures forall id: nat :: Constructors(BoxedTrueSchema, Named(id)) == [BOXED_TRUE]
    ensures |Constructors(BoxedTrueSchema, Bool)| == 2
  {
    var cs := BoxedTrueSchema(Bool).constructors;
    assert |Supported(cs[1..][1..])| == 0 && |Supported(cs[1..])| == 1;
    assert forall id: nat :: BoxedTrueSchema(Named(id)).constructors[1..] == [];
  }

  /** The two programs that are emitted for it */
  lemma BoxedTruePrograms()
    ensures StoreProgram(BoxedTrueSchema, BOXED_TRUE, 0, {})
            == Some([StoreVar(Always, 0, [(1, 0)], SBinary), StoreNothing])
    ensures FetchProgram(BoxedTrueSchema, BOXED_TRUE, 0, {})
            == Some([FetchVar(Always, 0, FNumber(4)), FetchField(IfBit(0, 0), FTrue)])
  {
    hide FullFetchClass, FullStoreClass, IsTypeBare, TrueBits;
    BoxedTrueFields();
    var S, c := BoxedTrueSchema, BOXED_TRUE;
    var none: set<nat>, flagged: set<nat> := {}, {0};
    assert c.args[0] == FLAGS_ARG && c.args[1] == TRUE_ARG;
    assert StoredAfter(c.args[0], none) == flagged && StoredAfter(c.args[1], flagged) == flagged;
    assert AllStored(c, flagged);
    ProgramNext(S, c, 1, flagged);
    assert [StoreNothing] + [] == [StoreNothing];
    assert [FetchField(IfBit(0, 0), FTrue)] + [] == [FetchField(IfBit(0, 0), FTrue)];
    assert FieldStore(S, c.varCount, c.args, c.args[0], none) == Some(StoreVar(Always, 0, [(1, 0)], SBinary));
    assert FieldFetch(S, c.varCount, c.args[0], none) == Some(FetchVar(Always, 0, FNumber(4)));
    ProgramNext(S, c, 0, none);
    assert StoreProgram(S, c, 0, none) == Some([StoreVar(Always, 0, [(1, 0)], SBinary)] + [StoreNothing]);
    assert FetchProgram(S, c, 0, none) == Some([FetchVar(Always, 0, FNumber(4))] + [FetchField(IfBit(0, 0), FTrue)]);
    assert [StoreVar(Always, 0, [(1, 0)], SBinary)] + [StoreNothing]
           == [StoreVar(Always, 0, [(1, 0)], SBinary), StoreNothing];
    assert [FetchVar(Always, 0, FNumber(4))] + [FetchField(IfBit(0, 0), FTrue)]
        == [FetchVar(Always, 0, FNumber(4)), FetchField(IfBit(0, 0), FTrue)];
  }

  lemma ProgramNext(S: Schema, c: Combinator, i: nat, stored: set<nat>)
    requires i < |c.args|
    requires FieldStore(S, c.varCount, c.args, c.args[i], stored).Some?
    requires FieldFetch(S, c.varCount, c.args[i], stored).Some?
    ensures var a, stored' := c.args[i], StoredAfter(c.args[i], stored);
            && (StoreProgram(S, c, i + 1, stored').Some? ==>
                  StoreProgram(S, c, i, stored)
                  == Some([FieldStore(S, c.varCount, c.args, a, stored).value]
                           + StoreProgram(S, c, i + 1, stored').value))
            && (FetchProgram(S, c, i + 1, stored').Some? ==>
                  FetchProgram(S, c, i, stored)
                  == Some([FieldFetch(S, c.varCount, a, stored).value] + FetchProgram(S, c, i + 1, stored').value))
  {
    hide FieldStore, FieldFetch;
  }

  lemma BoxedTrueFields()
    ensures TrueBits(BOXED_TRUE.args, 0, 0) == [(1, 0)]
    ensures FieldStore(BoxedTrueSchema, 1, BOXED_TRUE.args, FLAGS_ARG, {})
            == Some(StoreVar(Always, 0, [(1, 0)], SBinary))
    ensures FieldStore(BoxedTrueSchema, 1, BOXED_TRUE.args, TRUE_ARG, {0}) == Some(StoreNothing)
    ensures FieldFetch(BoxedTrueSchema, 1, FLAGS_ARG, {}) == Some(FetchVar(Always, 0, FNumber(4)))
    ensures FieldFetch(BoxedTrueSchema, 1, TRUE_ARG, {0}) == Some(FetchField(IfBit(0, 0), FTrue))
  {
    var S, args := BoxedTrueSchema, BOXED_TRUE.args;
    assert IsTypeBare(S, NatVar) && IsTypeBare(S, True);
    assert FullFetchClass(S, FLAGS_ARG.typ) == Some(FNumber(4)) && FullFetchClass(S, TRUE_ARG.typ) == Some(FTrue);
    assert FullStoreClass(S, FLAGS_ARG.typ) == Some(SBinary);
    assert TrueBits(args, 0, 2) == [] && TrueBits(args, 0, 1) == [(1, 0)] && TrueBits(args, 0, 0) == [(1, 0)];
  }

  lemma BoxedTrueSchemaIsGood()
    ensures GoodSchema(BoxedTrueSchema)
  {
    BoxedTrueConstructors();
    BoxedTruePrograms();
    hide StoreProgram, FetchProgram;
    assert GoodCombinator(BoxedTrueSchema, BOXED_TRUE);
  }

  /** The value of the field decides: false survives the trip, true is announced in the flags word and lost. */
  lemma BoxedTrueIsLost(b: bool, fuel: nat)
    requires fuel > 0
    ensures GoodSchema(BoxedTrueSchema) && Typed(BoxedTrueSchema, TypeUse(Named(0), true, []), BoxedTrueValue(b))
    ensures RunStore(BoxedTrueSchema, SObject, BoxedTrueValue(b)) == Some(LittleEndian(if b then 1 else 0, 4))
    ensures RunFetch(BoxedTrueSchema, fuel, FObject(Named(0)), LittleEndian(if b then 1 else 0, 4))
            == if b then None else Some((BoxedTrueValue(b), []))
  {
    BoxedTrueSchemaIsGood();
    BoxedTrueConstructors();
    BoxedTrueStores(b);
    BoxedTrueFetches(b, fuel);
    hide *;
  }

  /** Bit 0 is or-ed into the word. */
  lemma BoxedTrueWord(b: bool)
    ensures OrTrueBits(0, [(1, 0)], [Flags(0), Truth(b)]) == if b then 1 else 0
    ensures Bit(if b then 1 else 0, 0) == b
  {
    assert [(1 as nat, 0 as nat)][..0] == [];
  }

  lemma BoxedTrueStores(b: bool)
    ensures Typed(BoxedTrueSchema, TypeUse(Named(0), true, []), BoxedTrueValue(b))
    ensures RunStore(BoxedTrueSchema, SObject, BoxedTrueValue(b)) == Some(LittleEndian(if b then 1 else 0, 4))
  {
    BoxedTrueConstructors();
    BoxedTruePrograms();
    BoxedTrueFields();
    BoxedTrueWord(b);
    hide OrTrueBits, StoreProgram, LittleEndian, TrueBits, FieldStore, FieldFetch;
    var S, c, fields, word := BoxedTrueSchema, BOXED_TRUE, [Flags(0), Truth(b)], if b then 1 else 0;
    var stmts := StoreProgram(S, c, 0, {}).value;
    var env: Env := map[0 := word];
    assert TypedFields(S, c, 2, fields, env) && TypedFields(S, c, 1, fields, env) && FlagsWord(c, 0, fields) == word;
    assert stmts[1..] == [StoreNothing] && stmts[1..][1..] == [];
    assert RunStoreFields(S, [StoreNothing], 1, fields, env) == Some([]);
    assert LittleEndian(word, 4) + [] == LittleEndian(word, 4);
  }

  lemma BoxedTrueFetches(b: bool, fuel: nat)
    requires fuel > 0
    ensures RunFetch(BoxedTrueSchema, fuel, FObject(Named(0)), LittleEndian(if b then 1 else 0, 4))
            == if b then None else Some((BoxedTrueValue(b), []))
  {
    BoxedTrueConstructors();
    BoxedTruePrograms();
    BoxedTrueWord(b);
    hide FetchProgram, LittleEndian, FetchInt, Bit, StoreProgram;
    var S, c, word := BoxedTrueSchema, BOXED_TRUE, if b then 1 else 0;
    FetchIntOf(word, []);
    assert LittleEndian(word, 4) + [] == LittleEndian(word, 4);
    var f, stmts, tail := fuel - 1, FetchProgram(S, c, 0, {}).value, [FetchField(IfBit(0, 0), FTrue)];
    assert stmts[1..] == tail && tail[1..] == [];
    var env: Env := map[0 := word];
    assert RunFetchFields(S, f, [], env, []) == Some(([], []));
    assert tail == [FetchField(IfBit(0, 0), FTrue)] + [] && Holds(IfBit(0, 0), env) == Some(b);
    if b {
      NoTrueParser(S, f, FTrue, []);
      PresentFieldFetches(S, f, IfBit(0, 0), FTrue, [], env, []);
    } else {
      AbsentFieldFetches(S, f, IfBit(0, 0), FTrue, [], env, []);
      assert [Truth(false)] + [] == [Truth(false)];
    }
    var nothing: Env := map[];
    assert nothing[0 := word] == env && Holds(Always, nothing) == Some(true);
    assert FetchInt(LittleEndian(word, 4)) == Some((word, []));
    assert stmts[0] == FetchVar(Always, 0, FNumber(4));
    assert RunFetchFields(S, f, stmts, nothing, LittleEndian(word, 4))
        == if b then None else Some(([Flags(word)] + [Truth(false)], []));
    assert [Flags(word)] + [Truth(false)] == [Flags(word), Truth(false)];
    assert ConstructorOf(S, Named(0), 0) == Some(c);
    assert RunFetchConstructor(S, f, Named(0), 0, LittleEndian(word, 4))
        == if b then None else Some((Object(Named(0), 0, [Flags(word), Truth(false)]), []));
  }

  lemma AbsentFieldFetches(S: Schema, fuel: nat, guard: Guard, fetch: FetchCode, fetches: seq<FetchStmt>, env: Env,
                           input: seq<byte>)
    requires Holds(guard, env) == Some(false) && RunFetchFields(S, fuel, fetches, env, input).Some?
    ensures var r := RunFetchFields(S, fuel, fetches, env, input).value;
            RunFetchFields(S, fuel, [FetchField(guard, fetch)] + fetches, env, input)
            == Some(([AbsentValue(fetch)] + r.0, r.1))
  {
    assert ([FetchField(guard, fetch)] + fetches)[1..] == fetches;
  }
}
