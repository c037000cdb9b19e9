/** A condition on the schema alone under which every value survives a trip over the wire: the elements of
    vectors take bytes, and conditional True fields are bare and leave the sign bit of their flags word alone. */
module TlSolidSchema {
  import opened Options
  import opened Bytes
  import opened TlSchema
  import opened TlCode
  import opened TlRuntime
  import opened TlRoundTrip

  /** A value of the type takes at least one byte. Only bare objects can take none; they do not if each constructor
      has an unconditional field that does not, at a nesting of at most `depth`. */
  predicate TakesBytes(S: Schema, t: TypeUse, depth: nat)
    decreases depth
  {
    || !t.name.Named?
    || !t.bare
    || (depth > 0
        && forall c <- Constructors(S, t.name) ::
             exists k :: 0 <= k < |c.args| && c.args[k].existVarNum < 0 && TakesBytes(S, c.args[k].typ, depth - 1))
  }

  /** The elements of all vectors in the type, at any depth, take bytes. */
  ghost predicate SolidType(S: Schema, t: TypeUse)
    decreases t
  {
    forall child <- t.children :: (exists depth: nat :: TakesBytes(S, child, depth)) && SolidType(S, child)
  }

  /** A conditional True field, which is stored in a flags word */
  predicate IsFlag(a: Arg) {
    a.existVarNum >= 0 && a.typ.name == True
  }

  ghost predicate SolidArg(S: Schema, a: Arg) {
    SolidType(S, a.typ) && (IsFlag(a) ==> a.typ.bare && a.existVarBit < 31)
  }

  ghost predicate SolidCombinator(S: Schema, c: Combinator) {
    forall i :: 0 <= i < |c.args| ==> SolidArg(S, c.args[i])
  }

  ghost predicate SolidSchema(S: Schema) {
    forall id: nat, k: nat ::
      k < |Constructors(S, Named(id))| ==> SolidCombinator(S, Constructors(S, Named(id))[k])
  }

  /** No flags field, at any depth, has its sign bit set. */
  predicate NoNegative(v: Value) {
    match v
    case Flags(n) => n < 0x8000_0000
    case Array(elems) => forall e <- elems :: NoNegative(e)
    case Object(_, _, fields) => forall f <- fields :: NoNegative(f)
    case _ => true
  }

  // ---------- Values that take bytes

  lemma {:induction false} TakenBytes(S: Schema, t: TypeUse, depth: nat, v: Value)
    requires GoodSchema(S) && Typed(S, t, v) && TakesBytes(S, t, depth)
    requires FullStoreClass(S, t).Some? && RunStore(S, FullStoreClass(S, t).value, v).Some?
    ensures |RunStore(S, FullStoreClass(S, t).value, v).value| > 0
    decreases depth, 1
  {
    hide Typed, RunStore, FullStoreClass, GoodSchema, TakesBytes;
    if t.name.Named? && t.bare {
      BareObjectTakesBytes(S, t, depth, v);
    } else {
      var code := FullStoreClass(S, t).value;
      if code.SBoxed? || code.SBoxedUnknown? {
        BoxTakesBytes(S, code, v);
      } else {
        SimpleTakesBytes(S, t, v);
      }
    }
  }

  /** A constructor id comes first. */
  lemma BoxTakesBytes(S: Schema, code: StoreCode, v: Value)
    requires (code.SBoxed? || code.SBoxedUnknown?) && RunStore(S, code, v).Some?
    ensures |RunStore(S, code, v).value| >= 4
  {
    hide RunStoreFields, RunStoreAll, StoreProgram;
  }

  lemma SimpleTakesBytes(S: Schema, t: TypeUse, v: Value)
    requires Typed(S, t, v) && (!t.name.Named? || !t.bare)
    requires FullStoreClass(S, t).Some? && RunStore(S, FullStoreClass(S, t).value, v).Some?
    requires var code := FullStoreClass(S, t).value; !code.SBoxed? && !code.SBoxedUnknown?
    ensures |RunStore(S, FullStoreClass(S, t).value, v).value| > 0
  {
    hide RunStoreFields, RunStoreAll, StoreProgram, TypedFields;
    var code := FullStoreClass(S, t).value;
    assert StoreClass(S, t) == Some(code);
    if IsNumeric(t.name) {
      assert code == SBinary;
    } else if IsStringLike(t.name) {
      assert code == SString;
    }
  }

  lemma {:induction false} BareObjectTakesBytes(S: Schema, t: TypeUse, depth: nat, v: Value)
    requires GoodSchema(S) && Typed(S, t, v) && TakesBytes(S, t, depth) && t.name.Named? && t.bare
    requires FullStoreClass(S, t).Some? && RunStore(S, FullStoreClass(S, t).value, v).Some?
    ensures |RunStore(S, FullStoreClass(S, t).value, v).value| > 0
    decreases depth, 0
  {
    hide RunStoreFields, TypedFields, FetchProgram;
    var c := Constructors(S, v.typ)[v.index];
    assert GoodCombinator(S, Constructors(S, Named(v.typ.id))[v.index]);
    assert FullStoreClass(S, t) == Some(SObject);
    var k :| 0 <= k < |c.args| && c.args[k].existVarNum < 0 && TakesBytes(S, c.args[k].typ, depth - 1);
    FieldsTakeBytes(S, c, 0, k, depth - 1, {}, v.fields, map[]);
  }

  lemma {:induction false} FieldsTakeBytes(S: Schema, c: Combinator, i: nat, k: nat, depth: nat, stored: set<nat>,
                                           fields: seq<Value>, env: Env)
    requires GoodSchema(S) && i <= k < |c.args| == |fields|
    requires TypedFields(S, c, i, fields, env) && StoreProgram(S, c, i, stored).Some?
    requires forall j :: 0 <= j < |c.args| ==> GoodArg(c.args[j])
    requires c.args[k].existVarNum < 0 && TakesBytes(S, c.args[k].typ, depth)
    requires RunStoreFields(S, StoreProgram(S, c, i, stored).value, i, fields, env).Some?
    ensures |RunStoreFields(S, StoreProgram(S, c, i, stored).value, i, fields, env).value| > 0
    decreases depth, 2, |c.args| - i
  {
    hide RunStore, RunStoreFields, Typed, FullStoreClass, OrTrueBits, TrueBits, Bit, GoodSchema;
    var a, stored' := c.args[i], StoredAfter(c.args[i], stored);
    NextStore(S, c, i, stored, fields, env);
    if a.varNum < 0 {
      if i < k {
        FieldsTakeBytes(S, c, i + 1, k, depth, stored', fields, env);
      } else {
        TakenBytes(S, a.typ, depth, fields[i]);
      }
    }
  }

  /** Storing the fields from number i on, one statement at a time */
  lemma NextStore(S: Schema, c: Combinator, i: nat, stored: set<nat>, fields: seq<Value>, env: Env)
    requires i < |c.args| == |fields| && GoodArg(c.args[i]) && StoreProgram(S, c, i, stored).Some?
    requires RunStoreFields(S, StoreProgram(S, c, i, stored).value, i, fields, env).Some?
    ensures var a, stored' := c.args[i], StoredAfter(c.args[i], stored);
            var bytes := RunStoreFields(S, StoreProgram(S, c, i, stored).value, i, fields, env).value;
            && StoreProgram(S, c, i + 1, stored').Some?
            && (a.varNum >= 0 ==> |bytes| > 0)
            && (a.varNum < 0 ==>
                  var others := RunStoreFields(S, StoreProgram(S, c, i + 1, stored').value, i + 1, fields, env);
                  others.Some? && |bytes| >= |others.value|)
            && (a.varNum < 0 && a.existVarNum < 0 ==>
                  && FullStoreClass(S, a.typ).Some? && RunStore(S, FullStoreClass(S, a.typ).value, fields[i]).Some?
                  && |bytes| >= |RunStore(S, FullStoreClass(S, a.typ).value, fields[i]).value|)
  {
    hide RunStore, FullStoreClass, OrTrueBits, TrueBits, Bit;
    var stmts := StoreProgram(S, c, i, stored).value;
    assert stmts[1..] == StoreProgram(S, c, i + 1, StoredAfter(c.args[i], stored)).value;
  }

  // ---------- Every value fits

  lemma {:induction false} AlwaysFits(S: Schema, t: TypeUse, v: Value, trailing: nat)
    requires GoodSchema(S) && SolidSchema(S) && SolidType(S, t)
    requires Typed(S, t, v) && NoNegative(v) && FullStoreClass(S, t).Some?
    ensures Fits(S, FullStoreClass(S, t).value, v, trailing)
    decreases v, 1
  {
    if v.Array? {
      hide FitsAll, RunStoreAll;
      var child := t.children[0];
      assert FullStoreClass(S, child).Some? && child in t.children;
      var depth: nat :| TakesBytes(S, child, depth);
      ElementsTakeBytes(S, child, depth, v.elems);
      AllFit(S, child, v.elems, trailing);
    } else if v.Object? {
      hide FitsFields, TypedFields;
      var c := Constructors(S, v.typ)[v.index];
      assert GoodCombinator(S, Constructors(S, Named(v.typ.id))[v.index]);
      assert SolidCombinator(S, Constructors(S, Named(v.typ.id))[v.index]);
      FieldsFit(S, c, 0, {}, v.fields, map[], trailing);
      assert Fits(S, SObject, v, trailing);
    }
  }

  lemma {:induction false} ElementsTakeBytes(S: Schema, t: TypeUse, depth: nat, vs: seq<Value>)
    requires GoodSchema(S) && TakesBytes(S, t, depth) && FullStoreClass(S, t).Some?
    requires forall i :: 0 <= i < |vs| ==> Typed(S, t, vs[i])
    ensures var stored := RunStoreAll(S, FullStoreClass(S, t).value, vs);
            stored.Some? ==> |vs| <= |stored.value|
    decreases |vs|
  {
    hide RunStore, Typed, TakesBytes, FullStoreClass, GoodSchema;
    if vs != [] && RunStoreAll(S, FullStoreClass(S, t).value, vs).Some? {
      ElementsTakeBytes(S, t, depth, vs[1..]);
      TakenBytes(S, t, depth, vs[0]);
    }
  }

  lemma {:induction false} AllFit(S: Schema, t: TypeUse, vs: seq<Value>, trailing: nat)
    requires GoodSchema(S) && SolidSchema(S) && SolidType(S, t) && FullStoreClass(S, t).Some?
    requires forall i :: 0 <= i < |vs| ==> Typed(S, t, vs[i]) && NoNegative(vs[i])
    ensures FitsAll(S, FullStoreClass(S, t).value, vs, trailing)
    decreases vs, 0
  {
    hide TakesBytes, SolidType, Typed, Fits, RunStore, RunStoreAll, FullStoreClass, GoodSchema, SolidSchema;
    if vs != [] {
      var others := RunStoreAll(S, FullStoreClass(S, t).value, vs[1..]);
      if others.Some? {
        AlwaysFits(S, t, vs[0], |others.value| + trailing);
        AllFit(S, t, vs[1..], trailing);
      }
    }
  }

  lemma {:induction false} FieldsFit(S: Schema, c: Combinator, i: nat, stored: set<nat>, fields: seq<Value>, env: Env,
                                     trailing: nat)
    requires GoodSchema(S) && SolidSchema(S) && SolidCombinator(S, c) && i <= |c.args| == |fields|
    requires forall j :: 0 <= j < |c.args| ==> GoodArg(c.args[j])
    requires TypedFields(S, c, i, fields, env) && StoreProgram(S, c, i, stored).Some?
    requires forall f <- fields :: NoNegative(f)
    ensures FitsFields(S, c.args, StoreProgram(S, c, i, stored).value, i, fields, env, trailing)
    decreases fields, |c.args| - i
  {
    hide *;
    if i == |c.args| {
      NoFieldsFit(S, c, stored, fields, env, trailing);
      return;
    }
    var a, stored' := c.args[i], StoredAfter(c.args[i], stored);
    SolidField(S, c, i);
    NextFits(S, c, i, stored, fields, env, trailing);
    NextTyped(S, c, i, fields, env);
    if a.varNum >= 0 {
      WordIsNatural(S, c, i, fields);
      FieldsFit(S, c, i + 1, stored', fields, env[a.varNum := FlagsWord(c, i, fields)], trailing);
    } else {
      FieldsFit(S, c, i + 1, stored', fields, env, trailing);
      var others := RunStoreFields(S, StoreProgram(S, c, i + 1, stored').value, i + 1, fields, env);
      if others.Some? && !IsFlag(a) && Holds(FieldGuard(a), env) == Some(true) {
        AlwaysFits(S, a.typ, fields[i], |others.value| + trailing);
      }
    }
  }

  lemma NoFieldsFit(S: Schema, c: Combinator, stored: set<nat>, fields: seq<Value>, env: Env, trailing: nat)
    requires StoreProgram(S, c, |c.args|, stored).Some?
    ensures FitsFields(S, c.args, StoreProgram(S, c, |c.args|, stored).value, |c.args|, fields, env, trailing)
  {
  }

  lemma SolidField(S: Schema, c: Combinator, i: nat)
    requires SolidCombinator(S, c) && i < |c.args|
    ensures SolidArg(S, c.args[i]) && SolidType(S, c.args[i].typ)
  {
  }

  lemma WordIsNatural(S: Schema, c: Combinator, i: nat, fields: seq<Value>)
    requires i < |c.args| == |fields| && c.args[i].varNum >= 0 && fields[i].Flags? && NoNegative(fields[i])
    requires SolidCombinator(S, c)
    ensures FlagsWord(c, i, fields) < 0x8000_0000
  {
    SolidBitsAreLow(S, c, c.args[i].varNum, 0);
    Pow2At31();
    hide OrTrueBits, TrueBits;
    OrTrueBitsBounded(fields[i].n, TrueBits(c.args, c.args[i].varNum, 0), fields, 31);
  }

  lemma {:induction false} SolidBitsAreLow(S: Schema, c: Combinator, variable: nat, i: nat)
    requires i <= |c.args| && SolidCombinator(S, c)
    ensures forall p :: p in TrueBits(c.args, variable, i) ==> p.1 < 31
    decreases |c.args| - i
  {
    if i < |c.args| {
      SolidBitsAreLow(S, c, variable, i + 1);
      SolidField(S, c, i);
    }
  }

  lemma NextTyped(S: Schema, c: Combinator, i: nat, fields: seq<Value>, env: Env)
    requires i < |c.args| == |fields| && TypedFields(S, c, i, fields, env)
    ensures var a := c.args[i];
            if a.varNum >= 0 then
              fields[i].Flags? && TypedFields(S, c, i + 1, fields, env[a.varNum := FlagsWord(c, i, fields)])
            else
              && TypedFields(S, c, i + 1, fields, env)
              && (!IsFlag(a) && Holds(FieldGuard(a), env) == Some(true) ==> Typed(S, a.typ, fields[i]))
  {
    hide Typed, Bit, OrTrueBits, TrueBits;
  }

  /** Fitting the fields from number i on, one statement at a time */
  lemma NextFits(S: Schema, c: Combinator, i: nat, stored: set<nat>, fields: seq<Value>, env: Env, trailing: nat)
    requires i < |c.args| == |fields| && GoodArg(c.args[i]) && StoreProgram(S, c, i, stored).Some?
    requires SolidArg(S, c.args[i])
    ensures var a, stored' := c.args[i], StoredAfter(c.args[i], stored);
            var fit := FitsFields(S, c.args, StoreProgram(S, c, i, stored).value, i, fields, env, trailing);
            && StoreProgram(S, c, i + 1, stored').Some?
            && (a.varNum < 0 && !IsFlag(a) ==> FullStoreClass(S, a.typ).Some?)
            && var stmts := StoreProgram(S, c, i + 1, stored').value;
               var others := RunStoreFields(S, stmts, i + 1, fields, env);
               if a.varNum >= 0 then
                 fields[i].Flags? ==>
                   var env' := env[a.varNum := FlagsWord(c, i, fields)];
                   FlagsWord(c, i, fields) < 0x8000_0000 ==>
                     fit == FitsFields(S, c.args, stmts, i + 1, fields, env', trailing)
               else
                 fit <==>
                   && FitsFields(S, c.args, stmts, i + 1, fields, env, trailing)
                   && (!IsFlag(a) && Holds(FieldGuard(a), env) == Some(true) && others.Some? ==>
                         Fits(S, FullStoreClass(S, a.typ).value, fields[i], |others.value| + trailing))
  {
    hide Fits, RunStoreFields, FullStoreClass, OrTrueBits, TrueBits, Bit, SolidType;
    var stmts := StoreProgram(S, c, i, stored).value;
    assert stmts[1..] == StoreProgram(S, c, i + 1, StoredAfter(c.args[i], stored)).value;
  }

  /** Under this condition nothing is lost: every value without negative flags comes back, with exactly the bytes that
      follow it. */
  lemma SolidRoundTrip(S: Schema, t: TypeUse, v: Value, fuel: nat, rest: seq<byte>)
    requires GoodSchema(S) && SolidSchema(S) && SolidType(S, t)
    requires Typed(S, t, v) && NoNegative(v) && Height(v) <= fuel
    requires FullStoreClass(S, t).Some? && FullFetchClass(S, t).Some?
    ensures RunStore(S, FullStoreClass(S, t).value, v).Some?
    ensures var bytes := RunStore(S, FullStoreClass(S, t).value, v).value;
            RunFetch(S, fuel, FullFetchClass(S, t).value, bytes + rest) == Some((Normalize(S, v), rest))
  {
    hide GoodSchema, SolidSchema, SolidType, Typed, FullStoreClass, FullFetchClass, RunStore, RunFetch, Fits, Normalize;
    AlwaysFits(S, t, v, |rest|);
    RoundTrip(S, t, v, fuel, rest);
  }
}
