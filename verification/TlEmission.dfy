/** Where the generators do not stop: the combinators and the types for which they emit code. */
module TlEmission {
  import opened TlSchema
  import opened TlCode

  /** At most one constructor, or built in with a C++ type that does not depend on the constructor */
  predicate MayBeBare(S: Schema, name: TypeName) {
    || |Supported(S(name).constructors)| <= 1
    || name in {True, Int, Long, Double, String, Int32, Int53, Int64, Int128, Int256, Int512, Bytes, SecureString,
                SecureBytes, Vector}
  }

  // ---------- Combinators

  /** The condition on field i that concerns variables: it depends on a variable of an earlier field, and assigns a
      variable that no earlier field has assigned. */
  predicate IsScoped(c: Combinator, i: nat)
    requires i < |c.args|
  {
    var a := c.args[i];
    && (a.existVarNum >= 0 ==> exists j :: 0 <= j < i && c.args[j].varNum == a.existVarNum)
    && (a.varNum >= 0 ==>
          && a.typ.name == NatVar && a.varNum < c.varCount
          && forall j :: 0 <= j < i ==> c.args[j].varNum != a.varNum)
  }

  predicate IsAssigned(args: seq<Arg>, v: nat) {
    exists j :: 0 <= j < |args| && args[j].varNum == v
  }

  predicate AssignsAll(c: Combinator) {
    forall v: nat :: v < c.varCount ==> IsAssigned(c.args, v)
  }

  /** There is code for the type of a field, where code is needed. */
  predicate HasFetchCode(S: Schema, a: Arg) {
    if a.existVarNum >= 0 && a.varNum < 0 && a.typ.bare && a.typ.name == True then MayBeBare(S, True)
    else FullFetchClass(S, a.typ).Some?
  }

  predicate HasStoreCode(S: Schema, a: Arg) {
    (a.existVarNum >= 0 && a.varNum < 0 && a.typ.name == True) || FullStoreClass(S, a.typ).Some?
  }

  /** The variables assigned before field i */
  function VarsBefore(args: seq<Arg>, i: nat): set<nat>
    requires i <= |args|
  {
    if i == 0 then {} else StoredAfter(args[i - 1], VarsBefore(args, i - 1))
  }

  lemma {:induction false} VarsBeforeAre(args: seq<Arg>, i: nat, v: nat)
    requires i <= |args|
    ensures v in VarsBefore(args, i) <==> exists j :: 0 <= j < i && args[j].varNum == v
  {
    if i > 0 {
      VarsBeforeAre(args, i - 1, v);
      assert args[i - 1].varNum == v <==> v in StoredAfter(args[i - 1], {});
    }
  }

  lemma FieldIsScoped(S: Schema, c: Combinator, i: nat)
    requires i < |c.args|
    ensures var stored := VarsBefore(c.args, i);
            && (FieldFetch(S, c.varCount, c.args[i], stored).Some? <==>
                  IsScoped(c, i) && HasFetchCode(S, c.args[i]))
            && (FieldStore(S, c.varCount, c.args, c.args[i], stored).Some? <==>
                  IsScoped(c, i) && HasStoreCode(S, c.args[i]))
  {
    hide VarsBefore, FullFetchClass, FullStoreClass, TrueBits, Supported;
    var a := c.args[i];
    if a.existVarNum >= 0 {
      VarsBeforeAre(c.args, i, a.existVarNum);
    }
    if a.varNum >= 0 {
      VarsBeforeAre(c.args, i, a.varNum);
    }
  }

  lemma AllAssigned(c: Combinator)
    ensures AllStored(c, VarsBefore(c.args, |c.args|)) <==> AssignsAll(c)
  {
    hide VarsBefore;
    var stored := VarsBefore(c.args, |c.args|);
    forall v: nat | v < c.varCount
      ensures v in stored <==> IsAssigned(c.args, v)
    {
      VarsBeforeAre(c.args, |c.args|, v);
    }
  }

  lemma {:induction false} ProgramsFrom(S: Schema, c: Combinator, i: nat)
    requires i <= |c.args|
    ensures FetchProgram(S, c, i, VarsBefore(c.args, i)).Some? <==>
              AssignsAll(c) && forall k :: i <= k < |c.args| ==> IsScoped(c, k) && HasFetchCode(S, c.args[k])
    ensures StoreProgram(S, c, i, VarsBefore(c.args, i)).Some? <==>
              AssignsAll(c) && forall k :: i <= k < |c.args| ==> IsScoped(c, k) && HasStoreCode(S, c.args[k])
    decreases |c.args| - i
  {
    hide IsScoped, HasFetchCode, HasStoreCode, FieldFetch, FieldStore;
    if i == |c.args| {
      AllAssigned(c);
    } else {
      hide AssignsAll;
      FieldIsScoped(S, c, i);
      ProgramsFrom(S, c, i + 1);
      assert VarsBefore(c.args, i + 1) == StoredAfter(c.args[i], VarsBefore(c.args, i));
    }
  }

  /** Parsing code is emitted for a combinator exactly if every field depends on earlier variables only, every variable
      is assigned once, and the types of the fields have code; and likewise storing code. */
  lemma ProgramsExist(S: Schema, c: Combinator)
    ensures FetchProgram(S, c, 0, {}).Some? <==>
              AssignsAll(c) && forall k :: 0 <= k < |c.args| ==> IsScoped(c, k) && HasFetchCode(S, c.args[k])
    ensures StoreProgram(S, c, 0, {}).Some? <==>
              AssignsAll(c) && forall k :: 0 <= k < |c.args| ==> IsScoped(c, k) && HasStoreCode(S, c.args[k])
  {
    hide IsScoped, HasFetchCode, HasStoreCode, FetchProgram, StoreProgram, AssignsAll;
    ProgramsFrom(S, c, 0);
  }

  // ---------- Types

  /** A type is used as the schema language allows: parameters for a vector only, and bare only if it can be. */
  predicate IsUse(S: Schema, t: TypeUse)
    decreases t
  {
    && (t.bare ==> MayBeBare(S, t.name))
    && (if t.name == Vector then |t.children| == 1 && IsUse(S, t.children[0])
        else IsNumeric(t.name) || t.name in {True, Bool} || IsStringLike(t.name) || t.children == [])
    && (!t.bare && MayBeBare(S, t.name) ==> HasOneConstructor(S, t.name))
  }

  /** One constructor with a number, or none at all */
  predicate HasOneConstructor(S: Schema, name: TypeName) {
    var cs := if name == Vector then S(name).constructors else Supported(S(name).constructors);
    cs == [] || (|cs| == 1 && cs[0].id != 0)
  }

  /** Storing code does not look at what is bare and what the number of a constructor is, but does not know True. */
  predicate IsStoredUse(S: Schema, t: TypeUse)
    decreases t
  {
    && t.name != True
    && (if t.name == Vector then |t.children| == 1 && IsStoredUse(S, t.children[0])
        else IsNumeric(t.name) || t.name == Bool || IsStringLike(t.name) || t.children == [])
    && (t.bare || t.name in {NatVar, Bool} || (t.name == Vector && S(Vector).constructors != [])
        || (t.name != Vector && (!MayBeBare(S, t.name) || Supported(S(t.name).constructors) != [])))
  }

  /** For which uses of types there is code */
  lemma {:induction false} CodeExists(S: Schema, t: TypeUse)
    ensures FullFetchClass(S, t).Some? <==> IsUse(S, t)
    ensures FullStoreClass(S, t).Some? <==> IsStoredUse(S, t)
    decreases t
  {
    if t.name == Vector && |t.children| == 1 {
      CodeExists(S, t.children[0]);
    }
  }
}
