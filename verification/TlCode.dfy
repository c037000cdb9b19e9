/** The code that the C++ writer emits for fields and types, as two small
    languages, and the two generators that emit it. A generator answers None
    where the source stops on a failed assertion. */
module TlCode {
  import opened Options
  import opened TlSchema

  /** The parser classes of tl_object_parse.h. `FTrue` is emitted but not defined there. */
  datatype FetchCode =
    | FNumber(width: nat)
    | FTrue
    | FBool
    | FString
    | FVector(elem: FetchCode)
    | FObject(typ: TypeName)
    | FBoxed(elem: FetchCode, id: int32id)

  /** The storer classes of tl_object_store.h */
  datatype StoreCode =
    | SBinary
    | SBool
    | SString
    | SVector(elem: StoreCode)
    | SObject
    | SBoxed(elem: StoreCode, id: int32id)
    | SBoxedUnknown(elem: StoreCode)

  /** Bytes of a number of the C++ type that stands for a numeric built-in */
  function Width(name: TypeName): nat {
    match name
    case NatVar => 4
    case Int => 4
    case Int32 => 4
    case Int53 => 8
    case Int64 => 8
    case Long => 8
    case Double => 8
    case Int128 => 16
    case Int256 => 32
    case Int512 => 64
    case _ => 0
  }

  predicate IsNumeric(name: TypeName) {
    Width(name) > 0
  }

  predicate IsStringLike(name: TypeName) {
    name in {String, Bytes, SecureString, SecureBytes}
  }

  // ---------- Types

  function FetchClass(S: Schema, t: TypeUse): Option<FetchCode>
    decreases t, 0
  {
    if IsNumeric(t.name) then Some(FNumber(Width(t.name)))
    else if t.name == True then Some(FTrue)
    else if t.name == Bool then Some(FBool)
    else if IsStringLike(t.name) then Some(FString)
    else if t.name == Vector then
      if |t.children| != 1 then None else
      var elem :- FullFetchClass(S, t.children[0]);
      Some(FVector(elem))
    else if t.children != [] then None
    else Some(FObject(t.name))
  }

  function FullFetchClass(S: Schema, t: TypeUse): Option<FetchCode>
    decreases t, 1
  {
    var code :- FetchClass(S, t);
    if t.bare then
      if IsTypeBare(S, t.name) then Some(code) else None
    else if !IsTypeBare(S, t.name) then Some(code)
    else
      var cs := if IsBuiltInComplex(t.name) then S(t.name).constructors else Supported(S(t.name).constructors);
      if cs == [] then Some(code)
      else if |cs| > 1 || cs[0].id == 0 then None
      else Some(FBoxed(code, cs[0].id))
  }

  function StoreClass(S: Schema, t: TypeUse): Option<StoreCode>
    decreases t, 0
  {
    if IsNumeric(t.name) then Some(SBinary)
    else if t.name == Bool then Some(SBool)
    else if t.name == True then None
    else if IsStringLike(t.name) then Some(SString)
    else if t.name == Vector then
      if |t.children| != 1 then None else
      var elem :- FullStoreClass(S, t.children[0]);
      Some(SVector(elem))
    else if t.children != [] then None
    else Some(SObject)
  }

  function FullStoreClass(S: Schema, t: TypeUse): Option<StoreCode>
    decreases t, 1
  {
    var code :- StoreClass(S, t);
    if t.bare || t.name == NatVar || t.name == Bool then Some(code)
    else if IsBuiltInComplex(t.name) then
      if S(t.name).constructors == [] then None
      else Some(SBoxed(code, S(t.name).constructors[0].id))
    else if !IsTypeBare(S, t.name) then Some(SBoxedUnknown(code))
    else
      var cs := Supported(S(t.name).constructors);
      if cs == [] then None else Some(SBoxed(code, cs[0].id))
  }

  // ---------- Fields

  /** if (var & (1 << bit)) */
  datatype Guard = Always | IfBit(variable: nat, bit: nat)

  /** What is emitted for one field when parsing. The fields of a combinator are
      emitted in order, one statement each. */
  datatype FetchStmt =
    | FetchField(guard: Guard, code: FetchCode)
    | FetchVar(guard: Guard, variable: nat, code: FetchCode)
    | FetchBit(variable: nat, bit: nat)

  /** `trueBits` lists the True fields that are or-ed into a flags word: field and bit */
  datatype StoreStmt =
    | StoreNothing
    | StoreField(guard: Guard, code: StoreCode)
    | StoreVar(guard: Guard, variable: nat, trueBits: seq<(nat, nat)>, code: StoreCode)

  function GuardOf(a: Arg): Guard
    requires a.existVarNum >= 0
  {
    IfBit(a.existVarNum, a.existVarBit)
  }

  function FieldGuard(a: Arg): Guard {
    if a.existVarNum >= 0 then GuardOf(a) else Always
  }

  /** The variables assigned after a field: `stored` is the set of variables with is_stored. */
  function StoredAfter(a: Arg, stored: set<nat>): set<nat> {
    if a.varNum >= 0 then stored + {a.varNum} else stored
  }

  /** gen_field_fetch with parser_type 1; without variables it emits the same
      statements as parser_type 0. */
  function FieldFetch(S: Schema, varCount: nat, a: Arg, stored: set<nat>): Option<FetchStmt> {
    if a.existVarNum >= 0 && a.existVarNum !in stored then None
    else if a.existVarNum >= 0 && a.varNum < 0 && a.typ.bare && a.typ.name == True then
      if IsTypeBare(S, True) then Some(FetchBit(a.existVarNum, a.existVarBit)) else None
    else
      var code :- FullFetchClass(S, a.typ);
      if a.varNum < 0 then Some(FetchField(FieldGuard(a), code))
      else if a.typ.name != NatVar || a.varNum >= varCount || a.varNum in stored then None
      else Some(FetchVar(FieldGuard(a), a.varNum, code))
  }

  /** The True fields, from field i on, that depend on a variable */
  function TrueBits(args: seq<Arg>, variable: nat, i: nat): (bits: seq<(nat, nat)>)
    requires i <= |args|
    ensures forall p :: p in bits ==> p.0 < |args|
    decreases |args| - i
  {
    if i == |args| then []
    else
      (if args[i].existVarNum == variable && args[i].typ.name == True then [(i, args[i].existVarBit)] else [])
      + TrueBits(args, variable, i + 1)
  }

  /** gen_field_store with storer_type 0 */
  function FieldStore(S: Schema, varCount: nat, args: seq<Arg>, a: Arg, stored: set<nat>): Option<StoreStmt> {
    if a.existVarNum >= 0 && a.existVarNum !in stored then None
    else if a.existVarNum >= 0 && a.varNum < 0 && a.typ.name == True then Some(StoreNothing)
    else
      var code :- FullStoreClass(S, a.typ);
      if a.varNum < 0 then Some(StoreField(FieldGuard(a), code))
      else if a.typ.name != NatVar || a.varNum >= varCount || a.varNum in stored then None
      else Some(StoreVar(FieldGuard(a), a.varNum, TrueBits(args, a.varNum, 0), code))
  }

  /** Checked when the function is closed */
  predicate AllStored(c: Combinator, stored: set<nat>) {
    forall v: nat | v < c.varCount :: v in stored
  }

  /** The statements emitted for the fields of `c` from field i on */
  function FetchProgram(S: Schema, c: Combinator, i: nat, stored: set<nat>): (r: Option<seq<FetchStmt>>)
    requires i <= |c.args|
    ensures r.Some? ==> |r.value| == |c.args| - i
    decreases |c.args| - i
  {
    if i == |c.args| then
      if AllStored(c, stored) then Some([]) else None
    else
      var stmt :- FieldFetch(S, c.varCount, c.args[i], stored);
      var stmts :- FetchProgram(S, c, i + 1, StoredAfter(c.args[i], stored));
      Some([stmt] + stmts)
  }

  function StoreProgram(S: Schema, c: Combinator, i: nat, stored: set<nat>): (r: Option<seq<StoreStmt>>)
    requires i <= |c.args|
    ensures r.Some? ==> |r.value| == |c.args| - i
    decreases |c.args| - i
  {
    if i == |c.args| then
      if AllStored(c, stored) then Some([]) else None
    else
      var stmt :- FieldStore(S, c.varCount, c.args, c.args[i], stored);
      var stmts :- StoreProgram(S, c, i + 1, StoredAfter(c.args[i], stored));
      Some([stmt] + stmts)
  }
}
