/** TL schemas as the code generator sees them, and the predicates on types that
    both generators consult. */
module TlSchema {

  /** `NatVar` is the type written `#`; `Named` is every type that is not built in. */
  datatype TypeName =
    | NatVar
    | True
    | Bool
    | Int
    | Long
    | Double
    | String
    | Int32
    | Int53
    | Int64
    | Int128
    | Int256
    | Int512
    | Bytes
    | SecureString
    | SecureBytes
    | Vector
    | Named(id: nat)

  /** A use of a type (tl_tree_type): boxed unless `bare` */
  datatype TypeUse = TypeUse(name: TypeName, bare: bool, children: seq<TypeUse>)

  /** A field of a combinator. `varNum` and `existVarNum` are -1 when absent. */
  datatype Arg = Arg(typ: TypeUse, varNum: int, existVarNum: int, existVarBit: nat)

  type int32id = n: nat | n < 0x1_0000_0000

  /** `supported` is the answer of is_combinator_supported. */
  datatype Combinator = Combinator(id: int32id, varCount: nat, args: seq<Arg>, supported: bool)

  datatype TlType = TlType(constructors: seq<Combinator>)

  type Schema = TypeName -> TlType

  predicate IsBuiltInSimple(name: TypeName) {
    !name.NatVar? && !name.Vector? && !name.Named?
  }

  predicate IsBuiltInComplex(name: TypeName) {
    name == Vector
  }

  /** The supported constructors, in schema order */
  function Supported(cs: seq<Combinator>): seq<Combinator> {
    if cs == [] then []
    else (if cs[0].supported then [cs[0]] else []) + Supported(cs[1..])
  }

  /** Those that are supported and no others, none of them moved */
  lemma {:induction false} SupportedIs(cs: seq<Combinator>, c: Combinator)
    ensures c in Supported(cs) <==> c in cs && c.supported
  {
    if cs != [] {
      SupportedIs(cs[1..], c);
      assert c in cs <==> c == cs[0] || c in cs[1..];
    }
  }

  lemma {:induction false} SupportedConcat(cs: seq<Combinator>, more: seq<Combinator>)
    ensures Supported(cs + more) == Supported(cs) + Supported(more)
  {
    hide Supported;
    if cs == [] {
      NoneSupported();
      assert [] + more == more && [] + Supported(more) == Supported(more);
    } else {
      var c, others := cs[0], cs[1..];
      SupportedConcat(others, more);
      SupportedNext(c, others);
      SupportedNext(c, others + more);
      assert cs == [c] + others && cs + more == [c] + (others + more);
    }
  }

  lemma NoneSupported()
    ensures Supported([]) == []
  {
  }

  lemma SupportedNext(c: Combinator, cs: seq<Combinator>)
    ensures Supported([c] + cs) == if c.supported then [c] + Supported(cs) else Supported(cs)
  {
    assert ([c] + cs)[1..] == cs;
    assert [] + Supported(cs) == Supported(cs);
  }

  function SimpleConstructors(S: Schema, name: TypeName): nat {
    |Supported(S(name).constructors)|
  }

  predicate IsTypeBare(S: Schema, name: TypeName) {
    || SimpleConstructors(S, name) <= 1
    || (IsBuiltInSimple(name) && name != Bool)
    || IsBuiltInComplex(name)
  }
}
