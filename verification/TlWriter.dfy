/** The two loops that emit the fetch and the store function of a constructor.
    They carry `vars`, whose entries record is_stored, from field to field. */
module TlWriter {
  import opened Options
  import opened TlSchema
  import opened TlCode

  /** The variables with is_stored */
  function StoredIn(vars: seq<bool>): (stored: set<nat>)
    ensures forall v :: v in stored ==> v < |vars|
  {
    set v: nat | v < |vars| && vars[v]
  }

  lemma MarkStored(vars: seq<bool>, v: nat)
    requires v < |vars|
    ensures StoredIn(vars[v := true]) == StoredIn(vars) + {v}
  {
  }

  /** gen_field_fetch */
  method GenFieldFetch(S: Schema, a: Arg, vars: array<bool>) returns (stmt: Option<FetchStmt>)
    modifies vars
    ensures stmt == FieldFetch(S, vars.Length, a, old(StoredIn(vars[..])))
    ensures stmt.Some? ==> StoredIn(vars[..]) == StoredAfter(a, old(StoredIn(vars[..])))
  {
    if a.existVarNum >= 0 {
      if a.existVarNum >= vars.Length || !vars[a.existVarNum] {
        return None;
      }
      if a.varNum < 0 && a.typ.bare && a.typ.name == True {
        return if IsTypeBare(S, True) then Some(FetchBit(a.existVarNum, a.existVarBit)) else None;
      }
    }
    var code := FullFetchClass(S, a.typ);
    if code.None? {
      return None;
    }
    if a.varNum < 0 {
      return Some(FetchField(FieldGuard(a), code.value));
    }
    if a.typ.name != NatVar || a.varNum >= vars.Length || vars[a.varNum] {
      return None;
    }
    MarkStored(vars[..], a.varNum);
    vars[a.varNum] := true;
    return Some(FetchVar(FieldGuard(a), a.varNum, code.value));
  }

  /** One field moves from the bits still to come to those collected. */
  lemma BitsMove(args: seq<Arg>, variable: nat, i: nat, bits: seq<(nat, nat)>)
    requires i < |args|
    ensures var a := args[i];
            var more := if a.existVarNum == variable && a.typ.name == True then bits + [(i, a.existVarBit)] else bits;
            more + TrueBits(args, variable, i + 1) == bits + TrueBits(args, variable, i)
  {
    var later := TrueBits(args, variable, i + 1);
    assert bits + ([(i, args[i].existVarBit)] + later) == bits + [(i, args[i].existVarBit)] + later;
    assert [] + later == later;
  }

  /** The loop of gen_field_store over the other fields */
  method OrTrueFields(args: seq<Arg>, variable: nat) returns (bits: seq<(nat, nat)>)
    ensures bits == TrueBits(args, variable, 0)
  {
    bits := [];
    for i := 0 to |args|
      invariant bits + TrueBits(args, variable, i) == TrueBits(args, variable, 0)
    {
      var other := args[i];
      BitsMove(args, variable, i, bits);
      hide TrueBits;
      if other.existVarNum == variable && other.typ.name == True {
        bits := bits + [(i, other.existVarBit)];
      }
    }
  }

  /** gen_field_store */
  method GenFieldStore(S: Schema, a: Arg, args: seq<Arg>, vars: array<bool>) returns (stmt: Option<StoreStmt>)
    modifies vars
    ensures stmt == FieldStore(S, vars.Length, args, a, old(StoredIn(vars[..])))
    ensures stmt.Some? ==> StoredIn(vars[..]) == StoredAfter(a, old(StoredIn(vars[..])))
  {
    if a.existVarNum >= 0 {
      if a.existVarNum >= vars.Length || !vars[a.existVarNum] {
        return None;
      }
      if a.varNum < 0 && a.typ.name == True {
        return Some(StoreNothing);
      }
    }
    var code := FullStoreClass(S, a.typ);
    if code.None? {
      return None;
    }
    if a.varNum < 0 {
      return Some(StoreField(FieldGuard(a), code.value));
    }
    if a.typ.name != NatVar || a.varNum >= vars.Length || vars[a.varNum] {
      return None;
    }
    var bits := OrTrueFields(args, a.varNum);
    MarkStored(vars[..], a.varNum);
    vars[a.varNum] := true;
    return Some(StoreVar(FieldGuard(a), a.varNum, bits, code.value));
  }

  method CheckAllStored(c: Combinator, vars: array<bool>) returns (ok: bool)
    requires vars.Length == c.varCount
    ensures ok == AllStored(c, StoredIn(vars[..]))
  {
    for i := 0 to vars.Length
      invariant forall v :: 0 <= v < i ==> vars[v]
    {
      if !vars[i] {
        assert i !in StoredIn(vars[..]);
        return false;
      }
    }
    return true;
  }

  /** The statements emitted so far, followed by those still to come */
  function Prepend<T>(done: seq<T>, rest: Option<seq<T>>): Option<seq<T>> {
    var stmts :- rest;
    Some(done + stmts)
  }

  lemma PrependMoves<T>(done: seq<T>, x: T, rest: seq<T>)
    ensures Prepend(done, Some([x] + rest)) == Prepend(done + [x], Some(rest))
    ensures Prepend(done, Some([])) == Some(done)
    ensures Prepend([], Some(rest)) == Some(rest)
  {
    assert done + ([x] + rest) == done + [x] + rest;
    assert done + [] == done && [] + rest == rest;
  }

  /** write_constructor_fetch */
  method WriteConstructorFetch(S: Schema, c: Combinator) returns (program: Option<seq<FetchStmt>>)
    ensures program == FetchProgram(S, c, 0, {})
  {
    var vars := new bool[c.varCount](_ => false);
    var stmts: seq<FetchStmt> := [];
    assert StoredIn(vars[..]) == {};
    assert Prepend(stmts, FetchProgram(S, c, 0, {})) == FetchProgram(S, c, 0, {}) by {
      if FetchProgram(S, c, 0, {}).Some? {
        assert [] + FetchProgram(S, c, 0, {}).value == FetchProgram(S, c, 0, {}).value;
      }
    }
    for i := 0 to |c.args|
      invariant FetchProgram(S, c, 0, {}) == Prepend(stmts, FetchProgram(S, c, i, StoredIn(vars[..])))
    {
      var stmt := GenFieldFetch(S, c.args[i], vars);
      if stmt.None? {
        return None;
      }
      ghost var later := FetchProgram(S, c, i + 1, StoredIn(vars[..]));
      if later.Some? {
        PrependMoves(stmts, stmt.value, later.value);
      }
      stmts := stmts + [stmt.value];
    }
    var complete := CheckAllStored(c, vars);
    assert stmts + [] == stmts;
    return if complete then Some(stmts) else None;
  }

  /** write_constructor_store */
  method WriteConstructorStore(S: Schema, c: Combinator) returns (program: Option<seq<StoreStmt>>)
    ensures program == StoreProgram(S, c, 0, {})
  {
    var vars := new bool[c.varCount](_ => false);
    var stmts: seq<StoreStmt> := [];
    assert StoredIn(vars[..]) == {};
    assert Prepend(stmts, StoreProgram(S, c, 0, {})) == StoreProgram(S, c, 0, {}) by {
      if StoreProgram(S, c, 0, {}).Some? {
        assert [] + StoreProgram(S, c, 0, {}).value == StoreProgram(S, c, 0, {}).value;
      }
    }
    for i := 0 to |c.args|
      invariant StoreProgram(S, c, 0, {}) == Prepend(stmts, StoreProgram(S, c, i, StoredIn(vars[..])))
    {
      var stmt := GenFieldStore(S, c.args[i], c.args, vars);
      if stmt.None? {
        return None;
      }
      ghost var later := StoreProgram(S, c, i + 1, StoredIn(vars[..]));
      if later.Some? {
        PrependMoves(stmts, stmt.value, later.value);
      }
      stmts := stmts + [stmt.value];
    }
    var complete := CheckAllStored(c, vars);
    assert stmts + [] == stmts;
    return if complete then Some(stmts) else None;
  }
}
