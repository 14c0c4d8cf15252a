/** The filter compiler as implemented: recursive builders that push onto one shared parameter array. */
module FilterCompiler {
  import opened Lists
  import opened Wrappers
  import opened Sql
  import opened FilterSyntax

  type Text = Result<seq<Token>, FilterError>

  class ParamArray {
    var items: seq<Value>

    constructor (items: seq<Value>)
      ensures this.items == items
    {
      this.items := items;
    }

    /** Appends and returns the placeholder number of what was appended. */
    method Push(v: Value) returns (idx: nat)
      modifies this
      ensures items == old(items) + [v] && idx == |old(items)| + 1
    {
      idx := |items| + 1;
      items := items + [v];
    }
  }

  method BuildExpr(sc: Schema, field: string, value: Operand, params: ParamArray) returns (r: Text)
    modifies params
    ensures var e := OperandError(sc, field, value);
            if e.Some? then r == Err(e.value)
            else r == Ok(OperandTokens(Column(sc, field), field in sc.jsonb, value, |old(params.items)|))
                 && params.items == old(params.items) + OperandParams(field in sc.jsonb, value)
    decreases value, 1
  {
    var column := ColumnName(sc, field);
    if column.None? {
      return Err(UnknownField(field));
    }
    var col := column.value;
    match value {
      case Ops(ops) =>
        r := BuildOperatorExpr(sc, field, ops, params);
      case Array(items) =>
        if field in sc.jsonb {
          var idx := params.Push(Json(items));
          return Ok([LP, Leaf(ContainsArray(col, idx)), RP]);
        }
        var idx := params.Push(List(items));
        return Ok([LP, Leaf(Compare(col, Eq, idx)), RP]);
      case Scalar(v) =>
        var idx := params.Push(v);
        return Ok([LP, Leaf(if field in sc.jsonb then ContainsText(col, idx) else Compare(col, Eq, idx)), RP]);
    }
  }

  lemma OpsFail(sc: Schema, field: string, ops: seq<Op>, i: nat)
    requires i < |ops|
    ensures OpsError(sc, field, ops[i..])
            == if OpError(sc, field, ops[i]).Some?
              then OpError(sc, field, ops[i]) else OpsError(sc, field, ops[i + 1..])
  {
    assert ops[i..][0] == ops[i] && ops[i..][1..] == ops[i + 1..];
  }

  /** After `i` operators, what the rest adds to the parameters and the text is all that is missing. */
  ghost predicate OpsBuilt(col: string, jb: bool, ops: seq<Op>, i: nat, before: seq<Value>, items: seq<Value>,
                           clauses: seq<seq<Token>>)
    requires i <= |ops|
  {
    && items + OpsParams(jb, ops[i..]) == before + OpsParams(jb, ops)
    && clauses + OpsTokens(col, jb, ops[i..], |items|) == OpsTokens(col, jb, ops, |before|)
  }

  lemma OpsBuiltNext(col: string, jb: bool, ops: seq<Op>, i: nat, before: seq<Value>, items: seq<Value>,
                     clauses: seq<seq<Token>>)
    requires i < |ops| && OpsBuilt(col, jb, ops, i, before, items, clauses)
    ensures OpsBuilt(col, jb, ops, i + 1, before, items + OpParams(jb, ops[i]),
                     clauses + [OpTokens(col, jb, ops[i], |items|)])
  {
    assert ops[i..][0] == ops[i] && ops[i..][1..] == ops[i + 1..];
    AppendAssociates(items, OpParams(jb, ops[i]), OpsParams(jb, ops[i + 1..]));
    AppendAssociates(clauses, [OpTokens(col, jb, ops[i], |items|)],
                     OpsTokens(col, jb, ops[i + 1..], |items| + |OpParams(jb, ops[i])|));
  }

  lemma OpsBuiltAll(col: string, jb: bool, ops: seq<Op>, before: seq<Value>, items: seq<Value>,
                    clauses: seq<seq<Token>>)
    requires OpsBuilt(col, jb, ops, |ops|, before, items, clauses)
    ensures items == before + OpsParams(jb, ops) && clauses == OpsTokens(col, jb, ops, |before|)
  {
    assert ops[|ops|..] == [];
  }

  method BuildOperatorExpr(sc: Schema, field: string, ops: seq<Op>, params: ParamArray) returns (r: Text)
    requires ColumnName(sc, field).Some?
    modifies params
    ensures var e := OpsError(sc, field, ops);
            if e.Some? then r == Err(e.value)
            else r == Ok(OperandTokens(Column(sc, field), field in sc.jsonb, Ops(ops), |old(params.items)|))
                 && params.items == old(params.items) + OpsParams(field in sc.jsonb, ops)
    decreases ops, 0
  {
    ghost var col, jb := Column(sc, field), field in sc.jsonb;
    var clauses: seq<seq<Token>> := [];
    assert ops[0..] == ops;
    for i := 0 to |ops|
      invariant OpsError(sc, field, ops[i..]) == OpsError(sc, field, ops)
      invariant OpsBuilt(col, jb, ops, i, old(params.items), params.items, clauses)
    {
      OpsFail(sc, field, ops, i);
      OpsBuiltNext(col, jb, ops, i, old(params.items), params.items, clauses);
      var clause := BuildOperator(sc, field, ops[i], params);
      if clause.Err? {
        return clause;
      }
      clauses := clauses + [clause.value];
    }
    OpsBuiltAll(col, jb, ops, old(params.items), params.items, clauses);
    assert ops[|ops|..] == [];
    return Ok(Wrap(Join(CAnd, clauses)));
  }

  /** One operator of an operator object. */
  method BuildOperator(sc: Schema, field: string, op: Op, params: ParamArray) returns (r: Text)
    requires ColumnName(sc, field).Some?
    modifies params
    ensures var e := OpError(sc, field, op);
            if e.Some? then r == Err(e.value)
            else r == Ok(OpTokens(Column(sc, field), field in sc.jsonb, op, |old(params.items)|))
                 && params.items == old(params.items) + OpParams(field in sc.jsonb, op)
    decreases op, 2
  {
    var col := ColumnName(sc, field).value;
    var idx;
    match op {
      case OpNot(operand) =>
        var size := NegatedSize(operand);
        if size.Some? {
          return Ok([LP, Leaf(LengthIsNot(col, size.value)), RP]);
        }
        var inner := BuildExpr(sc, field, operand, params);
        if inner.Err? {
          return inner;
        }
        return Ok([LP, NOT] + inner.value + [RP]);
      case OpGt(v) =>
        idx := params.Push(v);
        return Ok([LP, Leaf(Compare(col, Gt, idx)), RP]);
      case OpGte(v) =>
        idx := params.Push(v);
        return Ok([LP, Leaf(Compare(col, Gte, idx)), RP]);
      case OpLt(v) =>
        idx := params.Push(v);
        return Ok([LP, Leaf(Compare(col, Lt, idx)), RP]);
      case OpLte(v) =>
        idx := params.Push(v);
        return Ok([LP, Leaf(Compare(col, Lte, idx)), RP]);
      case OpNe(v) =>
        if v.Null? {
          return Ok([LP, Leaf(IsNotNull(col)), RP]);
        }
        idx := params.Push(v);
        return Ok([LP, Leaf(Distinct(col, idx)), RP]);
      case OpExists(exists_) =>
        return Ok([LP, Leaf(if exists_ then IsNotNull(col) else IsNull(col)), RP]);
      case OpIn(vs) =>
        if vs == [] {
          return Ok([LP, Leaf(Constant(false)), RP]);
        }
        idx := params.Push(List(vs));
        return Ok([LP, Leaf(AnyOf(col, idx)), RP]);
      case OpNin(vs) =>
        if vs == [] {
          return Ok([LP, Leaf(Constant(true)), RP]);
        }
        idx := params.Push(List(vs));
        return Ok([LP, NOT] + [LP, Leaf(AnyOf(col, idx)), RP] + [RP]);
      case OpRegex(pattern, insensitive) =>
        idx := params.Push(Text(pattern));
        return Ok([LP, Leaf(Matches(col, idx, insensitive)), RP]);
      case OpSize(n) =>
        return Ok([LP, Leaf(LengthIs(col, n)), RP]);
      case OpOther(name) =>
        return Err(UnsupportedOperator(name));
    }
  }

  lemma EntriesFrom(sc: Schema, es: seq<Entry>, i: nat, n: nat)
    requires i < |es|
    ensures EntriesClauses(sc, es[i..], n)
            == EntryClauses(sc, es[i], n) + EntriesClauses(sc, es[i + 1..], n + |EntryParams(sc, es[i])|)
    ensures EntriesParams(sc, es[i..]) == EntryParams(sc, es[i]) + EntriesParams(sc, es[i + 1..])
    ensures EntriesError(sc, es[i..])
            == if EntryError(sc, es[i]).Some? then EntryError(sc, es[i]) else EntriesError(sc, es[i + 1..])
  {
    assert es[i..][0] == es[i] && es[i..][1..] == es[i + 1..];
  }

  method BuildWhere(sc: Schema, f: Filter, params: ParamArray) returns (r: Text)
    modifies params
    ensures var e := EntriesError(sc, f.entries);
            if e.Some? then r == Err(e.value)
            else r == Ok(Tokens(sc, f, |old(params.items)|)) && params.items == old(params.items) + Params(sc, f)
    decreases f.entries, 1
  {
    var es := f.entries;
    ghost var n := |params.items|;
    var clauses: seq<seq<Token>> := [];
    for i := 0 to |es|
      invariant EntriesError(sc, es[i..]) == EntriesError(sc, es)
      invariant params.items + EntriesParams(sc, es[i..]) == old(params.items) + EntriesParams(sc, es)
      invariant clauses + EntriesClauses(sc, es[i..], |params.items|) == EntriesClauses(sc, es, n)
    {
      ghost var items := params.items;
      EntriesFrom(sc, es, i, |items|);
      var more := BuildEntry(sc, es[i], params);
      if more.Err? {
        return Err(more.error);
      }
      AppendAssociates(items, EntryParams(sc, es[i]), EntriesParams(sc, es[i + 1..]));
      AppendAssociates(clauses, more.value, EntriesClauses(sc, es[i + 1..], |params.items|));
      clauses := clauses + more.value;
    }
    assert es[|es|..] == [];
    assert clauses == EntriesClauses(sc, es, n);
    return Ok(Join(CAnd, clauses));
  }

  /** The clauses one entry of a filter contributes. */
  method BuildEntry(sc: Schema, e: Entry, params: ParamArray) returns (r: Result<seq<seq<Token>>, FilterError>)
    modifies params
    ensures var err := EntryError(sc, e);
            if err.Some? then r == Err(err.value)
            else r == Ok(EntryClauses(sc, e, |old(params.items)|))
                 && params.items == old(params.items) + EntryParams(sc, e)
    decreases e, 2
  {
    match e {
      case AnyOfThese(subs) =>
        r := BuildSubs(sc, subs, true, params);
        if r.Err? {
          return;
        }
        if |r.value| > 0 {
          r := Ok([Wrap(Join(COr, r.value))]);
        }
      case AllOfThese(subs) =>
        r := BuildSubs(sc, subs, false, params);
      case Field(name, operand) =>
        var clause := BuildExpr(sc, name, operand, params);
        r := if clause.Err? then Err(clause.error) else Ok([clause.value]);
    }
  }

  /** What one sub-filter contributes to the clauses. */
  function SubText(ts: seq<Token>, keepEmpty: bool): seq<seq<Token>> {
    if ts == [] && !keepEmpty then [] else [Wrap(ts)]
  }

  lemma SubsFrom(sc: Schema, subs: seq<Filter>, i: nat, n: nat, keepEmpty: bool)
    requires i < |subs|
    ensures SubClauses(sc, subs[i..], n, keepEmpty)
         == SubText(Tokens(sc, subs[i], n), keepEmpty) + SubClauses(sc, subs[i + 1..], n + |Params(sc, subs[i])|,
                                                                    keepEmpty)
    ensures SubsParams(sc, subs[i..]) == Params(sc, subs[i]) + SubsParams(sc, subs[i + 1..])
    ensures var e := EntriesError(sc, subs[i].entries);
            SubsError(sc, subs[i..]) == if e.Some? then e else SubsError(sc, subs[i + 1..])
  {
    assert subs[i..][0] == subs[i] && subs[i..][1..] == subs[i + 1..];
  }

  method BuildSub(sc: Schema, sub: Filter, keepEmpty: bool, params: ParamArray)
      returns (r: Result<seq<seq<Token>>, FilterError>)
    modifies params
    ensures var e := EntriesError(sc, sub.entries);
            if e.Some? then r == Err(e.value)
            else r == Ok(SubText(Tokens(sc, sub, |old(params.items)|), keepEmpty))
                 && params.items == old(params.items) + Params(sc, sub)
    decreases sub, 0
  {
    var where_ := BuildWhere(sc, sub, params);
    if where_.Err? {
      return Err(where_.error);
    }
    r := Ok(if where_.value != [] || keepEmpty then [Wrap(where_.value)] else []);
  }

  /** Sub-filters compiled in order, each in parentheses; empty ones are skipped unless `keepEmpty`. */
  method BuildSubs(sc: Schema, subs: seq<Filter>, keepEmpty: bool, params: ParamArray)
      returns (r: Result<seq<seq<Token>>, FilterError>)
    modifies params
    ensures var e := SubsError(sc, subs);
            if e.Some? then r == Err(e.value)
            else r == Ok(SubClauses(sc, subs, |old(params.items)|, keepEmpty))
                 && params.items == old(params.items) + SubsParams(sc, subs)
                 && (keepEmpty ==> |r.value| == |subs|)
    decreases subs, 0
  {
    ghost var n := |params.items|;
    var clauses: seq<seq<Token>> := [];
    for i := 0 to |subs|
      invariant SubsError(sc, subs[i..]) == SubsError(sc, subs)
      invariant params.items + SubsParams(sc, subs[i..]) == old(params.items) + SubsParams(sc, subs)
      invariant clauses + SubClauses(sc, subs[i..], |params.items|, keepEmpty) == SubClauses(sc, subs, n, keepEmpty)
      invariant keepEmpty ==> |clauses| == i
    {
      ghost var items := params.items;
      SubsFrom(sc, subs, i, |items|, keepEmpty);
      var sub := BuildSub(sc, subs[i], keepEmpty, params);
      if sub.Err? {
        return sub;
      }
      AppendAssociates(items, Params(sc, subs[i]), SubsParams(sc, subs[i + 1..]));
      AppendAssociates(clauses, sub.value, SubClauses(sc, subs[i + 1..], |params.items|, keepEmpty));
      clauses := clauses + sub.value;
    }
    assert subs[|subs|..] == [];
    assert clauses == SubClauses(sc, subs, n, keepEmpty);
    return Ok(clauses);
  }
}
