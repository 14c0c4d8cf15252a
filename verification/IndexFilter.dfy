/** The identity index's own, flat filter builder: bare clauses joined by AND, with no parentheses but those of
    a negated list. */
module IndexFilter {
  import opened Wrappers
  import opened Lists
  import opened Sql
  import opened FilterSyntax
  import opened FilterTheorems
  import opened FilterCompiler

  datatype Part = Part(field: string, operand: Operand)

  type Columns = map<string, string>

  /** A field without a column stands for itself. */
  function ColumnOf(columns: Columns, field: string): string {
    if field in columns then columns[field] else field
  }

  /** One emitted clause. */
  datatype Clause = Clause(atom: Atom, negated: bool)

  function Text(c: Clause): seq<Token> {
    if c.negated then [NOT, LP, Leaf(c.atom), RP] else [Leaf(c.atom)]
  }

  function Tree(c: Clause): Expr {
    if c.negated then ENot(ELeaf(c.atom)) else ELeaf(c.atom)
  }

  function Texts(cs: seq<Clause>): (r: seq<seq<Token>>)
    ensures |r| == |cs|
  {
    if cs == [] then [] else [Text(cs[0])] + Texts(cs[1..])
  }

  // ---------------------------------------------------------------------------------------
  // What is emitted
  // ---------------------------------------------------------------------------------------

  /** The operators this builder has no case for. */
  function Refused(op: Op): Option<string> {
    match op
    case OpExists(_) => Some("$exists")
    case OpRegex(_, _) => Some("$regex")
    case OpSize(_) => Some("$size")
    case OpNot(_) => Some("$not")
    case OpOther(name) => Some(name)
    case _ => None
  }

  function OpValues(op: Op): seq<Value> {
    match op
    case OpGt(v) => [v] case OpGte(v) => [v] case OpLt(v) => [v] case OpLte(v) => [v]
    case OpNe(v) => if v.Null? then [] else [v]
    case OpIn(vs) => [List(vs)]
    case OpNin(vs) => [List(vs)]
    case _ => []
  }

  function OpClause(col: string, op: Op, n: nat): Clause {
    match op
    case OpGt(_) => Clause(Compare(col, Gt, n + 1), false)
    case OpGte(_) => Clause(Compare(col, Gte, n + 1), false)
    case OpLt(_) => Clause(Compare(col, Lt, n + 1), false)
    case OpLte(_) => Clause(Compare(col, Lte, n + 1), false)
    case OpNe(v) => Clause(if v.Null? then IsNotNull(col) else Compare(col, Ne, n + 1), false)
    case OpIn(_) => Clause(AnyOf(col, n + 1), false)
    case OpNin(_) => Clause(AnyOf(col, n + 1), true)
    case _ => Clause(Constant(false), false)
  }

  /** Clauses emitted one item after the other, each numbered from the values pushed before it. */
  function Emitted<P>(items: seq<P>, emit: (P, nat) -> seq<Clause>, values: P -> seq<Value>, n: nat): seq<Clause> {
    if items == [] then []
    else
      var last := |items| - 1;
      Emitted(items[..last], emit, values, n) + emit(items[last], n + |Collected(items[..last], values)|)
  }

  function Collected<P>(items: seq<P>, values: P -> seq<Value>): seq<Value> {
    if items == [] then [] else Collected(items[..|items| - 1], values) + values(items[|items| - 1])
  }

  function FirstError<P>(items: seq<P>, check: P -> Option<FilterError>): Option<FilterError> {
    if items == [] then None
    else
      var earlier := FirstError(items[..|items| - 1], check);
      if earlier.Some? then earlier else check(items[|items| - 1])
  }

  function OpRefused(op: Op): Option<FilterError> {
    var name := Refused(op);
    if name.Some? then Some(UnsupportedOperator(name.value)) else None
  }

  function OpEmitter(col: string): (Op, nat) -> seq<Clause> {
    (op: Op, n: nat) => [OpClause(col, op, n)]
  }

  function OpsClauses(col: string, ops: seq<Op>, n: nat): seq<Clause> {
    Emitted(ops, OpEmitter(col), OpValues, n)
  }

  function PartClauses(columns: Columns, p: Part, n: nat): seq<Clause> {
    match p.operand
    case Scalar(_) => [Clause(Compare(ColumnOf(columns, p.field), Eq, n + 1), false)]
    case Array(_) => []
    case Ops(ops) => OpsClauses(ColumnOf(columns, p.field), ops, n)
  }

  function PartValues(p: Part): seq<Value> {
    match p.operand
    case Scalar(v) => [v]
    case Array(_) => []
    case Ops(ops) => Collected(ops, OpValues)
  }

  /** An array is taken for an object whose first operator is called "0". */
  function PartRefused(p: Part): Option<FilterError> {
    match p.operand
    case Scalar(_) => None
    case Array(items) => if items == [] then None else Some(UnsupportedOperator("0"))
    case Ops(ops) => FirstError(ops, OpRefused)
  }

  function PartEmitter(columns: Columns): (Part, nat) -> seq<Clause> {
    (p: Part, n: nat) => PartClauses(columns, p, n)
  }

  function Clauses(columns: Columns, parts: seq<Part>, n: nat): seq<Clause> {
    Emitted(parts, PartEmitter(columns), PartValues, n)
  }

  function Values(parts: seq<Part>): seq<Value> {
    Collected(parts, PartValues)
  }

  function FirstRefused(parts: seq<Part>): Option<FilterError> {
    FirstError(parts, PartRefused)
  }

  lemma OneMore<P>(items: seq<P>, emit: (P, nat) -> seq<Clause>, values: P -> seq<Value>,
                   check: P -> Option<FilterError>, i: nat, n: nat)
    requires i < |items|
    ensures Emitted(items[..i + 1], emit, values, n)
         == Emitted(items[..i], emit, values, n) + emit(items[i], n + |Collected(items[..i], values)|)
    ensures Collected(items[..i + 1], values) == Collected(items[..i], values) + values(items[i])
    ensures FirstError(items[..i], check).None? ==> FirstError(items[..i + 1], check) == check(items[i])
  {
    assert items[..i + 1][..i] == items[..i];
  }

  lemma PartEmits(columns: Columns, p: Part, n: nat)
    ensures PartEmitter(columns)(p, n) == PartClauses(columns, p, n)
  {
  }

  lemma OpEmits(col: string, op: Op, n: nat)
    ensures OpEmitter(col)(op, n) == [OpClause(col, op, n)]
  {
  }

  lemma Appended<P>(items: seq<P>, emit: (P, nat) -> seq<Clause>, values: P -> seq<Value>, i: nat, n: nat,
                    done: seq<Clause>, more: seq<Clause>)
    requires i < |items| && done == Emitted(items[..i], emit, values, n)
    requires more == emit(items[i], n + |Collected(items[..i], values)|)
    ensures done + more == Emitted(items[..i + 1], emit, values, n)
  {
    OneMore(items, emit, values, p => None, i, n);
  }

  /** The first error stays the error, whatever follows. */
  lemma {:induction false} FirstErrorStays<P>(items: seq<P>, check: P -> Option<FilterError>, i: nat)
    requires i <= |items| && FirstError(items[..i], check).Some?
    ensures FirstError(items, check) == FirstError(items[..i], check)
    decreases |items|
  {
    if i == |items| {
      assert items[..i] == items;
    } else {
      assert items[..|items| - 1][..i] == items[..i];
      FirstErrorStays(items[..|items| - 1], check, i);
    }
  }

  // ---------------------------------------------------------------------------------------
  // The builder
  // ---------------------------------------------------------------------------------------

  method BuildIndexOperator(col: string, op: Op, params: ParamArray) returns (r: Result<Clause, FilterError>)
    modifies params
    ensures if Refused(op).Some? then r == Err(UnsupportedOperator(Refused(op).value))
            else r == Ok(OpClause(col, op, |old(params.items)|)) && params.items == old(params.items) + OpValues(op)
  {
    match op {
      case OpGt(v) => var idx := params.Push(v); r := Ok(Clause(Compare(col, Gt, idx), false));
      case OpGte(v) => var idx := params.Push(v); r := Ok(Clause(Compare(col, Gte, idx), false));
      case OpLt(v) => var idx := params.Push(v); r := Ok(Clause(Compare(col, Lt, idx), false));
      case OpLte(v) => var idx := params.Push(v); r := Ok(Clause(Compare(col, Lte, idx), false));
      case OpNe(v) =>
        if v.Null? {
          return Ok(Clause(IsNotNull(col), false));
        }
        var idx := params.Push(v);
        r := Ok(Clause(Compare(col, Ne, idx), false));
      case OpIn(vs) => var idx := params.Push(List(vs)); r := Ok(Clause(AnyOf(col, idx), false));
      case OpNin(vs) => var idx := params.Push(List(vs)); r := Ok(Clause(AnyOf(col, idx), true));
      case _ => r := Err(UnsupportedOperator(Refused(op).value));
    }
  }

  /** One more operator, its clause appended to those before it. */
  method AppendOperator(col: string, ops: seq<Op>, i: nat, clauses: seq<Clause>, params: ParamArray,
                        ghost before: seq<Value>)
      returns (r: Result<seq<Clause>, FilterError>)
    requires i < |ops| && FirstError(ops[..i], OpRefused).None?
    requires clauses == OpsClauses(col, ops[..i], |before|) && params.items == before + Collected(ops[..i], OpValues)
    modifies params
    ensures var e := FirstError(ops[..i + 1], OpRefused);
            if e.Some? then r == Err(e.value)
            else r == Ok(OpsClauses(col, ops[..i + 1], |before|))
                 && params.items == before + Collected(ops[..i + 1], OpValues)
  {
    OneMore(ops, OpEmitter(col), OpValues, OpRefused, i, |before|);
    ghost var n := |before| + |Collected(ops[..i], OpValues)|;
    assert n == |params.items|;
    var clause := BuildIndexOperator(col, ops[i], params);
    OpEmits(col, ops[i], n);
    if clause.Err? {
      return Err(clause.error);
    }
    AppendAssociates(before, Collected(ops[..i], OpValues), OpValues(ops[i]));
    Appended(ops, OpEmitter(col), OpValues, i, |before|, clauses, [clause.value]);
    r := Ok(clauses + [clause.value]);
  }

  method BuildIndexOperators(col: string, ops: seq<Op>, params: ParamArray)
      returns (r: Result<seq<Clause>, FilterError>)
    modifies params
    ensures var e := FirstError(ops, OpRefused);
            if e.Some? then r == Err(e.value)
            else r == Ok(OpsClauses(col, ops, |old(params.items)|))
                 && params.items == old(params.items) + Collected(ops, OpValues)
  {
    var clauses: seq<Clause> := [];
    AppendNothing(params.items);
    for i := 0 to |ops|
      invariant clauses == OpsClauses(col, ops[..i], |old(params.items)|)
      invariant params.items == old(params.items) + Collected(ops[..i], OpValues)
      invariant FirstError(ops[..i], OpRefused).None?
    {
      var more := AppendOperator(col, ops, i, clauses, params, old(params.items));
      if more.Err? {
        FirstErrorStays(ops, OpRefused, i + 1);
        return Err(more.error);
      }
      clauses := more.value;
    }
    assert ops[..|ops|] == ops;
    r := Ok(clauses);
  }

  method BuildIndexPart(columns: Columns, p: Part, params: ParamArray) returns (r: Result<seq<Clause>, FilterError>)
    modifies params
    ensures var e := PartRefused(p);
            if e.Some? then r == Err(e.value)
            else r == Ok(PartClauses(columns, p, |old(params.items)|))
                 && params.items == old(params.items) + PartValues(p)
  {
    var col := ColumnOf(columns, p.field);
    match p.operand {
      case Scalar(v) =>
        var idx := params.Push(v);
        r := Ok([Clause(Compare(col, Eq, idx), false)]);
      case Array(items) =>
        AppendNothing(params.items);
        r := if items == [] then Ok([]) else Err(UnsupportedOperator("0"));
      case Ops(ops) =>
        r := BuildIndexOperators(col, ops, params);
    }
  }

  lemma PartAppended(columns: Columns, parts: seq<Part>, i: nat, n: nat, done: seq<Clause>, more: seq<Clause>)
    requires i < |parts| && done == Clauses(columns, parts[..i], n)
    requires more == PartClauses(columns, parts[i], n + |Values(parts[..i])|)
    ensures done + more == Clauses(columns, parts[..i + 1], n)
  {
    PartEmits(columns, parts[i], n + |Values(parts[..i])|);
    Appended(parts, PartEmitter(columns), PartValues, i, n, done, more);
  }

  lemma OneMorePart(columns: Columns, parts: seq<Part>, i: nat)
    requires i < |parts|
    ensures Values(parts[..i + 1]) == Values(parts[..i]) + PartValues(parts[i])
    ensures FirstRefused(parts[..i]).None? ==> FirstRefused(parts[..i + 1]) == PartRefused(parts[i])
  {
    OneMore(parts, PartEmitter(columns), PartValues, PartRefused, i, 0);
  }

  /** One more part, appended to the clauses of those before it. */
  method AppendPart(columns: Columns, parts: seq<Part>, i: nat, clauses: seq<Clause>, params: ParamArray,
                    ghost before: seq<Value>)
      returns (r: Result<seq<Clause>, FilterError>)
    requires i < |parts| && FirstRefused(parts[..i]).None?
    requires clauses == Clauses(columns, parts[..i], |before|) && params.items == before + Values(parts[..i])
    modifies params
    ensures var e := FirstRefused(parts[..i + 1]);
            if e.Some? then r == Err(e.value)
            else r == Ok(Clauses(columns, parts[..i + 1], |before|)) && params.items == before + Values(parts[..i + 1])
  {
    OneMorePart(columns, parts, i);
    ghost var n := |before| + |Values(parts[..i])|;
    assert n == |params.items|;
    var more := BuildIndexPart(columns, parts[i], params);
    if more.Err? {
      return Err(more.error);
    }
    AppendAssociates(before, Values(parts[..i]), PartValues(parts[i]));
    PartAppended(columns, parts, i, |before|, clauses, more.value);
    r := Ok(clauses + more.value);
  }

  method BuildIndexClauses(columns: Columns, parts: seq<Part>, params: ParamArray)
      returns (r: Result<seq<Clause>, FilterError>)
    modifies params
    ensures var e := FirstRefused(parts);
            if e.Some? then r == Err(e.value)
            else r == Ok(Clauses(columns, parts, |old(params.items)|))
                 && params.items == old(params.items) + Values(parts)
  {
    var clauses: seq<Clause> := [];
    AppendNothing(params.items);
    for i := 0 to |parts|
      invariant clauses == Clauses(columns, parts[..i], |old(params.items)|)
      invariant params.items == old(params.items) + Values(parts[..i])
      invariant FirstRefused(parts[..i]).None?
    {
      var more := AppendPart(columns, parts, i, clauses, params, old(params.items));
      if more.Err? {
        FirstErrorStays(parts, PartRefused, i + 1);
        return Err(more.error);
      }
      clauses := more.value;
    }
    assert parts[..|parts|] == parts;
    r := Ok(clauses);
  }

  method BuildIndexWhere(columns: Columns, parts: seq<Part>, params: ParamArray)
      returns (r: Result<seq<Token>, FilterError>)
    modifies params
    ensures var e := FirstRefused(parts);
            if e.Some? then r == Err(e.value)
            else r == Ok(Join(CAnd, Texts(Clauses(columns, parts, |old(params.items)|))))
                 && params.items == old(params.items) + Values(parts)
  {
    var clauses := BuildIndexClauses(columns, parts, params);
    r := if clauses.Err? then Err(clauses.error) else Ok(Join(CAnd, Texts(clauses.value)));
  }

  // ---------------------------------------------------------------------------------------
  // How the text reads
  // ---------------------------------------------------------------------------------------

  lemma ClauseReads(c: Clause, rest: seq<Token>)
    ensures ParseNot(Text(c) + rest) == Some((Tree(c), rest))
  {
    if c.negated {
      var inner := [Leaf(c.atom), RP] + rest;
      assert (Text(c) + rest)[1..] == [LP] + inner;
      assert inner[1..] == [RP] + rest;
      assert ParseNot(inner) == Some((ELeaf(c.atom), [RP] + rest));
      AloneReads(inner, Some(ELeaf(c.atom)), rest);
      ParenthesesRead(inner, Some(ELeaf(c.atom)), rest);
    } else {
      assert (Text(c) + rest)[1..] == rest;
    }
  }

  /** The conjunction of all clauses. */
  function Conjoined(cs: seq<Clause>): Expr
    requires cs != []
  {
    if |cs| == 1 then Tree(cs[0]) else EAnd(Tree(cs[0]), Conjoined(cs[1..]))
  }

  lemma {:induction false} ClausesRead(cs: seq<Clause>)
    requires cs != []
    ensures ParseAnd(Join(CAnd, Texts(cs))) == Some((Conjoined(cs), []))
    decreases |cs|
  {
    var ts := Texts(cs);
    if |cs| == 1 {
      ClauseReads(cs[0], []);
      assert Text(cs[0]) + [] == Text(cs[0]);
      assert ts == [Text(cs[0])];
    } else {
      var tail := Join(CAnd, Texts(cs[1..]));
      ClausesRead(cs[1..]);
      ClauseReads(cs[0], [AND] + tail);
      assert ts[1..] == Texts(cs[1..]);
      assert Join(CAnd, ts) == Text(cs[0]) + ([AND] + tail);
      assert ([AND] + tail)[1..] == tail;
    }
  }

  /** Bare as they are, the clauses read as their conjunction. */
  lemma FlatTextReads(cs: seq<Clause>)
    requires cs != []
    ensures Parse(Join(CAnd, Texts(cs))) == Some(Conjoined(cs))
  {
    ClausesRead(cs);
  }

  // ---------------------------------------------------------------------------------------
  // What the text means
  // ---------------------------------------------------------------------------------------

  function OpHolds(g: Engine, x: Value, op: Op): Truth {
    match op
    case OpGt(v) => Compared(g, Gt, x, v)
    case OpGte(v) => Compared(g, Gte, x, v)
    case OpLt(v) => Compared(g, Lt, x, v)
    case OpLte(v) => Compared(g, Lte, x, v)
    case OpNe(v) => if v.Null? then Lift(!x.Null?) else Compared(g, Ne, x, v)
    case OpIn(vs) => EqualsAny(g, x, vs)
    case OpNin(vs) => Not(EqualsAny(g, x, vs))
    case _ => False
  }

  function AllHold<P>(items: seq<P>, holds: P -> Truth): Truth {
    if items == [] then True else And(AllHold(items[..|items| - 1], holds), holds(items[|items| - 1]))
  }

  function PartHolds(g: Engine, columns: Columns, row: Row, p: Part): Truth {
    var x := Cell(row, ColumnOf(columns, p.field));
    match p.operand
    case Scalar(v) => Compared(g, Eq, x, v)
    case Array(_) => True
    case Ops(ops) => AllHold(ops, (op: Op) => OpHolds(g, x, op))
  }

  function Holds(g: Engine, columns: Columns, row: Row, parts: seq<Part>): Truth {
    AllHold(parts, (p: Part) => PartHolds(g, columns, row, p))
  }

  function EvalAll(g: Engine, cs: seq<Clause>, params: seq<Value>, row: Row): Truth {
    if cs == [] then True else And(Eval(g, Tree(cs[0]), params, row), EvalAll(g, cs[1..], params, row))
  }

  lemma {:induction false} EvalAllConcat(g: Engine, a: seq<Clause>, b: seq<Clause>, params: seq<Value>, row: Row)
    ensures EvalAll(g, a + b, params, row) == And(EvalAll(g, a, params, row), EvalAll(g, b, params, row))
  {
    if a == [] {
      assert a + b == b;
    } else {
      EvalAllConcat(g, a[1..], b, params, row);
      assert (a + b)[1..] == a[1..] + b;
    }
  }

  lemma {:induction false} ConjoinedEvaluates(g: Engine, cs: seq<Clause>, params: seq<Value>, row: Row)
    requires cs != []
    ensures Eval(g, Conjoined(cs), params, row) == EvalAll(g, cs, params, row)
    decreases |cs|
  {
    if |cs| > 1 {
      ConjoinedEvaluates(g, cs[1..], params, row);
    } else {
      assert EvalAll(g, cs[1..], params, row) == True;
    }
  }

  lemma ClauseAlone(g: Engine, c: Clause, params: seq<Value>, row: Row)
    ensures EvalAll(g, [c], params, row) == Eval(g, Tree(c), params, row)
  {
    assert [c][1..] == [];
    assert EvalAll(g, [], params, row) == True;
  }

  lemma OpClauseMeans(g: Engine, col: string, op: Op, n: nat, params: seq<Value>, row: Row)
    requires Refused(op).None? && Placed(params, n, OpValues(op))
    ensures Eval(g, Tree(OpClause(col, op, n)), params, row) == OpHolds(g, Cell(row, col), op)
  {
    if OpValues(op) != [] {
      PlacedSingle(params, n, OpValues(op)[0]);
    }
  }

  lemma LastEmittedMeans<P>(g: Engine, items: seq<P>, emit: (P, nat) -> seq<Clause>, values: P -> seq<Value>,
                            holds: P -> Truth, n: nat, params: seq<Value>, row: Row)
    requires items != []
    requires var front, last := items[..|items| - 1], items[|items| - 1];
             && EvalAll(g, Emitted(front, emit, values, n), params, row) == AllHold(front, holds)
             && EvalAll(g, emit(last, n + |Collected(front, values)|), params, row) == holds(last)
    ensures EvalAll(g, Emitted(items, emit, values, n), params, row) == AllHold(items, holds)
  {
    var front, last := items[..|items| - 1], items[|items| - 1];
    EvalAllConcat(g, Emitted(front, emit, values, n), emit(last, n + |Collected(front, values)|), params, row);
  }

  /** If every item's clauses mean what the item says, all together mean that all items hold. */
  lemma {:induction false} EmittedMeans<P(!new)>(
      g: Engine, items: seq<P>, emit: (P, nat) -> seq<Clause>, values: P -> seq<Value>, check: P -> Option<FilterError>,
      holds: P -> Truth, n: nat, params: seq<Value>, row: Row)
    requires FirstError(items, check).None? && Placed(params, n, Collected(items, values))
    requires forall p: P, m: nat ::
               check(p).None? && Placed(params, m, values(p)) ==> EvalAll(g, emit(p, m), params, row) == holds(p)
    ensures EvalAll(g, Emitted(items, emit, values, n), params, row) == AllHold(items, holds)
    decreases |items|
  {
    if items != [] {
      var front, last := items[..|items| - 1], items[|items| - 1];
      var m := n + |Collected(front, values)|;
      PlacedSplits(params, n, Collected(front, values), values(last));
      assert check(last).None? && Placed(params, m, values(last));
      EmittedMeans(g, front, emit, values, check, holds, n, params, row);
      LastEmittedMeans(g, items, emit, values, holds, n, params, row);
    }
  }

  lemma PartClausesMean(g: Engine, columns: Columns, p: Part, n: nat, params: seq<Value>, row: Row)
    requires PartRefused(p).None? && Placed(params, n, PartValues(p))
    ensures EvalAll(g, PartClauses(columns, p, n), params, row) == PartHolds(g, columns, row, p)
  {
    var col := ColumnOf(columns, p.field);
    match p.operand
    case Scalar(v) =>
      PlacedSingle(params, n, v);
      ClauseAlone(g, Clause(Compare(col, Eq, n + 1), false), params, row);
    case Array(_) =>
    case Ops(ops) =>
      forall op: Op, m: nat | OpRefused(op).None? && Placed(params, m, OpValues(op))
        ensures EvalAll(g, OpEmitter(col)(op, m), params, row) == OpHolds(g, Cell(row, col), op)
      {
        OpClauseMeans(g, col, op, m, params, row);
        ClauseAlone(g, OpClause(col, op, m), params, row);
      }
      EmittedMeans(g, ops, OpEmitter(col), OpValues, OpRefused, (op: Op) => OpHolds(g, Cell(row, col), op), n, params,
                   row);
  }

  lemma ClausesMean(g: Engine, columns: Columns, parts: seq<Part>, n: nat, params: seq<Value>, row: Row)
    requires FirstRefused(parts).None? && Placed(params, n, Values(parts))
    ensures EvalAll(g, Clauses(columns, parts, n), params, row) == Holds(g, columns, row, parts)
  {
    forall p: Part, m: nat | PartRefused(p).None? && Placed(params, m, PartValues(p))
      ensures EvalAll(g, PartEmitter(columns)(p, m), params, row) == PartHolds(g, columns, row, p)
    {
      PartClausesMean(g, columns, p, m, params, row);
    }
    EmittedMeans(g, parts, PartEmitter(columns), PartValues, PartRefused, (p: Part) => PartHolds(g, columns, row, p),
                 n, params, row);
  }

  /** Under the final parameters or any extension of them, a text that is not empty has its filter's meaning. */
  lemma FlatTextMeans(g: Engine, columns: Columns, parts: seq<Part>, before: seq<Value>, after: seq<Value>, row: Row)
    requires FirstRefused(parts).None? && Clauses(columns, parts, |before|) != []
    ensures var e := Parse(Join(CAnd, Texts(Clauses(columns, parts, |before|))));
            e.Some? && Eval(g, e.value, before + Values(parts) + after, row) == Holds(g, columns, row, parts)
  {
    var cs, params := Clauses(columns, parts, |before|), before + Values(parts) + after;
    FlatTextReads(cs);
    ConjoinedEvaluates(g, cs, params, row);
    assert Placed(params, |before|, Values(parts));
    ClausesMean(g, columns, parts, |before|, params, row);
  }

  // ---------------------------------------------------------------------------------------
  // The filters the service passes
  // ---------------------------------------------------------------------------------------

  /** The rows of a user, except some keys. */
  function StaleRows(userId: Value, keep: seq<Value>): seq<Part> {
    [Part("userId", Scalar(userId)), Part("key", Ops([OpNin(keep)]))]
  }

  /** The unexpired row under a key. */
  function LiveRow(key: Value, now: Value): seq<Part> {
    [Part("key", Scalar(key)), Part("expiresAt", Ops([OpGt(now)]))]
  }

  lemma {:induction false} EqualsAnyIsMembership(g: Engine, x: Value, vs: seq<Value>)
    requires !x.Null? && forall v <- vs :: !v.Null?
    ensures EqualsAny(g, x, vs) == Lift(x in vs)
  {
    if vs != [] {
      EqualsAnyIsMembership(g, x, vs[1..]);
    }
  }

  /** The pruning DELETE removes exactly the user's rows under other keys; its key list may be empty. */
  lemma StaleRowsAreSelected(g: Engine, columns: Columns, userId: Value, keep: seq<Value>, row: Row)
    requires var key := Cell(row, if "key" in columns then columns["key"] else "key");
             !key.Null? && !userId.Null? && forall k <- keep :: !k.Null?
    ensures Holds(g, columns, row, StaleRows(userId, keep)) == True
       <==> Cell(row, if "userId" in columns then columns["userId"] else "userId") == userId
            && Cell(row, if "key" in columns then columns["key"] else "key") !in keep
  {
    EqualsAnyIsMembership(g, Cell(row, ColumnOf(columns, "key")), keep);
    TwoPartsHold(g, columns, row, Part("userId", Scalar(userId)), Part("key", Ops([OpNin(keep)])));
    SingleOpHolds(g, columns, row, "key", OpNin(keep));
  }

  /** The pending lookup selects exactly an unexpired row under the key, and none without an expiry. */
  lemma LiveRowIsSelected(g: Engine, columns: Columns, key: Value, now: Value, row: Row)
    requires !key.Null? && !now.Null?
    ensures Holds(g, columns, row, LiveRow(key, now)) == True
       <==> var x := Cell(row, if "expiresAt" in columns then columns["expiresAt"] else "expiresAt");
            Cell(row, if "key" in columns then columns["key"] else "key") == key && !x.Null? && g.less(now, x)
  {
    TwoPartsHold(g, columns, row, Part("key", Scalar(key)), Part("expiresAt", Ops([OpGt(now)])));
    SingleOpHolds(g, columns, row, "expiresAt", OpGt(now));
  }

  lemma TwoPartsHold(g: Engine, columns: Columns, row: Row, p: Part, q: Part)
    ensures Holds(g, columns, row, [p, q]) == And(PartHolds(g, columns, row, p), PartHolds(g, columns, row, q))
  {
    var holds := (p: Part) => PartHolds(g, columns, row, p);
    assert [p, q][..1] == [p] && [p][..0] == [];
    assert AllHold([], holds) == True;
    assert AllHold([p], holds) == And(True, holds(p));
    assert AllHold([p, q], holds) == And(AllHold([p], holds), holds(q));
  }

  lemma SingleOpHolds(g: Engine, columns: Columns, row: Row, field: string, op: Op)
    ensures PartHolds(g, columns, row, Part(field, Ops([op]))) == OpHolds(g, Cell(row, ColumnOf(columns, field)), op)
  {
    var holds := (op: Op) => OpHolds(g, Cell(row, ColumnOf(columns, field)), op);
    assert [op][..0] == [];
    assert AllHold([], holds) == True;
    assert AllHold([op], holds) == And(True, holds(op));
  }

  // ---------------------------------------------------------------------------------------
  // In plain terms
  // ---------------------------------------------------------------------------------------

  /** The first item with an error decides, and there is none only if no item has one. */
  lemma {:induction false} FirstErrorIs<P>(items: seq<P>, check: P -> Option<FilterError>)
    ensures FirstError(items, check).None? <==> forall i :: 0 <= i < |items| ==> check(items[i]).None?
    ensures FirstError(items, check).Some?
        ==> exists i :: 0 <= i < |items| && check(items[i]) == FirstError(items, check)
                        && forall j :: 0 <= j < i ==> check(items[j]).None?
  {
    if items != [] {
      var front := items[..|items| - 1];
      FirstErrorIs(front, check);
      assert forall i :: 0 <= i < |front| ==> front[i] == items[i];
      if FirstError(front, check).Some? {
        var i :| 0 <= i < |front| && check(front[i]) == FirstError(front, check)
                 && forall j :: 0 <= j < i ==> check(front[j]).None?;
        assert check(items[i]) == FirstError(items, check);
      } else if check(items[|items| - 1]).Some? {
        assert check(items[|items| - 1]) == FirstError(items, check);
      }
    }
  }

  /** The seven operators there are. */
  predicate Supported(op: Op) {
    op.OpGt? || op.OpGte? || op.OpLt? || op.OpLte? || op.OpNe? || op.OpIn? || op.OpNin?
  }

  predicate Acceptable(p: Part) {
    match p.operand
    case Scalar(_) => true
    case Array(items) => items == []
    case Ops(ops) => forall op <- ops :: Supported(op)
  }

  lemma AcceptableIff(p: Part)
    ensures PartRefused(p).None? <==> Acceptable(p)
  {
    if p.operand.Ops? {
      FirstErrorIs(p.operand.ops, OpRefused);
      assert forall op :: OpRefused(op).None? <==> Supported(op);
    }
  }

  /** A filter is refused if and only if it has an operator that is none of the seven, or a list that is not empty. */
  lemma RefusedIff(parts: seq<Part>)
    ensures FirstRefused(parts).None? <==> forall p <- parts :: Acceptable(p)
  {
    FirstErrorIs(parts, PartRefused);
    forall p: Part ensures PartRefused(p).None? <==> Acceptable(p) {
      AcceptableIff(p);
    }
  }

  lemma {:induction false} AllHoldIff<P>(items: seq<P>, holds: P -> Truth)
    ensures AllHold(items, holds) == True <==> forall i :: 0 <= i < |items| ==> holds(items[i]) == True
  {
    if items != [] {
      var front := items[..|items| - 1];
      AllHoldIff(front, holds);
      assert forall i :: 0 <= i < |front| ==> front[i] == items[i];
    }
  }

  /** What makes each of the seven true of a value. */
  predicate IsTrueOf(g: Engine, x: Value, op: Op) {
    match op
    case OpGt(v) => !x.Null? && !v.Null? && g.less(v, x)
    case OpGte(v) => !x.Null? && !v.Null? && (x == v || g.less(v, x))
    case OpLt(v) => !x.Null? && !v.Null? && g.less(x, v)
    case OpLte(v) => !x.Null? && !v.Null? && (x == v || g.less(x, v))
    case OpNe(v) => !x.Null? && x != v
    case OpIn(vs) => !x.Null? && x in vs
    case OpNin(vs) => vs == [] || (!x.Null? && x !in vs && Null !in vs)
    case _ => false
  }

  lemma {:induction false} MembershipIs(g: Engine, x: Value, vs: seq<Value>)
    ensures EqualsAny(g, x, vs) == True <==> !x.Null? && x in vs
    ensures EqualsAny(g, x, vs) == False <==> vs == [] || (!x.Null? && x !in vs && Null !in vs)
  {
    if vs != [] {
      MembershipIs(g, x, vs[1..]);
    }
  }

  lemma OperatorHoldsIff(g: Engine, x: Value, op: Op)
    ensures OpHolds(g, x, op) == True <==> IsTrueOf(g, x, op)
  {
    if op.OpIn? || op.OpNin? {
      MembershipIs(g, x, op.vs);
    }
  }

  /** A part is true of a row if the cell of its column equals the value, or all its operators are true of it. */
  predicate PartIsTrue(g: Engine, columns: Columns, row: Row, p: Part) {
    var x := Cell(row, if p.field in columns then columns[p.field] else p.field);
    match p.operand
    case Scalar(v) => !x.Null? && x == v
    case Array(_) => true
    case Ops(ops) => forall op <- ops :: IsTrueOf(g, x, op)
  }

  lemma PartHoldsIff(g: Engine, columns: Columns, row: Row, p: Part)
    ensures PartHolds(g, columns, row, p) == True <==> PartIsTrue(g, columns, row, p)
  {
    if p.operand.Ops? {
      var x := Cell(row, ColumnOf(columns, p.field));
      var holds := (op: Op) => OpHolds(g, Cell(row, ColumnOf(columns, p.field)), op);
      AllHoldIff(p.operand.ops, holds);
      forall op: Op ensures holds(op) == True <==> IsTrueOf(g, x, op) {
        OperatorHoldsIff(g, x, op);
      }
      assert (forall op <- p.operand.ops :: IsTrueOf(g, x, op)) <==> AllHold(p.operand.ops, holds) == True;
      assert PartHolds(g, columns, row, p) == AllHold(p.operand.ops, holds);
    }
  }

  /** So the filter is true of a row if and only if all its parts are. */
  lemma HoldsIff(g: Engine, columns: Columns, row: Row, parts: seq<Part>)
    ensures Holds(g, columns, row, parts) == True <==> forall p <- parts :: PartIsTrue(g, columns, row, p)
  {
    var holds := (p: Part) => PartHolds(g, columns, row, p);
    AllHoldIff(parts, holds);
    forall p: Part ensures holds(p) == True <==> PartIsTrue(g, columns, row, p) {
      PartHoldsIff(g, columns, row, p);
    }
  }
}
