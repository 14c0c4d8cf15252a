/** The boolean fragment of SQL that the filter compiler emits: its tokens, its grammar with
    OR below AND below NOT, and its three-valued meaning. */
module Sql {
  import opened Wrappers

  // ---------------------------------------------------------------------------------------
  // Kleene logic
  // ---------------------------------------------------------------------------------------

  datatype Truth = True | False | Unknown

  function Lift(b: bool): Truth {
    if b then True else False
  }

  function Not(a: Truth): Truth {
    match a case True => False case False => True case Unknown => Unknown
  }

  function And(a: Truth, b: Truth): Truth {
    if a.False? || b.False? then False else if a.Unknown? || b.Unknown? then Unknown else True
  }

  function Or(a: Truth, b: Truth): Truth {
    if a.True? || b.True? then True else if a.Unknown? || b.Unknown? then Unknown else False
  }

  // ---------------------------------------------------------------------------------------
  // Values and primitive conditions
  // ---------------------------------------------------------------------------------------

  datatype Value =
    | Null
    | Text(s: string)
    | Num(n: int)
    | Bool(b: bool)
    | Time(t: int)
    | List(items: seq<Value>)
    | Json(elements: seq<Value>)

  /** What the database does with two non-null values; nothing here depends on how. A JSONB array `contains` the
      elements of another, and `hasText` if a string is one of its elements. */
  datatype Engine = Engine(
    less: (Value, Value) -> bool,
    matches: (Value, Value, bool) -> bool,
    contains: (Value, Value) -> bool,
    hasText: (Value, Value) -> bool,
    length: Value -> int)

  type Row = map<string, Value>

  function Cell(row: Row, col: string): Value {
    if col in row then row[col] else Null
  }

  datatype Cmp = Eq | Ne | Gt | Gte | Lt | Lte

  /** A primitive condition on one column; `$idx` is the `idx`-th parameter, counting from 1. */
  datatype Atom =
    | Compare(col: string, cmp: Cmp, idx: nat)
    | Distinct(col: string, idx: nat)
    | IsNull(col: string)
    | IsNotNull(col: string)
    | AnyOf(col: string, idx: nat)
    | Matches(col: string, idx: nat, insensitive: bool)
    | ContainsArray(col: string, idx: nat)
    | ContainsText(col: string, idx: nat)
    | LengthIs(col: string, n: int)
    | LengthIsNot(col: string, n: int)
    | Constant(b: bool)

  function Compared(g: Engine, cmp: Cmp, x: Value, y: Value): Truth {
    if x.Null? || y.Null? then Unknown
    else match cmp
      case Eq => Lift(x == y)
      case Ne => Lift(x != y)
      case Gt => Lift(g.less(y, x))
      case Gte => Lift(x == y || g.less(y, x))
      case Lt => Lift(g.less(x, y))
      case Lte => Lift(x == y || g.less(x, y))
  }

  /** `x = ANY(ys)`: the disjunction of the equalities. */
  function EqualsAny(g: Engine, x: Value, ys: seq<Value>): Truth {
    if ys == [] then False else Or(Compared(g, Eq, x, ys[0]), EqualsAny(g, x, ys[1..]))
  }

  function Strict(x: Value, y: Value, b: bool): Truth {
    if x.Null? || y.Null? then Unknown else Lift(b)
  }

  function Param(params: seq<Value>, idx: nat): Value {
    if 1 <= idx <= |params| then params[idx - 1] else Null
  }

  function EvalAtom(g: Engine, a: Atom, params: seq<Value>, row: Row): Truth {
    match a
    case Compare(col, cmp, idx) => Compared(g, cmp, Cell(row, col), Param(params, idx))
    case Distinct(col, idx) => Lift(Cell(row, col) != Param(params, idx))
    case IsNull(col) => Lift(Cell(row, col).Null?)
    case IsNotNull(col) => Lift(!Cell(row, col).Null?)
    case AnyOf(col, idx) =>
      var p := Param(params, idx);
      if p.List? then EqualsAny(g, Cell(row, col), p.items) else Unknown
    case Matches(col, idx, i) =>
      var x, p := Cell(row, col), Param(params, idx);
      Strict(x, p, g.matches(x, p, i))
    case ContainsArray(col, idx) =>
      var x, p := Cell(row, col), Param(params, idx);
      Strict(x, p, g.contains(x, p))
    case ContainsText(col, idx) =>
      var x, p := Cell(row, col), Param(params, idx);
      Strict(x, p, g.hasText(x, p))
    case LengthIs(col, n) =>
      var x := Cell(row, col);
      Strict(x, x, g.length(x) == n)
    case LengthIsNot(col, n) =>
      var x := Cell(row, col);
      Strict(x, x, g.length(x) != n)
    case Constant(b) => Lift(b)
  }

  // ---------------------------------------------------------------------------------------
  // Expressions
  // ---------------------------------------------------------------------------------------

  datatype Expr = ELeaf(atom: Atom) | ENot(e: Expr) | EAnd(l: Expr, r: Expr) | EOr(l: Expr, r: Expr)

  function Eval(g: Engine, e: Expr, params: seq<Value>, row: Row): Truth {
    match e
    case ELeaf(a) => EvalAtom(g, a, params, row)
    case ENot(f) => Not(Eval(g, f, params, row))
    case EAnd(l, r) => And(Eval(g, l, params, row), Eval(g, r, params, row))
    case EOr(l, r) => Or(Eval(g, l, params, row), Eval(g, r, params, row))
  }

  datatype Connective = CAnd | COr

  // ---------------------------------------------------------------------------------------
  // Tokens and the parser
  // ---------------------------------------------------------------------------------------

  datatype Token = LP | RP | AND | OR | NOT | Leaf(atom: Atom)

  type Parsed = Option<(Expr, seq<Token>)>

  function ParseOr(ts: seq<Token>): (r: Parsed)
    ensures r.Some? ==> |r.value.1| < |ts|
    decreases |ts|, 3
  {
    match ParseAnd(ts)
    case None => None
    case Some((e, rest)) =>
      if rest != [] && rest[0].OR? then
        match ParseOr(rest[1..])
        case None => None
        case Some((f, rest')) => Some((EOr(e, f), rest'))
      else Some((e, rest))
  }

  function ParseAnd(ts: seq<Token>): (r: Parsed)
    ensures r.Some? ==> |r.value.1| < |ts|
    decreases |ts|, 2
  {
    match ParseNot(ts)
    case None => None
    case Some((e, rest)) =>
      if rest != [] && rest[0].AND? then
        match ParseAnd(rest[1..])
        case None => None
        case Some((f, rest')) => Some((EAnd(e, f), rest'))
      else Some((e, rest))
  }

  function ParseNot(ts: seq<Token>): (r: Parsed)
    ensures r.Some? ==> |r.value.1| < |ts|
    decreases |ts|, 1
  {
    if ts != [] && ts[0].NOT? then
      match ParseNot(ts[1..])
      case None => None
      case Some((e, rest)) => Some((ENot(e), rest))
    else ParsePrimary(ts)
  }

  function ParsePrimary(ts: seq<Token>): (r: Parsed)
    ensures r.Some? ==> |r.value.1| < |ts|
    decreases |ts|, 0
  {
    if ts == [] then None
    else match ts[0]
      case Leaf(a) => Some((ELeaf(a), ts[1..]))
      case LP =>
        (match ParseOr(ts[1..])
         case None => None
         case Some((e, rest)) => if rest != [] && rest[0].RP? then Some((e, rest[1..])) else None)
      case _ => None
  }

  /** The whole text is one condition. */
  function Parse(ts: seq<Token>): Option<Expr> {
    match ParseOr(ts)
    case None => None
    case Some((e, rest)) => if rest == [] then Some(e) else None
  }

  // ---------------------------------------------------------------------------------------
  // Reading back joined clauses
  // ---------------------------------------------------------------------------------------

  function Wrap(ts: seq<Token>): seq<Token> {
    [LP] + ts + [RP]
  }

  function Separator(op: Connective): Token {
    if op.CAnd? then AND else OR
  }

  function Join(op: Connective, clauses: seq<seq<Token>>): seq<Token> {
    if clauses == [] then []
    else if |clauses| == 1 then clauses[0]
    else clauses[0] + [Separator(op)] + Join(op, clauses[1..])
  }

  /** Standing anywhere, the clause is read as exactly this expression, or is a syntax error. */
  ghost predicate ReadsAs(clause: seq<Token>, e: Option<Expr>) {
    && clause != [] && !clause[0].NOT?
    && forall rest: seq<Token> ::
         ParsePrimary(clause + rest) == if e.None? then None else Some((e.value, rest))
  }

  ghost predicate AllReadAs(clauses: seq<seq<Token>>, es: seq<Option<Expr>>) {
    && |clauses| == |es|
    && forall i :: 0 <= i < |es| ==> ReadsAs(clauses[i], es[i])
  }

  function Chained(op: Connective, es: seq<Option<Expr>>): Option<Expr>
    requires es != []
  {
    if |es| == 1 then es[0]
    else
      var tail := Chained(op, es[1..]);
      if es[0].None? || tail.None? then None
      else if op.CAnd? then Some(EAnd(es[0].value, tail.value))
      else Some(EOr(es[0].value, tail.value))
  }

  predicate StartsWith(ts: seq<Token>, t: Token) {
    ts != [] && ts[0] == t
  }

  lemma ReadsAsClause(clause: seq<Token>, e: Option<Expr>, rest: seq<Token>)
    requires ReadsAs(clause, e)
    ensures ParseNot(clause + rest) == if e.None? then None else Some((e.value, rest))
  {
    assert (clause + rest)[0] == clause[0];
  }

  lemma {:induction false} AndChainReads(clauses: seq<seq<Token>>, es: seq<Option<Expr>>, rest: seq<Token>)
    requires clauses != [] && AllReadAs(clauses, es) && !StartsWith(rest, AND)
    ensures var r := Chained(CAnd, es);
            ParseAnd(Join(CAnd, clauses) + rest) == if r.None? then None else Some((r.value, rest))
    decreases |clauses|
  {
    if |clauses| == 1 {
      ReadsAsClause(clauses[0], es[0], rest);
    } else {
      var tail := Join(CAnd, clauses[1..]) + rest;
      assert Join(CAnd, clauses) + rest == clauses[0] + ([AND] + tail);
      ReadsAsClause(clauses[0], es[0], [AND] + tail);
      AndChainReads(clauses[1..], es[1..], rest);
      assert ([AND] + tail)[1..] == tail;
    }
  }

  lemma {:induction false} OrChainReads(clauses: seq<seq<Token>>, es: seq<Option<Expr>>, rest: seq<Token>)
    requires clauses != [] && AllReadAs(clauses, es) && !StartsWith(rest, AND) && !StartsWith(rest, OR)
    ensures var r := Chained(COr, es);
            ParseOr(Join(COr, clauses) + rest) == if r.None? then None else Some((r.value, rest))
    decreases |clauses|
  {
    if |clauses| == 1 {
      ReadsAsClause(clauses[0], es[0], rest);
    } else {
      var tail := Join(COr, clauses[1..]) + rest;
      assert Join(COr, clauses) + rest == clauses[0] + ([OR] + tail);
      ReadsAsClause(clauses[0], es[0], [OR] + tail);
      OrChainReads(clauses[1..], es[1..], rest);
      assert ([OR] + tail)[1..] == tail;
    }
  }

  /** What stands between parentheses, read up to the closing one. */
  lemma ParenthesesRead(inner: seq<Token>, e: Option<Expr>, rest: seq<Token>)
    requires ParseOr(inner) == if e.None? then None else Some((e.value, [RP] + rest))
    ensures ParsePrimary([LP] + inner) == if e.None? then None else Some((e.value, rest))
  {
    assert ([LP] + inner)[1..] == inner;
    assert ([RP] + rest)[1..] == rest;
  }

  lemma AloneReads(inner: seq<Token>, e: Option<Expr>, rest: seq<Token>)
    requires ParseNot(inner) == if e.None? then None else Some((e.value, [RP] + rest))
    ensures ParseOr(inner) == if e.None? then None else Some((e.value, [RP] + rest))
  {
    assert ParseAnd(inner) == if e.None? then None else Some((e.value, [RP] + rest));
  }

  /** A parenthesised chain is again a clause. */
  lemma WrappedChainReads(op: Connective, clauses: seq<seq<Token>>, es: seq<Option<Expr>>)
    requires AllReadAs(clauses, es) && es != []
    ensures ReadsAs(Wrap(Join(op, clauses)), Chained(op, es))
  {
    var ts, e := Wrap(Join(op, clauses)), Chained(op, es);
    forall rest: seq<Token>
      ensures ParsePrimary(ts + rest) == if e.None? then None else Some((e.value, rest))
    {
      var after := [RP] + rest;
      var inner := Join(op, clauses) + after;
      assert ts + rest == [LP] + inner;
      if op.CAnd? {
        AndChainReads(clauses, es, after);
      } else {
        OrChainReads(clauses, es, after);
      }
      ParenthesesRead(inner, e, rest);
    }
  }

  /** Empty parentheses are a syntax error. */
  lemma HoleReads()
    ensures ReadsAs([LP, RP], None)
  {
    forall rest: seq<Token> ensures ParsePrimary([LP, RP] + rest).None? {
      var inner := [RP] + rest;
      assert [LP, RP] + rest == [LP] + inner;
      assert ParsePrimary(inner).None?;
      assert ParseNot(inner).None?;
      assert ParseAnd(inner).None?;
      ParenthesesRead(inner, None, rest);
    }
  }

  lemma WrappedLeafReads(a: Atom)
    ensures ReadsAs([LP, Leaf(a), RP], Some(ELeaf(a)))
  {
    forall rest: seq<Token> ensures ParsePrimary([LP, Leaf(a), RP] + rest) == Some((ELeaf(a), rest)) {
      var inner := [Leaf(a)] + ([RP] + rest);
      assert [LP, Leaf(a), RP] + rest == [LP] + inner;
      assert inner[1..] == [RP] + rest;
      AloneReads(inner, Some(ELeaf(a)), rest);
      ParenthesesRead(inner, Some(ELeaf(a)), rest);
    }
  }

  lemma NegationReads(operand: seq<Token>, e: Option<Expr>, rest: seq<Token>)
    requires ParseNot(operand) == if e.None? then None else Some((e.value, rest))
    ensures ParseNot([NOT] + operand) == if e.None? then None else Some((ENot(e.value), rest))
  {
    assert ([NOT] + operand)[1..] == operand;
  }

  lemma NotReadsBefore(clause: seq<Token>, e: Option<Expr>, rest: seq<Token>)
    requires ReadsAs(clause, e)
    ensures ParsePrimary([LP, NOT] + clause + [RP] + rest) ==
            if e.None? then None else Some((ENot(e.value), rest))
  {
    var operand := clause + ([RP] + rest);
    var negated := if e.None? then None else Some(ENot(e.value));
    ReadsAsClause(clause, e, [RP] + rest);
    NegationReads(operand, e, [RP] + rest);
    AloneReads([NOT] + operand, negated, rest);
    ParenthesesRead([NOT] + operand, negated, rest);
    assert [LP, NOT] + clause + [RP] + rest == [LP] + ([NOT] + operand);
  }

  lemma WrappedNotReads(clause: seq<Token>, e: Option<Expr>)
    requires ReadsAs(clause, e)
    ensures ReadsAs([LP, NOT] + clause + [RP], if e.None? then None else Some(ENot(e.value)))
  {
    forall rest: seq<Token>
      ensures ParsePrimary([LP, NOT] + clause + [RP] + rest) ==
              if e.None? then None else Some((ENot(e.value), rest))
    {
      NotReadsBefore(clause, e, rest);
    }
  }
}
