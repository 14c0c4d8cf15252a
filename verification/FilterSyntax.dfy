/** Mongo-style filters: what they mean, and what SQL they compile to. */
module FilterSyntax {
  import opened Wrappers
  import opened Sql

  datatype Op =
    | OpGt(v: Value) | OpGte(v: Value) | OpLt(v: Value) | OpLte(v: Value)
    | OpNe(v: Value)
    | OpExists(exists_: bool)
    | OpIn(vs: seq<Value>) | OpNin(vs: seq<Value>)
    | OpRegex(pattern: string, insensitive: bool)
    | OpSize(n: int)
    | OpNot(operand: Operand)
    | OpOther(name: string)

  datatype Operand = Scalar(v: Value) | Array(items: seq<Value>) | Ops(ops: seq<Op>)

  /** The entries of a filter object in their order. */
  datatype Filter = Filter(entries: seq<Entry>)

  datatype Entry = AnyOfThese(subs: seq<Filter>) | AllOfThese(subs: seq<Filter>) | Field(name: string, operand: Operand)

  /** Which fields there are, under which column, and which of them are JSONB arrays. */
  datatype Schema = Schema(columns: map<string, string>, jsonb: set<string>)

  datatype FilterError = UnknownField(name: string) | UnsupportedOperator(name: string)

  function ColumnName(sc: Schema, field: string): Option<string> {
    if field == "_id" then Some("id")
    else if field in sc.columns then Some(sc.columns[field])
    else None
  }

  function Column(sc: Schema, field: string): string {
    var c := ColumnName(sc, field);
    if c.Some? then c.value else ""
  }

  // ---------------------------------------------------------------------------------------
  // Meaning
  // ---------------------------------------------------------------------------------------

  function OperandMeaning(g: Engine, row: Row, col: string, jb: bool, o: Operand): Truth
    decreases o
  {
    var x := Cell(row, col);
    match o
    case Scalar(v) => if jb then Strict(x, v, g.hasText(x, v)) else Compared(g, Eq, x, v)
    case Array(vs) => if jb then Strict(x, Json(vs), g.contains(x, Json(vs))) else Compared(g, Eq, x, List(vs))
    case Ops(ops) => OpsMeaning(g, row, col, jb, ops)
  }

  /** All operators of one field must hold. */
  function OpsMeaning(g: Engine, row: Row, col: string, jb: bool, ops: seq<Op>): Truth
    decreases ops
  {
    if ops == [] then True
    else And(OpMeaning(g, row, col, jb, ops[0]), OpsMeaning(g, row, col, jb, ops[1..]))
  }

  function OpMeaning(g: Engine, row: Row, col: string, jb: bool, op: Op): Truth
    decreases op
  {
    var x := Cell(row, col);
    match op
    case OpGt(v) => Compared(g, Gt, x, v)
    case OpGte(v) => Compared(g, Gte, x, v)
    case OpLt(v) => Compared(g, Lt, x, v)
    case OpLte(v) => Compared(g, Lte, x, v)
    case OpNe(v) => Lift(x != v)
    case OpExists(b) => Lift(b == !x.Null?)
    case OpIn(vs) => EqualsAny(g, x, vs)
    case OpNin(vs) => Not(EqualsAny(g, x, vs))
    case OpRegex(p, i) => Strict(x, Text(p), g.matches(x, Text(p), i))
    case OpSize(n) => Strict(x, x, g.length(x) == n)
    case OpNot(o) => Not(OperandMeaning(g, row, col, jb, o))
    case OpOther(_) => Unknown
  }

  function EntriesMeaning(g: Engine, sc: Schema, row: Row, es: seq<Entry>): Truth
    decreases es
  {
    if es == [] then True
    else And(EntryMeaning(g, sc, row, es[0]), EntriesMeaning(g, sc, row, es[1..]))
  }

  /** An empty `$or` constrains nothing. */
  function EntryMeaning(g: Engine, sc: Schema, row: Row, e: Entry): Truth
    decreases e
  {
    match e
    case AnyOfThese(subs) => if subs == [] then True else SomeMeaning(g, sc, row, subs)
    case AllOfThese(subs) => EveryMeaning(g, sc, row, subs)
    case Field(name, o) => OperandMeaning(g, row, Column(sc, name), name in sc.jsonb, o)
  }

  function SomeMeaning(g: Engine, sc: Schema, row: Row, subs: seq<Filter>): Truth
    decreases subs
  {
    if subs == [] then False
    else Or(EntriesMeaning(g, sc, row, subs[0].entries), SomeMeaning(g, sc, row, subs[1..]))
  }

  function EveryMeaning(g: Engine, sc: Schema, row: Row, subs: seq<Filter>): Truth
    decreases subs
  {
    if subs == [] then True
    else And(EntriesMeaning(g, sc, row, subs[0].entries), EveryMeaning(g, sc, row, subs[1..]))
  }

  function Meaning(g: Engine, sc: Schema, row: Row, f: Filter): Truth {
    EntriesMeaning(g, sc, row, f.entries)
  }

  // ---------------------------------------------------------------------------------------
  // The compiled text: parameters pushed, and tokens numbered from `n` parameters on
  // ---------------------------------------------------------------------------------------

  function FirstSize(ops: seq<Op>): Option<int> {
    if ops == [] then None
    else if ops[0].OpSize? then Some(ops[0].n)
    else FirstSize(ops[1..])
  }

  /** `$not` of an operator object with a `$size` is compiled from the `$size` alone. */
  function NegatedSize(o: Operand): Option<int> {
    if o.Ops? then FirstSize(o.ops) else None
  }

  function OperandParams(jb: bool, o: Operand): seq<Value>
    decreases o
  {
    match o
    case Scalar(v) => [v]
    case Array(vs) => [if jb then Json(vs) else List(vs)]
    case Ops(ops) => OpsParams(jb, ops)
  }

  function OpsParams(jb: bool, ops: seq<Op>): seq<Value>
    decreases ops
  {
    if ops == [] then [] else OpParams(jb, ops[0]) + OpsParams(jb, ops[1..])
  }

  function OpParams(jb: bool, op: Op): seq<Value>
    decreases op
  {
    match op
    case OpGt(v) => [v]
    case OpGte(v) => [v]
    case OpLt(v) => [v]
    case OpLte(v) => [v]
    case OpNe(v) => if v.Null? then [] else [v]
    case OpExists(_) => []
    case OpIn(vs) => if vs == [] then [] else [List(vs)]
    case OpNin(vs) => if vs == [] then [] else [List(vs)]
    case OpRegex(p, _) => [Text(p)]
    case OpSize(_) => []
    case OpNot(o) => if NegatedSize(o).Some? then [] else OperandParams(jb, o)
    case OpOther(_) => []
  }

  function OperandAtom(col: string, jb: bool, o: Operand, n: nat): Atom
    requires !o.Ops?
  {
    if !jb then Compare(col, Eq, n + 1)
    else if o.Array? then ContainsArray(col, n + 1)
    else ContainsText(col, n + 1)
  }

  function OperandTokens(col: string, jb: bool, o: Operand, n: nat): seq<Token>
    decreases o
  {
    if o.Ops? then Wrap(Join(CAnd, OpsTokens(col, jb, o.ops, n)))
    else [LP, Leaf(OperandAtom(col, jb, o, n)), RP]
  }

  function OpsTokens(col: string, jb: bool, ops: seq<Op>, n: nat): seq<seq<Token>>
    decreases ops
  {
    if ops == [] then []
    else [OpTokens(col, jb, ops[0], n)] + OpsTokens(col, jb, ops[1..], n + |OpParams(jb, ops[0])|)
  }

  /** The condition of an operator that is neither `$not` nor a non-empty `$nin`. */
  function OpAtom(col: string, op: Op, n: nat): Atom
    requires !op.OpNot? && !op.OpOther?
  {
    match op
    case OpGt(_) => Compare(col, Gt, n + 1)
    case OpGte(_) => Compare(col, Gte, n + 1)
    case OpLt(_) => Compare(col, Lt, n + 1)
    case OpLte(_) => Compare(col, Lte, n + 1)
    case OpNe(v) => if v.Null? then IsNotNull(col) else Distinct(col, n + 1)
    case OpExists(b) => if b then IsNotNull(col) else IsNull(col)
    case OpIn(vs) => if vs == [] then Constant(false) else AnyOf(col, n + 1)
    case OpNin(vs) => if vs == [] then Constant(true) else AnyOf(col, n + 1)
    case OpRegex(_, i) => Matches(col, n + 1, i)
    case OpSize(k) => LengthIs(col, k)
  }

  /** An unknown operator throws before any text is produced, so its tokens are never emitted. */
  function OpTokens(col: string, jb: bool, op: Op, n: nat): seq<Token>
    decreases op
  {
    match op
    case OpNot(o) =>
      var size := NegatedSize(o);
      if size.Some? then [LP, Leaf(LengthIsNot(col, size.value)), RP]
      else [LP, NOT] + OperandTokens(col, jb, o, n) + [RP]
    case OpOther(_) => [LP, RP]
    case _ =>
      var leaf := [LP, Leaf(OpAtom(col, op, n)), RP];
      if op.OpNin? && op.vs != [] then [LP, NOT] + leaf + [RP] else leaf
  }

  function EntriesParams(sc: Schema, es: seq<Entry>): seq<Value>
    decreases es
  {
    if es == [] then [] else EntryParams(sc, es[0]) + EntriesParams(sc, es[1..])
  }

  function EntryParams(sc: Schema, e: Entry): seq<Value>
    decreases e
  {
    match e
    case AnyOfThese(subs) => SubsParams(sc, subs)
    case AllOfThese(subs) => SubsParams(sc, subs)
    case Field(name, o) => OperandParams(name in sc.jsonb, o)
  }

  function SubsParams(sc: Schema, subs: seq<Filter>): seq<Value>
    decreases subs
  {
    if subs == [] then [] else EntriesParams(sc, subs[0].entries) + SubsParams(sc, subs[1..])
  }

  /** The clauses of a filter, to be joined by AND. */
  function EntriesClauses(sc: Schema, es: seq<Entry>, n: nat): seq<seq<Token>>
    decreases es
  {
    if es == [] then []
    else EntryClauses(sc, es[0], n) + EntriesClauses(sc, es[1..], n + |EntryParams(sc, es[0])|)
  }

  function EntryClauses(sc: Schema, e: Entry, n: nat): seq<seq<Token>>
    decreases e
  {
    match e
    case AnyOfThese(subs) => if subs == [] then [] else [Wrap(Join(COr, SubClauses(sc, subs, n, true)))]
    case AllOfThese(subs) => SubClauses(sc, subs, n, false)
    case Field(name, o) => [OperandTokens(Column(sc, name), name in sc.jsonb, o, n)]
  }

  /** The sub-filters in parentheses; those that compile to nothing are kept only where `keepEmpty`. */
  function SubClauses(sc: Schema, subs: seq<Filter>, n: nat, keepEmpty: bool): seq<seq<Token>>
    decreases subs
  {
    if subs == [] then []
    else
      var sql := Join(CAnd, EntriesClauses(sc, subs[0].entries, n));
      (if sql == [] && !keepEmpty then [] else [Wrap(sql)])
      + SubClauses(sc, subs[1..], n + |EntriesParams(sc, subs[0].entries)|, keepEmpty)
  }

  function Tokens(sc: Schema, f: Filter, n: nat): seq<Token> {
    Join(CAnd, EntriesClauses(sc, f.entries, n))
  }

  function Params(sc: Schema, f: Filter): seq<Value> {
    EntriesParams(sc, f.entries)
  }

  // ---------------------------------------------------------------------------------------
  // Errors, in the order the compiler meets them
  // ---------------------------------------------------------------------------------------

  function OperandError(sc: Schema, name: string, o: Operand): Option<FilterError>
    decreases o
  {
    if ColumnName(sc, name).None? then Some(UnknownField(name))
    else if o.Ops? then OpsError(sc, name, o.ops)
    else None
  }

  function OpsError(sc: Schema, name: string, ops: seq<Op>): Option<FilterError>
    decreases ops
  {
    if ops == [] then None
    else
      var first := OpError(sc, name, ops[0]);
      if first.Some? then first else OpsError(sc, name, ops[1..])
  }

  function OpError(sc: Schema, name: string, op: Op): Option<FilterError>
    decreases op
  {
    match op
    case OpNot(o) => if NegatedSize(o).Some? then None else OperandError(sc, name, o)
    case OpOther(op) => Some(UnsupportedOperator(op))
    case _ => None
  }

  function EntriesError(sc: Schema, es: seq<Entry>): Option<FilterError>
    decreases es
  {
    if es == [] then None
    else
      var first := EntryError(sc, es[0]);
      if first.Some? then first else EntriesError(sc, es[1..])
  }

  function EntryError(sc: Schema, e: Entry): Option<FilterError>
    decreases e
  {
    match e
    case AnyOfThese(subs) => SubsError(sc, subs)
    case AllOfThese(subs) => SubsError(sc, subs)
    case Field(name, o) => OperandError(sc, name, o)
  }

  function SubsError(sc: Schema, subs: seq<Filter>): Option<FilterError>
    decreases subs
  {
    if subs == [] then None
    else
      var first := EntriesError(sc, subs[0].entries);
      if first.Some? then first else SubsError(sc, subs[1..])
  }
}
