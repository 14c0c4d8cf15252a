/** What filters select in plain terms: which column a field stands for, which fields are refused, and when a filter
    is true of a row. */
module FieldColumns {
  import opened Wrappers
  import opened Sql
  import opened FilterSyntax
  import opened FilterTheorems
  import opened Cursor

  // ---------------------------------------------------------------------------------------
  // Equality on one field
  // ---------------------------------------------------------------------------------------

  function OneField(field: string, v: Value): Filter {
    Filter([Field(field, Scalar(v))])
  }

  lemma OneFieldSelects(g: Engine, sc: Schema, field: string, v: Value, col: string, row: Row)
    requires field !in sc.jsonb && Column(sc, field) == col
    ensures Selects(g, Tokens(sc, OneField(field, v), 0), Params(sc, OneField(field, v)), row)
       <==> !v.Null? && col in row && row[col] == v
  {
    var f := OneField(field, v);
    var e := Field(field, Scalar(v));
    assert f.entries == [e] && f.entries[1..] == [];
    assert EffectiveEntry(e) == e && EffectiveEntries([]) == [];
    assert EffectiveEntries(f.entries) == [e];
    assert EntriesMeaning(g, sc, row, []) == True;
    assert EntryMeaning(g, sc, row, e) == Compared(g, Eq, Cell(row, col), v);
    assert Meaning(g, sc, row, f) == And(EntryMeaning(g, sc, row, e), True);
    assert EntriesOk([]) && EntriesOk(f.entries);
    TextSelectsMeaning(g, sc, f, row, []);
    assert Params(sc, f) + [] == Params(sc, f);
  }

  /** The text compiled from `{_id: k}` selects the row whose key is `k`, whatever the schema. */
  lemma KeyFilterSelectsKey<D>(g: Engine, sc: Schema, table: seq<Stored<D>>, x: Stored<D>, k: nat)
    requires KeysInColumn(g, table) && x in table && "_id" !in sc.jsonb
    ensures Selects(g, Tokens(sc, OneField("_id", Num(k)), 0), Params(sc, OneField("_id", Num(k))), x.row)
            <==> x.id == k
  {
    OneFieldSelects(g, sc, "_id", Num(k), "id", x.row);
    assert Cell(x.row, "id") == Num(x.id);
  }

  /** The text compiled from `{field: v}` selects the rows with that value in the field's column. */
  lemma FieldFilterSelectsColumn(g: Engine, sc: Schema, field: string, v: Value, row: Row)
    requires field in sc.columns && field != "_id" && field !in sc.jsonb
    ensures Selects(g, Tokens(sc, OneField(field, v), 0), Params(sc, OneField(field, v)), row)
       <==> !v.Null? && sc.columns[field] in row && row[sc.columns[field]] == v
  {
    OneFieldSelects(g, sc, field, v, sc.columns[field], row);
  }

  /** On a JSONB field a string stands for a list that has it, and a list for one that contains it. */
  lemma JsonFieldFilterSelects(g: Engine, sc: Schema, field: string, o: Operand, row: Row)
    requires field in sc.columns && field != "_id" && field in sc.jsonb && !o.Ops?
    ensures Meaning(g, sc, row, Filter([Field(field, o)])) == True
       <==> var col := sc.columns[field];
            && col in row && !row[col].Null?
            && if o.Scalar? then !o.v.Null? && g.hasText(row[col], o.v) else g.contains(row[col], Json(o.items))
  {
    var e := Field(field, o);
    assert [e][1..] == [];
    assert EntriesMeaning(g, sc, row, []) == True;
    assert Meaning(g, sc, row, Filter([e])) == And(EntryMeaning(g, sc, row, e), True);
  }

  /** On any other field a list stands for that very list. */
  lemma ListFilterSelects(g: Engine, sc: Schema, field: string, vs: seq<Value>, row: Row)
    requires field in sc.columns && field != "_id" && field !in sc.jsonb
    ensures Meaning(g, sc, row, Filter([Field(field, Array(vs))])) == True
       <==> sc.columns[field] in row && row[sc.columns[field]] == List(vs)
  {
    var e := Field(field, Array(vs));
    assert [e][1..] == [];
    assert EntriesMeaning(g, sc, row, []) == True;
    assert Meaning(g, sc, row, Filter([e])) == And(EntryMeaning(g, sc, row, e), True);
  }

  // ---------------------------------------------------------------------------------------
  // Which columns a filter reads
  // ---------------------------------------------------------------------------------------

  /** The fields a filter names, at any depth. */
  function FieldsOf(es: seq<Entry>): set<string>
    decreases es
  {
    if es == [] then {} else EntryFields(es[0]) + FieldsOf(es[1..])
  }

  function EntryFields(e: Entry): set<string>
    decreases e
  {
    match e
    case AnyOfThese(subs) => SubFields(subs)
    case AllOfThese(subs) => SubFields(subs)
    case Field(name, _) => {name}
  }

  function SubFields(subs: seq<Filter>): set<string>
    decreases subs
  {
    if subs == [] then {} else FieldsOf(subs[0].entries) + SubFields(subs[1..])
  }

  predicate Known(sc: Schema, field: string) {
    field == "_id" || field in sc.columns
  }

  /** Two rows with the same value in the column of each of these fields. */
  predicate AgreeOn(sc: Schema, fields: set<string>, a: Row, b: Row) {
    && ("_id" in fields ==> Cell(a, "id") == Cell(b, "id"))
    && forall field <- fields ::
         field in sc.columns && field != "_id" ==> Cell(a, sc.columns[field]) == Cell(b, sc.columns[field])
  }

  lemma {:induction false} OperandReadsItsColumn(g: Engine, a: Row, b: Row, col: string, jb: bool, o: Operand)
    requires Cell(a, col) == Cell(b, col)
    ensures OperandMeaning(g, a, col, jb, o) == OperandMeaning(g, b, col, jb, o)
    decreases o
  {
    if o.Ops? {
      OpsReadTheirColumn(g, a, b, col, jb, o.ops);
    }
  }

  lemma {:induction false} OpsReadTheirColumn(g: Engine, a: Row, b: Row, col: string, jb: bool, ops: seq<Op>)
    requires Cell(a, col) == Cell(b, col)
    ensures OpsMeaning(g, a, col, jb, ops) == OpsMeaning(g, b, col, jb, ops)
    decreases ops
  {
    if ops != [] {
      OpReadsItsColumn(g, a, b, col, jb, ops[0]);
      OpsReadTheirColumn(g, a, b, col, jb, ops[1..]);
    }
  }

  lemma {:induction false} OpReadsItsColumn(g: Engine, a: Row, b: Row, col: string, jb: bool, op: Op)
    requires Cell(a, col) == Cell(b, col)
    ensures OpMeaning(g, a, col, jb, op) == OpMeaning(g, b, col, jb, op)
    decreases op
  {
    if op.OpNot? {
      OperandReadsItsColumn(g, a, b, col, jb, op.operand);
    }
  }

  /** A filter reads the columns of the fields it names, and no others. */
  lemma {:induction false} NamedColumnsDecide(g: Engine, sc: Schema, es: seq<Entry>, a: Row, b: Row)
    requires (forall field <- FieldsOf(es) :: Known(sc, field)) && AgreeOn(sc, FieldsOf(es), a, b)
    ensures EntriesMeaning(g, sc, a, es) == EntriesMeaning(g, sc, b, es)
    decreases es, 0
  {
    if es != [] {
      EntryColumnsDecide(g, sc, es[0], a, b);
      NamedColumnsDecide(g, sc, es[1..], a, b);
    }
  }

  lemma {:induction false} EntryColumnsDecide(g: Engine, sc: Schema, e: Entry, a: Row, b: Row)
    requires (forall field <- EntryFields(e) :: Known(sc, field)) && AgreeOn(sc, EntryFields(e), a, b)
    ensures EntryMeaning(g, sc, a, e) == EntryMeaning(g, sc, b, e)
    decreases e
  {
    match e
    case AnyOfThese(subs) => SubColumnsDecide(g, sc, subs, a, b);
    case AllOfThese(subs) => SubColumnsDecide(g, sc, subs, a, b);
    case Field(name, o) =>
      assert name in EntryFields(e);
      OperandReadsItsColumn(g, a, b, Column(sc, name), name in sc.jsonb, o);
  }

  lemma {:induction false} SubColumnsDecide(g: Engine, sc: Schema, subs: seq<Filter>, a: Row, b: Row)
    requires (forall field <- SubFields(subs) :: Known(sc, field)) && AgreeOn(sc, SubFields(subs), a, b)
    ensures SomeMeaning(g, sc, a, subs) == SomeMeaning(g, sc, b, subs)
    ensures EveryMeaning(g, sc, a, subs) == EveryMeaning(g, sc, b, subs)
    decreases subs, 0
  {
    if subs != [] {
      NamedColumnsDecide(g, sc, subs[0].entries, a, b);
      SubColumnsDecide(g, sc, subs[1..], a, b);
    }
  }

  // ---------------------------------------------------------------------------------------
  // Which filters are refused
  // ---------------------------------------------------------------------------------------

  /** An operator the compiler does not know, where it looks: beside a negated `$size` it does not. */
  predicate OddOperand(o: Operand)
    decreases o
  {
    o.Ops? && OddOps(o.ops)
  }

  predicate OddOps(ops: seq<Op>)
    decreases ops
  {
    ops != [] && (OddOp(ops[0]) || OddOps(ops[1..]))
  }

  predicate OddOp(op: Op)
    decreases op
  {
    op.OpOther? || (op.OpNot? && !HasSize(op.operand) && OddOperand(op.operand))
  }

  predicate HasSize(o: Operand) {
    o.Ops? && exists op <- o.ops :: op.OpSize?
  }

  predicate OddEntries(es: seq<Entry>)
    decreases es
  {
    es != [] && (OddEntry(es[0]) || OddEntries(es[1..]))
  }

  predicate OddEntry(e: Entry)
    decreases e
  {
    match e
    case AnyOfThese(subs) => OddSubs(subs)
    case AllOfThese(subs) => OddSubs(subs)
    case Field(_, o) => OddOperand(o)
  }

  predicate OddSubs(subs: seq<Filter>)
    decreases subs
  {
    subs != [] && (OddEntries(subs[0].entries) || OddSubs(subs[1..]))
  }

  lemma {:induction false} SizeIsFound(ops: seq<Op>)
    ensures FirstSize(ops).Some? <==> exists op <- ops :: op.OpSize?
  {
    if ops != [] {
      SizeIsFound(ops[1..]);
      assert ops[0] in ops;
      assert forall op :: op in ops <==> op == ops[0] || op in ops[1..];
    }
  }

  /** The error is one of these: a field without a column, or an operator the compiler does not know. */
  predicate Explains(sc: Schema, fields: set<string>, odd: bool, e: Option<FilterError>) {
    match e
    case None => !odd && forall field <- fields :: Known(sc, field)
    case Some(UnknownField(name)) => name in fields && !Known(sc, name)
    case Some(UnsupportedOperator(_)) => odd
  }

  lemma {:induction false} OperandIsExplained(sc: Schema, name: string, o: Operand)
    ensures Explains(sc, {name}, OddOperand(o), OperandError(sc, name, o))
    decreases o
  {
    if Known(sc, name) && o.Ops? {
      OpsAreExplained(sc, name, o.ops);
    }
  }

  lemma {:induction false} OpsAreExplained(sc: Schema, name: string, ops: seq<Op>)
    requires Known(sc, name)
    ensures Explains(sc, {name}, OddOps(ops), OpsError(sc, name, ops))
    decreases ops
  {
    if ops != [] {
      OpIsExplained(sc, name, ops[0]);
      OpsAreExplained(sc, name, ops[1..]);
    }
  }

  lemma {:induction false} OpIsExplained(sc: Schema, name: string, op: Op)
    requires Known(sc, name)
    ensures Explains(sc, {name}, OddOp(op), OpError(sc, name, op))
    decreases op
  {
    if op.OpNot? {
      OperandIsExplained(sc, name, op.operand);
      if op.operand.Ops? {
        SizeIsFound(op.operand.ops);
      }
    }
  }

  /** A filter is refused if and only if it names a field that is neither `_id` nor has a column, or has an operator
      the compiler does not know; and the error says which. */
  lemma {:induction false} RefusedIffUnknown(sc: Schema, es: seq<Entry>)
    ensures Explains(sc, FieldsOf(es), OddEntries(es), EntriesError(sc, es))
    decreases es, 0
  {
    if es != [] {
      EntryIsExplained(sc, es[0]);
      RefusedIffUnknown(sc, es[1..]);
    }
  }

  lemma {:induction false} EntryIsExplained(sc: Schema, e: Entry)
    ensures Explains(sc, EntryFields(e), OddEntry(e), EntryError(sc, e))
    decreases e
  {
    match e
    case AnyOfThese(subs) => SubsAreExplained(sc, subs);
    case AllOfThese(subs) => SubsAreExplained(sc, subs);
    case Field(name, o) => OperandIsExplained(sc, name, o);
  }

  lemma {:induction false} SubsAreExplained(sc: Schema, subs: seq<Filter>)
    ensures Explains(sc, SubFields(subs), OddSubs(subs), SubsError(sc, subs))
    decreases subs, 0
  {
    if subs != [] {
      RefusedIffUnknown(sc, subs[0].entries);
      SubsAreExplained(sc, subs[1..]);
    }
  }

  /** So a filter whose operators are all known is refused, for an unknown field, exactly when it names one. */
  lemma UnknownFieldIffNamed(sc: Schema, f: Filter)
    requires !OddEntries(f.entries)
    ensures (exists name :: EntriesError(sc, f.entries) == Some(UnknownField(name)))
       <==> exists name <- FieldsOf(f.entries) :: name != "_id" && name !in sc.columns
  {
    RefusedIffUnknown(sc, f.entries);
    var e := EntriesError(sc, f.entries);
    if e.Some? {
      assert e == Some(UnknownField(e.value.name));
    }
  }

  // ---------------------------------------------------------------------------------------
  // When a filter is true
  // ---------------------------------------------------------------------------------------

  /** Three-valued logic: AND is the lesser, OR the greater of FALSE < NULL < TRUE, and NOT turns the order round. */
  function Rank(t: Truth): int {
    match t case False => 0 case Unknown => 1 case True => 2
  }

  lemma LogicIsOrder(a: Truth, b: Truth)
    ensures Rank(And(a, b)) == if Rank(a) < Rank(b) then Rank(a) else Rank(b)
    ensures Rank(Or(a, b)) == if Rank(a) < Rank(b) then Rank(b) else Rank(a)
    ensures Rank(Not(a)) == 2 - Rank(a)
  {
  }

  /** A filter is true of a row if and only if all its entries are. */
  lemma {:induction false} TrueIffAllEntries(g: Engine, sc: Schema, row: Row, es: seq<Entry>)
    ensures EntriesMeaning(g, sc, row, es) == True <==> forall e <- es :: EntryMeaning(g, sc, row, e) == True
    decreases es
  {
    if es != [] {
      TrueIffAllEntries(g, sc, row, es[1..]);
      assert es[0] in es;
      assert forall e :: e in es <==> e == es[0] || e in es[1..];
    }
  }

  lemma {:induction false} SubsAreTrue(g: Engine, sc: Schema, row: Row, subs: seq<Filter>)
    ensures EveryMeaning(g, sc, row, subs) == True <==> forall f <- subs :: Meaning(g, sc, row, f) == True
    ensures SomeMeaning(g, sc, row, subs) == True <==> exists f <- subs :: Meaning(g, sc, row, f) == True
    decreases subs
  {
    if subs != [] {
      SubsAreTrue(g, sc, row, subs[1..]);
      assert subs[0] in subs;
      assert forall f :: f in subs <==> f == subs[0] || f in subs[1..];
    }
  }

  /** `$and` asks for all sub-filters; `$or`, unless it is empty, for one. */
  lemma TrueIffSubs(g: Engine, sc: Schema, row: Row, subs: seq<Filter>)
    ensures EntryMeaning(g, sc, row, AllOfThese(subs)) == True <==> forall f <- subs :: Meaning(g, sc, row, f) == True
    ensures EntryMeaning(g, sc, row, AnyOfThese(subs)) == True
       <==> subs == [] || exists f <- subs :: Meaning(g, sc, row, f) == True
  {
    SubsAreTrue(g, sc, row, subs);
  }

  /** All operators of a field must be true. */
  lemma {:induction false} TrueIffAllOps(g: Engine, row: Row, col: string, jb: bool, ops: seq<Op>)
    ensures OpsMeaning(g, row, col, jb, ops) == True <==> forall op <- ops :: OpMeaning(g, row, col, jb, op) == True
    decreases ops
  {
    if ops != [] {
      TrueIffAllOps(g, row, col, jb, ops[1..]);
      assert ops[0] in ops;
      assert forall op :: op in ops <==> op == ops[0] || op in ops[1..];
    }
  }

  /** What makes an operator true, with its operand and the cell both present where it compares them. */
  lemma OperatorIsTrueIff(g: Engine, row: Row, col: string, jb: bool, op: Op)
    requires col in row && !op.OpOther?
    requires (op.OpIn? || op.OpNin?) ==> forall v <- op.vs :: !v.Null?
    ensures OpMeaning(g, row, col, jb, op) == True
       <==> var x := row[col];
            match op
            case OpGt(v) => !x.Null? && !v.Null? && g.less(v, x)
            case OpGte(v) => !x.Null? && !v.Null? && (x == v || g.less(v, x))
            case OpLt(v) => !x.Null? && !v.Null? && g.less(x, v)
            case OpLte(v) => !x.Null? && !v.Null? && (x == v || g.less(x, v))
            case OpNe(v) => x != v
            case OpExists(b) => b != x.Null?
            case OpIn(vs) => !x.Null? && x in vs
            case OpNin(vs) => vs == [] || (!x.Null? && x !in vs)
            case OpRegex(p, i) => !x.Null? && g.matches(x, Text(p), i)
            case OpSize(n) => !x.Null? && g.length(x) == n
            case OpNot(_) => OperandMeaning(g, row, col, jb, op.operand) == False
            case OpOther(_) => false
  {
    if op.OpIn? || op.OpNin? {
      MembershipInList(g, row[col], op.vs);
    }
  }

  lemma {:induction false} MembershipInList(g: Engine, x: Value, vs: seq<Value>)
    requires forall v <- vs :: !v.Null?
    ensures EqualsAny(g, x, vs) == if vs == [] then False else if x.Null? then Unknown else Lift(x in vs)
  {
    if vs != [] {
      MembershipInList(g, x, vs[1..]);
    }
  }
}
