/** The compiled text reads back as the intended condition, numbers its parameters consecutively, and
    means what the filter means. */
module FilterTheorems {
  import opened Wrappers
  import opened Lists
  import opened Sql
  import opened FilterSyntax

  // ---------------------------------------------------------------------------------------
  // The intended conditions; None marks a syntax error
  // ---------------------------------------------------------------------------------------

  function Negated(e: Option<Expr>): Option<Expr> {
    if e.None? then None else Some(ENot(e.value))
  }

  function OperandTree(col: string, jb: bool, o: Operand, n: nat): Option<Expr>
    decreases o
  {
    if !o.Ops? then Some(ELeaf(OperandAtom(col, jb, o, n)))
    else if o.ops == [] then None
    else Chained(CAnd, OpsTrees(col, jb, o.ops, n))
  }

  function OpsTrees(col: string, jb: bool, ops: seq<Op>, n: nat): (r: seq<Option<Expr>>)
    ensures |r| == |ops|
    decreases ops
  {
    if ops == [] then []
    else [OpTree(col, jb, ops[0], n)] + OpsTrees(col, jb, ops[1..], n + |OpParams(jb, ops[0])|)
  }

  function OpTree(col: string, jb: bool, op: Op, n: nat): Option<Expr>
    decreases op
  {
    match op
    case OpNot(o) =>
      var size := NegatedSize(o);
      if size.Some? then Some(ELeaf(LengthIsNot(col, size.value))) else Negated(OperandTree(col, jb, o, n))
    case OpOther(_) => None
    case _ =>
      var leaf := Some(ELeaf(OpAtom(col, op, n)));
      if op.OpNin? && op.vs != [] then Negated(leaf) else leaf
  }

  function EntriesTrees(sc: Schema, es: seq<Entry>, n: nat): seq<Option<Expr>>
    decreases es
  {
    if es == [] then []
    else EntryTrees(sc, es[0], n) + EntriesTrees(sc, es[1..], n + |EntryParams(sc, es[0])|)
  }

  function EntryTrees(sc: Schema, e: Entry, n: nat): seq<Option<Expr>>
    decreases e
  {
    match e
    case AnyOfThese(subs) =>
      if subs == [] then []
      else
        var ts := SubTrees(sc, subs, n, true);
        [if ts == [] then None else Chained(COr, ts)]
    case AllOfThese(subs) => SubTrees(sc, subs, n, false)
    case Field(name, o) => [OperandTree(Column(sc, name), name in sc.jsonb, o, n)]
  }

  function SubTrees(sc: Schema, subs: seq<Filter>, n: nat, keepEmpty: bool): (r: seq<Option<Expr>>)
    ensures keepEmpty ==> |r| == |subs|
    decreases subs
  {
    if subs == [] then []
    else
      var ts := EntriesTrees(sc, subs[0].entries, n);
      (if ts != [] then [Chained(CAnd, ts)] else if keepEmpty then [None] else [])
      + SubTrees(sc, subs[1..], n + |EntriesParams(sc, subs[0].entries)|, keepEmpty)
  }

  // ---------------------------------------------------------------------------------------
  // Reading back
  // ---------------------------------------------------------------------------------------

  lemma {:induction false} OperandReads(col: string, jb: bool, o: Operand, n: nat)
    ensures ReadsAs(OperandTokens(col, jb, o, n), OperandTree(col, jb, o, n))
    decreases o
  {
    if o.Ops? {
      if o.ops == [] {
        HoleReads();
        assert OperandTokens(col, jb, o, n) == [LP, RP];
      } else {
        OpsRead(col, jb, o.ops, n);
        WrappedChainReads(CAnd, OpsTokens(col, jb, o.ops, n), OpsTrees(col, jb, o.ops, n));
      }
    } else {
      WrappedLeafReads(OperandAtom(col, jb, o, n));
    }
  }

  lemma {:induction false} OpsRead(col: string, jb: bool, ops: seq<Op>, n: nat)
    ensures AllReadAs(OpsTokens(col, jb, ops, n), OpsTrees(col, jb, ops, n))
    decreases ops
  {
    if ops != [] {
      OpReads(col, jb, ops[0], n);
      OpsRead(col, jb, ops[1..], n + |OpParams(jb, ops[0])|);
    }
  }

  lemma {:induction false} OpReads(col: string, jb: bool, op: Op, n: nat)
    ensures ReadsAs(OpTokens(col, jb, op, n), OpTree(col, jb, op, n))
    decreases op
  {
    match op
    case OpNot(o) =>
      if NegatedSize(o).Some? {
        WrappedLeafReads(LengthIsNot(col, NegatedSize(o).value));
      } else {
        OperandReads(col, jb, o, n);
        WrappedNotReads(OperandTokens(col, jb, o, n), OperandTree(col, jb, o, n));
      }
    case OpOther(_) => HoleReads();
    case _ =>
      WrappedLeafReads(OpAtom(col, op, n));
      WrappedNotReads([LP, Leaf(OpAtom(col, op, n)), RP], Some(ELeaf(OpAtom(col, op, n))));
  }

  lemma AllReadAsConcat(a: seq<seq<Token>>, s: seq<Option<Expr>>, b: seq<seq<Token>>, t: seq<Option<Expr>>)
    requires AllReadAs(a, s) && AllReadAs(b, t)
    ensures AllReadAs(a + b, s + t)
  {
    forall i | 0 <= i < |s + t| ensures ReadsAs((a + b)[i], (s + t)[i]) {
      if i < |s| {
        assert ReadsAs(a[i], s[i]);
      } else {
        assert ReadsAs(b[i - |s|], t[i - |s|]);
      }
    }
  }

  lemma JoinedIsEmptyIffNoClauses(op: Connective, clauses: seq<seq<Token>>, es: seq<Option<Expr>>)
    requires AllReadAs(clauses, es)
    ensures Join(op, clauses) == [] <==> es == []
  {
    if es != [] {
      assert ReadsAs(clauses[0], es[0]);
    }
  }

  lemma {:induction false} EntriesRead(sc: Schema, es: seq<Entry>, n: nat)
    ensures AllReadAs(EntriesClauses(sc, es, n), EntriesTrees(sc, es, n))
    decreases es
  {
    if es != [] {
      var m := n + |EntryParams(sc, es[0])|;
      EntryReads(sc, es[0], n);
      EntriesRead(sc, es[1..], m);
      AllReadAsConcat(EntryClauses(sc, es[0], n), EntryTrees(sc, es[0], n),
                      EntriesClauses(sc, es[1..], m), EntriesTrees(sc, es[1..], m));
    }
  }

  lemma {:induction false} EntryReads(sc: Schema, e: Entry, n: nat)
    ensures AllReadAs(EntryClauses(sc, e, n), EntryTrees(sc, e, n))
    decreases e
  {
    match e
    case AnyOfThese(subs) =>
      if subs != [] {
        SubsRead(sc, subs, n, true);
        WrappedChainReads(COr, SubClauses(sc, subs, n, true), SubTrees(sc, subs, n, true));
      }
    case AllOfThese(subs) => SubsRead(sc, subs, n, false);
    case Field(name, o) => OperandReads(Column(sc, name), name in sc.jsonb, o, n);
  }

  lemma {:induction false} SubsRead(sc: Schema, subs: seq<Filter>, n: nat, keepEmpty: bool)
    ensures AllReadAs(SubClauses(sc, subs, n, keepEmpty), SubTrees(sc, subs, n, keepEmpty))
    decreases subs
  {
    if subs != [] {
      var es := subs[0].entries;
      var m := n + |EntriesParams(sc, es)|;
      var clauses, trees := EntriesClauses(sc, es, n), EntriesTrees(sc, es, n);
      EntriesRead(sc, es, n);
      JoinedIsEmptyIffNoClauses(CAnd, clauses, trees);
      var head := if Join(CAnd, clauses) == [] && !keepEmpty then [] else [Wrap(Join(CAnd, clauses))];
      var headTrees := if trees != [] then [Chained(CAnd, trees)] else if keepEmpty then [None] else [];
      if trees != [] {
        WrappedChainReads(CAnd, clauses, trees);
      } else {
        assert Wrap(Join(CAnd, clauses)) == [LP, RP];
        HoleReads();
      }
      assert AllReadAs(head, headTrees);
      SubsRead(sc, subs[1..], m, keepEmpty);
      AllReadAsConcat(head, headTrees, SubClauses(sc, subs[1..], m, keepEmpty), SubTrees(sc, subs[1..], m, keepEmpty));
    }
  }

  // ---------------------------------------------------------------------------------------
  // Which filters compile to valid SQL
  // ---------------------------------------------------------------------------------------

  /** No operator object is empty. */
  predicate OperandOk(o: Operand)
    decreases o
  {
    o.Ops? ==> o.ops != [] && OpsOk(o.ops)
  }

  predicate OpsOk(ops: seq<Op>)
    decreases ops
  {
    ops == [] || (OpOk(ops[0]) && OpsOk(ops[1..]))
  }

  predicate OpOk(op: Op)
    decreases op
  {
    match op
    case OpNot(o) => NegatedSize(o).Some? || OperandOk(o)
    case OpOther(_) => false
    case _ => true
  }

  /** The filter compiles to nothing. */
  predicate Silent(es: seq<Entry>)
    decreases es
  {
    es == [] || (SilentEntry(es[0]) && Silent(es[1..]))
  }

  predicate SilentEntry(e: Entry)
    decreases e
  {
    match e
    case AnyOfThese(subs) => subs == []
    case AllOfThese(subs) => AllSilent(subs)
    case Field(_, _) => false
  }

  predicate AllSilent(subs: seq<Filter>)
    decreases subs
  {
    subs == [] || (Silent(subs[0].entries) && AllSilent(subs[1..]))
  }

  /** Every operand is well formed, and no sub-filter of an `$or` compiles to nothing. */
  predicate EntriesOk(es: seq<Entry>)
    decreases es
  {
    es == [] || (EntryOk(es[0]) && EntriesOk(es[1..]))
  }

  predicate EntryOk(e: Entry)
    decreases e
  {
    match e
    case AnyOfThese(subs) => SubsOk(subs, true)
    case AllOfThese(subs) => SubsOk(subs, false)
    case Field(_, o) => OperandOk(o)
  }

  predicate SubsOk(subs: seq<Filter>, mustSpeak: bool)
    decreases subs
  {
    subs == [] ||
    (EntriesOk(subs[0].entries) && (mustSpeak ==> !Silent(subs[0].entries)) && SubsOk(subs[1..], mustSpeak))
  }

  predicate WellFormed(f: Filter) {
    EntriesOk(f.entries)
  }

  ghost predicate NoErrors(es: seq<Option<Expr>>) {
    forall i :: 0 <= i < |es| ==> es[i].Some?
  }

  lemma {:induction false} ChainedHasNoErrors(op: Connective, es: seq<Option<Expr>>)
    requires es != []
    ensures Chained(op, es).Some? <==> NoErrors(es)
    decreases |es|
  {
    if |es| > 1 {
      ChainedHasNoErrors(op, es[1..]);
      assert forall i :: 0 < i < |es| ==> es[i] == es[1..][i - 1];
    }
  }

  lemma NoErrorsConcat(a: seq<Option<Expr>>, b: seq<Option<Expr>>)
    ensures NoErrors(a + b) <==> NoErrors(a) && NoErrors(b)
  {
    assert forall i :: 0 <= i < |a| ==> (a + b)[i] == a[i];
    assert forall i :: 0 <= i < |b| ==> (a + b)[|a| + i] == b[i];
  }

  lemma {:induction false} OperandTreeExists(col: string, jb: bool, o: Operand, n: nat)
    ensures OperandTree(col, jb, o, n).Some? <==> OperandOk(o)
    decreases o
  {
    if o.Ops? && o.ops != [] {
      OpsTreesExist(col, jb, o.ops, n);
      ChainedHasNoErrors(CAnd, OpsTrees(col, jb, o.ops, n));
    }
  }

  lemma {:induction false} OpsTreesExist(col: string, jb: bool, ops: seq<Op>, n: nat)
    ensures NoErrors(OpsTrees(col, jb, ops, n)) <==> OpsOk(ops)
    decreases ops
  {
    if ops != [] {
      var m := n + |OpParams(jb, ops[0])|;
      OpTreeExists(col, jb, ops[0], n);
      OpsTreesExist(col, jb, ops[1..], m);
      NoErrorsConcat([OpTree(col, jb, ops[0], n)], OpsTrees(col, jb, ops[1..], m));
      assert NoErrors([OpTree(col, jb, ops[0], n)]) <==> [OpTree(col, jb, ops[0], n)][0].Some?;
    }
  }

  lemma {:induction false} OpTreeExists(col: string, jb: bool, op: Op, n: nat)
    ensures OpTree(col, jb, op, n).Some? <==> OpOk(op)
    decreases op
  {
    if op.OpNot? {
      OperandTreeExists(col, jb, op.operand, n);
    }
  }

  lemma {:induction false} EntriesTreesExist(sc: Schema, es: seq<Entry>, n: nat)
    ensures NoErrors(EntriesTrees(sc, es, n)) <==> EntriesOk(es)
    ensures EntriesTrees(sc, es, n) == [] <==> Silent(es)
    decreases es
  {
    if es != [] {
      var m := n + |EntryParams(sc, es[0])|;
      EntryTreesExist(sc, es[0], n);
      EntriesTreesExist(sc, es[1..], m);
      NoErrorsConcat(EntryTrees(sc, es[0], n), EntriesTrees(sc, es[1..], m));
    }
  }

  lemma {:induction false} EntryTreesExist(sc: Schema, e: Entry, n: nat)
    ensures NoErrors(EntryTrees(sc, e, n)) <==> EntryOk(e)
    ensures EntryTrees(sc, e, n) == [] <==> SilentEntry(e)
    decreases e
  {
    match e
    case AnyOfThese(subs) =>
      SubTreesExist(sc, subs, n, true);
      if subs != [] {
        ChainedHasNoErrors(COr, SubTrees(sc, subs, n, true));
        assert NoErrors(EntryTrees(sc, e, n)) <==> EntryTrees(sc, e, n)[0].Some?;
      }
    case AllOfThese(subs) => SubTreesExist(sc, subs, n, false);
    case Field(name, o) =>
      OperandTreeExists(Column(sc, name), name in sc.jsonb, o, n);
      assert NoErrors(EntryTrees(sc, e, n)) <==> EntryTrees(sc, e, n)[0].Some?;
  }

  lemma {:induction false} SubTreesExist(sc: Schema, subs: seq<Filter>, n: nat, keepEmpty: bool)
    ensures NoErrors(SubTrees(sc, subs, n, keepEmpty)) <==> SubsOk(subs, keepEmpty)
    ensures !keepEmpty ==> (SubTrees(sc, subs, n, keepEmpty) == [] <==> AllSilent(subs))
    decreases subs
  {
    if subs != [] {
      var es := subs[0].entries;
      var m := n + |EntriesParams(sc, es)|;
      var ts := EntriesTrees(sc, es, n);
      EntriesTreesExist(sc, es, n);
      SubTreesExist(sc, subs[1..], m, keepEmpty);
      var head := if ts != [] then [Chained(CAnd, ts)] else if keepEmpty then [None] else [];
      if ts != [] {
        ChainedHasNoErrors(CAnd, ts);
      }
      assert head != [] ==> (NoErrors(head) <==> head[0].Some?);
      NoErrorsConcat(head, SubTrees(sc, subs[1..], m, keepEmpty));
    }
  }

  /** A filter that says something compiles to a condition the grammar accepts if and only if it is well
      formed; the condition read back is the intended tree, so no clause is captured by a neighbour. */
  lemma CompilesToValidSql(sc: Schema, f: Filter, n: nat)
    ensures Tokens(sc, f, n) == [] <==> Silent(f.entries)
    ensures !Silent(f.entries) ==>
              EntriesTrees(sc, f.entries, n) != [] &&
              Parse(Tokens(sc, f, n)) == Chained(CAnd, EntriesTrees(sc, f.entries, n))
    ensures !Silent(f.entries) ==> (Parse(Tokens(sc, f, n)).Some? <==> WellFormed(f))
  {
    var clauses, ts := EntriesClauses(sc, f.entries, n), EntriesTrees(sc, f.entries, n);
    EntriesRead(sc, f.entries, n);
    EntriesTreesExist(sc, f.entries, n);
    JoinedIsEmptyIffNoClauses(CAnd, clauses, ts);
    if ts != [] {
      ChainedHasNoErrors(CAnd, ts);
      AndChainReads(clauses, ts, []);
      assert Join(CAnd, clauses) + [] == Join(CAnd, clauses);
    }
  }

  // ---------------------------------------------------------------------------------------
  // Placeholders
  // ---------------------------------------------------------------------------------------

  function AtomIndexes(a: Atom): seq<nat> {
    match a
    case Compare(_, _, i) => [i]
    case Distinct(_, i) => [i]
    case AnyOf(_, i) => [i]
    case Matches(_, i, _) => [i]
    case ContainsArray(_, i) => [i]
    case ContainsText(_, i) => [i]
    case _ => []
  }

  /** The placeholder numbers of a text, from left to right. */
  function Indexes(ts: seq<Token>): seq<nat> {
    if ts == [] then []
    else (if ts[0].Leaf? then AtomIndexes(ts[0].atom) else []) + Indexes(ts[1..])
  }

  function Consecutive(from: nat, count: nat): (r: seq<nat>)
    ensures |r| == count
    ensures forall i :: 0 <= i < count ==> r[i] == from + i
  {
    seq(count, i requires 0 <= i => from + i)
  }

  lemma {:induction false} IndexesConcat(a: seq<Token>, b: seq<Token>)
    ensures Indexes(a + b) == Indexes(a) + Indexes(b)
  {
    if a == [] {
      assert a + b == b;
    } else {
      var first := if a[0].Leaf? then AtomIndexes(a[0].atom) else [];
      IndexesConcat(a[1..], b);
      assert (a + b)[0] == a[0] && (a + b)[1..] == a[1..] + b;
      AppendAssociates(first, Indexes(a[1..]), Indexes(b));
    }
  }

  lemma IndexesOfLeaf(a: Atom)
    ensures Indexes([LP, Leaf(a), RP]) == AtomIndexes(a)
  {
    assert [LP, Leaf(a), RP][1..] == [Leaf(a), RP];
    assert [Leaf(a), RP][1..] == [RP];
    assert Indexes([RP]) == [];
    assert Indexes([Leaf(a), RP]) == AtomIndexes(a) + [];
  }

  lemma IndexesOfWrapped(ts: seq<Token>)
    ensures Indexes(Wrap(ts)) == Indexes(ts)
    ensures Indexes([LP, NOT] + ts + [RP]) == Indexes(ts)
  {
    IndexesConcat([LP] + ts, [RP]);
    IndexesConcat([LP], ts);
    IndexesConcat([LP, NOT] + ts, [RP]);
    IndexesConcat([LP, NOT], ts);
    assert Indexes([LP]) == [] && Indexes([RP]) == [];
    assert [LP, NOT][1..] == [NOT];
    assert Indexes([NOT]) == [];
  }

  /** Clauses whose placeholders run on consecutively from `n`. */
  ghost predicate Numbered(clauses: seq<seq<Token>>, n: nat, count: nat)
    decreases |clauses|
  {
    if clauses == [] then count == 0
    else
      var k := |Indexes(clauses[0])|;
      k <= count && Indexes(clauses[0]) == Consecutive(n + 1, k) && Numbered(clauses[1..], n + k, count - k)
  }

  lemma {:induction false} NumberedConcat(a: seq<seq<Token>>, b: seq<seq<Token>>, n: nat, i: nat, j: nat)
    requires Numbered(a, n, i) && Numbered(b, n + i, j)
    ensures Numbered(a + b, n, i + j)
    decreases |a|
  {
    if a == [] {
      assert a + b == b;
    } else {
      var k := |Indexes(a[0])|;
      NumberedConcat(a[1..], b, n + k, i - k, j);
      assert (a + b)[1..] == a[1..] + b;
    }
  }

  lemma IndexesOfJoin(op: Connective, clauses: seq<seq<Token>>)
    requires |clauses| > 1
    ensures Indexes(Join(op, clauses)) == Indexes(clauses[0]) + Indexes(Join(op, clauses[1..]))
  {
    IndexesConcat(clauses[0] + [Separator(op)], Join(op, clauses[1..]));
    IndexesConcat(clauses[0], [Separator(op)]);
    assert Indexes([Separator(op)]) == [];
  }

  lemma ConsecutiveConcat(from: nat, i: nat, j: nat)
    ensures Consecutive(from, i) + Consecutive(from + i, j) == Consecutive(from, i + j)
  {
  }

  lemma {:induction false} JoinIsNumbered(op: Connective, clauses: seq<seq<Token>>, n: nat, count: nat)
    requires Numbered(clauses, n, count)
    ensures Indexes(Join(op, clauses)) == Consecutive(n + 1, count)
    decreases |clauses|
  {
    if |clauses| == 1 {
      assert Numbered([], n + |Indexes(clauses[0])|, count - |Indexes(clauses[0])|);
    } else if clauses != [] {
      var k := |Indexes(clauses[0])|;
      JoinIsNumbered(op, clauses[1..], n + k, count - k);
      IndexesOfJoin(op, clauses);
      ConsecutiveConcat(n + 1, k, count - k);
    }
  }

  lemma NumberedSingle(clause: seq<Token>, n: nat, count: nat)
    requires Indexes(clause) == Consecutive(n + 1, count)
    ensures Numbered([clause], n, count)
  {
    assert Numbered([], n + count, 0);
  }

  lemma {:induction false} OperandIsNumbered(col: string, jb: bool, o: Operand, n: nat)
    ensures Indexes(OperandTokens(col, jb, o, n)) == Consecutive(n + 1, |OperandParams(jb, o)|)
    decreases o
  {
    if o.Ops? {
      OpsAreNumbered(col, jb, o.ops, n);
      JoinIsNumbered(CAnd, OpsTokens(col, jb, o.ops, n), n, |OpsParams(jb, o.ops)|);
      IndexesOfWrapped(Join(CAnd, OpsTokens(col, jb, o.ops, n)));
    } else {
      IndexesOfLeaf(OperandAtom(col, jb, o, n));
    }
  }

  lemma {:induction false} OpsAreNumbered(col: string, jb: bool, ops: seq<Op>, n: nat)
    ensures Numbered(OpsTokens(col, jb, ops, n), n, |OpsParams(jb, ops)|)
    decreases ops
  {
    if ops != [] {
      var k := |OpParams(jb, ops[0])|;
      OpIsNumbered(col, jb, ops[0], n);
      OpsAreNumbered(col, jb, ops[1..], n + k);
      NumberedSingle(OpTokens(col, jb, ops[0], n), n, k);
      NumberedConcat([OpTokens(col, jb, ops[0], n)], OpsTokens(col, jb, ops[1..], n + k), n, k,
                     |OpsParams(jb, ops[1..])|);
    }
  }

  lemma {:induction false} OpIsNumbered(col: string, jb: bool, op: Op, n: nat)
    ensures Indexes(OpTokens(col, jb, op, n)) == Consecutive(n + 1, |OpParams(jb, op)|)
    decreases op
  {
    match op
    case OpNot(o) =>
      if NegatedSize(o).Some? {
        IndexesOfLeaf(LengthIsNot(col, NegatedSize(o).value));
      } else {
        OperandIsNumbered(col, jb, o, n);
        IndexesOfWrapped(OperandTokens(col, jb, o, n));
      }
    case _ => PlainOpIsNumbered(col, jb, op, n);
  }

  lemma PlainOpIsNumbered(col: string, jb: bool, op: Op, n: nat)
    requires !op.OpNot?
    ensures Indexes(OpTokens(col, jb, op, n)) == Consecutive(n + 1, |OpParams(jb, op)|)
  {
    if op.OpOther? {
      IndexesOfWrapped([]);
      assert Wrap([]) == [LP, RP];
    } else {
      var leaf := [LP, Leaf(OpAtom(col, op, n)), RP];
      IndexesOfLeaf(OpAtom(col, op, n));
      IndexesOfWrapped(leaf);
    }
  }

  lemma {:induction false} EntriesAreNumbered(sc: Schema, es: seq<Entry>, n: nat)
    ensures Numbered(EntriesClauses(sc, es, n), n, |EntriesParams(sc, es)|)
    decreases es
  {
    if es != [] {
      var k := |EntryParams(sc, es[0])|;
      EntryIsNumbered(sc, es[0], n);
      EntriesAreNumbered(sc, es[1..], n + k);
      NumberedConcat(EntryClauses(sc, es[0], n), EntriesClauses(sc, es[1..], n + k), n, k,
                     |EntriesParams(sc, es[1..])|);
    }
  }

  lemma {:induction false} EntryIsNumbered(sc: Schema, e: Entry, n: nat)
    ensures Numbered(EntryClauses(sc, e, n), n, |EntryParams(sc, e)|)
    decreases e
  {
    match e
    case AnyOfThese(subs) =>
      if subs != [] {
        var cs := SubClauses(sc, subs, n, true);
        SubsAreNumbered(sc, subs, n, true);
        JoinIsNumbered(COr, cs, n, |SubsParams(sc, subs)|);
        IndexesOfWrapped(Join(COr, cs));
        NumberedSingle(Wrap(Join(COr, cs)), n, |SubsParams(sc, subs)|);
      }
    case AllOfThese(subs) => SubsAreNumbered(sc, subs, n, false);
    case Field(name, o) =>
      OperandIsNumbered(Column(sc, name), name in sc.jsonb, o, n);
      NumberedSingle(OperandTokens(Column(sc, name), name in sc.jsonb, o, n), n, |OperandParams(name in sc.jsonb, o)|);
  }

  lemma {:induction false} SubsAreNumbered(sc: Schema, subs: seq<Filter>, n: nat, keepEmpty: bool)
    ensures Numbered(SubClauses(sc, subs, n, keepEmpty), n, |SubsParams(sc, subs)|)
    decreases subs
  {
    if subs != [] {
      var es := subs[0].entries;
      var k := |EntriesParams(sc, es)|;
      var sql := Join(CAnd, EntriesClauses(sc, es, n));
      EntriesAreNumbered(sc, es, n);
      JoinIsNumbered(CAnd, EntriesClauses(sc, es, n), n, k);
      SubsAreNumbered(sc, subs[1..], n + k, keepEmpty);
      var head := if sql == [] && !keepEmpty then [] else [Wrap(sql)];
      IndexesOfWrapped(sql);
      if head != [] {
        NumberedSingle(Wrap(sql), n, k);
      }
      NumberedConcat(head, SubClauses(sc, subs[1..], n + k, keepEmpty), n, k, |SubsParams(sc, subs[1..])|);
    }
  }

  /** The placeholders of a compiled filter are exactly the indexes of the parameters it appended,
      each once and in the order they were appended. */
  lemma PlaceholdersAreConsecutive(sc: Schema, f: Filter, n: nat)
    ensures Indexes(Tokens(sc, f, n)) == Consecutive(n + 1, |Params(sc, f)|)
  {
    EntriesAreNumbered(sc, f.entries, n);
    JoinIsNumbered(CAnd, EntriesClauses(sc, f.entries, n), n, |Params(sc, f)|);
  }

  // ---------------------------------------------------------------------------------------
  // Meaning
  // ---------------------------------------------------------------------------------------

  /** The operand as compiled: what stands beside a negated `$size` is dropped. */
  function EffectiveOperand(o: Operand): Operand
    decreases o
  {
    if o.Ops? then Ops(EffectiveOps(o.ops)) else o
  }

  function EffectiveOps(ops: seq<Op>): (r: seq<Op>)
    ensures |r| == |ops|
    decreases ops
  {
    if ops == [] then [] else [EffectiveOp(ops[0])] + EffectiveOps(ops[1..])
  }

  function EffectiveOp(op: Op): Op
    decreases op
  {
    if !op.OpNot? then op
    else
      var size := NegatedSize(op.operand);
      OpNot(if size.Some? then Ops([OpSize(size.value)]) else EffectiveOperand(op.operand))
  }

  function EffectiveEntries(es: seq<Entry>): (r: seq<Entry>)
    ensures |r| == |es|
    decreases es
  {
    if es == [] then [] else [EffectiveEntry(es[0])] + EffectiveEntries(es[1..])
  }

  function EffectiveEntry(e: Entry): Entry
    decreases e
  {
    match e
    case AnyOfThese(subs) => AnyOfThese(EffectiveSubs(subs))
    case AllOfThese(subs) => AllOfThese(EffectiveSubs(subs))
    case Field(name, o) => Field(name, EffectiveOperand(o))
  }

  function EffectiveSubs(subs: seq<Filter>): (r: seq<Filter>)
    ensures |r| == |subs|
    decreases subs
  {
    if subs == [] then [] else [Filter(EffectiveEntries(subs[0].entries))] + EffectiveSubs(subs[1..])
  }

  function Effective(f: Filter): Filter {
    Filter(EffectiveEntries(f.entries))
  }

  /** The parameters `added` stand in `params` right after the first `n`. */
  ghost predicate Placed(params: seq<Value>, n: nat, added: seq<Value>) {
    n + |added| <= |params| && params[n..n + |added|] == added
  }

  lemma PlacedSplits(params: seq<Value>, n: nat, a: seq<Value>, b: seq<Value>)
    requires Placed(params, n, a + b)
    ensures Placed(params, n, a) && Placed(params, n + |a|, b)
  {
    assert params[n..n + |a|] == params[n..n + |a + b|][..|a|];
    assert params[n + |a|..n + |a| + |b|] == params[n..n + |a + b|][|a|..];
  }

  lemma PlacedSingle(params: seq<Value>, n: nat, v: Value)
    requires Placed(params, n, [v])
    ensures Param(params, n + 1) == v
  {
    assert params[n] == params[n..n + 1][0];
  }

  /** The conjunction (or disjunction) of a list of conditions. */
  function EvalList(g: Engine, op: Connective, es: seq<Option<Expr>>, params: seq<Value>, row: Row): Truth {
    if es == [] then Lift(op.CAnd?)
    else
      var head := if es[0].None? then Unknown else Eval(g, es[0].value, params, row);
      var tail := EvalList(g, op, es[1..], params, row);
      if op.CAnd? then And(head, tail) else Or(head, tail)
  }

  lemma {:induction false} EvalListConcat(g: Engine, a: seq<Option<Expr>>, b: seq<Option<Expr>>, params: seq<Value>,
                                          row: Row)
    ensures EvalList(g, CAnd, a + b, params, row)
         == And(EvalList(g, CAnd, a, params, row), EvalList(g, CAnd, b, params, row))
  {
    if a == [] {
      assert a + b == b;
    } else {
      EvalListConcat(g, a[1..], b, params, row);
      assert (a + b)[1..] == a[1..] + b;
    }
  }

  lemma {:induction false} ChainedEvaluates(g: Engine, op: Connective, es: seq<Option<Expr>>, params: seq<Value>,
                                            row: Row)
    requires es != [] && Chained(op, es).Some?
    ensures Eval(g, Chained(op, es).value, params, row) == EvalList(g, op, es, params, row)
    decreases |es|
  {
    if |es| > 1 {
      ChainedEvaluates(g, op, es[1..], params, row);
    } else {
      assert EvalList(g, op, es[1..], params, row) == Lift(op.CAnd?);
    }
  }

  lemma {:induction false} OperandMeans(g: Engine, row: Row, params: seq<Value>, col: string, jb: bool, o: Operand,
                                        n: nat)
    requires Placed(params, n, OperandParams(jb, o)) && OperandTree(col, jb, o, n).Some?
    ensures Eval(g, OperandTree(col, jb, o, n).value, params, row)
            == OperandMeaning(g, row, col, jb, EffectiveOperand(o))
    decreases o
  {
    OperandTreeExists(col, jb, o, n);
    if o.Ops? {
      OpsMean(g, row, params, col, jb, o.ops, n);
      ChainedEvaluates(g, CAnd, OpsTrees(col, jb, o.ops, n), params, row);
    } else {
      PlacedSingle(params, n, OperandParams(jb, o)[0]);
    }
  }

  lemma {:induction false} OpsMean(g: Engine, row: Row, params: seq<Value>, col: string, jb: bool, ops: seq<Op>, n: nat)
    requires Placed(params, n, OpsParams(jb, ops)) && OpsOk(ops)
    ensures EvalList(g, CAnd, OpsTrees(col, jb, ops, n), params, row) == OpsMeaning(g, row, col, jb, EffectiveOps(ops))
    decreases ops
  {
    if ops != [] {
      PlacedSplits(params, n, OpParams(jb, ops[0]), OpsParams(jb, ops[1..]));
      OpMeans(g, row, params, col, jb, ops[0], n);
      OpsMean(g, row, params, col, jb, ops[1..], n + |OpParams(jb, ops[0])|);
      assert OpsTrees(col, jb, ops, n)[1..] == OpsTrees(col, jb, ops[1..], n + |OpParams(jb, ops[0])|);
      assert EffectiveOps(ops)[1..] == EffectiveOps(ops[1..]);
    }
  }

  lemma PlainOpMeans(g: Engine, row: Row, params: seq<Value>, col: string, jb: bool, op: Op, n: nat)
    requires Placed(params, n, OpParams(jb, op)) && OpOk(op) && !op.OpNot?
    ensures OpTree(col, jb, op, n).Some?
    ensures Eval(g, OpTree(col, jb, op, n).value, params, row) == OpMeaning(g, row, col, jb, EffectiveOp(op))
  {
    if OpParams(jb, op) != [] {
      PlacedSingle(params, n, OpParams(jb, op)[0]);
    }
  }

  lemma {:induction false} OpMeans(g: Engine, row: Row, params: seq<Value>, col: string, jb: bool, op: Op, n: nat)
    requires Placed(params, n, OpParams(jb, op)) && OpOk(op)
    ensures OpTree(col, jb, op, n).Some?
    ensures Eval(g, OpTree(col, jb, op, n).value, params, row) == OpMeaning(g, row, col, jb, EffectiveOp(op))
    decreases op
  {
    if op.OpNot? {
      if NegatedSize(op.operand).None? {
        OperandTreeExists(col, jb, op.operand, n);
        OperandMeans(g, row, params, col, jb, op.operand, n);
      } else {
        var size := [OpSize(NegatedSize(op.operand).value)];
        assert OpsMeaning(g, row, col, jb, size)
               == And(OpMeaning(g, row, col, jb, size[0]), OpsMeaning(g, row, col, jb, []));
      }
    } else {
      PlainOpMeans(g, row, params, col, jb, op, n);
    }
  }

  lemma {:induction false} EntriesMean(g: Engine, row: Row, params: seq<Value>, sc: Schema, es: seq<Entry>, n: nat)
    requires Placed(params, n, EntriesParams(sc, es)) && EntriesOk(es)
    ensures EvalList(g, CAnd, EntriesTrees(sc, es, n), params, row) == EntriesMeaning(g, sc, row, EffectiveEntries(es))
    decreases es, 0
  {
    if es != [] {
      var m := n + |EntryParams(sc, es[0])|;
      PlacedSplits(params, n, EntryParams(sc, es[0]), EntriesParams(sc, es[1..]));
      EntryMeans(g, row, params, sc, es[0], n);
      EntriesMean(g, row, params, sc, es[1..], m);
      EvalListConcat(g, EntryTrees(sc, es[0], n), EntriesTrees(sc, es[1..], m), params, row);
      assert EffectiveEntries(es)[1..] == EffectiveEntries(es[1..]);
    }
  }

  lemma {:induction false} EntryMeans(g: Engine, row: Row, params: seq<Value>, sc: Schema, e: Entry, n: nat)
    requires Placed(params, n, EntryParams(sc, e)) && EntryOk(e)
    ensures EvalList(g, CAnd, EntryTrees(sc, e, n), params, row) == EntryMeaning(g, sc, row, EffectiveEntry(e))
    decreases e
  {
    match e
    case AnyOfThese(subs) =>
      if subs != [] {
        var ts := SubTrees(sc, subs, n, true);
        SubTreesExist(sc, subs, n, true);
        ChainedHasNoErrors(COr, ts);
        SomeMeans(g, row, params, sc, subs, n);
        ChainedEvaluates(g, COr, ts, params, row);
        SingleEvaluates(g, Chained(COr, ts), params, row);
      }
    case AllOfThese(subs) => EveryMeans(g, row, params, sc, subs, n);
    case Field(name, o) =>
      OperandTreeExists(Column(sc, name), name in sc.jsonb, o, n);
      OperandMeans(g, row, params, Column(sc, name), name in sc.jsonb, o, n);
      SingleEvaluates(g, OperandTree(Column(sc, name), name in sc.jsonb, o, n), params, row);
  }

  lemma SingleEvaluates(g: Engine, e: Option<Expr>, params: seq<Value>, row: Row)
    requires e.Some?
    ensures EvalList(g, CAnd, [e], params, row) == Eval(g, e.value, params, row)
  {
    assert [e][1..] == [];
  }

  lemma EvalFirst(g: Engine, op: Connective, e: Option<Expr>, es: seq<Option<Expr>>, params: seq<Value>, row: Row)
    ensures EvalList(g, op, [e] + es, params, row)
         == var head := if e.None? then Unknown else Eval(g, e.value, params, row);
            if op.CAnd? then And(head, EvalList(g, op, es, params, row)) else Or(head, EvalList(g, op, es, params, row))
  {
    assert ([e] + es)[1..] == es;
  }

  lemma FirstSubMeans(g: Engine, row: Row, sc: Schema, subs: seq<Filter>)
    requires subs != []
    ensures var head, rest := EntriesMeaning(g, sc, row, EffectiveEntries(subs[0].entries)), EffectiveSubs(subs[1..]);
            && EveryMeaning(g, sc, row, EffectiveSubs(subs)) == And(head, EveryMeaning(g, sc, row, rest))
            && SomeMeaning(g, sc, row, EffectiveSubs(subs)) == Or(head, SomeMeaning(g, sc, row, rest))
  {
    assert EffectiveSubs(subs)[1..] == EffectiveSubs(subs[1..]);
  }

  lemma {:induction false} SomeMeans(g: Engine, row: Row, params: seq<Value>, sc: Schema, subs: seq<Filter>, n: nat)
    requires Placed(params, n, SubsParams(sc, subs)) && SubsOk(subs, true)
    ensures EvalList(g, COr, SubTrees(sc, subs, n, true), params, row) == SomeMeaning(g, sc, row, EffectiveSubs(subs))
    decreases subs
  {
    if subs != [] {
      var es := subs[0].entries;
      var m := n + |EntriesParams(sc, es)|;
      PlacedSplits(params, n, EntriesParams(sc, es), SubsParams(sc, subs[1..]));
      SubMeans(g, row, params, sc, es, n);
      SomeMeans(g, row, params, sc, subs[1..], m);
      EvalFirst(g, COr, Chained(CAnd, EntriesTrees(sc, es, n)), SubTrees(sc, subs[1..], m, true), params, row);
      FirstSubMeans(g, row, sc, subs);
    }
  }

  lemma {:induction false} EveryMeans(g: Engine, row: Row, params: seq<Value>, sc: Schema, subs: seq<Filter>, n: nat)
    requires Placed(params, n, SubsParams(sc, subs)) && SubsOk(subs, false)
    ensures EvalList(g, CAnd, SubTrees(sc, subs, n, false), params, row)
            == EveryMeaning(g, sc, row, EffectiveSubs(subs))
    decreases subs
  {
    if subs != [] {
      var es := subs[0].entries;
      var m := n + |EntriesParams(sc, es)|;
      PlacedSplits(params, n, EntriesParams(sc, es), SubsParams(sc, subs[1..]));
      SubMeans(g, row, params, sc, es, n);
      EveryMeans(g, row, params, sc, subs[1..], m);
      FirstSubMeans(g, row, sc, subs);
      if EntriesTrees(sc, es, n) != [] {
        EvalFirst(g, CAnd, Chained(CAnd, EntriesTrees(sc, es, n)), SubTrees(sc, subs[1..], m, false), params, row);
      } else {
        assert SubTrees(sc, subs, n, false) == SubTrees(sc, subs[1..], m, false);
      }
    }
  }

  /** One sub-filter in parentheses. */
  lemma {:induction false} SubMeans(g: Engine, row: Row, params: seq<Value>, sc: Schema, es: seq<Entry>, n: nat)
    requires Placed(params, n, EntriesParams(sc, es)) && EntriesOk(es)
    ensures EntriesTrees(sc, es, n) == [] <==> Silent(es)
    ensures var ts := EntriesTrees(sc, es, n);
            if ts == [] then EntriesMeaning(g, sc, row, EffectiveEntries(es)) == True
            else Chained(CAnd, ts).Some?
                 && Eval(g, Chained(CAnd, ts).value, params, row) == EntriesMeaning(g, sc, row, EffectiveEntries(es))
    decreases es, 1
  {
    var ts := EntriesTrees(sc, es, n);
    EntriesTreesExist(sc, es, n);
    EntriesMean(g, row, params, sc, es, n);
    if ts != [] {
      ChainedHasNoErrors(CAnd, ts);
      ChainedEvaluates(g, CAnd, ts, params, row);
    }
  }

  /** For every well-formed filter, every row, every behaviour of the engine on values, and every parameter
      array that extends the one the compiler leaves behind: the text means what the effective filter
      means, in three-valued logic. A filter that compiles to nothing constrains nothing. */
  lemma CompiledMeaning(g: Engine, sc: Schema, row: Row, f: Filter, before: seq<Value>, after: seq<Value>)
    requires WellFormed(f)
    ensures var e := Parse(Tokens(sc, f, |before|));
            if Silent(f.entries) then Meaning(g, sc, row, Effective(f)) == True
            else e.Some? && Eval(g, e.value, before + Params(sc, f) + after, row) == Meaning(g, sc, row, Effective(f))
  {
    var n, params := |before|, before + Params(sc, f) + after;
    assert params[n..n + |Params(sc, f)|] == Params(sc, f);
    CompilesToValidSql(sc, f, n);
    SubMeans(g, row, params, sc, f.entries, n);
  }

  // ---------------------------------------------------------------------------------------
  // Where the text means less than the filter
  // ---------------------------------------------------------------------------------------

  /** No `$not` drops an operator: one with a `$size` negates that alone. */
  predicate OperandKept(o: Operand)
    decreases o
  {
    o.Ops? ==> OpsKept(o.ops)
  }

  predicate OpsKept(ops: seq<Op>)
    decreases ops
  {
    ops == [] || (OpKept(ops[0]) && OpsKept(ops[1..]))
  }

  predicate OpKept(op: Op)
    decreases op
  {
    op.OpNot? ==> if NegatedSize(op.operand).Some? then |op.operand.ops| == 1 else OperandKept(op.operand)
  }

  predicate EntriesKept(es: seq<Entry>)
    decreases es
  {
    es == [] || (EntryKept(es[0]) && EntriesKept(es[1..]))
  }

  predicate EntryKept(e: Entry)
    decreases e
  {
    match e
    case AnyOfThese(subs) => SubsKept(subs)
    case AllOfThese(subs) => SubsKept(subs)
    case Field(_, o) => OperandKept(o)
  }

  predicate SubsKept(subs: seq<Filter>)
    decreases subs
  {
    subs == [] || (EntriesKept(subs[0].entries) && SubsKept(subs[1..]))
  }

  lemma {:induction false} OperandIsEffective(o: Operand)
    ensures EffectiveOperand(o) == o <==> OperandKept(o)
    decreases o
  {
    if o.Ops? {
      OpsAreEffective(o.ops);
    }
  }

  lemma {:induction false} OpsAreEffective(ops: seq<Op>)
    ensures EffectiveOps(ops) == ops <==> OpsKept(ops)
    decreases ops
  {
    if ops != [] {
      OpIsEffective(ops[0]);
      OpsAreEffective(ops[1..]);
      assert EffectiveOps(ops)[0] == EffectiveOp(ops[0]) && EffectiveOps(ops)[1..] == EffectiveOps(ops[1..]);
      assert ops == [ops[0]] + ops[1..];
    }
  }

  lemma {:induction false} OpIsEffective(op: Op)
    ensures EffectiveOp(op) == op <==> OpKept(op)
    decreases op
  {
    if op.OpNot? {
      var size := NegatedSize(op.operand);
      if size.Some? {
        var ops := op.operand.ops;
        assert |ops| == 1 ==> ops == [ops[0]] && ops[1..] == [];
        assert |ops| == 1 ==> FirstSize(ops[1..]).None?;
      } else {
        OperandIsEffective(op.operand);
      }
    }
  }

  lemma {:induction false} EntriesAreEffective(es: seq<Entry>)
    ensures EffectiveEntries(es) == es <==> EntriesKept(es)
    decreases es
  {
    if es != [] {
      EntryIsEffective(es[0]);
      EntriesAreEffective(es[1..]);
      assert EffectiveEntries(es)[0] == EffectiveEntry(es[0]) && EffectiveEntries(es)[1..] == EffectiveEntries(es[1..]);
      assert es == [es[0]] + es[1..];
    }
  }

  lemma {:induction false} EntryIsEffective(e: Entry)
    ensures EffectiveEntry(e) == e <==> EntryKept(e)
    decreases e
  {
    match e
    case AnyOfThese(subs) => SubsAreEffective(subs);
    case AllOfThese(subs) => SubsAreEffective(subs);
    case Field(_, o) => OperandIsEffective(o);
  }

  lemma {:induction false} SubsAreEffective(subs: seq<Filter>)
    ensures EffectiveSubs(subs) == subs <==> SubsKept(subs)
    decreases subs
  {
    if subs != [] {
      EntriesAreEffective(subs[0].entries);
      SubsAreEffective(subs[1..]);
      assert EffectiveSubs(subs)[0] == Filter(EffectiveEntries(subs[0].entries));
      assert EffectiveSubs(subs)[1..] == EffectiveSubs(subs[1..]);
      assert subs == [subs[0]] + subs[1..];
    }
  }

  /** A filter is its own effective filter exactly when no `$not` of it holds a `$size` next to
      another operator; such filters are compiled to what they mean. */
  lemma NothingDroppedMeansExact(g: Engine, sc: Schema, row: Row, f: Filter, before: seq<Value>, after: seq<Value>)
    requires WellFormed(f) && !Silent(f.entries)
    ensures Effective(f) == f <==> EntriesKept(f.entries)
    ensures EntriesKept(f.entries) ==>
              var e := Parse(Tokens(sc, f, |before|));
              e.Some? && Eval(g, e.value, before + Params(sc, f) + after, row) == Meaning(g, sc, row, f)
  {
    EntriesAreEffective(f.entries);
    CompiledMeaning(g, sc, row, f, before, after);
  }

  /** `{tags: {$not: {$size: 2, $exists: false}}}` is well formed, but its text asks only for a size
      other than 2: a row with two tags meets the filter and not the text. */
  lemma NegatedSizeDropsItsNeighbours(g: Engine, sc: Schema, row: Row)
    requires "tags" in sc.columns && sc.columns["tags"] in row && "tags" in sc.jsonb
    requires !row[sc.columns["tags"]].Null? && g.length(row[sc.columns["tags"]]) == 2
    ensures var f := Filter([Field("tags", Ops([OpNot(Ops([OpSize(2), OpExists(false)]))]))]);
            && WellFormed(f)
            && Meaning(g, sc, row, f) == True
            && Meaning(g, sc, row, Effective(f)) == False
  {
    var inner := [OpSize(2), OpExists(false)];
    var not := OpNot(Ops(inner));
    var f := Filter([Field("tags", Ops([not]))]);
    var col := sc.columns["tags"];
    assert inner[1..] == [OpExists(false)] && inner[1..][1..] == [];
    assert OpsMeaning(g, row, col, true, inner[1..]) == False;
    assert OpsMeaning(g, row, col, true, inner) == False;
    assert OpMeaning(g, row, col, true, not) == True;
    SingletonMeaning(g, row, col, true, not);
    var small := EffectiveOp(not);
    assert small == OpNot(Ops([OpSize(2)]));
    SingletonMeaning(g, row, col, true, OpSize(2));
    SingletonMeaning(g, row, col, true, small);
    assert EffectiveOps([not]) == [small];
    assert EffectiveEntries(f.entries) == [Field("tags", Ops([small]))];
    assert f.entries[1..] == [];
    assert EffectiveEntries(f.entries)[1..] == [];
  }

  lemma SingletonMeaning(g: Engine, row: Row, col: string, jb: bool, op: Op)
    ensures OpsMeaning(g, row, col, jb, [op]) == And(OpMeaning(g, row, col, jb, op), True)
  {
    assert [op][1..] == [];
  }
}
