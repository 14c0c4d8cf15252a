/** On which rows a negated `$size` whose neighbours are dropped makes text and filter part. */
module NegatedSizes {
  import opened Sql
  import opened FilterSyntax
  import opened FilterTheorems

  ghost predicate NoneFalse(g: Engine, row: Row, col: string, jb: bool, ops: seq<Op>) {
    forall i :: 0 <= i < |ops| ==> OpMeaning(g, row, col, jb, ops[i]) != False
  }

  ghost predicate AllTrue(g: Engine, row: Row, col: string, jb: bool, ops: seq<Op>) {
    forall i :: 0 <= i < |ops| ==> OpMeaning(g, row, col, jb, ops[i]) == True
  }

  lemma {:induction false} OpsMeaningIs(g: Engine, row: Row, col: string, jb: bool, ops: seq<Op>)
    ensures OpsMeaning(g, row, col, jb, ops) == True <==> AllTrue(g, row, col, jb, ops)
    ensures OpsMeaning(g, row, col, jb, ops) != False <==> NoneFalse(g, row, col, jb, ops)
    decreases |ops|
  {
    if ops != [] {
      OpsMeaningIs(g, row, col, jb, ops[1..]);
      assert ops == [ops[0]] + ops[1..];
    }
  }

  lemma {:induction false} FirstSizeIsThere(ops: seq<Op>)
    requires FirstSize(ops).Some?
    ensures exists i :: 0 <= i < |ops| && ops[i] == OpSize(FirstSize(ops).value)
    decreases |ops|
  {
    if !ops[0].OpSize? {
      FirstSizeIsThere(ops[1..]);
      var i :| 0 <= i < |ops[1..]| && ops[1..][i] == OpSize(FirstSize(ops).value);
      assert ops[i + 1] == OpSize(FirstSize(ops).value);
    } else {
      assert ops[0] == OpSize(FirstSize(ops).value);
    }
  }

  /** The column settles what stands beside the `$size`: on a column of that size all operators hold, on NULL
      none is false, and on any other the `$size` alone decides. */
  ghost predicate SizeDecides(g: Engine, row: Row, col: string, jb: bool, ops: seq<Op>)
    requires FirstSize(ops).Some?
  {
    var x := Cell(row, col);
    && (!x.Null? && g.length(x) == FirstSize(ops).value ==> AllTrue(g, row, col, jb, ops))
    && (x.Null? ==> NoneFalse(g, row, col, jb, ops))
  }

  /** On a row, a negated `$size` with its neighbours dropped means the same if and only if the size decides. */
  lemma NegatedSizeIsExactIff(g: Engine, row: Row, col: string, jb: bool, ops: seq<Op>)
    requires FirstSize(ops).Some?
    ensures OpMeaning(g, row, col, jb, EffectiveOp(OpNot(Ops(ops)))) == OpMeaning(g, row, col, jb, OpNot(Ops(ops)))
       <==> SizeDecides(g, row, col, jb, ops)
  {
    var size := OpSize(FirstSize(ops).value);
    assert EffectiveOp(OpNot(Ops(ops))) == OpNot(Ops([size]));
    SingletonMeaning(g, row, col, jb, size);
    FirstSizeIsThere(ops);
    OpsMeaningIs(g, row, col, jb, ops);
  }

  /** The size decides at every negated `$size` of the filter. */
  ghost predicate OperandDecided(g: Engine, row: Row, col: string, jb: bool, o: Operand)
    decreases o
  {
    o.Ops? ==> OpsDecided(g, row, col, jb, o.ops)
  }

  ghost predicate OpsDecided(g: Engine, row: Row, col: string, jb: bool, ops: seq<Op>)
    decreases ops
  {
    ops == [] || (OpDecided(g, row, col, jb, ops[0]) && OpsDecided(g, row, col, jb, ops[1..]))
  }

  ghost predicate OpDecided(g: Engine, row: Row, col: string, jb: bool, op: Op)
    decreases op
  {
    op.OpNot? ==> if NegatedSize(op.operand).Some? then SizeDecides(g, row, col, jb, op.operand.ops)
                  else OperandDecided(g, row, col, jb, op.operand)
  }

  ghost predicate EntriesDecided(g: Engine, sc: Schema, row: Row, es: seq<Entry>)
    decreases es
  {
    es == [] || (EntryDecided(g, sc, row, es[0]) && EntriesDecided(g, sc, row, es[1..]))
  }

  ghost predicate EntryDecided(g: Engine, sc: Schema, row: Row, e: Entry)
    decreases e
  {
    match e
    case AnyOfThese(subs) => SubsDecided(g, sc, row, subs)
    case AllOfThese(subs) => SubsDecided(g, sc, row, subs)
    case Field(name, o) => OperandDecided(g, row, Column(sc, name), name in sc.jsonb, o)
  }

  ghost predicate SubsDecided(g: Engine, sc: Schema, row: Row, subs: seq<Filter>)
    decreases subs
  {
    subs == [] || (EntriesDecided(g, sc, row, subs[0].entries) && SubsDecided(g, sc, row, subs[1..]))
  }

  lemma {:induction false} OperandUnchanged(g: Engine, row: Row, col: string, jb: bool, o: Operand)
    requires OperandDecided(g, row, col, jb, o)
    ensures OperandMeaning(g, row, col, jb, EffectiveOperand(o)) == OperandMeaning(g, row, col, jb, o)
    decreases o
  {
    if o.Ops? {
      OpsUnchanged(g, row, col, jb, o.ops);
    }
  }

  lemma {:induction false} OpsUnchanged(g: Engine, row: Row, col: string, jb: bool, ops: seq<Op>)
    requires OpsDecided(g, row, col, jb, ops)
    ensures OpsMeaning(g, row, col, jb, EffectiveOps(ops)) == OpsMeaning(g, row, col, jb, ops)
    decreases ops
  {
    if ops != [] {
      OpUnchanged(g, row, col, jb, ops[0]);
      OpsUnchanged(g, row, col, jb, ops[1..]);
      assert EffectiveOps(ops)[1..] == EffectiveOps(ops[1..]);
    }
  }

  lemma {:induction false} OpUnchanged(g: Engine, row: Row, col: string, jb: bool, op: Op)
    requires OpDecided(g, row, col, jb, op)
    ensures OpMeaning(g, row, col, jb, EffectiveOp(op)) == OpMeaning(g, row, col, jb, op)
    decreases op
  {
    if op.OpNot? {
      if NegatedSize(op.operand).Some? {
        NegatedSizeIsExactIff(g, row, col, jb, op.operand.ops);
      } else {
        OperandUnchanged(g, row, col, jb, op.operand);
      }
    }
  }

  lemma {:induction false} EntriesUnchanged(g: Engine, sc: Schema, row: Row, es: seq<Entry>)
    requires EntriesDecided(g, sc, row, es)
    ensures EntriesMeaning(g, sc, row, EffectiveEntries(es)) == EntriesMeaning(g, sc, row, es)
    decreases es
  {
    if es != [] {
      EntryUnchanged(g, sc, row, es[0]);
      EntriesUnchanged(g, sc, row, es[1..]);
      assert EffectiveEntries(es)[1..] == EffectiveEntries(es[1..]);
    }
  }

  lemma {:induction false} EntryUnchanged(g: Engine, sc: Schema, row: Row, e: Entry)
    requires EntryDecided(g, sc, row, e)
    ensures EntryMeaning(g, sc, row, EffectiveEntry(e)) == EntryMeaning(g, sc, row, e)
    decreases e
  {
    match e
    case AnyOfThese(subs) => SubsUnchanged(g, sc, row, subs);
    case AllOfThese(subs) => SubsUnchanged(g, sc, row, subs);
    case Field(name, o) => OperandUnchanged(g, row, Column(sc, name), name in sc.jsonb, o);
  }

  lemma {:induction false} SubsUnchanged(g: Engine, sc: Schema, row: Row, subs: seq<Filter>)
    requires SubsDecided(g, sc, row, subs)
    ensures SomeMeaning(g, sc, row, EffectiveSubs(subs)) == SomeMeaning(g, sc, row, subs)
    ensures EveryMeaning(g, sc, row, EffectiveSubs(subs)) == EveryMeaning(g, sc, row, subs)
    decreases subs
  {
    if subs != [] {
      EntriesUnchanged(g, sc, row, subs[0].entries);
      SubsUnchanged(g, sc, row, subs[1..]);
      assert EffectiveSubs(subs)[0] == Filter(EffectiveEntries(subs[0].entries));
      assert EffectiveSubs(subs)[1..] == EffectiveSubs(subs[1..]);
    }
  }

  /** Text and filter part at negated sizes only: on a row where the size decides at each of them, the text has
      the filter's own meaning. */
  lemma TextPartsOnlyAtNegatedSizes(g: Engine, sc: Schema, row: Row, f: Filter, before: seq<Value>, after: seq<Value>)
    requires WellFormed(f) && !Silent(f.entries) && EntriesDecided(g, sc, row, f.entries)
    ensures var e := Parse(Tokens(sc, f, |before|));
            e.Some? && Eval(g, e.value, before + Params(sc, f) + after, row) == Meaning(g, sc, row, f)
  {
    CompiledMeaning(g, sc, row, f, before, after);
    EntriesUnchanged(g, sc, row, f.entries);
  }

  /** For a filter that is one negated operator object with a `$size`, both ways: the text means what the filter
      means on a row if and only if the size decides there. */
  lemma NegatedSizeTextIsExactIff(g: Engine, sc: Schema, row: Row, name: string, ops: seq<Op>, before: seq<Value>,
                                  after: seq<Value>)
    requires FirstSize(ops).Some?
    ensures var f := Filter([Field(name, Ops([OpNot(Ops(ops))]))]);
            var e := Parse(Tokens(sc, f, |before|));
            && e.Some?
            && (Eval(g, e.value, before + Params(sc, f) + after, row) == Meaning(g, sc, row, f)
                <==> SizeDecides(g, row, Column(sc, name), name in sc.jsonb, ops))
  {
    var not := OpNot(Ops(ops));
    var f := Filter([Field(name, Ops([not]))]);
    OneOperatorMeaning(g, sc, row, name, not);
    OneOperatorMeaning(g, sc, row, name, EffectiveOp(not));
    OneOperatorIsEffective(name, not);
    CompiledMeaning(g, sc, row, f, before, after);
    NegatedSizeIsExactIff(g, row, Column(sc, name), name in sc.jsonb, ops);
  }

  lemma OneOperatorMeaning(g: Engine, sc: Schema, row: Row, name: string, op: Op)
    ensures Meaning(g, sc, row, Filter([Field(name, Ops([op]))]))
            == OpMeaning(g, row, Column(sc, name), name in sc.jsonb, op)
  {
    var e := Field(name, Ops([op]));
    SingletonMeaning(g, row, Column(sc, name), name in sc.jsonb, op);
    assert EntryMeaning(g, sc, row, e) == OpMeaning(g, row, Column(sc, name), name in sc.jsonb, op);
    assert [e][0] == e && [e][1..] == [];
    assert EntriesMeaning(g, sc, row, []) == True;
    assert EntriesMeaning(g, sc, row, [e]) == And(EntryMeaning(g, sc, row, e), EntriesMeaning(g, sc, row, [e][1..]));
  }

  lemma OneOperatorIsEffective(name: string, op: Op)
    ensures var f := Filter([Field(name, Ops([op]))]);
            && Effective(f) == Filter([Field(name, Ops([EffectiveOp(op)]))])
            && !Silent(f.entries) && (OpOk(op) ==> WellFormed(f))
  {
    var e := Field(name, Ops([op]));
    assert [op][0] == op && [op][1..] == [] && [e][0] == e && [e][1..] == [];
    assert EffectiveOps([]) == [] && EffectiveEntries([]) == [];
    assert EffectiveOps([op]) == [EffectiveOp(op)];
    assert EffectiveEntries([e]) == [EffectiveEntry(e)];
    assert OpsOk([]) && EntriesOk([]);
    assert OpOk(op) ==> OpsOk([op]) && EntryOk(e) && EntriesOk([e]);
    assert !SilentEntry(e);
    assert !Silent([e]);
  }
}
