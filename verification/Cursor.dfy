/** The keyset cursor over the users table: pages of 500 by ascending id, each query asking for ids
    beyond the last one seen. */
module Cursor {
  import opened Wrappers
  import opened Sql
  import opened FilterSyntax
  import opened FilterTheorems
  import opened FilterCompiler
  import opened Lists

  const PAGE: nat := 500

  /** A stored row: its key, its columns, and the document it is read into. */
  datatype Stored<D> = Stored(id: nat, row: Row, doc: D)

  /** The table in the order of its primary key. */
  ghost predicate Keyed<D>(table: seq<Stored<D>>) {
    forall i, j :: 0 <= i < j < |table| ==> table[i].id < table[j].id
  }

  /** The `id` column holds the key, and the database orders keys as numbers. */
  ghost predicate KeysInColumn<D>(g: Engine, table: seq<Stored<D>>) {
    && (forall x <- table :: Cell(x.row, "id") == Num(x.id))
    && forall a, b :: g.less(Num(a), Num(b)) <==> a < b
  }

  /** Whether a WHERE text, empty for none, selects a row. */
  predicate Selects(g: Engine, where_: seq<Token>, params: seq<Value>, row: Row) {
    where_ == [] ||
    var e := Parse(where_);
    e.Some? && Eval(g, e.value, params, row) == True
  }

  function Selected<D>(g: Engine, table: seq<Stored<D>>, where_: seq<Token>, params: seq<Value>): seq<Stored<D>> {
    if table == [] then []
    else if Selects(g, where_, params, table[0].row) then [table[0]] + Selected(g, table[1..], where_, params)
    else Selected(g, table[1..], where_, params)
  }

  function Take<D>(rows: seq<Stored<D>>): seq<Stored<D>> {
    if |rows| <= PAGE then rows else rows[..PAGE]
  }

  /** `SELECT * FROM users WHERE ... ORDER BY id ASC LIMIT 500`. */
  function Query<D>(g: Engine, table: seq<Stored<D>>, where_: seq<Token>, params: seq<Value>): seq<Stored<D>> {
    Take(Selected(g, table, where_, params))
  }

  // ---------------------------------------------------------------------------------------
  // The cursor's own clause
  // ---------------------------------------------------------------------------------------

  /** `(where) AND id > $n`, or `id > $n` alone. */
  function Beyond(where_: seq<Token>, n: nat): seq<Token> {
    var extra := Leaf(Compare("id", Gt, n));
    if where_ == [] then [extra] else Wrap(where_) + [AND, extra]
  }

  /** The cursor's clause is a conjunct of its own, whatever the filter's text is. */
  lemma BeyondReads(where_: seq<Token>, n: nat)
    requires where_ != [] ==> Parse(where_).Some?
    ensures Parse(Beyond(where_, n)) ==
            Some(if where_ == [] then ELeaf(Compare("id", Gt, n))
                 else EAnd(Parse(where_).value, ELeaf(Compare("id", Gt, n))))
  {
    var extra := [Leaf(Compare("id", Gt, n))];
    assert extra[1..] == [];
    assert ParseNot(extra) == Some((ELeaf(Compare("id", Gt, n)), []));
    assert ParseAnd(extra) == Some((ELeaf(Compare("id", Gt, n)), []));
    if where_ != [] {
      var tail := [AND] + extra;
      assert Beyond(where_, n) == [LP] + (where_ + ([RP] + tail));
      assert tail[1..] == extra;
      ParseStopsAtParenthesis(where_, tail);
      assert ParseNot(Beyond(where_, n)) == Some((Parse(where_).value, tail));
      assert ParseAnd(Beyond(where_, n)) == Some((EAnd(Parse(where_).value, ELeaf(Compare("id", Gt, n))), []));
    }
  }

  lemma ParseStopsAtParenthesis(ts: seq<Token>, tail: seq<Token>)
    requires Parse(ts).Some?
    ensures ParsePrimary([LP] + (ts + ([RP] + tail))) == Some((Parse(ts).value, tail))
  {
    OrExtends(ts, [RP] + tail);
    assert [] + ([RP] + tail) == [RP] + tail;
    ParenthesesRead(ts + ([RP] + tail), Parse(ts), tail);
  }

  /** What was read before a closing parenthesis is read the same with more text behind it. */
  lemma {:induction false} OrExtends(ts: seq<Token>, more: seq<Token>)
    requires ParseOr(ts).Some? && more != [] && more[0] == RP
    ensures ParseOr(ts + more) == Some((ParseOr(ts).value.0, ParseOr(ts).value.1 + more))
    decreases |ts|, 3
  {
    AndExtends(ts, more);
    var rest := ParseAnd(ts).value.1;
    if rest != [] && rest[0].OR? {
      OrExtends(rest[1..], more);
      assert (rest + more)[1..] == rest[1..] + more;
    } else {
      assert (rest + more)[0] == if rest != [] then rest[0] else RP;
    }
  }

  lemma {:induction false} AndExtends(ts: seq<Token>, more: seq<Token>)
    requires ParseAnd(ts).Some? && more != [] && more[0] == RP
    ensures ParseAnd(ts + more) == Some((ParseAnd(ts).value.0, ParseAnd(ts).value.1 + more))
    decreases |ts|, 2
  {
    NotExtends(ts, more);
    var rest := ParseNot(ts).value.1;
    if rest != [] && rest[0].AND? {
      AndExtends(rest[1..], more);
      assert (rest + more)[1..] == rest[1..] + more;
    } else {
      assert (rest + more)[0] == if rest != [] then rest[0] else RP;
    }
  }

  lemma {:induction false} NotExtends(ts: seq<Token>, more: seq<Token>)
    requires ParseNot(ts).Some? && more != [] && more[0] == RP
    ensures ParseNot(ts + more) == Some((ParseNot(ts).value.0, ParseNot(ts).value.1 + more))
    decreases |ts|, 1
  {
    if ts != [] && ts[0].NOT? {
      NotExtends(ts[1..], more);
      assert (ts + more)[1..] == ts[1..] + more;
    } else {
      PrimaryExtends(ts, more);
    }
  }

  lemma {:induction false} PrimaryExtends(ts: seq<Token>, more: seq<Token>)
    requires ParsePrimary(ts).Some? && more != [] && more[0] == RP
    ensures ParsePrimary(ts + more) == Some((ParsePrimary(ts).value.0, ParsePrimary(ts).value.1 + more))
    ensures ParseNot(ts + more) == ParsePrimary(ts + more)
    decreases |ts|, 0
  {
    assert (ts + more)[1..] == ts[1..] + more;
    if ts[0].LP? {
      OrExtends(ts[1..], more);
      var rest := ParseOr(ts[1..]).value.1;
      assert (rest + more)[1..] == rest[1..] + more;
    }
  }

  // ---------------------------------------------------------------------------------------
  // The cursor
  // ---------------------------------------------------------------------------------------

  /** The rows beyond `from` on which the effective filter is true. */
  ghost function Wanted<D>(g: Engine, sc: Schema, f: Filter, table: seq<Stored<D>>, from: int): seq<Stored<D>> {
    if table == [] then []
    else if Meaning(g, sc, table[0].row, Effective(f)) == True && table[0].id > from then
      [table[0]] + Wanted(g, sc, f, table[1..], from)
    else Wanted(g, sc, f, table[1..], from)
  }

  lemma {:induction false} WantedAreStored<D>(g: Engine, sc: Schema, f: Filter, table: seq<Stored<D>>, from: int)
    ensures forall x <- Wanted(g, sc, f, table, from) :: x in table && x.id > from
  {
    if table != [] {
      WantedAreStored(g, sc, f, table[1..], from);
    }
  }

  /** Each wanted row once, in ascending order, and nothing else. */
  lemma {:induction false} WantedIsExact<D>(g: Engine, sc: Schema, f: Filter, table: seq<Stored<D>>, from: int)
    requires Keyed(table)
    ensures forall x :: x in Wanted(g, sc, f, table, from)
                   <==> x in table && Meaning(g, sc, x.row, Effective(f)) == True && x.id > from
    ensures Keyed(Wanted(g, sc, f, table, from))
  {
    if table != [] {
      KeyedTail(table);
      WantedIsExact(g, sc, f, table[1..], from);
      WantedAreStored(g, sc, f, table[1..], from);
      assert forall x :: x in table <==> x == table[0] || x in table[1..];
      var rest := Wanted(g, sc, f, table[1..], from);
      forall i | 0 <= i < |rest| ensures table[0].id < rest[i].id {
        assert rest[i] in table[1..];
      }
    }
  }

  lemma {:induction false} NothingBetween<D>(g: Engine, sc: Schema, f: Filter, table: seq<Stored<D>>, a: int, b: int)
    requires forall x <- table :: x.id > a && x.id > b
    ensures Wanted(g, sc, f, table, a) == Wanted(g, sc, f, table, b)
  {
    if table != [] {
      assert table[0] in table;
      NothingBetween(g, sc, f, table[1..], a, b);
    }
  }

  lemma KeyedTail<D>(table: seq<Stored<D>>)
    requires Keyed(table) && table != []
    ensures Keyed(table[1..]) && forall x <- table[1..] :: table[0].id < x.id
  {
    forall i | 0 <= i < |table[1..]| ensures table[0].id < table[1..][i].id {
      assert table[1..][i] == table[i + 1];
    }
  }

  lemma SuffixPastFirst<T>(first: T, rest: seq<T>, k: nat)
    requires 1 < k <= |rest| + 1
    ensures ([first] + rest)[k - 1] == rest[k - 2] && ([first] + rest)[k..] == rest[k - 1..]
  {
  }

  /** Asking for what lies beyond the `k`-th wanted row drops exactly the first `k`. */
  lemma {:induction false} BeyondIsSuffix<D>(g: Engine, sc: Schema, f: Filter, table: seq<Stored<D>>, from: int, k: nat)
    requires Keyed(table) && 0 < k <= |Wanted(g, sc, f, table, from)|
    ensures var all := Wanted(g, sc, f, table, from);
            Wanted(g, sc, f, table, all[k - 1].id) == all[k..]
  {
    var all, first, rest := Wanted(g, sc, f, table, from), table[0], table[1..];
    var after := Wanted(g, sc, f, rest, from);
    KeyedTail(table);
    WantedAreStored(g, sc, f, rest, from);
    if Meaning(g, sc, first.row, Effective(f)) != True || first.id <= from {
      BeyondIsSuffix(g, sc, f, rest, from, k);
      assert after[k - 1] in after;
    } else if k == 1 {
      NothingBetween(g, sc, f, rest, first.id, from);
      assert all[1..] == after;
    } else {
      BeyondIsSuffix(g, sc, f, rest, from, k - 1);
      assert after[k - 2] in after;
      assert all == [first] + after;
      SuffixPastFirst(first, after, k);
    }
  }

  lemma TextSelectsMeaning(g: Engine, sc: Schema, f: Filter, row: Row, after: seq<Value>)
    requires WellFormed(f)
    ensures Selects(g, Tokens(sc, f, 0), Params(sc, f) + after, row) <==> Meaning(g, sc, row, Effective(f)) == True
  {
    CompiledMeaning(g, sc, row, f, [], after);
    CompilesToValidSql(sc, f, 0);
    assert [] + Params(sc, f) + after == Params(sc, f) + after;
  }

  /** The clause of a later page, and the parameters it runs with. */
  function PageText(sc: Schema, f: Filter): seq<Token> {
    Beyond(Tokens(sc, f, 0), |Params(sc, f)| + 1)
  }

  function PageParams(sc: Schema, f: Filter, last: nat): seq<Value> {
    Params(sc, f) + [Num(last)]
  }

  lemma BeyondSelects<D>(g: Engine, sc: Schema, f: Filter, x: Stored<D>, last: nat)
    requires WellFormed(f) && KeysInColumn(g, [x])
    ensures Selects(g, PageText(sc, f), PageParams(sc, f, last), x.row)
       <==> Meaning(g, sc, x.row, Effective(f)) == True && x.id > last
  {
    var where_, n := Tokens(sc, f, 0), |Params(sc, f)| + 1;
    var params := PageParams(sc, f, last);
    CompilesToValidSql(sc, f, 0);
    TextSelectsMeaning(g, sc, f, x.row, [Num(last)]);
    BeyondReads(where_, n);
    assert x in [x];
    assert |Beyond(where_, n)| > 0;
    assert Param(params, n) == Num(last);
    assert EvalAtom(g, Compare("id", Gt, n), params, x.row) == Lift(g.less(Num(last), Num(x.id)));
    var e := Parse(Beyond(where_, n)).value;
    if where_ == [] {
      assert Eval(g, e, params, x.row) == Lift(x.id > last);
    } else {
      assert Eval(g, e, params, x.row) == And(Eval(g, Parse(where_).value, params, x.row), Lift(x.id > last));
    }
  }

  lemma {:induction false} PageSelects<D>(g: Engine, sc: Schema, f: Filter, table: seq<Stored<D>>, last: nat)
    requires WellFormed(f) && KeysInColumn(g, table)
    ensures Selected(g, table, PageText(sc, f), PageParams(sc, f, last)) == Wanted(g, sc, f, table, last)
  {
    if table != [] {
      assert table[0] in table;
      BeyondSelects(g, sc, f, table[0], last);
      PageSelects(g, sc, f, table[1..], last);
    }
  }

  lemma {:induction false} FirstPageSelects<D>(g: Engine, sc: Schema, f: Filter, table: seq<Stored<D>>)
    requires WellFormed(f)
    ensures Selected(g, table, Tokens(sc, f, 0), Params(sc, f)) == Wanted(g, sc, f, table, -1)
  {
    if table != [] {
      TextSelectsMeaning(g, sc, f, table[0].row, []);
      assert Params(sc, f) + [] == Params(sc, f);
      FirstPageSelects(g, sc, f, table[1..]);
    }
  }

  datatype ScanError = Refused(error: FilterError) | SyntaxError

  /** A filter that compiles to nothing is well formed. */
  lemma {:induction false} SilentIsWellFormed(es: seq<Entry>)
    requires Silent(es)
    ensures EntriesOk(es)
    decreases es
  {
    if es != [] {
      if es[0].AllOfThese? {
        AllSilentAreWellFormed(es[0].subs);
      }
      SilentIsWellFormed(es[1..]);
    }
  }

  lemma {:induction false} AllSilentAreWellFormed(subs: seq<Filter>)
    requires AllSilent(subs)
    ensures SubsOk(subs, false)
    decreases subs
  {
    if subs != [] {
      SilentIsWellFormed(subs[0].entries);
      AllSilentAreWellFormed(subs[1..]);
    }
  }

  /** The text the database refuses is the text of an ill-formed filter. */
  lemma RefusedIffIllFormed(sc: Schema, f: Filter)
    ensures Tokens(sc, f, 0) == [] || Parse(Tokens(sc, f, 0)).Some? <==> WellFormed(f)
  {
    CompilesToValidSql(sc, f, 0);
    if Silent(f.entries) {
      SilentIsWellFormed(f.entries);
    }
  }

  // ---------------------------------------------------------------------------------------
  // A table that changes between pages
  // ---------------------------------------------------------------------------------------

  /** The row is there, and the effective filter is true on it. */
  ghost predicate IsWanted<D>(g: Engine, sc: Schema, f: Filter, table: seq<Stored<D>>, x: Stored<D>) {
    x in table && Meaning(g, sc, x.row, Effective(f)) == True
  }

  /** So is the row of this id, whatever else it holds. */
  ghost predicate Matches<D>(g: Engine, sc: Schema, f: Filter, table: seq<Stored<D>>, id: nat) {
    exists x <- table :: x.id == id && IsWanted(g, sc, f, table, x)
  }

  /** What each query finds: rows come, go and change between one page and the next, with ids below `bound`. */
  ghost predicate Snapshots<D>(tables: nat -> seq<Stored<D>>, bound: nat) {
    forall k :: Keyed(tables(k)) && Below(tables(k), bound)
  }

  ghost predicate Below<D>(table: seq<Stored<D>>, bound: nat) {
    forall x <- table :: x.id < bound
  }

  /** The page of the query number `k`, which asks for ids beyond `from`. */
  ghost function PageOf<D>(g: Engine, sc: Schema, f: Filter, tables: nat -> seq<Stored<D>>, k: nat,
                           from: int): seq<Stored<D>> {
    Take(Wanted(g, sc, f, tables(k), from))
  }

  lemma TakeIsPrefix<D>(rows: seq<Stored<D>>)
    requires Keyed(rows)
    ensures Keyed(Take(rows)) && forall x <- Take(rows) :: x in rows
  {
    assert forall i :: 0 <= i < |Take(rows)| ==> Take(rows)[i] == rows[i];
  }

  lemma PageIsBeyond<D>(g: Engine, sc: Schema, f: Filter, tables: nat -> seq<Stored<D>>, k: nat, from: int, bound: nat)
    requires Snapshots(tables, bound)
    ensures var page := PageOf(g, sc, f, tables, k, from);
            Keyed(page) && forall x <- page :: from < x.id < bound && IsWanted(g, sc, f, tables(k), x)
  {
    assert Keyed(tables(k)) && Below(tables(k), bound);
    TakenAreWanted(g, sc, f, tables(k), from, bound);
  }

  lemma TakenAreWanted<D>(g: Engine, sc: Schema, f: Filter, table: seq<Stored<D>>, from: int, bound: nat)
    requires Keyed(table) && Below(table, bound)
    ensures var page := Take(Wanted(g, sc, f, table, from));
            Keyed(page) && forall x <- page :: from < x.id < bound && IsWanted(g, sc, f, table, x)
  {
    var wanted := Wanted(g, sc, f, table, from);
    WantedIsExact(g, sc, f, table, from);
    TakeIsPrefix(wanted);
    forall x | x in Take(wanted) ensures from < x.id < bound && IsWanted(g, sc, f, table, x) {
      assert x in wanted;
      assert x in table;
    }
  }

  /** All that the cursor yields from the query number `k` on. */
  ghost function Yields<D>(g: Engine, sc: Schema, f: Filter, tables: nat -> seq<Stored<D>>, k: nat, from: int,
                           bound: nat): seq<Stored<D>>
    requires Snapshots(tables, bound)
    decreases if from < bound then bound - from else 0
  {
    PageIsBeyond(g, sc, f, tables, k, from, bound);
    var page := PageOf(g, sc, f, tables, k, from);
    if page == [] then []
    else
      assert page[|page| - 1] in page;
      page + Yields(g, sc, f, tables, k + 1, page[|page| - 1].id, bound)
  }

  /** How many queries that takes, the last one empty. */
  ghost function Queries<D>(g: Engine, sc: Schema, f: Filter, tables: nat -> seq<Stored<D>>, k: nat, from: int,
                            bound: nat): nat
    requires Snapshots(tables, bound)
    decreases if from < bound then bound - from else 0
  {
    PageIsBeyond(g, sc, f, tables, k, from, bound);
    var page := PageOf(g, sc, f, tables, k, from);
    if page == [] then 1
    else
      assert page[|page| - 1] in page;
      1 + Queries(g, sc, f, tables, k + 1, page[|page| - 1].id, bound)
  }

  /** The rows ascend from beyond `from`. */
  ghost predicate Ascends<D>(rows: seq<Stored<D>>, from: int) {
    Keyed(rows) && forall x <- rows :: x.id > from
  }

  lemma AscendsConcat<D>(a: seq<Stored<D>>, b: seq<Stored<D>>, from: int)
    requires Ascends(a, from) && a != [] && Ascends(b, a[|a| - 1].id)
    ensures Ascends(a + b, from)
  {
    forall i, j | 0 <= i < j < |a + b| ensures (a + b)[i].id < (a + b)[j].id {
      if j >= |a| {
        assert b[j - |a|] in b;
      }
    }
    assert a[|a| - 1] in a;
  }

  /** Ids ascend, so none is yielded twice. */
  lemma {:induction false} YieldsAscend<D>(g: Engine, sc: Schema, f: Filter, tables: nat -> seq<Stored<D>>, k: nat,
                                           from: int, bound: nat)
    requires Snapshots(tables, bound)
    ensures Ascends(Yields(g, sc, f, tables, k, from, bound), from)
    decreases if from < bound then bound - from else 0
  {
    var page := PageOf(g, sc, f, tables, k, from);
    PageIsBeyond(g, sc, f, tables, k, from, bound);
    if page != [] {
      var last := page[|page| - 1].id;
      assert page[|page| - 1] in page;
      YieldsAscend(g, sc, f, tables, k + 1, last, bound);
      AscendsConcat(page, Yields(g, sc, f, tables, k + 1, last, bound), from);
    }
  }

  /** Every row yielded was there and wanted at one of the queries. */
  lemma {:induction false} YieldedWasWanted<D>(g: Engine, sc: Schema, f: Filter, tables: nat -> seq<Stored<D>>, k: nat,
                                               from: int, bound: nat, x: Stored<D>) returns (j: nat)
    requires Snapshots(tables, bound) && x in Yields(g, sc, f, tables, k, from, bound)
    ensures k <= j < k + Queries(g, sc, f, tables, k, from, bound) && IsWanted(g, sc, f, tables(j), x)
    decreases if from < bound then bound - from else 0
  {
    var page := PageOf(g, sc, f, tables, k, from);
    PageIsBeyond(g, sc, f, tables, k, from, bound);
    if x in page {
      j := k;
    } else {
      assert page[|page| - 1] in page;
      j := YieldedWasWanted(g, sc, f, tables, k + 1, page[|page| - 1].id, bound, x);
    }
  }

  lemma MatchOnPageOrBeyond<D>(g: Engine, sc: Schema, f: Filter, table: seq<Stored<D>>, from: int, id: nat)
      returns (x: Stored<D>)
    requires Keyed(table) && Matches(g, sc, f, table, id) && id > from
    ensures var page := Take(Wanted(g, sc, f, table, from));
            page != [] && x.id == id && (x in page || id > page[|page| - 1].id)
  {
    WantedIsExact(g, sc, f, table, from);
    x :| x in table && x.id == id && IsWanted(g, sc, f, table, x);
    OnPageOrBeyond(Wanted(g, sc, f, table, from), x);
  }

  lemma OnPageOrBeyond<D>(rows: seq<Stored<D>>, x: Stored<D>)
    requires Keyed(rows) && x in rows
    ensures var page := Take(rows); page != [] && (x in page || x.id > page[|page| - 1].id)
  {
    var i :| 0 <= i < |rows| && rows[i] == x;
    if i < |Take(rows)| {
      assert Take(rows)[i] == x;
    }
  }

  /** A row that is there and wanted at every query the cursor makes is yielded. */
  lemma {:induction false} StayerIsYielded<D>(g: Engine, sc: Schema, f: Filter, tables: nat -> seq<Stored<D>>, k: nat,
                                              from: int, bound: nat, id: nat)
      returns (x: Stored<D>)
    requires Snapshots(tables, bound) && id > from
    requires forall j :: k <= j < k + Queries(g, sc, f, tables, k, from, bound) ==> Matches(g, sc, f, tables(j), id)
    ensures x in Yields(g, sc, f, tables, k, from, bound) && x.id == id
    decreases if from < bound then bound - from else 0
  {
    var page := PageOf(g, sc, f, tables, k, from);
    PageIsBeyond(g, sc, f, tables, k, from, bound);
    assert Keyed(tables(k)) && Matches(g, sc, f, tables(k), id);
    x := MatchOnPageOrBeyond(g, sc, f, tables(k), from, id);
    if x !in page {
      assert page[|page| - 1] in page;
      x := StayerIsYielded(g, sc, f, tables, k + 1, page[|page| - 1].id, bound, id);
    }
  }

  lemma KeyedHoldsOnce<D>(rows: seq<Stored<D>>, x: Stored<D>)
    requires Keyed(rows) && x in rows
    ensures exists i :: 0 <= i < |rows| && rows[i].id == x.id
                         && forall j :: 0 <= j < |rows| && rows[j].id == x.id ==> j == i
  {
    var i :| 0 <= i < |rows| && rows[i] == x;
    forall j | 0 <= j < |rows| && rows[j].id == x.id ensures j == i {
    }
  }

  /** So, whatever else comes and goes between the pages, it is yielded exactly once. */
  lemma StayerIsYieldedOnce<D>(g: Engine, sc: Schema, f: Filter, tables: nat -> seq<Stored<D>>, bound: nat, id: nat)
    requires Snapshots(tables, bound)
    requires forall j :: 0 <= j < Queries(g, sc, f, tables, 0, -1, bound) ==> Matches(g, sc, f, tables(j), id)
    ensures var all := Yields(g, sc, f, tables, 0, -1, bound);
            exists i :: 0 <= i < |all| && all[i].id == id && forall j :: 0 <= j < |all| && all[j].id == id ==> j == i
  {
    YieldsAscend(g, sc, f, tables, 0, -1, bound);
    var x := StayerIsYielded(g, sc, f, tables, 0, -1, bound, id);
    KeyedHoldsOnce(Yields(g, sc, f, tables, 0, -1, bound), x);
  }

  /** Over a table that does not change, the cursor yields every wanted row, however many pages that takes. */
  lemma {:induction false} StaticYieldsWanted<D>(g: Engine, sc: Schema, f: Filter, tables: nat -> seq<Stored<D>>,
                                                 k: nat, from: int, bound: nat)
    requires Snapshots(tables, bound) && forall j :: tables(j) == tables(0)
    ensures Yields(g, sc, f, tables, k, from, bound) == Wanted(g, sc, f, tables(0), from)
    decreases if from < bound then bound - from else 0
  {
    var all, page := Wanted(g, sc, f, tables(0), from), PageOf(g, sc, f, tables, k, from);
    assert tables(k) == tables(0) && Keyed(tables(0));
    PageIsBeyond(g, sc, f, tables, k, from, bound);
    if page != [] {
      var last := page[|page| - 1].id;
      assert page[|page| - 1] in page;
      BeyondIsSuffix(g, sc, f, tables(0), from, |page|);
      StaticYieldsWanted(g, sc, f, tables, k + 1, last, bound);
      assert all == page + all[|page|..];
    }
  }

  /** After `k` queries the rest adds up to all that the cursor yields, and to all the queries it makes. */
  ghost predicate SoFar<D>(g: Engine, sc: Schema, f: Filter, tables: nat -> seq<Stored<D>>, k: nat, from: int,
                           bound: nat, yielded: seq<Stored<D>>)
    requires Snapshots(tables, bound)
  {
    && yielded + Yields(g, sc, f, tables, k, from, bound) == Yields(g, sc, f, tables, 0, -1, bound)
    && k + Queries(g, sc, f, tables, k, from, bound) == Queries(g, sc, f, tables, 0, -1, bound)
  }

  lemma NothingSoFar<D>(g: Engine, sc: Schema, f: Filter, tables: nat -> seq<Stored<D>>, bound: nat)
    requires Snapshots(tables, bound)
    ensures SoFar(g, sc, f, tables, 0, -1, bound, [])
  {
  }

  lemma NextPage<D>(g: Engine, sc: Schema, f: Filter, tables: nat -> seq<Stored<D>>, k: nat, from: int, bound: nat,
                    yielded: seq<Stored<D>>)
    requires Snapshots(tables, bound) && SoFar(g, sc, f, tables, k, from, bound, yielded)
    ensures var page := PageOf(g, sc, f, tables, k, from);
            if page == [] then
              && yielded == Yields(g, sc, f, tables, 0, -1, bound)
              && k + 1 == Queries(g, sc, f, tables, 0, -1, bound)
            else
              && from < page[|page| - 1].id < bound
              && SoFar(g, sc, f, tables, k + 1, page[|page| - 1].id, bound, yielded + page)
  {
    var page := PageOf(g, sc, f, tables, k, from);
    PageIsBeyond(g, sc, f, tables, k, from, bound);
    if page != [] {
      assert page[|page| - 1] in page;
      AppendAssociates(yielded, page, Yields(g, sc, f, tables, k + 1, page[|page| - 1].id, bound));
    }
  }

  /** The cursor's loop, each query seeing the table as it then is; a filter whose text is no SQL fails at the
      first query. */
  method Scan<D>(sc: Schema, g: Engine, f: Filter, tables: nat -> seq<Stored<D>>, ghost bound: nat)
      returns (r: Result<seq<Stored<D>>, ScanError>, ghost queries: nat)
    requires Snapshots(tables, bound) && forall k :: KeysInColumn(g, tables(k))
    ensures var e := EntriesError(sc, f.entries);
            r == if e.Some? then Err(Refused(e.value))
                 else if !WellFormed(f) then Err(SyntaxError)
                 else Ok(Yields(g, sc, f, tables, 0, -1, bound))
    ensures r.Ok? ==> queries == Queries(g, sc, f, tables, 0, -1, bound)
  {
    var base := new ParamArray([]);
    var where_ := BuildWhere(sc, f, base);
    if where_.Err? {
      return Err(Refused(where_.error)), 0;
    }
    RefusedIffIllFormed(sc, f);
    if where_.value != [] && Parse(where_.value).None? {
      return Err(SyntaxError), 1;
    }
    var baseParams := base.items;
    assert baseParams == Params(sc, f);
    var yielded;
    yielded, queries := ReadAll(sc, g, f, tables, where_.value, baseParams, bound);
    r := Ok(yielded);
  }

  /** The loop over the pages. */
  method ReadAll<D>(sc: Schema, g: Engine, ghost f: Filter, tables: nat -> seq<Stored<D>>, baseWhere: seq<Token>,
                    baseParams: seq<Value>, ghost bound: nat)
      returns (yielded: seq<Stored<D>>, ghost queries: nat)
    requires WellFormed(f) && Snapshots(tables, bound) && forall k :: KeysInColumn(g, tables(k))
    requires baseWhere == Tokens(sc, f, 0) && baseParams == Params(sc, f)
    ensures yielded == Yields(g, sc, f, tables, 0, -1, bound) && queries == Queries(g, sc, f, tables, 0, -1, bound)
  {
    var lastId: Option<nat> := None;
    var query: nat := 0;
    yielded := [];
    NothingSoFar(g, sc, f, tables, bound);
    while true
      invariant SoFar(g, sc, f, tables, query, From(lastId), bound, yielded)
      decreases if From(lastId) < bound then bound - From(lastId) else 0
    {
      var rows := Page(sc, g, f, tables(query), baseWhere, baseParams, lastId);
      NextPage(g, sc, f, tables, query, From(lastId), bound, yielded);
      if |rows| == 0 {
        return yielded, query + 1;
      }
      yielded := yielded + rows;
      lastId := Some(rows[|rows| - 1].id);
      query := query + 1;
    }
  }

  /** Where a query starts. */
  function From(lastId: Option<nat>): int {
    if lastId.Some? then lastId.value else -1
  }

  /** One query of the cursor: the next rows beyond the last id. */
  method Page<D>(sc: Schema, g: Engine, ghost f: Filter, table: seq<Stored<D>>,
                 baseWhere: seq<Token>, baseParams: seq<Value>, lastId: Option<nat>)
      returns (rows: seq<Stored<D>>)
    requires WellFormed(f) && KeysInColumn(g, table)
    requires baseWhere == Tokens(sc, f, 0) && baseParams == Params(sc, f)
    ensures rows == Take(Wanted(g, sc, f, table, From(lastId)))
  {
    if lastId.Some? {
      var params := baseParams + [Num(lastId.value)];
      PageSelects(g, sc, f, table, lastId.value);
      rows := Query(g, table, Beyond(baseWhere, |params|), params);
    } else {
      FirstPageSelects(g, sc, f, table);
      rows := Query(g, table, baseWhere, baseParams);
    }
  }
}
