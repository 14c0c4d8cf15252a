/** User documents over the users table: the atomic array update, and dirty tracking with `save`. */
module Documents {
  import opened Lists
  import opened Wrappers

  datatype Val = Null | Str(s: string) | Num(n: int) | Bool(b: bool) | Time(t: int) | Arr(items: seq<Val>)

  /** The fields the document layer treats specially, and all other columns by name. */
  datatype Field =
    | Id | CreatedAt | UpdatedAt
    | Email | Provider | ProviderId
    | Password | TokenVersion
    | RefreshTokens | ActiveAccessJtis | MigrationHistory
    | Column(name: string)

  /** A row by field: every column present. */
  type Row = map<Field, Val>

  type Rows = map<string, Row>

  const JSONB_FIELDS: set<Field> := {RefreshTokens, ActiveAccessJtis, MigrationHistory}

  datatype DocError = UnknownField | DuplicateKey

  /** JSONB columns hold arrays, never NULL. */
  function Encoded(field: Field, v: Val): Val {
    if field in JSONB_FIELDS && v.Null? then Arr([]) else v
  }

  // ---------------------------------------------------------------------------------------
  // Update documents
  // ---------------------------------------------------------------------------------------

  /** `$push`: the values to append, and how much to keep: the last `-slice` or the first `slice`. */
  datatype PushSpec = PushSpec(each: seq<Val>, slice: Option<int>)

  datatype Update = Update(push: map<Field, PushSpec>, pull: map<Field, Val>, put: map<Field, Val>,
                           unset: set<Field>, inc: map<Field, int>)

  function Items(v: Val): seq<Val> {
    if v.Arr? then v.items else []
  }

  function Sliced(s: seq<Val>, n: int): seq<Val> {
    if n < 0 then (if |s| <= -n then s else s[|s| + n..])
    else if |s| <= n then s else s[..n]
  }

  function Pushed(v: Val, p: PushSpec): Val {
    var all := Items(v) + p.each;
    Arr(if p.slice.Some? then Sliced(all, p.slice.value) else all)
  }

  function Pulled(v: Val, x: Val): Val {
    Arr(Minus(Items(v), x))
  }

  function Incremented(v: Val, amount: int): Val {
    Num((if v.Num? then v.n else 0) + amount)
  }

  function Touched(u: Update): set<Field> {
    u.push.Keys + u.pull.Keys + u.put.Keys + u.unset + u.inc.Keys
  }

  /** What becomes of one field: pushes, then pulls, then sets, then unsets, then increments. */
  function FieldAfter(u: Update, f: Field, v: Val): Val {
    var v1 := if f in u.push then Pushed(v, u.push[f]) else v;
    var v2 := if f in u.pull then Pulled(v1, u.pull[f]) else v1;
    var v3 := if f in u.put then u.put[f] else v2;
    var v4 := if f in u.unset then Null else v3;
    if f in u.inc then Incremented(v4, u.inc[f]) else v4
  }

  /** The row after an update: touched fields but the id take their new value, all others stay. */
  function RowAfter(u: Update, row: Row): Row {
    map f | f in row :: if f in Touched(u) && f != Id then Encoded(f, FieldAfter(u, f, row[f])) else row[f]
  }

  /** The value has exactly the last `n` of these items, or all if there are no more. */
  ghost predicate KeepsLast(v: Val, all: seq<Val>, n: nat) {
    v.Arr? && |v.items| == (if |all| < n then |all| else n)
    && forall i :: 0 <= i < |v.items| ==> v.items[i] == all[|all| - |v.items| + i]
  }

  ghost predicate KeepsFirst(v: Val, all: seq<Val>, n: nat) {
    v.Arr? && |v.items| == (if |all| < n then |all| else n)
    && forall i :: 0 <= i < |v.items| ==> v.items[i] == all[i]
  }

  /** The value has these items in order, without those equal to `x`. */
  ghost predicate Lacks(v: Val, all: seq<Val>, x: Val) {
    && v.Arr? && Subsequence(v.items, all)
    && forall y :: multiset(v.items)[y] == if y == x then 0 else multiset(all)[y]
  }

  /** What appending these items and cutting the list leaves of it. */
  ghost predicate Appended(v: Val, all: seq<Val>, slice: Option<int>) {
    match slice
    case None => v == Arr(all)
    case Some(n) => if n < 0 then KeepsLast(v, all, -n) else KeepsFirst(v, all, n)
  }

  lemma SliceKeeps(all: seq<Val>, n: int)
    ensures Appended(Arr(Sliced(all, n)), all, Some(n))
  {
    if n < 0 {
      assert KeepsLast(Arr(Sliced(all, n)), all, -n);
    } else {
      assert KeepsFirst(Arr(Sliced(all, n)), all, n);
    }
  }

  lemma PushAppends(v: Val, p: PushSpec)
    ensures Appended(Pushed(v, p), (if v.Arr? then v.items else []) + p.each, p.slice)
  {
    if p.slice.Some? {
      SliceKeeps(Items(v) + p.each, p.slice.value);
    }
  }

  lemma PullRemoves(v: Val, x: Val)
    ensures Lacks(Pulled(v, x), if v.Arr? then v.items else [], x)
  {
    var s := Items(v);
    SubsequenceSelf(s);
    SubsequenceMinus(s, s, x);
    MinusCounts(s, x);
  }

  /** An update leaves alone what none of its operators names, and the id. */
  lemma UpdateLeavesOthers(u: Update, row: Row, f: Field)
    requires f in row
    requires f == Id || (f !in u.push && f !in u.pull && f !in u.put && f !in u.unset && f !in u.inc)
    ensures RowAfter(u, row)[f] == row[f] && RowAfter(u, row).Keys == row.Keys
  {
  }

  /** A value set replaces whatever was pushed or pulled, an unset field is NULL or an empty array whatever was set,
      and an increment comes last, from 0 where no number stands. */
  lemma UpdateSets(u: Update, row: Row, f: Field)
    requires f in row && f != Id && (f in u.put || f in u.unset || f in u.inc)
    ensures var r := RowAfter(u, row)[f];
            var none := if f == RefreshTokens || f == ActiveAccessJtis || f == MigrationHistory then Arr([]) else Null;
            && (f in u.put && f !in u.unset && f !in u.inc ==> r == if u.put[f].Null? then none else u.put[f])
            && (f in u.unset && f !in u.inc ==> r == none)
            && (f in u.inc && f in u.unset ==> r == Num(u.inc[f]))
            && (f in u.inc && f !in u.unset && f in u.put ==>
                  r == Num(u.inc[f] + if u.put[f].Num? then u.put[f].n else 0))
            && (f in u.inc && f !in u.unset && f !in u.put && f !in u.push && f !in u.pull ==>
                  r == Num(u.inc[f] + if row[f].Num? then row[f].n else 0))
  {
  }

  /** A field pushed to has the items appended and is then cut; one pulled from loses the value, also where it has just
      been pushed. */
  lemma UpdateLists(u: Update, row: Row, f: Field)
    requires f in row && f != Id && f !in u.put && f !in u.unset && f !in u.inc
    ensures var old_, r := (if row[f].Arr? then row[f].items else []), RowAfter(u, row)[f];
            && (f in u.push && f !in u.pull ==> Appended(r, old_ + u.push[f].each, u.push[f].slice))
            && (f in u.pull && f !in u.push ==> Lacks(r, old_, u.pull[f]))
            && (f in u.push && f in u.pull ==>
                  exists pushed: Val :: pushed.Arr? && Appended(pushed, old_ + u.push[f].each, u.push[f].slice)
                                        && Lacks(r, pushed.items, u.pull[f]))
  {
    if f in u.push || f in u.pull {
      ListAfter(u, row, f);
    }
    if f in u.push {
      PushAppends(row[f], u.push[f]);
      if f in u.pull {
        PullRemoves(Pushed(row[f], u.push[f]), u.pull[f]);
      }
    } else if f in u.pull {
      PullRemoves(row[f], u.pull[f]);
    }
  }

  lemma ListAfter(u: Update, row: Row, f: Field)
    requires f in row && f != Id && f !in u.put && f !in u.unset && f !in u.inc && (f in u.push || f in u.pull)
    ensures RowAfter(u, row)[f]
            == var v := if f in u.push then Pushed(row[f], u.push[f]) else row[f];
               if f in u.pull then Pulled(v, u.pull[f]) else v
  {
  }

  lemma SetsGiveRowAfter(u: Update, row: Row, values: Row, sets: Row)
    requires Touched(u) - {Id} <= row.Keys <= values.Keys
    requires forall f :: f in values ==> values[f] == FieldAfter(u, f, ValueOf(row, f))
    requires sets.Keys == Touched(u) - {Id} && forall f :: f in sets ==> sets[f] == Encoded(f, values[f])
    ensures (map f | f in row :: if f in sets then sets[f] else row[f]) == RowAfter(u, row)
  {
  }

  // ---------------------------------------------------------------------------------------
  // Documents
  // ---------------------------------------------------------------------------------------

  const GENERATED: set<Field> := {Id, CreatedAt, UpdatedAt}

  /** The fields a save of a loaded document writes: the modified ones and every loaded JSONB array. */
  function WriteFields(values: Row, modified: set<Field>): set<Field> {
    modified + (JSONB_FIELDS * values.Keys) - GENERATED
  }

  /** What is stored for a field: a non-empty password is hashed. */
  function Written(hash: string -> string, f: Field, v: Val): Val {
    if f in JSONB_FIELDS then Encoded(f, v)
    else if f == Password && v.Str? && v.s != "" then Str(hash(v.s))
    else v
  }

  /** The row has what was assigned: a non-empty password hashed, no array as an empty one, and all else as it is. */
  ghost predicate HoldsAssigned(hash: string -> string, row: Row, values: Row, fields: set<Field>) {
    forall f <- fields :: f in row ==>
      var v := if f in values then values[f] else Null;
      if f == Password && v.Str? && v.s != "" then row[f] == Str(hash(v.s))
      else if (f == RefreshTokens || f == ActiveAccessJtis || f == MigrationHistory) && v.Null? then row[f] == Arr([])
      else row[f] == v
  }

  function ValueOf(values: Row, f: Field): Val {
    if f in values then values[f] else Null
  }

  function SavedRow(hash: string -> string, row: Row, values: Row, modified: set<Field>): Row {
    map f | f in row :: if f in WriteFields(values, modified) then Written(hash, f, ValueOf(values, f)) else row[f]
  }

  /** The values a new document is inserted with: those given, and a fresh id where none is set. */
  function WithId(values: Row, freshId: string): Row {
    if Id in values && values[Id].Str? && values[Id].s != "" then values else values[Id := Str(freshId)]
  }

  function IdOf(values: Row): string {
    if Id in values && values[Id].Str? then values[Id].s else ""
  }

  /** The fields an insertion names; the timestamps are left to the database. */
  function InsertFields(values: Row): set<Field> {
    values.Keys - {CreatedAt, UpdatedAt}
  }

  /** The inserted row: the columns named, and the database's defaults for all others. */
  function InsertedRow(hash: string -> string, defaults: Row, values: Row): Row {
    map f | f in defaults :: if f in InsertFields(values) then Written(hash, f, values[f]) else defaults[f]
  }

  /** Two rows with one value in all these columns, none of them NULL. */
  predicate AgreeOn(a: Row, b: Row, columns: set<Field>) {
    forall f <- columns :: ValueOf(a, f) == ValueOf(b, f) && !ValueOf(a, f).Null?
  }

  /** Two rows that UNIQUE (email) or UNIQUE (provider, provider_id) forbids. */
  predicate Clash(a: Row, b: Row) {
    AgreeOn(a, b, {Email}) || AgreeOn(a, b, {Provider, ProviderId})
  }

  predicate Clashes(rows: Rows, id: string, row: Row) {
    exists x <- rows.Keys :: x != id && Clash(rows[x], row)
  }

  /** What the database guarantees of its rows. */
  ghost predicate Unique(rows: Rows) {
    forall x, y :: x in rows && y in rows && x != y ==> !Clash(rows[x], rows[y])
  }

  /** Two rows clash if they have one email address, or one provider with one id at it; NULLs never clash. */
  lemma ClashIffTaken(a: Row, b: Row)
    ensures Clash(a, b)
       <==> || (Email in a && Email in b && a[Email] == b[Email] && a[Email] != Null)
            || (&& Provider in a && Provider in b && a[Provider] == b[Provider] && a[Provider] != Null
                && ProviderId in a && ProviderId in b && a[ProviderId] == b[ProviderId] && a[ProviderId] != Null)
  {
  }

  /** And what its refusal of clashing rows keeps. */
  lemma AcceptedRowsStayUnique(rows: Rows, id: string, row: Row)
    requires Unique(rows) && !Clashes(rows, id, row)
    ensures Unique(rows[id := row])
  {
  }

  /** A row written under a key, unless it clashes with another. */
  function Put(rows: Rows, id: string, row: Row): Result<Row, DocError> {
    if Clashes(rows, id, row) then Err(DuplicateKey) else Ok(row)
  }

  class UsersTable {
    const columns: set<Field>
    var rows: Rows

    constructor (columns: set<Field>, rows: Rows)
      ensures this.columns == columns && this.rows == rows
    {
      this.columns := columns;
      this.rows := rows;
    }

    /** Every row has exactly the table's columns. */
    ghost predicate Shaped()
      reads this
    {
      forall id :: id in rows ==> rows[id].Keys == columns
    }

    /** `INSERT INTO users (...) VALUES (...) RETURNING *`; `defaults` are the columns' default values. */
    method InsertRow(id: string, sets: Row, defaults: Row) returns (saved: Result<Row, DocError>)
      requires Shaped() && defaults.Keys == columns
      modifies this
      ensures Shaped()
      ensures var row := map f | f in defaults :: if f in sets then sets[f] else defaults[f];
              saved == if id in old(rows) then Err(DuplicateKey) else Put(old(rows), id, row)
      ensures rows == if saved.Ok? then old(rows)[id := saved.value] else old(rows)
    {
      var row := map f | f in defaults :: if f in sets then sets[f] else defaults[f];
      if id in rows || Clashes(rows, id, row) {
        return Err(DuplicateKey);
      }
      rows := rows[id := row];
      saved := Ok(row);
    }

    /** `UPDATE users SET ... WHERE id = ... RETURNING *`. */
    method UpdateRow(id: string, sets: Row) returns (saved: Result<Row, DocError>)
      requires Shaped() && id in rows
      modifies this
      ensures Shaped()
      ensures var row := map f | f in old(rows)[id] :: if f in sets then sets[f] else old(rows)[id][f];
              saved == Put(old(rows), id, row)
      ensures rows == if saved.Ok? then old(rows)[id := saved.value] else old(rows)
    {
      var row := map f | f in rows[id] :: if f in sets then sets[f] else rows[id][f];
      if Clashes(rows, id, row) {
        return Err(DuplicateKey);
      }
      rows := rows[id := row];
      saved := Ok(row);
    }

    /** `applyUpdate` on the row with this id: lock, rewrite the touched fields one operator at a time, store, and
        roll back on any error. */
    method ApplyUpdate(id: string, u: Update) returns (r: Result<Option<Row>, DocError>)
      requires Shaped()
      modifies this
      ensures Shaped()
      ensures r == Updated(old(rows), id, u)
      ensures rows == if r.Ok? && r.value.Some? then old(rows)[id := r.value.value] else old(rows)
    {
      if id !in rows {
        return Ok(None);
      }
      var row := rows[id];
      var values := Rewritten(u, row);
      var changed := Touched(u) - {Id};
      if !(changed <= columns) {
        return Err(UnknownField);
      }
      var sets := map f | f in changed :: Encoded(f, values[f]);
      SetsGiveRowAfter(u, row, values, sets);
      var saved := UpdateRow(id, sets);
      r := if saved.Ok? then Ok(Some(saved.value)) else Err(saved.error);
    }
  }

  function Updated(rows: Rows, id: string, u: Update): Result<Option<Row>, DocError> {
    if id !in rows then Ok(None)
    else if !(Touched(u) - {Id} <= rows[id].Keys) then Err(UnknownField)
    else
      var row := RowAfter(u, rows[id]);
      if Clashes(rows, id, row) then Err(DuplicateKey) else Ok(Some(row))
  }

  function PushedFields(push: map<Field, PushSpec>, row: Row): (r: Row)
    ensures r.Keys == push.Keys
  {
    map f | f in push :: Pushed(ValueOf(row, f), push[f])
  }

  function PulledFields(pull: map<Field, Val>, row: Row): (r: Row)
    ensures r.Keys == pull.Keys
  {
    map f | f in pull :: Pulled(ValueOf(row, f), pull[f])
  }

  function IncrementedFields(inc: map<Field, int>, row: Row): (r: Row)
    ensures r.Keys == inc.Keys
  {
    map f | f in inc :: Incremented(ValueOf(row, f), inc[f])
  }

  /** The loop over the fields of one operator: each is rewritten from its current value. */
  method RewriteEach(fields: set<Field>, row: Row, change: (Field, Val) -> Val) returns (values: Row)
    ensures values == row + (map f | f in fields :: change(f, ValueOf(row, f)))
  {
    values := row;
    var todo := fields;
    while todo != {}
      invariant todo <= fields
      invariant values.Keys == row.Keys + (fields - todo)
      invariant forall f :: f in values
                    ==> values[f] == if f in fields - todo then change(f, ValueOf(row, f)) else row[f]
      decreases |todo|
    {
      var f :| f in todo;
      values := values[f := change(f, ValueOf(values, f))];
      todo := todo - {f};
    }
  }

  method PushAll(push: map<Field, PushSpec>, row: Row) returns (values: Row)
    ensures values == row + PushedFields(push, row)
  {
    values := RewriteEach(push.Keys, row, (f: Field, v: Val) => if f in push then Pushed(v, push[f]) else v);
  }

  method PullAll(pull: map<Field, Val>, row: Row) returns (values: Row)
    ensures values == row + PulledFields(pull, row)
  {
    values := RewriteEach(pull.Keys, row, (f: Field, v: Val) => if f in pull then Pulled(v, pull[f]) else v);
  }

  method IncrementAll(inc: map<Field, int>, row: Row) returns (values: Row)
    ensures values == row + IncrementedFields(inc, row)
  {
    values := RewriteEach(inc.Keys, row, (f: Field, v: Val) => if f in inc then Incremented(v, inc[f]) else v);
  }

  /** The in-memory copy of a row after all operators, applied operator by operator. */
  method Rewritten(u: Update, row: Row) returns (values: Row)
    ensures values.Keys == row.Keys + Touched(u)
    ensures forall f :: f in values ==> values[f] == FieldAfter(u, f, ValueOf(row, f))
  {
    var pushed := PushAll(u.push, row);
    var pulled := PullAll(u.pull, pushed);
    var put := pulled + u.put + Unsets(u.unset);
    values := IncrementAll(u.inc, put);
    StagesAddUp(u, row, pushed, pulled, put, values);
  }

  function Unsets(fields: set<Field>): (r: Row)
    ensures r.Keys == fields
  {
    map f | f in fields :: Null
  }

  lemma StageValues(u: Update, row: Row, f: Field)
    ensures ValueOf(row + PushedFields(u.push, row), f)
            == if f in u.push then Pushed(ValueOf(row, f), u.push[f]) else ValueOf(row, f)
    ensures ValueOf(row + PulledFields(u.pull, row), f)
            == if f in u.pull then Pulled(ValueOf(row, f), u.pull[f]) else ValueOf(row, f)
    ensures ValueOf(row + u.put + Unsets(u.unset), f)
            == if f in u.unset then Null else if f in u.put then u.put[f] else ValueOf(row, f)
    ensures ValueOf(row + IncrementedFields(u.inc, row), f)
            == if f in u.inc then Incremented(ValueOf(row, f), u.inc[f]) else ValueOf(row, f)
  {
  }

  lemma StagesAt(u: Update, row: Row, pushed: Row, pulled: Row, put: Row, f: Field)
    requires pushed == row + PushedFields(u.push, row)
    requires pulled == pushed + PulledFields(u.pull, pushed)
    requires put == pulled + u.put + Unsets(u.unset)
    ensures ValueOf(put + IncrementedFields(u.inc, put), f) == FieldAfter(u, f, ValueOf(row, f))
  {
    StageValues(u, row, f);
    StageValues(u, pushed, f);
    StageValues(u, pulled, f);
    StageValues(u, put, f);
  }

  lemma KeysOfSum(a: Row, b: Row)
    ensures (a + b).Keys == a.Keys + b.Keys
  {
  }

  lemma StageKeys(u: Update, row: Row, pushed: Row, pulled: Row, put: Row, all: Row)
    requires pushed == row + PushedFields(u.push, row)
    requires pulled == pushed + PulledFields(u.pull, pushed)
    requires put == pulled + u.put + Unsets(u.unset)
    requires all == put + IncrementedFields(u.inc, put)
    ensures all.Keys == row.Keys + Touched(u)
  {
    KeysOfSum(row, PushedFields(u.push, row));
    KeysOfSum(pushed, PulledFields(u.pull, pushed));
    KeysOfSum(pulled, u.put);
    KeysOfSum(pulled + u.put, Unsets(u.unset));
    KeysOfSum(put, IncrementedFields(u.inc, put));
  }

  lemma StagesAddUp(u: Update, row: Row, pushed: Row, pulled: Row, put: Row, all: Row)
    requires pushed == row + PushedFields(u.push, row)
    requires pulled == pushed + PulledFields(u.pull, pushed)
    requires put == pulled + u.put + Unsets(u.unset)
    requires all == put + IncrementedFields(u.inc, put)
    ensures all.Keys == row.Keys + Touched(u)
    ensures forall f :: f in all ==> all[f] == FieldAfter(u, f, ValueOf(row, f))
  {
    StageKeys(u, row, pushed, pulled, put, all);
    forall f | f in all ensures all[f] == FieldAfter(u, f, ValueOf(row, f)) {
      StagesAt(u, row, pushed, pulled, put, f);
    }
  }

  /** The loop that encodes the fields to be written, one by one. */
  method EncodeAll(values: Row, fields: set<Field>, hash: string -> string) returns (sets: Row)
    ensures sets == map f | f in fields :: Written(hash, f, ValueOf(values, f))
  {
    sets := map[];
    var todo := fields;
    while todo != {}
      invariant todo <= fields
      invariant sets == map f | f in fields - todo :: Written(hash, f, ValueOf(values, f))
      decreases |todo|
    {
      var f :| f in todo;
      todo := todo - {f};
      sets := sets[f := Written(hash, f, ValueOf(values, f))];
    }
  }

  /** A document, new or loaded from the table: its values, and which of them were assigned since. */
  class UserDoc {
    var values: Row
    var modified: set<Field>
    var isNew: bool

    constructor (values: Row, isNew: bool)
      ensures this.values == values && modified == {} && this.isNew == isNew
    {
      this.values := values;
      this.isNew := isNew;
      modified := {};
    }

    /** Assignment to a field, as the proxy records it. */
    method Assign(field: Field, v: Val)
      modifies this
      ensures values == old(values)[field := v] && modified == old(modified) + {field} && isNew == old(isNew)
    {
      values := values[field := v];
      modified := modified + {field};
    }

    method MarkModified(field: Field)
      modifies this
      ensures values == old(values) && modified == old(modified) + {field} && isNew == old(isNew)
    {
      modified := modified + {field};
    }

    /** Inserts a new document and updates a loaded one. */
    method Save(table: UsersTable, freshId: string, defaults: Row, hash: string -> string)
        returns (r: Result<(), DocError>)
      requires !isNew ==> Id in values && values[Id].Str?
      requires table.Shaped() && (isNew ==> defaults.Keys == table.columns)
      modifies this, table
      ensures table.Shaped()
      ensures old(isNew) ==> InsertDone(hash, old(table.rows), defaults, freshId, old(values), table.rows, values, r)
                             && (if r.Ok? then modified == {} && !isNew else modified == old(modified) && isNew)
      ensures !old(isNew) ==> UpdateDone(hash, table.columns, old(table.rows), old(values), old(modified), table.rows,
                                         values, r)
                              && !isNew && modified == if r.Ok? then {} else old(modified)
      ensures !old(isNew) && r.Ok? ==> SavedAsAssigned(hash, old(table.rows), old(values), old(modified), table.rows)
      ensures old(isNew) && r.Ok? ==> InsertedAsGiven(hash, old(table.rows), defaults, old(values), table.rows, values)
    {
      if isNew {
        r := Insert(table, freshId, defaults, hash);
      } else {
        r := Update(table, hash);
      }
    }

    method Insert(table: UsersTable, freshId: string, defaults: Row, hash: string -> string)
        returns (r: Result<(), DocError>)
      requires isNew && table.Shaped() && defaults.Keys == table.columns
      modifies this, table
      ensures table.Shaped()
      ensures InsertDone(hash, old(table.rows), defaults, freshId, old(values), table.rows, values, r)
      ensures if r.Ok? then modified == {} && !isNew else modified == old(modified) && isNew
      ensures r.Ok? ==> InsertedAsGiven(hash, old(table.rows), defaults, old(values), table.rows, values)
    {
      var given := WithId(values, freshId);
      var fields := InsertFields(given);
      if !(fields <= defaults.Keys) {
        return Err(UnknownField);
      }
      var sets := EncodeAll(given, fields, hash);
      ghost var row := map f | f in defaults :: if f in sets then sets[f] else defaults[f];
      assert row == InsertedRow(hash, defaults, given);
      var saved := table.InsertRow(IdOf(given), sets, defaults);
      if saved.Err? {
        return Err(saved.error);
      }
      values := saved.value;
      modified := {};
      isNew := false;
      r := Ok(());
      InsertDoneMeans(hash, old(table.rows), defaults, freshId, old(values), table.rows, values);
    }

    /** A document whose row is gone keeps its values and counts as saved. */
    method Update(table: UsersTable, hash: string -> string) returns (r: Result<(), DocError>)
      requires !isNew && Id in values && values[Id].Str? && table.Shaped()
      modifies this, table
      ensures table.Shaped()
      ensures UpdateDone(hash, table.columns, old(table.rows), old(values), old(modified), table.rows, values, r)
      ensures !isNew && modified == if r.Ok? then {} else old(modified)
      ensures r.Ok? ==> SavedAsAssigned(hash, old(table.rows), old(values), old(modified), table.rows)
    {
      var id := values[Id].s;
      var writeFields := WriteFields(values, modified);
      if !(writeFields <= table.columns) {
        return Err(UnknownField);
      }
      if id !in table.rows {
        modified := {};
        UpdateDoneMeans(hash, table.columns, table.rows, values, old(modified), table.rows, values);
        return Ok(());
      }
      var sets := EncodeAll(values, writeFields, hash);
      ghost var row := map f | f in table.rows[id] :: if f in sets then sets[f] else table.rows[id][f];
      assert row == SavedRow(hash, table.rows[id], values, modified);
      var saved := table.UpdateRow(id, sets);
      if saved.Err? {
        return Err(saved.error);
      }
      values := saved.value;
      modified := {};
      r := Ok(());
      UpdateDoneMeans(hash, table.columns, old(table.rows), old(values), old(modified), table.rows, values);
    }
  }

  /** After a save the document's row has what was assigned and what it had else, but for the arrays, which are as in
      the document; all other rows are as before, and a row that is gone stays gone. */
  ghost predicate SavedAsAssigned(hash: string -> string, before: Rows, values: Row, modified: set<Field>, after: Rows)
    requires Id in values && values[Id].Str?
  {
    var id := values[Id].s;
    && after.Keys == before.Keys
    && (forall x :: x in before && x != id ==> after[x] == before[x])
    && (id in before ==>
          && after[id].Keys == before[id].Keys
          && HoldsAssigned(hash, after[id], values, modified - {Id, CreatedAt, UpdatedAt})
          && forall f :: f in after[id] && f !in modified && !(f in JSONB_FIELDS && f in values)
                         ==> after[id][f] == before[id][f])
  }

  /** After an insertion there is one more row, under an id the document now has: it has what was given, the database's
      defaults where nothing was, and nothing else has changed. */
  ghost predicate InsertedAsGiven(hash: string -> string, before: Rows, defaults: Row, given: Row, after: Rows,
                                  values: Row) {
    && Id in values && values[Id].Str?
    && var id := values[Id].s;
    && (Id in given && given[Id].Str? && given[Id].s != "" ==> given[Id].s == id)
    && id !in before && id in after && after[id] == values && after == before[id := values]
    && HoldsAssigned(hash, values, given, given.Keys - {Id, CreatedAt, UpdatedAt})
    && values.Keys == defaults.Keys
    && forall f :: f in values && f != Id && (f !in given || f == CreatedAt || f == UpdatedAt)
           ==> values[f] == defaults[f]
  }

  lemma SavedRowMeans(hash: string -> string, row: Row, values: Row, modified: set<Field>)
    ensures var r := SavedRow(hash, row, values, modified);
            && r.Keys == row.Keys
            && HoldsAssigned(hash, r, values, modified - {Id, CreatedAt, UpdatedAt})
            && forall f :: f in r && f !in modified && !(f in JSONB_FIELDS && f in values) ==> r[f] == row[f]
  {
  }

  lemma UpdateDoneMeans(hash: string -> string, columns: set<Field>, before: Rows, values: Row, modified: set<Field>,
                        after: Rows, values': Row)
    requires Id in values && values[Id].Str? && forall x :: x in before ==> before[x].Keys == columns
    requires UpdateDone(hash, columns, before, values, modified, after, values', Ok(()))
    ensures SavedAsAssigned(hash, before, values, modified, after)
  {
    var id := values[Id].s;
    if id in before {
      SavedRowMeans(hash, before[id], values, modified);
    }
  }

  lemma InsertDoneMeans(hash: string -> string, before: Rows, defaults: Row, freshId: string, given: Row, after: Rows,
                        values: Row)
    requires Id in defaults && InsertDone(hash, before, defaults, freshId, given, after, values, Ok(()))
    ensures InsertedAsGiven(hash, before, defaults, given, after, values)
  {
  }

  function InsertOutcome(hash: string -> string, rows: Rows, defaults: Row, freshId: string,
                         values: Row): Result<Row, DocError> {
    var v := WithId(values, freshId);
    if !(InsertFields(v) <= defaults.Keys) then Err(UnknownField)
    else if IdOf(v) in rows then Err(DuplicateKey)
    else Put(rows, IdOf(v), InsertedRow(hash, defaults, v))
  }

  /** Every column name is resolved before the statement is sent; a row that is gone is then not missed. */
  function UpdateOutcome(hash: string -> string, columns: set<Field>, rows: Rows, values: Row,
                         modified: set<Field>): Result<Row, DocError> {
    var id := IdOf(values);
    if !(WriteFields(values, modified) <= columns) then Err(UnknownField)
    else if id !in rows then Ok(values)
    else Put(rows, id, SavedRow(hash, rows[id], values, modified))
  }

  /** The document becomes the inserted row, or nothing has changed. */
  ghost predicate InsertDone(hash: string -> string, before: Rows, defaults: Row, freshId: string, values: Row,
                             after: Rows, values': Row, r: Result<(), DocError>) {
    match InsertOutcome(hash, before, defaults, freshId, values)
    case Err(e) => r == Err(e) && after == before && values' == values
    case Ok(row) => r == Ok(()) && values' == row && after == before[IdOf(WithId(values, freshId)) := row]
  }

  /** The document becomes the stored row, or nothing has changed. */
  ghost predicate UpdateDone(hash: string -> string, columns: set<Field>, before: Rows, values: Row,
                             modified: set<Field>, after: Rows, values': Row, r: Result<(), DocError>) {
    match UpdateOutcome(hash, columns, before, values, modified)
    case Err(e) => r == Err(e) && after == before && values' == values
    case Ok(row) =>
      && r == Ok(()) && values' == row
      && after == if IdOf(values) in before then before[IdOf(values) := row] else before
  }

  // ---------------------------------------------------------------------------------------
  // Saves of one and of two documents
  // ---------------------------------------------------------------------------------------

  datatype Doc = Doc(values: Row, modified: set<Field>)

  /** What `Save` does to the stored row and to the document. */
  function SaveStep(hash: string -> string, row: Row, d: Doc): (Row, Doc) {
    var r := SavedRow(hash, row, d.values, d.modified);
    (r, Doc(r, {}))
  }

  /** A document loaded from `row` without the fields its query left out, on which some fields were assigned. */
  function Loaded(row: Row, hidden: set<Field>, edits: Row): Doc {
    Doc((row - hidden) + edits, edits.Keys)
  }

  /** Plain columns that a caller may assign. */
  ghost predicate Scalars(row: Row, edits: Row) {
    edits.Keys <= row.Keys && edits.Keys !! JSONB_FIELDS && edits.Keys !! GENERATED
  }

  /** The row's JSONB columns are arrays. */
  ghost predicate ArraysStored(row: Row) {
    forall f :: f in row && f in JSONB_FIELDS ==> row[f].Arr?
  }

  /** The row with some assignments stored. */
  function Stored(hash: string -> string, row: Row, edits: Row): Row {
    map f | f in row :: if f in edits then Written(hash, f, edits[f]) else row[f]
  }

  function SaveMany(hash: string -> string, row: Row, d: Doc, n: nat): Row
    decreases n
  {
    if n == 0 then row
    else
      var (r, d') := SaveStep(hash, row, d);
      SaveMany(hash, r, d', n - 1)
  }

  /** The row has what was assigned, and everything else from before. */
  ghost predicate OnlyAssigned(hash: string -> string, before: Row, after: Row, edits: Row) {
    && after.Keys == before.Keys && HoldsAssigned(hash, after, edits, edits.Keys)
    && forall f :: f in before && f !in edits ==> after[f] == before[f]
  }

  /** Whatever the query left out, exactly the assigned columns change. */
  lemma SaveWritesAssigned(hash: string -> string, row: Row, hidden: set<Field>, edits: Row)
    requires Scalars(row, edits) && ArraysStored(row)
    ensures OnlyAssigned(hash, row, SaveStep(hash, row, Loaded(row, hidden, edits)).0, edits)
    ensures SaveStep(hash, row, Loaded(row, hidden, edits)).0 == Stored(hash, row, edits)
    ensures ArraysStored(Stored(hash, row, edits))
  {
  }

  /** A save with nothing assigned leaves the row alone exactly when the document's copies of the JSONB
      arrays are still the stored ones: stale copies are written back over newer ones. */
  lemma CleanSaveWritesNothing(hash: string -> string, row: Row, d: Doc)
    requires d.modified == {} && d.values.Keys <= row.Keys
    ensures SaveStep(hash, row, d).0 == row
       <==> forall f :: f in JSONB_FIELDS && f in d.values ==> Encoded(f, d.values[f]) == row[f]
  {
    var r := SaveStep(hash, row, d).0;
    if r == row {
      forall f | f in JSONB_FIELDS && f in d.values ensures Encoded(f, d.values[f]) == row[f] {
        assert r[f] == Encoded(f, d.values[f]);
      }
    }
  }

  /** However often a document is saved, its assignments are written once: a password is hashed exactly once. */
  lemma SavingAgainChangesNothing(hash: string -> string, row: Row, hidden: set<Field>, edits: Row, n: nat)
    requires Scalars(row, edits) && ArraysStored(row) && n > 0
    ensures OnlyAssigned(hash, row, SaveMany(hash, row, Loaded(row, hidden, edits), n), edits)
  {
    SaveWritesAssigned(hash, row, hidden, edits);
    var (r, d) := SaveStep(hash, row, Loaded(row, hidden, edits));
    CleanSavesChangeNothing(hash, r, n - 1);
  }

  lemma {:induction false} CleanSavesChangeNothing(hash: string -> string, row: Row, n: nat)
    requires ArraysStored(row)
    ensures SaveMany(hash, row, Doc(row, {}), n) == row
    decreases n
  {
    if n > 0 {
      CleanSaveWritesNothing(hash, row, Doc(row, {}));
      CleanSavesChangeNothing(hash, row, n - 1);
    }
  }

  /** A new document, too, is hashed and stored once: however many saves follow its insertion, the row stays. */
  lemma InsertedThenSaved(hash: string -> string, defaults: Row, values: Row, n: nat)
    requires ArraysStored(defaults) && forall f :: f in values && f in JSONB_FIELDS
                                           ==> values[f].Arr? || values[f].Null?
    ensures var r := InsertedRow(hash, defaults, values);
            && SaveMany(hash, r, Doc(r, {}), n) == r
            && HoldsAssigned(hash, r, values, values.Keys - {CreatedAt, UpdatedAt})
  {
    CleanSavesChangeNothing(hash, InsertedRow(hash, defaults, values), n);
  }

  /** Two documents of one row being saved in some order; true is a save of the first. */
  function SaveTurns(hash: string -> string, row: Row, a: Doc, b: Doc, turns: seq<bool>): Row
    decreases turns
  {
    if turns == [] then row
    else if turns[0] then
      var (r, a') := SaveStep(hash, row, a);
      SaveTurns(hash, r, a', b, turns[1..])
    else
      var (r, b') := SaveStep(hash, row, b);
      SaveTurns(hash, r, a, b', turns[1..])
  }

  /** Where a document stands: not saved yet, or saved with nothing assigned since. Either way its copies
      of the JSONB arrays are the stored ones. */
  ghost predicate Standing(hash: string -> string, row: Row, base: Row, d: Doc, hidden: set<Field>, edits: Row,
                           saved: bool) {
    && (forall f :: f in JSONB_FIELDS && f in d.values && f in row ==> d.values[f] == row[f])
    && if saved then d.modified == {}
       else d == Loaded(base, hidden, edits)
  }

  function Effects(hash: string -> string, base: Row, a: Row, b: Row, savedA: bool, savedB: bool): Row {
    map f | f in base ::
      if savedA && f in a then Written(hash, f, a[f])
      else if savedB && f in b then Written(hash, f, b[f])
      else base[f]
  }

  lemma TurnOfFirst(hash: string -> string, base: Row, da: Doc, db: Doc, hiddenA: set<Field>, hiddenB: set<Field>,
                    a: Row, b: Row, savedA: bool, savedB: bool)
    requires Scalars(base, a) && Scalars(base, b) && a.Keys !! b.Keys && ArraysStored(base)
    requires var row := Effects(hash, base, a, b, savedA, savedB);
             Standing(hash, row, base, da, hiddenA, a, savedA) && Standing(hash, row, base, db, hiddenB, b, savedB)
    ensures var row := Effects(hash, base, a, b, savedA, savedB);
            var (r, da') := SaveStep(hash, row, da);
            && r == Effects(hash, base, a, b, true, savedB)
            && Standing(hash, r, base, da', hiddenA, a, true) && Standing(hash, r, base, db, hiddenB, b, savedB)
  {
    var row := Effects(hash, base, a, b, savedA, savedB);
    forall f | f in row ensures SavedRow(hash, row, da.values, da.modified)[f]
      == Effects(hash, base, a, b, true, savedB)[f] {
      assert f in JSONB_FIELDS ==> row[f] == base[f];
    }
  }

  lemma EffectsCommute(hash: string -> string, base: Row, a: Row, b: Row, savedA: bool, savedB: bool)
    requires a.Keys !! b.Keys
    ensures Effects(hash, base, a, b, savedA, savedB) == Effects(hash, base, b, a, savedB, savedA)
  {
  }

  lemma {:induction false} TurnsSettle(hash: string -> string, base: Row, da: Doc, db: Doc, hiddenA: set<Field>,
                                       hiddenB: set<Field>,
                                       a: Row, b: Row, savedA: bool, savedB: bool, turns: seq<bool>)
    requires Scalars(base, a) && Scalars(base, b) && a.Keys !! b.Keys && ArraysStored(base)
    requires var row := Effects(hash, base, a, b, savedA, savedB);
             Standing(hash, row, base, da, hiddenA, a, savedA) && Standing(hash, row, base, db, hiddenB, b, savedB)
    ensures SaveTurns(hash, Effects(hash, base, a, b, savedA, savedB), da, db, turns)
         == Effects(hash, base, a, b, savedA || true in turns, savedB || false in turns)
    decreases turns
  {
    if turns != [] {
      var row := Effects(hash, base, a, b, savedA, savedB);
      assert turns == [turns[0]] + turns[1..];
      if turns[0] {
        TurnOfFirst(hash, base, da, db, hiddenA, hiddenB, a, b, savedA, savedB);
        TurnsSettle(hash, base, SaveStep(hash, row, da).1, db, hiddenA, hiddenB, a, b, true, savedB, turns[1..]);
      } else {
        EffectsCommute(hash, base, a, b, savedA, savedB);
        EffectsCommute(hash, base, a, b, savedA, true);
        TurnOfFirst(hash, base, db, da, hiddenB, hiddenA, b, a, savedB, savedA);
        TurnsSettle(hash, base, da, SaveStep(hash, row, db).1, hiddenA, hiddenB, a, b, savedA, true, turns[1..]);
      }
    }
  }

  lemma EffectsAreAssigned(hash: string -> string, base: Row, a: Row, b: Row, savedA: bool, savedB: bool)
    requires Scalars(base, a) && Scalars(base, b) && a.Keys !! b.Keys
    ensures OnlyAssigned(hash, base, Effects(hash, base, a, b, savedA, savedB),
                         (if savedA then a else map[]) + (if savedB then b else map[]))
  {
    var r := Effects(hash, base, a, b, savedA, savedB);
    var edits := (if savedA then a else map[]) + (if savedB then b else map[]);
    forall f | f in edits ensures f in base && r[f] == Written(hash, f, edits[f]) {
    }
  }

  /** Two documents loaded from one row, each without what its query left out, that assign different plain
      fields can be saved any number of times in any order: the row ends with exactly the assignments of the
      documents that were saved. */
  lemma DisjointSavesCommute(hash: string -> string, base: Row, hiddenA: set<Field>, hiddenB: set<Field>, a: Row,
                             b: Row, turns: seq<bool>)
    requires Scalars(base, a) && Scalars(base, b) && a.Keys !! b.Keys && ArraysStored(base)
    ensures OnlyAssigned(hash, base, SaveTurns(hash, base, Loaded(base, hiddenA, a), Loaded(base, hiddenB, b), turns),
                         (if true in turns then a else map[]) + (if false in turns then b else map[]))
  {
    assert Effects(hash, base, a, b, false, false) == base;
    EffectsAreAssigned(hash, base, a, b, true in turns, false in turns);
    TurnsSettle(hash, base, Loaded(base, hiddenA, a), Loaded(base, hiddenB, b), hiddenA, hiddenB, a, b, false, false,
                turns);
  }
}
