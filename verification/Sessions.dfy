/** Session tokens: the refresh-token hashes and access-token ids stored with a user. */
module Sessions {
  import opened Wrappers
  import opened Documents
  import opened Lists

  const MAX_REFRESH: nat := 5
  const MAX_JTIS: nat := 20

  /** The stored session state of one user. */
  datatype Session = Session(refresh: seq<string>, jtis: seq<string>, version: int)

  function WithJti(jtis: seq<string>, jti: Option<string>): seq<string> {
    if jti.Some? then LastOf(jtis + [jti.value], MAX_JTIS) else jtis
  }

  function Persisted(v: Session, hash: string, jti: Option<string>): Session {
    v.(refresh := LastOf(v.refresh + [hash], MAX_REFRESH), jtis := WithJti(v.jtis, jti))
  }

  /** The new hash is pushed, and the list cut to five, before the old hash is pulled. */
  function Rotated(v: Session, old_: string, hash: string, jti: Option<string>): Session {
    if old_ !in v.refresh then v
    else v.(refresh := Minus(LastOf(v.refresh + [hash], MAX_REFRESH), old_), jtis := WithJti(v.jtis, jti))
  }

  function Removed(v: Session, hash: string): Session {
    v.(refresh := Minus(v.refresh, hash))
  }

  function Invalidated(v: Session): Session {
    Session([], [], v.version + 1)
  }

  // ---------------------------------------------------------------------------------------
  // The stored form
  // ---------------------------------------------------------------------------------------

  function Strs(s: seq<string>): (r: seq<Val>)
    ensures |r| == |s| && forall i :: 0 <= i < |s| ==> r[i] == Str(s[i])
  {
    seq(|s|, i requires 0 <= i < |s| => Str(s[i]))
  }

  /** The row stores this session state. */
  ghost predicate Stores(row: Row, v: Session) {
    && RefreshTokens in row && row[RefreshTokens] == Arr(Strs(v.refresh))
    && ActiveAccessJtis in row && row[ActiveAccessJtis] == Arr(Strs(v.jtis))
    && TokenVersion in row && row[TokenVersion] == Num(v.version)
  }

  const SESSION_FIELDS: set<Field> := {RefreshTokens, ActiveAccessJtis, TokenVersion}

  /** Two rows that differ in session fields only. */
  ghost predicate SameOtherwise(a: Row, b: Row) {
    a.Keys == b.Keys && forall f :: f in a && f !in SESSION_FIELDS ==> a[f] == b[f]
  }

  lemma SlicedStrs(s: seq<string>, n: nat)
    requires n > 0
    ensures Sliced(Strs(s), 0 - n) == Strs(LastOf(s, n))
  {
  }

  lemma StrsContain(s: seq<string>, x: string)
    ensures Str(x) in Strs(s) <==> x in s
  {
    if x in s {
      var i :| 0 <= i < |s| && s[i] == x;
      assert Strs(s)[i] == Str(x);
    }
  }

  lemma StrsOfAppend(s: seq<string>, x: string)
    ensures Strs(s) + [Str(x)] == Strs(s + [x])
  {
  }

  lemma {:induction false} MinusStrs(s: seq<string>, x: string)
    ensures Minus(Strs(s), Str(x)) == Strs(Minus(s, x))
  {
    if s == [] {
      assert Strs(s) == [];
    } else {
      var rest := Minus(s[1..], x);
      MinusStrs(s[1..], x);
      assert Strs(s)[1..] == Strs(s[1..]);
      if s[0] == x {
        assert Minus(s, x) == rest;
      } else {
        assert Minus(s, x) == [s[0]] + rest;
        StrsOfCons(s[0], rest);
      }
    }
  }

  lemma StrsOfCons(x: string, s: seq<string>)
    ensures Strs([x] + s) == [Str(x)] + Strs(s)
  {
  }

  /** The update document both persist and rotate send; rotation also pulls the old hash. */
  function PushTokens(hash: string, jti: Option<string>, pulled: Option<string>): Update {
    var refresh := map[RefreshTokens := PushSpec([Str(hash)], Some(-5))];
    Update(if jti.Some? then refresh[ActiveAccessJtis := PushSpec([Str(jti.value)], Some(-20))] else refresh,
           if pulled.Some? then map[RefreshTokens := Str(pulled.value)] else map[], map[], {}, map[])
  }

  function AfterTokens(v: Session, hash: string, jti: Option<string>, pulled: Option<string>): Session {
    var pushed := LastOf(v.refresh + [hash], MAX_REFRESH);
    v.(refresh := if pulled.Some? then Minus(pushed, pulled.value) else pushed, jtis := WithJti(v.jtis, jti))
  }

  lemma RefreshAfter(v: Session, hash: string, jti: Option<string>, pulled: Option<string>)
    ensures FieldAfter(PushTokens(hash, jti, pulled), RefreshTokens, Arr(Strs(v.refresh)))
         == Arr(Strs(AfterTokens(v, hash, jti, pulled).refresh))
  {
    var u, pushed := PushTokens(hash, jti, pulled), LastOf(v.refresh + [hash], MAX_REFRESH);
    StrsOfAppend(v.refresh, hash);
    SlicedStrs(v.refresh + [hash], MAX_REFRESH);
    assert Pushed(Arr(Strs(v.refresh)), u.push[RefreshTokens]) == Arr(Strs(pushed));
    if pulled.Some? {
      MinusStrs(pushed, pulled.value);
    }
  }

  lemma JtisAfter(v: Session, hash: string, jti: Option<string>, pulled: Option<string>)
    ensures var u := PushTokens(hash, jti, pulled);
            if jti.Some? then FieldAfter(u, ActiveAccessJtis, Arr(Strs(v.jtis))) == Arr(Strs(WithJti(v.jtis, jti)))
            else ActiveAccessJtis !in Touched(u) && WithJti(v.jtis, jti) == v.jtis
    ensures var touched := Touched(PushTokens(hash, jti, pulled));
            RefreshTokens in touched && touched <= {RefreshTokens, ActiveAccessJtis}
  {
    if jti.Some? {
      StrsOfAppend(v.jtis, jti.value);
      SlicedStrs(v.jtis + [jti.value], MAX_JTIS);
    }
  }

  lemma PushTokensStores(row: Row, v: Session, hash: string, jti: Option<string>, pulled: Option<string>)
    requires Stores(row, v)
    ensures var r := RowAfter(PushTokens(hash, jti, pulled), row);
            SameOtherwise(row, r) && Stores(r, AfterTokens(v, hash, jti, pulled))
  {
    RefreshAfter(v, hash, jti, pulled);
    JtisAfter(v, hash, jti, pulled);
  }

  // ---------------------------------------------------------------------------------------
  // The service
  // ---------------------------------------------------------------------------------------

  /** Only the row of `id` has changed, from storing `v` to storing `v'`, and only in its session fields. */
  ghost predicate Moved(before: Rows, after: Rows, id: string, v: Session, v': Session) {
    && id in before && id in after && Stores(before[id], v) && Stores(after[id], v')
    && SameOtherwise(before[id], after[id])
    && after == before[id := after[id]]
  }

  /** A change of session fields cannot clash with another row. */
  lemma SessionRowIsAccepted(rows: Rows, id: string, row: Row)
    requires Unique(rows) && id in rows && SameOtherwise(rows[id], row)
    ensures !Clashes(rows, id, row) && Unique(rows[id := row])
  {
    forall x | x in rows && x != id ensures !Clash(rows[x], row) {
      assert !Clash(rows[x], rows[id]);
      SameClashes(rows[x], rows[id], row);
    }
    AcceptedRowsStayUnique(rows, id, row);
  }

  lemma SameClashes(other: Row, a: Row, b: Row)
    requires SameOtherwise(a, b)
    ensures Clash(other, a) <==> Clash(other, b)
  {
    assert forall f :: f in {Email, Provider, ProviderId} ==> ValueOf(a, f) == ValueOf(b, f);
  }

  lemma OneRowMoved(before: Rows, id: string, row: Row, v: Session, v': Session)
    requires Unique(before) && id in before && Stores(before[id], v) && Stores(row, v')
             && SameOtherwise(before[id], row)
    ensures !Clashes(before, id, row)
    ensures Moved(before, before[id := row], id, v, v') && Unique(before[id := row])
  {
    assert before[id := row][id] == row;
    SessionRowIsAccepted(before, id, row);
  }

  lemma UpdateMoves(rows: Rows, id: string, u: Update, v: Session, v': Session)
    requires Unique(rows) && id in rows && Stores(rows[id], v) && Touched(u) <= SESSION_FIELDS
    requires Stores(RowAfter(u, rows[id]), v') && SameOtherwise(rows[id], RowAfter(u, rows[id]))
    ensures var row := RowAfter(u, rows[id]);
            && Updated(rows, id, u) == Ok(Some(row))
            && Moved(rows, rows[id := row], id, v, v') && Unique(rows[id := row])
  {
    OneRowMoved(rows, id, RowAfter(u, rows[id]), v, v');
  }

  lemma TokensMove(rows: Rows, id: string, v: Session, hash: string, jti: Option<string>, pulled: Option<string>)
    requires Unique(rows) && id in rows && Stores(rows[id], v)
    ensures var u := PushTokens(hash, jti, pulled);
            var row := RowAfter(u, rows[id]);
            && Updated(rows, id, u) == Ok(Some(row))
            && Moved(rows, rows[id := row], id, v, AfterTokens(v, hash, jti, pulled)) && Unique(rows[id := row])
  {
    PushTokensStores(rows[id], v, hash, jti, pulled);
    UpdateMoves(rows, id, PushTokens(hash, jti, pulled), v, AfterTokens(v, hash, jti, pulled));
  }

  method PersistSessionTokens(users: UsersTable, id: string, hash: string, jti: Option<string>, ghost v: Session)
    requires users.Shaped() && Unique(users.rows) && (id in users.rows ==> Stores(users.rows[id], v))
    modifies users
    ensures users.Shaped() && Unique(users.rows)
    ensures if id in old(users.rows) then Moved(old(users.rows), users.rows, id, v, Persisted(v, hash, jti))
            else users.rows == old(users.rows)
  {
    if id in users.rows {
      TokensMove(users.rows, id, v, hash, jti, None);
    }
    var _ := users.ApplyUpdate(id, PushTokens(hash, jti, None));
  }

  /** Rotation answers false, and changes nothing, for a token that is not stored. */
  method RotateSessionTokens(users: UsersTable, id: string, oldHash: string, hash: string, jti: Option<string>,
                             ghost v: Session)
      returns (ok: bool)
    requires users.Shaped() && Unique(users.rows) && (id in users.rows ==> Stores(users.rows[id], v))
    modifies users
    ensures users.Shaped() && Unique(users.rows)
    ensures ok <==> id in old(users.rows) && oldHash in v.refresh
    ensures if ok then Moved(old(users.rows), users.rows, id, v, Rotated(v, oldHash, hash, jti))
            else users.rows == old(users.rows)
  {
    StrsContain(v.refresh, oldHash);
    if id !in users.rows || Str(oldHash) !in users.rows[id][RefreshTokens].items {
      return false;
    }
    TokensMove(users.rows, id, v, hash, jti, Some(oldHash));
    var _ := users.ApplyUpdate(id, PushTokens(hash, jti, Some(oldHash)));
    ok := true;
  }

  /** What saving a loaded document with these session fields assigned stores. */
  lemma SavedSession(hash: string -> string, row: Row, id: string, hidden: set<Field>, edits: Row, v: Session,
                     v': Session)
    requires Stores(row, v) && RowOf(row, id) && hidden <= {Password, ActiveAccessJtis}
    requires edits.Keys <= SESSION_FIELDS && (ActiveAccessJtis in edits || v'.jtis == v.jtis)
    requires if RefreshTokens in edits then edits[RefreshTokens] == Arr(Strs(v'.refresh)) else v'.refresh == v.refresh
    requires ActiveAccessJtis in edits ==> edits[ActiveAccessJtis] == Arr(Strs(v'.jtis))
    requires if TokenVersion in edits then edits[TokenVersion] == Num(v'.version) else v'.version == v.version
    ensures var values := (row - hidden) + edits;
            var saved := SavedRow(hash, row, values, edits.Keys);
            && WriteFields(values, edits.Keys) <= row.Keys
            && Stores(saved, v') && SameOtherwise(row, saved) && IdOf(values) == id
  {
  }

  lemma SaveMoves(hash: string -> string, columns: set<Field>, rows: Rows, id: string, hidden: set<Field>, edits: Row,
                  v: Session, v': Session)
    requires Unique(rows) && id in rows && rows[id].Keys == columns && Stores(rows[id], v) && RowOf(rows[id], id)
             && hidden <= {Password, ActiveAccessJtis}
    requires edits.Keys <= SESSION_FIELDS && (ActiveAccessJtis in edits || v'.jtis == v.jtis)
    requires if RefreshTokens in edits then edits[RefreshTokens] == Arr(Strs(v'.refresh)) else v'.refresh == v.refresh
    requires ActiveAccessJtis in edits ==> edits[ActiveAccessJtis] == Arr(Strs(v'.jtis))
    requires if TokenVersion in edits then edits[TokenVersion] == Num(v'.version) else v'.version == v.version
    ensures var values := (rows[id] - hidden) + edits;
            var saved := SavedRow(hash, rows[id], values, edits.Keys);
            && IdOf(values) == id && UpdateOutcome(hash, columns, rows, values, edits.Keys) == Ok(saved)
            && Moved(rows, rows[id := saved], id, v, v') && Unique(rows[id := saved])
  {
    SavedSession(hash, rows[id], id, hidden, edits, v, v');
    OneRowMoved(rows, id, SavedRow(hash, rows[id], (rows[id] - hidden) + edits, edits.Keys), v, v');
  }

  method RemoveRefreshToken(users: UsersTable, id: string, hash: string, passwordHash: string -> string,
                            ghost v: Session)
    requires users.Shaped() && Unique(users.rows)
             && (id in users.rows ==> Stores(users.rows[id], v) && RowOf(users.rows[id], id))
    modifies users
    ensures users.Shaped() && Unique(users.rows)
    ensures if id in old(users.rows) then Moved(old(users.rows), users.rows, id, v, Removed(v, hash))
            else users.rows == old(users.rows)
  {
    if id !in users.rows {
      return;
    }
    ghost var row := users.rows[id];
    var stored := users.rows[id][RefreshTokens].items;
    StrsContain(v.refresh, hash);
    if Str(hash) !in stored {
      MinusNothing(v.refresh, hash);
      OneRowMoved(users.rows, id, row, v, v);
      assert users.rows == users.rows[id := row];
      return;
    }
    var user := new UserDoc(users.rows[id] - {Password, ActiveAccessJtis}, false);
    MinusStrs(v.refresh, hash);
    user.Assign(RefreshTokens, Arr(Minus(stored, Str(hash))));
    ghost var edits := map[RefreshTokens := Arr(Minus(stored, Str(hash)))];
    assert user.values == (row - {Password, ActiveAccessJtis}) + edits && user.modified == edits.Keys;
    SaveMoves(passwordHash, users.columns, users.rows, id, {Password, ActiveAccessJtis}, edits, v, Removed(v, hash));
    var _ := user.Save(users, "", map[], passwordHash);
  }

  /** The tracked access tokens are revoked elsewhere; here the stored state is reset. */
  method InvalidateAllSessions(users: UsersTable, id: string, passwordHash: string -> string, ghost v: Session)
    requires users.Shaped() && Unique(users.rows)
             && (id in users.rows ==> Stores(users.rows[id], v) && RowOf(users.rows[id], id))
    modifies users
    ensures users.Shaped() && Unique(users.rows)
    ensures if id in old(users.rows) then Moved(old(users.rows), users.rows, id, v, Invalidated(v))
            else users.rows == old(users.rows)
  {
    if id !in users.rows {
      return;
    }
    ghost var row := users.rows[id];
    var user := new UserDoc(users.rows[id] - {Password}, false);
    var version := users.rows[id][TokenVersion].n + 1;
    assert Strs([]) == [];
    user.Assign(RefreshTokens, Arr([]));
    user.Assign(ActiveAccessJtis, Arr([]));
    user.Assign(TokenVersion, Num(version));
    ghost var edits := map[RefreshTokens := Arr([]), ActiveAccessJtis := Arr([]), TokenVersion := Num(version)];
    assert user.values == (row - {Password}) + edits && user.modified == edits.Keys;
    SaveMoves(passwordHash, users.columns, users.rows, id, {Password}, edits, v, Invalidated(v));
    var _ := user.Save(users, "", map[], passwordHash);
  }

  /** The row carries its key, and its JSONB history column is an array. */
  ghost predicate RowOf(row: Row, id: string) {
    Id in row && row[Id] == Str(id) && (MigrationHistory in row ==> row[MigrationHistory].Arr?)
  }
}
