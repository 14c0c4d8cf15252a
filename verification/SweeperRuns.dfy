/** The TTL sweeper against every other statement on the users table and the index, and against every lookup. */
module SweeperRuns {
  import opened Wrappers
  import opened Users
  import opened IdentityIndex
  import opened IndexRuns

  /** One statement on the two tables, or the passing of time. Upsert and Prune are what a synchronisation consists
      of; Write and Delete are those on the users table, the latter cascading; Fire is one firing of the sweeper. */
  datatype Statement =
    | Upsert(key: Key, patch: Patch)
    | Prune(userId: nat, keep: set<Key>)
    | Write(u: User)
    | Delete(id: nat)
    | Fire
    | Wait(ms: nat)

  function Executed(w: World, s: Statement): World {
    match s
    case Upsert(key, patch) => w.(rows := Upserted(w.rows, key, patch, w.users.Keys))
    case Prune(userId, keep) => w.(rows := Pruned(w.rows, userId, keep))
    case Write(u) => w.(users := w.users[u.id := u])
    case Delete(id) => Next(w, Remove(id))
    case Fire => Next(w, Sweep)
    case Wait(ms) => Next(w, Pass(ms))
  }

  function ExecutedAll(w: World, statements: seq<Statement>): World
    decreases statements
  {
    if statements == [] then w else ExecutedAll(Executed(w, statements[0]), statements[1..])
  }

  /** Every column is named, OAuth rows never expire and pending ones do. */
  predicate CompletePatch(key: Key, p: Patch) {
    && !p.kind.Keep? && !p.userId.Keep? && !p.provider.Keep? && !p.verified.Keep? && !p.expiresAt.Keep?
    && (key.OAuthKey? ==> p.expiresAt.Unset?)
    && (key.EmailKey? && key.kind.PendingMigration? ==> p.expiresAt.Put?)
  }

  ghost predicate Complete(statements: seq<Statement>) {
    forall s <- statements :: s.Upsert? ==> CompletePatch(s.key, s.patch)
  }

  // ---------------------------------------------------------------------------------------
  // Whole operations are such statements
  // ---------------------------------------------------------------------------------------

  /** The upserts of a synchronisation, and its prune. */
  function Upserts(u: User, now: nat): seq<Statement> {
    [Upsert(KeyOf(PrimaryEmail, u.email), PrimaryPatch(u))]
    + (if Present(u.previousEmail) && After(u.migrationExpiry, now)
       then [Upsert(KeyOf(PreviousEmail, u.previousEmail.value), PreviousPatch(u, u.migrationExpiry.value))] else [])
    + (if Present(u.newEmailPending) && After(u.migrationTokenExpires, now)
       then [Upsert(KeyOf(PendingMigration, u.newEmailPending.value), PendingPatch(u, u.migrationTokenExpires.value))]
       else [])
    + (if HasOAuth(u) then [Upsert(OAuthKey(u.provider, u.providerId.value), OAuthPatch(u))] else [])
  }

  function SyncStatements(u: User, now: nat): seq<Statement> {
    Upserts(u, now) + [Prune(u.id, Expected(u, now))]
  }

  ghost function KeysWritten(statements: seq<Statement>): set<Key> {
    set s <- statements | s.Upsert? :: s.key
  }

  /** Each upsert writes the user's own row under its key. */
  ghost predicate WritesRowsOf(statements: seq<Statement>, u: User) {
    forall s <- statements :: s.Upsert? && Patched(None, s.patch) == Some(EntryOf(u, s.key))
      && CompletePatch(s.key, s.patch)
  }

  lemma UpsertWrites(w: World, u: User, s: Statement)
    requires u.id in w.users && WritesRowsOf([s], u)
    ensures s.Upsert? && Executed(w, s) == w.(rows := w.rows[s.key := EntryOf(u, s.key)])
  {
    assert s in [s];
    if s.key in w.rows {
      UpdateAndInsertAgree(w.rows[s.key], s.patch);
    }
  }

  lemma OverlaidInTurn(rows: Rows, u: User, k: Key, keys: set<Key>)
    ensures Overlaid(rows[k := EntryOf(u, k)], u, keys) == Overlaid(rows, u, {k} + keys)
    ensures Overlaid(rows, u, {}) == rows
  {
  }

  lemma {:induction false} UpsertsOverlay(w: World, u: User, statements: seq<Statement>)
    requires u.id in w.users && WritesRowsOf(statements, u)
    ensures ExecutedAll(w, statements) == w.(rows := Overlaid(w.rows, u, KeysWritten(statements)))
    decreases statements
  {
    if statements == [] {
      OverlaidInTurn(w.rows, u, KeyOf(PrimaryEmail, u.email), {});
    } else {
      var s, rest := statements[0], statements[1..];
      UpsertWrites(w, u, s);
      UpsertsOverlay(Executed(w, s), u, rest);
      assert KeysWritten(statements) == {s.key} + KeysWritten(rest);
      OverlaidInTurn(w.rows, u, s.key, KeysWritten(rest));
    }
  }

  lemma UpsertsWriteExpected(u: User, now: nat)
    ensures WritesRowsOf(Upserts(u, now), u) && KeysWritten(Upserts(u, now)) == Expected(u, now)
  {
    ExpectedAreKeysInForce(u, now);
  }

  lemma {:induction false} ExecutedConcat(w: World, a: seq<Statement>, b: seq<Statement>)
    ensures ExecutedAll(w, a + b) == ExecutedAll(ExecutedAll(w, a), b)
    decreases a
  {
    if a == [] {
      assert a + b == b;
    } else {
      assert (a + b)[0] == a[0] && (a + b)[1..] == a[1..] + b;
      ExecutedConcat(Executed(w, a[0]), a[1..], b);
    }
  }

  /** A synchronisation is its upserts and its prune, one after the other. */
  lemma SyncIsStatements(w: World, u: User)
    requires u.id in w.users
    ensures ExecutedAll(w, SyncStatements(u, w.now)) == w.(rows := Synced(w.rows, u, w.now))
    ensures Complete(SyncStatements(u, w.now))
  {
    var prune := Prune(u.id, Expected(u, w.now));
    UpsertsWriteExpected(u, w.now);
    UpsertsOverlay(w, u, Upserts(u, w.now));
    ExecutedConcat(w, Upserts(u, w.now), [prune]);
    OverlayThenPrune(w.rows, u, w.now);
    var o := ExecutedAll(w, Upserts(u, w.now));
    assert ExecutedAll(o, [prune]) == ExecutedAll(Executed(o, prune), []);
  }

  /** The statements of a whole act. */
  function StatementsOf(a: Act, now: nat): seq<Statement> {
    match a
    case Store(u) => [Write(u)] + SyncStatements(u, now)
    case Touch(u) => [Write(u)]
    case Remove(id) => [Delete(id)]
    case Sweep => [Fire]
    case Pass(ms) => [Wait(ms)]
  }

  lemma ActIsStatements(w: World, a: Act)
    ensures ExecutedAll(w, StatementsOf(a, w.now)) == Next(w, a) && Complete(StatementsOf(a, w.now))
  {
    if a.Store? {
      var w' := Executed(w, Write(a.u));
      SyncIsStatements(w', a.u);
      assert StatementsOf(a, w.now)[1..] == SyncStatements(a.u, w.now);
    } else {
      var s := StatementsOf(a, w.now)[0];
      assert ExecutedAll(w, [s]) == ExecutedAll(Executed(w, s), []);
    }
  }

  function StatementsOfAll(w: World, acts: seq<Act>): seq<Statement>
    decreases acts
  {
    if acts == [] then [] else StatementsOf(acts[0], w.now) + StatementsOfAll(Next(w, acts[0]), acts[1..])
  }

  /** And so is every run of acts. */
  lemma {:induction false} RunIsStatements(w: World, acts: seq<Act>)
    ensures ExecutedAll(w, StatementsOfAll(w, acts)) == Run(w, acts) && Complete(StatementsOfAll(w, acts))
    decreases acts
  {
    if acts != [] {
      ActIsStatements(w, acts[0]);
      RunIsStatements(Next(w, acts[0]), acts[1..]);
      ExecutedConcat(w, StatementsOf(acts[0], w.now), StatementsOfAll(Next(w, acts[0]), acts[1..]));
    }
  }

  // ---------------------------------------------------------------------------------------
  // The sweeper is unobservable
  // ---------------------------------------------------------------------------------------

  /** Two indexes that lead to the same active rows. */
  ghost predicate Alike(a: Rows, b: Rows, now: nat) {
    forall k :: ActiveAt(a, k, now) == ActiveAt(b, k, now)
  }

  /** OAuth rows never expire and pending ones do. */
  ghost predicate TidyRows(rows: Rows) {
    && (forall k :: k in rows && k.OAuthKey? ==> rows[k].expiresAt.None?)
    && (forall k :: k in rows && k.EmailKey? && k.kind.PendingMigration? ==> rows[k].expiresAt.Some?)
  }

  /** No lookup tells such indexes apart. */
  lemma AlikeAnswerAlike(a: Rows, b: Rows, now: nat, email: string, provider: Provider, providerId: string)
    requires Alike(a, b, now) && TidyRows(a) && TidyRows(b)
    ensures FindPrimary(a, now, email) == FindPrimary(b, now, email)
    ensures FindPending(a, now, email) == FindPending(b, now, email)
    ensures Resolve(a, now, email) == Resolve(b, now, email)
    ensures FindOAuth(a, provider, providerId) == FindOAuth(b, provider, providerId)
  {
    var k := OAuthKey(provider, providerId);
    assert ActiveAt(a, k, now) == ActiveAt(b, k, now);
    var p := KeyOf(PendingMigration, email);
    assert ActiveAt(a, p, now) == ActiveAt(b, p, now);
  }

  lemma StatementKeepsTidy(w: World, s: Statement)
    requires TidyRows(w.rows) && (s.Upsert? ==> CompletePatch(s.key, s.patch))
    ensures TidyRows(Executed(w, s).rows)
  {
  }

  /** An upsert leaves the same row whether it finds one to update or inserts, since a swept row is no loss. */
  lemma UpsertKeepsAlike(a: Rows, b: Rows, now: nat, key: Key, p: Patch, userIds: set<nat>)
    requires Alike(a, b, now) && CompletePatch(key, p)
    ensures Alike(Upserted(a, key, p, userIds), Upserted(b, key, p, userIds), now)
  {
    if key in a {
      UpdateAndInsertAgree(a[key], p);
    }
    if key in b {
      UpdateAndInsertAgree(b[key], p);
    }
    var x, y := Upserted(a, key, p, userIds), Upserted(b, key, p, userIds);
    forall k ensures ActiveAt(x, k, now) == ActiveAt(y, k, now) {
      assert ActiveAt(a, k, now) == ActiveAt(b, k, now);
    }
  }

  /** The same statement on two worlds that differ only in rows no longer active. */
  lemma StatementKeepsAlike(w: World, v: World, s: Statement)
    requires w.users == v.users && w.now == v.now && Alike(w.rows, v.rows, w.now)
    requires s.Upsert? ==> CompletePatch(s.key, s.patch)
    ensures var x, y := Executed(w, s), Executed(v, s);
            x.users == y.users && x.now == y.now && Alike(x.rows, y.rows, x.now)
  {
    if s.Upsert? {
      UpsertKeepsAlike(w.rows, v.rows, w.now, s.key, s.patch, w.users.Keys);
    } else {
      var x, y := Executed(w, s), Executed(v, s);
      forall k ensures ActiveAt(x.rows, k, x.now) == ActiveAt(y.rows, k, y.now) {
        assert ActiveAt(w.rows, k, w.now) == ActiveAt(v.rows, k, v.now);
      }
    }
  }

  /** A firing on one side only. */
  lemma FiringKeepsAlike(w: World, v: World)
    requires w.now == v.now && Alike(w.rows, v.rows, w.now)
    ensures Alike(Executed(w, Fire).rows, v.rows, w.now)
  {
    var x := Executed(w, Fire);
    forall k ensures ActiveAt(x.rows, k, w.now) == ActiveAt(v.rows, k, w.now) {
      assert ActiveAt(w.rows, k, w.now) == ActiveAt(v.rows, k, v.now);
    }
  }

  function WithoutFirings(statements: seq<Statement>): seq<Statement> {
    if statements == [] then []
    else (if statements[0].Fire? then [] else [statements[0]]) + WithoutFirings(statements[1..])
  }

  lemma {:induction false} FiringsChangeNothing(w: World, v: World, statements: seq<Statement>)
    requires w.users == v.users && w.now == v.now && Alike(w.rows, v.rows, w.now)
    requires TidyRows(w.rows) && TidyRows(v.rows) && Complete(statements)
    ensures var x, y := ExecutedAll(w, statements), ExecutedAll(v, WithoutFirings(statements));
            && x.users == y.users && x.now == y.now
            && Alike(x.rows, y.rows, x.now) && TidyRows(x.rows) && TidyRows(y.rows)
    decreases statements
  {
    if statements != [] {
      var s, rest := statements[0], statements[1..];
      StatementKeepsTidy(w, s);
      if s.Fire? {
        FiringKeepsAlike(w, v);
        FiringsChangeNothing(Executed(w, s), v, rest);
        assert WithoutFirings(statements) == WithoutFirings(rest);
      } else {
        StatementKeepsTidy(v, s);
        StatementKeepsAlike(w, v, s);
        FiringsChangeNothing(Executed(w, s), Executed(v, s), rest);
        assert WithoutFirings(statements) == [s] + WithoutFirings(rest);
        assert WithoutFirings(statements)[1..] == WithoutFirings(rest);
      }
    }
  }

  /** Wherever the sweeper fires between the statements of any number of synchronisations, interleaved in any way,
      and of writes and deletes of users while time passes, every lookup at the end answers as if it had not. The
      documents need not be consistent for this. */
  lemma SweeperIsUnobservable(w: World, statements: seq<Statement>, email: string, provider: Provider,
                              providerId: string)
    requires TidyRows(w.rows) && Complete(statements)
    ensures var x, y := ExecutedAll(w, statements), ExecutedAll(w, WithoutFirings(statements));
            && x.users == y.users && x.now == y.now
            && FindPrimary(x.rows, x.now, email) == FindPrimary(y.rows, y.now, email)
            && FindPending(x.rows, x.now, email) == FindPending(y.rows, y.now, email)
            && Resolve(x.rows, x.now, email) == Resolve(y.rows, y.now, email)
            && FindOAuth(x.rows, provider, providerId) == FindOAuth(y.rows, provider, providerId)
  {
    FiringsChangeNothing(w, w, statements);
    var x, y := ExecutedAll(w, statements), ExecutedAll(w, WithoutFirings(statements));
    AlikeAnswerAlike(x.rows, y.rows, x.now, email, provider, providerId);
  }
}
