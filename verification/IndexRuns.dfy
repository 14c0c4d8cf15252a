/** The identity index against the users table over whole runs. */
module IndexRuns {
  import opened Wrappers
  import opened Emails
  import opened Users
  import opened IdentityIndex

  datatype World = World(users: Table, rows: Rows, now: nat)

  /** Store: insert or update a row and synchronise it. Touch: update a row without synchronising, which the
      code does only where no indexed field changes. Remove: delete a row, cascading. Sweep: the TTL sweeper. */
  datatype Act = Store(u: User) | Touch(u: User) | Remove(id: nat) | Sweep | Pass(ms: nat)

  /** The fields the index is computed from. */
  predicate SameIdentity(u: User, v: User) {
    && u.id == v.id && u.email == v.email && u.isEmailVerified == v.isEmailVerified
    && u.previousEmail == v.previousEmail && u.migrationExpiry == v.migrationExpiry
    && u.newEmailPending == v.newEmailPending && u.migrationTokenExpires == v.migrationTokenExpires
    && u.provider == v.provider && u.providerId == v.providerId
  }

  /** The database accepts the statement: the table stays a proper one. */
  ghost predicate Allowed(w: World, a: Act) {
    match a
    case Store(u) => Proper(w.users[u.id := u])
    case Touch(u) => u.id in w.users && SameIdentity(u, w.users[u.id])
    case _ => true
  }

  function Next(w: World, a: Act): World {
    match a
    case Store(u) => World(w.users[u.id := u], Synced(w.rows, u, w.now), w.now)
    case Touch(u) => w.(users := w.users[u.id := u])
    case Remove(id) => World(map k | k in w.users && k != id :: w.users[k], Cascaded(w.rows, id), w.now)
    case Sweep => w.(rows := Swept(w.rows, w.now))
    case Pass(ms) => w.(now := w.now + ms)
  }

  predicate Holds(rows: Rows, u: User, k: Key) {
    k in rows && rows[k].userId == u.id
  }

  /** The row under `k` is the one its owner's document implies. */
  predicate RowImplied(users: Table, rows: Rows, k: Key)
    requires k in rows
  {
    && rows[k].userId in users
    && k in KeysOf(users[rows[k].userId])
    && rows[k] == EntryOf(users[rows[k].userId], k)
  }

  /** The keys of a user that never expire. */
  function PermanentKeys(u: User): set<Key> {
    {KeyOf(PrimaryEmail, u.email)} + (if HasOAuth(u) then {OAuthKey(u.provider, u.providerId.value)} else {})
  }

  predicate PermanentHeld(rows: Rows, u: User) {
    forall k :: k in PermanentKeys(u) ==> Holds(rows, u, k)
  }

  /** Every row is implied by its owner, and primary and OAuth keys are all there. */
  ghost predicate Agrees(w: World) {
    && Proper(w.users)
    && (forall k :: k in w.rows ==> RowImplied(w.users, w.rows, k))
    && (forall id :: id in w.users ==> PermanentHeld(w.rows, w.users[id]))
  }

  lemma PermanentKeysAreApart(users: Table, a: nat, b: nat)
    requires Proper(users) && a in users && b in users && a != b
    ensures PermanentKeys(users[a]) !! KeysOf(users[b])
  {
    var u, v := users[a], users[b];
    assert Normal(u.email) && Normal(v.email);
    assert u.email != v.email;
    assert !SameLogin(u, v);
  }

  lemma PermanentKeysAreExpected(u: User, now: nat)
    ensures PermanentKeys(u) <= Expected(u, now) <= KeysOf(u)
    ensures forall k :: k in KeysOf(u) ==> EntryOf(u, k).userId == u.id
  {
  }

  lemma StoreKeepsRowsImplied(w: World, u: User, k: Key)
    requires k in Synced(w.rows, u, w.now)
    requires k in w.rows ==> RowImplied(w.users, w.rows, k)
    ensures RowImplied(w.users[u.id := u], Synced(w.rows, u, w.now), k)
  {
    PermanentKeysAreExpected(u, w.now);
  }

  lemma StoreKeepsPermanent(w: World, u: User, id: nat)
    requires Proper(w.users[u.id := u]) && id in w.users[u.id := u]
    requires id in w.users ==> PermanentHeld(w.rows, w.users[id])
    ensures PermanentHeld(Synced(w.rows, u, w.now), w.users[u.id := u][id])
  {
    PermanentKeysAreExpected(u, w.now);
    var users := w.users[u.id := u];
    if id != u.id {
      PermanentKeysAreApart(users, id, u.id);
    } else {
      assert users[id] == u;
    }
  }

  lemma StoreKeepsAgreement(w: World, u: User)
    requires Agrees(w) && Allowed(w, Store(u))
    ensures Agrees(Next(w, Store(u)))
  {
    var r := Next(w, Store(u));
    forall id | id in r.users ensures PermanentHeld(r.rows, r.users[id]) {
      StoreKeepsPermanent(w, u, id);
    }
    forall k | k in r.rows ensures RowImplied(r.users, r.rows, k) {
      StoreKeepsRowsImplied(w, u, k);
    }
  }

  lemma TouchKeepsProper(users: Table, u: User)
    requires Proper(users) && u.id in users && SameIdentity(u, users[u.id])
    ensures Proper(users[u.id := u])
  {
    var r := users[u.id := u];
    assert Normal(users[u.id].email);
    forall a, b | a in r && b in r && SameLogin(r[a], r[b]) ensures a == b {
      assert SameLogin(users[a], users[b]);
    }
    forall a, b | a in r && b in r && r[a].email == r[b].email ensures a == b {
      assert users[a].email == users[b].email;
    }
  }

  lemma SameIdentitySameKeys(u: User, v: User)
    requires SameIdentity(u, v)
    ensures KeysOf(u) == KeysOf(v) && PermanentKeys(u) == PermanentKeys(v)
    ensures forall k :: EntryOf(u, k) == EntryOf(v, k)
  {
  }

  lemma TouchKeepsAgreement(w: World, u: User)
    requires Agrees(w) && Allowed(w, Touch(u))
    ensures Agrees(Next(w, Touch(u)))
  {
    var r, v := Next(w, Touch(u)), w.users[u.id];
    TouchKeepsProper(w.users, u);
    SameIdentitySameKeys(u, v);
    forall k | k in r.rows ensures RowImplied(r.users, r.rows, k) {
      assert RowImplied(w.users, w.rows, k);
    }
    forall id | id in r.users ensures PermanentHeld(r.rows, r.users[id]) {
      assert PermanentHeld(w.rows, w.users[id]);
    }
  }

  lemma ShrinkingKeepsPermanent(w: World, a: Act, id: nat)
    requires Agrees(w) && (a.Remove? || a.Sweep? || a.Pass?) && id in Next(w, a).users
    ensures PermanentHeld(Next(w, a).rows, w.users[id])
  {
    PermanentKeysNeverExpire(w, id);
    assert w.users[id].id == id;
  }

  lemma ShrinkingKeepsAgreement(w: World, a: Act)
    requires Agrees(w) && (a.Remove? || a.Sweep? || a.Pass?)
    ensures Agrees(Next(w, a))
  {
    var r := Next(w, a);
    forall k | k in r.rows ensures RowImplied(r.users, r.rows, k) {
      assert RowImplied(w.users, w.rows, k);
    }
    forall id | id in r.users ensures PermanentHeld(r.rows, r.users[id]) {
      ShrinkingKeepsPermanent(w, a, id);
    }
  }

  lemma PermanentKeysNeverExpire(w: World, id: nat)
    requires Agrees(w) && id in w.users
    ensures forall k :: k in PermanentKeys(w.users[id]) ==> Holds(w.rows, w.users[id], k) && w.rows[k].expiresAt.None?
  {
    assert PermanentHeld(w.rows, w.users[id]);
    forall k | k in PermanentKeys(w.users[id]) ensures w.rows[k].expiresAt.None? {
      assert RowImplied(w.users, w.rows, k);
    }
  }

  lemma StepKeepsAgreement(w: World, a: Act)
    requires Agrees(w) && Allowed(w, a)
    ensures Agrees(Next(w, a))
  {
    match a
    case Store(u) => StoreKeepsAgreement(w, u);
    case Touch(u) => TouchKeepsAgreement(w, u);
    case _ => ShrinkingKeepsAgreement(w, a);
  }

  ghost predicate AllAllowed(w: World, acts: seq<Act>)
    decreases acts
  {
    acts == [] || (Allowed(w, acts[0]) && AllAllowed(Next(w, acts[0]), acts[1..]))
  }

  function Run(w: World, acts: seq<Act>): World
    decreases acts
  {
    if acts == [] then w else Run(Next(w, acts[0]), acts[1..])
  }

  lemma {:induction false} RunKeepsAgreement(w: World, acts: seq<Act>)
    requires Agrees(w) && AllAllowed(w, acts)
    ensures Agrees(Run(w, acts))
    decreases acts
  {
    if acts != [] {
      StepKeepsAgreement(w, acts[0]);
      RunKeepsAgreement(Next(w, acts[0]), acts[1..]);
    }
  }

  lemma EmptyAgrees(now: nat)
    ensures Agrees(World(map[], map[], now))
  {
  }

  /** Whatever has been done since the tables were created, index and table agree. */
  lemma ReachableAgrees(now: nat, acts: seq<Act>)
    requires AllAllowed(World(map[], map[], now), acts)
    ensures Agrees(Run(World(map[], map[], now), acts))
  {
    EmptyAgrees(now);
    RunKeepsAgreement(World(map[], map[], now), acts);
  }

  // ---------------------------------------------------------------------------------------
  // What lookups answer
  // ---------------------------------------------------------------------------------------

  /** A table scan by primary email, and one by OAuth identity. */
  ghost predicate HasEmail(users: Table, id: nat, email: string) {
    id in users && users[id].email == Normalize(email)
  }

  ghost predicate HasLogin(users: Table, id: nat, provider: Provider, providerId: string) {
    id in users && HasOAuth(users[id]) && users[id].provider == provider && users[id].providerId == Some(providerId)
  }

  /** The owner of every active row exists and expects its key now. */
  lemma ActiveRowsAreExpected(w: World, k: Key)
    requires Agrees(w) && ActiveAt(w.rows, k, w.now).Some?
    ensures var id := w.rows[k].userId;
            id in w.users && k in Expected(w.users[id], w.now) && w.rows[k] == EntryOf(w.users[id], k)
  {
    assert RowImplied(w.users, w.rows, k);
  }

  lemma PrimaryRowIsTruthful(w: World, email: string)
    requires Agrees(w) && FindPrimary(w.rows, w.now, email).Some?
    ensures HasEmail(w.users, FindPrimary(w.rows, w.now, email).value, email)
  {
    ActiveRowsAreExpected(w, KeyOf(PrimaryEmail, email));
    var u := w.users[w.rows[KeyOf(PrimaryEmail, email)].userId];
    PrimaryKeyIsOwn(u, email);
    assert Normal(u.email);
  }

  lemma PrimaryKeyIsOwn(u: User, email: string)
    requires KeyOf(PrimaryEmail, email) in KeysOf(u)
    ensures Normalize(email) == Normalize(u.email)
  {
  }

  lemma HolderIsFound(w: World, id: nat, email: string)
    requires Agrees(w) && HasEmail(w.users, id, email)
    ensures FindPrimary(w.rows, w.now, email) == Some(id)
  {
    assert Normal(w.users[id].email);
    PermanentKeysNeverExpire(w, id);
    assert KeyOf(PrimaryEmail, email) in PermanentKeys(w.users[id]);
  }

  lemma PrimaryIsScan(w: World, id: nat, email: string)
    requires Agrees(w)
    ensures FindPrimary(w.rows, w.now, email) == Some(id) <==> HasEmail(w.users, id, email)
  {
    if FindPrimary(w.rows, w.now, email).Some? {
      PrimaryRowIsTruthful(w, email);
    }
    if HasEmail(w.users, id, email) {
      HolderIsFound(w, id, email);
    }
  }

  lemma OAuthRowIsTruthful(users: Table, rows: Rows, provider: Provider, providerId: string)
    requires OAuthKey(provider, providerId) in rows && RowImplied(users, rows, OAuthKey(provider, providerId))
    ensures HasLogin(users, rows[OAuthKey(provider, providerId)].userId, provider, providerId)
  {
  }

  lemma OAuthIsScan(w: World, id: nat, provider: Provider, providerId: string)
    requires Agrees(w)
    ensures FindOAuth(w.rows, provider, providerId) == Some(id) <==> HasLogin(w.users, id, provider, providerId)
  {
    var k := OAuthKey(provider, providerId);
    if k in w.rows {
      OAuthRowIsTruthful(w.users, w.rows, provider, providerId);
    }
    if HasLogin(w.users, id, provider, providerId) {
      assert PermanentHeld(w.rows, w.users[id]);
      assert Holds(w.rows, w.users[id], k);
      assert Filed(w.users);
    }
  }

  /** After any run of saves, deletes, sweeps and passing time, without re-synchronising: the primary
      lookup is the table scan and the OAuth lookup is the table scan. */
  lemma LookupsAreScans(w0: World, acts: seq<Act>, id: nat, email: string, provider: Provider, providerId: string)
    requires Agrees(w0) && AllAllowed(w0, acts)
    ensures var w := Run(w0, acts);
            && (FindPrimary(w.rows, w.now, email) == Some(id) <==> HasEmail(w.users, id, email))
            && (FindOAuth(w.rows, provider, providerId) == Some(id) <==> HasLogin(w.users, id, provider, providerId))
  {
    var w := Run(w0, acts);
    RunKeepsAgreement(w0, acts);
    PrimaryIsScan(w, id, email);
    OAuthIsScan(w, id, provider, providerId);
  }

  /** Who has had the address, or is about to move there. */
  predicate Claims(u: User, kind: Kind, email: string, now: nat) {
    match kind
    case PreviousEmail =>
      Present(u.previousEmail) && After(u.migrationExpiry, now) && Normalize(u.previousEmail.value) == Normalize(email)
    case PendingMigration =>
      Present(u.newEmailPending) && After(u.migrationTokenExpires, now)
        && Normalize(u.newEmailPending.value) == Normalize(email)
    case _ => false
  }

  /** What the resolver's answer claims about the table. */
  ghost predicate Truthful(users: Table, now: nat, email: string, r: Resolved) {
    && r.userId in users
    && var u := users[r.userId];
       match r.via
       case Primary => HasEmail(users, r.userId, email) && r.verified == Some(u.isEmailVerified)
       case Previous => Claims(u, PreviousEmail, email, now)
       case PendingTarget => Claims(u, PendingMigration, email, now)
  }

  function Via(kind: Kind): EmailMatch {
    match kind
    case PreviousEmail => Previous
    case PendingMigration => PendingTarget
    case _ => Primary
  }

  lemma ActiveRowIsTruthful(users: Table, rows: Rows, now: nat, kind: Kind, email: string)
    requires AllNormal(users) && !kind.OAuth?
    requires ActiveAt(rows, KeyOf(kind, email), now).Some? && RowImplied(users, rows, KeyOf(kind, email))
    ensures var e := rows[KeyOf(kind, email)];
            Truthful(users, now, email, Resolved(e.userId, Via(kind), e.verified))
  {
    assert Normal(users[rows[KeyOf(kind, email)].userId].email);
  }

  /** The resolver's answer is true of the table at that moment, and a user whose email it is
      comes before anyone who had it or is about to have it. */
  lemma ResolverIsTruthful(w: World, email: string, id: nat)
    requires Agrees(w)
    ensures var r := Resolve(w.rows, w.now, email);
            && (r.Some? ==> Truthful(w.users, w.now, email, r.value))
            && (HasEmail(w.users, id, email) ==> r.Some? && r.value.userId == id && r.value.via.Primary?)
  {
    PrimaryIsScan(w, id, email);
    forall kind: Kind | !kind.OAuth? && ActiveAt(w.rows, KeyOf(kind, email), w.now).Some?
      ensures Truthful(w.users, w.now, email,
                       Resolved(w.rows[KeyOf(kind, email)].userId, Via(kind), w.rows[KeyOf(kind, email)].verified))
    {
      ActiveRowIsTruthful(w.users, w.rows, w.now, kind, email);
    }
  }

  /** Whom the pending lookup names really is about to move to that address. */
  lemma PendingIsTruthful(w: World, email: string)
    requires Agrees(w)
    ensures var r := FindPending(w.rows, w.now, email);
            r.Some? ==> Truthful(w.users, w.now, email, Resolved(r.value, PendingTarget, None))
  {
    var k := KeyOf(PendingMigration, email);
    if FindPending(w.rows, w.now, email).Some? {
      ActiveRowIsTruthful(w.users, w.rows, w.now, PendingMigration, email);
    }
  }
}
