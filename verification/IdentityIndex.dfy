/** The inverted identity index: lookup keys to user ids, synchronised from user documents. */
module IdentityIndex {
  import opened Wrappers
  import opened Emails
  import opened Users

  datatype Kind = PrimaryEmail | PreviousEmail | PendingMigration | OAuth

  /** The HMAC of a normalised address stands for that address; kinds have distinct prefixes. */
  datatype Key = EmailKey(kind: Kind, address: string) | OAuthKey(provider: Provider, providerId: string)

  datatype Entry = Entry(kind: Kind, userId: nat, provider: Option<Provider>, verified: Option<bool>,
                         expiresAt: Option<nat>)

  type Rows = map<Key, Entry>

  function KeyOf(kind: Kind, email: string): Key {
    EmailKey(kind, Normalize(email))
  }

  predicate IsActive(e: Entry, now: nat) {
    e.expiresAt.None? || e.expiresAt.value > now
  }

  // ---------------------------------------------------------------------------------------
  // What a user document implies
  // ---------------------------------------------------------------------------------------

  predicate HasPrevious(u: User) {
    Present(u.previousEmail) && u.migrationExpiry.Some?
  }

  predicate HasPending(u: User) {
    Present(u.newEmailPending) && u.migrationTokenExpires.Some?
  }

  predicate HasOAuth(u: User) {
    !u.provider.Local? && Present(u.providerId)
  }

  /** The keys a user could hold if nothing had expired. */
  function KeysOf(u: User): set<Key> {
    {KeyOf(PrimaryEmail, u.email)}
    + (if HasPrevious(u) then {KeyOf(PreviousEmail, u.previousEmail.value)} else {})
    + (if HasPending(u) then {KeyOf(PendingMigration, u.newEmailPending.value)} else {})
    + (if HasOAuth(u) then {OAuthKey(u.provider, u.providerId.value)} else {})
  }

  /** The row a user's key leads to. */
  function EntryOf(u: User, k: Key): Entry {
    match k
    case OAuthKey(_, _) => Entry(OAuth, u.id, Some(u.provider), None, None)
    case EmailKey(kind, _) =>
      if kind.PreviousEmail? then Entry(PreviousEmail, u.id, None, None, u.migrationExpiry)
      else if kind.PendingMigration? then Entry(PendingMigration, u.id, None, None, u.migrationTokenExpires)
      else Entry(PrimaryEmail, u.id, None, Some(u.isEmailVerified), None)
  }

  /** The keys a user should hold now. */
  function Expected(u: User, now: nat): set<Key> {
    set k | k in KeysOf(u) && IsActive(EntryOf(u, k), now)
  }

  /** The same keys, one by one. */
  function KeysInForce(u: User, now: nat): set<Key> {
    {KeyOf(PrimaryEmail, u.email)}
    + (if Present(u.previousEmail) && After(u.migrationExpiry, now)
       then {KeyOf(PreviousEmail, u.previousEmail.value)} else {})
    + (if Present(u.newEmailPending) && After(u.migrationTokenExpires, now)
       then {KeyOf(PendingMigration, u.newEmailPending.value)} else {})
    + (if HasOAuth(u) then {OAuthKey(u.provider, u.providerId.value)} else {})
  }

  lemma ExpectedAreKeysInForce(u: User, now: nat)
    ensures Expected(u, now) == KeysInForce(u, now)
  {
  }

  /** The index without a user's rows; what ON DELETE CASCADE leaves. */
  function Cascaded(rows: Rows, id: nat): Rows {
    map k | k in rows && rows[k].userId != id :: rows[k]
  }

  /** The rows a user should have now. */
  function OwnRows(u: User, now: nat): Rows {
    map k | k in Expected(u, now) :: EntryOf(u, k)
  }

  /** The index after synchronising one user: its expected keys lead to it, whoever held them before,
      and it holds no others. */
  function Synced(rows: Rows, u: User, now: nat): Rows {
    Cascaded(rows, u.id) + OwnRows(u, now)
  }

  /** The row a document calls for under a key: its address for ever, its former and its next address until they
      expire, and its sign-in with a provider. */
  predicate CallsFor(u: User, now: nat, k: Key, e: Entry) {
    match k
    case OAuthKey(provider, providerId) =>
      && !provider.Local? && provider == u.provider && providerId != "" && u.providerId == Some(providerId)
      && e == Entry(OAuth, u.id, Some(provider), None, None)
    case EmailKey(PrimaryEmail, address) =>
      address == Normalize(u.email) && e == Entry(PrimaryEmail, u.id, None, Some(u.isEmailVerified), None)
    case EmailKey(PreviousEmail, address) =>
      && u.previousEmail.Some? && u.previousEmail.value != "" && address == Normalize(u.previousEmail.value)
      && u.migrationExpiry.Some? && u.migrationExpiry.value > now
      && e == Entry(PreviousEmail, u.id, None, None, u.migrationExpiry)
    case EmailKey(PendingMigration, address) =>
      && u.newEmailPending.Some? && u.newEmailPending.value != "" && address == Normalize(u.newEmailPending.value)
      && u.migrationTokenExpires.Some? && u.migrationTokenExpires.value > now
      && e == Entry(PendingMigration, u.id, None, None, u.migrationTokenExpires)
    case _ => false
  }

  lemma ExpectedAreCalledFor(u: User, now: nat, k: Key, e: Entry)
    ensures CallsFor(u, now, k, e) <==> k in Expected(u, now) && e == EntryOf(u, k)
  {
    ExpectedAreKeysInForce(u, now);
  }

  /** After a synchronisation a row is there if and only if the document calls for it, or it is another user's and the
      document calls for nothing under its key. */
  lemma SyncedIs(rows: Rows, u: User, now: nat, k: Key, e: Entry)
    ensures k in Synced(rows, u, now) && Synced(rows, u, now)[k] == e
       <==> CallsFor(u, now, k, e)
            || (k in rows && rows[k] == e && e.userId != u.id && forall f :: !CallsFor(u, now, k, f))
  {
    forall f ensures CallsFor(u, now, k, f) <==> k in Expected(u, now) && f == EntryOf(u, k) {
      ExpectedAreCalledFor(u, now, k, f);
    }
    if k in Expected(u, now) {
      assert CallsFor(u, now, k, EntryOf(u, k));
    }
  }

  /** The sweeper's DELETE. */
  function Swept(rows: Rows, now: nat): Rows {
    map k | k in rows && !(rows[k].expiresAt.Some? && rows[k].expiresAt.value < now) :: rows[k]
  }

  // ---------------------------------------------------------------------------------------
  // Lookups
  // ---------------------------------------------------------------------------------------

  datatype EmailMatch = Primary | Previous | PendingTarget

  datatype Resolved = Resolved(userId: nat, via: EmailMatch, verified: Option<bool>)

  function ActiveAt(rows: Rows, k: Key, now: nat): Option<Entry> {
    if k in rows && IsActive(rows[k], now) then Some(rows[k]) else None
  }

  function FindPrimary(rows: Rows, now: nat, email: string): Option<nat> {
    var e := ActiveAt(rows, KeyOf(PrimaryEmail, email), now);
    if e.Some? then Some(e.value.userId) else None
  }

  function FindPending(rows: Rows, now: nat, email: string): Option<nat> {
    var k := KeyOf(PendingMigration, email);
    if k in rows && After(rows[k].expiresAt, now) then Some(rows[k].userId) else None
  }

  function FindOAuth(rows: Rows, provider: Provider, providerId: string): Option<nat> {
    var k := OAuthKey(provider, providerId);
    if k in rows then Some(rows[k].userId) else None
  }

  /** Primary first, then previous, then pending. */
  function Resolve(rows: Rows, now: nat, email: string): Option<Resolved> {
    var p := ActiveAt(rows, KeyOf(PrimaryEmail, email), now);
    var q := ActiveAt(rows, KeyOf(PreviousEmail, email), now);
    var r := ActiveAt(rows, KeyOf(PendingMigration, email), now);
    if p.Some? then Some(Resolved(p.value.userId, Primary, p.value.verified))
    else if q.Some? then Some(Resolved(q.value.userId, Previous, q.value.verified))
    else if r.Some? then Some(Resolved(r.value.userId, PendingTarget, r.value.verified))
    else None
  }

  // ---------------------------------------------------------------------------------------
  // The implementation
  // ---------------------------------------------------------------------------------------

  datatype Change<+T> = Keep | Put(value: T) | Unset

  datatype Patch = Patch(kind: Change<Kind>, userId: Change<nat>, provider: Change<Provider>,
                         verified: Change<bool>, expiresAt: Change<nat>)

  datatype UpdateError = MissingColumn | NoSuchUser

  datatype Counts = Counts(matched: nat, upserted: nat)

  function Changed<T>(c: Change<T>, old_: Option<T>): Option<T> {
    match c
    case Keep => old_
    case Put(v) => Some(v)
    case Unset => None
  }

  /** The row after a patch, starting from the row before or from nothing; None when a NOT NULL column is left empty. */
  function Patched(before: Option<Entry>, p: Patch): Option<Entry> {
    var kind := Changed(p.kind, if before.Some? then Some(before.value.kind) else None);
    var userId := Changed(p.userId, if before.Some? then Some(before.value.userId) else None);
    if kind.None? || userId.None? then None
    else Some(Entry(kind.value, userId.value,
                    Changed(p.provider, if before.Some? then before.value.provider else None),
                    Changed(p.verified, if before.Some? then before.value.verified else None),
                    Changed(p.expiresAt, if before.Some? then before.value.expiresAt else None)))
  }

  /** A patch that names every column leaves the same row whether it updates or inserts. */
  lemma UpdateAndInsertAgree(before: Entry, p: Patch)
    requires !p.kind.Keep? && !p.userId.Keep? && !p.provider.Keep? && !p.verified.Keep? && !p.expiresAt.Keep?
    ensures Patched(Some(before), p) == Patched(None, p)
  {
  }

  /** A patch changes the columns it names and no others; an insert needs both columns that cannot be empty. */
  lemma PatchChangesNamed(before: Entry, p: Patch)
    ensures Patched(Some(before), p).None? <==> p.kind.Unset? || p.userId.Unset?
    ensures Patched(None, p).Some? <==> p.kind.Put? && p.userId.Put?
    ensures Patched(Some(before), p).Some? ==>
              var e := Patched(Some(before), p).value;
              && e.kind == (if p.kind.Keep? then before.kind else p.kind.value)
              && e.userId == (if p.userId.Keep? then before.userId else p.userId.value)
              && (p.provider.Keep? ==> e.provider == before.provider)
              && (p.provider.Put? ==> e.provider == Some(p.provider.value))
              && (p.verified.Keep? ==> e.verified == before.verified)
              && (p.verified.Put? ==> e.verified == Some(p.verified.value))
              && (p.expiresAt.Keep? ==> e.expiresAt == before.expiresAt)
              && (p.expiresAt.Put? ==> e.expiresAt == Some(p.expiresAt.value))
              && (p.provider.Unset? ==> e.provider.None?) && (p.verified.Unset? ==> e.verified.None?)
              && (p.expiresAt.Unset? ==> e.expiresAt.None?)
  {
  }

  /** The index after an update-or-insert under `key`, which changes nothing when it is refused. */
  function Upserted(rows: Rows, key: Key, p: Patch, userIds: set<nat>): Rows {
    var after := Patched(if key in rows then Some(rows[key]) else None, p);
    if after.None? || after.value.userId !in userIds then rows else rows[key := after.value]
  }

  /** What a synchronisation writes under each kind of key. */
  function PrimaryPatch(u: User): Patch {
    Patch(Put(PrimaryEmail), Put(u.id), Unset, Put(u.isEmailVerified), Unset)
  }

  function PreviousPatch(u: User, expiry: nat): Patch {
    Patch(Put(PreviousEmail), Put(u.id), Unset, Unset, Put(expiry))
  }

  function PendingPatch(u: User, expires: nat): Patch {
    Patch(Put(PendingMigration), Put(u.id), Unset, Unset, Put(expires))
  }

  function OAuthPatch(u: User): Patch {
    Patch(Put(OAuth), Put(u.id), Put(u.provider), Unset, Unset)
  }

  /** The index without a user's rows under other keys. */
  function Pruned(rows: Rows, userId: nat, keep: set<Key>): Rows {
    map k | k in rows && (rows[k].userId != userId || k in keep) :: rows[k]
  }

  /** The index with a user's rows written over it for some keys. */
  ghost function Overlaid(rows: Rows, u: User, keys: set<Key>): Rows {
    rows + (map k | k in keys :: EntryOf(u, k))
  }

  lemma OverlayThenPrune(rows: Rows, u: User, now: nat)
    ensures Pruned(Overlaid(rows, u, Expected(u, now)), u.id, Expected(u, now)) == Synced(rows, u, now)
  {
  }

  class Index {
    var rows: Rows

    constructor ()
      ensures rows == map[]
    {
      rows := map[];
    }

    /** Update-or-insert of the row under `key`; `userIds` are the users the foreign key may refer to. */
    method UpdateOne(key: Key, p: Patch, upsert: bool, userIds: set<nat>) returns (r: Result<Counts, UpdateError>)
      modifies this
      ensures var before := if key in old(rows) then Some(old(rows)[key]) else None;
              var after := Patched(before, p);
              if before.None? && !upsert then r == Ok(Counts(0, 0)) && rows == old(rows)
              else if after.None? then r == Err(MissingColumn) && rows == old(rows)
              else if after.value.userId !in userIds then r == Err(NoSuchUser) && rows == old(rows)
              else r == Ok(if before.Some? then Counts(1, 0) else Counts(0, 1)) && rows == old(rows)[key := after.value]
      ensures upsert ==> rows == Upserted(old(rows), key, p, userIds)
    {
      if key in rows {
        var after := Patched(Some(rows[key]), p);
        if after.None? {
          return Err(MissingColumn);
        }
        if after.value.userId !in userIds {
          return Err(NoSuchUser);
        }
        rows := rows[key := after.value];
        return Ok(Counts(1, 0));
      }
      if upsert {
        var doc := Patched(None, p);
        if doc.None? {
          return Err(MissingColumn);
        }
        if doc.value.userId !in userIds {
          return Err(NoSuchUser);
        }
        rows := rows[key := doc.value];
        return Ok(Counts(0, 1));
      }
      return Ok(Counts(0, 0));
    }

    /** DELETE of a user's rows whose key is not in `keep`. */
    method DeleteMany(userId: nat, keep: set<Key>)
      modifies this
      ensures rows == Pruned(old(rows), userId, keep)
      ensures forall k, e :: k in rows && rows[k] == e
                        <==> k in old(rows) && old(rows)[k] == e && (e.userId == userId ==> k in keep)
    {
      rows := map k | k in rows && (rows[k].userId != userId || k in keep) :: rows[k];
    }

    /** One of the upserts of a synchronisation; `done` are the keys written so far. */
    method SyncKey(u: User, k: Key, p: Patch, userIds: set<nat>, ghost base: Rows, ghost done: set<Key>)
      requires u.id in userIds && rows == Overlaid(base, u, done)
      requires Patched(None, p) == Some(EntryOf(u, k))
      requires !p.provider.Keep? && !p.verified.Keep? && !p.expiresAt.Keep?
      modifies this
      ensures rows == Overlaid(base, u, done + {k})
    {
      var _ := UpdateOne(k, p, true, userIds);
      assert rows == Overlaid(base, u, done + {k});
    }

    method Sync(u: User, now: nat, userIds: set<nat>)
      requires u.id in userIds
      modifies this
      ensures rows == Synced(old(rows), u, now)
    {
      ghost var base, done := rows, {};
      assert rows == Overlaid(base, u, done);
      var expected := ExpectedKeys(u, now);
      var primary := KeyOf(PrimaryEmail, u.email);
      SyncKey(u, primary, PrimaryPatch(u), userIds, base, done);
      done := done + {primary};
      if Present(u.previousEmail) && After(u.migrationExpiry, now) {
        var k := KeyOf(PreviousEmail, u.previousEmail.value);
        SyncKey(u, k, PreviousPatch(u, u.migrationExpiry.value), userIds, base, done);
        done := done + {k};
      }
      if Present(u.newEmailPending) && After(u.migrationTokenExpires, now) {
        var k := KeyOf(PendingMigration, u.newEmailPending.value);
        SyncKey(u, k, PendingPatch(u, u.migrationTokenExpires.value), userIds, base, done);
        done := done + {k};
      }
      if !u.provider.Local? && Present(u.providerId) {
        var k := OAuthKey(u.provider, u.providerId.value);
        SyncKey(u, k, OAuthPatch(u), userIds, base, done);
        done := done + {k};
      }
      assert done == expected;
      ExpectedAreKeysInForce(u, now);
      DeleteMany(u.id, expected);
      OverlayThenPrune(base, u, now);
    }

    /** `expectedKeysForUser`, which builds the set key by key. */
    method ExpectedKeys(u: User, now: nat) returns (keys: set<Key>)
      ensures keys == KeysInForce(u, now)
    {
      keys := {KeyOf(PrimaryEmail, u.email)};
      if Present(u.previousEmail) && After(u.migrationExpiry, now) {
        keys := keys + {KeyOf(PreviousEmail, u.previousEmail.value)};
      }
      if Present(u.newEmailPending) && After(u.migrationTokenExpires, now) {
        keys := keys + {KeyOf(PendingMigration, u.newEmailPending.value)};
      }
      if !u.provider.Local? && Present(u.providerId) {
        keys := keys + {OAuthKey(u.provider, u.providerId.value)};
      }
    }

    method ResolveEmailIdentity(email: string, now: nat) returns (r: Option<Resolved>)
      ensures r == Resolve(rows, now, email)
    {
      var normalized := Normalize(email);
      NormalizeIsIdempotent(email);
      var kinds := [(PrimaryEmail, Primary), (PreviousEmail, Previous), (PendingMigration, PendingTarget)];
      for i := 0 to |kinds|
        invariant forall j :: 0 <= j < i ==> ActiveAt(rows, KeyOf(kinds[j].0, email), now).None?
      {
        var k := KeyOf(kinds[i].0, normalized);
        if k !in rows || !IsActive(rows[k], now) {
          continue;
        }
        assert i == 1 ==> ActiveAt(rows, KeyOf(kinds[0].0, email), now).None?;
        assert i == 2 ==>
          ActiveAt(rows, KeyOf(kinds[0].0, email), now).None? && ActiveAt(rows, KeyOf(kinds[1].0, email), now).None?;
        return Some(Resolved(rows[k].userId, kinds[i].1, rows[k].verified));
      }
      assert ActiveAt(rows, KeyOf(kinds[0].0, email), now).None?;
      assert ActiveAt(rows, KeyOf(kinds[1].0, email), now).None?;
      assert ActiveAt(rows, KeyOf(kinds[2].0, email), now).None?;
      r := None;
    }

    /** One firing of the TTL sweeper. */
    method Sweep(now: nat) returns (removed: nat)
      modifies this
      ensures rows == Swept(old(rows), now) && removed == |old(rows)| - |rows|
      ensures forall k, e :: k in rows && rows[k] == e
                        <==> k in old(rows) && old(rows)[k] == e && (e.expiresAt.None? || now <= e.expiresAt.value)
    {
      var expired := set k | k in rows && rows[k].expiresAt.Some? && rows[k].expiresAt.value < now;
      assert |rows.Keys - expired| == |rows.Keys| - |expired|;
      rows := rows - expired;
      assert rows.Keys == old(rows).Keys - expired;
      removed := |expired|;
    }
  }
}
