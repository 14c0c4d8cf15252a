/** A whole migration: initiation, both verifications in either order, and the finalisation they trigger. */
module MigrationRuns {
  import opened Wrappers
  import opened Emails
  import opened Users
  import opened IdentityIndex
  import opened IndexRuns
  import opened Migration

  // ---------------------------------------------------------------------------------------
  // Every step keeps the index in agreement with the table
  // ---------------------------------------------------------------------------------------

  /** The pending addresses are in canonical form; the validators admit no others. */
  ghost predicate PendingNormal(users: Table) {
    forall id :: id in users && users[id].newEmailPending.Some? ==> Normal(Lower(users[id].newEmailPending.value))
  }

  /** The index finds an account under an address exactly when the table has one. */
  lemma ExistingIsScan(w: World, email: string)
    requires Agrees(w) && Normal(email)
    ensures match Existing(w, email)
            case Some(x) =>
              && x in w.users && w.users[x].email == email
              && forall y :: y in w.users && w.users[y].email == email ==> y == x
            case None => forall y :: y in w.users ==> w.users[y].email != email
  {
    forall x: nat ensures Existing(w, email) == Some(x) <==> x in w.users && w.users[x].email == email {
      PrimaryIsScan(w, x, email);
    }
  }

  lemma ReplacingKeepsProper(users: Table, v: User)
    requires Proper(users) && v.id in users && Normal(v.email)
    requires v.provider == users[v.id].provider && v.providerId == users[v.id].providerId
    requires forall x :: x in users && x != v.id ==> users[x].email != v.email
    ensures Proper(users[v.id := v])
  {
    var r := users[v.id := v];
    forall a, b | a in r && b in r && SameLogin(r[a], r[b]) ensures a == b {
      assert SameLogin(users[a], users[b]);
    }
  }

  lemma StoringKeepsAgreement(w: World, v: User)
    requires Agrees(w) && v.id in w.users && Normal(v.email)
    requires v.provider == w.users[v.id].provider && v.providerId == w.users[v.id].providerId
    requires forall x :: x in w.users && x != v.id ==> w.users[x].email != v.email
    ensures Agrees(Next(w, Store(v)))
  {
    ReplacingKeepsProper(w.users, v);
    StoreKeepsAgreement(w, v);
  }

  lemma InitiateKeepsAgreement(w: World, r: Request)
    requires Agrees(w)
    ensures Agrees(AfterInitiate(w, r))
  {
    if Judge(w, r).Accepted? {
      var u := w.users[r.user.id];
      assert Normal(u.email) && u.id == r.user.id;
      StoringKeepsAgreement(w, Initiated(u, r, w.now));
    }
  }

  lemma MergeKeepsAgreement(w: World, y: nat, m: User)
    requires Agrees(w) && m.id in w.users && m.id != y && Normal(m.email)
    requires m.provider == w.users[m.id].provider && m.providerId == w.users[m.id].providerId
    requires forall x :: x in w.users && w.users[x].email == m.email ==> x == y
    ensures Agrees(Next(Next(w, Remove(y)), Store(m)))
  {
    ShrinkingKeepsAgreement(w, Remove(y));
    StoringKeepsAgreement(Next(w, Remove(y)), m);
  }

  lemma FinalizeKeepsAgreement(w: World, user: User, avatarUrl: string -> string)
    requires Agrees(w) && PendingNormal(w.users)
    ensures Agrees(AfterFinalize(w, user, avatarUrl))
  {
    if FinalizeVerdict(w, user).Finalized? {
      var u := w.users[user.id];
      var email := Lower(u.newEmailPending.value);
      var existing := Existing(w, email);
      assert u.id == user.id && Normal(email);
      ExistingIsScan(w, email);
      if existing.None? {
        StoringKeepsAgreement(w, Moved(u, email, w.now, avatarUrl));
      } else if existing.value == user.id {
        StoringKeepsAgreement(w, Renewed(u, email, w.now));
      } else {
        MergeKeepsAgreement(w, existing.value, Merged(u, email, w.now, avatarUrl));
      }
    }
  }

  lemma MarkKeepsAgreement(w: World, id: nat, side: Side, avatarUrl: string -> string)
    requires Agrees(w) && PendingNormal(w.users) && id in w.users
    ensures Agrees(AfterMark(w, id, side, avatarUrl))
  {
    var v := Verified(w.users[id], side);
    assert w.users[id].id == id;
    TouchKeepsAgreement(w, v);
    FinalizeKeepsAgreement(Next(w, Touch(v)), v, avatarUrl);
  }

  lemma PlaceholderKeepsProper(users: Table, p: User)
    requires Proper(users) && p.id !in users && Normal(p.email) && p.providerId.None?
    requires forall x :: x in users ==> users[x].email != p.email
    ensures Proper(users[p.id := p])
  {
    var r := users[p.id := p];
    forall a, b | a in r && b in r && SameLogin(r[a], r[b]) ensures a == b {
      assert a != p.id && b != p.id;
      assert SameLogin(users[a], users[b]);
    }
  }

  lemma HolderKeepsAgreement(w: World, email: string, newId: nat)
    requires Agrees(w) && Normal(email) && newId !in w.users
    ensures Agrees(WithHolder(w, email, newId))
    ensures PendingNormal(w.users) ==> PendingNormal(WithHolder(w, email, newId).users)
  {
    ExistingIsScan(w, email);
    if Existing(w, email).None? {
      var p := Placeholder(newId, email);
      PlaceholderKeepsProper(w.users, p);
      StoreKeepsAgreement(w, p);
    }
  }

  lemma VerifyKeepsAgreement(w: World, id: nat, side: Side, newId: nat, avatarUrl: string -> string)
    requires Agrees(w) && PendingNormal(w.users) && id in w.users && newId !in w.users
    ensures Agrees(AfterVerify(w, id, side, newId, avatarUrl))
  {
    if side.Current? {
      MarkKeepsAgreement(w, id, side, avatarUrl);
    } else if w.users[id].newEmailPending.Some? {
      var email := Lower(w.users[id].newEmailPending.value);
      HolderKeepsAgreement(w, email, newId);
      MarkKeepsAgreement(WithHolder(w, email, newId), id, New, avatarUrl);
    }
  }

  // ---------------------------------------------------------------------------------------
  // The run
  // ---------------------------------------------------------------------------------------

  /** Between the steps only time passes and the sweeper fires. */
  ghost predicate Idle(acts: seq<Act>) {
    forall i :: 0 <= i < |acts| ==> acts[i].Pass? || acts[i].Sweep?
  }

  lemma {:induction false} IdleKeepsTable(w: World, acts: seq<Act>)
    requires Agrees(w) && Idle(acts)
    ensures var r := Run(w, acts); Agrees(r) && r.users == w.users && w.now <= r.now
    decreases acts
  {
    if acts != [] {
      assert acts[0].Pass? || acts[0].Sweep?;
      ShrinkingKeepsAgreement(w, acts[0]);
      assert forall i :: 0 <= i < |acts[1..]| ==> acts[1..][i] == acts[i + 1];
      IdleKeepsTable(Next(w, acts[0]), acts[1..]);
    }
  }

  function Other(side: Side): Side {
    if side.Current? then New else Current
  }

  /** All that a migration started at `t0` and finalised at `t1` changes in the account. */
  function Migrated(u: User, email: string, t0: nat, t1: nat, avatarUrl: string -> string): User {
    u.(email := email, previousEmail := Some(u.email), isEmailVerified := true, tokenVersion := u.tokenVersion + 1,
       bio := Some(if Present(u.bio) then u.bio.value else ""),
       avatar := if Present(u.avatar) then u.avatar else Some(avatarUrl(email)),
       migrationExpiry := Some(t1 + GRACE_PERIOD), lastMigrationDate := Some(t1), lastMigrationEmailSent := Some(t0),
       newEmailPending := None, migrationTokenExpires := None, currentEmailVerified := None, newEmailVerified := None,
       currentEmailToken := None, newEmailToken := None,
       migrationHistory := Settled(u.migrationHistory + [HistoryEntry(u.email, email, Pending, true, true)], email,
                                   Success(u.email, email)))
  }

  /** Every other account stays as it is, except that one that held the new address is gone. */
  function MigratedTable(users: Table, id: nat, email: string, t0: nat, t1: nat, avatarUrl: string -> string): Table
    requires id in users
  {
    WithoutHolder(users, email)[id := Migrated(users[id], email, t0, t1, avatarUrl)]
  }

  lemma {:induction false} SettledIgnoresOtherwise(history: seq<HistoryEntry>, e: HistoryEntry, email: string,
                                                   a: HistoryEntry, b: HistoryEntry)
    requires PendingTo(e, email)
    ensures Settled(history + [e], email, a) == Settled(history + [e], email, b)
  {
    if history != [] {
      assert (history + [e])[1..] == history[1..] + [e];
      SettledIgnoresOtherwise(history[1..], e, email, a, b);
    }
  }

  lemma NotedLast(history: seq<HistoryEntry>, e: HistoryEntry, email: string, side: Side)
    requires e.status.Pending? && e.toEmail == Lower(email)
    ensures Noted(history + [e], Some(email), side)
         == history + [if side.Current? then e.(currentEmailVerified := true) else e.(newEmailVerified := true)]
  {
  }

  /** The account between the two verifications. */
  function HalfVerified(u: User, r: Request, t0: nat, first: Side): User {
    Verified(Initiated(u, r, t0), first)
  }

  lemma HalfVerifiedIs(u: User, r: Request, t0: nat, first: Side)
    ensures var v, email := HalfVerified(u, r, t0, first), Lower(r.newEmail);
            && v.migrationHistory == u.migrationHistory + [HistoryEntry(u.email, email, Pending, first.Current?,
                                                                        first.New?)]
            && v == Initiated(u, r, t0).(currentEmailVerified := Some(first.Current?),
                                         newEmailVerified := Some(first.New?),
                                         migrationHistory := v.migrationHistory)
  {
    var email := Lower(r.newEmail);
    LowerIsPointwise(r.newEmail);
    NotedLast(u.migrationHistory, HistoryEntry(u.email, email, Pending, false, false), email, first);
  }

  /** Whichever side is verified first, finalisation leaves the same account. */
  lemma DocumentsMeet(u: User, r: Request, t0: nat, t1: nat, first: Side, avatarUrl: string -> string)
    requires r.newEmail != ""
    ensures var email, v := Lower(r.newEmail), Verified(HalfVerified(u, r, t0, first), Other(first));
            && BothVerified(v) && v.newEmailPending == Some(email)
            && v.migrationHistory == u.migrationHistory + [HistoryEntry(u.email, email, Pending, true, true)]
            && Merged(v, email, t1, avatarUrl) == Migrated(u, email, t0, t1, avatarUrl)
  {
    var email, half := Lower(r.newEmail), HalfVerified(u, r, t0, first);
    var v := Verified(half, Other(first));
    LowerIsPointwise(r.newEmail);
    HalfVerifiedIs(u, r, t0, first);
    NotedLast(u.migrationHistory, HistoryEntry(u.email, email, Pending, first.Current?, first.New?), email,
              Other(first));
    var e := HistoryEntry(u.email, email, Pending, true, true);
    assert v.migrationHistory == u.migrationHistory + [e];
    SettledIgnoresOtherwise(u.migrationHistory, e, email, Success(u.email, email),
                            Success(if u.email != "" then u.email else email, email));
  }

  ghost predicate Taken(users: Table, email: string) {
    exists y :: y in users && users[y].email == email
  }

  /** The table once somebody holds the new address: `p` is stored if nobody does. */
  ghost function WithHeld(users: Table, email: string, p: User): Table {
    if Taken(users, email) then users else users[p.id := p]
  }

  function WithoutHolder(users: Table, email: string): Table {
    map x | x in users && users[x].email != email :: users[x]
  }

  lemma HeldIsTaken(users: Table, email: string, p: User)
    requires p.email == email
    ensures Taken(WithHeld(users, email, p), email)
  {
    if !Taken(users, email) {
      assert p.id in users[p.id := p];
    }
  }

  lemma SomebodyHolds(users: Table, email: string, p: User, v: User) returns (y: nat)
    requires p.email == email && v.id in users && v.id != p.id && users[v.id].email == v.email != email
    ensures var held := WithHeld(users, email, p)[v.id := v]; y in held && y != v.id && held[y].email == email
  {
    HeldIsTaken(users, email, p);
    y :| y in WithHeld(users, email, p) && WithHeld(users, email, p)[y].email == email;
  }

  /** Deleting whoever holds the address undoes the placeholder. */
  lemma WithoutHeld(users: Table, email: string, p: User, y: nat)
    requires p.email == email && p.id !in users
    requires y in WithHeld(users, email, p) && WithHeld(users, email, p)[y].email == email
    requires forall z :: z in WithHeld(users, email, p) && WithHeld(users, email, p)[z].email == email ==> z == y
    ensures Without(WithHeld(users, email, p), y) == WithoutHolder(users, email)
  {
    if !Taken(users, email) {
      assert p.id in users[p.id := p] && users[p.id := p][p.id].email == email;
      assert y == p.id;
    }
  }

  function Without(users: Table, y: nat): Table {
    map x | x in users && x != y :: users[x]
  }

  lemma RemovedThenStored(held: Table, v: User, m: User, y: nat)
    requires v.id == m.id && y != v.id
    ensures Without(held[v.id := v], y)[m.id := m] == Without(held, y)[m.id := m]
  {
  }

  /** The world agrees with its table, which is `base` but for the account. */
  ghost predicate StandsAs(w: World, base: Table, v: User) {
    Agrees(w) && v.id in base && base[v.id].email == v.email && w.users == base[v.id := v]
  }

  lemma InitiateStage(w: World, r: Request)
    requires Agrees(w) && Judge(w, r).Accepted?
    ensures StandsAs(AfterInitiate(w, r), w.users, Initiated(w.users[r.user.id], r, w.now))
  {
    InitiateKeepsAgreement(w, r);
    assert w.users[r.user.id].id == r.user.id;
  }

  lemma IdleStage(w: World, base: Table, v: User, rest: seq<Act>)
    requires StandsAs(w, base, v) && Idle(rest)
    ensures StandsAs(Run(w, rest), base, v) && w.now <= Run(w, rest).now
  {
    IdleKeepsTable(w, rest);
  }

  lemma HolderIsHeld(w: World, email: string, newId: nat)
    requires Agrees(w) && Normal(email)
    ensures WithHolder(w, email, newId).users == WithHeld(w.users, email, Placeholder(newId, email))
    ensures WithHolder(w, email, newId).now == w.now
  {
    ExistingIsScan(w, email);
  }

  lemma HeldCommutes(base: Table, v: User, email: string, p: User)
    requires v.id in base && base[v.id].email == v.email && p.id !in base
    ensures WithHeld(base[v.id := v], email, p) == WithHeld(base, email, p)[v.id := v]
  {
    var users := base[v.id := v];
    forall y | y in base ensures users[y].email == base[y].email {
    }
    assert Taken(users, email) <==> Taken(base, email);
    assert users[p.id := p] == base[p.id := p][v.id := v];
  }

  lemma HolderStage(w: World, base: Table, v: User, email: string, newId: nat)
    requires StandsAs(w, base, v) && Normal(email) && newId !in base
    ensures StandsAs(WithHolder(w, email, newId), WithHeld(base, email, Placeholder(newId, email)), v)
    ensures WithHolder(w, email, newId).now == w.now
  {
    HolderKeepsAgreement(w, email, newId);
    HolderIsHeld(w, email, newId);
    HeldCommutes(base, v, email, Placeholder(newId, email));
  }

  lemma TouchStage(w: World, base: Table, v: User, side: Side)
    requires StandsAs(w, base, v)
    ensures StandsAs(Next(w, Touch(Verified(v, side))), base, Verified(v, side))
  {
    TouchKeepsAgreement(w, Verified(v, side));
  }

  lemma MarkStage(w: World, base: Table, v: User, side: Side, avatarUrl: string -> string)
    requires StandsAs(w, base, v) && !BothVerified(Verified(v, side))
    ensures StandsAs(AfterMark(w, v.id, side, avatarUrl), base, Verified(v, side))
    ensures AfterMark(w, v.id, side, avatarUrl).now == w.now
  {
    TouchStage(w, base, v, side);
  }

  /** The index leads from the account's previous address to it. */
  ghost predicate PreviousHeld(rows: Rows, m: User) {
    m.previousEmail.Some? && var k := KeyOf(PreviousEmail, m.previousEmail.value); k in rows && rows[k] == EntryOf(m, k)
  }

  lemma StoringHoldsPrevious(w: World, m: User)
    requires Present(m.previousEmail) && After(m.migrationExpiry, w.now)
    ensures PreviousHeld(Next(w, Store(m)).rows, m)
  {
    assert KeyOf(PreviousEmail, m.previousEmail.value) in Expected(m, w.now);
  }

  lemma FinalizeIsMerge(w: World, v: User, email: string, y: nat, avatarUrl: string -> string)
    requires Agrees(w) && v.id in w.users && w.users[v.id] == v
    requires BothVerified(v) && v.newEmailPending == Some(email) && Lower(email) == email && Normal(email)
    requires y in w.users && y != v.id && w.users[y].email == email
    ensures AfterFinalize(w, v, avatarUrl) == Next(Next(w, Remove(y)), Store(Merged(v, email, w.now, avatarUrl)))
  {
    ExistingIsScan(w, email);
  }

  /** Finalisation where another account holds the new address. */
  lemma FinalizeStage(w: World, held: Table, v: User, email: string, y: nat, avatarUrl: string -> string)
    requires StandsAs(w, held, v) && BothVerified(v) && v.newEmailPending == Some(email) && Lower(email) == email
             && Normal(email)
    requires y in held && held[y].email == email != v.email
    ensures var r, m := AfterFinalize(w, v, avatarUrl), Merged(v, email, w.now, avatarUrl);
            && r.users == Without(held, y)[v.id := m]
            && Agrees(r) && r.now == w.now && (v.email != "" ==> PreviousHeld(r.rows, m))
  {
    var m := Merged(v, email, w.now, avatarUrl);
    assert w.users[y] == held[y];
    FinalizeIsMerge(w, v, email, y, avatarUrl);
    MergeKeepsAgreement(w, y, m);
    if v.email != "" {
      StoringHoldsPrevious(Next(w, Remove(y)), m);
    }
    assert Next(w, Remove(y)).users == Without(w.users, y);
    RemovedThenStored(held, v, m, y);
  }

  lemma MarkedStage(w: World, held: Table, v: User, side: Side, email: string, y: nat, avatarUrl: string -> string)
    requires StandsAs(w, held, v) && Normal(email) && Lower(email) == email
    requires BothVerified(Verified(v, side)) && v.newEmailPending == Some(email)
    requires y in held && held[y].email == email != v.email
    ensures var r, m := AfterMark(w, v.id, side, avatarUrl), Merged(Verified(v, side), email, w.now, avatarUrl);
            && r.users == Without(held, y)[v.id := m]
            && Agrees(r) && r.now == w.now && (v.email != "" ==> PreviousHeld(r.rows, m))
  {
    var v' := Verified(v, side);
    var w' := Next(w, Touch(v'));
    TouchStage(w, held, v, side);
    FinalizeStage(w', held, v', email, y, avatarUrl);
    assert AfterMark(w, v.id, side, avatarUrl) == AfterFinalize(w', v', avatarUrl);
  }

  lemma FinalStage(w: World, base: Table, p: User, v: User, side: Side, email: string, avatarUrl: string -> string)
    requires StandsAs(w, WithHeld(base, email, p), v) && p.id !in base && p.email == email
    requires Normal(email) && v.email != email && Lower(email) == email
    requires BothVerified(Verified(v, side)) && v.newEmailPending == Some(email)
    ensures var r, m := AfterMark(w, v.id, side, avatarUrl), Merged(Verified(v, side), email, w.now, avatarUrl);
            && r.users == WithoutHolder(base, email)[v.id := m]
            && Agrees(r) && r.now == w.now && (v.email != "" ==> PreviousHeld(r.rows, m))
  {
    var held := WithHeld(base, email, p);
    HeldIsTaken(base, email, p);
    var y :| y in held && held[y].email == email;
    OnlyHolder(w.users, held, v, y);
    WithoutHeld(base, email, p, y);
    MarkedStage(w, held, v, side, email, y, avatarUrl);
  }

  lemma OnlyHolder(users: Table, held: Table, v: User, y: nat)
    requires Proper(users) && v.id in held && held[v.id].email == v.email && users == held[v.id := v] && y in held
    ensures forall z :: z in held && held[z].email == held[y].email ==> z == y
  {
    forall z | z in held && held[z].email == held[y].email ensures z == y {
      assert users[z].email == users[y].email;
    }
  }

  lemma TakenIffFound(w: World, email: string)
    requires Agrees(w) && Normal(email)
    ensures Taken(w.users, email) <==> Existing(w, email).Some?
  {
    ExistingIsScan(w, email);
  }

  /** Finalisation raises the token version if and only if some account, another or this one, holds the new
      address; the account that is merely renamed keeps its version. */
  lemma VersionRisesIffTaken(w: World, user: User, avatarUrl: string -> string)
    requires Agrees(w) && PendingNormal(w.users) && FinalizeVerdict(w, user).Finalized?
    ensures var u, v := w.users[user.id], AfterFinalize(w, user, avatarUrl).users[user.id];
            && (v.tokenVersion == u.tokenVersion + 1 <==> Taken(w.users, Lower(u.newEmailPending.value)))
            && (v.tokenVersion == u.tokenVersion <==> !Taken(w.users, Lower(u.newEmailPending.value)))
  {
    assert w.users[user.id].id == user.id;
    TakenIffFound(w, Lower(w.users[user.id].newEmailPending.value));
  }

  // ---------------------------------------------------------------------------------------
  // The main results
  // ---------------------------------------------------------------------------------------

  /** An accepted request for an address the validators admit, made with a document that may be older than the
      stored row; `newId` is a fresh id for the placeholder. */
  ghost predicate Acceptable(w: World, r: Request, newId: nat) {
    && Agrees(w) && r.user.id in w.users && newId !in w.users
    && Judge(w, r).Accepted? && Normal(Lower(r.newEmail))
  }

  lemma AcceptedIsAnotherAddress(w: World, r: Request, newId: nat)
    requires Acceptable(w, r, newId)
    ensures r.newEmail != "" && w.users[r.user.id].email != Lower(r.newEmail) && w.users[r.user.id].id == r.user.id
    ensures Lower(Lower(r.newEmail)) == Lower(r.newEmail)
  {
    ExistingIsScan(w, Lower(r.newEmail));
    LowerIsPointwise(r.newEmail);
  }

  /** After the first verification the account is half verified, and a holder exists if that was the new side. */
  lemma FirstStage(w: World, base: Table, r: Request, t0: nat, u: User, first: Side, newId: nat,
                   avatarUrl: string -> string)
    requires StandsAs(w, base, Initiated(u, r, t0)) && newId !in base && u.id == r.user.id
    requires Normal(Lower(r.newEmail)) && Lower(Lower(r.newEmail)) == Lower(r.newEmail)
    ensures var w', email := AfterVerify(w, r.user.id, first, newId, avatarUrl), Lower(r.newEmail);
            && StandsAs(w', if first.New? then WithHeld(base, email, Placeholder(newId, email)) else base,
                         HalfVerified(u, r, t0, first))
            && w'.now == w.now
  {
    var email, v := Lower(r.newEmail), Initiated(u, r, t0);
    HalfVerifiedIs(u, r, t0, first);
    if first.New? {
      HolderStage(w, base, v, email, newId);
      MarkStage(WithHolder(w, email, newId), WithHeld(base, email, Placeholder(newId, email)), v, first, avatarUrl);
    } else {
      MarkStage(w, base, v, first, avatarUrl);
    }
  }

  lemma SecondStage(w: World, base: Table, r: Request, t0: nat, u: User, first: Side, newId: nat,
                    avatarUrl: string -> string)
    requires var email := Lower(r.newEmail);
             StandsAs(w, if first.New? then WithHeld(base, email, Placeholder(newId, email)) else base,
                         HalfVerified(u, r, t0, first))
    requires newId !in base && u.id == r.user.id && r.newEmail != ""
    requires Normal(Lower(r.newEmail)) && Lower(Lower(r.newEmail)) == Lower(r.newEmail) && u.email != Lower(r.newEmail)
    ensures var w', email := AfterVerify(w, r.user.id, Other(first), newId, avatarUrl), Lower(r.newEmail);
            && w'.users == WithoutHolder(base, email)[r.user.id := Migrated(u, email, t0, w.now, avatarUrl)]
            && Agrees(w') && w'.now == w.now
            && (u.email != "" ==> PreviousHeld(w'.rows, Migrated(u, email, t0, w.now, avatarUrl)))
  {
    var email, v := Lower(r.newEmail), HalfVerified(u, r, t0, first);
    var p := Placeholder(newId, email);
    HalfVerifiedIs(u, r, t0, first);
    DocumentsMeet(u, r, t0, w.now, first, avatarUrl);
    if first.New? {
      FinalStage(w, base, p, v, Current, email, avatarUrl);
    } else {
      HolderStage(w, base, v, email, newId);
      FinalStage(WithHolder(w, email, newId), base, p, v, New, email, avatarUrl);
    }
  }

  predicate HoldsToken(u: User, r: Request, side: Side, now: nat) {
    if side.Current? then HoldsCurrentToken(u, r.currentToken, now) else HoldsNewToken(u, r.newToken, now)
  }

  /** A click on one of the two links: an account that holds its unexpired token is verified on that side. */
  ghost function Click(w: World, r: Request, side: Side, newId: nat, avatarUrl: string -> string): World {
    if exists x: nat :: x in w.users && HoldsToken(w.users[x], r, side, w.now) then
      var x: nat :| x in w.users && HoldsToken(w.users[x], r, side, w.now);
      AfterVerify(w, x, side, newId, avatarUrl)
    else w
  }

  /** The world before each of the two clicks, and after both. */
  function BeforeFirst(w0: World, r: Request, rest1: seq<Act>): World {
    Run(AfterInitiate(w0, r), rest1)
  }

  ghost function BeforeSecond(w0: World, r: Request, first: Side, rest1: seq<Act>, rest2: seq<Act>, newId: nat,
                              avatarUrl: string -> string): World {
    Run(Click(BeforeFirst(w0, r, rest1), r, first, newId, avatarUrl), rest2)
  }

  ghost function Migrate(w0: World, r: Request, first: Side, rest1: seq<Act>, rest2: seq<Act>, newId: nat,
                         avatarUrl: string -> string): World {
    Click(BeforeSecond(w0, r, first, rest1, rest2, newId, avatarUrl), r, Other(first), newId, avatarUrl)
  }

  /** The links' tokens are new: no row holds them. */
  ghost predicate FreshTokens(users: Table, r: Request) {
    forall x :: x in users ==>
      users[x].currentEmailToken != Some(r.currentToken) && users[x].newEmailToken != Some(r.newToken)
  }

  /** For a day after the request, and no longer, a link's token leads to the account and to no other. */
  lemma TokenLookup(w: World, base: Table, v: User, r: Request, side: Side, t0: nat)
    requires StandsAs(w, base, v) && FreshTokens(base, r)
    requires v.currentEmailToken == Some(r.currentToken) && v.newEmailToken == Some(r.newToken)
    requires v.newEmailPending.Some? && v.migrationTokenExpires == Some(t0 + TOKEN_LIFE)
    ensures forall x :: x in w.users
                ==> (HoldsToken(w.users[x], r, side, w.now) <==> x == v.id && w.now < t0 + TOKEN_LIFE)
  {
  }

  lemma ClickIsVerification(w: World, base: Table, v: User, r: Request, side: Side, t0: nat, newId: nat,
                            avatarUrl: string -> string)
    requires StandsAs(w, base, v) && FreshTokens(base, r)
    requires v.currentEmailToken == Some(r.currentToken) && v.newEmailToken == Some(r.newToken)
    requires v.newEmailPending.Some? && v.migrationTokenExpires == Some(t0 + TOKEN_LIFE)
    ensures Click(w, r, side, newId, avatarUrl)
            == if w.now < t0 + TOKEN_LIFE then AfterVerify(w, v.id, side, newId, avatarUrl) else w
  {
    TokenLookup(w, base, v, r, side, t0);
    if w.now < t0 + TOKEN_LIFE {
      assert v.id in w.users && HoldsToken(w.users[v.id], r, side, w.now);
    }
  }

  lemma HeldKeepsFresh(users: Table, email: string, newId: nat, r: Request)
    requires FreshTokens(users, r)
    ensures FreshTokens(WithHeld(users, email, Placeholder(newId, email)), r)
  {
  }

  /** The table beside the account after the first click: with a holder if that was in time and the new side. */
  ghost function BaseAfter(users: Table, r: Request, first: Side, inTime: bool, newId: nat): Table {
    var email := Lower(r.newEmail);
    if inTime && first.New? then WithHeld(users, email, Placeholder(newId, email)) else users
  }

  function DocAfter(u: User, r: Request, t0: nat, first: Side, inTime: bool): User {
    if inTime then HalfVerified(u, r, t0, first) else Initiated(u, r, t0)
  }

  lemma LinksStay(u: User, r: Request, t0: nat, first: Side, inTime: bool)
    ensures var v := DocAfter(u, r, t0, first, inTime);
            && v.id == u.id && v.currentEmailToken == Some(r.currentToken) && v.newEmailToken == Some(r.newToken)
            && v.newEmailPending == Some(Lower(r.newEmail)) && v.migrationTokenExpires == Some(t0 + TOKEN_LIFE)
  {
  }

  lemma BeforeFirstStands(w0: World, r: Request, rest1: seq<Act>, newId: nat)
    requires Acceptable(w0, r, newId) && Idle(rest1)
    ensures StandsAs(BeforeFirst(w0, r, rest1), w0.users, Initiated(w0.users[r.user.id], r, w0.now))
    ensures w0.now <= BeforeFirst(w0, r, rest1).now
  {
    AcceptedIsAnotherAddress(w0, r, newId);
    InitiateStage(w0, r);
    IdleStage(AfterInitiate(w0, r), w0.users, Initiated(w0.users[r.user.id], r, w0.now), rest1);
  }

  lemma BeforeSecondStands(w0: World, r: Request, first: Side, rest1: seq<Act>, rest2: seq<Act>, newId: nat,
                           avatarUrl: string -> string)
    requires Acceptable(w0, r, newId) && Idle(rest1) && Idle(rest2) && FreshTokens(w0.users, r)
    ensures var w1, w2 := BeforeFirst(w0, r, rest1), BeforeSecond(w0, r, first, rest1, rest2, newId, avatarUrl);
            var inTime := w1.now < w0.now + TOKEN_LIFE;
            && StandsAs(w2, BaseAfter(w0.users, r, first, inTime, newId),
                        DocAfter(w0.users[r.user.id], r, w0.now, first, inTime))
            && FreshTokens(BaseAfter(w0.users, r, first, inTime, newId), r) && w1.now <= w2.now
  {
    var u, t0, w1 := w0.users[r.user.id], w0.now, BeforeFirst(w0, r, rest1);
    var inTime := w1.now < t0 + TOKEN_LIFE;
    AcceptedIsAnotherAddress(w0, r, newId);
    BeforeFirstStands(w0, r, rest1, newId);
    ClickIsVerification(w1, w0.users, Initiated(u, r, t0), r, first, t0, newId, avatarUrl);
    if inTime {
      FirstStage(w1, w0.users, r, t0, u, first, newId, avatarUrl);
      HeldKeepsFresh(w0.users, Lower(r.newEmail), newId, r);
    }
    IdleStage(Click(w1, r, first, newId, avatarUrl), BaseAfter(w0.users, r, first, inTime, newId),
              DocAfter(u, r, t0, first, inTime), rest2);
  }

  /** At either click, the link's token leads to the account and to no other, for a day after the request and
      no longer. */
  lemma LinksLeadToTheAccount(w0: World, r: Request, first: Side, rest1: seq<Act>, rest2: seq<Act>, newId: nat,
                              avatarUrl: string -> string)
    requires Acceptable(w0, r, newId) && Idle(rest1) && Idle(rest2) && FreshTokens(w0.users, r)
    ensures var w1 := BeforeFirst(w0, r, rest1);
            forall x :: x in w1.users
              ==> (HoldsToken(w1.users[x], r, first, w1.now) <==> x == r.user.id && w1.now < w0.now + TOKEN_LIFE)
    ensures var w2 := BeforeSecond(w0, r, first, rest1, rest2, newId, avatarUrl);
            forall x :: x in w2.users
              ==> (HoldsToken(w2.users[x], r, Other(first), w2.now) <==> x == r.user.id && w2.now < w0.now + TOKEN_LIFE)
  {
    var u, t0, w1 := w0.users[r.user.id], w0.now, BeforeFirst(w0, r, rest1);
    var inTime := w1.now < t0 + TOKEN_LIFE;
    AcceptedIsAnotherAddress(w0, r, newId);
    BeforeFirstStands(w0, r, rest1, newId);
    TokenLookup(w1, w0.users, Initiated(u, r, t0), r, first, t0);
    BeforeSecondStands(w0, r, first, rest1, rest2, newId, avatarUrl);
    LinksStay(u, r, t0, first, inTime);
    TokenLookup(BeforeSecond(w0, r, first, rest1, rest2, newId, avatarUrl),
                BaseAfter(w0.users, r, first, inTime, newId),
                DocAfter(u, r, t0, first, inTime), r, Other(first), t0);
  }

  /** Both links are clicked within a day of the request. */
  ghost predicate ClickedInTime(w0: World, r: Request, first: Side, rest1: seq<Act>, rest2: seq<Act>, newId: nat,
                                avatarUrl: string -> string) {
    BeforeSecond(w0, r, first, rest1, rest2, newId, avatarUrl).now < w0.now + TOKEN_LIFE
  }

  /** The account has moved, with all else about it kept; whoever held the new address is gone, placeholder or
      overridden account alike; and every other row is untouched. */
  ghost predicate AccountMoved(w0: World, r: Request, w: World, avatarUrl: string -> string)
    requires r.user.id in w0.users
  {
    && w.users == MigratedTable(w0.users, r.user.id, Lower(r.newEmail), w0.now, w.now, avatarUrl)
    && (w0.users[r.user.id].email != "" ==> PreviousHeld(w.rows, w.users[r.user.id]))
  }

  /** Every account there was keeps its address, and its row but for the account's own; at most a placeholder is new. */
  ghost predicate AddressesKept(w0: World, r: Request, w: World, newId: nat) {
    && (forall x :: x in w0.users ==> x in w.users && w.users[x].email == w0.users[x].email)
    && (forall x :: x in w0.users && x != r.user.id ==> w.users[x] == w0.users[x])
    && w.users.Keys <= w0.users.Keys + {newId}
  }

  lemma HolderExtends(users: Table, email: string, p: User)
    requires p.id !in users
    ensures var held := WithHeld(users, email, p);
            (forall x :: x in users ==> x in held && held[x] == users[x]) && held.Keys <= users.Keys + {p.id}
  {
  }

  lemma BaseExtends(users: Table, r: Request, first: Side, inTime: bool, newId: nat)
    requires newId !in users
    ensures var base := BaseAfter(users, r, first, inTime, newId);
            (forall x :: x in users ==> x in base && base[x] == users[x]) && base.Keys <= users.Keys + {newId}
  {
    HolderExtends(users, Lower(r.newEmail), Placeholder(newId, Lower(r.newEmail)));
  }

  lemma ExtendingKeepsAddresses(w0: World, r: Request, w: World, base: Table, v: User, newId: nat)
    requires r.user.id in w0.users && StandsAs(w, base, v) && v.id == r.user.id
    requires (forall x :: x in w0.users ==> x in base && base[x] == w0.users[x]) && base.Keys <= w0.users.Keys + {newId}
    ensures AddressesKept(w0, r, w, newId)
  {
  }

  /** Whichever link is clicked first and whatever sweeps fall between: if the second click comes within a day of
      the request the account moves, and if it comes later every address stays. Either way index and table agree. */
  lemma MigrationMovesTheAccount(w0: World, r: Request, first: Side, rest1: seq<Act>, rest2: seq<Act>, newId: nat,
                                 avatarUrl: string -> string)
    requires Acceptable(w0, r, newId) && Idle(rest1) && Idle(rest2) && FreshTokens(w0.users, r)
    ensures var w := Migrate(w0, r, first, rest1, rest2, newId, avatarUrl);
            && Agrees(w) && w0.now <= w.now
            && if ClickedInTime(w0, r, first, rest1, rest2, newId, avatarUrl) then AccountMoved(w0, r, w, avatarUrl)
               else AddressesKept(w0, r, w, newId)
  {
    var u, t0 := w0.users[r.user.id], w0.now;
    var w1, w2 := BeforeFirst(w0, r, rest1), BeforeSecond(w0, r, first, rest1, rest2, newId, avatarUrl);
    var inTime := w1.now < t0 + TOKEN_LIFE;
    AcceptedIsAnotherAddress(w0, r, newId);
    BeforeFirstStands(w0, r, rest1, newId);
    BeforeSecondStands(w0, r, first, rest1, rest2, newId, avatarUrl);
    LinksStay(u, r, t0, first, inTime);
    ClickIsVerification(w2, BaseAfter(w0.users, r, first, inTime, newId), DocAfter(u, r, t0, first, inTime), r,
                        Other(first), t0, newId, avatarUrl);
    if w2.now < t0 + TOKEN_LIFE {
      SecondStage(w2, w0.users, r, t0, u, first, newId, avatarUrl);
    } else {
      BaseExtends(w0.users, r, first, inTime, newId);
      ExtendingKeepsAddresses(w0, r, w2, BaseAfter(w0.users, r, first, inTime, newId),
                              DocAfter(u, r, t0, first, inTime), newId);
    }
  }

  /** The order of the two clicks leaves no trace but the time of the last. */
  lemma OrdersAgree(w0: World, r: Request, rest1: seq<Act>, rest2: seq<Act>, other1: seq<Act>, other2: seq<Act>,
                    newId: nat, avatarUrl: string -> string)
    requires Acceptable(w0, r, newId) && Idle(rest1) && Idle(rest2) && Idle(other1) && Idle(other2)
             && FreshTokens(w0.users, r)
    requires ClickedInTime(w0, r, Current, rest1, rest2, newId, avatarUrl)
             && ClickedInTime(w0, r, New, other1, other2, newId, avatarUrl)
    ensures var w := Migrate(w0, r, Current, rest1, rest2, newId, avatarUrl);
            var v := Migrate(w0, r, New, other1, other2, newId, avatarUrl);
            w.now == v.now ==> w.users == v.users
  {
    MigrationMovesTheAccount(w0, r, Current, rest1, rest2, newId, avatarUrl);
    MigrationMovesTheAccount(w0, r, New, other1, other2, newId, avatarUrl);
  }

  /** The row for the previous address stays until it has expired, and changes in no other way. */
  lemma {:induction false} PreviousStaysUntilExpiry(w: World, acts: seq<Act>, k: Key, e: Entry, until: nat)
    requires Idle(acts) && e.expiresAt == Some(until)
    requires (k in w.rows ==> w.rows[k] == e) && (w.now <= until ==> k in w.rows)
    ensures var r := Run(w, acts); (k in r.rows ==> r.rows[k] == e) && (r.now <= until ==> k in r.rows)
    decreases acts
  {
    if acts != [] {
      assert acts[0].Pass? || acts[0].Sweep?;
      assert forall i :: 0 <= i < |acts[1..]| ==> acts[1..][i] == acts[i + 1];
      PreviousStaysUntilExpiry(Next(w, acts[0]), acts[1..], k, e, until);
    }
  }

  /** Nobody is left with the old address. */
  lemma OldAddressIsFree(users: Table, id: nat, email: string, t0: nat, t1: nat, avatarUrl: string -> string)
    requires Proper(users) && id in users && users[id].email != email
    ensures var moved := MigratedTable(users, id, email, t0, t1, avatarUrl);
            && id in moved && moved[id].email == email && moved[id].isEmailVerified
            && moved[id].previousEmail == Some(users[id].email) && moved[id].migrationExpiry == Some(t1 + GRACE_PERIOD)
            && forall x :: x in moved ==> moved[x].email != users[id].email
  {
  }

  /** From then on, while other users stay idle, the new address leads to the account as its primary one, and
      the old address leads to it as its previous one exactly until the grace period ends. */
  lemma BothAddressesResolve(w0: World, r: Request, first: Side, rest1: seq<Act>, rest2: seq<Act>, later: seq<Act>,
                             newId: nat, avatarUrl: string -> string)
    requires Acceptable(w0, r, newId) && Idle(rest1) && Idle(rest2) && Idle(later) && FreshTokens(w0.users, r)
    requires w0.users[r.user.id].email != ""
    requires ClickedInTime(w0, r, first, rest1, rest2, newId, avatarUrl)
    ensures var w := Migrate(w0, r, first, rest1, rest2, newId, avatarUrl);
            var x := Run(w, later);
            && Resolve(x.rows, x.now, Lower(r.newEmail)) == Some(Resolved(r.user.id, Primary, Some(true)))
            && (Resolve(x.rows, x.now, w0.users[r.user.id].email) == Some(Resolved(r.user.id, Previous, None))
                <==> x.now < w.now + GRACE_PERIOD)
  {
    var w := Migrate(w0, r, first, rest1, rest2, newId, avatarUrl);
    AcceptedIsAnotherAddress(w0, r, newId);
    MigrationMovesTheAccount(w0, r, first, rest1, rest2, newId, avatarUrl);
    assert Normal(w0.users[r.user.id].email);
    MovedAccountResolves(w0, r, w, later, avatarUrl);
  }

  lemma MovedAccountResolves(w0: World, r: Request, w: World, later: seq<Act>, avatarUrl: string -> string)
    requires Proper(w0.users) && r.user.id in w0.users
    requires Lower(r.newEmail) != w0.users[r.user.id].email && w0.users[r.user.id].email != ""
             && Normal(w0.users[r.user.id].email) && Normal(Lower(r.newEmail))
    requires Agrees(w) && AccountMoved(w0, r, w, avatarUrl) && Idle(later)
    ensures var x := Run(w, later);
            && Resolve(x.rows, x.now, Lower(r.newEmail)) == Some(Resolved(r.user.id, Primary, Some(true)))
            && (Resolve(x.rows, x.now, w0.users[r.user.id].email) == Some(Resolved(r.user.id, Previous, None))
                <==> x.now < w.now + GRACE_PERIOD)
  {
    OldAddressIsFree(w0.users, r.user.id, Lower(r.newEmail), w0.now, w.now, avatarUrl);
    PrimaryResolves(w, r.user.id, later);
    PreviousResolvesLater(w, r.user.id, w0.users[r.user.id].email, w.now + GRACE_PERIOD, later);
  }

  lemma PrimaryResolves(w: World, id: nat, later: seq<Act>)
    requires Agrees(w) && Idle(later) && id in w.users
    ensures var x := Run(w, later);
            Resolve(x.rows, x.now, w.users[id].email) == Some(Resolved(id, Primary, Some(w.users[id].isEmailVerified)))
  {
    IdleKeepsTable(w, later);
    assert Normal(w.users[id].email);
    ResolverIsTruthful(Run(w, later), w.users[id].email, id);
  }

  lemma PreviousResolvesLater(w: World, id: nat, email: string, until: nat, later: seq<Act>)
    requires Agrees(w) && Idle(later) && id in w.users && PreviousHeld(w.rows, w.users[id])
    requires w.users[id].previousEmail == Some(email) && w.users[id].migrationExpiry == Some(until) && Normal(email)
    requires forall y :: y in w.users ==> w.users[y].email != email
    ensures var x := Run(w, later);
            Resolve(x.rows, x.now, email) == Some(Resolved(id, Previous, None)) <==> x.now < until
  {
    var k := KeyOf(PreviousEmail, email);
    assert w.users[id].id == id;
    IdleKeepsTable(w, later);
    PreviousStaysUntilExpiry(w, later, k, EntryOf(w.users[id], k), until);
    PreviousResolves(Run(w, later), email, EntryOf(w.users[id], k), until);
  }

  lemma PreviousResolves(w: World, email: string, e: Entry, until: nat)
    requires Agrees(w) && Normal(email) && e.expiresAt == Some(until) && e.verified.None?
    requires forall x :: x in w.users ==> w.users[x].email != email
    requires var k := KeyOf(PreviousEmail, email); (k in w.rows ==> w.rows[k] == e) && (w.now <= until ==> k in w.rows)
    ensures Resolve(w.rows, w.now, email) == Some(Resolved(e.userId, Previous, None)) <==> w.now < until
  {
    FreeAddressIsNotPrimary(w, email);
  }

  lemma FreeAddressIsNotPrimary(w: World, email: string)
    requires Agrees(w) && Normal(email)
    requires forall x :: x in w.users ==> w.users[x].email != email
    ensures ActiveAt(w.rows, KeyOf(PrimaryEmail, email), w.now).None?
  {
    var k := KeyOf(PrimaryEmail, email);
    if k in w.rows {
      PrimaryIsScan(w, w.rows[k].userId, email);
    }
  }

  /** The run adds one entry to the history; it ends as a success if and only if no older entry for the
      address was still pending, for then that older one is completed instead. */
  lemma NewestEntrySucceeds(u: User, email: string, t0: nat, t1: nat, avatarUrl: string -> string)
    ensures var h, h' := u.migrationHistory, Migrated(u, email, t0, t1, avatarUrl).migrationHistory;
            && |h'| == |h| + 1
            && (h'[|h|].status.Succeeded? <==> forall i :: 0 <= i < |h| ==> !PendingTo(h[i], email))
            && (h'[|h|].status.Succeeded? ==> h'[..|h|] == h)
  {
    var h, e := u.migrationHistory, HistoryEntry(u.email, email, Pending, true, true);
    if k: nat :| k < |h| && PendingTo(h[k], email) && forall i :: 0 <= i < k ==> !PendingTo(h[i], email) {
      SettledAt(h + [e], email, Success(u.email, email), k);
    } else {
      NoFirstMeansNone(h, email, |h|);
      SettledAt(h + [e], email, Success(u.email, email), |h|);
    }
  }

  lemma {:induction false} NoFirstMeansNone(h: seq<HistoryEntry>, email: string, n: nat)
    requires n <= |h|
    requires !exists k: nat :: k < |h| && PendingTo(h[k], email) && forall i :: 0 <= i < k ==> !PendingTo(h[i], email)
    ensures forall i :: 0 <= i < n ==> !PendingTo(h[i], email)
  {
    if n > 0 {
      NoFirstMeansNone(h, email, n - 1);
    }
  }

  ghost predicate StillPending(history: seq<HistoryEntry>, email: string) {
    exists i :: 0 <= i < |history| && PendingTo(history[i], email)
  }

  /** The account has the address, and its newest history entry is pending. */
  ghost predicate NewestPending(users: Table, id: nat, email: string) {
    && id in users && users[id].email == email && users[id].migrationHistory != []
    && users[id].migrationHistory[|users[id].migrationHistory| - 1].status.Pending?
  }

  /** Where an older entry for the address is pending, the account moves and its newest entry stays pending. */
  lemma OlderEntryKeepsNewestPending(w: World, r: Request, first: Side, rest1: seq<Act>, rest2: seq<Act>, newId: nat,
                                     avatarUrl: string -> string)
    requires Acceptable(w, r, newId) && Idle(rest1) && Idle(rest2) && FreshTokens(w.users, r)
    requires ClickedInTime(w, r, first, rest1, rest2, newId, avatarUrl)
    requires StillPending(w.users[r.user.id].migrationHistory, Lower(r.newEmail))
    ensures NewestPending(Migrate(w, r, first, rest1, rest2, newId, avatarUrl).users, r.user.id, Lower(r.newEmail))
  {
    var w' := Migrate(w, r, first, rest1, rest2, newId, avatarUrl);
    MigrationMovesTheAccount(w, r, first, rest1, rest2, newId, avatarUrl);
    NewestEntrySucceeds(w.users[r.user.id], Lower(r.newEmail), w.now, w'.now, avatarUrl);
  }
}
