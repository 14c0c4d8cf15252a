/** An account that takes an address by way of the login, leaves it and comes back: a whole run from empty tables. */
module MovedBack {
  import opened Wrappers
  import opened Emails
  import opened Users
  import opened IndexRuns
  import opened Migration
  import opened MigrationRuns
  import opened LoginFinalization

  ghost predicate Lone(w: World, u: User) {
    Agrees(w) && w.users == map[u.id := u]
  }

  /** The only account, which nothing keeps from a migration. */
  ghost predicate Free(w: World, u: User) {
    && Lone(w, u) && u.provider.Local?
    && u.newEmailPending.None? && u.currentEmailToken.None? && u.newEmailToken.None?
    && !After(u.migrationExpiry, w.now) && (u.lastMigrationDate.Some? ==> w.now - u.lastMigrationDate.value >= COOLDOWN)
  }

  predicate Canonical(email: string) {
    email != "" && Normal(email)
  }

  /** The account asks for the address and clicks both links at once. */
  function AtOnce(u: User, email: string): Trip {
    Trip(Request(u, email, false, Some("password"), true, "current", "new"), Current, [], [], u.id + 1)
  }

  lemma CanonicalIsLower(email: string)
    requires Canonical(email)
    ensures Lower(email) == email
  {
    LowerIsPointwise(TrimEnd(TrimStart(email)));
  }

  lemma FinalizingTakesNoTime(w: World, user: User, avatarUrl: string -> string)
    ensures AfterFinalize(w, user, avatarUrl).now == w.now
  {
  }

  lemma ClickingTakesNoTime(w: World, r: Request, side: Side, newId: nat, avatarUrl: string -> string)
    ensures Click(w, r, side, newId, avatarUrl).now == w.now
  {
    forall w: World, user ensures AfterFinalize(w, user, avatarUrl).now == w.now {
      FinalizingTakesNoTime(w, user, avatarUrl);
    }
  }

  lemma FreeAccountIsAcceptable(w: World, u: User, email: string)
    requires Free(w, u) && Canonical(email) && email != u.email
    ensures var t := AtOnce(u, email); Acceptable(w, t.r, t.newId) && FreshTokens(w.users, t.r)
  {
    CanonicalIsLower(email);
    ExistingIsScan(w, email);
  }

  lemma ClickedAtOnceIsInTime(w: World, r: Request, newId: nat, avatarUrl: string -> string)
    ensures ClickedInTime(w, r, Current, [], [], newId, avatarUrl)
  {
    ClickingTakesNoTime(AfterInitiate(w, r), r, Current, newId, avatarUrl);
  }

  lemma FreeAccountCanMove(w: World, u: User, email: string, avatarUrl: string -> string)
    requires Free(w, u) && Canonical(email) && email != u.email
    ensures Completes(w, AtOnce(u, email), avatarUrl)
  {
    FreeAccountIsAcceptable(w, u, email);
    ClickedAtOnceIsInTime(w, AtOnce(u, email).r, u.id + 1, avatarUrl);
  }

  /** The only account has just migrated. */
  ghost predicate Arrived(w: World, v: User) {
    && Lone(w, v) && v.provider.Local?
    && v.newEmailPending.None? && v.currentEmailToken.None? && v.newEmailToken.None?
    && v.migrationExpiry == Some(w.now + GRACE_PERIOD) && v.lastMigrationDate == Some(w.now)
  }

  /** Ten days later it is free for the next migration. */
  lemma ArrivedIsFreeLater(w: World, v: User)
    requires Arrived(w, v)
    ensures Free(Run(w, [Pass(COOLDOWN)]), v)
  {
    TimePasses(w, COOLDOWN);
  }

  lemma LoneTable(u: User, email: string, t0: nat, t1: nat, avatarUrl: string -> string)
    ensures MigratedTable(map[u.id := u], u.id, email, t0, t1, avatarUrl)
            == map[u.id := Migrated(u, email, t0, t1, avatarUrl)]
  {
  }

  lemma MovedHasArrived(w: World, u: User, email: string, w': World, avatarUrl: string -> string)
    requires Free(w, u) && Agrees(w') && w'.users == MigratedTable(w.users, u.id, email, w.now, w'.now, avatarUrl)
    ensures Arrived(w', Migrated(u, email, w.now, w'.now, avatarUrl))
  {
    LoneTable(u, email, w.now, w'.now, avatarUrl);
  }

  lemma FreeAccountArrives(w: World, u: User, email: string, avatarUrl: string -> string)
    requires Free(w, u) && Canonical(email) && email != u.email
    ensures var w' := AfterTrip(w, AtOnce(u, email), avatarUrl);
            Arrived(w', Migrated(u, email, w.now, w'.now, avatarUrl))
  {
    FreeAccountCanMove(w, u, email, avatarUrl);
    CanonicalIsLower(email);
    TripMoves(w, AtOnce(u, email), avatarUrl);
    MovedHasArrived(w, u, email, AfterTrip(w, AtOnce(u, email), avatarUrl), avatarUrl);
  }

  lemma TimePasses(w: World, ms: nat)
    requires Agrees(w)
    ensures Idle([Pass(ms)]) && Agrees(Run(w, [Pass(ms)])) && Run(w, [Pass(ms)]) == w.(now := w.now + ms)
  {
    ShrinkingKeepsAgreement(w, Pass(ms));
    assert Run(w, [Pass(ms)]) == Run(Next(w, Pass(ms)), []);
  }

  // ---------------------------------------------------------------------------------------
  // The interrupted migration and the login
  // ---------------------------------------------------------------------------------------

  /** Both links are clicked, and the finalisation stops once it has deleted whoever else holds the address. */
  ghost function Interrupted(w: World, t: Trip, y: nat, avatarUrl: string -> string): World {
    Next(BothMarked(w, t.r, t.rest1, t.rest2, t.newId, avatarUrl), Remove(y))
  }

  ghost predicate IsPending(v: User, email: string) {
    v.newEmailPending == Some(email) && StillPending(v.migrationHistory, email) && v.provider.Local?
  }

  /** The document then. */
  function Stranded(u: User, email: string, now: nat): User {
    Verified(HalfVerified(u, AtOnce(u, email).r, now, Current), New)
  }

  lemma OnlyThePlaceholder(u: User, email: string, p: User, v: User, w: World, y: nat)
    requires w.users == WithHeld(map[u.id := u], email, p)[v.id := v] && v.id == u.id != p.id
             && p.email == email != u.email
    requires y in w.users && y != u.id
    ensures Next(w, Remove(y)).users == map[u.id := v]
  {
  }

  ghost predicate HeldBeside(x: World, u: User, email: string, v: User) {
    StandsAs(x, WithHeld(map[u.id := u], email, Placeholder(u.id + 1, email)), v)
  }

  lemma RemovingLeavesOne(x: World, u: User, email: string, v: User, y: nat)
    requires HeldBeside(x, u, email, v) && v.id == u.id && email != u.email && y in x.users && y != u.id
    ensures Lone(Next(x, Remove(y)), v)
  {
    OnlyThePlaceholder(u, email, Placeholder(u.id + 1, email), v, x, y);
    ShrinkingKeepsAgreement(x, Remove(y));
  }

  lemma MarkedIsHeld(w: World, u: User, email: string, t: Trip, avatarUrl: string -> string)
    requires Free(w, u) && Canonical(email) && email != u.email && t == AtOnce(u, email)
    ensures HeldBeside(BothMarked(w, t.r, t.rest1, t.rest2, t.newId, avatarUrl), u, email, Stranded(u, email, w.now))
  {
    FreeAccountCanMove(w, u, email, avatarUrl);
    CanonicalIsLower(email);
    BothMarkedStands(w, t.r, t.rest1, t.rest2, t.newId, avatarUrl);
  }

  lemma RemovalIsFinishedByLogin(w: World, u: User, email: string, t: Trip, x: World, avatarUrl: string -> string)
      returns (y: nat)
    requires Free(w, u) && Canonical(email) && email != u.email && u.previousEmail.None? && t == AtOnce(u, email)
    requires x == BothMarked(w, t.r, t.rest1, t.rest2, t.newId, avatarUrl)
    ensures y in x.users && y != u.id && Finishing(Next(x, Remove(y)), email) == Some(u.id)
  {
    FreeAccountCanMove(w, u, email, avatarUrl);
    y := InterruptedMigrationEndsPending(w, t.r, t.rest1, t.rest2, t.newId, avatarUrl);
  }

  lemma SomePending(x: World, u: User, email: string, now: nat) returns (v: User)
    requires HeldBeside(x, u, email, Stranded(u, email, now)) && Canonical(email) && u.provider.Local?
    ensures HeldBeside(x, u, email, v) && IsPending(v, email) && v.id == u.id
  {
    v := Stranded(u, email, now);
    StrandedIsPending(u, email, now);
  }

  lemma InterruptedIsLone(w: World, u: User, email: string, t: Trip, avatarUrl: string -> string)
      returns (y: nat, v: User)
    requires Free(w, u) && Canonical(email) && email != u.email && u.previousEmail.None? && t == AtOnce(u, email)
    ensures var w' := Interrupted(w, t, y, avatarUrl); Lone(w', v) && Finishing(w', email) == Some(u.id)
    ensures IsPending(v, email) && v.id == u.id
  {
    var x := BothMarked(w, t.r, t.rest1, t.rest2, t.newId, avatarUrl);
    MarkedIsHeld(w, u, email, t, avatarUrl);
    v := SomePending(x, u, email, w.now);
    y := RemovalIsFinishedByLogin(w, u, email, t, x, avatarUrl);
    RemovingLeavesOne(x, u, email, v, y);
  }

  lemma StrandedIsPending(u: User, email: string, now: nat)
    requires Canonical(email) && u.provider.Local?
    ensures var v := Stranded(u, email, now); IsPending(v, email) && v.id == u.id
  {
    CanonicalIsLower(email);
    DocumentsMeet(u, AtOnce(u, email).r, now, now, Current, s => s);
    var v := Stranded(u, email, now);
    assert PendingTo(v.migrationHistory[|u.migrationHistory|], email);
  }

  lemma LoggedInHasArrived(x: World, v: User, email: string)
    requires Agrees(x) && x.users == map[v.id := v][v.id := LoggedIn(v, email, x.now)] && v.provider.Local?
    ensures Arrived(x, LoggedIn(v, email, x.now))
  {
  }

  /** With the login the account has arrived, and ten days later it is free. */
  lemma LoginArrives(w: World, v: User, email: string)
    requires Lone(w, v) && Finishing(w, email) == Some(v.id) && IsPending(v, email) && Canonical(email)
    ensures Free(Run(AfterLogin(w, email), [Pass(COOLDOWN)]), LoggedIn(v, email, w.now))
  {
    CanonicalIsLower(email);
    assert w.users[v.id] == v;
    LoginKeepsAgreement(w, email);
    LoggedInHasArrived(AfterLogin(w, email), v, email);
    ArrivedIsFreeLater(AfterLogin(w, email), LoggedIn(v, email, w.now));
  }

  // ---------------------------------------------------------------------------------------
  // The whole run
  // ---------------------------------------------------------------------------------------

  function Account(email: string): User {
    Placeholder(0, email).(isEmailVerified := true)
  }

  /** The tables after one account has been created. */
  function Created(email: string): World {
    Next(World(map[], map[], 0), Store(Account(email)))
  }

  lemma CreatedIsFree(email: string)
    requires Canonical(email)
    ensures Free(Created(email), Account(email))
  {
    EmptyAgrees(0);
    StoreKeepsAgreement(World(map[], map[], 0), Account(email));
  }

  lemma TwoTrips(w: World, u: User, elsewhere: string, avatarUrl: string -> string) returns (away: Trip, again: Trip)
    requires Free(w, u) && Canonical(u.email) && Canonical(elsewhere) && elsewhere != u.email
    ensures Completes(w, away, avatarUrl)
            && Completes(Run(AfterTrip(w, away, avatarUrl), [Pass(COOLDOWN)]), again, avatarUrl)
    ensures away.r.user.id == again.r.user.id == u.id && away.r.newEmail == elsewhere && again.r.newEmail == u.email
  {
    away := AtOnce(u, elsewhere);
    var wA := AfterTrip(w, away, avatarUrl);
    var v := Migrated(u, elsewhere, w.now, wA.now, avatarUrl);
    FreeAccountCanMove(w, u, elsewhere, avatarUrl);
    FreeAccountArrives(w, u, elsewhere, avatarUrl);
    ArrivedIsFreeLater(wA, v);
    again := AtOnce(v, u.email);
    FreeAccountCanMove(Run(wA, [Pass(COOLDOWN)]), v, u.email, avatarUrl);
  }

  lemma AwayAndBackIsPossible(w: World, v: User, email: string, elsewhere: string, avatarUrl: string -> string)
      returns (away: Trip, again: Trip)
    requires Lone(w, v) && Finishing(w, email) == Some(v.id) && IsPending(v, email)
    requires Canonical(email) && Canonical(elsewhere) && elsewhere != email
    ensures MovesAwayAndBack(w, email, [Pass(COOLDOWN)], away, [Pass(COOLDOWN)], again, avatarUrl)
  {
    var idle := [Pass(COOLDOWN)];
    LoginArrives(w, v, email);
    away, again := TwoTrips(Run(AfterLogin(w, email), idle), LoggedIn(v, email, w.now), elsewhere, avatarUrl);
    JoinTrips(w, v, email, idle, away, again, avatarUrl);
  }

  lemma JoinTrips(w: World, v: User, email: string, idle: seq<Act>, away: Trip, again: Trip,
                  avatarUrl: string -> string)
    requires Lone(w, v) && Finishing(w, email) == Some(v.id) && IsPending(v, email) && Idle(idle)
    requires away.r.user.id == again.r.user.id == v.id && Canonical(email) && again.r.newEmail == email
    requires Canonical(away.r.newEmail) && away.r.newEmail != email
    requires Completes(Run(AfterLogin(w, email), idle), away, avatarUrl)
    requires Completes(Run(AfterTrip(Run(AfterLogin(w, email), idle), away, avatarUrl), idle), again, avatarUrl)
    ensures MovesAwayAndBack(w, email, idle, away, idle, again, avatarUrl)
  {
    CanonicalIsLower(email);
    CanonicalIsLower(away.r.newEmail);
  }

  /** From empty tables: an account is created, its migration is interrupted and finished by a login, and it moves
      away and back ten days apart; its newest entry is pending. */
  lemma AwayAndBackHappens(first: string, email: string, elsewhere: string, avatarUrl: string -> string)
      returns (t: Trip, y: nat, away: Trip, again: Trip)
    requires Canonical(first) && Canonical(email) && Canonical(elsewhere) && first != email && elsewhere != email
    ensures Completes(Created(first), t, avatarUrl) && t.r.user == Account(first) && t.r.newEmail == email
            && t.first.Current?
    ensures var w, idle := Interrupted(Created(first), t, y, avatarUrl), [Pass(COOLDOWN)];
            && MovesAwayAndBack(w, email, idle, away, idle, again, avatarUrl)
            && var w1 := Run(AfterLogin(w, email), idle);
               var w3 := AfterTrip(Run(AfterTrip(w1, away, avatarUrl), idle), again, avatarUrl);
               NewestPending(w3.users, 0, email)
  {
    var w0, u := Created(first), Account(first);
    t := AtOnce(u, email);
    CreatedIsFree(first);
    FreeAccountCanMove(w0, u, email, avatarUrl);
    var v;
    y, v := InterruptedIsLone(w0, u, email, t, avatarUrl);
    var w := Interrupted(w0, t, y, avatarUrl);
    away, again := AwayAndBackIsPossible(w, v, email, elsewhere, avatarUrl);
    CanonicalIsLower(email);
    LoginLeavesNewestEntryPending(w, email, [Pass(COOLDOWN)], away, [Pass(COOLDOWN)], again, avatarUrl);
  }
}
