/** The login handler's own finalisation of a migration, and the history entry it leaves pending. */
module LoginFinalization {
  import opened Wrappers
  import opened Emails
  import opened Users
  import opened IdentityIndex
  import opened IndexRuns
  import opened Migration
  import opened MigrationRuns

  /** The document after a login with the new address finished its migration: neither the token version nor the
      history nor the expiry of the links is touched. */
  function LoggedIn(u: User, email: string, now: nat): User {
    Renamed(u, email, now).(migrationTokenExpires := u.migrationTokenExpires)
  }

  /** The account a login with this address is about, if its migration to the address is to be finished. */
  function Finishing(w: World, email: string): Option<nat> {
    var lower := Lower(email);
    var found := Resolve(w.rows, w.now, lower);
    if found.None? || found.value.userId !in w.users then None
    else
      var u := w.users[found.value.userId];
      if u.newEmailPending == Some(lower) && BothVerified(u) then Some(found.value.userId) else None
  }

  function AfterLogin(w: World, email: string): World {
    var id := Finishing(w, email);
    if id.None? then w else Next(w, Store(LoggedIn(w.users[id.value], Lower(email), w.now)))
  }

  /** Whoever the resolver names for an address, nobody else holds it. */
  lemma OthersDoNotHold(w: World, email: string, id: nat)
    requires Agrees(w) && Normal(email)
    requires Resolve(w.rows, w.now, email).Some? && Resolve(w.rows, w.now, email).value.userId == id
    ensures forall y :: y in w.users && w.users[y].email == email ==> y == id
  {
    forall y | y in w.users && w.users[y].email == email ensures y == id {
      ResolverIsTruthful(w, email, y);
    }
  }

  /** So the address is free to take, and the login keeps index and table in agreement. */
  lemma LoginKeepsAgreement(w: World, email: string)
    requires Agrees(w) && PendingNormal(w.users) && Normal(Lower(email))
    ensures Agrees(AfterLogin(w, email)) && PendingNormal(AfterLogin(w, email).users)
  {
    var id := Finishing(w, email);
    if id.Some? {
      var u := w.users[id.value];
      assert u.id == id.value;
      OthersDoNotHold(w, Lower(email), id.value);
      StoringKeepsAgreement(w, LoggedIn(u, Lower(email), w.now));
    }
  }

  // ---------------------------------------------------------------------------------------
  // How a login comes to finish a migration
  // ---------------------------------------------------------------------------------------

  /** The index leads from the pending address to the account. */
  ghost predicate PendingHeld(rows: Rows, v: User) {
    v.newEmailPending.Some? &&
    var k := KeyOf(PendingMigration, v.newEmailPending.value);
    k in rows && rows[k] == EntryOf(v, k)
  }

  /** Nobody had the address as an unexpired previous one. */
  ghost predicate NotPrevious(w: World, email: string) {
    forall x :: x in w.users && Present(w.users[x].previousEmail) && After(w.users[x].migrationExpiry, w.now)
                ==> Normalize(w.users[x].previousEmail.value) != email
  }

  /** A finalisation that deleted the holder of the new address and got no further: a login with that address,
      while the links have not expired, finishes the migration, and the pending entry stays in the history. */
  lemma LoginFinishesInterruptedMerge(w: World, id: nat, y: nat, email: string)
    requires Agrees(w) && id in w.users && y in w.users && y != id && w.users[y].email == Lower(email)
             && Normal(Lower(email))
    requires BothVerified(w.users[id]) && w.users[id].newEmailPending == Some(Lower(email))
    requires PendingHeld(w.rows, w.users[id]) && After(w.users[id].migrationTokenExpires, w.now)
             && NotPrevious(w, Lower(email))
    ensures var w' := Next(w, Remove(y));
            && Finishing(w', email) == Some(id)
            && AfterLogin(w', email).users == w'.users[id := LoggedIn(w.users[id], Lower(email), w.now)]
            && AfterLogin(w', email).users[id].migrationHistory == w.users[id].migrationHistory
  {
    var w', lower := Next(w, Remove(y)), Lower(email);
    ShrinkingKeepsAgreement(w, Remove(y));
    assert w.users[id].id == id;
    forall x | x in w'.users ensures w'.users[x].email != lower {
      assert w.users[x].email == w.users[y].email ==> x == y;
    }
    PendingRowResolves(w', id, lower);
  }

  lemma PendingRowResolves(w: World, id: nat, email: string)
    requires Agrees(w) && id in w.users && Normal(email) && w.users[id].newEmailPending == Some(email)
    requires PendingHeld(w.rows, w.users[id]) && After(w.users[id].migrationTokenExpires, w.now)
             && NotPrevious(w, email)
    requires forall x :: x in w.users ==> w.users[x].email != email
    ensures Resolve(w.rows, w.now, email) == Some(Resolved(id, PendingTarget, None))
  {
    assert w.users[id].id == id;
    FreeAddressIsNotPrimary(w, email);
    if ActiveAt(w.rows, KeyOf(PreviousEmail, email), w.now).Some? {
      ActiveRowIsTruthful(w.users, w.rows, w.now, PreviousEmail, email);
      assert false;
    }
  }

  // ---------------------------------------------------------------------------------------
  // From the request to that login
  // ---------------------------------------------------------------------------------------

  /** The index leads from the address to the account until the links expire. */
  ghost predicate PendingRow(rows: Rows, email: string, id: nat, until: nat) {
    var k := KeyOf(PendingMigration, email);
    k in rows && rows[k] == Entry(PendingMigration, id, None, None, Some(until))
  }

  lemma StoringHoldsPending(rows: Rows, v: User, email: string, until: nat, now: nat)
    requires v.newEmailPending == Some(email) && email != "" && v.migrationTokenExpires == Some(until) && now < until
    ensures PendingRow(Synced(rows, v, now), email, v.id, until)
  {
    assert KeyOf(PendingMigration, email) in Expected(v, now);
  }

  lemma InitiateHoldsPending(w: World, r: Request)
    requires Agrees(w) && Judge(w, r).Accepted?
    ensures PendingRow(AfterInitiate(w, r).rows, Lower(r.newEmail), r.user.id, w.now + TOKEN_LIFE)
  {
    var u := w.users[r.user.id];
    NonEmptyLower(r.newEmail);
    StoringHoldsPending(w.rows, Initiated(u, r, w.now), Lower(r.newEmail), w.now + TOKEN_LIFE, w.now);
    assert u.id == r.user.id;
  }

  lemma NonEmptyLower(s: string)
    requires s != ""
    ensures Lower(s) != ""
  {
    LowerIsPointwise(s);
  }

  lemma PendingRowStays(w: World, idle: seq<Act>, email: string, id: nat, until: nat)
    requires PendingRow(w.rows, email, id, until) && Idle(idle) && Run(w, idle).now <= until
    ensures PendingRow(Run(w, idle).rows, email, id, until)
  {
    PreviousStaysUntilExpiry(w, idle, KeyOf(PendingMigration, email),
                             Entry(PendingMigration, id, None, None, Some(until)), until);
  }

  lemma HolderKeepsPendingRow(w: World, newId: nat, email: string, id: nat, until: nat)
    requires PendingRow(w.rows, email, id, until) && newId != id
    ensures PendingRow(WithHolder(w, email, newId).rows, email, id, until)
  {
  }

  lemma FirstMarkKeepsRows(w: World, id: nat, newId: nat, avatarUrl: string -> string)
    requires id in w.users && !BothVerified(Verified(w.users[id], Current))
    ensures AfterVerify(w, id, Current, newId, avatarUrl).rows == w.rows
  {
  }

  lemma FirstClickKeepsRows(w: World, base: Table, u: User, r: Request, t0: nat, newId: nat,
                            avatarUrl: string -> string)
    requires StandsAs(w, base, Initiated(u, r, t0)) && FreshTokens(base, r)
    ensures Click(w, r, Current, newId, avatarUrl).rows == w.rows
  {
    HalfVerifiedIs(u, r, t0, Current);
    ClickIsVerification(w, base, Initiated(u, r, t0), r, Current, t0, newId, avatarUrl);
    FirstMarkKeepsRows(w, u.id, newId, avatarUrl);
  }

  /** Between the two clicks, the current side first. */
  lemma PendingRowBeforeSecond(w0: World, r: Request, rest1: seq<Act>, rest2: seq<Act>, newId: nat,
                               avatarUrl: string -> string)
    requires Acceptable(w0, r, newId) && Idle(rest1) && Idle(rest2) && FreshTokens(w0.users, r)
    requires ClickedInTime(w0, r, Current, rest1, rest2, newId, avatarUrl)
    ensures PendingRow(BeforeSecond(w0, r, Current, rest1, rest2, newId, avatarUrl).rows, Lower(r.newEmail), r.user.id,
                       w0.now + TOKEN_LIFE)
  {
    var w1 := BeforeFirst(w0, r, rest1);
    InitiateHoldsPending(w0, r);
    BeforeFirstStands(w0, r, rest1, newId);
    BeforeSecondStands(w0, r, Current, rest1, rest2, newId, avatarUrl);
    PendingRowStays(AfterInitiate(w0, r), rest1, Lower(r.newEmail), r.user.id, w0.now + TOKEN_LIFE);
    FirstClickKeepsRows(w1, w0.users, w0.users[r.user.id], r, w0.now, newId, avatarUrl);
    PendingRowStays(Click(w1, r, Current, newId, avatarUrl), rest2, Lower(r.newEmail), r.user.id, w0.now + TOKEN_LIFE);
  }

  lemma NewLinkLeadsThere(w: World, base: Table, u: User, r: Request, t0: nat, newId: nat, avatarUrl: string -> string)
    requires StandsAs(w, base, HalfVerified(u, r, t0, Current)) && FreshTokens(base, r) && w.now < t0 + TOKEN_LIFE
    ensures Click(w, r, New, newId, avatarUrl) == AfterVerify(w, u.id, New, newId, avatarUrl)
  {
    LinksStay(u, r, t0, Current, true);
    ClickIsVerification(w, base, HalfVerified(u, r, t0, Current), r, New, t0, newId, avatarUrl);
  }

  lemma BetweenTheClicks(w0: World, r: Request, rest1: seq<Act>, rest2: seq<Act>, newId: nat,
                         avatarUrl: string -> string)
    requires Acceptable(w0, r, newId) && Idle(rest1) && Idle(rest2) && FreshTokens(w0.users, r)
    requires ClickedInTime(w0, r, Current, rest1, rest2, newId, avatarUrl)
    ensures var w2 := BeforeSecond(w0, r, Current, rest1, rest2, newId, avatarUrl);
            var half := HalfVerified(w0.users[r.user.id], r, w0.now, Current);
            StandsAs(w2, w0.users, half) && w0.now <= w2.now && half.id == r.user.id
  {
    AcceptedIsAnotherAddress(w0, r, newId);
    BeforeFirstStands(w0, r, rest1, newId);
    BeforeSecondStands(w0, r, Current, rest1, rest2, newId, avatarUrl);
  }

  /** The verification of the new side up to its finalisation. */
  ghost function NewSideMarked(w: World, id: nat, email: string, newId: nat): World {
    var h := WithHolder(w, email, newId);
    if id in h.users then Next(h, Touch(Verified(h.users[id], New))) else h
  }

  ghost function BothMarked(w0: World, r: Request, rest1: seq<Act>, rest2: seq<Act>, newId: nat,
                            avatarUrl: string -> string): World {
    NewSideMarked(BeforeSecond(w0, r, Current, rest1, rest2, newId, avatarUrl), r.user.id, Lower(r.newEmail), newId)
  }

  lemma BothMarkedStands(w0: World, r: Request, rest1: seq<Act>, rest2: seq<Act>, newId: nat,
                         avatarUrl: string -> string)
    requires Acceptable(w0, r, newId) && Idle(rest1) && Idle(rest2) && FreshTokens(w0.users, r)
    requires ClickedInTime(w0, r, Current, rest1, rest2, newId, avatarUrl)
    ensures var w, email := BothMarked(w0, r, rest1, rest2, newId, avatarUrl), Lower(r.newEmail);
            && StandsAs(w, WithHeld(w0.users, email, Placeholder(newId, email)),
                        Verified(HalfVerified(w0.users[r.user.id], r, w0.now, Current), New))
            && w0.now <= w.now < w0.now + TOKEN_LIFE
  {
    var w2, email := BeforeSecond(w0, r, Current, rest1, rest2, newId, avatarUrl), Lower(r.newEmail);
    var half := HalfVerified(w0.users[r.user.id], r, w0.now, Current);
    AcceptedIsAnotherAddress(w0, r, newId);
    BetweenTheClicks(w0, r, rest1, rest2, newId, avatarUrl);
    HolderStage(w2, w0.users, half, email, newId);
    TouchStage(WithHolder(w2, email, newId), WithHeld(w0.users, email, Placeholder(newId, email)), half, New);
  }

  lemma MarkingKeepsPendingRow(w: World, id: nat, email: string, newId: nat, until: nat)
    requires PendingRow(w.rows, email, id, until) && newId != id
    ensures PendingRow(NewSideMarked(w, id, email, newId).rows, email, id, until)
  {
    HolderKeepsPendingRow(w, newId, email, id, until);
  }

  lemma BothMarkedHoldsPending(w0: World, r: Request, rest1: seq<Act>, rest2: seq<Act>, newId: nat,
                               avatarUrl: string -> string)
    requires Acceptable(w0, r, newId) && Idle(rest1) && Idle(rest2) && FreshTokens(w0.users, r)
    requires ClickedInTime(w0, r, Current, rest1, rest2, newId, avatarUrl)
    ensures PendingRow(BothMarked(w0, r, rest1, rest2, newId, avatarUrl).rows, Lower(r.newEmail), r.user.id,
                       w0.now + TOKEN_LIFE)
  {
    PendingRowBeforeSecond(w0, r, rest1, rest2, newId, avatarUrl);
    MarkingKeepsPendingRow(BeforeSecond(w0, r, Current, rest1, rest2, newId, avatarUrl), r.user.id, Lower(r.newEmail),
                           newId, w0.now + TOKEN_LIFE);
  }

  lemma StillNotPrevious(w0: World, w: World, email: string, p: User, v: User)
    requires NotPrevious(w0, email) && w0.now <= w.now && p.previousEmail.None? && v.id in w0.users
    requires v.previousEmail == w0.users[v.id].previousEmail && v.migrationExpiry == w0.users[v.id].migrationExpiry
    requires w.users == WithHeld(w0.users, email, p)[v.id := v]
    ensures NotPrevious(w, email)
  {
  }

  /** The current side is verified first, and the finalisation that the second click triggers deletes the other
      holder of the address and gets no further: a login with the new address finds the account and finishes the
      migration, and leaves its newest history entry pending. */
  lemma InterruptedMigrationEndsPending(w0: World, r: Request, rest1: seq<Act>, rest2: seq<Act>, newId: nat,
                                        avatarUrl: string -> string) returns (y: nat)
    requires Acceptable(w0, r, newId) && Idle(rest1) && Idle(rest2) && FreshTokens(w0.users, r)
    requires ClickedInTime(w0, r, Current, rest1, rest2, newId, avatarUrl) && NotPrevious(w0, Lower(r.newEmail))
    ensures var w, id, email := BothMarked(w0, r, rest1, rest2, newId, avatarUrl), r.user.id, Lower(r.newEmail);
            var w' := Next(w, Remove(y));
            && id in w.users && y in w.users && y != id && w.users[y].email == email
            && Migrate(w0, r, Current, rest1, rest2, newId, avatarUrl)
              == Next(w', Store(Merged(w.users[id], email, w.now, avatarUrl)))
            && Finishing(w', r.newEmail) == Some(id) && NewestPending(AfterLogin(w', r.newEmail).users, id, email)
  {
    var w, id, email := BothMarked(w0, r, rest1, rest2, newId, avatarUrl), r.user.id, Lower(r.newEmail);
    var u, t0 := w0.users[id], w0.now;
    var v := Verified(HalfVerified(u, r, t0, Current), New);
    AcceptedIsAnotherAddress(w0, r, newId);
    BothMarkedStands(w0, r, rest1, rest2, newId, avatarUrl);
    BothMarkedHoldsPending(w0, r, rest1, rest2, newId, avatarUrl);
    HalfVerifiedIs(u, r, t0, Current);
    DocumentsMeet(u, r, t0, w.now, Current, avatarUrl);
    y := SomebodyHolds(w0.users, email, Placeholder(newId, email), v);
    StillNotPrevious(w0, w, email, Placeholder(newId, email), v);
    LoginFinishesInterruptedMerge(w, id, y, r.newEmail);
    SecondClickIs(w0, r, rest1, rest2, newId, v, y, avatarUrl);
  }

  lemma SecondClickIs(w0: World, r: Request, rest1: seq<Act>, rest2: seq<Act>, newId: nat, v: User, y: nat,
                      avatarUrl: string -> string)
    requires Acceptable(w0, r, newId) && Idle(rest1) && Idle(rest2) && FreshTokens(w0.users, r)
    requires ClickedInTime(w0, r, Current, rest1, rest2, newId, avatarUrl)
    requires v.id == r.user.id && BothVerified(v) && v.newEmailPending == Some(Lower(r.newEmail))
    requires var w := BothMarked(w0, r, rest1, rest2, newId, avatarUrl);
             && Agrees(w) && v.id in w.users && w.users[v.id] == v
             && y in w.users && y != v.id && w.users[y].email == Lower(r.newEmail)
    ensures var w := BothMarked(w0, r, rest1, rest2, newId, avatarUrl);
            Migrate(w0, r, Current, rest1, rest2, newId, avatarUrl)
            == Next(Next(w, Remove(y)), Store(Merged(v, Lower(r.newEmail), w.now, avatarUrl)))
  {
    var w2 := BeforeSecond(w0, r, Current, rest1, rest2, newId, avatarUrl);
    AcceptedIsAnotherAddress(w0, r, newId);
    BetweenTheClicks(w0, r, rest1, rest2, newId, avatarUrl);
    NewLinkLeadsThere(w2, w0.users, w0.users[r.user.id], r, w0.now, newId, avatarUrl);
    LinksStay(w0.users[r.user.id], r, w0.now, Current, true);
    NewSideMerges(w2, v, Lower(r.newEmail), newId, y, avatarUrl);
  }

  lemma HolderLeavesOthers(w: World, id: nat, email: string, newId: nat)
    requires id in w.users && newId != id
    ensures id in WithHolder(w, email, newId).users && WithHolder(w, email, newId).users[id] == w.users[id]
  {
  }

  lemma NewSideMerges(w: World, v: User, email: string, newId: nat, y: nat, avatarUrl: string -> string)
    requires v.id in w.users && w.users[v.id].id == v.id && w.users[v.id].newEmailPending == Some(email)
             && newId != v.id
    requires BothVerified(v) && v.newEmailPending == Some(email) && Lower(email) == email && Normal(email)
    requires var m := NewSideMarked(w, v.id, email, newId);
             Agrees(m) && v.id in m.users && m.users[v.id] == v && y in m.users && y != v.id
               && m.users[y].email == email
    ensures var m := NewSideMarked(w, v.id, email, newId);
            AfterVerify(w, v.id, New, newId, avatarUrl)
              == Next(Next(m, Remove(y)), Store(Merged(v, email, m.now, avatarUrl)))
  {
    var h := WithHolder(w, email, newId);
    FinalizeIsMerge(NewSideMarked(w, v.id, email, newId), v, email, y, avatarUrl);
    HolderLeavesOthers(w, v.id, email, newId);
    assert Verified(h.users[v.id], New) == v;
    assert AfterMark(h, v.id, New, avatarUrl) == AfterFinalize(NewSideMarked(w, v.id, email, newId), v, avatarUrl);
  }

  // ---------------------------------------------------------------------------------------
  // What becomes of the entry left pending
  // ---------------------------------------------------------------------------------------

  /** A migration to another address leaves it pending. */
  lemma {:induction false} OtherMigrationsLeaveIt(history: seq<HistoryEntry>, email: string, other: string,
                                                  otherwise: HistoryEntry)
    requires StillPending(history, email) && other != email
    ensures StillPending(Settled(history, other, otherwise), email)
    decreases |history|
  {
    var i :| 0 <= i < |history| && PendingTo(history[i], email);
    var settled := Settled(history, other, otherwise);
    if i == 0 {
      assert settled[0] == history[0];
    } else if PendingTo(history[0], other) {
      assert settled[i] == history[i];
    } else {
      assert history[1..][i - 1] == history[i];
      OtherMigrationsLeaveIt(history[1..], email, other, otherwise);
      var j :| 0 <= j < |Settled(history[1..], other, otherwise)|
        && PendingTo(Settled(history[1..], other, otherwise)[j], email);
      assert settled[j + 1] == Settled(history[1..], other, otherwise)[j];
    }
  }

  /** One migration with its two clicks. */
  datatype Trip = Trip(r: Request, first: Side, rest1: seq<Act>, rest2: seq<Act>, newId: nat)

  ghost function AfterTrip(w: World, t: Trip, avatarUrl: string -> string): World {
    Migrate(w, t.r, t.first, t.rest1, t.rest2, t.newId, avatarUrl)
  }

  ghost predicate Completes(w: World, t: Trip, avatarUrl: string -> string) {
    && Acceptable(w, t.r, t.newId) && Idle(t.rest1) && Idle(t.rest2) && FreshTokens(w.users, t.r)
    && ClickedInTime(w, t.r, t.first, t.rest1, t.rest2, t.newId, avatarUrl)
  }

  lemma TripMoves(w: World, t: Trip, avatarUrl: string -> string)
    requires Completes(w, t, avatarUrl)
    ensures var w' := AfterTrip(w, t, avatarUrl);
            && Agrees(w') && t.r.user.id in w.users
            && w'.users == MigratedTable(w.users, t.r.user.id, Lower(t.r.newEmail), w.now, w'.now, avatarUrl)
  {
    MigrationMovesTheAccount(w, t.r, t.first, t.rest1, t.rest2, t.newId, avatarUrl);
  }

  /** A login finishes a migration to `email` whose entry is pending, the account moves on to another address, and
      later back to `email`. */
  ghost predicate MovesAwayAndBack(w: World, email: string, idle1: seq<Act>, away: Trip, idle2: seq<Act>, again: Trip,
                                   avatarUrl: string -> string) {
    && Agrees(w) && PendingNormal(w.users) && Normal(Lower(email)) && Idle(idle1) && Idle(idle2)
    && Finishing(w, email) == Some(away.r.user.id)
    && StillPending(w.users[away.r.user.id].migrationHistory, Lower(email))
    && away.r.user.id == again.r.user.id && Lower(away.r.newEmail) != Lower(email) == Lower(again.r.newEmail)
    && Completes(Run(AfterLogin(w, email), idle1), away, avatarUrl)
    && Completes(Run(AfterTrip(Run(AfterLogin(w, email), idle1), away, avatarUrl), idle2), again, avatarUrl)
  }

  /** Such a run ends with its newest entry pending although it succeeded. */
  lemma LoginLeavesNewestEntryPending(w: World, email: string, idle1: seq<Act>, away: Trip, idle2: seq<Act>,
                                      again: Trip, avatarUrl: string -> string)
    requires MovesAwayAndBack(w, email, idle1, away, idle2, again, avatarUrl)
    ensures var w1 := Run(AfterLogin(w, email), idle1);
            var w3 := AfterTrip(Run(AfterTrip(w1, away, avatarUrl), idle2), again, avatarUrl);
            NewestPending(w3.users, again.r.user.id, Lower(email))
  {
    var w1 := Run(AfterLogin(w, email), idle1);
    LoginKeepsAgreement(w, email);
    IdleKeepsTable(AfterLogin(w, email), idle1);
    assert w1.users[away.r.user.id].migrationHistory == w.users[away.r.user.id].migrationHistory;
    AwayAndAgain(w1, Lower(email), away, idle2, again, avatarUrl);
  }

  lemma AwayAndAgain(w1: World, email: string, away: Trip, idle: seq<Act>, again: Trip, avatarUrl: string -> string)
    requires Completes(w1, away, avatarUrl) && Idle(idle)
             && StillPending(w1.users[away.r.user.id].migrationHistory, email)
    requires Lower(away.r.newEmail) != email == Lower(again.r.newEmail) && again.r.user.id == away.r.user.id
    requires Completes(Run(AfterTrip(w1, away, avatarUrl), idle), again, avatarUrl)
    ensures var w3 := AfterTrip(Run(AfterTrip(w1, away, avatarUrl), idle), again, avatarUrl);
            NewestPending(w3.users, again.r.user.id, email)
  {
    var wA := AfterTrip(w1, away, avatarUrl);
    var w2 := Run(wA, idle);
    TripMoves(w1, away, avatarUrl);
    IdleKeepsTable(wA, idle);
    MigratedLeavesIt(w1.users[away.r.user.id], email, Lower(away.r.newEmail), w1.now, wA.now, avatarUrl);
    OlderEntryKeepsNewestPending(w2, again.r, again.first, again.rest1, again.rest2, again.newId, avatarUrl);
  }

  lemma MigratedLeavesIt(u: User, email: string, other: string, t0: nat, t1: nat, avatarUrl: string -> string)
    requires StillPending(u.migrationHistory, email) && other != email
    ensures StillPending(Migrated(u, other, t0, t1, avatarUrl).migrationHistory, email)
  {
    var h := u.migrationHistory + [HistoryEntry(u.email, other, Pending, true, true)];
    var i :| 0 <= i < |u.migrationHistory| && PendingTo(u.migrationHistory[i], email);
    assert h[i] == u.migrationHistory[i];
    OtherMigrationsLeaveIt(h, email, other, Success(u.email, other));
  }
}
