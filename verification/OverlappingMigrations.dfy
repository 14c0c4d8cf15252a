/** Migrations that overlap: two requests of one account, two accounts for one address, and a holder that
    leaves in between. */
module OverlappingMigrations {
  import opened Wrappers
  import opened Emails
  import opened Users
  import opened IndexRuns
  import opened Migration
  import opened MigrationRuns
  import opened AccountMoves

  // ---------------------------------------------------------------------------------------
  // Two requests of one account
  // ---------------------------------------------------------------------------------------

  /** The guard against a second pending migration looks at the caller's document. Whatever happens between reading
      it and deciding the request, an accepted request finds none in the table if and only if no other request of
      the account was accepted in between and is still to be completed. */
  lemma GuardHoldsIffNoneOutstanding(w: World, r: Request, earlier: iset<User>, moves: seq<Move>,
                                     avatarUrl: string -> string)
    requires Filed(w.users) && r.user.id in w.users && w.users[r.user.id] == r.user
    requires Judge(MadeAll(w, r.user.id, earlier, moves, avatarUrl), r).Accepted?
    ensures var w' := MadeAll(w, r.user.id, earlier, moves, avatarUrl);
            && r.user.id in w'.users
            && (!Present(w'.users[r.user.id].newEmailPending)
                <==> !Outstanding(w, r.user.id, earlier, moves, avatarUrl))
  {
    PendingIffOutstanding(w, r.user.id, earlier, moves, avatarUrl);
  }

  /** While other users are idle, nobody comes to hold an address or leaves it because a request is stored. */
  lemma RequestsChangeNoHolder(w: World, r: Request, idle: seq<Act>, email: string)
    requires Agrees(w) && Judge(w, r).Accepted? && Idle(idle) && Normal(email)
    ensures r.user.id in w.users
    ensures var w' := Run(AfterInitiate(w, r), idle);
            && w'.users == w.users[r.user.id := Initiated(w.users[r.user.id], r, w.now)]
            && Existing(w', email) == Existing(w, email) && Agrees(w') && w.now <= w'.now
  {
    var w' := Run(AfterInitiate(w, r), idle);
    InitiateStage(w, r);
    IdleStage(AfterInitiate(w, r), w.users, Initiated(w.users[r.user.id], r, w.now), idle);
    ExistingIsScan(w, email);
    ExistingIsScan(w', email);
    forall y | y in w.users ensures y in w'.users && w'.users[y].email == w.users[y].email {
    }
  }

  /** Two requests made with one document are both accepted, whatever time passes between them. */
  lemma BothRequestsAreAccepted(w: World, r1: Request, idle: seq<Act>, r2: Request)
    requires Agrees(w) && Judge(w, r1).Accepted? && Judge(w, r2).Accepted? && r1.user == r2.user
    requires Idle(idle) && Normal(Lower(r2.newEmail))
    ensures Judge(Run(AfterInitiate(w, r1), idle), r2).Accepted?
  {
    var w' := Run(AfterInitiate(w, r1), idle);
    RequestsChangeNoHolder(w, r1, idle, Lower(r2.newEmail));
    LaterRequestIsAccepted(w, w', r2);
  }

  lemma LaterRequestIsAccepted(w: World, w': World, r: Request)
    requires Judge(w, r).Accepted? && w.now <= w'.now && w.users.Keys <= w'.users.Keys
    requires Existing(w', Lower(r.newEmail)) == Existing(w, Lower(r.newEmail))
    ensures Judge(w', r).Accepted?
  {
  }

  /** If they are for one address, the account moves there with the links of the second, and its newest history
      entry stays pending. */
  lemma OverlappingRequestsLeaveNewestPending(w: World, r1: Request, idle: seq<Act>, r2: Request, first: Side,
                                              rest1: seq<Act>, rest2: seq<Act>, newId: nat, avatarUrl: string -> string)
    requires Agrees(w) && Judge(w, r1).Accepted? && Judge(w, r2).Accepted? && r1.user == r2.user
    requires Lower(r1.newEmail) == Lower(r2.newEmail) && Normal(Lower(r2.newEmail)) && newId !in w.users
    requires Idle(idle) && Idle(rest1) && Idle(rest2)
    requires var w2 := Run(AfterInitiate(w, r1), idle);
             FreshTokens(w2.users, r2) && ClickedInTime(w2, r2, first, rest1, rest2, newId, avatarUrl)
    ensures var w3 := Migrate(Run(AfterInitiate(w, r1), idle), r2, first, rest1, rest2, newId, avatarUrl);
            NewestPending(w3.users, r2.user.id, Lower(r2.newEmail))
  {
    SecondRequestIsAcceptable(w, r1, idle, r2, newId);
    OlderEntryKeepsNewestPending(Run(AfterInitiate(w, r1), idle), r2, first, rest1, rest2, newId, avatarUrl);
  }

  lemma SecondRequestIsAcceptable(w: World, r1: Request, idle: seq<Act>, r2: Request, newId: nat)
    requires Agrees(w) && Judge(w, r1).Accepted? && Judge(w, r2).Accepted? && r1.user == r2.user
    requires Lower(r1.newEmail) == Lower(r2.newEmail) && Normal(Lower(r2.newEmail)) && newId !in w.users && Idle(idle)
    ensures var w2 := Run(AfterInitiate(w, r1), idle);
            Acceptable(w2, r2, newId) && StillPending(w2.users[r2.user.id].migrationHistory, Lower(r2.newEmail))
  {
    BothRequestsAreAccepted(w, r1, idle, r2);
    RequestsChangeNoHolder(w, r1, idle, Lower(r2.newEmail));
    RequestIsPending(w.users[r2.user.id], r1, w.now);
  }

  lemma RequestIsPending(u: User, r: Request, now: nat)
    ensures StillPending(Initiated(u, r, now).migrationHistory, Lower(r.newEmail))
  {
    assert PendingTo(Initiated(u, r, now).migrationHistory[|u.migrationHistory|], Lower(r.newEmail));
  }

  // ---------------------------------------------------------------------------------------
  // Two accounts for one address
  // ---------------------------------------------------------------------------------------

  /** For an address nobody holds, a confirmation is never asked for. */
  lemma FreeAddressNeedsNoConfirmation(w: World, r: Request)
    requires Agrees(w) && Normal(Lower(r.newEmail)) && !Taken(w.users, Lower(r.newEmail))
    ensures Judge(w, r) == Judge(w, r.(confirmOverride := !r.confirmOverride))
  {
    ExistingIsScan(w, Lower(r.newEmail));
  }

  /** What is left in the table when another account has moved. */
  lemma RowsAfterMove(w1: World, ra: Request, w2: World, avatarUrl: string -> string)
    requires ra.user.id in w1.users && AccountMoved(w1, ra, w2, avatarUrl)
    ensures var a := ra.user.id;
            && a in w2.users && w2.users[a].email == Lower(ra.newEmail)
            && w2.users[a].currentEmailToken.None? && w2.users[a].newEmailToken.None?
            && (forall x :: x in w2.users && x != a ==> x in w1.users && w2.users[x] == w1.users[x])
            && (forall x :: x in w1.users && w1.users[x].email != Lower(ra.newEmail) ==> x in w2.users)
  {
  }

  lemma LatecomerBase(users: Table, a: nat, v: User, after: Table, email: string)
    requires a in users && v.id in users && a != v.id && users[v.id].email == v.email && v.email != email
    requires a in after && after[a].email == email
    requires forall x :: x in after && x != a ==> x in users && after[x] == users[v.id := v][x]
    requires forall x :: x in users && users[v.id := v][x].email != email ==> x in after
    ensures var base := after[v.id := users[v.id]];
            && v.id in after && base[v.id := v] == after && base.Keys <= users.Keys && base[a] == after[a]
            && forall x :: x in base && x != a ==> base[x] == users[x]
  {
    assert users[v.id := v][v.id] == v;
  }

  lemma LatecomerIsFresh(users: Table, base: Table, a: nat, r: Request)
    requires FreshTokens(users, r) && a in base && base.Keys <= users.Keys
    requires base[a].currentEmailToken.None? && base[a].newEmailToken.None?
    requires forall x :: x in base && x != a ==> base[x] == users[x]
    ensures FreshTokens(base, r)
  {
  }

  /** The rows beside the account, whose row is now `v`, when another has completed its migration to the address. */
  lemma OtherHasMoved(users: Table, rb: Request, ra: Request, v: User, w1: World, w2: World,
                      avatarUrl: string -> string)
    requires v.id in users && users[v.id].email == v.email != Lower(rb.newEmail) && FreshTokens(users, rb)
    requires ra.user.id in users && ra.user.id != v.id && Lower(ra.newEmail) == Lower(rb.newEmail)
    requires w1.users == users[v.id := v] && AccountMoved(w1, ra, w2, avatarUrl) && Agrees(w2)
    ensures var base := w2.users[v.id := users[v.id]];
            && StandsAs(w2, base, v) && FreshTokens(base, rb) && base.Keys <= users.Keys
            && ra.user.id in w2.users && w2.users[ra.user.id].email == base[ra.user.id].email == Lower(rb.newEmail)
  {
    RowsAfterMove(w1, ra, w2, avatarUrl);
    LatecomerBase(users, ra.user.id, v, w2.users, Lower(rb.newEmail));
    LatecomerIsFresh(users, w2.users[v.id := users[v.id]], ra.user.id, rb);
  }

  /** Both links of a request are clicked, with other users idle, on a table that is not the one it was made on. */
  lemma LaterClicksFinish(w: World, base: Table, r: Request, u: User, t0: nat, first: Side, idle1: seq<Act>,
                          idle2: seq<Act>, newId: nat, avatarUrl: string -> string)
    requires StandsAs(w, base, Initiated(u, r, t0)) && FreshTokens(base, r) && Idle(idle1) && Idle(idle2)
    requires newId !in base && u.id == r.user.id && r.newEmail != "" && u.email != Lower(r.newEmail)
    requires Normal(Lower(r.newEmail)) && Lower(Lower(r.newEmail)) == Lower(r.newEmail)
    requires Run(Click(Run(w, idle1), r, first, newId, avatarUrl), idle2).now < t0 + TOKEN_LIFE
    ensures var w4 := Click(Run(Click(Run(w, idle1), r, first, newId, avatarUrl), idle2), r, Other(first), newId,
                            avatarUrl);
            var m := Migrated(u, Lower(r.newEmail), t0, w4.now, avatarUrl);
            w4.users == WithoutHolder(base, Lower(r.newEmail))[r.user.id := m]
  {
    var w1, email := Run(w, idle1), Lower(r.newEmail);
    var w2 := Click(w1, r, first, newId, avatarUrl);
    var held := if first.New? then WithHeld(base, email, Placeholder(newId, email)) else base;
    IdleStage(w, base, Initiated(u, r, t0), idle1);
    ClickIsVerification(w1, base, Initiated(u, r, t0), r, first, t0, newId, avatarUrl);
    if w1.now < t0 + TOKEN_LIFE {
      FirstStage(w1, base, r, t0, u, first, newId, avatarUrl);
      HeldKeepsFresh(base, email, newId, r);
      HalfVerifiedIs(u, r, t0, first);
      IdleStage(w2, held, HalfVerified(u, r, t0, first), idle2);
      ClickIsVerification(Run(w2, idle2), held, HalfVerified(u, r, t0, first), r, Other(first), t0, newId, avatarUrl);
      SecondStage(Run(w2, idle2), base, r, t0, u, first, newId, avatarUrl);
    } else {
      IdleStage(w2, base, Initiated(u, r, t0), idle2);
      assert false;
    }
  }

  /** Two accounts ask for one address while it is free, or one of them before the other. The first to finalise
      moves there; the second deletes it, though it need never have confirmed to override anybody. */
  lemma LatecomerDeletesTheFirst(w0: World, rb: Request, ra: Request, firstA: Side, restA1: seq<Act>, restA2: seq<Act>,
                                 newA: nat,
                                 firstB: Side, idle1: seq<Act>, idle2: seq<Act>, newB: nat, avatarUrl: string -> string)
    requires Acceptable(w0, rb, newB) && FreshTokens(w0.users, rb) && ra.user.id != rb.user.id
    requires Lower(ra.newEmail) == Lower(rb.newEmail) && Idle(restA1) && Idle(restA2) && Idle(idle1) && Idle(idle2)
    requires var w1 := AfterInitiate(w0, rb);
             && Acceptable(w1, ra, newA) && FreshTokens(w1.users, ra)
             && ClickedInTime(w1, ra, firstA, restA1, restA2, newA, avatarUrl)
    requires var w2 := Migrate(AfterInitiate(w0, rb), ra, firstA, restA1, restA2, newA, avatarUrl);
             Run(Click(Run(w2, idle1), rb, firstB, newB, avatarUrl), idle2).now < w0.now + TOKEN_LIFE
    ensures var w2 := Migrate(AfterInitiate(w0, rb), ra, firstA, restA1, restA2, newA, avatarUrl);
            var w4 := Click(Run(Click(Run(w2, idle1), rb, firstB, newB, avatarUrl), idle2), rb, Other(firstB), newB,
                            avatarUrl);
            && ra.user.id in w2.users && w2.users[ra.user.id].email == Lower(rb.newEmail)
            && ra.user.id !in w4.users
            && rb.user.id in w4.users && w4.users[rb.user.id].email == Lower(rb.newEmail)
  {
    var w1 := AfterInitiate(w0, rb);
    var w2 := Migrate(w1, ra, firstA, restA1, restA2, newA, avatarUrl);
    var ub := w0.users[rb.user.id];
    AcceptedIsAnotherAddress(w0, rb, newB);
    InitiateStage(w0, rb);
    MigrationMovesTheAccount(w1, ra, firstA, restA1, restA2, newA, avatarUrl);
    OtherHasMoved(w0.users, rb, ra, Initiated(ub, rb, w0.now), w1, w2, avatarUrl);
    LaterClicksFinish(w2, w2.users[rb.user.id := ub], rb, ub, w0.now, firstB, idle1, idle2, newB, avatarUrl);
  }

  /** Who else holds the address a finalisation is about. */
  ghost predicate OtherHolder(w: World, id: nat, email: string, y: nat) {
    y in w.users && y != id && w.users[y].email == email
  }

  lemma KeysAfterFinalize(w: World, user: User, avatarUrl: string -> string)
    requires FinalizeVerdict(w, user).Finalized? && w.users[user.id].id == user.id
    ensures var existing := Existing(w, Lower(w.users[user.id].newEmailPending.value));
            AfterFinalize(w, user, avatarUrl).users.Keys
            == w.users.Keys - (if existing.Some? && existing.value != user.id then {existing.value} else {})
  {
  }

  /** A finalisation deletes exactly the other holder of the address, if there is one. */
  lemma FinalizationDeletesTheHolder(w: World, user: User, avatarUrl: string -> string)
    requires Agrees(w) && PendingNormal(w.users) && FinalizeVerdict(w, user).Finalized?
    ensures var email := Lower(w.users[user.id].newEmailPending.value);
            forall y :: y in w.users ==>
                          (y !in AfterFinalize(w, user, avatarUrl).users <==> OtherHolder(w, user.id, email, y))
  {
    assert w.users[user.id].id == user.id;
    ExistingIsScan(w, Lower(w.users[user.id].newEmailPending.value));
    KeysAfterFinalize(w, user, avatarUrl);
  }

  /** The caller was warned about the account when its request was accepted, and confirmed to override it. */
  ghost predicate Confirmed(w0: World, r: Request, y: nat) {
    r.confirmOverride && OtherHolder(w0, r.user.id, Lower(r.newEmail), y)
  }

  /** Everything a finalisation deletes was confirmed at the request or is a placeholder, if and only if whoever
      else holds the address now is a placeholder or held it when the request was accepted. */
  lemma DeletionIsConfirmedIff(w0: World, r: Request, w: World, user: User, avatarUrl: string -> string)
    requires Agrees(w0) && Judge(w0, r).Accepted? && Normal(Lower(r.newEmail))
    requires Agrees(w) && PendingNormal(w.users) && FinalizeVerdict(w, user).Finalized?
    requires user.id == r.user.id && Lower(w.users[user.id].newEmailPending.value) == Lower(r.newEmail)
    ensures (forall y :: y in w.users && y !in AfterFinalize(w, user, avatarUrl).users
                         ==> Confirmed(w0, r, y) || w.users[y] == Placeholder(y, Lower(r.newEmail)))
       <==> (forall y :: OtherHolder(w, user.id, Lower(r.newEmail), y)
                         ==> OtherHolder(w0, r.user.id, Lower(r.newEmail), y)
                             || w.users[y] == Placeholder(y, Lower(r.newEmail)))
  {
    AcceptedIsConfirmed(w0, r);
    FinalizationDeletesTheHolder(w, user, avatarUrl);
  }

  /** Whoever else held the address when a request was accepted was confirmed. */
  lemma AcceptedIsConfirmed(w: World, r: Request)
    requires Agrees(w) && Judge(w, r).Accepted? && Normal(Lower(r.newEmail))
    ensures forall y :: OtherHolder(w, r.user.id, Lower(r.newEmail), y) ==> Confirmed(w, r, y)
  {
    ExistingIsScan(w, Lower(r.newEmail));
  }

  // ---------------------------------------------------------------------------------------
  // A holder that leaves
  // ---------------------------------------------------------------------------------------

  lemma WithoutOneStands(w: World, base: Table, v: User, y: nat, r: Request)
    requires StandsAs(w, base, v) && FreshTokens(base, r) && y != v.id
    ensures StandsAs(Next(w, Remove(y)), Without(base, y), v) && FreshTokens(Without(base, y), r)
  {
    ShrinkingKeepsAgreement(w, Remove(y));
  }

  /** The new link is clicked first, the holder of the address goes, and the current link is clicked, within a day of
      the request: the account is renamed, and keeps its token version. */
  lemma HolderGoneKeepsVersion(w0: World, r: Request, rest1: seq<Act>, rest2: seq<Act>, newId: nat,
                               avatarUrl: string -> string) returns (y: nat)
    requires Acceptable(w0, r, newId) && Idle(rest1) && Idle(rest2) && FreshTokens(w0.users, r)
    requires ClickedInTime(w0, r, New, rest1, rest2, newId, avatarUrl)
    ensures var w2 := BeforeSecond(w0, r, New, rest1, rest2, newId, avatarUrl);
            var w4 := Click(Next(w2, Remove(y)), r, Current, newId, avatarUrl);
            && OtherHolder(w2, r.user.id, Lower(r.newEmail), y)
            && r.user.id in w4.users && w4.users[r.user.id].email == Lower(r.newEmail)
            && w4.users[r.user.id].tokenVersion == w0.users[r.user.id].tokenVersion
  {
    var u, email := w0.users[r.user.id], Lower(r.newEmail);
    var w2, half := BeforeSecond(w0, r, New, rest1, rest2, newId, avatarUrl), HalfVerified(u, r, w0.now, New);
    var base := BaseAfter(w0.users, r, New, true, newId);
    AcceptedIsAnotherAddress(w0, r, newId);
    BeforeFirstStands(w0, r, rest1, newId);
    BeforeSecondStands(w0, r, New, rest1, rest2, newId, avatarUrl);
    LinksStay(u, r, w0.now, New, true);
    y := SomebodyHolds(w0.users, email, Placeholder(newId, email), half);
    ClickAfterHolderGone(w2, base, u, r, w0.now, y, newId, avatarUrl);
  }

  lemma ClickAfterHolderGone(w: World, base: Table, u: User, r: Request, t0: nat, y: nat, newId: nat,
                             avatarUrl: string -> string)
    requires StandsAs(w, base, HalfVerified(u, r, t0, New)) && FreshTokens(base, r) && w.now < t0 + TOKEN_LIFE
    requires OtherHolder(w, u.id, Lower(r.newEmail), y)
    requires r.newEmail != "" && Normal(Lower(r.newEmail)) && Lower(Lower(r.newEmail)) == Lower(r.newEmail)
    ensures var w' := Click(Next(w, Remove(y)), r, Current, newId, avatarUrl);
            u.id in w'.users && w'.users[u.id].email == Lower(r.newEmail)
              && w'.users[u.id].tokenVersion == u.tokenVersion
  {
    var half, email := HalfVerified(u, r, t0, New), Lower(r.newEmail);
    LinksStay(u, r, t0, New, true);
    assert half.tokenVersion == u.tokenVersion;
    WithoutOneStands(w, base, half, y, r);
    ClickIsVerification(Next(w, Remove(y)), Without(base, y), half, r, Current, t0, newId, avatarUrl);
    NobodyLeft(w, u.id, y, email);
    DocumentsMeet(u, r, t0, w.now, New, avatarUrl);
    LoneFinalization(Next(w, Remove(y)), half, email, avatarUrl);
  }

  lemma NobodyLeft(w: World, id: nat, y: nat, email: string)
    requires Agrees(w) && OtherHolder(w, id, email, y)
    ensures forall x :: x in Next(w, Remove(y)).users ==> w.users[x].email != email
  {
  }

  lemma LoneFinalization(w: World, half: User, email: string, avatarUrl: string -> string)
    requires Agrees(w) && half.id in w.users && w.users[half.id] == half && Normal(email) && Lower(email) == email
    requires half.newEmailPending == Some(email) && BothVerified(Verified(half, Current))
    requires forall y :: y in w.users ==> w.users[y].email != email
    ensures var w' := AfterMark(w, half.id, Current, avatarUrl);
            half.id in w'.users && w'.users[half.id].email == email
              && w'.users[half.id].tokenVersion == half.tokenVersion
  {
    var v := Verified(half, Current);
    var w' := Next(w, Touch(v));
    TouchKeepsAgreement(w, v);
    ExistingIsScan(w', email);
    assert AfterFinalize(w', v, avatarUrl) == Next(w', Store(Moved(v, email, w'.now, avatarUrl)));
  }
}
