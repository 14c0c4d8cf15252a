/** Runs from empty tables in which migrations overlap. */
module OverlappingRuns {
  import opened Emails
  import opened Users
  import opened IndexRuns
  import opened Migration
  import opened MigrationRuns
  import opened LoginFinalization
  import opened MovedBack
  import opened OverlappingMigrations

  lemma ClickedAtOnce(w: World, r: Request, now: seq<Act>, newId: nat, avatarUrl: string -> string)
    requires now == []
    ensures ClickedInTime(w, r, Current, now, now, newId, avatarUrl)
    ensures Migrate(w, r, Current, now, now, newId, avatarUrl).now == w.now
  {
    var w2 := BeforeSecond(w, r, Current, now, now, newId, avatarUrl);
    ClickingTakesNoTime(AfterInitiate(w, r), r, Current, newId, avatarUrl);
    ClickingTakesNoTime(w2, r, New, newId, avatarUrl);
  }

  // ---------------------------------------------------------------------------------------
  // Two requests of one account
  // ---------------------------------------------------------------------------------------

  function AskedAgain(r: Request): Request {
    r.(currentToken := "another", newToken := "renewed")
  }

  lemma AskedAgainIsFresh(w: World, u: User, r: Request)
    requires Free(w, u) && r == AtOnce(u, r.newEmail).r && Judge(w, r).Accepted?
    ensures FreshTokens(AfterInitiate(w, r).users, AskedAgain(r))
  {
  }

  /** The only account asks twice with the same document and clicks the second links at once. */
  lemma OverlappingRequestsHappen(first: string, email: string, t: Trip, avatarUrl: string -> string)
    requires Canonical(first) && Canonical(email) && first != email && t == AtOnce(Account(first), email)
    ensures var w := Created(first);
            && Judge(w, t.r).Accepted? && Judge(AfterInitiate(w, t.r), AskedAgain(t.r)).Accepted?
            && NewestPending(Migrate(AfterInitiate(w, t.r), AskedAgain(t.r), Current, t.rest1, t.rest1, t.newId,
                                     avatarUrl).users, 0, email)
  {
    var w, u, r2 := Created(first), Account(first), AskedAgain(t.r);
    CreatedIsFree(first);
    FreeAccountIsAcceptable(w, u, email);
    AskedAgainIsFresh(w, u, t.r);
    CanonicalIsLower(email);
    BothRequestsAreAccepted(w, t.r, t.rest1, r2);
    ClickedAtOnce(AfterInitiate(w, t.r), r2, t.rest1, t.newId, avatarUrl);
    OverlappingRequestsLeaveNewestPending(w, t.r, t.rest1, r2, Current, t.rest1, t.rest1, t.newId, avatarUrl);
  }

  // ---------------------------------------------------------------------------------------
  // Two accounts for one address
  // ---------------------------------------------------------------------------------------

  predicate TokensApart(r: Request, s: Request) {
    r.currentToken != s.currentToken && r.newToken != s.newToken
  }

  lemma OtherIsStillAcceptable(w: World, rb: Request, ra: Request, now: seq<Act>, newId: nat)
    requires Acceptable(w, rb, newId) && Acceptable(w, ra, newId) && ra.user.id != rb.user.id && now == []
    requires FreshTokens(w.users, ra) && TokensApart(ra, rb)
    ensures Acceptable(AfterInitiate(w, rb), ra, newId) && FreshTokens(AfterInitiate(w, rb).users, ra)
  {
    RequestsChangeNoHolder(w, rb, now, Lower(ra.newEmail));
    LaterRequestIsAccepted(w, AfterInitiate(w, rb), ra);
    assert w.users[rb.user.id].id == rb.user.id;
  }

  /** Two requests of two accounts for one address, both acceptable, and all four links clicked at once. */
  lemma LatecomerDeletesAtOnce(w: World, rb: Request, ra: Request, now: seq<Act>, newId: nat,
                               avatarUrl: string -> string)
    requires Acceptable(w, rb, newId) && Acceptable(w, ra, newId) && ra.user.id != rb.user.id && now == []
    requires FreshTokens(w.users, ra) && FreshTokens(w.users, rb) && TokensApart(ra, rb)
    requires Lower(ra.newEmail) == Lower(rb.newEmail)
    ensures var w2 := Migrate(AfterInitiate(w, rb), ra, Current, now, now, newId, avatarUrl);
            var w4 := Click(Run(Click(Run(w2, now), rb, Current, newId, avatarUrl), now), rb, New, newId, avatarUrl);
            && ra.user.id in w2.users && w2.users[ra.user.id].email == Lower(rb.newEmail)
            && ra.user.id !in w4.users
            && rb.user.id in w4.users && w4.users[rb.user.id].email == Lower(rb.newEmail)
  {
    var w1 := AfterInitiate(w, rb);
    var w2 := Migrate(w1, ra, Current, now, now, newId, avatarUrl);
    OtherIsStillAcceptable(w, rb, ra, now, newId);
    ClickedAtOnce(w1, ra, now, newId, avatarUrl);
    ClickingTakesNoTime(w2, rb, Current, newId, avatarUrl);
    LatecomerDeletesTheFirst(w, rb, ra, Current, now, now, newId, Current, now, now, newId, avatarUrl);
  }

  function SecondAccount(email: string): User {
    Account(email).(id := 1)
  }

  /** The tables after two accounts have been created. */
  function CreatedTwo(first: string, second: string): World {
    Next(Created(first), Store(SecondAccount(second)))
  }

  lemma CreatedTwoAgrees(first: string, second: string)
    requires Canonical(first) && Canonical(second) && first != second
    ensures var w := CreatedTwo(first, second);
            Agrees(w) && w.users == map[0 := Account(first), 1 := SecondAccount(second)] && w.now == 0
  {
    CreatedIsFree(first);
    PlaceholderKeepsProper(Created(first).users, SecondAccount(second));
    StoreKeepsAgreement(Created(first), SecondAccount(second));
  }

  /** A new account without a migration is accepted for any address nobody holds. */
  lemma NewAccountIsAcceptable(w: World, u: User, email: string, newId: nat)
    requires Agrees(w) && u.id in w.users && newId !in w.users && u.newEmailPending.None? && u.previousEmail.None?
             && u.lastMigrationDate.None?
    requires Canonical(email) && forall x :: x in w.users ==> w.users[x].email != email
    ensures Acceptable(w, AtOnce(u, email).r, newId) && Acceptable(w, AskedAgain(AtOnce(u, email).r), newId)
  {
    CanonicalIsLower(email);
    ExistingIsScan(w, email);
  }

  lemma TwoWithoutTokens(users: Table, a: User, b: User, r: Request)
    requires users == map[0 := a, 1 := b] && a.currentEmailToken.None? && a.newEmailToken.None?
             && b.currentEmailToken.None? && b.newEmailToken.None?
    ensures FreshTokens(users, r)
  {
  }

  lemma BothAreAcceptable(first: string, second: string, email: string, ra: Request, rb: Request)
    requires Canonical(first) && Canonical(second) && Canonical(email) && first != second && email != first
             && email != second
    requires ra == AtOnce(Account(first), email).r && rb == AskedAgain(AtOnce(SecondAccount(second), email).r)
    ensures var w := CreatedTwo(first, second);
            Acceptable(w, ra, 2) && Acceptable(w, rb, 2) && FreshTokens(w.users, ra) && FreshTokens(w.users, rb)
  {
    var w := CreatedTwo(first, second);
    CreatedTwoAgrees(first, second);
    TwoWithoutTokens(w.users, Account(first), SecondAccount(second), ra);
    TwoWithoutTokens(w.users, Account(first), SecondAccount(second), rb);
    NewAccountIsAcceptable(w, Account(first), email, 2);
    NewAccountIsAcceptable(w, SecondAccount(second), email, 2);
  }

  /** Two accounts are created and ask for one free address, neither confirming an override. The first to click its
      links moves there, and the second deletes it. */
  lemma LatecomerHappens(first: string, second: string, email: string, ra: Request, rb: Request, now: seq<Act>,
                         avatarUrl: string -> string)
    requires Canonical(first) && Canonical(second) && Canonical(email) && first != second && email != first
             && email != second
    requires ra == AtOnce(Account(first), email).r && rb == AskedAgain(AtOnce(SecondAccount(second), email).r)
             && now == []
    ensures var w := CreatedTwo(first, second);
            var w2 := Migrate(AfterInitiate(w, rb), ra, Current, now, now, 2, avatarUrl);
            var w4 := Click(Run(Click(Run(w2, now), rb, Current, 2, avatarUrl), now), rb, New, 2, avatarUrl);
            && !ra.confirmOverride && !rb.confirmOverride
            && Judge(w, rb).Accepted? && Judge(AfterInitiate(w, rb), ra).Accepted?
            && 0 in w2.users && w2.users[0].email == email && 0 !in w4.users && 1 in w4.users
            && w4.users[1].email == email
  {
    var w := CreatedTwo(first, second);
    BothAreAcceptable(first, second, email, ra, rb);
    CanonicalIsLower(email);
    OtherIsStillAcceptable(w, rb, ra, now, 2);
    LatecomerDeletesAtOnce(w, rb, ra, now, 2, avatarUrl);
  }
}
