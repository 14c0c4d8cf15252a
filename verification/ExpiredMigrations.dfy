/** Migrations whose links have expired: what an account can still do about a pending address. */
module ExpiredMigrations {
  import opened Wrappers
  import opened Emails
  import opened Users
  import opened IdentityIndex
  import opened IndexRuns
  import opened Migration
  import opened MigrationRuns
  import opened LoginFinalization
  import opened MovedBack
  import opened AccountMoves

  ghost predicate StillToMove(w: World, id: nat) {
    id in w.users && Present(w.users[id].newEmailPending)
  }

  // ---------------------------------------------------------------------------------------
  // Being stuck
  // ---------------------------------------------------------------------------------------

  predicate IsVerified(u: User, side: Side) {
    (if side.Current? then u.currentEmailVerified else u.newEmailVerified) == Some(true)
  }

  function LinkToken(u: User, side: Side): Option<string> {
    if side.Current? then u.currentEmailToken else u.newEmailToken
  }

  /** The links have not expired, and the sides not yet verified have one. */
  predicate LinksLead(u: User, now: nat) {
    && After(u.migrationTokenExpires, now)
    && (IsVerified(u, Current) || LinkToken(u, Current).Some?) && (IsVerified(u, New) || LinkToken(u, New).Some?)
  }

  /** New links may be sent now or, the half minute since the last having passed, before the old ones expire. */
  predicate ResendComes(u: User, now: nat) {
    && u.migrationTokenExpires.Some? && now <= u.migrationTokenExpires.value
    && (u.lastMigrationEmailSent.Some?
        ==> u.lastMigrationEmailSent.value + RESEND_COOLDOWN <= u.migrationTokenExpires.value)
  }

  predicate Stuck(u: User, now: nat) {
    Present(u.newEmailPending) && !BothVerified(u) && !LinksLead(u, now) && !ResendComes(u, now)
  }

  ghost predicate StuckOrGone(w: World, id: nat) {
    Filed(w.users) && (id in w.users ==> Stuck(w.users[id], w.now))
  }

  lemma VerifiedStaysStuck(u: User, side: Side, token: string, now: nat)
    requires Stuck(u, now) && IsLink(u, side, token, now)
    ensures Stuck(Verified(u, side), now) && !BothVerified(Verified(u, side))
  {
  }

  lemma FollowStaysStuck(w: World, id: nat, side: Side, token: string, newId: nat, avatarUrl: string -> string)
    requires StuckOrGone(w, id) && id in w.users && newId !in w.users && IsLink(w.users[id], side, token, w.now)
    ensures StuckOrGone(AfterVerify(w, id, side, newId, avatarUrl), id)
  {
    VerifiedStaysStuck(w.users[id], side, token, w.now);
  }

  lemma LoginStaysStuck(w: World, id: nat, email: string)
    requires StuckOrGone(w, id)
    ensures StuckOrGone(AfterLogin(w, email), id)
  {
  }

  lemma ElsewhereStaysStuck(w: World, id: nat, a: Act)
    requires StuckOrGone(w, id) && LeavesMigration(w, id, a)
    ensures StuckOrGone(Next(w, a), id)
  {
  }

  /** No document of the account read earlier is from before its migration began. */
  ghost predicate AllShowPending(earlier: iset<User>, id: nat) {
    forall d :: d in earlier && d.id == id ==> Present(d.newEmailPending)
  }

  /** No move frees an account that is stuck, unless a request is made with a document from before. */
  lemma MoveStaysStuck(w: World, id: nat, earlier: iset<User>, m: Move, avatarUrl: string -> string)
    requires StuckOrGone(w, id) && AllShowPending(earlier, id)
    ensures StuckOrGone(Made(w, id, earlier, m, avatarUrl), id)
  {
    match m
    case Follow(side, token, newId) =>
      if id in w.users && newId !in w.users && IsLink(w.users[id], side, token, w.now) {
        FollowStaysStuck(w, id, side, token, newId, avatarUrl);
      }
    case LogIn(email) => LoginStaysStuck(w, id, email);
    case Elsewhere(a) =>
      if LeavesMigration(w, id, a) {
        ElsewhereStaysStuck(w, id, a);
      }
    case _ =>
  }

  lemma {:induction false} MovesStayStuck(w: World, id: nat, earlier: iset<User>, moves: seq<Move>,
                                          avatarUrl: string -> string)
    requires StuckOrGone(w, id) && AllShowPending(earlier, id)
    ensures StuckOrGone(MadeAll(w, id, earlier, moves, avatarUrl), id)
    decreases moves
  {
    if moves != [] {
      MoveStaysStuck(w, id, earlier, moves[0], avatarUrl);
      MovesStayStuck(Made(w, id, earlier, moves[0], avatarUrl), id, earlier, moves[1..], avatarUrl);
    }
  }

  // ---------------------------------------------------------------------------------------
  // Not being stuck
  // ---------------------------------------------------------------------------------------

  lemma FirstClickMarks(w: World, id: nat, newId: nat, avatarUrl: string -> string)
    requires Filed(w.users) && id in w.users && !BothVerified(Verified(w.users[id], Current))
    ensures AfterVerify(w, id, Current, newId, avatarUrl) == w.(users := w.users[id := Verified(w.users[id], Current)])
  {
  }

  lemma LastClick(w: World, id: nat, earlier: iset<User>, side: Side, newId: nat, avatarUrl: string -> string)
      returns (moves: seq<Move>)
    requires Filed(w.users) && StillToMove(w, id) && newId !in w.users && BothVerified(Verified(w.users[id], side))
    requires After(w.users[id].migrationTokenExpires, w.now) && LinkToken(w.users[id], side).Some?
    ensures Cleared(MadeAll(w, id, earlier, moves, avatarUrl), id)
  {
    var m := Follow(side, LinkToken(w.users[id], side).value, newId);
    moves := [m];
    LastClickClears(w, id, side, newId, avatarUrl);
    OneMove(w, id, earlier, m, avatarUrl);
  }

  lemma BothClicks(w: World, id: nat, earlier: iset<User>, newId: nat, avatarUrl: string -> string)
      returns (moves: seq<Move>)
    requires Filed(w.users) && StillToMove(w, id) && newId !in w.users && !BothVerified(w.users[id])
    requires LinksLead(w.users[id], w.now)
    ensures Cleared(MadeAll(w, id, earlier, moves, avatarUrl), id)
  {
    var u := w.users[id];
    if IsVerified(u, Current) {
      moves := LastClick(w, id, earlier, New, newId, avatarUrl);
    } else if IsVerified(u, New) {
      moves := LastClick(w, id, earlier, Current, newId, avatarUrl);
    } else {
      var m := Follow(Current, LinkToken(u, Current).value, newId);
      FirstClickMarks(w, id, newId, avatarUrl);
      moves := LastClick(Made(w, id, earlier, m, avatarUrl), id, earlier, New, newId, avatarUrl);
      MoveFirst(w, id, earlier, m, moves, avatarUrl);
      moves := [m] + moves;
    }
  }

  lemma SentAgain(w: World, id: nat, earlier: iset<User>, newId: nat, avatarUrl: string -> string)
      returns (moves: seq<Move>)
    requires Filed(w.users) && StillToMove(w, id) && newId !in w.users && !BothVerified(w.users[id])
    requires ResendVerdict(w, id).LinksSent?
    ensures Cleared(MadeAll(w, id, earlier, moves, avatarUrl), id)
  {
    var m := SendAgain("current", "new");
    var w' := Made(w, id, earlier, m, avatarUrl);
    assert w'.users == w.users[id := Resent(w.users[id], "current", "new", w.now)];
    moves := BothClicks(w', id, earlier, newId, avatarUrl);
    MoveFirst(w, id, earlier, m, moves, avatarUrl);
    moves := [m] + moves;
  }

  lemma WaitThenResend(w: World, id: nat, earlier: iset<User>, newId: nat, avatarUrl: string -> string)
      returns (moves: seq<Move>)
    requires Filed(w.users) && StillToMove(w, id) && newId !in w.users && !BothVerified(w.users[id])
    requires ResendComes(w.users[id], w.now)
    ensures Cleared(MadeAll(w, id, earlier, moves, avatarUrl), id)
  {
    var sent := w.users[id].lastMigrationEmailSent;
    var wait: nat := if sent.Some?
      && sent.value + RESEND_COOLDOWN > w.now then sent.value + RESEND_COOLDOWN - w.now else 0;
    var m := Elsewhere(Pass(wait));
    moves := SentAgain(w.(now := w.now + wait), id, earlier, newId, avatarUrl);
    MoveFirst(w, id, earlier, m, moves, avatarUrl);
    moves := [m] + moves;
  }

  lemma FinalizedByHand(w: World, id: nat, earlier: iset<User>, avatarUrl: string -> string) returns (moves: seq<Move>)
    requires Filed(w.users) && id in w.users && BothVerified(w.users[id])
    ensures Cleared(MadeAll(w, id, earlier, moves, avatarUrl), id)
  {
    moves := [ByHand];
    FinalizationClears(w, w.users[id], avatarUrl);
    OneMove(w, id, earlier, ByHand, avatarUrl);
  }

  /** An account that is not stuck has moves that end its migration. */
  lemma WayOut(w: World, id: nat, earlier: iset<User>, newId: nat, avatarUrl: string -> string)
      returns (moves: seq<Move>)
    requires Filed(w.users) && StillToMove(w, id) && newId !in w.users && !Stuck(w.users[id], w.now)
    ensures Cleared(MadeAll(w, id, earlier, moves, avatarUrl), id)
  {
    if BothVerified(w.users[id]) {
      moves := FinalizedByHand(w, id, earlier, avatarUrl);
    } else if LinksLead(w.users[id], w.now) {
      moves := BothClicks(w, id, earlier, newId, avatarUrl);
    } else {
      moves := WaitThenResend(w, id, earlier, newId, avatarUrl);
    }
  }

  lemma {:induction false} FreshId(ids: set<nat>) returns (n: nat)
    ensures forall x :: x in ids ==> x < n
  {
    if ids == {} {
      n := 0;
    } else {
      var x :| x in ids;
      var m := FreshId(ids - {x});
      n := if m <= x then x + 1 else m;
      assert forall y :: y in ids ==> y == x || y in ids - {x};
    }
  }

  // ---------------------------------------------------------------------------------------
  // A document from before
  // ---------------------------------------------------------------------------------------

  function Repeated(n: nat): string {
    if n == 0 then "" else ['a'] + Repeated(n - 1)
  }

  lemma {:induction false} RepeatedIsNormal(n: nat)
    ensures |Repeated(n)| == n && (forall i :: 0 <= i < n ==> Repeated(n)[i] == 'a')
    ensures Lower(Repeated(n)) == Repeated(n) && Normal(Repeated(n))
  {
    if n > 0 {
      RepeatedIsNormal(n - 1);
    }
    assert TrimStart(Repeated(n)) == Repeated(n) && TrimEnd(Repeated(n)) == Repeated(n);
  }

  /** There is always an address the index knows nothing about. */
  lemma UnknownAddress(rows: Rows) returns (email: string)
    ensures email != "" && Lower(email) == email && KeyOf(PrimaryEmail, email) !in rows
  {
    var lengths := set k | k in rows && k.EmailKey? :: |k.address|;
    var n := FreshId(lengths);
    email := Repeated(n + 1);
    RepeatedIsNormal(n + 1);
    assert forall k :: k in rows && k.EmailKey? ==> |k.address| in lengths;
  }

  lemma UnknownAddressIsAccepted(w: World, d: User) returns (r: Request)
    requires d.id in w.users && !Present(d.newEmailPending) && !After(d.migrationExpiry, w.now)
    requires d.lastMigrationDate.Some? ==> w.now - d.lastMigrationDate.value >= COOLDOWN
    ensures r.user == d && Judge(w, r).Accepted?
  {
    var email := UnknownAddress(w.rows);
    r := Request(d, email, false, Some("password"), true, "current", "new");
  }

  lemma AskedAnewLeads(w: World, id: nat, earlier: iset<User>, r: Request, newId: nat, avatarUrl: string -> string)
      returns (moves: seq<Move>)
    requires Filed(w.users) && newId !in w.users && r.user.id == id && r.user in earlier && Judge(w, r).Accepted?
    ensures Cleared(MadeAll(w, id, earlier, moves, avatarUrl), id)
  {
    var m := Ask(r);
    var w' := Made(w, id, earlier, m, avatarUrl);
    NonEmptyLower(r.newEmail);
    assert w'.users == w.users[id := Initiated(w.users[id], r, w.now)];
    moves := BothClicks(w', id, earlier, newId, avatarUrl);
    MoveFirst(w, id, earlier, m, moves, avatarUrl);
    moves := [m] + moves;
  }

  /** A request under way since before frees the account: it is accepted in the end, and its links lead on. */
  lemma EarlierDocumentFrees(w: World, id: nat, earlier: iset<User>, d: User, newId: nat, avatarUrl: string -> string)
      returns (moves: seq<Move>)
    requires Filed(w.users) && id in w.users && newId !in w.users
    requires d in earlier && d.id == id && !Present(d.newEmailPending)
    ensures Cleared(MadeAll(w, id, earlier, moves, avatarUrl), id)
  {
    var wait: nat := (if d.migrationExpiry.Some? then d.migrationExpiry.value else 0)
                     + (if d.lastMigrationDate.Some? then d.lastMigrationDate.value + COOLDOWN else 0);
    var m := Elsewhere(Pass(wait));
    var w' := Made(w, id, earlier, m, avatarUrl);
    assert w' == w.(now := w.now + wait);
    var r := UnknownAddressIsAccepted(w', d);
    moves := AskedAnewLeads(w', id, earlier, r, newId, avatarUrl);
    MoveFirst(w, id, earlier, m, moves, avatarUrl);
    moves := [m] + moves;
  }

  // ---------------------------------------------------------------------------------------
  // The main results
  // ---------------------------------------------------------------------------------------

  /** Whatever the account and everybody else do, the account, while it exists, has the address pending. */
  ghost predicate PendingForever(w: World, id: nat, earlier: iset<User>, avatarUrl: string -> string) {
    forall moves :: id in MadeAll(w, id, earlier, moves, avatarUrl).users
      ==> StillToMove(MadeAll(w, id, earlier, moves, avatarUrl), id)
  }

  lemma PendingForeverIffStuck(w: World, id: nat, earlier: iset<User>, avatarUrl: string -> string)
    requires Filed(w.users) && StillToMove(w, id)
    ensures PendingForever(w, id, earlier, avatarUrl) <==> Stuck(w.users[id], w.now) && AllShowPending(earlier, id)
  {
    if Stuck(w.users[id], w.now) && AllShowPending(earlier, id) {
      forall moves ensures id in MadeAll(w, id, earlier, moves, avatarUrl).users
        ==> StillToMove(MadeAll(w, id, earlier, moves, avatarUrl), id) {
        MovesStayStuck(w, id, earlier, moves, avatarUrl);
      }
    } else {
      var newId := FreshId(w.users.Keys);
      var moves;
      if Stuck(w.users[id], w.now) {
        var d :| d in earlier && d.id == id && !Present(d.newEmailPending);
        moves := EarlierDocumentFrees(w, id, earlier, d, newId, avatarUrl);
      } else {
        moves := WayOut(w, id, earlier, newId, avatarUrl);
      }
      assert !StillToMove(MadeAll(w, id, earlier, moves, avatarUrl), id);
    }
  }

  lemma LateDocumentIsStuck(u: User, r: Request, t0: nat, first: Side, inTime: bool, now: nat)
    requires r.newEmail != "" && t0 + TOKEN_LIFE <= now
    ensures Present(DocAfter(u, r, t0, first, inTime).newEmailPending)
    ensures Stuck(DocAfter(u, r, t0, first, inTime), now) <==> t0 + TOKEN_LIFE < now
  {
    NonEmptyLower(r.newEmail);
    HalfVerifiedIs(u, r, t0, first);
  }

  lemma LateLinkIsDead(w: World, base: Table, u: User, r: Request, t0: nat, first: Side, inTime: bool, side: Side,
                       newId: nat, avatarUrl: string -> string)
    requires StandsAs(w, base, DocAfter(u, r, t0, first, inTime)) && FreshTokens(base, r) && t0 + TOKEN_LIFE <= w.now
    ensures Click(w, r, side, newId, avatarUrl) == w
  {
    LinksStay(u, r, t0, first, inTime);
    ClickIsVerification(w, base, DocAfter(u, r, t0, first, inTime), r, side, t0, newId, avatarUrl);
  }

  lemma LateDocumentPendsForeverIff(w: World, base: Table, u: User, r: Request, t0: nat, first: Side, inTime: bool,
                                    earlier: iset<User>, avatarUrl: string -> string)
    requires StandsAs(w, base, DocAfter(u, r, t0, first, inTime)) && r.newEmail != "" && t0 + TOKEN_LIFE <= w.now
    ensures StillToMove(w, u.id)
            && (PendingForever(w, u.id, earlier, avatarUrl)
                <==> t0 + TOKEN_LIFE < w.now && AllShowPending(earlier, u.id))
  {
    LinksStay(u, r, t0, first, inTime);
    LateDocumentIsStuck(u, r, t0, first, inTime, w.now);
    PendingForeverIffStuck(w, u.id, earlier, avatarUrl);
  }

  /** A run whose second click comes too late leaves its account pending forever, if and only if more than a day
      has passed since the request, as in the very millisecond the links expire they may still be sent again, and no
      other request is under way since before. */
  lemma LateRunPendsForeverIff(w0: World, r: Request, first: Side, rest1: seq<Act>, rest2: seq<Act>, newId: nat,
                               earlier: iset<User>, avatarUrl: string -> string)
    requires Acceptable(w0, r, newId) && Idle(rest1) && Idle(rest2) && FreshTokens(w0.users, r)
    requires !ClickedInTime(w0, r, first, rest1, rest2, newId, avatarUrl)
    ensures var w := Migrate(w0, r, first, rest1, rest2, newId, avatarUrl);
            && StillToMove(w, r.user.id)
            && (PendingForever(w, r.user.id, earlier, avatarUrl)
                <==> w0.now + TOKEN_LIFE < w.now && AllShowPending(earlier, r.user.id))
  {
    var u, t0 := w0.users[r.user.id], w0.now;
    var w2 := BeforeSecond(w0, r, first, rest1, rest2, newId, avatarUrl);
    var inTime := BeforeFirst(w0, r, rest1).now < t0 + TOKEN_LIFE;
    AcceptedIsAnotherAddress(w0, r, newId);
    BeforeSecondStands(w0, r, first, rest1, rest2, newId, avatarUrl);
    LateLinkIsDead(w2, BaseAfter(w0.users, r, first, inTime, newId), u, r, t0, first, inTime, Other(first), newId,
                   avatarUrl);
    LateDocumentPendsForeverIff(w2, BaseAfter(w0.users, r, first, inTime, newId), u, r, t0, first, inTime, earlier,
                                avatarUrl);
  }

  /** From empty tables: the only account asks for an address and both links are clicked too late. It keeps its
      address, and has the other pending forever. */
  lemma LateRunHappens(first: string, email: string, t: Trip, late: seq<Act>, earlier: iset<User>,
                       avatarUrl: string -> string)
    requires Canonical(first) && Canonical(email) && first != email && t == AtOnce(Account(first), email)
    requires late == [Pass(TOKEN_LIFE + 1)] && AllShowPending(earlier, 0)
    ensures Judge(Created(first), t.r).Accepted?
    ensures var w := Migrate(Created(first), t.r, Current, late, t.rest1, t.newId, avatarUrl);
            0 in w.users && w.users[0].email == first && PendingForever(w, 0, earlier, avatarUrl)
  {
    var w0, u := Created(first), Account(first);
    CreatedIsFree(first);
    FreeAccountIsAcceptable(w0, u, email);
    LateClicksAreLate(w0, t.r, late, t.rest1, t.newId, avatarUrl);
    LateRunPendsForeverIff(w0, t.r, Current, late, t.rest1, t.newId, earlier, avatarUrl);
    MigrationMovesTheAccount(w0, t.r, Current, late, t.rest1, t.newId, avatarUrl);
  }

  lemma LateClicksAreLate(w: World, r: Request, late: seq<Act>, now: seq<Act>, newId: nat, avatarUrl: string -> string)
    requires late == [Pass(TOKEN_LIFE + 1)] && now == []
    ensures Idle(late) && !ClickedInTime(w, r, Current, late, now, newId, avatarUrl)
    ensures Migrate(w, r, Current, late, now, newId, avatarUrl).now == w.now + TOKEN_LIFE + 1
  {
    var w1 := BeforeFirst(w, r, late);
    assert Run(AfterInitiate(w, r), late) == Run(Next(AfterInitiate(w, r), late[0]), []);
    assert w1 == Next(AfterInitiate(w, r), Pass(TOKEN_LIFE + 1));
    ClickingTakesNoTime(w1, r, Current, newId, avatarUrl);
    ClickingTakesNoTime(BeforeSecond(w, r, Current, late, now, newId, avatarUrl), r, New, newId, avatarUrl);
  }
}
