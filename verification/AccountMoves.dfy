/** Everything that may happen to one account and its migration, move by move. */
module AccountMoves {
  import opened Wrappers
  import opened Emails
  import opened Users
  import opened IndexRuns
  import opened Migration
  import opened LoginFinalization

  /** What may happen to an account. Ask: a request. Follow: a click on one of its links. SendAgain: new links.
      ByHand: the manual finalisation. Elsewhere: time passes, the sweeper fires, or a statement of any other part
      of the program, which leaves the account's migration columns alone but may delete it. */
  datatype Move =
    | Ask(r: Request)
    | Follow(side: Side, token: string, newId: nat)
    | LogIn(email: string)
    | SendAgain(currentToken: string, newToken: string)
    | ByHand
    | Elsewhere(a: Act)

  predicate SameMigration(u: User, v: User) {
    && u.newEmailPending == v.newEmailPending && u.migrationTokenExpires == v.migrationTokenExpires
    && u.lastMigrationEmailSent == v.lastMigrationEmailSent
    && u.currentEmailVerified == v.currentEmailVerified && u.newEmailVerified == v.newEmailVerified
    && u.currentEmailToken == v.currentEmailToken && u.newEmailToken == v.newEmailToken
  }

  predicate LeavesMigration(w: World, id: nat, a: Act) {
    match a
    case Store(u) => u.id != id || (id in w.users && SameMigration(u, w.users[id]))
    case Touch(u) => u.id != id || (id in w.users && SameMigration(u, w.users[id]))
    case _ => true
  }

  predicate IsLink(u: User, side: Side, token: string, now: nat) {
    if side.Current? then HoldsCurrentToken(u, token, now) else HoldsNewToken(u, token, now)
  }

  /** The document a request is made with: the current one, any that shows a pending address, or one of `earlier`,
      which other requests under way have read before. */
  predicate Usable(w: World, id: nat, earlier: iset<User>, d: User) {
    d.id == id && ((id in w.users && d == w.users[id]) || Present(d.newEmailPending) || d in earlier)
  }

  function Made(w: World, id: nat, earlier: iset<User>, m: Move, avatarUrl: string -> string): World {
    match m
    case Ask(r) => if Usable(w, id, earlier, r.user) then AfterInitiate(w, r) else w
    case Follow(side, token, newId) =>
      if id in w.users && newId !in w.users
        && IsLink(w.users[id], side, token, w.now) then AfterVerify(w, id, side, newId, avatarUrl) else w
    case LogIn(email) => AfterLogin(w, email)
    case SendAgain(currentToken, newToken) => AfterResend(w, id, currentToken, newToken)
    case ByHand => AfterFinalizeByHand(w, id, avatarUrl)
    case Elsewhere(a) => if LeavesMigration(w, id, a) then Next(w, a) else w
  }

  function MadeAll(w: World, id: nat, earlier: iset<User>, moves: seq<Move>, avatarUrl: string -> string): World
    decreases moves
  {
    if moves == [] then w else MadeAll(Made(w, id, earlier, moves[0], avatarUrl), id, earlier, moves[1..], avatarUrl)
  }

  lemma OneMove(w: World, id: nat, earlier: iset<User>, m: Move, avatarUrl: string -> string)
    ensures MadeAll(w, id, earlier, [m], avatarUrl) == Made(w, id, earlier, m, avatarUrl)
  {
    assert MadeAll(w, id, earlier, [m], avatarUrl)
           == MadeAll(Made(w, id, earlier, m, avatarUrl), id, earlier, [], avatarUrl);
  }

  lemma MoveFirst(w: World, id: nat, earlier: iset<User>, m: Move, moves: seq<Move>, avatarUrl: string -> string)
    ensures MadeAll(w, id, earlier, [m] + moves, avatarUrl)
            == MadeAll(Made(w, id, earlier, m, avatarUrl), id, earlier, moves, avatarUrl)
  {
    assert ([m] + moves)[1..] == moves;
  }

  // ---------------------------------------------------------------------------------------
  // What a move does to the pending address
  // ---------------------------------------------------------------------------------------

  ghost predicate Cleared(w: World, id: nat) {
    Filed(w.users) && id in w.users && w.users[id].newEmailPending.None?
  }

  lemma FinalizationClears(w: World, user: User, avatarUrl: string -> string)
    requires Filed(w.users) && FinalizeVerdict(w, user).Finalized?
    ensures Cleared(AfterFinalize(w, user, avatarUrl), user.id)
  {
  }

  lemma MarkClears(w: World, id: nat, side: Side, avatarUrl: string -> string)
    requires Filed(w.users) && id in w.users && BothVerified(Verified(w.users[id], side))
    ensures Cleared(AfterMark(w, id, side, avatarUrl), id)
  {
    var v := Verified(w.users[id], side);
    FinalizationClears(Next(w, Touch(v)), v, avatarUrl);
  }

  lemma LastClickClears(w: World, id: nat, side: Side, newId: nat, avatarUrl: string -> string)
    requires Filed(w.users) && id in w.users && newId !in w.users && BothVerified(Verified(w.users[id], side))
    ensures Cleared(AfterVerify(w, id, side, newId, avatarUrl), id)
  {
    if side.Current? {
      MarkClears(w, id, side, avatarUrl);
    } else {
      MarkClears(WithHolder(w, Lower(w.users[id].newEmailPending.value), newId), id, side, avatarUrl);
    }
  }

  /** A request of the account is accepted. */
  predicate Asks(w: World, id: nat, earlier: iset<User>, m: Move) {
    m.Ask? && Usable(w, id, earlier, m.r.user) && Judge(w, m.r).Accepted?
  }

  /** The account's migration is completed: by the click that verifies its second side, by a login with the new
      address, or by hand. */
  predicate Finishes(w: World, id: nat, m: Move) {
    match m
    case Follow(side, token, newId) =>
      id in w.users && newId !in w.users && IsLink(w.users[id], side, token, w.now)
        && BothVerified(Verified(w.users[id], side))
    case LogIn(email) => Finishing(w, email) == Some(id)
    case ByHand => id in w.users && BothVerified(w.users[id])
    case _ => false
  }

  /** The address is pending after the move. */
  ghost predicate PendingAfter(w: World, id: nat, pending: bool) {
    Filed(w.users) && (id in w.users ==> Present(w.users[id].newEmailPending) == pending)
  }

  lemma FollowedLink(w: World, id: nat, side: Side, token: string, newId: nat, avatarUrl: string -> string)
    requires Filed(w.users) && id in w.users && newId !in w.users && IsLink(w.users[id], side, token, w.now)
    ensures var pending := !BothVerified(Verified(w.users[id], side)) && Present(w.users[id].newEmailPending);
            PendingAfter(AfterVerify(w, id, side, newId, avatarUrl), id, pending)
  {
    if BothVerified(Verified(w.users[id], side)) {
      LastClickClears(w, id, side, newId, avatarUrl);
    } else if side.Current? {
      UnfinishedMark(w, id, side, avatarUrl);
    } else {
      UnfinishedMark(WithHolder(w, Lower(w.users[id].newEmailPending.value), newId), id, side, avatarUrl);
    }
  }

  lemma UnfinishedMark(w: World, id: nat, side: Side, avatarUrl: string -> string)
    requires Filed(w.users) && id in w.users && !BothVerified(Verified(w.users[id], side))
    ensures AfterMark(w, id, side, avatarUrl) == w.(users := w.users[id := Verified(w.users[id], side)])
    ensures PendingAfter(AfterMark(w, id, side, avatarUrl), id, Present(w.users[id].newEmailPending))
  {
  }

  lemma MoveSetsPending(w: World, id: nat, earlier: iset<User>, m: Move, avatarUrl: string -> string)
    requires Filed(w.users) && id in w.users
    ensures var pending := Asks(w, id, earlier, m) || (Present(w.users[id].newEmailPending) && !Finishes(w, id, m));
            PendingAfter(Made(w, id, earlier, m, avatarUrl), id, pending)
  {
    match m
    case Ask(r) =>
      if Usable(w, id, earlier, r.user) && Judge(w, r).Accepted? {
        NonEmptyLower(r.newEmail);
      }
    case Follow(side, token, newId) =>
      if newId !in w.users && IsLink(w.users[id], side, token, w.now) {
        FollowedLink(w, id, side, token, newId, avatarUrl);
      }
    case ByHand =>
      if BothVerified(w.users[id]) {
        FinalizationClears(w, w.users[id], avatarUrl);
      }
    case _ =>
  }

  lemma GoneStaysGone(w: World, id: nat, earlier: iset<User>, m: Move, avatarUrl: string -> string)
    requires Filed(w.users) && id !in w.users
    ensures Filed(Made(w, id, earlier, m, avatarUrl).users) && id !in Made(w, id, earlier, m, avatarUrl).users
  {
  }

  lemma {:induction false} MoveLast(w: World, id: nat, earlier: iset<User>, moves: seq<Move>, m: Move,
                                    avatarUrl: string -> string)
    ensures MadeAll(w, id, earlier, moves + [m], avatarUrl)
            == Made(MadeAll(w, id, earlier, moves, avatarUrl), id, earlier, m, avatarUrl)
    decreases moves
  {
    if moves == [] {
      assert moves + [m] == [m];
      OneMove(w, id, earlier, m, avatarUrl);
    } else {
      assert (moves + [m])[0] == moves[0] && (moves + [m])[1..] == moves[1..] + [m];
      MoveLast(Made(w, id, earlier, moves[0], avatarUrl), id, earlier, moves[1..], m, avatarUrl);
    }
  }

  /** The world before a move of a run, and after all of them for `k == |moves|`. */
  function At(w: World, id: nat, earlier: iset<User>, moves: seq<Move>, k: nat, avatarUrl: string -> string): World
    requires k <= |moves|
  {
    MadeAll(w, id, earlier, moves[..k], avatarUrl)
  }

  /** Some request of the account has been accepted, and nothing after it completed its migration. */
  ghost predicate Outstanding(w: World, id: nat, earlier: iset<User>, moves: seq<Move>, avatarUrl: string -> string) {
    exists k :: 0 <= k < |moves| && AsksLast(w, id, earlier, moves, k, avatarUrl)
  }

  ghost predicate AsksLast(w: World, id: nat, earlier: iset<User>, moves: seq<Move>, k: nat,
                           avatarUrl: string -> string)
    requires k < |moves|
  {
    && Asks(At(w, id, earlier, moves, k, avatarUrl), id, earlier, moves[k])
    && forall j :: k < j < |moves| ==> !Finishes(At(w, id, earlier, moves, j, avatarUrl), id, moves[j])
  }

  lemma OutstandingInTurn(w: World, id: nat, earlier: iset<User>, moves: seq<Move>, m: Move,
                          avatarUrl: string -> string)
    ensures var w' := MadeAll(w, id, earlier, moves, avatarUrl);
            Outstanding(w, id, earlier, moves + [m], avatarUrl)
            <==> Asks(w', id, earlier, m) || (Outstanding(w, id, earlier, moves, avatarUrl) && !Finishes(w', id, m))
  {
    var all, n := moves + [m], |moves|;
    assert all[..n] == moves;
    assert forall k :: 0 <= k <= n ==> all[..k] == moves[..k];
    if Asks(MadeAll(w, id, earlier, moves, avatarUrl), id, earlier, m) {
      assert AsksLast(w, id, earlier, all, n, avatarUrl);
    }
    forall k | 0 <= k < n
      ensures AsksLast(w, id, earlier, all, k, avatarUrl)
         <==> AsksLast(w, id, earlier, moves, k, avatarUrl)
              && !Finishes(MadeAll(w, id, earlier, moves, avatarUrl), id, m)
    {
      assert all[n] == m;
    }
  }

  /** An account without a pending address has one after a run, if it still exists, if and only if one of its
      requests is outstanding. */
  lemma {:induction false} PendingIffOutstanding(w: World, id: nat, earlier: iset<User>, moves: seq<Move>,
                                                 avatarUrl: string -> string)
    requires Filed(w.users) && id in w.users && !Present(w.users[id].newEmailPending)
    ensures PendingAfter(MadeAll(w, id, earlier, moves, avatarUrl), id, Outstanding(w, id, earlier, moves, avatarUrl))
    decreases |moves|
  {
    if moves != [] {
      var front, m := moves[..|moves| - 1], moves[|moves| - 1];
      var w' := MadeAll(w, id, earlier, front, avatarUrl);
      assert moves == front + [m];
      PendingIffOutstanding(w, id, earlier, front, avatarUrl);
      MoveLast(w, id, earlier, front, m, avatarUrl);
      OutstandingInTurn(w, id, earlier, front, m, avatarUrl);
      if id in w'.users {
        MoveSetsPending(w', id, earlier, m, avatarUrl);
      } else {
        GoneStaysGone(w', id, earlier, m, avatarUrl);
      }
    }
  }
}
