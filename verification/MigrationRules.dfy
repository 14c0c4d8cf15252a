/** What the migration handlers ask for and what they leave in the account, column by column and in milliseconds. */
module MigrationRules {
  import opened Wrappers
  import opened Emails
  import opened Users
  import opened IdentityIndex
  import opened IndexRuns
  import opened Migration
  import opened MigrationRuns
  import opened LoginFinalization

  // ---------------------------------------------------------------------------------------
  // Requests
  // ---------------------------------------------------------------------------------------

  /** A day in milliseconds. */
  const DAY: nat := 86400000

  /** Everything a request must meet. The account exists; its document shows no pending migration, no unexpired grace
      period and no migration in the last ten days; nobody has the address, by a scan of the table, or another account
      has it and the request confirms to override it; and a local account gives its password. */
  ghost predicate MayInitiate(users: Table, now: nat, r: Request) {
    && r.newEmail != "" && r.user.id in users
    && (r.user.newEmailPending.None? || r.user.newEmailPending.value == "")
    && !(&& r.user.previousEmail.Some? && r.user.previousEmail.value != ""
         && r.user.migrationExpiry.Some? && r.user.migrationExpiry.value > now)
    && (r.user.lastMigrationDate.Some? ==> r.user.lastMigrationDate.value + 10 * DAY <= now)
    && (forall y :: y in users && users[y].email == Lower(r.newEmail) ==> y != r.user.id && r.confirmOverride)
    && (r.user.provider.Local? ==> r.password.Some? && r.password.value != "" && r.passwordMatches)
  }

  lemma HolderIsScan(w: World, email: string)
    requires Agrees(w) && Normal(email)
    ensures forall y :: y in w.users && w.users[y].email == email <==> Existing(w, email) == Some(y)
  {
    ExistingIsScan(w, email);
  }

  lemma AcceptedIff(w: World, r: Request)
    requires Agrees(w) && Normal(Lower(r.newEmail))
    ensures Judge(w, r).Accepted? <==> MayInitiate(w.users, w.now, r)
  {
    HolderIsScan(w, Lower(r.newEmail));
  }

  /** A request changes the table or the index if and only if it meets all that. */
  lemma InitiationChangesIff(w: World, r: Request)
    requires Agrees(w) && Normal(Lower(r.newEmail))
    ensures AfterInitiate(w, r) != w <==> MayInitiate(w.users, w.now, r)
  {
    AcceptedIff(w, r);
    if Judge(w, r).Accepted? {
      var u := w.users[r.user.id];
      assert u.id == r.user.id;
      assert |AfterInitiate(w, r).users[r.user.id].migrationHistory| == |u.migrationHistory| + 1;
    }
  }

  /** Each refusal has its own cause. */
  lemma RefusalsHaveCauses(w: World, r: Request)
    requires Agrees(w) && Normal(Lower(r.newEmail))
    ensures match Judge(w, r)
            case Accepted => MayInitiate(w.users, w.now, r)
            case NewEmailRequired => r.newEmail == ""
            case PendingExists => r.user.newEmailPending.Some? && r.user.newEmailPending.value != ""
            case InGracePeriod => r.user.migrationExpiry.Some? && r.user.migrationExpiry.value > w.now
            case CoolingDown => r.user.lastMigrationDate.Some? && w.now < r.user.lastMigrationDate.value + 10 * DAY
            case OwnEmail => r.user.id in w.users && w.users[r.user.id].email == Lower(r.newEmail)
            case NeedsConfirmation =>
              !r.confirmOverride && exists y :: y in w.users && w.users[y].email == Lower(r.newEmail) && y != r.user.id
            case PasswordRequired => r.user.provider.Local? && (r.password.None? || r.password.value == "")
            case InvalidPassword => r.user.provider.Local? && (r.user.id !in w.users || !r.passwordMatches)
            case AccountGone => r.user.id !in w.users
  {
    AcceptedIff(w, r);
    ExistingIsScan(w, Lower(r.newEmail));
  }

  /** What an accepted request leaves: links for a day, nothing verified yet, and one more history entry; all else of
      the account and every other row as before, and the pending address leading to the account. */
  lemma RequestIsStored(w: World, r: Request)
    requires Agrees(w) && Normal(Lower(r.newEmail)) && MayInitiate(w.users, w.now, r)
    ensures var u, w' := w.users[r.user.id], AfterInitiate(w, r);
            && w'.users == w.users[r.user.id := u.(
                 newEmailPending := Some(Lower(r.newEmail)), currentEmailToken := Some(r.currentToken),
                 newEmailToken := Some(r.newToken), currentEmailVerified := Some(false),
                 newEmailVerified := Some(false), migrationTokenExpires := Some(w.now + DAY),
                 lastMigrationEmailSent := Some(w.now),
                 migrationHistory := u.migrationHistory
                                     + [HistoryEntry(u.email, Lower(r.newEmail), Pending, false, false)])]
            && FindPending(w'.rows, w.now, Lower(r.newEmail)) == Some(r.user.id)
  {
    AcceptedIff(w, r);
    InitiateHoldsPending(w, r);
    assert w.users[r.user.id].id == r.user.id;
  }

  // ---------------------------------------------------------------------------------------
  // Finalisation
  // ---------------------------------------------------------------------------------------

  /** The caller's document and the row both have a pending migration, and one token version. */
  predicate MayFinalize(users: Table, user: User) {
    && user.id in users && users[user.id].tokenVersion == user.tokenVersion
    && user.newEmailPending.Some? && user.newEmailPending.value != ""
    && users[user.id].newEmailPending.Some? && users[user.id].newEmailPending.value != ""
  }

  /** The account after its migration: which columns have which values. `taken` says whether anybody holds the address,
      `own` whether the account itself does. */
  function Finished(u: User, email: string, now: nat, taken: bool, own: bool, avatarUrl: string -> string): User {
    u.(email := email, previousEmail := Some(u.email), isEmailVerified := true,
       migrationExpiry := Some(now + 5 * DAY), lastMigrationDate := Some(now),
       newEmailPending := None, migrationTokenExpires := None, currentEmailVerified := None, newEmailVerified := None,
       currentEmailToken := None, newEmailToken := None,
       tokenVersion := if taken then u.tokenVersion + 1 else u.tokenVersion,
       bio := if own || (u.bio.Some? && u.bio.value != "") then u.bio else Some(""),
       avatar := if own || (u.avatar.Some? && u.avatar.value != "") then u.avatar else Some(avatarUrl(email)),
       migrationHistory :=
         var from_ := if own || (taken && u.email == "") then email else u.email;
         Settled(u.migrationHistory, email, HistoryEntry(from_, email, Succeeded, true, true)))
  }

  lemma MovedIs(u: User, email: string, now: nat, avatarUrl: string -> string)
    ensures Moved(u, email, now, avatarUrl) == Finished(u, email, now, false, false, avatarUrl)
  {
  }

  lemma MergedIs(u: User, email: string, now: nat, avatarUrl: string -> string)
    ensures Merged(u, email, now, avatarUrl) == Finished(u, email, now, true, false, avatarUrl)
  {
  }

  lemma RenewedIs(u: User, email: string, now: nat, avatarUrl: string -> string)
    ensures Renewed(u, email, now) == Finished(u, email, now, true, true, avatarUrl)
  {
  }

  lemma FinalizedIff(w: World, user: User)
    ensures FinalizeVerdict(w, user).Finalized? <==> MayFinalize(w.users, user)
  {
  }

  /** The table after a finalisation: the account is `v`, and nobody else holds the address any more. */
  ghost predicate FinishedTable(users: Table, after: Table, v: User) {
    && v.id in after && after[v.id] == v
    && forall y :: y != v.id ==>
         (y in after <==> y in users && users[y].email != v.email) && (y in after ==> after[y] == users[y])
  }

  /** Nobody else holds the address once its holder is out of the table. */
  function WithoutHolder(users: Table, holder: Option<nat>, v: User): Table {
    if holder.None? || holder.value == v.id then users[v.id := v] else (users - {holder.value})[v.id := v]
  }

  lemma HolderIsOut(users: Table, holder: Option<nat>, v: User)
    requires forall y :: y in users && users[y].email == v.email <==> holder == Some(y)
    ensures FinishedTable(users, WithoutHolder(users, holder, v), v)
  {
  }

  lemma StatementsAre(w: World, holder: Option<nat>, v: User)
    ensures Next(w, Store(v)).users == w.users[v.id := v]
    ensures holder.Some?
        ==> Next(Next(w, Remove(holder.value)), Store(v)).users == (w.users - {holder.value})[v.id := v]
  {
  }

  function DocumentAfter(w: World, u: User, email: string, avatarUrl: string -> string): User {
    match Existing(w, email)
    case None => Moved(u, email, w.now, avatarUrl)
    case Some(y) => if y == u.id then Renewed(u, email, w.now) else Merged(u, email, w.now, avatarUrl)
  }

  lemma TableAfterFinalize(w: World, user: User, avatarUrl: string -> string)
    requires Agrees(w) && PendingNormal(w.users) && MayFinalize(w.users, user)
    ensures var u := w.users[user.id];
            FinishedTable(w.users, AfterFinalize(w, user, avatarUrl).users,
                          DocumentAfter(w, u, Lower(u.newEmailPending.value), avatarUrl))
  {
    var u := w.users[user.id];
    var email := Lower(u.newEmailPending.value);
    var holder, v := Existing(w, email), DocumentAfter(w, u, email, avatarUrl);
    FinalizedIff(w, user);
    assert u.id == user.id && v.id == u.id && v.email == email;
    StatementsAre(w, holder, v);
    assert AfterFinalize(w, user, avatarUrl).users == WithoutHolder(w.users, holder, v);
    HolderIsScan(w, email);
    HolderIsOut(w.users, holder, v);
  }

  /** A finalisation changes nothing unless it may; then the account has moved, another holder of the address is gone,
      and every other row is as before. */
  lemma FinalizationIs(w: World, user: User, avatarUrl: string -> string)
    requires Agrees(w) && PendingNormal(w.users)
    ensures FinalizeVerdict(w, user).Finalized? <==> MayFinalize(w.users, user)
    ensures !MayFinalize(w.users, user) ==> AfterFinalize(w, user, avatarUrl) == w
    ensures MayFinalize(w.users, user) ==>
              var u := w.users[user.id];
              var email := Lower(u.newEmailPending.value);
              var taken := exists y :: y in w.users && w.users[y].email == email;
              FinishedTable(w.users, AfterFinalize(w, user, avatarUrl).users,
                            Finished(u, email, w.now, taken, u.email == email, avatarUrl))
  {
    FinalizedIff(w, user);
    if MayFinalize(w.users, user) {
      var u := w.users[user.id];
      var email := Lower(u.newEmailPending.value);
      TableAfterFinalize(w, user, avatarUrl);
      ExistingIsScan(w, email);
      MovedIs(u, email, w.now, avatarUrl);
      MergedIs(u, email, w.now, avatarUrl);
      RenewedIs(u, email, w.now, avatarUrl);
    }
  }

  /** A login that finishes a migration moves the account too, but leaves version, history, profile and the expiry of
      the links as they are. */
  function MovedByLogin(u: User, email: string, now: nat): User {
    u.(email := email, previousEmail := Some(u.email), isEmailVerified := true,
       migrationExpiry := Some(now + 5 * DAY), lastMigrationDate := Some(now), newEmailPending := None,
       currentEmailVerified := None, newEmailVerified := None, currentEmailToken := None, newEmailToken := None)
  }

  lemma LoggedInIs(u: User, email: string, now: nat)
    ensures LoggedIn(u, email, now) == MovedByLogin(u, email, now)
  {
  }

  lemma FinishingIs(w: World, email: string)
    requires Finishing(w, email).Some?
    ensures var id := Finishing(w, email).value;
            && id in w.users && w.users[id].newEmailPending == Some(Lower(email))
            && w.users[id].currentEmailVerified == Some(true) && w.users[id].newEmailVerified == Some(true)
  {
  }

  /** It happens to an account with both sides verified, and to nobody else. */
  lemma LoginIs(w: World, email: string)
    requires Agrees(w)
    ensures var id := Finishing(w, email);
            if id.None? then AfterLogin(w, email) == w
            else
              && id.value in w.users && w.users[id.value].newEmailPending == Some(Lower(email))
              && w.users[id.value].currentEmailVerified == Some(true)
              && w.users[id.value].newEmailVerified == Some(true)
              && AfterLogin(w, email).users
                 == w.users[id.value := MovedByLogin(w.users[id.value], Lower(email), w.now)]
  {
    var id := Finishing(w, email);
    if id.Some? {
      FinishingIs(w, email);
      LoggedInIs(w.users[id.value], Lower(email), w.now);
      assert w.users[id.value].id == id.value;
      StatementsAre(w, None, LoggedIn(w.users[id.value], Lower(email), w.now));
    }
  }

  // ---------------------------------------------------------------------------------------
  // Sending the links again
  // ---------------------------------------------------------------------------------------

  /** Something is pending, its links have not expired, and the last were sent half a minute ago or more. */
  predicate MayResend(users: Table, now: nat, id: nat) {
    && id in users
    && users[id].newEmailPending.Some? && users[id].newEmailPending.value != ""
    && users[id].migrationTokenExpires.Some? && now <= users[id].migrationTokenExpires.value
    && (users[id].lastMigrationEmailSent.Some? ==> users[id].lastMigrationEmailSent.value + 30000 <= now)
  }

  lemma ResentIff(w: World, id: nat)
    ensures ResendVerdict(w, id).LinksSent? <==> MayResend(w.users, w.now, id)
  {
  }

  /** Then the new links lead to the account for another day, the old ones nowhere, and all else is as before. */
  lemma ResendIs(w: World, id: nat, currentToken: string, newToken: string)
    requires Agrees(w)
    ensures ResendVerdict(w, id).LinksSent? <==> MayResend(w.users, w.now, id)
    ensures var w' := AfterResend(w, id, currentToken, newToken);
            if MayResend(w.users, w.now, id) then
              w'.users == w.users[id := w.users[id].(
                currentEmailToken := Some(currentToken), newEmailToken := Some(newToken),
                migrationTokenExpires := Some(w.now + DAY), lastMigrationEmailSent := Some(w.now))]
            else w' == w
  {
    if id in w.users {
      assert w.users[id].id == id;
    }
  }

  /** After a request and idle time, the links may be sent again from half a minute on until a day has passed. */
  lemma ResendWindow(w0: World, r: Request, idle: seq<Act>)
    requires Agrees(w0) && Normal(Lower(r.newEmail)) && MayInitiate(w0.users, w0.now, r) && Idle(idle)
    ensures var w := Run(AfterInitiate(w0, r), idle);
            ResendVerdict(w, r.user.id).LinksSent? <==> w0.now + 30000 <= w.now <= w0.now + DAY
  {
    AcceptedIff(w0, r);
    InitiateKeepsAgreement(w0, r);
    IdleKeepsTable(AfterInitiate(w0, r), idle);
    NonEmptyLower(r.newEmail);
    assert w0.users[r.user.id].id == r.user.id;
  }

  // ---------------------------------------------------------------------------------------
  // Verification
  // ---------------------------------------------------------------------------------------

  /** Verifying a side marks it, and marks the latest history entry if that is the pending one; nothing else changes. */
  lemma VerifiedIs(u: User, side: Side)
    ensures var v, n := Verified(u, side), |u.migrationHistory|;
            && v == (if side.Current?
                     then u.(currentEmailVerified := Some(true), migrationHistory := v.migrationHistory)
                     else u.(newEmailVerified := Some(true), migrationHistory := v.migrationHistory))
            && |v.migrationHistory| == n
            && (forall i :: 0 <= i < n - 1 ==> v.migrationHistory[i] == u.migrationHistory[i])
            && (n > 0 ==>
                  var e := u.migrationHistory[n - 1];
                  v.migrationHistory[n - 1] ==
                  if u.newEmailPending.Some? && e.status.Pending? && e.toEmail == Lower(u.newEmailPending.value)
                  then (if side.Current? then e.(currentEmailVerified := true) else e.(newEmailVerified := true))
                  else e)
  {
  }

  /** Where nobody has the new address, it gets an unverified local account called after what stands before the `@`. */
  lemma HolderIs(w: World, email: string, newId: nat)
    requires Agrees(w) && Normal(email) && newId !in w.users
    ensures var w' := WithHolder(w, email, newId);
            if exists y :: y in w.users && w.users[y].email == email then w' == w
            else
              && newId in w'.users && w'.users == w.users[newId := w'.users[newId]]
              && var p := w'.users[newId];
              && p.id == newId && p.email == email && !p.isEmailVerified && p.provider.Local? && p.providerId.None?
              && p.newEmailPending.None? && p.previousEmail.None? && p.tokenVersion == 0 && p.migrationHistory == []
              && (exists name :: p.displayName == "User " + name && StandsBeforeAt(name, email))
  {
    ExistingIsScan(w, email);
    LocalPartIs(email);
    assert StandsBeforeAt(LocalPart(email), email);
  }

  predicate StandsBeforeAt(name: string, email: string) {
    name <= email && '@' !in name && (|name| == |email| || email[|name|] == '@')
  }

  lemma {:induction false} LocalPartIs(email: string)
    ensures StandsBeforeAt(LocalPart(email), email)
  {
    if email != "" && email[0] != '@' {
      LocalPartIs(email[1..]);
    }
  }

  /** Once both sides are verified the migration is finalised, and not before. */
  lemma MarkIs(w: World, id: nat, side: Side, avatarUrl: string -> string)
    requires Agrees(w) && id in w.users
    ensures var u := w.users[id];
            var v, other := Verified(u, side), if side.Current? then u.newEmailVerified else u.currentEmailVerified;
            var marked := w.(users := w.users[id := v]);
            AfterMark(w, id, side, avatarUrl)
            == if other == Some(true) && u.newEmailPending.Some? && u.newEmailPending.value != ""
               then AfterFinalize(marked, v, avatarUrl) else marked
  {
    assert w.users[id].id == id;
  }

  /** What the history of a finished migration says: the first entry pending for the address has succeeded with both
      sides verified; if there is none, one more is added; and all others stay. */
  lemma HistoryIs(history: seq<HistoryEntry>, to_: string, otherwise: HistoryEntry)
    ensures var r := Settled(history, to_, otherwise);
            if forall e <- history :: !(e.status.Pending? && e.toEmail == to_) then r == history + [otherwise]
            else exists k :: 0 <= k < |history| && FirstPending(history, to_, k)
                   && r == history[k := history[k].(status := Succeeded, currentEmailVerified := true,
                                                    newEmailVerified := true)]
  {
    if k :| 0 <= k < |history| && FirstPending(history, to_, k) {
      SettledAt(history, to_, otherwise, k);
    } else {
      NoneIsFirst(history, to_, |history|);
      SettledAt(history, to_, otherwise, |history|);
    }
  }

  predicate FirstPending(history: seq<HistoryEntry>, to_: string, k: nat)
    requires k < |history|
  {
    && history[k].status.Pending? && history[k].toEmail == to_
    && forall i :: 0 <= i < k ==> !(history[i].status.Pending? && history[i].toEmail == to_)
  }

  lemma {:induction false} NoneIsFirst(history: seq<HistoryEntry>, to_: string, n: nat)
    requires n <= |history| && forall k :: 0 <= k < |history| ==> !FirstPending(history, to_, k)
    ensures forall i :: 0 <= i < n ==> !(history[i].status.Pending? && history[i].toEmail == to_)
  {
    if n > 0 {
      NoneIsFirst(history, to_, n - 1);
      assert !FirstPending(history, to_, n - 1);
    }
  }
}
