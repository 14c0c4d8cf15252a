/** The migration handlers, which change the users table and the index statement by statement. */
module MigrationController {
  import opened Wrappers
  import opened Emails
  import opened Users
  import opened IdentityIndex
  import opened IndexRuns
  import opened Migration
  import opened MigrationRules
  import opened MigrationRuns

  lemma InitiateKeepsPending(w: World, r: Request)
    requires PendingNormal(w.users) && Normal(Lower(r.newEmail))
    ensures PendingNormal(AfterInitiate(w, r).users)
  {
    LowerIsPointwise(r.newEmail);
  }

  lemma FinalizeKeepsPending(w: World, user: User, avatarUrl: string -> string)
    requires PendingNormal(w.users)
    ensures PendingNormal(AfterFinalize(w, user, avatarUrl).users)
  {
    if FinalizeVerdict(w, user).Finalized? {
      var u := w.users[user.id];
      var email := Lower(u.newEmailPending.value);
      var existing := Existing(w, email);
      if existing.None? {
        StoringKeepsPending(w, Moved(u, email, w.now, avatarUrl));
      } else if existing.value == user.id {
        StoringKeepsPending(w, Renewed(u, email, w.now));
      } else {
        StoringKeepsPending(Next(w, Remove(existing.value)), Merged(u, email, w.now, avatarUrl));
      }
    }
  }

  lemma StoringKeepsPending(w: World, m: User)
    requires PendingNormal(w.users) && m.newEmailPending.None?
    ensures PendingNormal(Next(w, Store(m)).users)
  {
  }

  lemma MarkKeepsPending(w: World, id: nat, side: Side)
    requires Agrees(w) && PendingNormal(w.users) && id in w.users
    ensures var r := Next(w, Touch(Verified(w.users[id], side))); Agrees(r) && PendingNormal(r.users)
  {
    assert w.users[id].id == id;
    TouchKeepsAgreement(w, Verified(w.users[id], side));
  }

  lemma StoredTwice(users: Table, a: User, b: User)
    requires a.id == b.id
    ensures users[a.id := a][b.id := b] == users[b.id := b]
  {
  }

  lemma ResendKeepsAgreement(w: World, id: nat, currentToken: string, newToken: string)
    requires Agrees(w) && PendingNormal(w.users)
    ensures var r := AfterResend(w, id, currentToken, newToken); Agrees(r) && PendingNormal(r.users)
  {
    if ResendVerdict(w, id).LinksSent? {
      var u := w.users[id];
      assert u.id == id && Normal(u.email);
      StoringKeepsAgreement(w, Resent(u, currentToken, newToken, w.now));
    }
  }

  class Handlers {
    var users: Table
    const index: Index

    /** Takes over any table and an index that agrees with it. */
    constructor (users: Table, index: Index)
      requires Agrees(World(users, index.rows, 0)) && PendingNormal(users)
      ensures Valid() && this.users == users && this.index == index
    {
      this.users := users;
      this.index := index;
    }

    ghost function At(now: nat): World
      reads this, index
    {
      World(users, index.rows, now)
    }

    /** The index agrees with the table. */
    ghost predicate Valid()
      reads this, index
    {
      Agrees(At(0)) && PendingNormal(users)
    }

    /** DELETE with its cascade to the index. */
    method DeleteUser(id: nat, ghost now: nat)
      modifies this, index
      ensures At(now) == Next(old(At(now)), Remove(id))
    {
      users := users - {id};
      index.DeleteMany(id, {});
    }

    /** Writes a document back and synchronises the index with it. */
    method SaveAndSync(doc: User, now: nat)
      modifies this, index
      ensures At(now) == Next(old(At(now)), Store(doc))
    {
      users := users[doc.id := doc];
      index.Sync(doc, now, users.Keys);
    }

    method FindHolder(email: string, now: nat) returns (r: Option<nat>)
      ensures r == Existing(At(now), email)
    {
      var found := FindPrimary(index.rows, now, email);
      r := if found.Some? && found.value in users then found else None;
    }

    /** The checks before a request is stored, in the order of the handler. */
    method CheckRequest(r: Request, now: nat) returns (v: Verdict)
      ensures v == Judge(At(now), r)
      ensures Valid() && Normal(Lower(r.newEmail)) ==> (v.Accepted? <==> MayInitiate(users, now, r))
    {
      if Valid() && Normal(Lower(r.newEmail)) {
        AcceptedIff(At(now), r);
      }
      var user := r.user;
      if r.newEmail == "" {
        return NewEmailRequired;
      }
      if Present(user.newEmailPending) {
        return PendingExists;
      }
      if Present(user.previousEmail) && After(user.migrationExpiry, now) {
        return InGracePeriod;
      }
      if user.lastMigrationDate.Some? {
        var elapsed := now - user.lastMigrationDate.value;
        if elapsed < COOLDOWN {
          return CoolingDown;
        }
      }
      var existing := FindHolder(Lower(r.newEmail), now);
      if existing.Some? {
        if existing.value == user.id {
          return OwnEmail;
        }
        if !r.confirmOverride {
          return NeedsConfirmation;
        }
      }
      if user.provider.Local? {
        if !Present(r.password) {
          return PasswordRequired;
        }
        if user.id !in users || !r.passwordMatches {
          return InvalidPassword;
        }
      }
      v := if user.id in users then Accepted else AccountGone;
    }

    /** Writes the request into the document of the account. */
    method PrepareRequest(u: User, r: Request, now: nat) returns (doc: User)
      ensures doc == Initiated(u, r, now)
    {
      var email := Lower(r.newEmail);
      doc := u.(newEmailPending := Some(email));
      doc := doc.(currentEmailToken := Some(r.currentToken), newEmailToken := Some(r.newToken));
      doc := doc.(currentEmailVerified := Some(false), newEmailVerified := Some(false));
      doc := doc.(migrationTokenExpires := Some(now + TOKEN_LIFE), lastMigrationEmailSent := Some(now));
      doc := doc.(migrationHistory := doc.migrationHistory + [HistoryEntry(doc.email, email, Pending, false, false)]);
    }

    method InitiateMigration(r: Request, now: nat) returns (v: Verdict)
      requires Valid() && Normal(Lower(r.newEmail))
      modifies this, index
      ensures Valid()
      ensures v == Judge(old(At(now)), r)
      ensures At(now) == AfterInitiate(old(At(now)), r)
      ensures v.Accepted? <==> MayInitiate(old(users), now, r)
      ensures v.Accepted? <==> At(now) != old(At(now))
    {
      ghost var w := At(now);
      AcceptedIff(w, r);
      InitiationChangesIff(w, r);
      InitiateKeepsAgreement(w, r);
      InitiateKeepsPending(w, r);
      v := CheckRequest(r, now);
      if !v.Accepted? {
        return;
      }
      var doc := PrepareRequest(users[r.user.id], r, now);
      SaveAndSync(doc, now);
    }

    /** Another account, `existing`, holds the new address: it is deleted first. */
    method MergeAccounts(current: User, existing: nat, email: string, now: nat, avatarUrl: string -> string)
      modifies this, index
      ensures At(now) == Next(Next(old(At(now)), Remove(existing)), Store(Merged(current, email, now, avatarUrl)))
    {
      var preserved := Extracted(current);
      index.DeleteMany(existing, {});
      DeleteUser(existing, now);
      ghost var removed := Next(old(At(now)), Remove(existing));
      assert At(now) == removed;
      var doc := Renamed(current, email, now).(tokenVersion := current.tokenVersion + 1);
      users := users[doc.id := doc];
      doc := CompleteMerge(current, doc, preserved, email, now, avatarUrl);
      StoredTwice(removed.users, Renamed(current, email, now).(tokenVersion := current.tokenVersion + 1), doc);
      SaveAndSync(doc, now);
    }

    /** Puts the profile back into the renamed document and completes its history. */
    method CompleteMerge(ghost current: User, renamed: User, preserved: Preserved, email: string, ghost now: nat,
                         avatarUrl: string -> string) returns (doc: User)
      requires renamed == Renamed(current, email, now).(tokenVersion := current.tokenVersion + 1)
               && preserved == Extracted(current)
      ensures doc == Merged(current, email, now, avatarUrl)
    {
      doc := Applied(renamed, preserved, email, avatarUrl);
      var history := SettleHistory(doc.migrationHistory, email,
                                   Success(if Present(doc.previousEmail) then doc.previousEmail.value
                                           else doc.email, email));
      doc := doc.(migrationHistory := history);
    }

    /** The account holds the new address itself. */
    method RenewAccount(current: User, email: string, now: nat)
      modifies this, index
      ensures At(now) == Next(old(At(now)), Store(Renewed(current, email, now)))
    {
      var doc := Renamed(current, email, now).(tokenVersion := current.tokenVersion + 1);
      users := users[doc.id := doc];
      var history := SettleHistory(doc.migrationHistory, email, Success(doc.email, email));
      doc := doc.(migrationHistory := history);
      assert doc == Renewed(current, email, now);
      SaveAndSync(doc, now);
      assert users == old(users)[doc.id := doc];
    }

    /** Nobody holds the new address. */
    method MoveAccount(current: User, email: string, now: nat, avatarUrl: string -> string)
      modifies this, index
      ensures At(now) == Next(old(At(now)), Store(Moved(current, email, now, avatarUrl)))
    {
      var preserved, oldEmail := Extracted(current), current.email;
      var doc := current.(previousEmail := Some(oldEmail), email := email);
      doc := doc.(migrationExpiry := Some(now + GRACE_PERIOD), lastMigrationDate := Some(now), isEmailVerified := true);
      doc := Applied(doc, preserved, email, avatarUrl);
      var history := SettleHistory(doc.migrationHistory, email, Success(oldEmail, email));
      doc := doc.(migrationHistory := history);
      doc := doc.(migrationTokenExpires := None, newEmailPending := None, currentEmailVerified := None,
                  newEmailVerified := None, currentEmailToken := None, newEmailToken := None);
      assert doc == Moved(current, email, now, avatarUrl);
      SaveAndSync(doc, now);
    }

    /** `user` is the document the caller loaded. */
    method FinalizeMigration(user: User, now: nat, avatarUrl: string -> string) returns (v: FinalizeResult)
      requires Valid()
      modifies this, index
      ensures Valid()
      ensures v == FinalizeVerdict(old(At(now)), user)
      ensures At(now) == AfterFinalize(old(At(now)), user, avatarUrl)
      ensures v.Finalized? <==> MayFinalize(old(users), user)
    {
      ghost var w := At(now);
      FinalizedIff(w, user);
      FinalizeKeepsAgreement(w, user, avatarUrl);
      FinalizeKeepsPending(w, user, avatarUrl);
      if !Present(user.newEmailPending) {
        return NoPending;
      }
      if user.id !in users {
        return UserNotFound;
      }
      var current := users[user.id];
      if current.tokenVersion != user.tokenVersion {
        return Stale;
      }
      if !Present(current.newEmailPending) {
        return NoPending;
      }
      var email := Lower(current.newEmailPending.value);
      var existing := FindHolder(email, now);
      if existing.None? {
        MoveAccount(current, email, now, avatarUrl);
      } else if existing.value == user.id {
        RenewAccount(current, email, now);
      } else {
        MergeAccounts(current, existing.value, email, now, avatarUrl);
      }
      v := Finalized;
    }

    /** Marks one side as verified, and notes it in the history of the reloaded document. */
    method NoteVerified(id: nat, side: Side)
      requires id in users
      modifies this`users
      ensures users == old(users)[id := Verified(old(users)[id], side)]
    {
      var user := users[id];
      user := if side.Current? then user.(currentEmailVerified := Some(true))
              else user.(newEmailVerified := Some(true));
      users := users[id := user];
      var reloaded := users[id];
      var history := reloaded.migrationHistory;
      if history != [] && user.newEmailPending.Some?
        && PendingTo(history[|history| - 1], Lower(user.newEmailPending.value)) {
        var latest := history[|history| - 1];
        latest := if side.Current? then latest.(currentEmailVerified := true) else latest.(newEmailVerified := true);
        reloaded := reloaded.(migrationHistory := history[|history| - 1 := latest]);
        users := users[id := reloaded];
      }
      assert users[id] == Verified(old(users)[id], side);
    }

    /** Marks one side, and finalises when both are verified. */
    method MarkVerified(id: nat, side: Side, now: nat, avatarUrl: string -> string)
      requires Valid() && id in users
      modifies this, index
      ensures Valid()
      ensures At(now) == AfterMark(old(At(now)), id, side, avatarUrl)
    {
      ghost var w := At(now);
      assert w.users[id].id == id;
      MarkKeepsPending(w, id, side);
      NoteVerified(id, side);
      ghost var marked := Next(w, Touch(Verified(w.users[id], side)));
      assert At(now) == marked && At(0) == marked.(now := 0);
      assert Valid();
      var updated := users[id];
      if BothVerified(updated) {
        var _ := FinalizeMigration(updated, now, avatarUrl);
      }
    }

    /** The account a link's token leads to, if any. */
    method VerifyCurrentEmail(token: string, now: nat, avatarUrl: string -> string) returns (found: Option<nat>)
      requires Valid()
      modifies this, index
      ensures Valid()
      ensures match found
              case None => At(now) == old(At(now)) && forall x :: x in old(users)
                                                          ==> !HoldsCurrentToken(old(users)[x], token, now)
              case Some(id) => id in old(users) && HoldsCurrentToken(old(users)[id], token, now)
                               && At(now) == AfterMark(old(At(now)), id, Current, avatarUrl)
    {
      var holders := set x | x in users && HoldsCurrentToken(users[x], token, now);
      if holders == {} {
        assert forall x :: x in users && HoldsCurrentToken(users[x], token, now) ==> x in holders;
        return None;
      }
      var id :| id in holders;
      MarkVerified(id, Current, now, avatarUrl);
      found := Some(id);
    }

    method VerifyNewEmail(token: string, newId: nat, now: nat, avatarUrl: string -> string) returns (found: Option<nat>)
      requires Valid() && newId !in users
      modifies this, index
      ensures Valid()
      ensures match found
              case None => At(now) == old(At(now)) && forall x :: x in old(users)
                                                          ==> !HoldsNewToken(old(users)[x], token, now)
              case Some(id) => id in old(users) && HoldsNewToken(old(users)[id], token, now)
                               && At(now) == AfterVerify(old(At(now)), id, New, newId, avatarUrl)
    {
      ghost var w := At(now);
      var holders := set x | x in users && HoldsNewToken(users[x], token, now);
      if holders == {} {
        assert forall x :: x in users && HoldsNewToken(users[x], token, now) ==> x in holders;
        return None;
      }
      var id :| id in holders;
      var email := Lower(users[id].newEmailPending.value);
      HolderKeepsAgreement(w, email, newId);
      var existing := FindHolder(email, now);
      if existing.None? {
        SaveAndSync(Placeholder(newId, email), now);
      }
      assert At(now) == WithHolder(w, email, newId);
      MarkVerified(id, New, now, avatarUrl);
      found := Some(id);
    }

    method ResendMigrationEmails(id: nat, currentToken: string, newToken: string, now: nat) returns (v: ResendResult)
      requires Valid()
      modifies this, index
      ensures Valid()
      ensures v == ResendVerdict(old(At(now)), id)
      ensures At(now) == AfterResend(old(At(now)), id, currentToken, newToken)
      ensures v.LinksSent? <==> MayResend(old(users), now, id)
    {
      ghost var w := At(now);
      ResentIff(w, id);
      ResendKeepsAgreement(w, id, currentToken, newToken);
      if id !in users {
        return NoSuchAccount;
      }
      var doc := users[id];
      if !Present(doc.newEmailPending) || doc.migrationTokenExpires.None? || doc.migrationTokenExpires.value < now {
        return NothingPending;
      }
      if doc.lastMigrationEmailSent.Some? {
        var elapsed := now - doc.lastMigrationEmailSent.value;
        if elapsed < RESEND_COOLDOWN {
          return TooSoon;
        }
      }
      doc := doc.(currentEmailToken := Some(currentToken), newEmailToken := Some(newToken));
      doc := doc.(migrationTokenExpires := Some(now + TOKEN_LIFE), lastMigrationEmailSent := Some(now));
      assert doc == Resent(users[id], currentToken, newToken, now);
      SaveAndSync(doc, now);
      v := LinksSent;
    }

    /** For an account whose automatic finalisation did not happen. */
    method FinalizeByHand(id: nat, now: nat, avatarUrl: string -> string) returns (v: FinalizeResult)
      requires Valid()
      modifies this, index
      ensures Valid()
      ensures v.Finalized? <==> id in old(users) && BothVerified(old(users)[id])
      ensures At(now) == AfterFinalizeByHand(old(At(now)), id, avatarUrl)
    {
      assert id in users ==> users[id].id == id;
      if id !in users {
        return UserNotFound;
      }
      if !BothVerified(users[id]) {
        return NoPending;
      }
      v := FinalizeMigration(users[id], now, avatarUrl);
    }
  }
}
