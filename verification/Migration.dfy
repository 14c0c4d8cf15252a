/** Moving an account to a new email address: initiation, the two verifications and the finalisation. */
module Migration {
  import opened Wrappers
  import opened Emails
  import opened Users
  import opened IdentityIndex
  import opened IndexRuns

  const TOKEN_LIFE: nat := 24 * 60 * 60 * 1000
  const GRACE_PERIOD: nat := 5 * 24 * 60 * 60 * 1000
  const COOLDOWN: nat := 10 * 24 * 60 * 60 * 1000

  // ---------------------------------------------------------------------------------------
  // The migration history
  // ---------------------------------------------------------------------------------------

  predicate PendingTo(e: HistoryEntry, to_: string) {
    e.status.Pending? && e.toEmail == to_
  }

  function Completed(e: HistoryEntry): HistoryEntry {
    e.(status := Succeeded, currentEmailVerified := true, newEmailVerified := true)
  }

  /** The first pending entry for the address is completed; without one, `otherwise` is appended. */
  function Settled(history: seq<HistoryEntry>, to_: string, otherwise: HistoryEntry): seq<HistoryEntry> {
    if history == [] then [otherwise]
    else if PendingTo(history[0], to_) then [Completed(history[0])] + history[1..]
    else [history[0]] + Settled(history[1..], to_, otherwise)
  }

  lemma {:induction false} SettledAt(history: seq<HistoryEntry>, to_: string, otherwise: HistoryEntry, k: nat)
    requires forall i :: 0 <= i < k && i < |history| ==> !PendingTo(history[i], to_)
    requires k < |history| ==> PendingTo(history[k], to_)
    requires k <= |history|
    ensures Settled(history, to_, otherwise)
         == if k < |history| then history[k := Completed(history[k])] else history + [otherwise]
  {
    if k > 0 {
      SettledAt(history[1..], to_, otherwise, k - 1);
    } else if history != [] {
      assert history[0 := Completed(history[0])] == [Completed(history[0])] + history[1..];
    }
  }

  method SettleHistory(history: seq<HistoryEntry>, to_: string, otherwise: HistoryEntry) returns (r: seq<HistoryEntry>)
    ensures r == Settled(history, to_, otherwise)
  {
    for k := 0 to |history|
      invariant forall i :: 0 <= i < k ==> !PendingTo(history[i], to_)
    {
      if PendingTo(history[k], to_) {
        SettledAt(history, to_, otherwise, k);
        return history[k := Completed(history[k])];
      }
    }
    SettledAt(history, to_, otherwise, |history|);
    r := history + [otherwise];
  }

  datatype Side = Current | New

  /** The latest entry, if it is pending for the address, records which side has been verified. */
  function Noted(history: seq<HistoryEntry>, to_: Option<string>, side: Side): seq<HistoryEntry> {
    if history == [] || to_.None? then history
    else
      var last := history[|history| - 1];
      if !PendingTo(last, Lower(to_.value)) then history
      else history[|history| - 1 := if side.Current? then last.(currentEmailVerified := true)
                                  else last.(newEmailVerified := true)]
  }

  // ---------------------------------------------------------------------------------------
  // What is preserved
  // ---------------------------------------------------------------------------------------

  datatype Preserved = Preserved(bio: string, displayName: string, avatar: Option<string>, loginCount: nat,
                                 lastLogin: Option<nat>, provider: Provider, providerId: Option<string>)

  function Extracted(u: User): Preserved {
    Preserved(if Present(u.bio) then u.bio.value else "", u.displayName, u.avatar, u.loginCount, u.lastLogin,
              u.provider, u.providerId)
  }

  /** `avatarUrl` is the Gravatar address of an email. */
  function Applied(u: User, p: Preserved, newEmail: string, avatarUrl: string -> string): User {
    u.(bio := Some(p.bio), displayName := p.displayName,
       avatar := if Present(p.avatar) then p.avatar else Some(avatarUrl(newEmail)),
       loginCount := p.loginCount, lastLogin := p.lastLogin, provider := p.provider, providerId := p.providerId)
  }

  /** The check after the save. */
  predicate Survives(u: User, p: Preserved) {
    (p.bio != "" ==> u.bio == Some(p.bio)) && u.displayName == p.displayName && u.provider == p.provider
  }

  /** What was extracted from one document and applied to any other is extracted from it again, but for an
      absent avatar; the other document changes in its profile only, and the check after the save succeeds. */
  lemma ProfileSurvives(u: User, v: User, newEmail: string, avatarUrl: string -> string)
    ensures var w := Applied(v, Extracted(u), newEmail, avatarUrl);
            && Extracted(w) == Extracted(u).(avatar := if Present(u.avatar) then u.avatar
                                                       else Some(avatarUrl(newEmail)))
            && v == w.(bio := v.bio, displayName := v.displayName, avatar := v.avatar, loginCount := v.loginCount,
                       lastLogin := v.lastLogin, provider := v.provider, providerId := v.providerId)
            && Survives(w, Extracted(u))
  {
  }

  // ---------------------------------------------------------------------------------------
  // Documents after each step
  // ---------------------------------------------------------------------------------------

  /** `user` is the document the caller was authenticated with. */
  datatype Request = Request(user: User, newEmail: string, confirmOverride: bool, password: Option<string>,
                             passwordMatches: bool, currentToken: string, newToken: string)

  function Initiated(u: User, r: Request, now: nat): User {
    var to_ := Lower(r.newEmail);
    u.(newEmailPending := Some(to_), currentEmailToken := Some(r.currentToken), newEmailToken := Some(r.newToken),
       currentEmailVerified := Some(false), newEmailVerified := Some(false),
       migrationTokenExpires := Some(now + TOKEN_LIFE), lastMigrationEmailSent := Some(now),
       migrationHistory := u.migrationHistory + [HistoryEntry(u.email, to_, Pending, false, false)])
  }

  function Verified(u: User, side: Side): User {
    var v := if side.Current? then u.(currentEmailVerified := Some(true)) else u.(newEmailVerified := Some(true));
    v.(migrationHistory := Noted(u.migrationHistory, u.newEmailPending, side))
  }

  /** The text before the first '@'. */
  function LocalPart(email: string): string {
    if email == "" || email[0] == '@' then "" else [email[0]] + LocalPart(email[1..])
  }

  /** The account made to hold the new address until finalisation. */
  function Placeholder(id: nat, email: string): User {
    User(id, email, None, "User " + LocalPart(email), None, None, false, 0, None, Local, None, 0,
         None, None, None, None, None, None, None, None, None, [], map[])
  }

  /** The columns the finalisation sets, before the profile is put back. */
  function Renamed(u: User, to_: string, now: nat): User {
    u.(previousEmail := Some(u.email), email := to_, migrationExpiry := Some(now + GRACE_PERIOD),
       lastMigrationDate := Some(now), isEmailVerified := true, newEmailPending := None,
       migrationTokenExpires := None, currentEmailVerified := None, newEmailVerified := None,
       currentEmailToken := None, newEmailToken := None)
  }

  function Success(from_: string, to_: string): HistoryEntry {
    HistoryEntry(from_, to_, Succeeded, true, true)
  }

  /** Nobody holds the new address: renamed in place. */
  function Moved(u: User, to_: string, now: nat, avatarUrl: string -> string): User {
    var v := Applied(Renamed(u, to_, now), Extracted(u), to_, avatarUrl);
    v.(migrationHistory := Settled(u.migrationHistory, to_, Success(u.email, to_)))
  }

  /** Another account holds it and is deleted. */
  function Merged(u: User, to_: string, now: nat, avatarUrl: string -> string): User {
    var v := Applied(Renamed(u, to_, now), Extracted(u), to_, avatarUrl);
    v.(tokenVersion := u.tokenVersion + 1,
       migrationHistory := Settled(u.migrationHistory, to_, Success(if u.email != "" then u.email else to_, to_)))
  }

  /** The account holds it itself. */
  function Renewed(u: User, to_: string, now: nat): User {
    Renamed(u, to_, now).(tokenVersion := u.tokenVersion + 1,
                          migrationHistory := Settled(u.migrationHistory, to_, Success(to_, to_)))
  }

  // ---------------------------------------------------------------------------------------
  // The steps on the users table and the index
  // ---------------------------------------------------------------------------------------

  datatype Verdict =
    | Accepted | NewEmailRequired | PendingExists | InGracePeriod | CoolingDown
    | OwnEmail | NeedsConfirmation | PasswordRequired | InvalidPassword | AccountGone

  /** The account the index finds under an address, if it still exists. */
  function Existing(w: World, email: string): Option<nat> {
    var e := FindPrimary(w.rows, w.now, email);
    if e.Some? && e.value in w.users then e else None
  }

  function Judge(w: World, r: Request): Verdict {
    var u := r.user;
    var existing := Existing(w, Lower(r.newEmail));
    if r.newEmail == "" then NewEmailRequired
    else if Present(u.newEmailPending) then PendingExists
    else if Present(u.previousEmail) && After(u.migrationExpiry, w.now) then InGracePeriod
    else if u.lastMigrationDate.Some? && w.now - u.lastMigrationDate.value < COOLDOWN then CoolingDown
    else if existing == Some(u.id) then OwnEmail
    else if existing.Some? && !r.confirmOverride then NeedsConfirmation
    else if u.provider.Local? && !Present(r.password) then PasswordRequired
    else if u.provider.Local? && (u.id !in w.users || !r.passwordMatches) then InvalidPassword
    else if u.id !in w.users then AccountGone
    else Accepted
  }

  function AfterInitiate(w: World, r: Request): World {
    if Judge(w, r).Accepted? then Next(w, Store(Initiated(w.users[r.user.id], r, w.now))) else w
  }

  datatype FinalizeResult = Finalized | NoPending | UserNotFound | Stale

  /** `user` is the document the caller holds; the row may have changed since. */
  function FinalizeVerdict(w: World, user: User): FinalizeResult {
    if !Present(user.newEmailPending) then NoPending
    else if user.id !in w.users then UserNotFound
    else if w.users[user.id].tokenVersion != user.tokenVersion then Stale
    else if !Present(w.users[user.id].newEmailPending) then NoPending
    else Finalized
  }

  function AfterFinalize(w: World, user: User, avatarUrl: string -> string): World {
    if !FinalizeVerdict(w, user).Finalized? then w
    else
      var u := w.users[user.id];
      var to_ := Lower(u.newEmailPending.value);
      var existing := Existing(w, to_);
      if existing.None? then Next(w, Store(Moved(u, to_, w.now, avatarUrl)))
      else if existing.value == user.id then Next(w, Store(Renewed(u, to_, w.now)))
      else Next(Next(w, Remove(existing.value)), Store(Merged(u, to_, w.now, avatarUrl)))
  }

  predicate BothVerified(u: User) {
    u.currentEmailVerified == Some(true) && u.newEmailVerified == Some(true) && Present(u.newEmailPending)
  }

  predicate HoldsCurrentToken(u: User, token: string, now: nat) {
    u.currentEmailToken == Some(token) && After(u.migrationTokenExpires, now)
  }

  predicate HoldsNewToken(u: User, token: string, now: nat) {
    u.newEmailToken == Some(token) && After(u.migrationTokenExpires, now) && u.newEmailPending.Some?
  }

  /** One side of the account is marked as verified, and the migration finalised if that was the second. */
  function AfterMark(w: World, id: nat, side: Side, avatarUrl: string -> string): World {
    if id !in w.users then w
    else
      var v := Verified(w.users[id], side);
      var w' := Next(w, Touch(v));
      if BothVerified(v) then AfterFinalize(w', v, avatarUrl) else w'
  }

  /** The placeholder is stored where nobody holds the new address. */
  function WithHolder(w: World, email: string, newId: nat): World {
    if Existing(w, email).Some? then w else Next(w, Store(Placeholder(newId, email)))
  }

  /** The verification of one side for the account its token has led to. */
  function AfterVerify(w: World, id: nat, side: Side, newId: nat, avatarUrl: string -> string): World {
    if side.Current? then AfterMark(w, id, Current, avatarUrl)
    else if id !in w.users || w.users[id].newEmailPending.None? then w
    else AfterMark(WithHolder(w, Lower(w.users[id].newEmailPending.value), newId), id, New, avatarUrl)
  }

  // ---------------------------------------------------------------------------------------
  // Sending the links again, and finalising by hand
  // ---------------------------------------------------------------------------------------

  const RESEND_COOLDOWN: nat := 30 * 1000

  function Resent(u: User, currentToken: string, newToken: string, now: nat): User {
    u.(currentEmailToken := Some(currentToken), newEmailToken := Some(newToken),
       migrationTokenExpires := Some(now + TOKEN_LIFE), lastMigrationEmailSent := Some(now))
  }

  datatype ResendResult = LinksSent | NoSuchAccount | NothingPending | TooSoon

  /** Links whose last moment has come may still be sent again, though no longer be clicked. */
  function ResendVerdict(w: World, id: nat): ResendResult {
    if id !in w.users then NoSuchAccount
    else
      var u := w.users[id];
      if !Present(u.newEmailPending) || u.migrationTokenExpires.None? || u.migrationTokenExpires.value < w.now
      then NothingPending
      else if u.lastMigrationEmailSent.Some? && w.now - u.lastMigrationEmailSent.value < RESEND_COOLDOWN then TooSoon
      else LinksSent
  }

  function AfterResend(w: World, id: nat, currentToken: string, newToken: string): World {
    if ResendVerdict(w, id).LinksSent? then Next(w, Store(Resent(w.users[id], currentToken, newToken, w.now))) else w
  }

  function AfterFinalizeByHand(w: World, id: nat, avatarUrl: string -> string): World {
    if id in w.users && BothVerified(w.users[id]) then AfterFinalize(w, w.users[id], avatarUrl) else w
  }
}
