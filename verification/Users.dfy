/** The users table as the account workflows see it. */
module Users {
  import opened Wrappers
  import opened Emails

  datatype Provider = Local | Google | Github

  datatype Status = Pending | Succeeded

  /** One migration in an account's history; its timestamps are not modelled. */
  datatype HistoryEntry = HistoryEntry(fromEmail: string, toEmail: string, status: Status,
                                       currentEmailVerified: bool, newEmailVerified: bool)

  /** One row. `others` stands for the columns no workflow here touches. */
  datatype User = User(
    id: nat,
    email: string,
    previousEmail: Option<string>,
    displayName: string,
    avatar: Option<string>,
    bio: Option<string>,
    isEmailVerified: bool,
    loginCount: nat,
    lastLogin: Option<nat>,
    provider: Provider,
    providerId: Option<string>,
    tokenVersion: nat,
    migrationExpiry: Option<nat>,
    migrationTokenExpires: Option<nat>,
    newEmailPending: Option<string>,
    lastMigrationDate: Option<nat>,
    lastMigrationEmailSent: Option<nat>,
    currentEmailVerified: Option<bool>,
    newEmailVerified: Option<bool>,
    currentEmailToken: Option<string>,
    newEmailToken: Option<string>,
    migrationHistory: seq<HistoryEntry>,
    others: map<string, string>)

  type Table = map<nat, User>

  /** Rows are filed under their own id. */
  ghost predicate Filed(users: Table) {
    forall id :: id in users ==> users[id].id == id
  }

  predicate SameLogin(u: User, v: User) {
    u.providerId.Some? && u.provider == v.provider && u.providerId == v.providerId
  }

  /** UNIQUE (email). */
  ghost predicate UniqueEmails(users: Table) {
    forall a, b :: a in users && b in users && users[a].email == users[b].email ==> a == b
  }

  /** UNIQUE (provider, provider_id), under which NULLs never clash. */
  ghost predicate UniqueLogins(users: Table) {
    forall a, b :: a in users && b in users && SameLogin(users[a], users[b]) ==> a == b
  }

  ghost predicate AllNormal(users: Table) {
    forall id :: id in users ==> Normal(users[id].email)
  }

  /** A table the database can be in, its addresses in canonical form. */
  ghost predicate Proper(users: Table) {
    Filed(users) && UniqueEmails(users) && UniqueLogins(users) && AllNormal(users)
  }

  /** A JavaScript string field that counts as set: neither missing nor empty. */
  predicate Present(s: Option<string>) {
    s.Some? && s.value != ""
  }

  predicate After(t: Option<nat>, now: nat) {
    t.Some? && t.value > now
  }
}
