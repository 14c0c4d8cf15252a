/** The lookups of former and pending addresses, to which several users may lay claim at once. */
module IndexClaims {
  import opened Wrappers
  import opened Emails
  import opened Users
  import opened IdentityIndex
  import opened IndexRuns
  import opened Migration
  import opened MigrationRuns

  predicate Shareable(kind: Kind) {
    kind.PreviousEmail? || kind.PendingMigration?
  }

  lemma ClaimIsExpected(u: User, kind: Kind, email: string, now: nat)
    requires Shareable(kind)
    ensures Claims(u, kind, email, now) <==> KeyOf(kind, email) in Expected(u, now)
  {
  }

  /** Whom the index leads to. */
  function Leads(w: World, kind: Kind, email: string): Option<nat> {
    var e := ActiveAt(w.rows, KeyOf(kind, email), w.now);
    if e.Some? then Some(e.value.userId) else None
  }

  lemma SharedRowIs(w: World, kind: Kind, email: string)
    requires Agrees(w) && Shareable(kind) && KeyOf(kind, email) in w.rows
    ensures var e := w.rows[KeyOf(kind, email)]; e.verified.None? && e.expiresAt.Some?
  {
    assert RowImplied(w.users, w.rows, KeyOf(kind, email));
  }

  /** The lookups of the service are this one; the resolver tries the three kinds in order, and knows of a verification
      only where the address is the user's own. */
  lemma LookupsLead(w: World, email: string)
    requires Agrees(w)
    ensures FindPrimary(w.rows, w.now, email) == Leads(w, PrimaryEmail, email)
    ensures FindPending(w.rows, w.now, email) == Leads(w, PendingMigration, email)
    ensures var own, former, next := Leads(w, PrimaryEmail, email), Leads(w, PreviousEmail, email),
                                     Leads(w, PendingMigration, email);
            var r := Resolve(w.rows, w.now, email);
            if own.Some? then r.Some? && r.value.via.Primary? && r.value.userId == own.value
            else if former.Some? then r == Some(Resolved(former.value, Previous, None))
            else if next.Some? then r == Some(Resolved(next.value, PendingTarget, None))
            else r.None?
  {
    forall kind: Kind | Shareable(kind) && KeyOf(kind, email) in w.rows
      ensures w.rows[KeyOf(kind, email)].verified.None? && w.rows[KeyOf(kind, email)].expiresAt.Some?
    {
      SharedRowIs(w, kind, email);
    }
  }

  // ---------------------------------------------------------------------------------------
  // The last claim counts
  // ---------------------------------------------------------------------------------------

  predicate ClaimedBy(w: World, a: Act, k: Key) {
    a.Store? && k in Expected(a.u, w.now)
  }

  /** Who was the last to be saved with a claim on the key. */
  function LastClaimant(w: World, acts: seq<Act>, k: Key, before: Option<nat>): Option<nat>
    decreases acts
  {
    if acts == [] then before
    else LastClaimant(Next(w, acts[0]), acts[1..], k, if ClaimedBy(w, acts[0], k) then Some(acts[0].u.id) else before)
  }

  /** The row under the key is the last claimant's, who keeps it while it has the claim. */
  ghost predicate LastHolds(w: World, k: Key, last: Option<nat>) {
    && (k in w.rows ==> last == Some(w.rows[k].userId))
    && (last.Some? && last.value in w.users && k in Expected(w.users[last.value], w.now) ==> k in w.rows)
  }

  lemma ActKeepsLast(w: World, a: Act, k: Key, last: Option<nat>)
    requires Agrees(w) && Allowed(w, a) && LastHolds(w, k, last)
    ensures LastHolds(Next(w, a), k, if ClaimedBy(w, a, k) then Some(a.u.id) else last)
  {
    match a
    case Store(u) => StoreKeepsLast(w, u, k, last);
    case Touch(u) => SameIdentitySameKeys(u, w.users[u.id]);
    case _ =>
  }

  lemma StoreKeepsLast(w: World, u: User, k: Key, last: Option<nat>)
    requires Filed(w.users) && LastHolds(w, k, last)
    ensures LastHolds(Next(w, Store(u)), k, if k in Expected(u, w.now) then Some(u.id) else last)
  {
    PermanentKeysAreExpected(u, w.now);
  }

  lemma {:induction false} RunKeepsLast(w: World, acts: seq<Act>, k: Key, last: Option<nat>)
    requires Agrees(w) && AllAllowed(w, acts) && LastHolds(w, k, last)
    ensures LastHolds(Run(w, acts), k, LastClaimant(w, acts, k, last))
    decreases acts
  {
    if acts != [] {
      ActKeepsLast(w, acts[0], k, last);
      StepKeepsAgreement(w, acts[0]);
      RunKeepsLast(Next(w, acts[0]), acts[1..], k, if ClaimedBy(w, acts[0], k) then Some(acts[0].u.id) else last);
    }
  }

  lemma LastClaimantIsLedTo(w: World, kind: Kind, email: string, last: Option<nat>, id: nat)
    requires Agrees(w) && Shareable(kind) && LastHolds(w, KeyOf(kind, email), last)
    requires id in w.users && Claims(w.users[id], kind, email, w.now)
    ensures Leads(w, kind, email) == Some(id) <==> last == Some(id)
  {
    var k := KeyOf(kind, email);
    ClaimIsExpected(w.users[id], kind, email, w.now);
    if last == Some(id) {
      assert RowImplied(w.users, w.rows, k);
    }
  }

  /** After any run since the tables were created, a user with a claim to an address is found under it if and only
      if nobody else has been saved with a claim to it since. */
  lemma ClaimantIsFoundIffLast(now: nat, acts: seq<Act>, kind: Kind, email: string, id: nat)
    requires AllAllowed(World(map[], map[], now), acts) && Shareable(kind)
    requires var w := Run(World(map[], map[], now), acts); id in w.users && Claims(w.users[id], kind, email, w.now)
    ensures Leads(Run(World(map[], map[], now), acts), kind, email) == Some(id)
       <==> LastClaimant(World(map[], map[], now), acts, KeyOf(kind, email), None) == Some(id)
  {
    var empty := World(map[], map[], now);
    ReachableAgrees(now, acts);
    EmptyAgrees(now);
    RunKeepsLast(empty, acts, KeyOf(kind, email), None);
    LastClaimantIsLedTo(Run(empty, acts), kind, email, LastClaimant(empty, acts, KeyOf(kind, email), None), id);
  }

  function Claimant(id: nat, email: string, pending: string): User {
    Placeholder(id, email).(newEmailPending := Some(pending), migrationTokenExpires := Some(TOKEN_LIFE))
  }

  /** Two users are about to move to one address. The later one is deleted, and the earlier is not found although
      it is still about to move there. */
  lemma DeletedClaimIsLost(first: string, second: string, email: string) returns (acts: seq<Act>)
    requires Normal(first) && Normal(second) && first != second && email != ""
    ensures AllAllowed(World(map[], map[], 0), acts)
    ensures var w := Run(World(map[], map[], 0), acts);
            && 0 in w.users && Claims(w.users[0], PendingMigration, email, w.now)
            && FindPending(w.rows, w.now, email).None?
  {
    var u, v := Claimant(0, first, email), Claimant(1, second, email);
    var w0 := World(map[], map[], 0);
    var w1 := Next(w0, Store(u));
    acts := [Store(u), Store(v), Remove(1)];
    PlaceholderKeepsProper(w0.users, u);
    PlaceholderKeepsProper(w1.users, v);
    ThreeActs(w0, Store(u), Store(v), Remove(1));
    ClaimIsExpected(v, PendingMigration, email, 0);
  }

  lemma FirstAct(w: World, a: Act, rest: seq<Act>)
    ensures Run(w, [a] + rest) == Run(Next(w, a), rest)
    ensures Allowed(w, a) && AllAllowed(Next(w, a), rest) ==> AllAllowed(w, [a] + rest)
  {
    assert ([a] + rest)[1..] == rest;
  }

  lemma ThreeActs(w: World, a: Act, b: Act, c: Act)
    requires Allowed(w, a) && Allowed(Next(w, a), b) && Allowed(Next(Next(w, a), b), c)
    ensures AllAllowed(w, [a, b, c]) && Run(w, [a, b, c]) == Next(Next(Next(w, a), b), c)
  {
    FirstAct(Next(Next(w, a), b), c, []);
    FirstAct(Next(w, a), b, [c]);
    FirstAct(w, a, [b, c]);
    assert [a, b, c] == [a] + [b, c] && [b, c] == [b] + [c] && [c] == [c] + [];
  }

  // ---------------------------------------------------------------------------------------
  // Claims that are never shared
  // ---------------------------------------------------------------------------------------

  ghost predicate Unshared(w: World, k: Key) {
    forall x, y :: x in w.users && y in w.users && k in Expected(w.users[x], w.now) && k in Expected(w.users[y], w.now)
      ==> x == y
  }

  /** At no moment of the run do two users have a claim to the key. */
  ghost predicate NeverShared(w: World, acts: seq<Act>, k: Key)
    decreases acts
  {
    Unshared(w, k) && (acts == [] || NeverShared(Next(w, acts[0]), acts[1..], k))
  }

  /** Whoever has a claim holds the row. */
  ghost predicate ClaimHeld(w: World, k: Key) {
    forall x :: x in w.users && k in Expected(w.users[x], w.now) ==> Holds(w.rows, w.users[x], k)
  }

  lemma ActKeepsClaimHeld(w: World, a: Act, k: Key)
    requires Agrees(w) && Allowed(w, a) && ClaimHeld(w, k) && Unshared(Next(w, a), k)
    ensures ClaimHeld(Next(w, a), k)
  {
    match a
    case Store(u) => StoreKeepsClaimHeld(w, u, k);
    case Touch(u) => SameIdentitySameKeys(u, w.users[u.id]);
    case _ => ShrinkingKeepsClaimHeld(w, a, k);
  }

  lemma ShrinkingKeepsClaimHeld(w: World, a: Act, k: Key)
    requires Agrees(w) && ClaimHeld(w, k) && (a.Remove? || a.Sweep? || a.Pass?)
    ensures ClaimHeld(Next(w, a), k)
  {
    var r := Next(w, a);
    forall x | x in r.users && k in Expected(r.users[x], r.now) ensures Holds(r.rows, r.users[x], k) {
      assert w.users[x].id == x && Holds(w.rows, w.users[x], k);
      assert RowImplied(w.users, w.rows, k);
    }
  }

  lemma StoreKeepsClaimHeld(w: World, u: User, k: Key)
    requires Filed(w.users) && ClaimHeld(w, k) && Unshared(Next(w, Store(u)), k)
    ensures ClaimHeld(Next(w, Store(u)), k)
  {
    var r := Next(w, Store(u));
    PermanentKeysAreExpected(u, w.now);
    forall x | x in r.users && k in Expected(r.users[x], r.now) ensures Holds(r.rows, r.users[x], k) {
      assert u.id in r.users && r.users[u.id] == u;
      if x != u.id {
        assert k !in Expected(u, w.now);
        assert Holds(w.rows, w.users[x], k);
      }
    }
  }

  lemma {:induction false} RunKeepsClaimHeld(w: World, acts: seq<Act>, k: Key)
    requires Agrees(w) && AllAllowed(w, acts) && ClaimHeld(w, k) && NeverShared(w, acts, k)
    ensures ClaimHeld(Run(w, acts), k)
    decreases acts
  {
    if acts != [] {
      StepKeepsAgreement(w, acts[0]);
      assert NeverShared(Next(w, acts[0]), acts[1..], k);
      ActKeepsClaimHeld(w, acts[0], k);
      RunKeepsClaimHeld(Next(w, acts[0]), acts[1..], k);
    }
  }

  lemma HeldClaimsAreScans(w: World, kind: Kind, email: string, id: nat)
    requires Agrees(w) && Shareable(kind) && ClaimHeld(w, KeyOf(kind, email))
    ensures Leads(w, kind, email) == Some(id) <==> id in w.users && Claims(w.users[id], kind, email, w.now)
  {
    var k := KeyOf(kind, email);
    if id in w.users {
      ClaimIsExpected(w.users[id], kind, email, w.now);
      assert w.users[id].id == id;
    }
    if k in w.rows {
      assert RowImplied(w.users, w.rows, k);
    }
  }

  /** Where a claim is never shared, the lookups of former and pending addresses are scans of the table too. */
  lemma UnsharedClaimsAreScans(w0: World, acts: seq<Act>, kind: Kind, email: string, id: nat)
    requires Agrees(w0) && AllAllowed(w0, acts) && Shareable(kind)
    requires ClaimHeld(w0, KeyOf(kind, email)) && NeverShared(w0, acts, KeyOf(kind, email))
    ensures var w := Run(w0, acts);
            Leads(w, kind, email) == Some(id) <==> id in w.users && Claims(w.users[id], kind, email, w.now)
  {
    RunKeepsAgreement(w0, acts);
    RunKeepsClaimHeld(w0, acts, KeyOf(kind, email));
    HeldClaimsAreScans(Run(w0, acts), kind, email, id);
  }
}
