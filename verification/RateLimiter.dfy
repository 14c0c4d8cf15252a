/** The rate limiter with its local fixed-window fallback. */
module RateLimiter {
  import opened Wrappers
  import opened Lists

  datatype Config = Config(windowMs: nat, maxRequests: int)

  datatype Record = Record(count: nat, resetAt: nat, lastReset: nat)

  datatype Answer = Answer(allowed: bool, remaining: int, resetAt: nat)

  /** What the Redis pipeline comes back with: a count, a reply that is not a number, nothing, or an error. */
  datatype Reply = Count(n: int) | Garbled | Empty | CommandError

  datatype Outcome = ByRedis(answer: Answer) | Locally(answer: Answer) | Unavailable

  type Cache = map<string, Record>

  /** `fallback` means Redis is considered down; the times are of the last sweep and the last recovery probe. */
  datatype State = State(cache: Cache, fallback: bool, lastSweepMs: nat, lastProbeMs: nat)

  const FRESH: State := State(map[], false, 0, 0)

  // ---------------------------------------------------------------------------------------
  // Specification
  // ---------------------------------------------------------------------------------------

  /** A client's window after one more request: a new one if there is none or it has ended. */
  function Hit(c: Config, r: Option<Record>, now: nat): Record {
    if r.None? || now > r.value.resetAt then Record(1, now + c.windowMs, now)
    else r.value.(count := r.value.count + 1)
  }

  function AnswerOf(c: Config, r: Record): Answer {
    Answer(r.count <= c.maxRequests, if c.maxRequests > r.count then c.maxRequests - r.count else 0, r.resetAt)
  }

  function Lookup(cache: Cache, client: string): Option<Record> {
    if client in cache then Some(cache[client]) else None
  }

  function Swept(cache: Cache, now: nat): Cache {
    map k | k in cache && cache[k].resetAt >= now :: cache[k]
  }

  /** The lazy sweep: only of a large cache, and at most once a minute. */
  function MaybeSweep(s: State, now: nat): State {
    if |s.cache| < 4096 || now - s.lastSweepMs < 60000 then s
    else s.(cache := Swept(s.cache, now), lastSweepMs := now)
  }

  function Local(c: Config, s0: State, client: string, now: nat, sweeps: bool): (State, Outcome) {
    var s := if sweeps then MaybeSweep(s0, now) else s0;
    var r := Hit(c, Lookup(s.cache, client), now);
    (s.(cache := s.cache[client := r]), Locally(AnswerOf(c, r)))
  }

  function Recovered(s: State, now: nat, pingOk: bool): State {
    if now - s.lastProbeMs < 30000 then s
    else s.(lastProbeMs := now, fallback := !pingOk)
  }

  function Remote(c: Config, allow: bool, s: State, client: string, now: nat, reply: Reply, sweeps: bool): (State,
      Outcome)
    requires c.windowMs > 0
  {
    var resetAt := now / c.windowMs * c.windowMs + c.windowMs;
    match reply
    case Count(n) =>
      var remaining := if c.maxRequests - n > 0 then c.maxRequests - n else 0;
      (s, ByRedis(Answer(n <= c.maxRequests, remaining, resetAt)))
    case Garbled => (s, ByRedis(Answer(false, 0, resetAt)))
    case _ => if !allow then (s, Unavailable) else Local(c, s.(fallback := true), client, now, sweeps)
  }

  /** One `checkLimit`; `sweeps` is true of the code and false of the limiter it is compared with. */
  function Check(c: Config, allow: bool, s: State, client: string, now: nat, pingOk: bool, reply: Reply,
                 sweeps: bool): (State, Outcome)
    requires c.windowMs > 0
  {
    if !s.fallback then Remote(c, allow, s, client, now, reply, sweeps)
    else if !allow then (s, Unavailable)
    else
      var s' := Recovered(s, now, pingOk);
      if s'.fallback then Local(c, s', client, now, sweeps)
      else Remote(c, allow, s', client, now, reply, sweeps)
  }

  // ---------------------------------------------------------------------------------------
  // The implementation
  // ---------------------------------------------------------------------------------------

  class RobustRateLimiter {
    const config: Config
    const allowFallback: bool
    var localCache: Cache
    var fallback: bool
    var lastSweepMs: nat
    var lastRecoveryProbeMs: nat

    function CurrentState(): State
      reads this
    {
      State(localCache, fallback, lastSweepMs, lastRecoveryProbeMs)
    }

    constructor (config: Config, allowFallback: bool)
      ensures this.config == config && this.allowFallback == allowFallback && CurrentState() == FRESH
    {
      this.config := config;
      this.allowFallback := allowFallback;
      localCache := map[];
      fallback := false;
      lastSweepMs, lastRecoveryProbeMs := 0, 0;
    }

    method CheckLimit(client: string, now: nat, pingOk: bool, reply: Reply) returns (r: Outcome)
      requires config.windowMs > 0
      modifies this
      ensures (CurrentState(), r) == Check(config, allowFallback, old(CurrentState()), client, now, pingOk, reply, true)
    {
      if fallback {
        if !allowFallback {
          return Unavailable;
        }
        TryRecoverFromFallback(now, pingOk);
        if fallback {
          r := LocalRateLimit(client, now);
          return;
        }
      }
      r := DistributedRateLimit(client, now, reply);
    }

    /** At most every 30 seconds while degraded, Redis is pinged. */
    method TryRecoverFromFallback(now: nat, pingOk: bool)
      requires fallback
      modifies this
      ensures CurrentState() == Recovered(old(CurrentState()), now, pingOk)
    {
      if now - lastRecoveryProbeMs < 30000 {
        return;
      }
      lastRecoveryProbeMs := now;
      if pingOk {
        fallback := false;
      }
    }

    method DegradeToLocal(client: string, now: nat) returns (r: Outcome)
      modifies this
      ensures (CurrentState(), r) == if !allowFallback then (old(CurrentState()), Unavailable)
                            else Local(config, old(CurrentState()).(fallback := true), client, now, true)
    {
      if !allowFallback {
        return Unavailable;
      }
      fallback := true;
      r := LocalRateLimit(client, now);
    }

    method SweepExpiredWindows(now: nat)
      modifies this
      ensures CurrentState() == MaybeSweep(old(CurrentState()), now)
    {
      if |localCache| < 4096 || now - lastSweepMs < 60000 {
        return;
      }
      lastSweepMs := now;
      var keys := localCache.Keys;
      while keys != {}
        invariant keys <= old(localCache).Keys
        invariant lastSweepMs == now && fallback == old(fallback) && lastRecoveryProbeMs == old(lastRecoveryProbeMs)
        invariant localCache == map k | k in old(localCache)
                  && (k in keys || old(localCache)[k].resetAt >= now) :: old(localCache)[k]
        decreases |keys|
      {
        var key :| key in keys;
        keys := keys - {key};
        if localCache[key].resetAt < now {
          localCache := localCache - {key};
        }
      }
    }

    method LocalRateLimit(client: string, now: nat) returns (r: Outcome)
      modifies this
      ensures (CurrentState(), r) == Local(config, old(CurrentState()), client, now, true)
    {
      SweepExpiredWindows(now);
      var entry := if client in localCache then localCache[client] else Record(0, now + config.windowMs, now);
      if now > entry.resetAt {
        entry := Record(0, now + config.windowMs, now);
      }
      entry := entry.(count := entry.count + 1);
      localCache := localCache[client := entry];
      var remaining := config.maxRequests - entry.count;
      var isAllowed := entry.count <= config.maxRequests;
      r := Locally(Answer(isAllowed, if remaining > 0 then remaining else 0, entry.resetAt));
    }

    method DistributedRateLimit(client: string, now: nat, reply: Reply) returns (r: Outcome)
      requires config.windowMs > 0
      modifies this
      ensures (CurrentState(), r) == Remote(config, allowFallback, old(CurrentState()), client, now, reply, true)
    {
      var window := now / config.windowMs * config.windowMs;
      match reply {
        case Empty =>
          r := DegradeToLocal(client, now);
        case CommandError =>
          r := DegradeToLocal(client, now);
        case Garbled =>
          r := ByRedis(Answer(false, 0, window + config.windowMs));
        case Count(n) =>
          var remaining := config.maxRequests - n;
          r := ByRedis(Answer(n <= config.maxRequests, if remaining > 0 then remaining else 0,
                              window + config.windowMs));
      }
    }
  }

  // ---------------------------------------------------------------------------------------
  // Runs
  // ---------------------------------------------------------------------------------------

  datatype Request = Request(client: string, now: nat, pingOk: bool, reply: Reply)

  /** A request answered by the local limiter. */
  datatype Grant = Grant(client: string, at: nat, allowed: bool, remaining: int, resetAt: nat)

  predicate Monotone(reqs: seq<Request>, from: nat)
    decreases reqs
  {
    reqs == [] || (from <= reqs[0].now && Monotone(reqs[1..], reqs[0].now))
  }

  function Serve(c: Config, allow: bool, s: State, q: Request, sweeps: bool): (State, Outcome)
    requires c.windowMs > 0
  {
    Check(c, allow, s, q.client, q.now, q.pingOk, q.reply, sweeps)
  }

  function ServeAll(c: Config, allow: bool, s: State, reqs: seq<Request>, sweeps: bool): (State, seq<Outcome>)
    requires c.windowMs > 0
    decreases reqs
  {
    if reqs == [] then (s, [])
    else
      var (s1, o) := Serve(c, allow, s, reqs[0], sweeps);
      var (s2, os) := ServeAll(c, allow, s1, reqs[1..], sweeps);
      (s2, [o] + os)
  }

  // ---------------------------------------------------------------------------------------
  // Sweeping is invisible
  // ---------------------------------------------------------------------------------------

  /** `swept` lacks only windows that have ended. */
  ghost predicate UpToEnded(swept: Cache, full: Cache, now: nat) {
    && (forall k :: k in swept ==> k in full && full[k] == swept[k])
    && (forall k :: k in full && k !in swept ==> full[k].resetAt < now)
  }

  ghost predicate Matching(s: State, t: State, now: nat) {
    UpToEnded(s.cache, t.cache, now) && s.fallback == t.fallback && s.lastProbeMs == t.lastProbeMs
  }

  lemma LocalMatches(c: Config, s: State, t: State, client: string, now: nat, from: nat)
    requires from <= now && Matching(s, t, from)
    ensures Local(c, s, client, now, true).1 == Local(c, t, client, now, false).1
    ensures Matching(Local(c, s, client, now, true).0, Local(c, t, client, now, false).0, now)
  {
    assert Matching(MaybeSweep(s, now), t, now);
  }

  lemma RemoteMatches(c: Config, allow: bool, s: State, t: State, q: Request, from: nat)
    requires c.windowMs > 0 && from <= q.now && Matching(s, t, from)
    ensures Remote(c, allow, s, q.client, q.now, q.reply, true).1
            == Remote(c, allow, t, q.client, q.now, q.reply, false).1
    ensures Matching(Remote(c, allow, s, q.client, q.now, q.reply, true).0,
                     Remote(c, allow, t, q.client, q.now, q.reply, false).0, q.now)
  {
    LocalMatches(c, s.(fallback := true), t.(fallback := true), q.client, q.now, from);
  }

  lemma ServeMatches(c: Config, allow: bool, s: State, t: State, q: Request, from: nat)
    requires c.windowMs > 0 && from <= q.now && Matching(s, t, from)
    ensures Serve(c, allow, s, q, true).1 == Serve(c, allow, t, q, false).1
    ensures Matching(Serve(c, allow, s, q, true).0, Serve(c, allow, t, q, false).0, q.now)
  {
    if !s.fallback {
      RemoteMatches(c, allow, s, t, q, from);
    } else if allow {
      var s1, t1 := Recovered(s, q.now, q.pingOk), Recovered(t, q.now, q.pingOk);
      if s1.fallback {
        LocalMatches(c, s1, t1, q.client, q.now, from);
      } else {
        RemoteMatches(c, allow, s1, t1, q, from);
      }
    }
  }

  /** Every answer of every run is the one a limiter that never sweeps would give. */
  lemma {:induction false} SweepingIsInvisible(c: Config, allow: bool, s: State, t: State, reqs: seq<Request>,
                                               from: nat)
    requires c.windowMs > 0 && Monotone(reqs, from) && Matching(s, t, from)
    ensures ServeAll(c, allow, s, reqs, true).1 == ServeAll(c, allow, t, reqs, false).1
    decreases reqs
  {
    if reqs != [] {
      ServeMatches(c, allow, s, t, reqs[0], from);
      SweepingIsInvisible(c, allow, Serve(c, allow, s, reqs[0], true).0, Serve(c, allow, t, reqs[0], false).0,
                          reqs[1..], reqs[0].now);
    }
  }

  /** With fallback disallowed nothing is ever counted locally, and every request is answered by Redis or refused. */
  lemma {:induction false} StrictModeNeverDegrades(c: Config, reqs: seq<Request>, s: State)
    requires c.windowMs > 0 && !s.fallback && s.cache == map[]
    ensures var (r, os) := ServeAll(c, false, s, reqs, true);
            !r.fallback && r.cache == map[] && forall o <- os :: !o.Locally?
    decreases reqs
  {
    if reqs != [] {
      StrictModeNeverDegrades(c, reqs[1..], Serve(c, false, s, reqs[0], true).0);
    }
  }

  // ---------------------------------------------------------------------------------------
  // How much gets through
  // ---------------------------------------------------------------------------------------

  /** The requests of a run that were answered locally, in order. */
  function Grants(c: Config, allow: bool, s: State, reqs: seq<Request>): seq<Grant>
    requires c.windowMs > 0
    decreases reqs
  {
    if reqs == [] then []
    else
      var (s1, o) := Serve(c, allow, s, reqs[0], true);
      GrantsOf(reqs[0], o) + Grants(c, allow, s1, reqs[1..])
  }

  /** How many were allowed a client in the window ending at `resetAt`. */
  function AllowedInWindow(log: seq<Grant>, client: string, resetAt: nat): nat {
    if log == [] then 0
    else
      var g := log[|log| - 1];
      AllowedInWindow(log[..|log| - 1], client, resetAt)
      + if g.client == client && g.allowed && g.resetAt == resetAt then 1 else 0
  }

  /** How many were allowed a client from `lo` to `hi`, both included. */
  function AllowedBetween(log: seq<Grant>, client: string, lo: nat, hi: nat): nat {
    if log == [] then 0
    else
      var g := log[|log| - 1];
      AllowedBetween(log[..|log| - 1], client, lo, hi)
      + if g.client == client && g.allowed && lo <= g.at <= hi then 1 else 0
  }

  predicate SameOrApart(g: Grant, h: Grant, w: nat) {
    g.client == h.client ==> g.resetAt == h.resetAt || g.resetAt > h.resetAt + w || h.resetAt > g.resetAt + w
  }

  function Limit(c: Config): nat {
    if c.maxRequests < 0 then 0 else c.maxRequests
  }

  /** Each grant lies in its window, windows of one client are more than a window apart, and none is over its limit. */
  ghost predicate Bounded(c: Config, log: seq<Grant>) {
    && (forall g <- log :: g.at <= g.resetAt <= g.at + c.windowMs)
    && (forall g, h :: g in log && h in log ==> SameOrApart(g, h, c.windowMs))
    && (forall client, r: nat :: AllowedInWindow(log, client, r) <= Limit(c))
  }

  /** A client's earlier grant against its window in the cache. */
  predicate OfWindow(g: Grant, r: Record, w: nat) {
    g.resetAt == r.resetAt || r.resetAt > g.resetAt + w
  }

  /** The cache holds each client's latest window, unless that window has ended. */
  ghost predicate Current(c: Config, log: seq<Grant>, cache: Cache, now: nat) {
    && (forall g <- log :: if g.client in cache then OfWindow(g, cache[g.client], c.windowMs) else g.resetAt < now)
    && (forall k :: k in cache ==> AllowedInWindow(log, k, cache[k].resetAt) <= cache[k].count)
    && (forall k :: k in cache ==> cache[k].resetAt <= now + c.windowMs)
  }

  lemma {:induction false} NoGrantsNoneAllowed(log: seq<Grant>, client: string, r: nat)
    requires forall g <- log :: g.client == client ==> g.resetAt != r
    ensures AllowedInWindow(log, client, r) == 0
  {
    if log != [] {
      NoGrantsNoneAllowed(log[..|log| - 1], client, r);
    }
  }

  lemma AllowedOfAppend(log: seq<Grant>, g: Grant, client: string, r: nat)
    ensures AllowedInWindow(log + [g], client, r)
         == AllowedInWindow(log, client, r) + if g.client == client && g.allowed && g.resetAt == r then 1 else 0
  {
    assert (log + [g])[..|log|] == log;
  }

  lemma SweepKeepsCurrent(c: Config, log: seq<Grant>, s: State, from: nat, now: nat)
    requires Current(c, log, s.cache, from) && from <= now
    ensures Current(c, log, MaybeSweep(s, now).cache, now)
  {
  }

  function GrantOf(c: Config, client: string, now: nat, r: Record): Grant {
    Grant(client, now, AnswerOf(c, r).allowed, AnswerOf(c, r).remaining, r.resetAt)
  }

  lemma HitStaysBounded(c: Config, log: seq<Grant>, cache: Cache, client: string, now: nat)
    requires Bounded(c, log) && Current(c, log, cache, now)
    ensures Bounded(c, log + [GrantOf(c, client, now, Hit(c, Lookup(cache, client), now))])
  {
    var r := Hit(c, Lookup(cache, client), now);
    var g := GrantOf(c, client, now, r);
    HitCountsAllowed(c, log, cache, client, now);
    forall k, w: nat ensures AllowedInWindow(log + [g], k, w) <= Limit(c) {
      AllowedOfAppend(log, g, k, w);
    }
    forall h | h in log ensures SameOrApart(g, h, c.windowMs) {
    }
    assert forall h <- log + [g] :: h in log || h == g;
  }

  /** The allowed requests of the window being hit are fewer than its count. */
  lemma HitCountsAllowed(c: Config, log: seq<Grant>, cache: Cache, client: string, now: nat)
    requires Current(c, log, cache, now)
    ensures var r := Hit(c, Lookup(cache, client), now);
            AllowedInWindow(log, client, r.resetAt) <= r.count - 1
  {
    if client !in cache || now > cache[client].resetAt {
      NoGrantsNoneAllowed(log, client, now + c.windowMs);
    }
  }

  lemma HitStaysCurrent(c: Config, log: seq<Grant>, cache: Cache, client: string, now: nat)
    requires Current(c, log, cache, now)
    ensures var r := Hit(c, Lookup(cache, client), now);
            Current(c, log + [GrantOf(c, client, now, r)], cache[client := r], now)
  {
    var r := Hit(c, Lookup(cache, client), now);
    var g := GrantOf(c, client, now, r);
    HitCountsAllowed(c, log, cache, client, now);
    var cache' := cache[client := r];
    forall k | k in cache' ensures AllowedInWindow(log + [g], k, cache'[k].resetAt) <= cache'[k].count {
      AllowedOfAppend(log, g, k, cache'[k].resetAt);
    }
    assert forall h <- log + [g] :: h in log || h == g;
  }

  function GrantsOf(q: Request, o: Outcome): seq<Grant> {
    if o.Locally? then [Grant(q.client, q.now, o.answer.allowed, o.answer.remaining, o.answer.resetAt)] else []
  }

  lemma LocalStaysBounded(c: Config, s: State, q: Request, log: seq<Grant>, from: nat)
    requires from <= q.now && Bounded(c, log) && Current(c, log, s.cache, from)
    ensures var (s', o) := Local(c, s, q.client, q.now, true);
            Bounded(c, log + GrantsOf(q, o)) && Current(c, log + GrantsOf(q, o), s'.cache, q.now)
  {
    var before := MaybeSweep(s, q.now);
    SweepKeepsCurrent(c, log, s, from, q.now);
    HitStaysBounded(c, log, before.cache, q.client, q.now);
    HitStaysCurrent(c, log, before.cache, q.client, q.now);
  }

  /** A request is counted locally or leaves the cache alone. */
  lemma ServeIsLocalOrNot(c: Config, allow: bool, s: State, q: Request) returns (t: State)
    requires c.windowMs > 0
    ensures t.cache == s.cache
    ensures var r := Serve(c, allow, s, q, true);
            if r.1.Locally? then r == Local(c, t, q.client, q.now, true) else r.0.cache == s.cache
  {
    t := if s.fallback then Recovered(s, q.now, q.pingOk).(fallback := true) else s.(fallback := true);
  }

  lemma ServeStaysBounded(c: Config, allow: bool, s: State, q: Request, log: seq<Grant>, from: nat)
    requires c.windowMs > 0 && from <= q.now && Bounded(c, log) && Current(c, log, s.cache, from)
    ensures var (s', o) := Serve(c, allow, s, q, true);
            Bounded(c, log + GrantsOf(q, o)) && Current(c, log + GrantsOf(q, o), s'.cache, q.now)
  {
    var t := ServeIsLocalOrNot(c, allow, s, q);
    LocalStaysBounded(c, t, q, log, from);
    assert log + [] == log;
  }

  lemma {:induction false} GrantsStayBounded(c: Config, allow: bool, s: State, reqs: seq<Request>, log: seq<Grant>,
                                             from: nat)
    requires c.windowMs > 0 && Monotone(reqs, from) && Bounded(c, log) && Current(c, log, s.cache, from)
    ensures Bounded(c, log + Grants(c, allow, s, reqs))
    decreases reqs
  {
    if reqs == [] {
      assert log + [] == log;
    } else {
      var (s1, o) := Serve(c, allow, s, reqs[0], true);
      ServeStaysBounded(c, allow, s, reqs[0], log, from);
      GrantsStayBounded(c, allow, s1, reqs[1..], log + GrantsOf(reqs[0], o), reqs[0].now);
      AppendAssociates(log, GrantsOf(reqs[0], o), Grants(c, allow, s1, reqs[1..]));
    }
  }

  /** If every allowed request of the interval belongs to one of two windows, their counts bound it. */
  lemma {:induction false} TwoWindowsCover(log: seq<Grant>, client: string, lo: nat, hi: nat, r1: nat, r2: nat)
    requires forall g <- log :: g.client == client && g.allowed && lo <= g.at <= hi
                 ==> g.resetAt == r1 || g.resetAt == r2
    ensures AllowedBetween(log, client, lo, hi) <= AllowedInWindow(log, client, r1) + AllowedInWindow(log, client, r2)
  {
    if log != [] {
      TwoWindowsCover(log[..|log| - 1], client, lo, hi, r1, r2);
    }
  }

  /** In any closed interval of one window's length, at most two windows' worth is allowed. */
  lemma IntervalIsBounded(c: Config, log: seq<Grant>, client: string, lo: nat)
    requires Bounded(c, log)
    ensures AllowedBetween(log, client, lo, lo + c.windowMs) <= 2 * Limit(c)
  {
    var hi := lo + c.windowMs;
    var r1, r2 := 0, 0;
    if g :| g in log && g.client == client && lo <= g.at <= hi {
      r1, r2 := g.resetAt, g.resetAt;
      if h :| h in log && h.client == client && lo <= h.at <= hi && h.resetAt != g.resetAt {
        r2 := h.resetAt;
        forall k | k in log && k.client == client && lo <= k.at <= hi ensures k.resetAt == r1 || k.resetAt == r2 {
          assert SameOrApart(g, h, c.windowMs) && SameOrApart(g, k, c.windowMs) && SameOrApart(h, k, c.windowMs);
        }
      }
    }
    TwoWindowsCover(log, client, lo, hi, r1, r2);
  }

  /** Over every run from a fresh limiter, whatever Redis does: a client is allowed at most the limit in each
      local window and at most twice the limit in any closed interval of a window's length. */
  lemma LocalLimitHolds(c: Config, allow: bool, reqs: seq<Request>, client: string, lo: nat, resetAt: nat)
    requires c.windowMs > 0 && Monotone(reqs, 0)
    ensures var log := Grants(c, allow, FRESH, reqs);
            && AllowedInWindow(log, client, resetAt) <= Limit(c)
            && AllowedBetween(log, client, lo, lo + c.windowMs) <= 2 * Limit(c)
  {
    GrantsStayBounded(c, allow, FRESH, reqs, [], 0);
    assert [] + Grants(c, allow, FRESH, reqs) == Grants(c, allow, FRESH, reqs);
    IntervalIsBounded(c, Grants(c, allow, FRESH, reqs), client, lo);
  }
}
