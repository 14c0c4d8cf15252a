/** The reference circuit breaker: it keeps its whole history and recomputes every decision from it. */
module BreakerSpec {
  import opened LatencyWindow
  import opened Percentiles

  // ---------------------------------------------------------------------------------------
  // Configuration
  // ---------------------------------------------------------------------------------------

  datatype Config = Config(
    windowSecs: int, minSamples: int,
    consecutiveFailOpen: int, consecutiveTimeoutOpen: int,
    errorRateOpen: real, timeoutRateOpen: real,
    p99UsOpen: int, p99UsRecovery: real, errorRateRecovery: real,
    openCooldownMs: int, cooldownJitterMs: int,
    halfOpenProbes: int, recoverySuccesses: int,
    maxInflight: int, halfOpenMaxMs: int, operationTimeoutMs: int)

  function ClampInt(lo: int, hi: int, x: int): int
  {
    if x < lo then lo else if x > hi then hi else x
  }

  function ClampReal(lo: real, hi: real, x: real): real
  {
    if x < lo then lo else if x > hi then hi else x
  }

  /** The safe ranges, and the cross-field rule that recovery stays possible. */
  predicate Clamped(c: Config) {
    && 1 <= c.windowSecs <= 60
    && 5 <= c.minSamples <= 1000
    && 1 <= c.consecutiveFailOpen <= 100
    && 1 <= c.consecutiveTimeoutOpen <= 100
    && 0.0 <= c.errorRateOpen <= 1.0
    && 0.0 <= c.timeoutRateOpen <= 1.0
    && 1000 <= c.p99UsOpen <= 60000000
    && 1000.0 <= c.p99UsRecovery <= 60000000.0
    && 0.0 <= c.errorRateRecovery <= 1.0
    && 100 <= c.openCooldownMs <= 300000
    && 0 <= c.cooldownJitterMs <= 60000
    && 1 <= c.halfOpenProbes <= 20
    && 1 <= c.recoverySuccesses <= c.halfOpenProbes
    && 1 <= c.maxInflight <= 10000
    && 1000 <= c.halfOpenMaxMs <= 600000
    && 100 <= c.operationTimeoutMs <= 60000
  }

  /** Clamping makes every configuration safe and leaves exactly the safe ones alone. */
  function Clamp(c: Config): (r: Config)
    ensures Clamped(r)
    ensures r == c <==> Clamped(c)
  {
    var probes := ClampInt(1, 20, c.halfOpenProbes);
    var successes := ClampInt(1, 20, c.recoverySuccesses);
    Config(
      ClampInt(1, 60, c.windowSecs), ClampInt(5, 1000, c.minSamples),
      ClampInt(1, 100, c.consecutiveFailOpen), ClampInt(1, 100, c.consecutiveTimeoutOpen),
      ClampReal(0.0, 1.0, c.errorRateOpen), ClampReal(0.0, 1.0, c.timeoutRateOpen),
      ClampInt(1000, 60000000, c.p99UsOpen), ClampReal(1000.0, 60000000.0, c.p99UsRecovery),
      ClampReal(0.0, 1.0, c.errorRateRecovery),
      ClampInt(100, 300000, c.openCooldownMs), ClampInt(0, 60000, c.cooldownJitterMs),
      probes, if successes > probes then probes else successes,
      ClampInt(1, 10000, c.maxInflight), ClampInt(1000, 600000, c.halfOpenMaxMs),
      ClampInt(100, 60000, c.operationTimeoutMs))
  }

  predicate Between<T>(x: T, r: T, y: T, leq: (T, T) -> bool) {
    (leq(x, r) && leq(r, y)) || (leq(y, r) && leq(r, x))
  }

  /** A value out of its range becomes the nearest in it: on the way to any safe value. */
  lemma ClampIsNearest(c: Config, safe: Config)
    requires Clamped(safe)
    ensures var r := Clamp(c);
            var ints, reals := (x: int, y: int) => x <= y, (x: real, y: real) => x <= y;
            && Between(c.windowSecs, r.windowSecs, safe.windowSecs, ints)
            && Between(c.minSamples, r.minSamples, safe.minSamples, ints)
            && Between(c.consecutiveFailOpen, r.consecutiveFailOpen, safe.consecutiveFailOpen, ints)
            && Between(c.consecutiveTimeoutOpen, r.consecutiveTimeoutOpen, safe.consecutiveTimeoutOpen, ints)
            && Between(c.errorRateOpen, r.errorRateOpen, safe.errorRateOpen, reals)
            && Between(c.timeoutRateOpen, r.timeoutRateOpen, safe.timeoutRateOpen, reals)
            && Between(c.p99UsOpen, r.p99UsOpen, safe.p99UsOpen, ints)
            && Between(c.p99UsRecovery, r.p99UsRecovery, safe.p99UsRecovery, reals)
            && Between(c.errorRateRecovery, r.errorRateRecovery, safe.errorRateRecovery, reals)
            && Between(c.openCooldownMs, r.openCooldownMs, safe.openCooldownMs, ints)
            && Between(c.cooldownJitterMs, r.cooldownJitterMs, safe.cooldownJitterMs, ints)
            && Between(c.halfOpenProbes, r.halfOpenProbes, safe.halfOpenProbes, ints)
            && (safe.halfOpenProbes == r.halfOpenProbes
                ==> Between(c.recoverySuccesses, r.recoverySuccesses, safe.recoverySuccesses, ints))
            && Between(c.maxInflight, r.maxInflight, safe.maxInflight, ints)
            && Between(c.halfOpenMaxMs, r.halfOpenMaxMs, safe.halfOpenMaxMs, ints)
            && Between(c.operationTimeoutMs, r.operationTimeoutMs, safe.operationTimeoutMs, ints)
  {
  }

  /** A draw of the cooldown jitter: below the configured maximum, or nothing when there is none. */
  predicate Jitter(c: Config, jitterMs: nat) {
    jitterMs < c.cooldownJitterMs || jitterMs == 0
  }

  // ---------------------------------------------------------------------------------------
  // The reference breaker
  // ---------------------------------------------------------------------------------------

  datatype Verdict = Admitted | CircuitOpen | ConcurrencyRejected

  /** HALF_OPEN remembers how much of the history precedes it. */
  datatype Phase =
    | Closed
    | Open(atMs: nat, cooldownMs: nat)
    | HalfOpen(sinceMs: nat, admittedBefore: nat, releasedBefore: nat)

  /** The whole history: how many calls were admitted and rejected, and every release in order. */
  datatype Ledger = Ledger(clock: nat, phase: Phase, admitted: nat, rejected: nat,
                           opens: nat, halfOpens: nat, log: seq<Event>)

  const FRESH: Ledger := Ledger(0, Closed, 0, 0, 0, 0, [])

  function Inflight(l: Ledger): int {
    l.admitted - |l.log|
  }

  function CountOf(log: seq<Event>, outcome: Outcome): nat {
    if log == [] then 0
    else CountOf(log[..|log| - 1], outcome) + if log[|log| - 1].outcome == outcome then 1 else 0
  }

  function FailuresSinceSuccess(log: seq<Event>): nat {
    if log == [] || log[|log| - 1].outcome.Success? then 0
    else FailuresSinceSuccess(log[..|log| - 1]) + 1
  }

  function TimeoutsSinceSuccess(log: seq<Event>): nat {
    if log == [] || log[|log| - 1].outcome.Success? then 0
    else TimeoutsSinceSuccess(log[..|log| - 1]) + if log[|log| - 1].outcome.Timeout? then 1 else 0
  }

  function ErrorRate(s: Stats): real {
    if s.total == 0 then 0.0 else s.errors as real / s.total as real
  }

  function TimeoutRate(s: Stats): real {
    if s.total == 0 then 0.0 else s.timeouts as real / s.total as real
  }

  /** Recovery looks at latency and errors, not at the timeout rate. */
  predicate Healthy(c: Config, s: Stats) {
    Percentile(s, 99) as real <= c.p99UsRecovery && ErrorRate(s) <= c.errorRateRecovery
  }

  predicate Degraded(c: Config, s: Stats) {
    && s.total >= c.minSamples
    && (ErrorRate(s) >= c.errorRateOpen || TimeoutRate(s) >= c.timeoutRateOpen || Percentile(s, 99) >= c.p99UsOpen)
  }

  /** Statistics of the releases of the last `windowSecs` seconds, straight from the log. */
  ghost function Recent(c: Config, log: seq<Event>, now: nat): Stats
    requires c.windowSecs >= 0
  {
    Tally(log, LastSeconds(c.windowSecs, now / 1000))
  }

  function Trip(c: Config, l: Ledger, now: nat, jitterMs: nat): Ledger
    requires c.openCooldownMs >= 0
  {
    if l.phase.Open? then l
    else l.(phase := Open(now, c.openCooldownMs + jitterMs), opens := l.opens + 1)
  }

  function Reject(l: Ledger): Ledger {
    l.(rejected := l.rejected + 1)
  }

  function Probe(c: Config, l: Ledger, now: nat, jitterMs: nat): (Ledger, Verdict)
    requires c.openCooldownMs >= 0 && l.phase.HalfOpen?
  {
    if now - l.phase.sinceMs >= c.halfOpenMaxMs then (Reject(Trip(c, l, now, jitterMs)), CircuitOpen)
    else if l.admitted - l.phase.admittedBefore >= c.halfOpenProbes then (Reject(l), CircuitOpen)
    else if Inflight(l) >= c.halfOpenProbes then (Reject(l), ConcurrencyRejected)
    else (l.(admitted := l.admitted + 1), Admitted)
  }

  function Acquire(c: Config, l0: Ledger, now: nat, jitterMs: nat): (Ledger, Verdict)
    requires c.openCooldownMs >= 0
  {
    var l := l0.(clock := now);
    match l.phase
    case Closed =>
      if Inflight(l) >= c.maxInflight then (Reject(l), ConcurrencyRejected)
      else (l.(admitted := l.admitted + 1), Admitted)
    case Open(at, cooldown) =>
      if now - at >= cooldown then
        Probe(c, l.(phase := HalfOpen(now, l.admitted, |l.log|), halfOpens := l.halfOpens + 1), now, jitterMs)
      else (Reject(l), CircuitOpen)
    case HalfOpen(_, _, _) => Probe(c, l, now, jitterMs)
  }

  /** The releases seen so far in this HALF_OPEN phase. */
  function ProbeLog(l: Ledger): seq<Event>
    requires l.phase.HalfOpen? && l.phase.releasedBefore <= |l.log|
  {
    l.log[l.phase.releasedBefore..]
  }

  predicate TooManyInARow(c: Config, log: seq<Event>, outcome: Outcome) {
    || FailuresSinceSuccess(log) >= c.consecutiveFailOpen
    || (outcome.Timeout? && TimeoutsSinceSuccess(log) >= c.consecutiveTimeoutOpen)
  }

  ghost predicate Recovered(c: Config, l: Ledger, now: nat)
    requires c.windowSecs >= 0 && l.phase.HalfOpen? && l.phase.releasedBefore <= |l.log|
  {
    CountOf(ProbeLog(l), Success) >= c.recoverySuccesses && Healthy(c, Recent(c, l.log, now))
  }

  /** The transition caused by the last release in the log. */
  ghost function Judged(c: Config, l: Ledger, outcome: Outcome, now: nat, jitterMs: nat): Ledger
    requires c.openCooldownMs >= 0 && c.windowSecs >= 0
    requires l.phase.HalfOpen? ==> l.phase.releasedBefore <= |l.log|
  {
    if l.phase.HalfOpen? then
      if !outcome.Success? then Trip(c, l, now, jitterMs)
      else if Recovered(c, l, now) then l.(phase := Closed)
      else l
    else if !outcome.Success? && TooManyInARow(c, l.log, outcome) then Trip(c, l, now, jitterMs)
    else if Degraded(c, Recent(c, l.log, now)) then Trip(c, l, now, jitterMs)
    else l
  }

  ghost function Release(c: Config, l: Ledger, outcome: Outcome, latencyUs: nat, now: nat, jitterMs: nat): Ledger
    requires c.openCooldownMs >= 0 && c.windowSecs >= 0
    requires l.phase.HalfOpen? ==> l.phase.releasedBefore <= |l.log|
  {
    Judged(c, l.(clock := now, log := l.log + [Event(now / 1000, outcome, latencyUs)]), outcome, now, jitterMs)
  }

  // ---------------------------------------------------------------------------------------
  // What every step keeps
  // ---------------------------------------------------------------------------------------

  function Max(a: int, b: int): int {
    if a > b then a else b
  }

  ghost predicate TimesInOrder(l: Ledger) {
    && (forall e <- l.log :: e.sec <= l.clock / 1000)
    && (l.phase.Open? ==> l.phase.atMs <= l.clock)
    && (l.phase.HalfOpen? ==> l.phase.sinceMs <= l.clock)
  }

  ghost predicate AllSuccesses(log: seq<Event>) {
    forall e <- log :: e.outcome.Success?
  }

  /** In HALF_OPEN nothing has failed yet, so successes and calls in flight add up to the probes
      dispatched and the calls that were in flight on entry. */
  ghost predicate ProbesConserved(c: Config, l: Ledger)
    requires l.phase.HalfOpen?
  {
    && l.phase.releasedBefore <= |l.log|
    && l.phase.releasedBefore <= l.phase.admittedBefore <= l.admitted
    && l.admitted - l.phase.admittedBefore <= c.halfOpenProbes
    && AllSuccesses(ProbeLog(l))
  }

  ghost predicate Sound(c: Config, l: Ledger) {
    && TimesInOrder(l)
    && 0 <= Inflight(l) <= Max(c.maxInflight, c.halfOpenProbes)
    && (l.phase.Closed? ==> FailuresSinceSuccess(l.log) < c.consecutiveFailOpen)
    && (l.phase.Closed? ==> TimeoutsSinceSuccess(l.log) < c.consecutiveTimeoutOpen)
    && (l.phase.Open? ==> c.openCooldownMs <= l.phase.cooldownMs <= c.openCooldownMs + c.cooldownJitterMs)
    && (l.phase.HalfOpen? ==> ProbesConserved(c, l))
    && l.opens == l.halfOpens + if l.phase.Open? then 1 else 0
  }

  lemma AcquireKeepsSound(c: Config, l: Ledger, now: nat, jitterMs: nat)
    requires Clamped(c) && Sound(c, l) && l.clock <= now && Jitter(c, jitterMs)
    ensures Sound(c, Acquire(c, l, now, jitterMs).0)
  {
  }

  lemma SinceSuccess(log: seq<Event>, e: Event)
    ensures FailuresSinceSuccess(log + [e]) == if e.outcome.Success? then 0 else FailuresSinceSuccess(log) + 1
    ensures TimeoutsSinceSuccess(log + [e]) ==
            if e.outcome.Success? then 0 else TimeoutsSinceSuccess(log) + if e.outcome.Timeout? then 1 else 0
  {
    assert (log + [e])[..|log|] == log;
  }

  lemma CountOfAppend(log: seq<Event>, e: Event, o: Outcome)
    ensures CountOf(log + [e], o) == CountOf(log, o) + if e.outcome == o then 1 else 0
  {
    assert (log + [e])[..|log|] == log;
  }

  lemma {:induction false} AllSuccessesAreCounted(log: seq<Event>)
    requires AllSuccesses(log)
    ensures CountOf(log, Success) == |log|
  {
    if log != [] {
      AllSuccessesAreCounted(log[..|log| - 1]);
    }
  }

  lemma ProbeLogGrows(l: Ledger, e: Event, now: nat)
    requires l.phase.HalfOpen? ==> l.phase.releasedBefore <= |l.log|
    ensures var b := l.(clock := now, log := l.log + [e]);
            l.phase.HalfOpen? ==>
              CountOf(ProbeLog(b), Success) == CountOf(ProbeLog(l), Success) + if e.outcome.Success? then 1 else 0
  {
    if l.phase.HalfOpen? {
      assert (l.log + [e])[l.phase.releasedBefore..] == ProbeLog(l) + [e];
      CountOfAppend(ProbeLog(l), e, Success);
    }
  }

  /** A release leaves the phase, trips the circuit, or (a success in HALF_OPEN) closes it. */
  lemma JudgedOutcomes(c: Config, l: Ledger, outcome: Outcome, now: nat, jitterMs: nat)
    requires c.openCooldownMs >= 0 && c.windowSecs >= 0
    requires l.phase.HalfOpen? ==> l.phase.releasedBefore <= |l.log|
    ensures var r := Judged(c, l, outcome, now, jitterMs);
            || (r == l && (l.phase.HalfOpen? ==> outcome.Success?)
                       && (l.phase.Closed? && !outcome.Success? ==> !TooManyInARow(c, l.log, outcome)))
            || r == Trip(c, l, now, jitterMs)
            || (r == l.(phase := Closed) && l.phase.HalfOpen? && outcome.Success?)
  {
  }

  lemma BookedIsSound(c: Config, l: Ledger, e: Event, now: nat)
    requires Sound(c, l) && l.clock <= now && Inflight(l) > 0 && e.sec == now / 1000
    ensures var b := l.(clock := now, log := l.log + [e]);
            && TimesInOrder(b)
            && 0 <= Inflight(b) <= Max(c.maxInflight, c.halfOpenProbes)
            && (b.phase.HalfOpen? && e.outcome.Success? ==> ProbesConserved(c, b))
  {
    var b := l.(clock := now, log := l.log + [e]);
    if l.phase.HalfOpen? {
      assert ProbeLog(b) == ProbeLog(l) + [e];
    }
  }

  lemma ReleaseKeepsSound(c: Config, l: Ledger, outcome: Outcome, latencyUs: nat, now: nat, jitterMs: nat)
    requires Clamped(c) && Sound(c, l) && l.clock <= now && Jitter(c, jitterMs)
    requires Inflight(l) > 0
    ensures Sound(c, Release(c, l, outcome, latencyUs, now, jitterMs))
  {
    var e := Event(now / 1000, outcome, latencyUs);
    var b := l.(clock := now, log := l.log + [e]);
    BookedIsSound(c, l, e, now);
    SinceSuccess(l.log, e);
    JudgedOutcomes(c, b, outcome, now, jitterMs);
    var r := Judged(c, b, outcome, now, jitterMs);
    assert r == b || r == Trip(c, b, now, jitterMs) || r == b.(phase := Closed);
  }
}
