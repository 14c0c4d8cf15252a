/** What holds over whole runs of the circuit breaker. */
module BreakerRuns {
  import opened LatencyWindow
  import opened Percentiles
  import opened BreakerSpec

  datatype Op =
    | Acq(now: nat, jitterMs: nat)
    | Rel(outcome: Outcome, latencyUs: nat, now: nat, jitterMs: nat)

  /** The clock is monotone, the jitter within bounds, and only calls in flight are released. */
  predicate Enabled(c: Config, l: Ledger, op: Op) {
    l.clock <= op.now && Jitter(c, op.jitterMs) && (op.Rel? ==> Inflight(l) > 0)
  }

  ghost function Step(c: Config, l: Ledger, op: Op): (r: Ledger)
    requires Clamped(c) && Sound(c, l) && Enabled(c, l, op)
    ensures Sound(c, r) && r.clock == op.now
  {
    match op
    case Acq(now, j) => AcquireKeepsSound(c, l, now, j); Acquire(c, l, now, j).0
    case Rel(o, lat, now, j) => ReleaseKeepsSound(c, l, o, lat, now, j); Release(c, l, o, lat, now, j)
  }

  ghost predicate Legal(c: Config, l: Ledger, ops: seq<Op>)
    requires Clamped(c) && Sound(c, l)
    decreases ops
  {
    ops == [] || (Enabled(c, l, ops[0]) && Legal(c, Step(c, l, ops[0]), ops[1..]))
  }

  ghost function Run(c: Config, l: Ledger, ops: seq<Op>): (r: Ledger)
    requires Clamped(c) && Sound(c, l) && Legal(c, l, ops)
    ensures Sound(c, r) && l.clock <= r.clock
    decreases ops
  {
    if ops == [] then l else Run(c, Step(c, l, ops[0]), ops[1..])
  }

  lemma FreshIsSound(c: Config)
    requires Clamped(c)
    ensures Sound(c, FRESH)
  {
  }

  lemma RunOfCons(c: Config, l: Ledger, op: Op, rest: seq<Op>)
    requires Clamped(c) && Sound(c, l) && Enabled(c, l, op) && Legal(c, Step(c, l, op), rest)
    ensures Legal(c, l, [op] + rest) && Run(c, l, [op] + rest) == Run(c, Step(c, l, op), rest)
  {
    var ops := [op] + rest;
    assert ops[0] == op && ops[1..] == rest;
  }

  // ---------------------------------------------------------------------------------------
  // Accounting
  // ---------------------------------------------------------------------------------------

  lemma {:induction false} OutcomesAddUp(log: seq<Event>)
    ensures CountOf(log, Success) + CountOf(log, RedisError) + CountOf(log, Timeout) == |log|
  {
    if log != [] {
      OutcomesAddUp(log[..|log| - 1]);
    }
  }

  /** After every run from a fresh breaker: admitted calls are released or in flight, releases split
      by outcome, every OPEN has led to a HALF_OPEN but the one in progress, and throughout HALF_OPEN
      successes and calls in flight equal the probes dispatched and the calls in flight on entry. */
  lemma CountersAgree(c: Config, ops: seq<Op>)
    requires Clamped(c) && Legal(c, FRESH, ops)
    ensures var l := Run(c, FRESH, ops);
            && CountOf(l.log, Success) + CountOf(l.log, RedisError) + CountOf(l.log, Timeout) == |l.log|
            && l.admitted == |l.log| + Inflight(l)
            && l.opens == l.halfOpens + (if l.phase.Open? then 1 else 0)
            && (l.phase.HalfOpen? ==>
                  CountOf(ProbeLog(l), Success) + Inflight(l)
                  == (l.admitted - l.phase.admittedBefore) + (l.phase.admittedBefore - l.phase.releasedBefore))
            && (l.phase.Closed? ==> FailuresSinceSuccess(l.log) < c.consecutiveFailOpen
                                    && TimeoutsSinceSuccess(l.log) < c.consecutiveTimeoutOpen)
  {
    var l := Run(c, FRESH, ops);
    OutcomesAddUp(l.log);
    if l.phase.HalfOpen? {
      AllSuccessesAreCounted(ProbeLog(l));
    }
  }

  // ---------------------------------------------------------------------------------------
  // The load a failing Redis still sees
  // ---------------------------------------------------------------------------------------

  ghost predicate NeverCloses(c: Config, l: Ledger, ops: seq<Op>)
    requires Clamped(c) && Sound(c, l) && Legal(c, l, ops)
    decreases ops
  {
    !l.phase.Closed? && (ops == [] || NeverCloses(c, Step(c, l, ops[0]), ops[1..]))
  }

  /** Whole cooldowns that fit between the trip at `t0` and time `t`. */
  function Cooldowns(c: Config, t0: nat, t: nat): nat
    requires c.openCooldownMs > 0 && t0 <= t
  {
    (t - t0) / c.openCooldownMs
  }

  lemma CooldownsElapse(c: Config, t0: nat, s: nat, t: nat)
    requires c.openCooldownMs > 0 && t0 <= s <= t
    ensures Cooldowns(c, t0, s) <= Cooldowns(c, t0, t)
    ensures t - s >= c.openCooldownMs ==> Cooldowns(c, t0, s) + 1 <= Cooldowns(c, t0, t)
  {
    QuotientIsMonotone(s - t0, t - t0, c.openCooldownMs);
  }

  lemma QuotientIsMonotone(a: nat, b: nat, n: nat)
    requires a <= b && n > 0
    ensures a / n <= b / n
    ensures b - a >= n ==> a / n + 1 <= b / n
  {
    DivMod(a, n);
    DivMod(b, n);
    MultiplesAreApart(n, a / n, b / n);
    MultiplesAreApart(n, a / n + 1, b / n);
    MultiplesAreApart(n, a / n, a / n);
  }

  /** Calls admitted since the count `a0` at the trip at `t0`: `halfOpenProbes` for every cooldown served. */
  ghost predicate WithinBudget(c: Config, a0: nat, t0: nat, l: Ledger)
    requires c.openCooldownMs > 0
  {
    match l.phase
    case Closed => false
    case Open(at, _) => t0 <= at && l.admitted - a0 <= c.halfOpenProbes * Cooldowns(c, t0, at)
    case HalfOpen(since, before, _) =>
      && t0 + c.openCooldownMs <= since
      && before - a0 <= c.halfOpenProbes * (Cooldowns(c, t0, since) - 1)
  }

  lemma ProbesMultiply(p: nat, x: int, y: int)
    ensures x <= y ==> p * x <= p * y
    ensures p * (x + 1) == p * x + p
    ensures p * (x - 1) == p * x - p
  {
  }

  lemma StepStaysWithinBudget(c: Config, a0: nat, t0: nat, l: Ledger, op: Op)
    requires Clamped(c) && Sound(c, l) && Enabled(c, l, op) && WithinBudget(c, a0, t0, l)
    requires !Step(c, l, op).phase.Closed?
    ensures WithinBudget(c, a0, t0, Step(c, l, op))
  {
    var p := c.halfOpenProbes;
    var r := Step(c, l, op);
    if op.Rel? {
      JudgedOutcomes(c, l.(clock := op.now, log := l.log + [Event(op.now / 1000, op.outcome, op.latencyUs)]),
                     op.outcome, op.now, op.jitterMs);
    }
    var start := if l.phase.Open? then l.phase.atMs else l.phase.sinceMs;
    CooldownsElapse(c, t0, start, op.now);
    ProbesMultiply(p, Cooldowns(c, t0, start), Cooldowns(c, t0, op.now));
    ProbesMultiply(p, Cooldowns(c, t0, start), Cooldowns(c, t0, op.now) - 1);
  }

  /** However calls interleave and whatever the jitter: from a trip at `t0` to a time `t1` by which the
      circuit has not closed, at most `halfOpenProbes` calls per elapsed cooldown are let through. */
  lemma {:induction false} LoadIsBounded(c: Config, a0: nat, t0: nat, l: Ledger, ops: seq<Op>)
    requires Clamped(c) && Sound(c, l) && Legal(c, l, ops) && NeverCloses(c, l, ops)
    requires WithinBudget(c, a0, t0, l)
    ensures t0 <= Run(c, l, ops).clock
    ensures var r := Run(c, l, ops);
            r.admitted - a0 <= c.halfOpenProbes * Cooldowns(c, t0, r.clock)
    decreases ops
  {
    if ops == [] {
      var start := if l.phase.Open? then l.phase.atMs else l.phase.sinceMs;
      CooldownsElapse(c, t0, start, l.clock);
      ProbesMultiply(c.halfOpenProbes, Cooldowns(c, t0, start), Cooldowns(c, t0, l.clock));
    } else {
      StepStaysWithinBudget(c, a0, t0, l, ops[0]);
      LoadIsBounded(c, a0, t0, Step(c, l, ops[0]), ops[1..]);
    }
  }

  lemma LoadOfOutageIsBounded(c: Config, l: Ledger, ops: seq<Op>)
    requires Clamped(c) && Sound(c, l) && Legal(c, l, ops) && NeverCloses(c, l, ops)
    requires l.phase.Open? && l.phase.atMs == l.clock
    ensures var r := Run(c, l, ops);
            r.admitted - l.admitted <= c.halfOpenProbes * ((r.clock - l.clock) / c.openCooldownMs)
  {
    assert WithinBudget(c, l.admitted, l.clock, l);
    LoadIsBounded(c, l.admitted, l.clock, l, ops);
  }

  // ---------------------------------------------------------------------------------------
  // No wedge
  // ---------------------------------------------------------------------------------------

  /** From any sound state with nothing in flight, an attempt after the HALF_OPEN deadline and a second
      one after the longest cooldown: one of the two is admitted. */
  lemma NoWedge(c: Config, l: Ledger, t1: nat, j1: nat, t2: nat, j2: nat)
    requires Clamped(c) && Sound(c, l) && Inflight(l) == 0
    requires l.clock + c.halfOpenMaxMs <= t1 && t1 + c.openCooldownMs + c.cooldownJitterMs <= t2
    requires Jitter(c, j1) && Jitter(c, j2)
    ensures var (l1, first) := Acquire(c, l, t1, j1);
            first.Admitted? || Acquire(c, l1, t2, j2).1.Admitted?
  {
  }

  // ---------------------------------------------------------------------------------------
  // Concurrency
  // ---------------------------------------------------------------------------------------

  /** In a fresh enough HALF_OPEN, probes are admitted until all of them are in flight. */
  lemma {:induction false} ProbesFill(c: Config, l: Ledger) returns (ops: seq<Op>)
    requires Clamped(c) && Sound(c, l) && l.phase.HalfOpen? && l.phase.sinceMs == l.clock
    requires Inflight(l) == l.admitted - l.phase.admittedBefore
    ensures Legal(c, l, ops) && Inflight(Run(c, l, ops)) == c.halfOpenProbes
    decreases c.halfOpenProbes - Inflight(l)
  {
    if Inflight(l) == c.halfOpenProbes {
      return [];
    }
    var acq := Acq(l.clock, 0);
    var rest := ProbesFill(c, Step(c, l, acq));
    RunOfCons(c, l, acq, rest);
    ops := [acq] + rest;
  }

  lemma OpenFills(c: Config, l: Ledger) returns (ops: seq<Op>)
    requires Clamped(c) && Sound(c, l) && Inflight(l) == 0 && l.phase.Open?
    ensures Legal(c, l, ops) && Inflight(Run(c, l, ops)) == c.halfOpenProbes
  {
    var acq := Acq(l.clock + l.phase.cooldownMs, 0);
    var rest := ProbesFill(c, Step(c, l, acq));
    RunOfCons(c, l, acq, rest);
    ops := [acq] + rest;
  }

  /** Failing one call after another opens any closed circuit, and waiting then fills it with probes. */
  lemma {:induction false} ClosedFills(c: Config, l: Ledger) returns (ops: seq<Op>)
    requires Clamped(c) && Sound(c, l) && Inflight(l) == 0 && l.phase.Closed?
    ensures Legal(c, l, ops) && Inflight(Run(c, l, ops)) == c.halfOpenProbes
    decreases c.consecutiveFailOpen - FailuresSinceSuccess(l.log)
  {
    var acq, rel := Acq(l.clock, 0), Rel(Timeout, 0, l.clock, 0);
    var l1 := Step(c, l, acq);
    var l2 := Step(c, l1, rel);
    var e := Event(l.clock / 1000, Timeout, 0);
    SinceSuccess(l1.log, e);
    JudgedOutcomes(c, l1.(log := l1.log + [e]), Timeout, l.clock, 0);
    var rest: seq<Op>;
    if l2.phase.Open? {
      rest := OpenFills(c, l2);
    } else {
      rest := ClosedFills(c, l2);
    }
    RunOfCons(c, l1, rel, rest);
    RunOfCons(c, l, acq, [rel] + rest);
    ops := [acq] + ([rel] + rest);
  }

  /** `maxInflight` bounds the calls in flight in every run exactly when it is not below `halfOpenProbes`;
      the bound that always holds is the larger of the two. */
  lemma MaxInflightHoldsIffProbesFit(c: Config)
    requires Clamped(c)
    ensures (forall ops :: Legal(c, FRESH, ops) ==> Inflight(Run(c, FRESH, ops)) <= c.maxInflight)
       <==> c.halfOpenProbes <= c.maxInflight
    ensures forall ops :: Legal(c, FRESH, ops) ==>
              0 <= Inflight(Run(c, FRESH, ops)) <= Max(c.maxInflight, c.halfOpenProbes)
  {
    var ops := ClosedFills(c, FRESH);
  }

  // ---------------------------------------------------------------------------------------
  // Guaranteed recovery
  // ---------------------------------------------------------------------------------------

  predicate QuickProbe(op: Op) {
    op.Rel? ==> op.outcome.Success? && op.latencyUs <= 1000
  }

  function Acquires(ops: seq<Op>): nat {
    if ops == [] then 0 else (if ops[0].Acq? then 1 else 0) + Acquires(ops[1..])
  }

  ghost predicate QuickSuccess(e: Event) {
    e.outcome.Success? && e.latencyUs <= 1000
  }

  lemma QuickIsInFirstBands(us: nat)
    ensures us <= 1000 <==> Band(us) < 2
  {
    BandIsFirst(us, 0);
    assert HIST_BOUNDS_US[1] == 1000;
  }

  lemma {:induction false} QuickTally(log: seq<Event>, secs: set<nat>)
    requires forall e <- log :: e.sec in secs ==> QuickSuccess(e)
    ensures var s := Tally(log, secs); s.errors == 0 && Cumulative(s.hist, 2) == s.total
  {
    if log == [] {
      CumulativeOfZeros(NO_STATS.hist, 2);
    } else {
      var e := log[|log| - 1];
      QuickTally(log[..|log| - 1], secs);
      QuickIsInFirstBands(e.latencyUs);
      CumulativeOfBump(Tally(log[..|log| - 1], secs).hist, Band(e.latencyUs), 2);
    }
  }

  lemma QuickWindowIsHealthy(c: Config, log: seq<Event>, secs: set<nat>)
    requires Clamped(c)
    requires forall e <- log :: e.sec in secs ==> QuickSuccess(e)
    ensures Healthy(c, Tally(log, secs))
  {
    var s := Tally(log, secs);
    QuickTally(log, secs);
    RankIsWithin(s.total, 99, 99);
    var b := ReachingBand(s.hist, Rank(s.total, 99), 0);
    assert b < 2;
    assert BandCeiling(0) == 500 && BandCeiling(1) == 1000;
  }

  /** Where a recovery that started probing at `t` from an empty circuit stands. */
  ghost predicate Recovering(c: Config, l: Ledger, t: nat, ops: seq<Op>)
    requires Clamped(c) && Sound(c, l)
  {
    && l.phase.HalfOpen? && l.phase.sinceMs == t
    && l.phase.admittedBefore == l.phase.releasedBefore
    && |ProbeLog(l)| < c.recoverySuccesses
    && (forall e <- l.log :: e.sec > t / 1000 - c.windowSecs ==> QuickSuccess(e))
    && (forall op <- ops :: QuickProbe(op))
    && (forall op <- ops :: op.Acq? ==> op.now < t + c.halfOpenMaxMs)
    && Acquires(ops) == c.recoverySuccesses - (l.admitted - l.phase.admittedBefore)
    && |ops| - Acquires(ops) == c.recoverySuccesses - |ProbeLog(l)|
  }

  lemma RecoveryRelease(c: Config, l: Ledger, t: nat, ops: seq<Op>)
    requires Clamped(c) && Sound(c, l) && Legal(c, l, ops) && Recovering(c, l, t, ops) && ops != [] && ops[0].Rel?
    ensures var r := Step(c, l, ops[0]);
            r == l.(clock := ops[0].now, log := r.log,
                    phase := if |ProbeLog(l)| + 1 < c.recoverySuccesses then l.phase else Closed)
            && r.log == l.log + [Event(ops[0].now / 1000, Success, ops[0].latencyUs)]
  {
    var op := ops[0];
    assert op in ops;
    var e := Event(op.now / 1000, Success, op.latencyUs);
    var b := l.(clock := op.now, log := l.log + [e]);
    AllSuccessesAreCounted(ProbeLog(l));
    ProbeLogGrows(l, e, op.now);
    forall f | f in b.log && f.sec in LastSeconds(c.windowSecs, op.now / 1000) ensures QuickSuccess(f) {
      assert f in l.log || f == e;
    }
    QuickWindowIsHealthy(c, b.log, LastSeconds(c.windowSecs, op.now / 1000));
  }

  lemma RecoveryProceeds(c: Config, l: Ledger, t: nat, ops: seq<Op>)
    requires Clamped(c) && Sound(c, l) && Legal(c, l, ops) && Recovering(c, l, t, ops) && ops != [] && ops[0].Rel?
    ensures var r := Step(c, l, ops[0]);
            if r.phase.HalfOpen? then Recovering(c, r, t, ops[1..]) else r.phase.Closed? && ops[1..] == []
  {
    RecoveryRelease(c, l, t, ops);
    var r := Step(c, l, ops[0]);
    var e := Event(ops[0].now / 1000, Success, ops[0].latencyUs);
    assert ops[0] in ops;
    assert forall o <- ops[1..] :: o in ops;
    assert forall f <- r.log :: f in l.log || f == e;
    if r.phase.HalfOpen? {
      assert ProbeLog(r) == ProbeLog(l) + [e];
    }
  }

  lemma RecoveryAcquire(c: Config, l: Ledger, t: nat, ops: seq<Op>)
    requires Clamped(c) && Sound(c, l) && Legal(c, l, ops) && Recovering(c, l, t, ops) && ops != [] && ops[0].Acq?
    ensures Recovering(c, Step(c, l, ops[0]), t, ops[1..])
  {
    assert ops[0] in ops;
    assert forall o <- ops[1..] :: o in ops;
  }

  ghost predicate HalfOpenUntilTheEnd(c: Config, l: Ledger, ops: seq<Op>)
    requires Clamped(c) && Sound(c, l) && Legal(c, l, ops)
    decreases ops
  {
    if ops == [] then l.phase.Closed?
    else l.phase.HalfOpen? && HalfOpenUntilTheEnd(c, Step(c, l, ops[0]), ops[1..])
  }

  lemma {:induction false} RecoveryContinues(c: Config, l: Ledger, t: nat, ops: seq<Op>)
    requires Clamped(c) && Sound(c, l) && Legal(c, l, ops) && Recovering(c, l, t, ops)
    ensures HalfOpenUntilTheEnd(c, l, ops)
    decreases ops
  {
    var r := Step(c, l, ops[0]);
    if ops[0].Rel? {
      RecoveryProceeds(c, l, t, ops);
      if r.phase.HalfOpen? {
        RecoveryContinues(c, r, t, ops[1..]);
      }
    } else {
      RecoveryAcquire(c, l, t, ops);
      RecoveryContinues(c, r, t, ops[1..]);
    }
  }

  /** Recovery is always possible, whatever the configuration clamped to: from OPEN with nothing in flight
      and every recorded event out of the window, once the cooldown has elapsed, any interleaving of
      `recoverySuccesses` probes acquired before the HALF_OPEN deadline that all succeed within 1000us
      stays HALF_OPEN until its last release and closes the circuit with it. */
  lemma RecoveryIsGuaranteed(c: Config, l: Ledger, ops: seq<Op>)
    requires Clamped(c) && Sound(c, l) && Legal(c, l, ops)
    requires l.phase.Open? && Inflight(l) == 0
    requires ops != [] && ops[0].Acq? && ops[0].now - l.phase.atMs >= l.phase.cooldownMs
    requires forall e <- l.log :: e.sec <= ops[0].now / 1000 - c.windowSecs
    requires forall op <- ops :: QuickProbe(op)
    requires forall op <- ops :: op.Acq? ==> op.now < ops[0].now + c.halfOpenMaxMs
    requires Acquires(ops) == c.recoverySuccesses && |ops| == 2 * c.recoverySuccesses
    ensures HalfOpenUntilTheEnd(c, Step(c, l, ops[0]), ops[1..])
  {
    assert forall o <- ops[1..] :: o in ops;
    RecoveryContinues(c, Step(c, l, ops[0]), ops[0].now, ops[1..]);
  }
}
