/** What the breaker decides, as plain statements about the calls it has seen: numbers of events of the log in the
    last seconds, and the events at the log's end. */
module BreakerDecisions {
  import opened LatencyWindow
  import opened Percentiles
  import opened BreakerSpec

  // ---------------------------------------------------------------------------------------
  // Counting events
  // ---------------------------------------------------------------------------------------

  /** Calls of any outcome; Redis errors; timeouts; calls whose latency lies within a histogram bound below `us`, or
      within one not above it. */
  datatype Sort = Any | Failed | TimedOut | Under(us: int) | AtMost(ceiling: real)

  predicate Matches(e: Event, s: Sort) {
    match s
    case Any => true
    case Failed => e.outcome.RedisError?
    case TimedOut => e.outcome.Timeout?
    case Under(us) => exists bound <- HIST_BOUNDS_US :: e.latencyUs <= bound < us
    case AtMost(ceiling) => exists bound <- HIST_BOUNDS_US :: e.latencyUs <= bound && bound as real <= ceiling
  }

  /** The positions in the log of such calls that ended in one of the last `n` seconds, the current one included. */
  ghost function Lately(log: seq<Event>, n: int, now: nat, s: Sort): set<nat> {
    set i | 0 <= i < |log| && now / 1000 - n < log[i].sec <= now / 1000 && Matches(log[i], s)
  }

  ghost function Among(log: seq<Event>, secs: set<nat>, s: Sort): set<nat> {
    set i | 0 <= i < |log| && log[i].sec in secs && Matches(log[i], s)
  }

  lemma AmongOfAppend(log: seq<Event>, e: Event, secs: set<nat>, s: Sort)
    ensures Among(log + [e], secs, s) == Among(log, secs, s) + if e.sec in secs && Matches(e, s) then {|log|} else {}
  {
    var all := log + [e];
    assert all[|log|] == e;
    forall i: nat | i < |log| ensures i in Among(all, secs, s) <==> i in Among(log, secs, s) {
      assert all[i] == log[i];
    }
  }

  lemma AmongGrows(log: seq<Event>, e: Event, secs: set<nat>, s: Sort)
    ensures |Among(log + [e], secs, s)| == |Among(log, secs, s)| + if e.sec in secs && Matches(e, s) then 1 else 0
  {
    AmongOfAppend(log, e, secs, s);
  }

  /** Exactly the first `k` bands lie within bounds that count. */
  predicate Separates(k: nat, s: Sort) {
    k < HIST_BANDS &&
    match s
    case Under(us) =>
      us <= MAX_SAFE_INTEGER && forall j :: 0 <= j < |HIST_BOUNDS_US| ==> (HIST_BOUNDS_US[j] < us <==> j < k)
    case AtMost(ceiling) =>
      && ceiling < MAX_SAFE_INTEGER as real
      && forall j :: 0 <= j < |HIST_BOUNDS_US| ==> (HIST_BOUNDS_US[j] as real <= ceiling <==> j < k)
    case _ => false
  }

  lemma BandTellsMatch(e: Event, k: nat, s: Sort)
    requires Separates(k, s)
    ensures Matches(e, s) <==> Band(e.latencyUs) < k
  {
    var b := Band(e.latencyUs);
    BandIsFirst(e.latencyUs, 0);
    if b < k {
      assert HIST_BOUNDS_US[b] in HIST_BOUNDS_US;
    }
    if bound :| bound in HIST_BOUNDS_US && e.latencyUs <= bound {
      var j :| 0 <= j < |HIST_BOUNDS_US| && HIST_BOUNDS_US[j] == bound;
    }
    forall j | 0 <= j < |HIST_BOUNDS_US| && e.latencyUs <= HIST_BOUNDS_US[j] ensures b <= j {
    }
  }

  lemma BandsTellMatches(log: seq<Event>, k: nat, s: Sort)
    requires Separates(k, s)
    ensures forall e :: e in log ==> (Matches(e, s) <==> Band(e.latencyUs) < k)
  {
    forall e | e in log ensures Matches(e, s) <==> Band(e.latencyUs) < k {
      BandTellsMatch(e, k, s);
    }
  }

  lemma {:induction false} TallyCounts(log: seq<Event>, secs: set<nat>)
    ensures var t := Tally(log, secs);
            && t.total == |Among(log, secs, Any)|
            && t.errors == |Among(log, secs, Failed)|
            && t.timeouts == |Among(log, secs, TimedOut)|
  {
    if log == [] {
      assert forall s :: Among(log, secs, s) == {};
    } else {
      var front, e := log[..|log| - 1], log[|log| - 1];
      assert log == front + [e];
      TallyCounts(front, secs);
      AmongGrows(front, e, secs, Any);
      AmongGrows(front, e, secs, Failed);
      AmongGrows(front, e, secs, TimedOut);
    }
  }

  lemma HistogramGrows(log: seq<Event>, e: Event, secs: set<nat>, k: nat)
    requires k <= HIST_BANDS
    ensures Cumulative(Tally(log + [e], secs).hist, k)
         == Cumulative(Tally(log, secs).hist, k) + if e.sec in secs && Band(e.latencyUs) < k then 1 else 0
  {
    TallyOfAppend(log, e, secs);
    CumulativeOfBump(Tally(log, secs).hist, Band(e.latencyUs), k);
  }

  lemma {:induction false} HistogramCounts(log: seq<Event>, secs: set<nat>, k: nat, s: Sort)
    requires k <= HIST_BANDS && forall e :: e in log ==> (Matches(e, s) <==> Band(e.latencyUs) < k)
    ensures Cumulative(Tally(log, secs).hist, k) == |Among(log, secs, s)|
  {
    if log == [] {
      CumulativeOfZeros(NO_STATS.hist, k);
      assert Among(log, secs, s) == {};
    } else {
      var front, e := log[..|log| - 1], log[|log| - 1];
      assert log == front + [e];
      HistogramCounts(front, secs, k, s);
      AmongGrows(front, e, secs, s);
      HistogramGrows(front, e, secs, k);
      assert e in log;
    }
  }

  lemma LatelyIsAmong(c: Config, log: seq<Event>, now: nat, s: Sort)
    requires Clamped(c)
    ensures Lately(log, c.windowSecs, now, s) == Among(log, LastSeconds(c.windowSecs, now / 1000), s)
  {
  }

  // ---------------------------------------------------------------------------------------
  // The 99th percentile by counting
  // ---------------------------------------------------------------------------------------

  /** The percentile lies beyond the first `k` bands if fewer than 99 in 100 latencies lie in them. */
  lemma PercentileIsBeyond(log: seq<Event>, secs: set<nat>, k: nat)
    requires k < HIST_BANDS && Tally(log, secs).total > 0
    ensures var t := Tally(log, secs);
            var b := ReachingBand(t.hist, Rank(t.total, 99), 0);
            b < HIST_BANDS && Percentile(t, 99) == BandCeiling(b)
            && (b >= k <==> 100 * Cumulative(t.hist, k) < 99 * t.total)
  {
    var t := Tally(log, secs);
    var b := ReachingBand(t.hist, Rank(t.total, 99), 0);
    MassIsTotal(log, secs);
    RankIsWithin(t.total, 99, 99);
    if b < k {
      CumulativeRises(t.hist, b + 1, k);
    }
  }

  lemma {:induction false} CumulativeRises(hist: seq<nat>, i: nat, j: nat)
    requires i <= j <= |hist|
    ensures Cumulative(hist, i) <= Cumulative(hist, j)
  {
    if i < j {
      CumulativeRises(hist, i, j - 1);
    }
  }

  lemma {:induction false} SeparatorUnder(us: int, k: nat) returns (r: nat)
    requires us <= MAX_SAFE_INTEGER && k <= |HIST_BOUNDS_US| && forall j :: 0 <= j < k ==> HIST_BOUNDS_US[j] < us
    ensures Separates(r, Under(us))
    decreases |HIST_BOUNDS_US| - k
  {
    if k < |HIST_BOUNDS_US| && HIST_BOUNDS_US[k] < us {
      r := SeparatorUnder(us, k + 1);
    } else {
      r := k;
    }
  }

  lemma {:induction false} SeparatorAtMost(ceiling: real, k: nat) returns (r: nat)
    requires ceiling < MAX_SAFE_INTEGER as real && k <= |HIST_BOUNDS_US|
    requires forall j :: 0 <= j < k ==> HIST_BOUNDS_US[j] as real <= ceiling
    ensures Separates(r, AtMost(ceiling))
    decreases |HIST_BOUNDS_US| - k
  {
    if k < |HIST_BOUNDS_US| && HIST_BOUNDS_US[k] as real <= ceiling {
      r := SeparatorAtMost(ceiling, k + 1);
    } else {
      r := k;
    }
  }

  // ---------------------------------------------------------------------------------------
  // The two verdicts on the window
  // ---------------------------------------------------------------------------------------

  /** Of `n` calls enough failed or timed out, or fewer than 99 in 100 were quick. */
  predicate Detects(c: Config, n: nat, failed: nat, timedOut: nat, quick: nat) {
    && n >= c.minSamples && n > 0
    && (|| failed as real / n as real >= c.errorRateOpen
        || timedOut as real / n as real >= c.timeoutRateOpen
        || 100 * quick < 99 * n)
  }

  /** So it is of the calls that ended lately. */
  ghost predicate DetectorFires(c: Config, log: seq<Event>, now: nat) {
    Detects(c, |Lately(log, c.windowSecs, now, Any)|, |Lately(log, c.windowSecs, now, Failed)|,
            |Lately(log, c.windowSecs, now, TimedOut)|, |Lately(log, c.windowSecs, now, Under(c.p99UsOpen))|)
  }

  /** Of `n` calls at least 99 in 100 were quick, and not too many failed. */
  predicate Recovers(c: Config, n: nat, failed: nat, quick: nat) {
    100 * quick >= 99 * n && (n > 0 ==> failed as real / n as real <= c.errorRateRecovery)
  }

  ghost predicate WindowRecovers(c: Config, log: seq<Event>, now: nat) {
    Recovers(c, |Lately(log, c.windowSecs, now, Any)|, |Lately(log, c.windowSecs, now, Failed)|,
             |Lately(log, c.windowSecs, now, AtMost(c.p99UsRecovery))|)
  }

  lemma PercentileReaches(log: seq<Event>, secs: set<nat>, us: int)
    requires 0 < us <= MAX_SAFE_INTEGER && Tally(log, secs).total > 0
    ensures Percentile(Tally(log, secs), 99) >= us
       <==> 100 * |Among(log, secs, Under(us))| < 99 * Tally(log, secs).total
  {
    var k := SeparatorUnder(us, 0);
    PercentileIsBeyond(log, secs, k);
    BandsTellMatches(log, k, Under(us));
    HistogramCounts(log, secs, k, Under(us));
  }

  lemma PercentileStaysWithin(log: seq<Event>, secs: set<nat>, ceiling: real)
    requires 0.0 <= ceiling < MAX_SAFE_INTEGER as real && Tally(log, secs).total > 0
    ensures Percentile(Tally(log, secs), 99) as real <= ceiling
       <==> 100 * |Among(log, secs, AtMost(ceiling))| >= 99 * Tally(log, secs).total
  {
    var k := SeparatorAtMost(ceiling, 0);
    PercentileIsBeyond(log, secs, k);
    BandsTellMatches(log, k, AtMost(ceiling));
    HistogramCounts(log, secs, k, AtMost(ceiling));
  }

  lemma RecentCounts(c: Config, log: seq<Event>, now: nat)
    requires Clamped(c)
    ensures var r := Recent(c, log, now);
            && r.total == |Lately(log, c.windowSecs, now, Any)|
            && r.errors == |Lately(log, c.windowSecs, now, Failed)|
            && r.timeouts == |Lately(log, c.windowSecs, now, TimedOut)|
  {
    TallyCounts(log, LastSeconds(c.windowSecs, now / 1000));
    LatelyIsAmong(c, log, now, Any);
    LatelyIsAmong(c, log, now, Failed);
    LatelyIsAmong(c, log, now, TimedOut);
  }

  lemma RecentPercentile(c: Config, log: seq<Event>, now: nat)
    requires Clamped(c) && Recent(c, log, now).total > 0
    ensures var r := Recent(c, log, now);
            && (Percentile(r, 99) >= c.p99UsOpen
                <==> 100 * |Lately(log, c.windowSecs, now, Under(c.p99UsOpen))| < 99 * r.total)
            && (Percentile(r, 99) as real <= c.p99UsRecovery
                <==> 100 * |Lately(log, c.windowSecs, now, AtMost(c.p99UsRecovery))| >= 99 * r.total)
  {
    PercentileReaches(log, LastSeconds(c.windowSecs, now / 1000), c.p99UsOpen);
    PercentileStaysWithin(log, LastSeconds(c.windowSecs, now / 1000), c.p99UsRecovery);
    LatelyIsAmong(c, log, now, Under(c.p99UsOpen));
    LatelyIsAmong(c, log, now, AtMost(c.p99UsRecovery));
  }

  lemma DegradedByCounts(c: Config, t: Stats, quick: nat)
    requires Clamped(c) && (t.total > 0 ==> (Percentile(t, 99) >= c.p99UsOpen <==> 100 * quick < 99 * t.total))
    ensures Degraded(c, t) <==> Detects(c, t.total, t.errors, t.timeouts, quick)
  {
  }

  lemma HealthyByCounts(c: Config, t: Stats, quick: nat)
    requires Clamped(c) && t.errors <= t.total
    requires t.total > 0 ==> (Percentile(t, 99) as real <= c.p99UsRecovery <==> 100 * quick >= 99 * t.total)
    ensures Healthy(c, t) <==> Recovers(c, t.total, t.errors, quick)
  {
  }

  lemma DegradedMeansDetector(c: Config, log: seq<Event>, now: nat)
    requires Clamped(c)
    ensures Degraded(c, Recent(c, log, now)) <==> DetectorFires(c, log, now)
  {
    RecentCounts(c, log, now);
    if Recent(c, log, now).total > 0 {
      RecentPercentile(c, log, now);
    }
    DegradedByCounts(c, Recent(c, log, now), |Lately(log, c.windowSecs, now, Under(c.p99UsOpen))|);
  }

  lemma HealthyMeansRecovers(c: Config, log: seq<Event>, now: nat)
    requires Clamped(c)
    ensures Healthy(c, Recent(c, log, now)) <==> WindowRecovers(c, log, now)
  {
    RecentCounts(c, log, now);
    MassIsTotal(log, LastSeconds(c.windowSecs, now / 1000));
    if Recent(c, log, now).total > 0 {
      RecentPercentile(c, log, now);
    }
    HealthyByCounts(c, Recent(c, log, now), |Lately(log, c.windowSecs, now, AtMost(c.p99UsRecovery))|);
  }

  // ---------------------------------------------------------------------------------------
  // Streaks
  // ---------------------------------------------------------------------------------------

  /** The last `k` calls all failed or timed out. */
  predicate EndsInFailures(log: seq<Event>, k: int) {
    k <= |log| && forall i :: |log| - k <= i < |log| ==> i < 0 || !log[i].outcome.Success?
  }

  /** The timeouts after which nothing has succeeded. */
  ghost function TimeoutsAtEnd(log: seq<Event>): set<nat> {
    set i | 0 <= i < |log| && log[i].outcome.Timeout? && forall j :: i < j < |log| ==> !log[j].outcome.Success?
  }

  lemma {:induction false} FailuresAreAtEnd(log: seq<Event>, k: int)
    requires k > 0
    ensures FailuresSinceSuccess(log) >= k <==> EndsInFailures(log, k)
  {
    if log != [] && !log[|log| - 1].outcome.Success? {
      var front := log[..|log| - 1];
      if k > 1 {
        FailuresAreAtEnd(front, k - 1);
        assert forall i :: 0 <= i < |front| ==> front[i] == log[i];
      }
    } else if log != [] {
      assert log[|log| - 1].outcome.Success?;
    }
  }

  lemma TimeoutsOfAppend(log: seq<Event>)
    requires log != [] && !log[|log| - 1].outcome.Success?
    ensures var last := |log| - 1;
            TimeoutsAtEnd(log) == TimeoutsAtEnd(log[..last]) + if log[last].outcome.Timeout? then {last} else {}
  {
    var front, last := log[..|log| - 1], |log| - 1;
    forall i: nat | i < last ensures i in TimeoutsAtEnd(log) <==> i in TimeoutsAtEnd(front) {
      assert forall j :: 0 <= j < last ==> front[j] == log[j];
    }
  }

  lemma {:induction false} TimeoutsAreAtEnd(log: seq<Event>)
    ensures TimeoutsSinceSuccess(log) == |TimeoutsAtEnd(log)|
  {
    if log == [] {
      assert TimeoutsAtEnd(log) == {};
    } else if log[|log| - 1].outcome.Success? {
      assert forall i :: i in TimeoutsAtEnd(log) ==> i == |log| - 1;
      assert TimeoutsAtEnd(log) == {};
    } else {
      var front, last := log[..|log| - 1], |log| - 1;
      TimeoutsAreAtEnd(front);
      TimeoutsOfAppend(log);
    }
  }

  // ---------------------------------------------------------------------------------------
  // Release
  // ---------------------------------------------------------------------------------------

  /** A release trips a closed circuit if and only if the last calls all failed, or as many timed out since the last
      success, or the detector fires; it then is open from now on for the cooldown, and otherwise stays closed. */
  lemma ClosedTripsIff(c: Config, l: Ledger, outcome: Outcome, latencyUs: nat, now: nat, jitterMs: nat)
    requires Clamped(c) && Sound(c, l) && l.phase.Closed? && l.clock <= now && Inflight(l) > 0
    ensures var r := Release(c, l, outcome, latencyUs, now, jitterMs);
            && r.log == l.log + [Event(now / 1000, outcome, latencyUs)]
            && r.admitted == l.admitted && r.rejected == l.rejected && r.clock == now
            && r.phase == (if || EndsInFailures(r.log, c.consecutiveFailOpen)
                              || |TimeoutsAtEnd(r.log)| >= c.consecutiveTimeoutOpen
                              || DetectorFires(c, r.log, now)
                           then Open(now, c.openCooldownMs + jitterMs) else Closed)
  {
    var e := Event(now / 1000, outcome, latencyUs);
    StreakTrips(c, l, e);
    DegradedMeansDetector(c, l.log + [e], now);
  }

  lemma StreakTrips(c: Config, l: Ledger, e: Event)
    requires Clamped(c) && Sound(c, l) && l.phase.Closed?
    ensures var log := l.log + [e];
            !e.outcome.Success? && TooManyInARow(c, log, e.outcome)
            <==> EndsInFailures(log, c.consecutiveFailOpen) || |TimeoutsAtEnd(log)| >= c.consecutiveTimeoutOpen
  {
    var log := l.log + [e];
    SinceSuccess(l.log, e);
    FailuresAreAtEnd(log, c.consecutiveFailOpen);
    TimeoutsAreAtEnd(log);
  }

  /** Every call released since the probes began has succeeded. */
  lemma ProbesHaveSucceeded(c: Config, l: Ledger, e: Event, now: nat)
    requires Sound(c, l) && l.phase.HalfOpen? && e.outcome.Success?
    ensures CountOf(ProbeLog(l.(clock := now, log := l.log + [e])), Success) == |l.log| + 1 - l.phase.releasedBefore
  {
    ProbeLogGrows(l, e, now);
    AllSuccessesAreCounted(ProbeLog(l));
  }

  /** While probing, a release that is no success reopens the circuit; a success closes it if and only if enough
      probes have succeeded and the window recovers, and otherwise changes no phase. */
  lemma HalfOpenClosesIff(c: Config, l: Ledger, outcome: Outcome, latencyUs: nat, now: nat, jitterMs: nat)
    requires Clamped(c) && Sound(c, l) && l.phase.HalfOpen? && l.clock <= now && Inflight(l) > 0
    ensures var r := Release(c, l, outcome, latencyUs, now, jitterMs);
            && r.log == l.log + [Event(now / 1000, outcome, latencyUs)]
            && r.admitted == l.admitted && r.rejected == l.rejected && r.clock == now
            && r.phase == if !outcome.Success? then Open(now, c.openCooldownMs + jitterMs)
                          else if && |r.log| - l.phase.releasedBefore >= c.recoverySuccesses
                                  && WindowRecovers(c, r.log, now)
                               then Closed
                          else l.phase
  {
    var e := Event(now / 1000, outcome, latencyUs);
    var b := l.(clock := now, log := l.log + [e]);
    if outcome.Success? {
      ProbesHaveSucceeded(c, l, e, now);
      HealthyMeansRecovers(c, b.log, now);
    }
  }

  /** A call admitted before the circuit opened leaves it as it is. */
  lemma OpenStaysOpen(c: Config, l: Ledger, outcome: Outcome, latencyUs: nat, now: nat, jitterMs: nat)
    requires Clamped(c) && Sound(c, l) && l.phase.Open? && l.clock <= now && Inflight(l) > 0
    ensures Release(c, l, outcome, latencyUs, now, jitterMs)
         == l.(clock := now, log := l.log + [Event(now / 1000, outcome, latencyUs)])
  {
  }

  // ---------------------------------------------------------------------------------------
  // Acquire
  // ---------------------------------------------------------------------------------------

  /** A call is admitted if and only if the circuit is closed and has a free slot; or is open, its cooldown over, and
      has a free probe slot; or is probing, before its deadline, with a probe and a probe slot left. */
  lemma AdmittedIff(c: Config, l: Ledger, now: nat, jitterMs: nat)
    requires Clamped(c) && Sound(c, l) && l.clock <= now
    ensures Acquire(c, l, now, jitterMs).1.Admitted?
       <==> match l.phase
            case Closed => Inflight(l) < c.maxInflight
            case Open(at, cooldown) => at + cooldown <= now && Inflight(l) < c.halfOpenProbes
            case HalfOpen(since, before, _) =>
              now < since + c.halfOpenMaxMs && l.admitted < before + c.halfOpenProbes && Inflight(l) < c.halfOpenProbes
  {
  }

  /** A refusal counts as one and is put down to concurrency where only slots are missing; an admitted call takes one;
      the phase changes only from OPEN once the cooldown is over, and from HALF_OPEN once the deadline has passed. */
  lemma AcquireMoves(c: Config, l: Ledger, now: nat, jitterMs: nat)
    requires Clamped(c) && Sound(c, l) && l.clock <= now
    ensures var (r, v) := Acquire(c, l, now, jitterMs);
            && r.log == l.log && r.clock == now
            && r.admitted == l.admitted + (if v.Admitted? then 1 else 0)
            && r.rejected == l.rejected + (if v.Admitted? then 0 else 1)
            && (v.ConcurrencyRejected? ==> Inflight(l) >= if l.phase.Closed? then c.maxInflight else c.halfOpenProbes)
            && (v.CircuitOpen? ==> !r.phase.Closed?)
            && r.phase == match l.phase
                          case Closed => Closed
                          case Open(at, cooldown) =>
                            if now < at + cooldown then l.phase else HalfOpen(now, l.admitted, |l.log|)
                          case HalfOpen(since, _, _) =>
                            if now < since + c.halfOpenMaxMs then l.phase else Open(now, c.openCooldownMs + jitterMs)
  {
  }

  ghost function Ended(log: seq<Event>, outcome: Outcome): set<nat> {
    set i | 0 <= i < |log| && log[i].outcome == outcome
  }

  /** Outcomes are counted one by one. */
  lemma {:induction false} CountOfIsCardinality(log: seq<Event>, outcome: Outcome)
    ensures CountOf(log, outcome) == |Ended(log, outcome)|
  {
    if log == [] {
      assert Ended(log, outcome) == {};
    } else {
      var front, last := log[..|log| - 1], |log| - 1;
      CountOfIsCardinality(front, outcome);
      forall i: nat | i < last ensures i in Ended(log, outcome) <==> i in Ended(front, outcome) {
        assert front[i] == log[i];
      }
      assert Ended(log, outcome) == Ended(front, outcome) + if log[last].outcome == outcome then {last} else {};
    }
  }
}
