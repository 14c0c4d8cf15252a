/** The circuit breaker as implemented, with counters updated in place and a ring of buckets,
    proved to refine the reference breaker of BreakerSpec step by step. */
module Breaker {
  import opened LatencyWindow
  import opened Percentiles
  import opened BreakerSpec

  datatype CircuitState = CLOSED | OPEN | HALF_OPEN

  class CircuitBreaker {
    const config: Config
    const window: RollingWindow
    var state: CircuitState
    var openedAtMs: nat
    var cooldownMs: nat
    var consecutiveFail: nat
    var consecutiveTimeout: nat
    var probesDispatched: nat
    var halfOpenSuccesses: nat
    var halfOpenStartedAtMs: nat
    var inflight: nat

    var requestsTotal: nat
    var successTotal: nat
    var errorsTotal: nat
    var timeoutsTotal: nat
    var circuitOpenTotal: nat
    var circuitHalfOpenTotal: nat
    var circuitRejectedTotal: nat

    /** The history this breaker has lived through. */
    ghost var ledger: Ledger

    ghost predicate CountersMirror()
      reads this
    {
      && inflight == Inflight(ledger)
      && consecutiveFail == FailuresSinceSuccess(ledger.log)
      && consecutiveTimeout == TimeoutsSinceSuccess(ledger.log)
      && requestsTotal == |ledger.log|
      && successTotal == CountOf(ledger.log, Success)
      && errorsTotal == CountOf(ledger.log, RedisError)
      && timeoutsTotal == CountOf(ledger.log, Timeout)
      && circuitOpenTotal == ledger.opens
      && circuitHalfOpenTotal == ledger.halfOpens
      && circuitRejectedTotal == ledger.rejected
    }

    ghost predicate PhaseMirrors(l: Ledger)
      reads `state, `openedAtMs, `cooldownMs, `halfOpenStartedAtMs, `probesDispatched, `halfOpenSuccesses
    {
      match l.phase
      case Closed => state.CLOSED?
      case Open(at, cooldown) => state.OPEN? && openedAtMs == at && cooldownMs == cooldown
      case HalfOpen(since, admittedBefore, releasedBefore) =>
        && state.HALF_OPEN?
        && halfOpenStartedAtMs == since
        && probesDispatched == l.admitted - admittedBefore
        && releasedBefore <= |l.log|
        && halfOpenSuccesses == CountOf(ProbeLog(l), Success)
    }

    ghost predicate WindowMirrors()
      reads this, window, window.buckets
    {
      && window.Valid()
      && window.buckets.Length == config.windowSecs
      && window.log == ledger.log
    }

    ghost predicate Valid()
      reads this, window, window.buckets
    {
      Clamped(config) && WindowMirrors() && CountersMirror() && PhaseMirrors(ledger) && Sound(config, ledger)
    }

    constructor (config: Config)
      ensures Valid() && fresh(window) && fresh(window.buckets)
      ensures this.config == Clamp(config) && ledger == FRESH
    {
      var clamped := Clamp(config);
      this.config := clamped;
      window := new RollingWindow(clamped.windowSecs);
      state := CLOSED;
      openedAtMs, cooldownMs, consecutiveFail, consecutiveTimeout := 0, 0, 0, 0;
      probesDispatched, halfOpenSuccesses, halfOpenStartedAtMs, inflight := 0, 0, 0, 0;
      requestsTotal, successTotal, errorsTotal, timeoutsTotal := 0, 0, 0, 0;
      circuitOpenTotal, circuitHalfOpenTotal, circuitRejectedTotal := 0, 0, 0;
      ledger := FRESH;
    }

    method Acquire(now: nat, jitterMs: nat) returns (v: Verdict)
      requires Valid() && ledger.clock <= now && Jitter(config, jitterMs)
      modifies this
      ensures Valid()
      ensures (ledger, v) == BreakerSpec.Acquire(config, old(ledger), now, jitterMs)
    {
      AcquireKeepsSound(config, ledger, now, jitterMs);
      v := Decide(now, jitterMs);
    }

    method Decide(now: nat, jitterMs: nat) returns (v: Verdict)
      requires Clamped(config) && CountersMirror() && PhaseMirrors(ledger)
      modifies this
      ensures CountersMirror() && PhaseMirrors(ledger)
      ensures (ledger, v) == BreakerSpec.Acquire(config, old(ledger), now, jitterMs)
    {
      ledger := ledger.(clock := now);
      if state.CLOSED? {
        if inflight >= config.maxInflight {
          circuitRejectedTotal := circuitRejectedTotal + 1;
          ledger := Reject(ledger);
          return ConcurrencyRejected;
        }
        inflight := inflight + 1;
        ledger := ledger.(admitted := ledger.admitted + 1);
        return Admitted;
      }
      if state.OPEN? {
        if now - openedAtMs >= cooldownMs {
          EnterHalfOpen(now);
          v := AcquireHalfOpen(now, jitterMs);
          return;
        }
        circuitRejectedTotal := circuitRejectedTotal + 1;
        ledger := Reject(ledger);
        return CircuitOpen;
      }
      v := AcquireHalfOpen(now, jitterMs);
    }

    method EnterHalfOpen(now: nat)
      requires CountersMirror() && 0 <= Inflight(ledger)
      modifies this
      ensures CountersMirror() && PhaseMirrors(ledger)
      ensures ledger == old(ledger).(phase := HalfOpen(now, old(ledger).admitted, |old(ledger).log|),
                                     halfOpens := old(ledger).halfOpens + 1)
    {
      state := HALF_OPEN;
      probesDispatched := 0;
      halfOpenSuccesses := 0;
      halfOpenStartedAtMs := now;
      circuitHalfOpenTotal := circuitHalfOpenTotal + 1;
      ledger := ledger.(phase := HalfOpen(now, ledger.admitted, |ledger.log|), halfOpens := ledger.halfOpens + 1);
    }

    method AcquireHalfOpen(now: nat, jitterMs: nat) returns (v: Verdict)
      requires Clamped(config) && ledger.phase.HalfOpen? && CountersMirror() && PhaseMirrors(ledger)
      modifies this
      ensures CountersMirror() && PhaseMirrors(ledger)
      ensures (ledger, v) == Probe(config, old(ledger), now, jitterMs)
    {
      if now - halfOpenStartedAtMs >= config.halfOpenMaxMs {
        if state.HALF_OPEN? {
          TripOpen(now, jitterMs);
        }
        circuitRejectedTotal := circuitRejectedTotal + 1;
        ledger := Reject(ledger);
        return CircuitOpen;
      }
      if probesDispatched >= config.halfOpenProbes {
        circuitRejectedTotal := circuitRejectedTotal + 1;
        ledger := Reject(ledger);
        return CircuitOpen;
      }
      if inflight >= config.halfOpenProbes {
        circuitRejectedTotal := circuitRejectedTotal + 1;
        ledger := Reject(ledger);
        return ConcurrencyRejected;
      }
      probesDispatched := probesDispatched + 1;
      inflight := inflight + 1;
      ledger := ledger.(admitted := ledger.admitted + 1);
      v := Admitted;
    }

    method TripOpen(now: nat, jitterMs: nat)
      requires Clamped(config) && CountersMirror() && PhaseMirrors(ledger)
      modifies this
      ensures CountersMirror() && PhaseMirrors(ledger)
      ensures ledger == Trip(config, old(ledger), now, jitterMs)
    {
      if !state.OPEN? {
        state := OPEN;
        openedAtMs := now;
        cooldownMs := config.openCooldownMs + jitterMs;
        circuitOpenTotal := circuitOpenTotal + 1;
      }
      ledger := Trip(config, ledger, now, jitterMs);
    }

    /** Paired with every admitted acquire; the clock has not run backwards. */
    method Release(outcome: Outcome, latencyUs: nat, now: nat, jitterMs: nat)
      requires Valid() && ledger.clock <= now && Jitter(config, jitterMs)
      requires inflight > 0
      modifies this, window, window.buckets
      ensures Valid()
      ensures ledger == BreakerSpec.Release(config, old(ledger), outcome, latencyUs, now, jitterMs)
    {
      ReleaseKeepsSound(config, ledger, outcome, latencyUs, now, jitterMs);
      Enter(outcome, latencyUs, now);
      assert ledger.log[|ledger.log| - 1].sec == now / 1000;
      Judge(outcome, now, jitterMs);
    }

    /** The release is recorded in the window and booked in the counters. */
    method Enter(outcome: Outcome, latencyUs: nat, now: nat)
      requires WindowMirrors() && CountersMirror() && PhaseMirrors(ledger) && inflight > 0
      requires forall e <- ledger.log :: e.sec <= now / 1000
      modifies this, window, window.buckets
      ensures WindowMirrors() && CountersMirror() && PhaseMirrors(ledger)
      ensures ledger == old(ledger).(clock := now, log := old(ledger).log + [Event(now / 1000, outcome, latencyUs)])
    {
      window.Record(outcome, latencyUs, now / 1000);
      BookRelease(outcome, Event(now / 1000, outcome, latencyUs), now);
    }

    /** All counters after a release. */
    method BookRelease(outcome: Outcome, ghost e: Event, ghost now: nat)
      requires CountersMirror() && PhaseMirrors(ledger) && inflight > 0 && e.outcome == outcome
      modifies `ledger, `inflight, `requestsTotal, `successTotal, `errorsTotal, `timeoutsTotal
      modifies `consecutiveFail, `consecutiveTimeout, `halfOpenSuccesses
      ensures CountersMirror() && PhaseMirrors(ledger)
      ensures ledger == old(ledger).(clock := now, log := old(ledger).log + [e])
    {
      ghost var before := ledger;
      Book(outcome, e, now);
      CountProbe(outcome, e, before, ledger);
    }

    /** A success in HALF_OPEN counts toward recovery. */
    method CountProbe(outcome: Outcome, ghost e: Event, ghost before: Ledger, ghost after: Ledger)
      requires PhaseMirrors(before) && e.outcome == outcome
      requires after == before.(clock := after.clock, log := before.log + [e])
      modifies `halfOpenSuccesses
      ensures PhaseMirrors(after)
    {
      ProbeLogGrows(before, e, after.clock);
      if outcome.Success? && state.HALF_OPEN? {
        halfOpenSuccesses := halfOpenSuccesses + 1;
      }
    }

    /** The bookkeeping of a release: slot freed, counters advanced. */
    method Book(outcome: Outcome, ghost e: Event, ghost now: nat)
      requires CountersMirror() && inflight > 0 && e.outcome == outcome
      modifies `ledger, `inflight, `requestsTotal, `successTotal, `errorsTotal, `timeoutsTotal
      modifies `consecutiveFail, `consecutiveTimeout
      ensures CountersMirror()
      ensures ledger == old(ledger).(clock := now, log := old(ledger).log + [e])
    {
      CountOfAppend(ledger.log, e, Success);
      CountOfAppend(ledger.log, e, RedisError);
      CountOfAppend(ledger.log, e, Timeout);
      SinceSuccess(ledger.log, e);
      ledger := ledger.(clock := now, log := ledger.log + [e]);
      inflight := inflight - 1;
      requestsTotal := requestsTotal + 1;
      if outcome.Success? {
        successTotal := successTotal + 1;
        consecutiveFail := 0;
        consecutiveTimeout := 0;
      } else if outcome.Timeout? {
        timeoutsTotal := timeoutsTotal + 1;
        consecutiveFail := consecutiveFail + 1;
        consecutiveTimeout := consecutiveTimeout + 1;
      } else {
        errorsTotal := errorsTotal + 1;
        consecutiveFail := consecutiveFail + 1;
      }
    }

    /** The state transition a release causes, once it has been booked. */
    method Judge(outcome: Outcome, now: nat, jitterMs: nat)
      requires Clamped(config) && WindowMirrors() && CountersMirror() && PhaseMirrors(ledger)
      requires forall e <- ledger.log :: e.sec <= now / 1000
      requires exists e <- ledger.log :: e.sec == now / 1000
      modifies this
      ensures WindowMirrors() && CountersMirror() && PhaseMirrors(ledger)
      ensures ledger == Judged(config, old(ledger), outcome, now, jitterMs)
    {
      if outcome.Success? {
        if state.HALF_OPEN? {
          CheckRecovery(now);
        } else {
          CheckStatisticalOpen(now, jitterMs);
        }
        return;
      }
      if state.HALF_OPEN? {
        TripOpen(now, jitterMs);
        return;
      }
      if || consecutiveFail >= config.consecutiveFailOpen
         || (outcome.Timeout? && consecutiveTimeout >= config.consecutiveTimeoutOpen) {
        TripOpen(now, jitterMs);
        return;
      }
      CheckStatisticalOpen(now, jitterMs);
    }

    /** Enough probes have succeeded and the window is healthy: close. */
    method CheckRecovery(now: nat)
      requires Clamped(config) && WindowMirrors() && CountersMirror() && PhaseMirrors(ledger) && ledger.phase.HalfOpen?
      requires forall e <- ledger.log :: e.sec <= now / 1000
      requires exists e <- ledger.log :: e.sec == now / 1000
      modifies this
      ensures WindowMirrors() && CountersMirror() && PhaseMirrors(ledger)
      ensures ledger == if Recovered(config, old(ledger), now) then old(ledger).(phase := Closed) else old(ledger)
    {
      if halfOpenSuccesses >= config.recoverySuccesses {
        var stats := window.Aggregate(config.windowSecs, now / 1000);
        AggregateIsLastSeconds(ledger.log, config.windowSecs, now / 1000);
        var p99 := PercentileUs(stats, 99);
        if p99 as real <= config.p99UsRecovery && ErrorRate(stats) <= config.errorRateRecovery {
          state := CLOSED;
          ledger := ledger.(phase := Closed);
        }
      }
    }

    /** Sustained degradation over the window trips the circuit. */
    method CheckStatisticalOpen(now: nat, jitterMs: nat)
      requires Clamped(config) && WindowMirrors() && CountersMirror() && PhaseMirrors(ledger)
      requires forall e <- ledger.log :: e.sec <= now / 1000
      requires exists e <- ledger.log :: e.sec == now / 1000
      modifies this
      ensures WindowMirrors() && CountersMirror() && PhaseMirrors(ledger)
      ensures ledger == if Degraded(config, Recent(config, old(ledger).log, now))
                        then Trip(config, old(ledger), now, jitterMs) else old(ledger)
    {
      var stats := window.Aggregate(config.windowSecs, now / 1000);
      AggregateIsLastSeconds(ledger.log, config.windowSecs, now / 1000);
      if stats.total < config.minSamples {
        return;
      }
      var p99 := PercentileUs(stats, 99);
      if || ErrorRate(stats) >= config.errorRateOpen
         || TimeoutRate(stats) >= config.timeoutRateOpen
         || p99 >= config.p99UsOpen {
        TripOpen(now, jitterMs);
      }
    }
  }
}
