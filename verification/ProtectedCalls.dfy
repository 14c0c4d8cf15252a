/** `withCircuitBreaker`: many calls under one breaker, each with its deadline timer and its command
    racing to settle it, interleaved in any order. */
module ProtectedCalls {
  import opened LatencyWindow
  import opened BreakerSpec
  import opened Breaker

  // ---------------------------------------------------------------------------------------
  // One admitted call
  // ---------------------------------------------------------------------------------------

  /** The closure state of one admitted call: `finish` runs at most once. */
  class PendingCall {
    const breaker: CircuitBreaker
    var settled: bool

    constructor (breaker: CircuitBreaker)
      ensures this.breaker == breaker && !settled
    {
      this.breaker := breaker;
      settled := false;
    }

    /** The timer and the command both end here; only the first to arrive releases the breaker. */
    method Finish(outcome: Outcome, elapsedUs: nat, now: nat, jitterMs: nat)
      requires breaker.Valid() && breaker.ledger.clock <= now && Jitter(breaker.config, jitterMs)
      requires !settled ==> breaker.inflight > 0
      modifies this, breaker, breaker.window, breaker.window.buckets
      ensures breaker.Valid() && settled
      ensures breaker.ledger == if old(settled) then old(breaker.ledger)
                                else BreakerSpec.Release(breaker.config, old(breaker.ledger), outcome, elapsedUs, now,
                                                         jitterMs)
    {
      if settled {
        return;
      }
      settled := true;
      breaker.Release(outcome, elapsedUs, now, jitterMs);
    }
  }

  // ---------------------------------------------------------------------------------------
  // All calls
  // ---------------------------------------------------------------------------------------

  /** How far one call has come. `released` counts its releases of the breaker. */
  datatype Call = Call(admitted: bool, settled: bool, timerArmed: bool, commandDone: bool, released: nat)

  datatype System = System(ledger: Ledger, calls: map<nat, Call>)

  /** `Invoke` is a new call. `TimerFires` is its deadline. `CommandSettles` is its promise resolving or
      rejecting, which for a command that hangs never comes. */
  datatype Act =
    | Invoke(id: nat, now: nat, jitterMs: nat)
    | TimerFires(id: nat, elapsedUs: nat, now: nat, jitterMs: nat)
    | CommandSettles(id: nat, outcome: Outcome, elapsedUs: nat, now: nat, jitterMs: nat)

  predicate CanAct(c: Config, s: System, a: Act) {
    && s.ledger.clock <= a.now && Jitter(c, a.jitterMs)
    && match a
       case Invoke(id, _, _) => id !in s.calls
       case TimerFires(id, _, _, _) => id in s.calls && s.calls[id].timerArmed
       case CommandSettles(id, _, _, _, _) => id in s.calls && s.calls[id].admitted && !s.calls[id].commandDone
  }

  ghost function Finish(c: Config, s: System, id: nat, call: Call, outcome: Outcome, us: nat, now: nat, j: nat): System
    requires Clamped(c) && Sound(c, s.ledger)
  {
    if call.settled then System(s.ledger.(clock := now), s.calls[id := call])
    else System(Release(c, s.ledger, outcome, us, now, j),
                s.calls[id := call.(settled := true, released := call.released + 1)])
  }

  ghost function Effect(c: Config, s: System, a: Act): System
    requires Clamped(c) && Sound(c, s.ledger) && CanAct(c, s, a)
  {
    match a
    case Invoke(id, now, j) =>
      var (l, v) := Acquire(c, s.ledger, now, j);
      System(l, s.calls[id := Call(v.Admitted?, false, v.Admitted?, false, 0)])
    case TimerFires(id, us, now, j) =>
      Finish(c, s, id, s.calls[id].(timerArmed := false), Timeout, us, now, j)
    case CommandSettles(id, o, us, now, j) =>
      Finish(c, s, id, s.calls[id].(timerArmed := false, commandDone := true), o, us, now, j)
  }

  /** The calls holding an in-flight slot: admitted and not settled. */
  ghost function Unsettled(calls: map<nat, Call>): set<nat> {
    set id | id in calls && calls[id].admitted && !calls[id].settled
  }

  ghost predicate Accounted(call: Call) {
    && call.released == (if call.settled then 1 else 0)
    && (!call.admitted ==> !call.settled && !call.timerArmed)
    && (call.admitted && !call.settled ==> call.timerArmed)
  }

  /** Every admitted call is released exactly once, when it settles, and until then its timer can still
      settle it; rejected calls never release; the breaker's in-flight count is the number of unsettled calls. */
  ghost predicate Balanced(c: Config, s: System) {
    && Sound(c, s.ledger)
    && Inflight(s.ledger) == |Unsettled(s.calls)|
    && forall id :: id in s.calls ==> Accounted(s.calls[id])
  }

  lemma SettlingIsBalanced(c: Config, s: System, id: nat, call: Call, outcome: Outcome, us: nat, now: nat, j: nat)
    requires Clamped(c) && Balanced(c, s) && s.ledger.clock <= now && Jitter(c, j)
    requires id in s.calls && s.calls[id].admitted
    requires call == s.calls[id].(timerArmed := false, commandDone := call.commandDone)
    ensures Balanced(c, Finish(c, s, id, call, outcome, us, now, j))
  {
    var r := Finish(c, s, id, call, outcome, us, now, j);
    if call.settled {
      assert Unsettled(r.calls) == Unsettled(s.calls);
    } else {
      assert id in Unsettled(s.calls);
      assert Unsettled(r.calls) == Unsettled(s.calls) - {id};
      ReleaseKeepsSound(c, s.ledger, outcome, us, now, j);
      ReleaseFreesOne(c, s.ledger, outcome, us, now, j);
    }
  }

  lemma ReleaseFreesOne(c: Config, l: Ledger, outcome: Outcome, us: nat, now: nat, j: nat)
    requires Clamped(c) && Sound(c, l)
    ensures Inflight(Release(c, l, outcome, us, now, j)) == Inflight(l) - 1
  {
    JudgedOutcomes(c, l.(clock := now, log := l.log + [Event(now / 1000, outcome, us)]), outcome, now, j);
  }

  /** Whoever settles a call first is what the breaker counts, a deadline as a timeout; whoever comes second counts for
      nothing. */
  lemma FirstToSettleCounts(c: Config, s: System, a: Act)
    requires Clamped(c) && Balanced(c, s) && CanAct(c, s, a) && !a.Invoke?
    ensures var l, l' := s.ledger, Effect(c, s, a).ledger;
            if s.calls[a.id].settled then l' == l.(clock := a.now)
            else
              var outcome := if a.TimerFires? then Timeout else a.outcome;
              && l' == Release(c, l, outcome, a.elapsedUs, a.now, a.jitterMs)
              && l'.log == l.log + [Event(a.now / 1000, outcome, a.elapsedUs)]
  {
    var outcome := if a.TimerFires? then Timeout else a.outcome;
    var booked := s.ledger.(clock := a.now, log := s.ledger.log + [Event(a.now / 1000, outcome, a.elapsedUs)]);
    JudgedOutcomes(c, booked, outcome, a.now, a.jitterMs);
  }

  lemma AcquireTakesOne(c: Config, l: Ledger, now: nat, jitterMs: nat)
    requires Clamped(c) && Sound(c, l)
    ensures var (r, v) := Acquire(c, l, now, jitterMs); Inflight(r) == Inflight(l) + if v.Admitted? then 1 else 0
  {
  }

  lemma UnsettledOfNew(calls: map<nat, Call>, id: nat, admitted: bool)
    requires id !in calls
    ensures Unsettled(calls[id := Call(admitted, false, admitted, false, 0)])
         == Unsettled(calls) + if admitted then {id} else {}
  {
  }

  lemma InvokingIsBalanced(c: Config, s: System, a: Act)
    requires Clamped(c) && Balanced(c, s) && CanAct(c, s, a) && a.Invoke?
    ensures Balanced(c, Effect(c, s, a))
  {
    AcquireKeepsSound(c, s.ledger, a.now, a.jitterMs);
    AcquireTakesOne(c, s.ledger, a.now, a.jitterMs);
    UnsettledOfNew(s.calls, a.id, Acquire(c, s.ledger, a.now, a.jitterMs).1.Admitted?);
  }

  lemma ActIsBalanced(c: Config, s: System, a: Act)
    requires Clamped(c) && Balanced(c, s) && CanAct(c, s, a)
    ensures Balanced(c, Effect(c, s, a))
  {
    match a
    case Invoke(_, _, _) => InvokingIsBalanced(c, s, a);
    case TimerFires(id, us, now, j) =>
      SettlingIsBalanced(c, s, id, s.calls[id].(timerArmed := false), Timeout, us, now, j);
    case CommandSettles(id, o, us, now, j) =>
      SettlingIsBalanced(c, s, id, s.calls[id].(timerArmed := false, commandDone := true), o, us, now, j);
  }

  ghost function Perform(c: Config, s: System, a: Act): (r: System)
    requires Clamped(c) && Balanced(c, s) && CanAct(c, s, a)
    ensures Balanced(c, r)
  {
    ActIsBalanced(c, s, a);
    Effect(c, s, a)
  }

  ghost predicate Possible(c: Config, s: System, acts: seq<Act>)
    requires Clamped(c) && Balanced(c, s)
    decreases acts
  {
    acts == [] || (CanAct(c, s, acts[0]) && Possible(c, Perform(c, s, acts[0]), acts[1..]))
  }

  ghost function PerformAll(c: Config, s: System, acts: seq<Act>): (r: System)
    requires Clamped(c) && Balanced(c, s) && Possible(c, s, acts)
    ensures Balanced(c, r)
    decreases acts
  {
    if acts == [] then s else PerformAll(c, Perform(c, s, acts[0]), acts[1..])
  }

  const IDLE: System := System(FRESH, map[])

  lemma IdleIsBalanced(c: Config)
    requires Clamped(c)
    ensures Balanced(c, IDLE)
  {
    assert Unsettled(map[]) == {};
  }

  /** Under every interleaving of any number of calls, timers and commands: each admitted call has been
      released once if it settled and not at all if it has not, rejected calls never release, and the
      breaker's in-flight count is the number of admitted calls not yet settled. */
  lemma EveryInterleavingIsAccounted(c: Config, acts: seq<Act>)
    requires Clamped(c) && Possible(c, IDLE, acts)
    ensures var r := PerformAll(c, IDLE, acts);
            && Inflight(r.ledger) == |Unsettled(r.calls)| <= Max(c.maxInflight, c.halfOpenProbes)
            && forall id :: id in r.calls ==>
                 && r.calls[id].released == (if r.calls[id].settled then 1 else 0)
                 && (r.calls[id].settled ==> r.calls[id].admitted)
  {
    var r := PerformAll(c, IDLE, acts);
    forall id | id in r.calls
      ensures r.calls[id].released == (if r.calls[id].settled then 1 else 0)
      ensures r.calls[id].settled ==> r.calls[id].admitted
    {
      assert Accounted(r.calls[id]);
    }
  }

  /** Whatever has happened, the deadline timer of an admitted unsettled call can still fire, and
      settles it: a command that never answers cannot leak its slot. */
  lemma SlotsCannotLeak(c: Config, s: System, id: nat, us: nat, j: nat)
    requires Clamped(c) && Balanced(c, s) && Jitter(c, j)
    requires id in Unsettled(s.calls)
    ensures var a := TimerFires(id, us, s.ledger.clock, j);
            && CanAct(c, s, a)
            && Unsettled(Perform(c, s, a).calls) == Unsettled(s.calls) - {id}
            && Inflight(Perform(c, s, a).ledger) == Inflight(s.ledger) - 1
  {
    assert Accounted(s.calls[id]);
    ReleaseFreesOne(c, s.ledger, Timeout, us, s.ledger.clock, j);
  }

  /** A call that has settled or was rejected is done with: nothing that happens later releases it again. */
  lemma {:induction false} DoneStaysDone(c: Config, s: System, acts: seq<Act>, id: nat)
    requires Clamped(c) && Balanced(c, s) && Possible(c, s, acts)
    requires id in s.calls && (s.calls[id].settled || !s.calls[id].admitted)
    ensures var r := PerformAll(c, s, acts);
            && id in r.calls
            && r.calls[id].(timerArmed := false, commandDone := false)
               == s.calls[id].(timerArmed := false, commandDone := false)
    decreases acts
  {
    if acts != [] {
      DoneStaysDone(c, Perform(c, s, acts[0]), acts[1..], id);
    }
  }
}
