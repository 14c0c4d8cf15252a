/** The rolling latency histogram of the circuit breaker: a ring of one-second buckets,
    proved to tally exactly the events of a growing log that its buckets still cover. */
module LatencyWindow {

  /** The outcomes a finished Redis operation can have. The two rejection outcomes never reach the window. */
  datatype Outcome = Success | RedisError | Timeout

  datatype Event = Event(sec: nat, outcome: Outcome, latencyUs: nat)

  datatype Stats = Stats(total: nat, errors: nat, timeouts: nat, hist: seq<nat>)

  datatype Bucket = Bucket(ts: nat, stats: Stats)

  const HIST_BANDS: nat := 18
  const MAX_WINDOW_BUCKETS: nat := 64
  const MAX_SAFE_INTEGER: nat := 9007199254740991

  /** Upper bound (us) of each band but the last, which is open-ended. */
  const HIST_BOUNDS_US: seq<nat> := [
    500, 1000, 2000, 4000, 8000, 16000, 32000, 64000,
    100000, 150000, 200000, 300000, 400000, 500000,
    750000, 1000000, 2000000
  ]

  const ZERO_HIST: seq<nat> := [0, 0, 0, 0, 0, 0, 0, 0, 0, 0, 0, 0, 0, 0, 0, 0, 0, 0]
  const NO_STATS: Stats := Stats(0, 0, 0, ZERO_HIST)

  // ---------------------------------------------------------------------------------------
  // Histogram bands
  // ---------------------------------------------------------------------------------------

  function BandFrom(latencyUs: nat, i: nat): (b: nat)
    requires i <= |HIST_BOUNDS_US|
    ensures i <= b < HIST_BANDS
    decreases |HIST_BOUNDS_US| - i
  {
    if i < |HIST_BOUNDS_US| && HIST_BOUNDS_US[i] < latencyUs then BandFrom(latencyUs, i + 1) else i
  }

  /** The band of a latency: the first whose upper bound is not below it. */
  function Band(latencyUs: nat): (b: nat)
    ensures b < HIST_BANDS
  {
    BandFrom(latencyUs, 0)
  }

  lemma {:induction false} BandIsFirst(latencyUs: nat, i: nat)
    requires i <= |HIST_BOUNDS_US|
    ensures var b := BandFrom(latencyUs, i);
            && (b < |HIST_BOUNDS_US| ==> latencyUs <= HIST_BOUNDS_US[b])
            && (forall j :: i <= j < b ==> HIST_BOUNDS_US[j] < latencyUs)
    decreases |HIST_BOUNDS_US| - i
  {
    if i < |HIST_BOUNDS_US| && HIST_BOUNDS_US[i] < latencyUs {
      BandIsFirst(latencyUs, i + 1);
    }
  }

  /** What a percentile falling in band `b` is reported as. */
  function BandCeiling(b: nat): nat {
    if b < |HIST_BOUNDS_US| then HIST_BOUNDS_US[b] else MAX_SAFE_INTEGER
  }

  lemma BandsAreMonotone(a: nat, b: nat)
    requires a <= b
    ensures Band(a) <= Band(b)
  {
    BandIsFirst(a, 0);
    BandIsFirst(b, 0);
  }

  // ---------------------------------------------------------------------------------------
  // The specification: tallies over the whole event log
  // ---------------------------------------------------------------------------------------

  ghost predicate WellShaped(s: Stats) {
    |s.hist| == HIST_BANDS
  }

  function CountIn(s: Stats, outcome: Outcome, latencyUs: nat): (r: Stats)
    requires WellShaped(s)
    ensures WellShaped(r)
  {
    var b := Band(latencyUs);
    Stats(s.total + 1,
          s.errors + (if outcome.RedisError? then 1 else 0),
          s.timeouts + (if outcome.Timeout? then 1 else 0),
          s.hist[b := s.hist[b] + 1])
  }

  /** The statistics of the events of `log` that happened in one of the seconds `secs`. */
  ghost function Tally(log: seq<Event>, secs: set<nat>): (r: Stats)
    ensures WellShaped(r)
  {
    if log == [] then NO_STATS
    else
      var e := log[|log| - 1];
      var before := Tally(log[..|log| - 1], secs);
      if e.sec in secs then CountIn(before, e.outcome, e.latencyUs) else before
  }

  ghost function Plus(a: Stats, b: Stats): (r: Stats)
    requires WellShaped(a) && WellShaped(b)
    ensures WellShaped(r)
  {
    Stats(a.total + b.total, a.errors + b.errors, a.timeouts + b.timeouts,
          seq(HIST_BANDS, i requires 0 <= i < HIST_BANDS => a.hist[i] + b.hist[i]))
  }

  lemma PlusNothing(s: Stats)
    requires WellShaped(s)
    ensures Plus(s, NO_STATS) == s
  {
    assert Plus(s, NO_STATS).hist == s.hist;
  }

  lemma TallyOfAppend(log: seq<Event>, e: Event, secs: set<nat>)
    ensures Tally(log + [e], secs) ==
            if e.sec in secs then CountIn(Tally(log, secs), e.outcome, e.latencyUs) else Tally(log, secs)
  {
    assert (log + [e])[..|log|] == log;
  }

  lemma {:induction false} TallySplits(log: seq<Event>, a: set<nat>, b: set<nat>)
    requires a !! b
    ensures Tally(log, a + b) == Plus(Tally(log, a), Tally(log, b))
  {
    if log == [] {
      assert Plus(NO_STATS, NO_STATS).hist == ZERO_HIST;
    } else {
      TallySplits(log[..|log| - 1], a, b);
      assert Tally(log, a + b).hist == Plus(Tally(log, a), Tally(log, b)).hist;
    }
  }

  /** Only the seconds in which something happened matter. */
  lemma {:induction false} TallyDependsOnEventSeconds(log: seq<Event>, a: set<nat>, b: set<nat>)
    requires forall e <- log :: e.sec in a <==> e.sec in b
    ensures Tally(log, a) == Tally(log, b)
  {
    if log != [] {
      TallyDependsOnEventSeconds(log[..|log| - 1], a, b);
    }
  }

  lemma {:induction false} TallyOfNothing(log: seq<Event>, secs: set<nat>)
    requires forall e <- log :: e.sec !in secs
    ensures Tally(log, secs) == NO_STATS
  {
    if log != [] {
      TallyOfNothing(log[..|log| - 1], secs);
    }
  }

  /** The seconds from `lo` to `hi`, both included. */
  ghost function Seconds(lo: int, hi: int): (r: set<nat>)
    ensures forall s: nat :: s in r <==> lo <= s <= hi
    decreases hi + 1
  {
    if hi < 0 || hi < lo then {} else Seconds(lo, hi - 1) + {hi}
  }

  ghost predicate Overwritten(log: seq<Event>, n: nat, s: nat)
    requires n > 0
  {
    exists e <- log :: e.sec > s && e.sec % n == s % n
  }

  /** The current second and the `w` before it, less those whose bucket a later event has taken over. */
  ghost function Covered(log: seq<Event>, n: nat, w: nat, now: nat): set<nat>
    requires n > 0
  {
    set s: nat | s in Seconds(now - w, now) && !Overwritten(log, n, s)
  }

  /** The last `n` seconds, the current one included. */
  ghost function LastSeconds(n: nat, now: nat): set<nat> {
    Seconds(now - n + 1, now)
  }

  // ---------------------------------------------------------------------------------------
  // The ring of buckets
  // ---------------------------------------------------------------------------------------

  /** A bucket holds the tally of its second, or has never been used. */
  ghost predicate BucketHolds(b: Bucket, i: nat, n: nat, log: seq<Event>)
    requires n > 0
  {
    || (b.ts % n == i && b.stats == Tally(log, {b.ts}))
    || (b.ts == 0 && i != 0 && b.stats == NO_STATS)
  }

  /** Something was recorded in second `sec`. */
  predicate Happened(log: seq<Event>, sec: nat) {
    log != [] && (log[|log| - 1].sec == sec || Happened(log[..|log| - 1], sec))
  }

  lemma {:induction false} HappenedMeansLogged(log: seq<Event>, sec: nat)
    ensures Happened(log, sec) <==> exists e <- log :: e.sec == sec
  {
    if log != [] {
      HappenedMeansLogged(log[..|log| - 1], sec);
      assert log == log[..|log| - 1] + [log[|log| - 1]];
    }
  }

  /** The ring agrees with the log: every bucket holds its own second, in which something happened,
      and the bucket of an event's residue is at that event's second or a later one. */
  ghost predicate RingHolds(ring: seq<Bucket>, log: seq<Event>) {
    && 1 <= |ring|
    && (forall i :: 0 <= i < |ring| ==> BucketHolds(ring[i], i, |ring|, log))
    && (forall i :: 0 <= i < |ring| ==> ring[i].ts == 0 || Happened(log, ring[i].ts))
    && (forall e <- log :: e.sec <= ring[e.sec % |ring|].ts)
  }

  lemma BucketSurvivesAppend(b: Bucket, i: nat, n: nat, log: seq<Event>, e: Event)
    requires n > 0 && BucketHolds(b, i, n, log)
    requires e.sec % n != i || e.sec != b.ts
    requires i < n
    ensures BucketHolds(b, i, n, log + [e])
  {
    TallyOfAppend(log, e, {b.ts});
  }

  /** What the bucket of second `sec` holds before the event is counted in it. */
  function Prepared(b: Bucket, sec: nat): Bucket {
    if b.ts != sec then Bucket(sec, NO_STATS) else b
  }

  lemma PreparedHolds(ring: seq<Bucket>, log: seq<Event>, sec: nat)
    requires RingHolds(ring, log)
    requires forall e <- log :: e.sec <= sec
    ensures Prepared(ring[sec % |ring|], sec).stats == Tally(log, {sec})
  {
    var slot := sec % |ring|;
    var b := ring[slot];
    assert BucketHolds(b, slot, |ring|, log);
    if b.ts != sec {
      NothingYet(ring, log, sec);
      TallyOfNothing(log, {sec});
    }
  }

  /** A bucket of another second means that nothing was recorded in this one: it would have to be a later one. */
  lemma NothingYet(ring: seq<Bucket>, log: seq<Event>, sec: nat)
    requires RingHolds(ring, log) && ring[sec % |ring|].ts != sec
    requires forall e <- log :: e.sec <= sec
    ensures forall e <- log :: e.sec != sec
  {
    HappenedMeansLogged(log, ring[sec % |ring|].ts);
    forall e | e in log ensures e.sec != sec {
      assert e.sec <= ring[e.sec % |ring|].ts;
    }
  }

  lemma RecordKeepsRing(ring: seq<Bucket>, log: seq<Event>, e: Event)
    requires RingHolds(ring, log)
    requires forall f <- log :: f.sec <= e.sec
    ensures var slot := e.sec % |ring|;
            RingHolds(ring[slot := Bucket(e.sec, CountIn(Tally(log, {e.sec}), e.outcome, e.latencyUs))], log + [e])
  {
    var n := |ring|;
    var slot := e.sec % n;
    var ring' := ring[slot := Bucket(e.sec, CountIn(Tally(log, {e.sec}), e.outcome, e.latencyUs))];
    TallyOfAppend(log, e, {e.sec});
    forall i | 0 <= i < n && i != slot ensures BucketHolds(ring'[i], i, n, log + [e]) {
      BucketSurvivesAppend(ring[i], i, n, log, e);
    }
    assert e in log + [e];
    forall f | f in log + [e] ensures f.sec <= ring'[f.sec % n].ts {
      assert f in log || f == e;
    }
  }

  // ---------------------------------------------------------------------------------------
  // Summing the ring
  // ---------------------------------------------------------------------------------------

  /** The covered seconds whose residue is below `i`: what the first `i` buckets contribute. */
  ghost function CoveredBelow(log: seq<Event>, n: nat, w: nat, now: nat, i: nat): set<nat>
    requires n > 0
  {
    set s: nat | s in Covered(log, n, w, now) && s % n < i
  }

  predicate InRange(b: Bucket, w: nat, now: nat) {
    now - w <= b.ts <= now
  }

  ghost function Contribution(b: Bucket, w: nat, now: nat): (r: Stats)
    requires WellShaped(b.stats)
    ensures WellShaped(r)
  {
    if InRange(b, w, now) then b.stats else NO_STATS
  }

  lemma CoveredInTurn(log: seq<Event>, n: nat, w: nat, now: nat)
    requires n > 0
    ensures CoveredBelow(log, n, w, now, 0) == {} && CoveredBelow(log, n, w, now, n) == Covered(log, n, w, now)
  {
  }

  lemma BucketContributes(ring: seq<Bucket>, log: seq<Event>, w: nat, now: nat, i: nat)
    requires RingHolds(ring, log) && i < |ring|
    requires forall e <- log :: e.sec <= now
    ensures WellShaped(ring[i].stats)
    ensures Tally(log, CoveredBelow(log, |ring|, w, now, i + 1))
         == Plus(Tally(log, CoveredBelow(log, |ring|, w, now, i)), Contribution(ring[i], w, now))
  {
    var n, b := |ring|, ring[i];
    var below := CoveredBelow(log, n, w, now, i);
    var here := CoveredBelow(log, n, w, now, i + 1) - below;
    assert CoveredBelow(log, n, w, now, i + 1) == below + here;
    TallySplits(log, below, here);
    forall e | e in log && e.sec in here ensures e.sec == b.ts {
      HappenedMeansLogged(log, b.ts);
      assert !Overwritten(log, n, e.sec);
    }
    HappenedMeansLogged(log, b.ts);
    if InRange(b, w, now) && b.ts % n == i {
      assert !Overwritten(log, n, b.ts);
      TallyDependsOnEventSeconds(log, here, {b.ts});
    } else {
      TallyOfNothing(log, here);
    }
    assert Contribution(b, w, now).hist == Tally(log, here).hist;
  }

  class RollingWindow {
    const buckets: array<Bucket>
    ghost var log: seq<Event>

    ghost predicate Valid()
      reads this, buckets
    {
      buckets.Length <= MAX_WINDOW_BUCKETS && RingHolds(buckets[..], log)
    }

    constructor (size: int)
      ensures Valid() && fresh(buckets) && log == []
      ensures buckets.Length == if size < 1 then 1 else if size > MAX_WINDOW_BUCKETS then MAX_WINDOW_BUCKETS else size
    {
      var n := if size < 1 then 1 else if size > MAX_WINDOW_BUCKETS then MAX_WINDOW_BUCKETS else size;
      buckets := new Bucket[n](_ => Bucket(0, NO_STATS));
      log := [];
    }

    /** The clock never runs backwards: `sec` is not before any recorded event. */
    method Record(outcome: Outcome, latencyUs: nat, sec: nat)
      requires Valid()
      requires forall e <- log :: e.sec <= sec
      modifies this`log, buckets
      ensures Valid()
      ensures log == old(log) + [Event(sec, outcome, latencyUs)]
    {
      ghost var e := Event(sec, outcome, latencyUs);
      ghost var ring := buckets[..];
      var slot := sec % buckets.Length;
      var b := buckets[slot];
      if b.ts != sec {
        b := Bucket(sec, NO_STATS);
      }
      assert b.stats == Tally(log, {sec}) by { PreparedHolds(ring, log, sec); }
      var stats := Counted(b.stats, outcome, latencyUs);
      buckets[slot] := Bucket(sec, stats);
      assert buckets[..] == ring[slot := Bucket(sec, CountIn(Tally(log, {sec}), outcome, latencyUs))];
      RecordKeepsRing(ring, log, e);
      log := log + [e];
    }

    method Aggregate(windowSecs: nat, now: nat) returns (stats: Stats)
      requires Valid()
      requires forall e <- log :: e.sec <= now
      ensures stats == Tally(log, Covered(log, buckets.Length, windowSecs, now))
    {
      var n := buckets.Length;
      ghost var ring, events := buckets[..], log;
      stats := NO_STATS;
      CoveredInTurn(events, n, windowSecs, now);
      TallyOfNothing(events, {});
      for i := 0 to n
        invariant stats == Tally(events, CoveredBelow(events, n, windowSecs, now, i))
      {
        var b := buckets[i];
        BucketContributes(ring, events, windowSecs, now, i);
        if b.ts < now - windowSecs || b.ts > now {
          PlusNothing(stats);
          continue;
        }
        stats := Merge(stats, b.stats);
      }
    }
  }

  method Counted(s: Stats, outcome: Outcome, latencyUs: nat) returns (r: Stats)
    requires WellShaped(s)
    ensures r == CountIn(s, outcome, latencyUs)
  {
    var band := BandOf(latencyUs);
    r := s.(total := s.total + 1, hist := s.hist[band := s.hist[band] + 1]);
    if outcome.RedisError? {
      r := r.(errors := r.errors + 1);
    } else if outcome.Timeout? {
      r := r.(timeouts := r.timeouts + 1);
    }
  }

  method Merge(a: Stats, b: Stats) returns (r: Stats)
    requires WellShaped(a) && WellShaped(b)
    ensures r == Plus(a, b)
  {
    var hist := a.hist;
    for k := 0 to HIST_BANDS
      invariant |hist| == HIST_BANDS
      invariant forall j :: 0 <= j < k ==> hist[j] == a.hist[j] + b.hist[j]
      invariant forall j :: k <= j < HIST_BANDS ==> hist[j] == a.hist[j]
    {
      hist := hist[k := hist[k] + b.hist[k]];
    }
    assert hist == Plus(a, b).hist;
    r := Stats(a.total + b.total, a.errors + b.errors, a.timeouts + b.timeouts, hist);
  }

  method BandOf(latencyUs: nat) returns (band: nat)
    ensures band == Band(latencyUs)
  {
    BandIsFirst(latencyUs, 0);
    band := HIST_BANDS - 1;
    for i := 0 to |HIST_BOUNDS_US|
      invariant band == HIST_BANDS - 1
      invariant forall j :: 0 <= j < i ==> HIST_BOUNDS_US[j] < latencyUs
    {
      if latencyUs <= HIST_BOUNDS_US[i] {
        band := i;
        break;
      }
    }
  }

  // ---------------------------------------------------------------------------------------
  // How much the ring covers
  // ---------------------------------------------------------------------------------------

  lemma {:induction false} EventsAreTallied(log: seq<Event>, e: Event, secs: set<nat>)
    requires e in log && e.sec in secs
    ensures Tally(log, secs).total > 0
  {
    if log[|log| - 1] != e {
      EventsAreTallied(log[..|log| - 1], e, secs);
    }
  }

  /** A ring of `n` buckets asked for `n` seconds answers for exactly the last `n` seconds if and
      only if something was recorded in the current second, or nothing was `n` seconds ago:
      otherwise the bucket of second `now - n` is still standing and is counted as well. */
  lemma AggregateIsLastSeconds(log: seq<Event>, n: nat, now: nat)
    requires n > 0
    requires forall e <- log :: e.sec <= now
    ensures Tally(log, Covered(log, n, n, now)) == Tally(log, LastSeconds(n, now))
       <==> (exists e <- log :: e.sec == now) || (forall e <- log :: e.sec != now - n)
  {
    var covered, last := Covered(log, n, n, now), LastSeconds(n, now);
    forall s | s in last ensures !Overwritten(log, n, s) {
      forall e | e in log && e.sec > s ensures e.sec % n != s % n {
        DistinctResidues(s, e.sec, n);
      }
    }
    if e :| e in log && e.sec == now {
      if now >= n {
        assert (now - n) % n == now % n by { ResidueRepeats(now, n); }
        assert Overwritten(log, n, now - n);
      }
      assert covered == last;
    } else if f :| f in log && f.sec == now - n {
      forall g | g in log && g.sec > f.sec ensures g.sec % n != f.sec % n {
        DistinctResidues(f.sec, g.sec, n);
      }
      assert covered == last + {f.sec};
      TallySplits(log, last, {f.sec});
      EventsAreTallied(log, f, {f.sec});
    } else {
      TallyDependsOnEventSeconds(log, covered, last);
    }
  }

  lemma DivMod(a: nat, n: nat)
    requires n > 0
    ensures a == n * (a / n) + a % n
  {
  }

  lemma MultiplesAreApart(n: nat, x: int, y: int)
    ensures x > y ==> n * x >= n * y + n
    ensures n * (y + 1) == n * y + n
  {
    if x > y {
      assert n * (x - y) >= n;
    }
  }

  lemma DistinctResidues(a: nat, b: nat, n: nat)
    requires a < b < a + n
    ensures a % n != b % n
  {
    DivMod(a, n);
    DivMod(b, n);
    MultiplesAreApart(n, b / n, a / n);
    MultiplesAreApart(n, a / n, b / n);
  }

  lemma ResidueRepeats(a: nat, n: nat)
    requires 0 < n <= a
    ensures (a - n) % n == a % n
  {
    var q, p := a / n, (a - n) / n;
    DivMod(a, n);
    DivMod(a - n, n);
    MultiplesAreApart(n, q, p + 1);
    MultiplesAreApart(n, p + 1, q);
    MultiplesAreApart(n, q, p);
  }
}
