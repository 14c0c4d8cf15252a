/** Nearest-rank percentiles read off the latency histogram. */
module Percentiles {
  import opened LatencyWindow

  function Cumulative(hist: seq<nat>, k: nat): nat
    requires k <= |hist|
  {
    if k == 0 then 0 else Cumulative(hist, k - 1) + hist[k - 1]
  }

  lemma {:induction false} CumulativeOfBump(hist: seq<nat>, b: nat, k: nat)
    requires b < |hist| && k <= |hist|
    ensures Cumulative(hist[b := hist[b] + 1], k) == Cumulative(hist, k) + if b < k then 1 else 0
  {
    if k > 0 {
      CumulativeOfBump(hist, b, k - 1);
    }
  }

  lemma {:induction false} CumulativeOfZeros(hist: seq<nat>, k: nat)
    requires k <= |hist| && forall i :: 0 <= i < |hist| ==> hist[i] == 0
    ensures Cumulative(hist, k) == 0
  {
    if k > 0 {
      CumulativeOfZeros(hist, k - 1);
    }
  }

  /** The histogram's mass is the number of observations, and failures are among them. */
  lemma {:induction false} MassIsTotal(log: seq<Event>, secs: set<nat>)
    ensures var s := Tally(log, secs);
            Cumulative(s.hist, |s.hist|) == s.total && s.errors + s.timeouts <= s.total
  {
    if log == [] {
      CumulativeOfZeros(NO_STATS.hist, HIST_BANDS);
    } else {
      MassIsTotal(log[..|log| - 1], secs);
      var before := Tally(log[..|log| - 1], secs);
      CumulativeOfBump(before.hist, Band(log[|log| - 1].latencyUs), HIST_BANDS);
    }
  }

  /** Rank of the `pct`-th percentile among `total` observations: the quotient rounded up. */
  function Rank(total: nat, pct: nat): nat {
    (total * pct + 99) / 100
  }

  lemma RankIsWithin(total: nat, p: nat, q: nat)
    requires p <= q <= 100
    ensures Rank(total, p) <= Rank(total, q) <= total
    ensures total > 0 && p > 0 ==> Rank(total, p) >= 1
  {
    assert total * p <= total * q <= total * 100;
    assert p > 0 ==> total * p >= total;
  }

  /** The band in which the running count first reaches `target`, or one past the last. */
  function ReachingBand(hist: seq<nat>, target: nat, i: nat): (b: nat)
    requires i <= |hist|
    ensures i <= b <= |hist|
    ensures forall j :: i < j <= b ==> Cumulative(hist, j) < target
    ensures b < |hist| ==> Cumulative(hist, b + 1) >= target
    decreases |hist| - i
  {
    if i == |hist| || Cumulative(hist, i + 1) >= target then i else ReachingBand(hist, target, i + 1)
  }

  function Percentile(s: Stats, pct: nat): nat {
    if s.total == 0 then 0 else BandCeiling(ReachingBand(s.hist, Rank(s.total, pct), 0))
  }

  method PercentileUs(stats: Stats, pct: nat) returns (us: nat)
    requires WellShaped(stats)
    ensures us == Percentile(stats, pct)
  {
    if stats.total == 0 {
      return 0;
    }
    var target := Rank(stats.total, pct);
    var cumulative := 0;
    for i := 0 to HIST_BANDS
      invariant cumulative == Cumulative(stats.hist, i)
      invariant ReachingBand(stats.hist, target, 0) == ReachingBand(stats.hist, target, i)
    {
      cumulative := cumulative + stats.hist[i];
      if cumulative >= target {
        return BandCeiling(i);
      }
    }
    us := MAX_SAFE_INTEGER;
  }

  // ---------------------------------------------------------------------------------------
  // Against the latencies themselves
  // ---------------------------------------------------------------------------------------

  /** The latencies of the tallied events, in the order they were recorded. */
  ghost function Latencies(log: seq<Event>, secs: set<nat>): seq<nat> {
    if log == [] then []
    else
      var e := log[|log| - 1];
      Latencies(log[..|log| - 1], secs) + if e.sec in secs then [e.latencyUs] else []
  }

  /** How many latencies `band` puts below band `k`. */
  ghost function CountBelow(band: nat -> nat, latencies: seq<nat>, k: nat): nat {
    if latencies == [] then 0
    else CountBelow(band, latencies[..|latencies| - 1], k) + if band(latencies[|latencies| - 1]) < k then 1 else 0
  }

  lemma {:induction false} HistogramCountsLatencies(log: seq<Event>, secs: set<nat>, k: nat)
    requires k <= HIST_BANDS
    ensures Cumulative(Tally(log, secs).hist, k) == CountBelow(Band, Latencies(log, secs), k)
    ensures Tally(log, secs).total == |Latencies(log, secs)|
  {
    if log == [] {
      CumulativeOfZeros(NO_STATS.hist, k);
    } else {
      var e := log[|log| - 1];
      var before, stats := Latencies(log[..|log| - 1], secs), Tally(log[..|log| - 1], secs);
      HistogramCountsLatencies(log[..|log| - 1], secs, k);
      if e.sec in secs {
        CumulativeOfBump(stats.hist, Band(e.latencyUs), k);
        CountBelowSplits(Band, before, [e.latencyUs], k);
      } else {
        assert before + [] == before;
      }
    }
  }

  lemma {:induction false} CountBelowSplits(band: nat -> nat, a: seq<nat>, b: seq<nat>, k: nat)
    ensures CountBelow(band, a + b, k) == CountBelow(band, a, k) + CountBelow(band, b, k)
    ensures |b| == 1 ==> CountBelow(band, b, k) == if band(b[0]) < k then 1 else 0
  {
    if b == [] {
      assert a + b == a;
    } else {
      CountBelowSplits(band, a, b[..|b| - 1], k);
      assert (a + b)[..|a + b| - 1] == a + b[..|b| - 1];
    }
  }

  lemma {:induction false} CountBelowOfPermutation(band: nat -> nat, a: seq<nat>, b: seq<nat>, k: nat)
    requires multiset(a) == multiset(b)
    ensures CountBelow(band, a, k) == CountBelow(band, b, k)
  {
    if a == [] {
      assert |multiset(b)| == 0;
    } else {
      var x := a[|a| - 1];
      assert a == a[..|a| - 1] + [x];
      assert x in multiset(b);
      var j :| 0 <= j < |b| && b[j] == x;
      assert b == b[..j] + ([x] + b[j + 1..]);
      assert multiset(b[..j] + b[j + 1..]) == multiset(b) - multiset{x};
      CountBelowOfPermutation(band, a[..|a| - 1], b[..j] + b[j + 1..], k);
      CountBelowSplits(band, b[..j], [x] + b[j + 1..], k);
      CountBelowSplits(band, [x], b[j + 1..], k);
      CountBelowSplits(band, b[..j], b[j + 1..], k);
      CountBelowSplits(band, [], [x], k);
    }
  }

  ghost predicate Ascending(s: seq<nat>) {
    forall i, j :: 0 <= i < j < |s| ==> s[i] <= s[j]
  }

  lemma {:induction false} CountBelowOfAscending(band: nat -> nat, s: seq<nat>, k: nat, r: nat)
    requires 1 <= r <= |s|
    requires forall i, j :: 0 <= i < j < |s| ==> band(s[i]) <= band(s[j])
    ensures r <= CountBelow(band, s, k) <==> band(s[r - 1]) < k
    ensures CountBelow(band, s, k) <= |s|
  {
    var last := |s| - 1;
    if last > 0 {
      CountBelowOfAscending(band, s[..last], k, if r <= last then r else last);
    }
  }

  lemma BandsOfAscending(s: seq<nat>)
    requires Ascending(s)
    ensures forall i, j :: 0 <= i < j < |s| ==> Band(s[i]) <= Band(s[j])
  {
    forall i, j | 0 <= i < j < |s| ensures Band(s[i]) <= Band(s[j]) {
      BandsAreMonotone(s[i], s[j]);
    }
  }

  /** `percentileUs` is the nearest-rank percentile of the counted latencies, rounded up to the
      ceiling of its band, in whatever ascending arrangement those latencies are put; the scan
      always reaches its target inside the histogram. */
  lemma PercentileIsNearestRank(log: seq<Event>, secs: set<nat>, pct: nat, ascending: seq<nat>)
    requires 1 <= pct <= 100
    requires Ascending(ascending) && multiset(ascending) == multiset(Latencies(log, secs))
    requires ascending != []
    ensures 1 <= Rank(|ascending|, pct) <= |ascending|
    ensures var b := Band(ascending[Rank(|ascending|, pct) - 1]);
            && ReachingBand(Tally(log, secs).hist, Rank(|ascending|, pct), 0) == b < HIST_BANDS
            && Percentile(Tally(log, secs), pct) == BandCeiling(b)
  {
    var s, lats := Tally(log, secs), Latencies(log, secs);
    assert |ascending| == |multiset(ascending)| == |multiset(lats)| == |lats|;
    HistogramCountsLatencies(log, secs, 0);
    RankIsWithin(s.total, pct, pct);
    var r := Rank(s.total, pct);
    BandsOfAscending(ascending);
    forall k | 0 <= k <= HIST_BANDS
      ensures r <= Cumulative(s.hist, k) <==> Band(ascending[r - 1]) < k
    {
      HistogramCountsLatencies(log, secs, k);
      CountBelowOfPermutation(Band, ascending, lats, k);
      CountBelowOfAscending(Band, ascending, k, r);
    }
    FirstReaching(s.hist, r, Band(ascending[r - 1]));
  }

  lemma FirstReaching(hist: seq<nat>, target: nat, b: nat)
    requires b < |hist|
    requires forall k :: 0 <= k <= |hist| ==> (target <= Cumulative(hist, k) <==> b < k)
    ensures ReachingBand(hist, target, 0) == b
  {
    assert Cumulative(hist, b + 1) >= target;
  }

  lemma PercentilesAreOrdered(log: seq<Event>, secs: set<nat>, p: nat, q: nat)
    requires p <= q <= 100
    ensures Percentile(Tally(log, secs), p) <= Percentile(Tally(log, secs), q)
  {
    var s := Tally(log, secs);
    if s.total > 0 {
      RankIsWithin(s.total, p, q);
      ReachingIsMonotone(s.hist, Rank(s.total, p), Rank(s.total, q));
      CeilingsAreMonotone(ReachingBand(s.hist, Rank(s.total, p), 0), ReachingBand(s.hist, Rank(s.total, q), 0));
    }
  }

  lemma ReachingIsMonotone(hist: seq<nat>, t: nat, u: nat)
    requires t <= u
    ensures ReachingBand(hist, t, 0) <= ReachingBand(hist, u, 0)
  {
    var b := ReachingBand(hist, u, 0);
    if b < |hist| {
      assert Cumulative(hist, b + 1) >= t;
    }
  }

  lemma CeilingsAreMonotone(a: nat, b: nat)
    requires a <= b
    ensures BandCeiling(a) <= BandCeiling(b)
  {
  }
}
