/** The local limiter's answers, exactly. */
module LocalWindows {
  import opened Lists
  import opened RateLimiter

  /** The earlier requests of a client that fell into a window. */
  ghost function Earlier(log: seq<Grant>, n: nat, client: string, resetAt: nat): set<nat>
    requires n <= |log|
  {
    set j | 0 <= j < n && log[j].client == client && log[j].resetAt == resetAt
  }

  /** A request falls into the window of an earlier one of its client that has not ended, or opens one of its own; it
      is allowed if and only if fewer than the limit fell into that window before it, and is told how many are left. */
  ghost predicate AnsweredExactly(c: Config, log: seq<Grant>, i: nat)
    requires i < |log|
  {
    var g := log[i];
    var before := |Earlier(log, i, g.client, g.resetAt)|;
    && (forall j :: 0 <= j < i && log[j].client == g.client && g.at <= log[j].resetAt ==> g.resetAt == log[j].resetAt)
    && ((forall j :: 0 <= j < i && log[j].client == g.client ==> log[j].resetAt < g.at)
        ==> g.resetAt == g.at + c.windowMs)
    && (g.allowed <==> before < c.maxRequests)
    && g.remaining == if before < c.maxRequests then c.maxRequests - before - 1 else 0
  }

  ghost predicate AllExact(c: Config, log: seq<Grant>) {
    forall i :: 0 <= i < |log| ==> AnsweredExactly(c, log, i)
  }

  /** The cache has each client's window that may still be running, with the number of its requests. */
  ghost predicate Counts(log: seq<Grant>, cache: Cache, now: nat) {
    && (forall k :: k in cache ==> cache[k].count == |Earlier(log, |log|, k, cache[k].resetAt)| && cache[k].count > 0)
    && (forall g <- log :: (g.client in cache && g.resetAt == cache[g.client].resetAt) || g.resetAt < now)
  }

  lemma EarlierOfAppend(log: seq<Grant>, g: Grant, client: string, resetAt: nat)
    ensures |Earlier(log + [g], |log| + 1, client, resetAt)|
         == |Earlier(log, |log|, client, resetAt)| + if g.client == client && g.resetAt == resetAt then 1 else 0
    ensures forall n :: 0 <= n <= |log| ==> Earlier(log + [g], n, client, resetAt) == Earlier(log, n, client, resetAt)
  {
    var all := log + [g];
    forall n | 0 <= n <= |log| ensures Earlier(all, n, client, resetAt) == Earlier(log, n, client, resetAt) {
      assert forall j :: 0 <= j < n ==> all[j] == log[j];
    }
    assert all[|log|] == g;
    assert Earlier(all, |log| + 1, client, resetAt)
        == Earlier(all, |log|, client, resetAt) + if g.client == client && g.resetAt == resetAt then {|log|} else {};
  }

  lemma ExactOfAppend(c: Config, log: seq<Grant>, g: Grant)
    requires AllExact(c, log) && AnsweredExactly(c, log + [g], |log|)
    ensures AllExact(c, log + [g])
  {
    var all := log + [g];
    forall i | 0 <= i < |log| ensures AnsweredExactly(c, all, i) {
      assert AnsweredExactly(c, log, i);
      EarlierOfAppend(log, g, log[i].client, log[i].resetAt);
      assert forall j :: 0 <= j <= i ==> all[j] == log[j];
    }
  }

  lemma SweepKeepsCounts(log: seq<Grant>, s: State, from: nat, now: nat)
    requires Counts(log, s.cache, from) && from <= now
    ensures Counts(log, MaybeSweep(s, now).cache, now)
  {
  }

  lemma NoneEarlier(log: seq<Grant>, client: string, resetAt: nat, now: nat)
    requires now <= resetAt && forall g <- log :: g.client == client ==> g.resetAt < now
    ensures Earlier(log, |log|, client, resetAt) == {}
  {
    forall j | 0 <= j < |log| ensures j !in Earlier(log, |log|, client, resetAt) {
      assert log[j] in log;
    }
  }

  /** The request that is being answered. */
  lemma HitIsExact(c: Config, log: seq<Grant>, cache: Cache, client: string, now: nat)
    requires Counts(log, cache, now)
    ensures var r := Hit(c, Lookup(cache, client), now);
            && r.count == |Earlier(log, |log|, client, r.resetAt)| + 1
            && AnsweredExactly(c, log + [GrantOf(c, client, now, r)], |log|)
  {
    var r := Hit(c, Lookup(cache, client), now);
    var g := GrantOf(c, client, now, r);
    var all := log + [g];
    if client !in cache || now > cache[client].resetAt {
      forall h | h in log && h.client == client ensures h.resetAt < now {
      }
      NoneEarlier(log, client, r.resetAt, now);
    }
    EarlierOfAppend(log, g, client, r.resetAt);
    assert all[|log|] == g;
    forall j | 0 <= j < |log| ensures all[j] == log[j] && log[j] in log {
    }
    if client in cache && now <= cache[client].resetAt {
      var j := WindowMember(log, cache, client);
      assert all[j] == log[j];
    }
  }

  lemma WindowMember(log: seq<Grant>, cache: Cache, client: string) returns (j: nat)
    requires client in cache && cache[client].count > 0
    requires cache[client].count == |Earlier(log, |log|, client, cache[client].resetAt)|
    ensures j < |log| && log[j].client == client && log[j].resetAt == cache[client].resetAt
  {
    assert Earlier(log, |log|, client, cache[client].resetAt) != {};
    j :| j in Earlier(log, |log|, client, cache[client].resetAt);
  }

  lemma HitKeepsCounts(c: Config, log: seq<Grant>, cache: Cache, client: string, now: nat)
    requires Counts(log, cache, now)
    ensures var r := Hit(c, Lookup(cache, client), now);
            Counts(log + [GrantOf(c, client, now, r)], cache[client := r], now)
  {
    var r := Hit(c, Lookup(cache, client), now);
    var g := GrantOf(c, client, now, r);
    HitIsExact(c, log, cache, client, now);
    var cache' := cache[client := r];
    forall k | k in cache'
      ensures cache'[k].count == |Earlier(log + [g], |log + [g]|, k, cache'[k].resetAt)| && cache'[k].count > 0
    {
      EarlierOfAppend(log, g, k, cache'[k].resetAt);
    }
    assert forall h <- log + [g] :: h in log || h == g;
  }

  lemma LocalIsExact(c: Config, s: State, q: Request, log: seq<Grant>, from: nat)
    requires from <= q.now && AllExact(c, log) && Counts(log, s.cache, from)
    ensures var (s', o) := Local(c, s, q.client, q.now, true);
            AllExact(c, log + GrantsOf(q, o)) && Counts(log + GrantsOf(q, o), s'.cache, q.now)
  {
    var before := MaybeSweep(s, q.now);
    var g := GrantOf(c, q.client, q.now, Hit(c, Lookup(before.cache, q.client), q.now));
    SweepKeepsCounts(log, s, from, q.now);
    HitIsExact(c, log, before.cache, q.client, q.now);
    HitKeepsCounts(c, log, before.cache, q.client, q.now);
    ExactOfAppend(c, log, g);
  }

  lemma ServeIsExact(c: Config, allow: bool, s: State, q: Request, log: seq<Grant>, from: nat)
    requires c.windowMs > 0 && from <= q.now && AllExact(c, log) && Counts(log, s.cache, from)
    ensures var (s', o) := Serve(c, allow, s, q, true);
            AllExact(c, log + GrantsOf(q, o)) && Counts(log + GrantsOf(q, o), s'.cache, q.now)
  {
    var t := ServeIsLocalOrNot(c, allow, s, q);
    LocalIsExact(c, t, q, log, from);
    assert log + [] == log;
  }

  lemma {:induction false} GrantsAreExact(c: Config, allow: bool, s: State, reqs: seq<Request>, log: seq<Grant>,
                                          from: nat)
    requires c.windowMs > 0 && Monotone(reqs, from) && AllExact(c, log) && Counts(log, s.cache, from)
    ensures AllExact(c, log + Grants(c, allow, s, reqs))
    decreases reqs
  {
    if reqs == [] {
      assert log + [] == log;
    } else {
      var (s1, o) := Serve(c, allow, s, reqs[0], true);
      ServeIsExact(c, allow, s, reqs[0], log, from);
      GrantsAreExact(c, allow, s1, reqs[1..], log + GrantsOf(reqs[0], o), reqs[0].now);
      AppendAssociates(log, GrantsOf(reqs[0], o), Grants(c, allow, s1, reqs[1..]));
    }
  }

  /** Over every run from a fresh limiter, every request answered locally is allowed if and only if fewer than the limit
      fell into its window before it. */
  lemma LocalAnswersAreExact(c: Config, allow: bool, reqs: seq<Request>)
    requires c.windowMs > 0 && Monotone(reqs, 0)
    ensures AllExact(c, Grants(c, allow, FRESH, reqs))
  {
    GrantsAreExact(c, allow, FRESH, reqs, [], 0);
    assert [] + Grants(c, allow, FRESH, reqs) == Grants(c, allow, FRESH, reqs);
  }

  // ---------------------------------------------------------------------------------------
  // Who answers
  // ---------------------------------------------------------------------------------------

  predicate Fails(reply: Reply) {
    reply.Empty? || reply.CommandError?
  }

  /** A request is answered locally if and only if that is permitted and either the limiter is degraded and no ping,
      tried at most every 30 seconds, has just succeeded, or Redis fails to count it; where it is not permitted,
      such a request is refused. Afterwards the limiter is degraded exactly if it has answered locally,
        or was refused while
      degraded. */
  lemma AnsweredLocallyIff(c: Config, allow: bool, s: State, q: Request)
    requires c.windowMs > 0
    ensures var (r, o) := Serve(c, allow, s, q, true);
            var down := s.fallback && !(allow && q.now - s.lastProbeMs >= 30000 && q.pingOk);
            && (o.Locally? <==> allow && (down || Fails(q.reply)))
            && (o.Unavailable? <==> !allow && (down || Fails(q.reply)))
            && (r.fallback <==> if allow then o.Locally? else s.fallback)
            && (o.ByRedis? ==> r.cache == s.cache)
            && r.lastProbeMs == (if s.fallback && allow && q.now - s.lastProbeMs >= 30000 then q.now else s.lastProbeMs)
  {
  }

  /** What Redis has counted is allowed up to the limit, until the end of its window; a reply that is no number is
      refused. */
  lemma RedisAnswers(c: Config, allow: bool, s: State, q: Request)
    requires c.windowMs > 0
    ensures var o := Serve(c, allow, s, q, true).1;
            o.ByRedis? ==>
              && o.answer.resetAt == q.now + (c.windowMs - q.now % c.windowMs)
              && match q.reply
                 case Count(n) => (o.answer.allowed <==> n <= c.maxRequests)
                                  && o.answer.remaining == if n < c.maxRequests then c.maxRequests - n else 0
                 case _ => !o.answer.allowed && o.answer.remaining == 0
  {
    assert q.now == q.now / c.windowMs * c.windowMs + q.now % c.windowMs;
  }
}
