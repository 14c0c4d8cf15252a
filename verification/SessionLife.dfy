/** How long an issued session token stays acceptable. */
module SessionLife {
  import opened Wrappers
  import opened Lists
  import opened Sessions
  import opened SessionRuns

  // ---------------------------------------------------------------------------------------
  // One call
  // ---------------------------------------------------------------------------------------

  /** The list has `x` at its end, and before it as many as there is room for of what it had, the newest, in order. */
  ghost predicate PushedOn(after: seq<string>, before: seq<string>, x: string, room: nat)
    requires room > 0
  {
    var kept := if |before| < room then |before| else room - 1;
    after == before[|before| - kept..] + [x]
  }

  /** A new session's hash comes last, and the four newest before it are kept; its id likewise, and the nineteen
      newest; nothing else changes. */
  lemma PersistKeeps(v: Session, hash: string, jti: Option<string>)
    ensures var r := After(v, Persist(hash, jti));
            && PushedOn(r.refresh, v.refresh, hash, 5)
            && (if jti.Some? then PushedOn(r.jtis, v.jtis, jti.value, 20) else r.jtis == v.jtis)
            && r.version == v.version
  {
  }

  /** A rotation does the same and then takes the old hash out, if that is stored, and otherwise nothing. */
  lemma RotateKeeps(v: Session, old_: string, hash: string, jti: Option<string>)
    ensures var r := After(v, Rotate(old_, hash, jti));
            if old_ !in v.refresh then r == v
            else
              && (exists pushed :: PushedOn(pushed, v.refresh, hash, 5) && r.refresh == Minus(pushed, old_))
              && (if jti.Some? then PushedOn(r.jtis, v.jtis, jti.value, 20) else r.jtis == v.jtis)
              && r.version == v.version
  {
    if old_ in v.refresh {
      assert PushedOn(LastOf(v.refresh + [hash], 5), v.refresh, hash, 5);
    }
  }

  /** Removal takes out one hash and nothing else. */
  lemma RemoveKeeps(v: Session, hash: string)
    ensures var r := After(v, Remove(hash));
            && (forall h :: h in r.refresh <==> h in v.refresh && h != hash) && Subsequence(r.refresh, v.refresh)
            && r.jtis == v.jtis && r.version == v.version
  {
    MinusShrinks(v.refresh, hash);
    SubsequenceSelf(v.refresh);
    SubsequenceMinus(v.refresh, v.refresh, hash);
  }

  // ---------------------------------------------------------------------------------------
  // Refresh tokens
  /** The token version rises by one with each invalidation and with nothing else. */
  lemma {:induction false} VersionCountsInvalidations(v: Session, calls: seq<Call>)
    ensures Run(v, calls).version == v.version + multiset(calls)[Invalidate]
    decreases calls
  {
    if calls != [] {
      VersionCountsInvalidations(After(v, calls[0]), calls[1..]);
      assert calls == [calls[0]] + calls[1..];
    }
  }

  // ---------------------------------------------------------------------------------------

  /** The call makes the hash unacceptable: by rotating it, removing it, or invalidating all sessions. */
  predicate Revokes(c: Call, hash: string) {
    match c
    case Persist(_, _) => false
    case Rotate(old_, _, _) => old_ == hash
    case Remove(h) => h == hash
    case Invalidate => true
  }

  /** The call stores a new hash: a rotation does if its old one is stored. */
  predicate Pushes(v: Session, c: Call) {
    c.Persist? || (c.Rotate? && c.old_ in v.refresh)
  }

  /** The hashes stored after `h` that are still there, after one more call: those there were and the call's own, but
      for the one it revokes. */
  function Newer(v: Session, c: Call, newer: set<string>): set<string> {
    match c
    case Persist(hash, _) => newer + {hash}
    case Rotate(old_, hash, _) => if old_ in v.refresh then newer + {hash} - {old_} else newer
    case Remove(hash) => newer - {hash}
    case Invalidate => {}
  }

  /** None of the calls revokes the hash, and none stores another while four newer ones are there: the list is cut to
      five as soon as a hash is stored, also where a rotation is about to take another out. */
  predicate Lasts(v: Session, calls: seq<Call>, hash: string, newer: set<string>)
    decreases calls
  {
    calls == [] ||
    (&& !Revokes(calls[0], hash) && (Pushes(v, calls[0]) ==> |newer| < 4)
     && Lasts(After(v, calls[0]), calls[1..], hash, Newer(v, calls[0], newer)))
  }

  /** The hash is stored, and exactly these come after it. */
  ghost predicate StandsBefore(refresh: seq<string>, hash: string, newer: set<string>) {
    exists a, b :: Split(refresh, a, hash, b) && SameElements(b, newer)
  }

  predicate Split(s: seq<string>, a: seq<string>, x: string, b: seq<string>) {
    s == a + [x] + b
  }

  ghost predicate SameElements(s: seq<string>, all: set<string>) {
    forall h :: h in s <==> h in all
  }

  lemma {:induction false} MinusOfConcat(a: seq<string>, b: seq<string>, x: string)
    ensures Minus(a + b, x) == Minus(a, x) + Minus(b, x)
  {
    if a == [] {
      assert a + b == b;
    } else {
      var head := if a[0] == x then [] else [a[0]];
      MinusOfConcat(a[1..], b, x);
      assert (a + b)[0] == a[0] && (a + b)[1..] == a[1..] + b;
      assert Minus(a, x) == head + Minus(a[1..], x);
      assert Minus(a + b, x) == head + (Minus(a[1..], x) + Minus(b, x));
    }
  }

  /** No call brings a hash that is stored already, or this one again. */
  predicate Fresh(v: Session, calls: seq<Call>, hash: string)
    decreases calls
  {
    calls == [] ||
    (&& (calls[0].Persist? || calls[0].Rotate? ==> calls[0].hash !in v.refresh && calls[0].hash != hash)
     && Fresh(After(v, calls[0]), calls[1..], hash))
  }

  lemma {:induction false} DistinctSize(s: seq<string>, all: set<string>)
    requires Distinct(s) && SameElements(s, all)
    ensures |s| == |all|
  {
    if s == [] {
      assert all == {};
    } else {
      var front, last := s[..|s| - 1], s[|s| - 1];
      assert s == front + [last];
      assert last !in front;
      DistinctSize(front, all - {last});
    }
  }

  /** Storing one more keeps a hash with fewer than four newer ones, and evicts one with more. */
  lemma PushBehind(a: seq<string>, hash: string, b: seq<string>, x: string)
    ensures var pushed := LastOf(a + [hash] + b + [x], 5);
            if |b| < 4 then exists front :: pushed == front + [hash] + (b + [x])
            else forall h :: h in pushed ==> h in b || h == x
  {
    var all := a + [hash] + b + [x];
    var pushed := LastOf(all, 5);
    if |b| < 4 {
      var front := pushed[..|pushed| - |b| - 2];
      assert pushed == front + [hash] + (b + [x]);
    } else {
      forall h | h in pushed ensures h in b || h == x {
        var i :| 0 <= i < |pushed| && pushed[i] == h;
        assert h == all[|all| - |pushed| + i] == (b + [x])[|b| + 1 - |pushed| + i];
      }
    }
  }

  lemma PulledBehind(a: seq<string>, hash: string, b: seq<string>, x: string)
    requires x != hash
    ensures Minus(a + [hash] + b, x) == Minus(a, x) + [hash] + Minus(b, x)
  {
    MinusOfConcat(a + [hash], b, x);
    MinusOfAppend(a, hash, x);
  }

  lemma DistinctAfter(v: Session, c: Call)
    requires Distinct(v.refresh) && (c.Persist? || c.Rotate? ==> c.hash !in v.refresh)
    ensures Distinct(After(v, c).refresh)
  {
    match c
    case Persist(h, _) => DistinctPush(v.refresh, h);
    case Rotate(o, h, _) =>
      DistinctPush(v.refresh, h);
      DistinctMinus(LastOf(v.refresh + [h], MAX_REFRESH), o);
    case Remove(h) => DistinctMinus(v.refresh, h);
    case Invalidate =>
  }

  lemma DistinctPush(s: seq<string>, x: string)
    requires Distinct(s) && x !in s
    ensures Distinct(LastOf(s + [x], MAX_REFRESH))
  {
  }

  lemma DistinctMinus(s: seq<string>, x: string)
    requires Distinct(s)
    ensures Distinct(Minus(s, x))
  {
    SubsequenceSelf(s);
    SubsequenceMinus(s, s, x);
    SubsequenceElements(Minus(s, x), s);
  }

  lemma PushKeepsStanding(s: seq<string>, hash: string, newer: set<string>, x: string)
    requires Distinct(s) && StandsBefore(s, hash, newer) && |newer| < 4
    ensures StandsBefore(LastOf(s + [x], 5), hash, newer + {x})
  {
    var a, b :| Split(s, a, hash, b) && SameElements(b, newer);
    DistinctTail(s, a, hash, b);
    DistinctSize(b, newer);
    PushBehind(a, hash, b, x);
    var front :| LastOf(s + [x], 5) == front + [hash] + (b + [x]);
    assert Split(LastOf(s + [x], 5), front, hash, b + [x]) && SameElements(b + [x], newer + {x});
  }

  lemma PullKeepsStanding(s: seq<string>, hash: string, newer: set<string>, x: string)
    requires StandsBefore(s, hash, newer) && x != hash
    ensures StandsBefore(Minus(s, x), hash, newer - {x})
  {
    var a, b :| Split(s, a, hash, b) && SameElements(b, newer);
    PulledBehind(a, hash, b, x);
    MinusShrinks(b, x);
    assert Split(Minus(s, x), Minus(a, x), hash, Minus(b, x)) && SameElements(Minus(b, x), newer - {x});
  }

  lemma CallKeepsStanding(v: Session, c: Call, hash: string, newer: set<string>)
    requires Distinct(v.refresh) && StandsBefore(v.refresh, hash, newer)
    requires !Revokes(c, hash) && (Pushes(v, c) ==> |newer| < 4)
    ensures StandsBefore(After(v, c).refresh, hash, Newer(v, c, newer))
  {
    match c
    case Persist(x, _) => PushKeepsStanding(v.refresh, hash, newer, x);
    case Rotate(old_, x, _) =>
      if old_ in v.refresh {
        PushKeepsStanding(v.refresh, hash, newer, x);
        PullKeepsStanding(LastOf(v.refresh + [x], 5), hash, newer + {x}, old_);
      }
    case Remove(x) => PullKeepsStanding(v.refresh, hash, newer, x);
    case Invalidate =>
  }

  lemma DistinctTail(s: seq<string>, a: seq<string>, x: string, b: seq<string>)
    requires Distinct(s) && s == a + [x] + b
    ensures Distinct(b) && x !in b
  {
    forall i, j | 0 <= i < j < |b| ensures b[i] != b[j] {
      assert b[i] == s[|a| + 1 + i] && b[j] == s[|a| + 1 + j];
    }
    forall i | 0 <= i < |b| ensures b[i] != x {
      assert b[i] == s[|a| + 1 + i] && x == s[|a|];
    }
  }

  lemma PushEvicts(s: seq<string>, hash: string, newer: set<string>, x: string)
    requires Distinct(s) && StandsBefore(s, hash, newer) && |newer| >= 4 && x != hash
    ensures hash !in LastOf(s + [x], 5)
  {
    var a, b :| Split(s, a, hash, b) && SameElements(b, newer);
    DistinctTail(s, a, hash, b);
    DistinctSize(b, newer);
    PushBehind(a, hash, b, x);
  }

  lemma CallEndsStanding(v: Session, c: Call, hash: string, newer: set<string>)
    requires Distinct(v.refresh) && StandsBefore(v.refresh, hash, newer)
    requires c.Persist? || c.Rotate? ==> c.hash != hash
    requires Revokes(c, hash) || (Pushes(v, c) && |newer| >= 4)
    ensures hash !in After(v, c).refresh
  {
    CallsRevoke(v, c);
    if !Revokes(c, hash) {
      PushEvicts(v.refresh, hash, newer, c.hash);
      if c.Rotate? {
        MinusShrinks(LastOf(v.refresh + [c.hash], 5), c.old_);
      }
    }
  }

  lemma {:induction false} FreshIsNotIssued(v: Session, calls: seq<Call>, hash: string)
    requires Fresh(v, calls, hash)
    ensures hash !in Issued(v, calls)
    decreases calls
  {
    if calls != [] {
      FreshIsNotIssued(After(v, calls[0]), calls[1..], hash);
    }
  }

  /** A stored hash is stored after any calls if and only if it lasts them. */
  lemma {:induction false} StoredIffLasts(v: Session, calls: seq<Call>, hash: string, newer: set<string>)
    requires Distinct(v.refresh) && StandsBefore(v.refresh, hash, newer) && Fresh(v, calls, hash)
    ensures hash in Run(v, calls).refresh <==> Lasts(v, calls, hash, newer)
    decreases calls
  {
    if calls == [] {
      var a, b :| Split(v.refresh, a, hash, b) && SameElements(b, newer);
      assert v.refresh[|a|] == hash;
    } else {
      var c := calls[0];
      DistinctAfter(v, c);
      if Revokes(c, hash) || (Pushes(v, c) && |newer| >= 4) {
        CallEndsStanding(v, c, hash, newer);
        FreshIsNotIssued(After(v, c), calls[1..], hash);
        GoneStaysGone(After(v, c), calls[1..], hash);
      } else {
        CallKeepsStanding(v, c, hash, newer);
        StoredIffLasts(After(v, c), calls[1..], hash, Newer(v, c, newer));
      }
    }
  }

  /** A hash that a login or a rotation has issued is acceptable after any further calls if and only if none of them
      has revoked it and none has evicted it. */
  lemma IssuedIsStoredIffLasts(v: Session, c: Call, calls: seq<Call>)
    requires Distinct(v.refresh) && Pushes(v, c) && c.hash !in v.refresh && Fresh(After(v, c), calls, c.hash)
    ensures c.hash in Run(After(v, c), calls).refresh <==> Lasts(After(v, c), calls, c.hash, {})
  {
    var r := After(v, c);
    var pushed := LastOf(v.refresh + [c.hash], MAX_REFRESH);
    DistinctAfter(v, c);
    var front := pushed[..|pushed| - 1];
    assert pushed == front + [c.hash];
    assert SameElements([], {});
    if c.Rotate? {
      MinusOfAppend(front, c.hash, c.old_);
      assert Split(r.refresh, Minus(front, c.old_), c.hash, []);
    } else {
      assert Split(r.refresh, front, c.hash, []);
    }
    StoredIffLasts(r, calls, c.hash, {});
  }

  // ---------------------------------------------------------------------------------------
  // Access-token ids
  // ---------------------------------------------------------------------------------------

  /** The id a call stores, if any. */
  function JtiOf(v: Session, c: Call): Option<string> {
    if Pushes(v, c) then c.jti else None
  }

  /** No call invalidates all sessions, and fewer than twenty store another id. */
  predicate JtiLasts(v: Session, calls: seq<Call>, newer: nat)
    decreases calls
  {
    calls == [] ||
    (&& !calls[0].Invalidate? && (JtiOf(v, calls[0]).Some? ==> newer < 19)
     && JtiLasts(After(v, calls[0]), calls[1..], if JtiOf(v, calls[0]).Some? then newer + 1 else newer))
  }

  predicate FreshJti(v: Session, calls: seq<Call>, jti: string)
    decreases calls
  {
    calls == [] || (JtiOf(v, calls[0]) != Some(jti) && FreshJti(After(v, calls[0]), calls[1..], jti))
  }

  /** The id stands once in the list, with this many after it. */
  ghost predicate JtiStandsBefore(jtis: seq<string>, jti: string, newer: nat) {
    exists a, b :: Split(jtis, a, jti, b) && |b| == newer && jti !in a && jti !in b
  }

  lemma {:induction false} GoneJtiStaysGone(v: Session, calls: seq<Call>, jti: string)
    requires jti !in v.jtis && FreshJti(v, calls, jti)
    ensures jti !in Run(v, calls).jtis
    decreases calls
  {
    if calls != [] {
      GoneJtiStaysGone(After(v, calls[0]), calls[1..], jti);
    }
  }

  lemma JtiKept(a: seq<string>, jti: string, b: seq<string>, x: string)
    requires |b| < 19 && jti !in a && jti !in b && x != jti
    ensures JtiStandsBefore(LastOf(a + [jti] + b + [x], 20), jti, |b| + 1)
  {
    var all := a + [jti] + b + [x];
    var cut := if |all| <= 20 then 0 else |all| - 20;
    assert all[cut..] == a[cut..] + [jti] + (b + [x]);
    assert Split(LastOf(all, 20), a[cut..], jti, b + [x]);
  }

  lemma JtiEvicted(a: seq<string>, jti: string, b: seq<string>, x: string)
    requires |b| >= 19 && jti !in b && x != jti
    ensures jti !in LastOf(a + [jti] + b + [x], 20)
  {
    var all, kept := a + [jti] + b + [x], b + [x];
    assert all == (a + [jti]) + kept;
    assert all[|all| - 20..] == kept[|kept| - 20..];
  }

  lemma JtiPushed(jtis: seq<string>, jti: string, newer: nat, x: string)
    requires JtiStandsBefore(jtis, jti, newer) && x != jti
    ensures if newer < 19 then JtiStandsBefore(LastOf(jtis + [x], 20), jti, newer + 1)
            else jti !in LastOf(jtis + [x], 20)
  {
    var a, b :| Split(jtis, a, jti, b) && |b| == newer && jti !in a && jti !in b;
    if newer < 19 {
      JtiKept(a, jti, b, x);
    } else {
      JtiEvicted(a, jti, b, x);
    }
  }

  lemma JtiMoves(v: Session, c: Call, jti: string, newer: nat)
    requires JtiStandsBefore(v.jtis, jti, newer) && newer < 20 && JtiOf(v, c) != Some(jti)
    ensures if c.Invalidate? || (JtiOf(v, c).Some? && newer >= 19) then jti !in After(v, c).jtis
            else JtiStandsBefore(After(v, c).jtis, jti, if JtiOf(v, c).Some? then newer + 1 else newer)
  {
    if JtiOf(v, c).Some? {
      JtiPushed(v.jtis, jti, newer, JtiOf(v, c).value);
    }
  }

  /** A stored id stays stored if and only if no call invalidates all sessions and fewer than twenty more are stored. */
  lemma {:induction false} JtiIsStoredIffLasts(v: Session, calls: seq<Call>, jti: string, newer: nat)
    requires JtiStandsBefore(v.jtis, jti, newer) && newer < 20 && FreshJti(v, calls, jti)
    ensures jti in Run(v, calls).jtis <==> JtiLasts(v, calls, newer)
    decreases calls
  {
    if calls == [] {
      var a, b :| Split(v.jtis, a, jti, b) && |b| == newer && jti !in a && jti !in b;
      assert v.jtis[|a|] == jti;
    } else {
      var c := calls[0];
      JtiMoves(v, c, jti, newer);
      if c.Invalidate? || (JtiOf(v, c).Some? && newer >= 19) {
        GoneJtiStaysGone(After(v, c), calls[1..], jti);
      } else {
        JtiIsStoredIffLasts(After(v, c), calls[1..], jti, if JtiOf(v, c).Some? then newer + 1 else newer);
      }
    }
  }

  lemma PushedStandsLast(jtis: seq<string>, jti: string)
    requires jti !in jtis
    ensures JtiStandsBefore(LastOf(jtis + [jti], 20), jti, 0)
  {
    var pushed := LastOf(jtis + [jti], 20);
    var front := pushed[..|pushed| - 1];
    assert forall i :: 0 <= i < |front| ==> front[i] in jtis;
    assert Split(pushed, front, jti, []);
  }

  /** So it is of an id that a login or a rotation has stored. */
  lemma IssuedJtiIsStoredIffLasts(v: Session, c: Call, calls: seq<Call>, jti: string)
    requires JtiOf(v, c) == Some(jti) && jti !in v.jtis && FreshJti(After(v, c), calls, jti)
    ensures jti in Run(After(v, c), calls).jtis <==> JtiLasts(After(v, c), calls, 0)
  {
    PushedStandsLast(v.jtis, jti);
    JtiIsStoredIffLasts(After(v, c), calls, jti, 0);
  }
}
