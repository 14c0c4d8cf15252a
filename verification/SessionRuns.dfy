/** What holds of the stored session state over runs of whole calls. */
module SessionRuns {
  import opened Wrappers
  import opened Lists
  import opened Sessions

  datatype Call =
    | Persist(hash: string, jti: Option<string>)
    | Rotate(old_: string, hash: string, jti: Option<string>)
    | Remove(hash: string)
    | Invalidate

  function After(v: Session, c: Call): Session {
    match c
    case Persist(h, j) => Persisted(v, h, j)
    case Rotate(o, h, j) => Rotated(v, o, h, j)
    case Remove(h) => Removed(v, h)
    case Invalidate => Invalidated(v)
  }

  /** The hash a call issues, if it issues one. */
  function Issues(v: Session, c: Call): seq<string> {
    match c
    case Persist(h, _) => [h]
    case Rotate(o, h, _) => if o in v.refresh then [h] else []
    case _ => []
  }

  function Run(v: Session, calls: seq<Call>): Session
    decreases calls
  {
    if calls == [] then v else Run(After(v, calls[0]), calls[1..])
  }

  function Issued(v: Session, calls: seq<Call>): seq<string>
    decreases calls
  {
    if calls == [] then [] else Issues(v, calls[0]) + Issued(After(v, calls[0]), calls[1..])
  }

  /** At most five hashes and twenty ids are kept, and the hashes are what is left of those issued, in order. */
  ghost predicate Sound(v: Session, issued: seq<string>) {
    |v.refresh| <= MAX_REFRESH && |v.jtis| <= MAX_JTIS && Subsequence(v.refresh, issued)
  }

  lemma CallKeepsSound(v: Session, c: Call, issued: seq<string>)
    requires Sound(v, issued)
    ensures Sound(After(v, c), issued + Issues(v, c))
    ensures v.version <= After(v, c).version
  {
    assert issued + [] == issued;
    match c
    case Persist(h, _) =>
      PushKeepsSubsequence(v.refresh, issued, h, MAX_REFRESH);
    case Rotate(o, h, _) =>
      PushKeepsSubsequence(v.refresh, issued, h, MAX_REFRESH);
      PullKeepsSubsequence(LastOf(v.refresh + [h], MAX_REFRESH), issued + [h], o);
    case Remove(h) =>
      PullKeepsSubsequence(v.refresh, issued, h);
    case Invalidate =>
  }

  lemma {:induction false} RunIsBoundedSubsequence(v: Session, calls: seq<Call>, issued: seq<string>)
    requires Sound(v, issued)
    ensures Sound(Run(v, calls), issued + Issued(v, calls))
    ensures v.version <= Run(v, calls).version
    decreases calls
  {
    if calls == [] {
      AppendNothing(issued);
    } else {
      var next := After(v, calls[0]);
      CallKeepsSound(v, calls[0], issued);
      RunIsBoundedSubsequence(next, calls[1..], issued + Issues(v, calls[0]));
      AppendAssociates(issued, Issues(v, calls[0]), Issued(next, calls[1..]));
    }
  }

  /** Over every run: the bounds hold, the stored hashes are a subsequence of the issue order, without
      duplicates if the issued ones have none, and the token version never decreases. */
  lemma RunKeepsSound(v: Session, calls: seq<Call>, issued: seq<string>)
    requires Sound(v, issued)
    ensures var all := issued + Issued(v, calls);
            && Sound(Run(v, calls), all)
            && (Distinct(all) ==> Distinct(Run(v, calls).refresh))
            && v.version <= Run(v, calls).version
  {
    RunIsBoundedSubsequence(v, calls, issued);
    SubsequenceElements(Run(v, calls).refresh, issued + Issued(v, calls));
  }

  lemma NewHashesAreIssued(v: Session, c: Call)
    ensures forall h :: h in After(v, c).refresh ==> h in v.refresh || h in Issues(v, c)
  {
    match c
    case Persist(h, _) =>
    case Rotate(o, h, _) => MinusShrinks(LastOf(v.refresh + [h], MAX_REFRESH), o);
    case Remove(h) => MinusShrinks(v.refresh, h);
    case Invalidate =>
  }

  /** A token that is gone, however it went, never becomes acceptable again unless its very hash is issued anew. */
  lemma {:induction false} GoneStaysGone(v: Session, calls: seq<Call>, hash: string)
    requires hash !in v.refresh && hash !in Issued(v, calls)
    ensures hash !in Run(v, calls).refresh
    decreases calls
  {
    if calls != [] {
      NewHashesAreIssued(v, calls[0]);
      GoneStaysGone(After(v, calls[0]), calls[1..], hash);
    }
  }

  /** What each call makes unacceptable at once. */
  lemma CallsRevoke(v: Session, c: Call)
    ensures c.Rotate? ==> c.old_ !in After(v, c).refresh
    ensures c.Remove? ==> c.hash !in After(v, c).refresh
    ensures c.Invalidate? ==> After(v, c).refresh == [] && After(v, c).version > v.version
  {
    if c.Rotate? {
      MinusShrinks(LastOf(v.refresh + [c.hash], MAX_REFRESH), c.old_);
    } else if c.Remove? {
      MinusShrinks(v.refresh, c.hash);
    }
  }

  /** Rotation replaces exactly the old token if and only if there was room for the push, or the old token
      was the oldest: otherwise the push evicts the oldest sibling before the old token is pulled. */
  lemma RotationKeepsSiblings(v: Session, old_: string, hash: string, jti: Option<string>)
    requires Distinct(v.refresh) && |v.refresh| <= MAX_REFRESH
    requires old_ in v.refresh && hash !in v.refresh
    ensures Rotated(v, old_, hash, jti).refresh == Minus(v.refresh, old_) + [hash]
       <==> |v.refresh| < MAX_REFRESH || v.refresh[0] == old_
  {
    var s := v.refresh;
    assert hash != old_;
    MinusOfAppend(s, hash, old_);
    if |s| == MAX_REFRESH {
      assert LastOf(s + [hash], MAX_REFRESH) == s[1..] + [hash];
      MinusOfAppend(s[1..], hash, old_);
      if s[0] == old_ {
        assert old_ !in s[1..];
      } else {
        assert Minus(s, old_) == [s[0]] + Minus(s[1..], old_);
      }
    }
  }
}
