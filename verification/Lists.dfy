/** Facts about sequences that the session lists need. */
module Lists {
  function LastOf<T>(s: seq<T>, n: nat): (r: seq<T>)
    ensures |r| <= n
    ensures |r| <= |s| && r == s[|s| - |r|..]
  {
    if |s| <= n then s else s[|s| - n..]
  }

  function Minus<T(==)>(s: seq<T>, x: T): seq<T> {
    if s == [] then [] else (if s[0] == x then [] else [s[0]]) + Minus(s[1..], x)
  }

  ghost predicate Distinct<T>(s: seq<T>) {
    forall i, j :: 0 <= i < j < |s| ==> s[i] != s[j]
  }

  /** `a` is what remains of `b` when some elements are left out, order kept. */
  predicate Subsequence<T(==)>(a: seq<T>, b: seq<T>)
    decreases b
  {
    if a == [] then true
    else if b == [] then false
    else if a[|a| - 1] == b[|b| - 1] then Subsequence(a[..|a| - 1], b[..|b| - 1])
    else Subsequence(a, b[..|b| - 1])
  }

  lemma {:induction false} SubsequenceElements<T>(a: seq<T>, b: seq<T>)
    requires Subsequence(a, b)
    ensures forall x <- a :: x in b
    ensures Distinct(b) ==> Distinct(a)
    decreases b
  {
    if a != [] {
      var x, y := a[|a| - 1], b[|b| - 1];
      if x == y {
        var front := a[..|a| - 1];
        SubsequenceElements(front, b[..|b| - 1]);
        assert a == front + [x];
        if Distinct(b) {
          forall i | 0 <= i < |front| ensures a[i] != x {
            assert front[i] in b[..|b| - 1];
          }
        }
      } else {
        SubsequenceElements(a, b[..|b| - 1]);
      }
    }
  }

  lemma {:induction false} SubsequenceWeakens<T>(a: seq<T>, b: seq<T>)
    requires Subsequence(a, b) && a != []
    ensures Subsequence(a[..|a| - 1], b)
    decreases b
  {
    var front := a[..|a| - 1];
    if a[|a| - 1] == b[|b| - 1] {
      if front != [] && front[|front| - 1] == b[|b| - 1] {
        SubsequenceWeakens(front, b[..|b| - 1]);
      }
    } else {
      SubsequenceWeakens(a, b[..|b| - 1]);
      if front != [] && front[|front| - 1] == b[|b| - 1] {
        SubsequenceWeakens(front, b[..|b| - 1]);
      }
    }
  }

  lemma {:induction false} SubsequenceSuffix<T>(a: seq<T>, b: seq<T>, k: nat)
    requires Subsequence(a, b) && k <= |a|
    ensures Subsequence(a[k..], b)
    decreases b
  {
    if k < |a| {
      assert a[k..][|a[k..]| - 1] == a[|a| - 1];
      if a[|a| - 1] == b[|b| - 1] {
        SubsequenceSuffix(a[..|a| - 1], b[..|b| - 1], k);
        assert a[k..][..|a[k..]| - 1] == a[..|a| - 1][k..];
      } else {
        SubsequenceSuffix(a, b[..|b| - 1], k);
      }
    }
  }

  lemma {:induction false} MinusOfAppend<T>(s: seq<T>, y: T, x: T)
    ensures Minus(s + [y], x) == Minus(s, x) + if y == x then [] else [y]
  {
    if s != [] {
      MinusOfAppend(s[1..], y, x);
      assert (s + [y])[1..] == s[1..] + [y];
    }
  }

  lemma {:induction false} SubsequenceMinus<T>(a: seq<T>, b: seq<T>, x: T)
    requires Subsequence(a, b)
    ensures Subsequence(Minus(a, x), b)
    decreases b, |a|
  {
    if a != [] {
      var front, y := a[..|a| - 1], a[|a| - 1];
      assert a == front + [y];
      MinusOfAppend(front, y, x);
      if y == x {
        SubsequenceWeakens(a, b);
        SubsequenceMinus(front, b, x);
        assert Minus(a, x) == Minus(front, x);
      } else if y == b[|b| - 1] {
        SubsequenceMinus(front, b[..|b| - 1], x);
        assert Minus(a, x)[..|Minus(a, x)| - 1] == Minus(front, x);
      } else {
        SubsequenceMinus(a, b[..|b| - 1], x);
      }
    }
  }

  lemma {:induction false} SubsequenceSelf<T>(s: seq<T>)
    ensures Subsequence(s, s)
  {
    if s != [] {
      SubsequenceSelf(s[..|s| - 1]);
    }
  }

  lemma {:induction false} MinusCounts<T>(s: seq<T>, x: T)
    ensures forall y :: multiset(Minus(s, x))[y] == if y == x then 0 else multiset(s)[y]
  {
    if s != [] {
      MinusCounts(s[1..], x);
      assert s == [s[0]] + s[1..];
    }
  }

  lemma SubsequenceAppend<T>(a: seq<T>, b: seq<T>, x: T)
    requires Subsequence(a, b)
    ensures Subsequence(a + [x], b + [x])
  {
    assert (a + [x])[..|a|] == a && (b + [x])[..|b|] == b;
  }

  lemma {:induction false} MinusShrinks<T>(s: seq<T>, x: T)
    ensures |Minus(s, x)| <= |s|
    ensures x !in Minus(s, x)
    ensures forall y :: y in Minus(s, x) <==> y in s && y != x
  {
    if s != [] {
      MinusShrinks(s[1..], x);
    }
  }

  lemma {:induction false} MinusNothing<T>(s: seq<T>, x: T)
    requires x !in s
    ensures Minus(s, x) == s
  {
    if s != [] {
      assert s[0] in s;
      MinusNothing(s[1..], x);
    }
  }

  /** Appending to both and keeping the last few. */
  lemma PushKeepsSubsequence<T>(stored: seq<T>, issued: seq<T>, x: T, n: nat)
    requires Subsequence(stored, issued)
    ensures Subsequence(LastOf(stored + [x], n), issued + [x])
  {
    SubsequenceAppend(stored, issued, x);
    var all := stored + [x];
    SubsequenceSuffix(all, issued + [x], |all| - |LastOf(all, n)|);
  }

  lemma PullKeepsSubsequence<T>(stored: seq<T>, issued: seq<T>, x: T)
    requires Subsequence(stored, issued)
    ensures Subsequence(Minus(stored, x), issued) && |Minus(stored, x)| <= |stored|
  {
    SubsequenceMinus(stored, issued, x);
    MinusShrinks(stored, x);
  }

  lemma AppendNothing<T>(s: seq<T>)
    ensures s + [] == s
  {
  }

  lemma AppendAssociates<T>(a: seq<T>, b: seq<T>, c: seq<T>)
    ensures a + (b + c) == a + b + c
  {
  }
}
