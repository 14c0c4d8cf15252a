/** Email addresses and their canonical form. */
module Emails {
  predicate IsSpace(c: char) {
    c == ' ' || c == '\t' || c == '\n' || c == '\r'
  }

  function TrimStart(s: string): string {
    if s != "" && IsSpace(s[0]) then TrimStart(s[1..]) else s
  }

  function TrimEnd(s: string): string {
    if s != "" && IsSpace(s[|s| - 1]) then TrimEnd(s[..|s| - 1]) else s
  }

  function LowerChar(c: char): char {
    if 'A' <= c <= 'Z' then c - 'A' + 'a' else c
  }

  function Lower(s: string): string {
    if s == "" then "" else [LowerChar(s[0])] + Lower(s[1..])
  }

  /** The canonical form of an email address. */
  function Normalize(email: string): string {
    Lower(TrimEnd(TrimStart(email)))
  }

  predicate Normal(email: string) {
    Normalize(email) == email
  }

  lemma {:induction false} LowerIsPointwise(s: string)
    ensures |Lower(s)| == |s|
    ensures forall i :: 0 <= i < |s| ==> Lower(s)[i] == LowerChar(s[i])
    ensures Lower(Lower(s)) == Lower(s)
  {
    if s != "" {
      LowerIsPointwise(s[1..]);
      assert Lower(s)[1..] == Lower(s[1..]);
    }
  }

  /** Trimming drops blanks, and stops at the first that is none. */
  lemma {:induction false} TrimStartDrops(s: string) returns (i: nat)
    ensures i <= |s| && TrimStart(s) == s[i..]
    ensures forall k :: 0 <= k < i ==> IsSpace(s[k])
    ensures i < |s| ==> !IsSpace(s[i])
  {
    i := 0;
    if s != "" && IsSpace(s[0]) {
      var j := TrimStartDrops(s[1..]);
      i := j + 1;
      assert forall k :: 0 < k < i ==> s[k] == s[1..][k - 1];
    }
  }

  lemma {:induction false} TrimEndDrops(s: string) returns (j: nat)
    ensures j <= |s| && TrimEnd(s) == s[..j]
    ensures forall k :: j <= k < |s| ==> IsSpace(s[k])
    ensures j > 0 ==> !IsSpace(s[j - 1])
  {
    j := |s|;
    if s != "" && IsSpace(s[|s| - 1]) {
      j := TrimEndDrops(s[..|s| - 1]);
      assert forall k :: j <= k < |s| - 1 ==> s[k] == s[..|s| - 1][k];
    }
  }

  /** The canonical form is what stands between the surrounding blanks, letter by letter in lower case. */
  lemma NormalizeIs(email: string) returns (i: nat, j: nat)
    ensures i <= j <= |email|
    ensures forall k :: 0 <= k < i || j <= k < |email| ==> IsSpace(email[k])
    ensures i < j ==> !IsSpace(email[i]) && !IsSpace(email[j - 1])
    ensures |Normalize(email)| == j - i
    ensures forall k :: 0 <= k < j - i ==> Normalize(email)[k] == LowerChar(email[i + k])
  {
    i := TrimStartDrops(email);
    var n := TrimEndDrops(email[i..]);
    j := i + n;
    LowerIsPointwise(TrimEnd(TrimStart(email)));
    forall k | j <= k < |email| ensures IsSpace(email[k]) {
      assert email[k] == email[i..][k - i];
    }
  }

  lemma NormalizeIsIdempotent(email: string)
    ensures Normal(Normalize(email))
  {
    var i, j := NormalizeIs(email);
    var n := Normalize(email);
    LowerIsPointwise(n);
    if n != "" {
      assert n[0] == LowerChar(email[i]) && n[|n| - 1] == LowerChar(email[j - 1]);
    }
    assert TrimStart(n) == n && TrimEnd(n) == n;
    forall k | 0 <= k < |n| ensures LowerChar(n[k]) == n[k] {
    }
    assert Lower(n) == n;
  }
}
