/** Scope strings: whitespace-separated words compared as sets (services/auth.py). */
module Scopes {

  /** The characters on which Python's `str.split()` splits. */
  predicate IsSpace(c: char) {
    var n := c as int;
    9 <= n <= 13 || 28 <= n <= 32 || n == 133 || n == 160 || n == 0x1680
    || 0x2000 <= n <= 0x200a || n == 0x2028 || n == 0x2029 || n == 0x202f || n == 0x205f || n == 0x3000
  }

  function WordLength(s: string): (n: nat)
    ensures n <= |s|
    ensures forall i :: 0 <= i < n ==> !IsSpace(s[i])
    ensures n < |s| ==> IsSpace(s[n])
  {
    if s == "" || IsSpace(s[0]) then 0 else 1 + WordLength(s[1..])
  }

  function Split(s: string): seq<string>
    decreases |s|
  {
    if s == "" then []
    else if IsSpace(s[0]) then Split(s[1..])
    else var n := WordLength(s); [s[..n]] + Split(s[n..])
  }

  function Words(s: string): set<string> {
    set w | w in Split(s)
  }

  predicate ScopeIsSubset(requested: string, allowed: string) {
    Words(requested) <= Words(allowed)
  }

  /** `s[i..j]` is a maximal run of non-space characters. */
  ghost predicate WordAt(s: string, i: int, j: int) {
    && 0 <= i < j <= |s| && (forall k :: i <= k < j ==> !IsSpace(s[k]))
    && (i == 0 || IsSpace(s[i - 1])) && (j == |s| || IsSpace(s[j]))
  }

  ghost predicate HasWord(s: string, w: string) {
    exists i, j :: WordAt(s, i, j) && w == s[i..j]
  }

  /** Cutting a string next to a space moves the words behind the cut and nothing else. */
  lemma WordsShift(s: string, n: nat, i: int, j: int)
    requires 0 < n <= |s| && n <= i && (IsSpace(s[n - 1]) || n == |s| || IsSpace(s[n]))
    ensures WordAt(s, i, j) <==> WordAt(s[n..], i - n, j - n)
    ensures WordAt(s, i, j) ==> s[i..j] == s[n..][i - n..j - n]
  {
    assert forall k :: n <= k < |s| ==> s[k] == s[n..][k - n];
  }

  lemma HasWordAfter(s: string, n: nat, w: string)
    requires 0 < n <= |s| && (IsSpace(s[n - 1]) || n == |s| || IsSpace(s[n]))
    ensures HasWord(s[n..], w) <==> exists i, j :: n <= i && WordAt(s, i, j) && w == s[i..j]
  {
    if HasWord(s[n..], w) {
      var i, j :| WordAt(s[n..], i, j) && w == s[n..][i..j];
      WordsShift(s, n, i + n, j + n);
    }
    if exists i, j :: n <= i && WordAt(s, i, j) && w == s[i..j] {
      var i, j :| n <= i && WordAt(s, i, j) && w == s[i..j];
      WordsShift(s, n, i, j);
    }
  }

  /** A string that starts with a word of length `n` has that word, and no other that starts before `n`. */
  lemma FirstWord(s: string, i: int, j: int)
    requires s != "" && !IsSpace(s[0]) && WordAt(s, i, j)
    ensures (i == 0 && j == WordLength(s)) || i > WordLength(s)
  {
    var n := WordLength(s);
    if i > 0 {
      assert IsSpace(s[i - 1]);
    }
  }

  /** The words of a string are exactly its maximal runs of non-space characters. */
  lemma {:induction false} WordsAreMaximalRuns(s: string, w: string)
    ensures w in Words(s) <==> HasWord(s, w)
    decreases |s|
  {
    if s != "" {
      var n := if IsSpace(s[0]) then 1 else WordLength(s);
      WordsAreMaximalRuns(s[n..], w);
      HasWordAfter(s, n, w);
      if !IsSpace(s[0]) {
        assert WordAt(s, 0, n) && s[0..n] == s[..n];
        if HasWord(s, w) {
          var i, j :| WordAt(s, i, j) && w == s[i..j];
          FirstWord(s, i, j);
        }
      }
    }
  }

  /** So a scope is within another exactly when each of its words stands in the other. */
  lemma SubsetIsWordwise(requested: string, allowed: string)
    ensures ScopeIsSubset(requested, allowed) <==> forall w :: HasWord(requested, w) ==> HasWord(allowed, w)
  {
    forall w
      ensures (w in Words(requested) <==> HasWord(requested, w)) && (w in Words(allowed) <==> HasWord(allowed, w))
    {
      WordsAreMaximalRuns(requested, w);
      WordsAreMaximalRuns(allowed, w);
    }
  }
}
