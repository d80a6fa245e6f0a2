/**
 * `String.prototype.trim` of ECMAScript: removes white space and line
 * terminators from both ends of a string. Used by `addSkill`.
 */
module Text {

  /** The WhiteSpace and LineTerminator code points of ECMAScript (section 12.2 and 12.3 of ECMA-262). */
  predicate IsWhitespace(c: char)
  {
    || c == '\t' || c == '\U{000B}' || c == '\U{000C}' || c == ' ' || c == '\U{00A0}' || c == '\U{FEFF}'
    || c == '\U{1680}' || ('\U{2000}' <= c <= '\U{200A}') || c == '\U{202F}' || c == '\U{205F}' || c == '\U{3000}'
    || c == '\n' || c == '\r' || c == '\U{2028}' || c == '\U{2029}'
  }

  predicate AllWhitespace(s: string)
  {
    forall k :: 0 <= k < |s| ==> IsWhitespace(s[k])
  }

  /** The first position at or after `k` that does not hold white space, or `|s|`. */
  function LeadingSpace(s: string, k: nat): (n: nat)
    requires k <= |s|
    ensures k <= n <= |s|
    ensures forall q :: k <= q < n ==> IsWhitespace(s[q])
    ensures n == |s| || !IsWhitespace(s[n])
    decreases |s| - k
  {
    if k < |s| && IsWhitespace(s[k]) then LeadingSpace(s, k + 1) else k
  }

  /** The position where the white space that `s[lo..hi]` ends with begins. */
  function TrailingSpaceStart(s: string, lo: nat, hi: nat): (m: nat)
    requires lo <= hi <= |s|
    ensures lo <= m <= hi
    ensures forall q :: m <= q < hi ==> IsWhitespace(s[q])
    ensures m == lo || !IsWhitespace(s[m - 1])
    decreases hi - lo
  {
    if lo < hi && IsWhitespace(s[hi - 1]) then TrailingSpaceStart(s, lo, hi - 1) else hi
  }

  /**
   * `s.trim()`: the part of `s` between its leading and its trailing white
   * space. It is empty exactly when `s` is all white space, and otherwise
   * starts and ends with a character that is not white space.
   */
  function Trim(s: string): (r: string)
    ensures r == [] <==> AllWhitespace(s)
    ensures r == [] || (!IsWhitespace(r[0]) && !IsWhitespace(r[|r| - 1]))
    ensures exists i ::
              0 <= i <= |s| - |r| && r == s[i..i + |r|] && AllWhitespace(s[..i]) && AllWhitespace(s[i + |r|..])
  {
    var i := LeadingSpace(s, 0);
    var j := TrailingSpaceStart(s, i, |s|);
    TrimSplits(s, i, j);
    var r := s[i..j];
    assert i + |r| == j && r == s[i..i + |r|];
    assert r != [] ==> r[0] == s[i] && r[|r| - 1] == s[j - 1];
    r
  }

  /** Cutting `s` at the end of its leading and at the start of its trailing white space. */
  lemma TrimSplits(s: string, i: nat, j: nat)
    requires i == LeadingSpace(s, 0) && j == TrailingSpaceStart(s, i, |s|)
    ensures AllWhitespace(s[..i]) && AllWhitespace(s[j..])
    ensures i == j <==> AllWhitespace(s)
    ensures i < j ==> !IsWhitespace(s[i]) && !IsWhitespace(s[j - 1])
  {
    assert forall q :: 0 <= q < i ==> s[..i][q] == s[q];
    assert forall q :: 0 <= q < |s| - j ==> s[j..][q] == s[j + q];
    assert i < |s| ==> !IsWhitespace(s[i]);
  }

  /** Trimming an already trimmed string changes nothing. */
  lemma TrimIdempotent(s: string)
    ensures Trim(Trim(s)) == Trim(s)
  {
    var r := Trim(s);
    if r != [] {
      assert LeadingSpace(r, 0) == 0;
      assert TrailingSpaceStart(r, 0, |r|) == |r|;
      assert r[0..|r|] == r;
    }
  }
}
