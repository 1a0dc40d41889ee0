/**
 * `String.prototype.trim` of ECMAScript: both variants trim the typed text
 * before deciding whether it is blank.
 */
module Text {

  /** ECMAScript WhiteSpace and LineTerminator code points, the set `trim` removes. */
  predicate IsWhitespace(c: char)
  {
    || c == '\t' || c == '\n' || c == '\U{B}' || c == '\U{C}' || c == '\r' || c == ' '
    || c == '\U{A0}' || c == '\U{1680}' || '\U{2000}' <= c <= '\U{200A}'
    || c == '\U{2028}' || c == '\U{2029}' || c == '\U{202F}' || c == '\U{205F}'
    || c == '\U{3000}' || c == '\U{FEFF}'
  }

  ghost predicate AllWhitespace(s: string)
  {
    WhitespaceBetween(s, 0, |s|)
  }

  /** Every character of `s` at a position in `lo..hi` is whitespace. */
  ghost predicate WhitespaceBetween(s: string, lo: int, hi: int)
  {
    forall k :: lo <= k < hi && 0 <= k < |s| ==> IsWhitespace(s[k])
  }

  /** The first position at or after `lo` that is not whitespace, or `|s|`. */
  function SkipLeading(s: string, lo: nat): (n: nat)
    requires lo <= |s|
    ensures lo <= n <= |s|
    ensures WhitespaceBetween(s, lo, n)
    ensures n == |s| || !IsWhitespace(s[n])
    decreases |s| - lo
  {
    if lo == |s| || !IsWhitespace(s[lo]) then lo else SkipLeading(s, lo + 1)
  }

  /** The position just after the last non-whitespace character in `lo..hi`, or `lo`. */
  function SkipTrailing(s: string, lo: nat, hi: nat): (n: nat)
    requires lo <= hi <= |s|
    ensures lo <= n <= hi
    ensures WhitespaceBetween(s, n, hi)
    ensures n == lo || !IsWhitespace(s[n - 1])
    decreases hi
  {
    if hi == lo || !IsWhitespace(s[hi - 1]) then hi else SkipTrailing(s, lo, hi - 1)
  }

  /**
   * `s.trim()`: the slice of `s` between its leading and its trailing whitespace.
   * It is empty exactly when `s` is all whitespace, and otherwise starts and ends
   * with a non-whitespace character.
   */
  function Trim(s: string): (r: string)
    ensures r == [] <==> AllWhitespace(s)
    ensures r != [] ==> !IsWhitespace(r[0]) && !IsWhitespace(r[|r| - 1])
    ensures exists i ::
              && 0 <= i <= i + |r| <= |s| && r == s[i..i + |r|]
              && WhitespaceBetween(s, 0, i) && WhitespaceBetween(s, i + |r|, |s|)
  {
    var lo := SkipLeading(s, 0);
    var hi := SkipTrailing(s, lo, |s|);
    assert hi == lo ==> WhitespaceBetween(s, 0, |s|);
    assert hi > lo ==> s[lo..hi][0] == s[lo] && s[lo..hi][hi - lo - 1] == s[hi - 1];
    assert s[lo..lo + (hi - lo)] == s[lo..hi];
    s[lo..hi]
  }

  /** The trimmed text is its own trim: `x.trim().trim() === x.trim()`. */
  lemma TrimIdempotent(s: string)
    ensures Trim(Trim(s)) == Trim(s)
  {
    TrimUnchanged(Trim(s));
  }

  /** Trimming changes nothing exactly when the text neither starts nor ends with whitespace. */
  lemma TrimUnchanged(s: string)
    ensures Trim(s) == s <==> s == [] || (!IsWhitespace(s[0]) && !IsWhitespace(s[|s| - 1]))
  {
  }
}
