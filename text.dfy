/**
 * String helpers with the meaning JavaScript gives them: `String.prototype.trim`
 * and (for ASCII letters) `String.prototype.toLowerCase`.
 */
module Text {

  /** The code points `trim` removes: ECMAScript's WhiteSpace and LineTerminator characters. */
  const Spaces: set<char> := {
    '\t', '\n', '\U{000B}', '\U{000C}', '\r', ' ', '\U{00A0}', '\U{1680}',
    '\U{2000}', '\U{2001}', '\U{2002}', '\U{2003}', '\U{2004}', '\U{2005}',
    '\U{2006}', '\U{2007}', '\U{2008}', '\U{2009}', '\U{200A}',
    '\U{2028}', '\U{2029}', '\U{202F}', '\U{205F}', '\U{3000}', '\U{FEFF}' }

  predicate IsSpace(c: char) {
    c in Spaces
  }

  /** The index of the first non-space at or after `i` (or `|s|`). */
  function SkipLeading(s: string, i: nat): (j: nat)
    requires i <= |s|
    ensures i <= j <= |s|
    ensures forall k :: i <= k < j ==> IsSpace(s[k])
    ensures j == |s| || !IsSpace(s[j])
    decreases |s| - i
  {
    if i < |s| && IsSpace(s[i]) then SkipLeading(s, i + 1) else i
  }

  /** The end of the last non-space in `s[lo..j]` (or `lo`). */
  function SkipTrailing(s: string, lo: nat, j: nat): (e: nat)
    requires lo <= j <= |s|
    ensures lo <= e <= j
    ensures forall k :: e <= k < j ==> IsSpace(s[k])
    ensures e == lo || !IsSpace(s[e - 1])
    decreases j
  {
    if lo < j && IsSpace(s[j - 1]) then SkipTrailing(s, lo, j - 1) else j
  }

  /**
   * `s.trim()`: the part of `s` left once the white space at both ends is removed. It is
   * empty exactly when `s` is all white space, and otherwise starts and ends with a non-space.
   */
  function Trim(s: string): (r: string)
    ensures |r| <= |s|
    ensures r == [] <==> forall k :: 0 <= k < |s| ==> IsSpace(s[k])
    ensures r != [] ==> !IsSpace(r[0]) && !IsSpace(r[|r| - 1])
  {
    var a := SkipLeading(s, 0);
    s[a..SkipTrailing(s, a, |s|)]
  }

  /**
   * What `trim` keeps is a slice of its input: everything before the slice and everything
   * after it is white space. With the ends of the result being non-spaces, this fixes the
   * result completely.
   */
  lemma TrimDropsOnlyOuterSpace(s: string)
    ensures exists a, e :: 0 <= a <= e <= |s| && Trim(s) == s[a..e]
                           && (forall k :: 0 <= k < a ==> IsSpace(s[k]))
                           && (forall k :: e <= k < |s| ==> IsSpace(s[k]))
  {
    var a := SkipLeading(s, 0);
    var e := SkipTrailing(s, a, |s|);
    assert Trim(s) == s[a..e];
  }

  /** Neither end of `s` is white space. */
  predicate Trimmed(s: string) {
    s == [] || (!IsSpace(s[0]) && !IsSpace(s[|s| - 1]))
  }

  /** The strings `trim` leaves alone are exactly those with no white space at either end. */
  lemma TrimmedIsFixpoint(s: string)
    ensures Trimmed(s) <==> Trim(s) == s
  {
    if Trimmed(s) && s != [] {
      assert SkipLeading(s, 0) == 0;
      assert SkipTrailing(s, 0, |s|) == |s|;
    }
  }

  /** A trimmed string is its own trim: what the catalog stores needs no second trim. */
  lemma TrimIdempotent(s: string)
    ensures Trim(Trim(s)) == Trim(s)
  {
    TrimmedIsFixpoint(Trim(s));
  }

  /** The UTF-16 width of one character: 2 beyond U+FFFF, otherwise 1. */
  function Width(c: char): nat {
    if c as int > 0xFFFF then 2 else 1
  }

  /** The code units of `s[i..]`. */
  function CodeUnitsFrom(s: string, i: nat): (n: nat)
    requires i <= |s|
    ensures |s| - i <= n <= 2 * (|s| - i)
    decreases |s| - i
  {
    if i == |s| then 0 else Width(s[i]) + CodeUnitsFrom(s, i + 1)
  }

  /**
   * `s.length`: JavaScript counts UTF-16 code units, so a character beyond U+FFFF (an emoji,
   * say) counts twice.
   */
  function CodeUnits(s: string): (n: nat)
    ensures |s| <= n <= 2 * |s|
  {
    CodeUnitsFrom(s, 0)
  }

  lemma {:induction false} CodeUnitsFromOfBasicPlane(s: string, i: nat)
    requires i <= |s|
    ensures CodeUnitsFrom(s, i) == |s| - i <==> forall k :: i <= k < |s| ==> s[k] as int <= 0xFFFF
    decreases |s| - i
  {
    if i < |s| {
      CodeUnitsFromOfBasicPlane(s, i + 1);
    }
  }

  /** Code units and characters agree exactly when no character lies beyond U+FFFF. */
  lemma CodeUnitsOfBasicPlane(s: string)
    ensures CodeUnits(s) == |s| <==> forall k :: 0 <= k < |s| ==> s[k] as int <= 0xFFFF
  {
    CodeUnitsFromOfBasicPlane(s, 0);
  }

  /** A character beyond U+FFFF is one Dafny character but two JavaScript code units. */
  lemma AstralCharacterCountsTwice()
    ensures |"\U{1F354}\U{1F354}"| == 2 && CodeUnits("\U{1F354}\U{1F354}") == 4
  {
  }

  /** One character of `toLowerCase`, for the ASCII capitals. */
  function LowerChar(c: char): char {
    if 'A' <= c <= 'Z' then (c as int + 32) as char else c
  }

  /** `s.toLowerCase()` restricted to ASCII letters. */
  function ToLower(s: string): string {
    seq(|s|, k requires 0 <= k < |s| => LowerChar(s[k]))
  }
}
