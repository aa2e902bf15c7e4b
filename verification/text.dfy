/** The string operations the form relies on: ECMAScript `String.prototype.trim`
    and `String.prototype.startsWith`. */
module Text {

  /** The characters `trim` strips: WhiteSpace and LineTerminator of ECMA-262
      (sections 12.2 and 12.3), i.e. TAB, VT, FF, SP, NBSP, ZWNBSP, every
      Unicode space separator, LF, CR, LS and PS. */
  const WhitespaceChars: set<char> := {
    '\t', '\n', '\U{000B}', '\U{000C}', '\r', ' ', '\U{00A0}', '\U{1680}',
    '\U{2000}', '\U{2001}', '\U{2002}', '\U{2003}', '\U{2004}', '\U{2005}',
    '\U{2006}', '\U{2007}', '\U{2008}', '\U{2009}', '\U{200A}',
    '\U{2028}', '\U{2029}', '\U{202F}', '\U{205F}', '\U{3000}', '\U{FEFF}'
  }

  predicate IsWhitespace(c: char) {
    c in WhitespaceChars
  }

  predicate AllWhitespace(s: string) {
    forall i :: 0 <= i < |s| ==> IsWhitespace(s[i])
  }

  /** Number of whitespace characters at the start of `s`. */
  function LeadingWhitespace(s: string): (k: nat)
    ensures k <= |s|
    ensures forall i :: 0 <= i < k ==> IsWhitespace(s[i])
    ensures k < |s| ==> !IsWhitespace(s[k])
  {
    if s == [] || !IsWhitespace(s[0]) then 0 else 1 + LeadingWhitespace(s[1..])
  }

  /** Number of whitespace characters at the end of `s`. */
  function TrailingWhitespace(s: string): (k: nat)
    ensures k <= |s|
    ensures forall i :: |s| - k <= i < |s| ==> IsWhitespace(s[i])
    ensures k < |s| ==> !IsWhitespace(s[|s| - 1 - k])
  {
    if s == [] || !IsWhitespace(s[|s| - 1]) then 0
    else 1 + TrailingWhitespace(s[..|s| - 1])
  }

  /** `r` is `s[a..b]`, everything outside `[a, b)` is whitespace, and `r`
      neither starts nor ends with whitespace. */
  ghost predicate IsTrimCut(s: string, r: string, a: int, b: int) {
    && 0 <= a <= b <= |s|
    && r == s[a..b]
    && (forall i :: 0 <= i < a ==> IsWhitespace(s[i]))
    && (forall i :: b <= i < |s| ==> IsWhitespace(s[i]))
    && (r == [] || (!IsWhitespace(r[0]) && !IsWhitespace(r[|r| - 1])))
  }

  /** The independent description of what trimming `s` yields. */
  ghost predicate IsTrimOf(s: string, r: string) {
    exists a, b :: IsTrimCut(s, r, a, b)
  }

  /** ECMAScript `s.trim()`: strip leading, then trailing, whitespace. */
  function Trim(s: string): (r: string)
    ensures IsTrimOf(s, r)
    ensures r == [] <==> AllWhitespace(s)
  {
    var a := LeadingWhitespace(s);
    var t := s[a..];
    var c := TrailingWhitespace(t);
    assert a < |s| ==> t[0] == s[a];
    assert a < |s| ==> c < |t|;
    var r := t[..|t| - c];
    assert r == s[a..a + |t| - c];
    assert IsTrimCut(s, r, a, a + |t| - c);
    r
  }

  /** Only one string is a trimming of `s`, so `IsTrimOf` pins `Trim` down. */
  lemma TrimCutUnique(s: string, r1: string, a1: int, b1: int, r2: string, a2: int, b2: int)
    requires IsTrimCut(s, r1, a1, b1)
    requires IsTrimCut(s, r2, a2, b2)
    ensures r1 == r2
  {
    if r1 != [] && r2 != [] {
      assert s[a1] == r1[0] && s[a2] == r2[0];
      assert s[b1 - 1] == r1[|r1| - 1] && s[b2 - 1] == r2[|r2| - 1];
      assert a1 == a2;
      assert b1 == b2;
    }
  }

  lemma TrimOfUnique(s: string, r1: string, r2: string)
    requires IsTrimOf(s, r1) && IsTrimOf(s, r2)
    ensures r1 == r2
  {
    var a1, b1 :| IsTrimCut(s, r1, a1, b1);
    var a2, b2 :| IsTrimCut(s, r2, a2, b2);
    TrimCutUnique(s, r1, a1, b1, r2, a2, b2);
  }

  /** Trimming a trimmed string changes nothing. */
  lemma TrimIdempotent(s: string)
    ensures Trim(Trim(s)) == Trim(s)
  {
    var r := Trim(s);
    assert r[0..|r|] == r;
    assert IsTrimCut(r, r, 0, |r|);
    TrimOfUnique(r, Trim(r), r);
  }

  /** ECMAScript `s.startsWith(prefix)`. */
  predicate StartsWith(s: string, prefix: string) {
    |prefix| <= |s| && s[..|prefix|] == prefix
  }
}
