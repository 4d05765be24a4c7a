/**
 * Character classes and string helpers shared by the matchers and the link filters.
 * `\s` follows Python's `str.isspace`; `\d`, `\w`, `lower()` and IGNORECASE are
 * modelled on ASCII letters and digits.
 */
module Text {

  /** Python's `\s` on a `str`: the characters for which `str.isspace()` holds. */
  predicate IsSpace(c: char)
  {
    c == ' ' || '\t' <= c <= '\r' || '\U{1c}' <= c <= '\U{1f}' || c == '\U{85}' || c == '\U{a0}'
    || c == '\U{1680}' || '\U{2000}' <= c <= '\U{200a}' || c == '\U{2028}' || c == '\U{2029}'
    || c == '\U{202f}' || c == '\U{205f}' || c == '\U{3000}'
  }

  /** `\d` */
  predicate IsDigit(c: char)
  {
    '0' <= c <= '9'
  }

  /** `\w` */
  predicate IsWordChar(c: char)
  {
    IsDigit(c) || 'a' <= c <= 'z' || 'A' <= c <= 'Z' || c == '_'
  }

  /** `[\s:]` */
  predicate IsSpaceOrColon(c: char)
  {
    IsSpace(c) || c == ':'
  }

  function LowerChar(c: char): char
  {
    if 'A' <= c <= 'Z' then (c as int + 32) as char else c
  }

  function UpperChar(c: char): char
  {
    if 'a' <= c <= 'z' then (c as int - 32) as char else c
  }

  /** `[^P]` under IGNORECASE: neither `P` nor `p`. */
  predicate IsNotP(c: char)
  {
    LowerChar(c) != 'p'
  }

  /** `str.lower()` */
  function Lower(s: string): (r: string)
    ensures |r| == |s|
    ensures forall i :: 0 <= i < |s| ==> r[i] == LowerChar(s[i])
  {
    seq(|s|, i requires 0 <= i < |s| => LowerChar(s[i]))
  }

  /** `str.capitalize()`: first character upper case, the rest lower case. */
  function Capitalize(s: string): (r: string)
    ensures |r| == |s|
  {
    if s == [] then [] else [UpperChar(s[0])] + Lower(s[1..])
  }

  /** `s.startswith(p)` */
  predicate StartsWith(s: string, p: string)
  {
    |p| <= |s| && s[..|p|] == p
  }

  predicate OccursAt(s: string, w: string, i: int)
  {
    0 <= i && i + |w| <= |s| && s[i..i + |w|] == w
  }

  /** `w in s` */
  predicate Contains(s: string, w: string)
  {
    exists i | 0 <= i <= |s| - |w| :: OccursAt(s, w, i)
  }

  /** The end of the greedy run of characters satisfying `p` that starts at `i`. */
  function Span(s: string, i: nat, p: char -> bool): (j: nat)
    requires i <= |s|
    ensures i <= j <= |s|
    decreases |s| - i
  {
    if i < |s| && p(s[i]) then Span(s, i + 1, p) else i
  }

  /** The run is as long as it can be: every character in it satisfies `p`, the one after it does not. */
  lemma {:induction false} SpanIsMaximal(s: string, i: nat, p: char -> bool)
    requires i <= |s|
    ensures forall k :: i <= k < Span(s, i, p) ==> p(s[k])
    ensures Span(s, i, p) < |s| ==> !p(s[Span(s, i, p)])
    decreases |s| - i
  {
    if i < |s| && p(s[i]) {
      SpanIsMaximal(s, i + 1, p);
    }
  }

  /** A run that fills `[i, j)` and stops at `j` is the run `Span` finds. */
  lemma {:induction false} SpanIs(s: string, i: nat, p: char -> bool, j: nat)
    requires i <= j <= |s|
    requires forall k :: i <= k < j ==> p(s[k])
    requires j < |s| ==> !p(s[j])
    ensures Span(s, i, p) == j
    decreases j - i
  {
    if i < j {
      SpanIs(s, i + 1, p, j);
    }
  }

  /** Case-insensitive literal: the lower-case word `w` matches `s` at `i`. */
  predicate MatchesAt(s: string, i: nat, w: string)
    requires i <= |s|
  {
    i + |w| <= |s| && forall k :: 0 <= k < |w| ==> LowerChar(s[i + k]) == w[k]
  }

  /** A literal that starts with a letter starts at a letter, so no run of spaces or digits covers it. */
  lemma MatchesAtLetter(s: string, i: nat, w: string)
    requires i <= |s| && MatchesAt(s, i, w) && |w| > 0 && 'a' <= w[0] <= 'z'
    ensures i < |s| && LowerChar(s[i]) == w[0] && !IsSpace(s[i]) && !IsDigit(s[i]) && !IsSpaceOrColon(s[i])
  {
    assert LowerChar(s[i + 0]) == w[0];
  }

  predicate AllDigits(s: string)
  {
    forall k :: 0 <= k < |s| ==> IsDigit(s[k])
  }

  function DigitValue(c: char): nat
    requires IsDigit(c)
  {
    c as nat - '0' as nat
  }
}
