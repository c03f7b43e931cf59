/**
 * String primitives with JavaScript's meaning: `\s` / `trim` white space,
 * `toUpperCase` / `toLowerCase` (ASCII letters only), `includes`,
 * `startsWith` and decimal rendering of a number in a template literal.
 */
module Strings {

  /** The characters matched by JavaScript's `\s` and removed by `String.prototype.trim`. */
  predicate IsWhitespace(c: char) {
    c == ' ' || c == '\t' || c == '\n' || c == '\U{000B}' || c == '\U{000C}' || c == '\r'
    || c == '\U{00A0}' || c == '\U{1680}' || ('\U{2000}' <= c <= '\U{200A}')
    || c == '\U{2028}' || c == '\U{2029}' || c == '\U{202F}' || c == '\U{205F}'
    || c == '\U{3000}' || c == '\U{FEFF}'
  }

  predicate IsAsciiLower(c: char) { 'a' <= c <= 'z' }
  predicate IsAsciiUpper(c: char) { 'A' <= c <= 'Z' }

  function UpperChar(c: char): (r: char)
    ensures !IsAsciiLower(r)
    ensures IsAsciiLower(c) ==> IsAsciiUpper(r) && r as int == c as int - 32
    ensures !IsAsciiLower(c) ==> r == c
  {
    if IsAsciiLower(c) then (c as int - 32) as char else c
  }

  function LowerChar(c: char): (r: char)
    ensures !IsAsciiUpper(r)
    ensures IsAsciiUpper(c) ==> IsAsciiLower(r) && r as int == c as int + 32
    ensures !IsAsciiUpper(c) ==> r == c
  {
    if IsAsciiUpper(c) then (c as int + 32) as char else c
  }

  /** String.prototype.toUpperCase, restricted to ASCII letters. */
  function Upper(s: string): (r: string)
    ensures |r| == |s|
    ensures forall i :: 0 <= i < |s| ==> r[i] == UpperChar(s[i])
  {
    seq(|s|, i requires 0 <= i < |s| => UpperChar(s[i]))
  }

  /** String.prototype.toLowerCase, restricted to ASCII letters. */
  function Lower(s: string): (r: string)
    ensures |r| == |s|
    ensures forall i :: 0 <= i < |s| ==> r[i] == LowerChar(s[i])
  {
    seq(|s|, i requires 0 <= i < |s| => LowerChar(s[i]))
  }

  /** No ASCII lower-case letter left: upper-casing would change nothing. */
  predicate IsUpperCase(s: string) {
    forall i :: 0 <= i < |s| ==> !IsAsciiLower(s[i])
  }

  /** No ASCII upper-case letter left: lower-casing would change nothing. */
  predicate IsLowerCase(s: string) {
    forall i :: 0 <= i < |s| ==> !IsAsciiUpper(s[i])
  }

  lemma UpperIdempotent(s: string)
    ensures IsUpperCase(Upper(s)) && Upper(Upper(s)) == Upper(s)
  {
  }

  lemma LowerIdempotent(s: string)
    ensures IsLowerCase(Lower(s)) && Lower(Lower(s)) == Lower(s)
  {
  }

  /** String.prototype.startsWith. */
  predicate StartsWith(s: string, prefix: string) {
    |prefix| <= |s| && s[..|prefix|] == prefix
  }

  /** `pattern` occurs in `s` starting at index `i`. */
  ghost predicate OccursAt(s: string, pattern: string, i: int) {
    0 <= i && i + |pattern| <= |s| && s[i..i + |pattern|] == pattern
  }

  /** String.prototype.includes: `s` has `pattern` as a contiguous substring (the empty pattern is everywhere). */
  predicate Contains(s: string, pattern: string)
    decreases |s|
  {
    StartsWith(s, pattern) || (s != [] && Contains(s[1..], pattern))
  }

  /** `Contains` holds exactly when there is a position at which the pattern occurs. */
  lemma ContainsIff(s: string, pattern: string)
    ensures Contains(s, pattern) <==> exists i :: OccursAt(s, pattern, i)
  {
    if Contains(s, pattern) {
      var i := ContainsWitness(s, pattern);
    }
    forall i | OccursAt(s, pattern, i) ensures Contains(s, pattern) {
      OccursContains(s, pattern, i);
    }
  }

  /** A position at which an included pattern occurs. */
  lemma {:induction false} ContainsWitness(s: string, pattern: string) returns (i: nat)
    requires Contains(s, pattern)
    ensures OccursAt(s, pattern, i)
    decreases |s|
  {
    if StartsWith(s, pattern) {
      i := 0;
    } else {
      var j := ContainsWitness(s[1..], pattern);
      assert s[j + 1..j + 1 + |pattern|] == s[1..][j..j + |pattern|];
      i := j + 1;
    }
  }

  /** An occurrence anywhere makes `Contains` true. */
  lemma {:induction false} OccursContains(s: string, pattern: string, i: int)
    requires OccursAt(s, pattern, i)
    ensures Contains(s, pattern)
    decreases i
  {
    if i > 0 {
      assert s[1..][i - 1..i - 1 + |pattern|] == s[i..i + |pattern|];
      OccursContains(s[1..], pattern, i - 1);
    }
  }

  /** Nothing includes a pattern longer than itself. */
  lemma {:induction false} ContainsFits(s: string, pattern: string)
    ensures Contains(s, pattern) ==> |pattern| <= |s|
    decreases |s|
  {
    if s != [] && !StartsWith(s, pattern) {
      ContainsFits(s[1..], pattern);
    }
  }

  /** Every string includes the empty string. */
  lemma ContainsEmpty(s: string)
    ensures Contains(s, "")
  {
    assert StartsWith(s, "");
  }

  /** String.prototype.trimStart. */
  function TrimStart(s: string): (r: string)
    ensures |r| <= |s|
    ensures r == [] || !IsWhitespace(r[0])
    ensures forall i :: 0 <= i < |s| - |r| ==> IsWhitespace(s[i])
  {
    if s != [] && IsWhitespace(s[0]) then TrimStart(s[1..]) else s
  }

  /** trimStart cuts a prefix: what remains is a suffix of the input. */
  lemma {:induction false} TrimStartIsSuffix(s: string)
    ensures TrimStart(s) == s[|s| - |TrimStart(s)|..]
  {
    if s != [] && IsWhitespace(s[0]) {
      TrimStartIsSuffix(s[1..]);
    }
  }

  /** String.prototype.trimEnd. */
  function TrimEnd(s: string): (r: string)
    ensures |r| <= |s|
    ensures r == [] || !IsWhitespace(r[|r| - 1])
    ensures forall i :: |r| <= i < |s| ==> IsWhitespace(s[i])
  {
    if s != [] && IsWhitespace(s[|s| - 1]) then TrimEnd(s[..|s| - 1]) else s
  }

  /** trimEnd cuts a suffix: what remains is a prefix of the input. */
  lemma {:induction false} TrimEndIsPrefix(s: string)
    ensures TrimEnd(s) == s[..|TrimEnd(s)|]
  {
    if s != [] && IsWhitespace(s[|s| - 1]) {
      TrimEndIsPrefix(s[..|s| - 1]);
    }
  }

  /** `r` is `s` with only white space cut away before index `lo` and after `r`. */
  ghost predicate TrimmedAt(s: string, r: string, lo: int) {
    0 <= lo <= |s| - |r| && r == s[lo..lo + |r|]
    && (forall i :: 0 <= i < lo ==> IsWhitespace(s[i]))
    && (forall i :: lo + |r| <= i < |s| ==> IsWhitespace(s[i]))
  }

  /** String.prototype.trim: white space removed from both ends. */
  function Trim(s: string): string {
    TrimEnd(TrimStart(s))
  }

  /** trim cuts only white space, from both ends, and leaves none at either end. */
  lemma TrimShape(s: string)
    ensures exists lo :: TrimmedAt(s, Trim(s), lo)
    ensures Trim(s) == [] || (!IsWhitespace(Trim(s)[0]) && !IsWhitespace(Trim(s)[|Trim(s)| - 1]))
  {
    TrimStartIsSuffix(s);
    TrimEndIsPrefix(TrimStart(s));
    TrimParts(s, TrimStart(s), Trim(s));
  }

  /** Cutting a white-space prefix and then a white-space suffix leaves a trimmed middle. */
  lemma TrimParts(s: string, t: string, r: string)
    requires |t| <= |s| && t == s[|s| - |t|..]
    requires t == [] || !IsWhitespace(t[0])
    requires forall i :: 0 <= i < |s| - |t| ==> IsWhitespace(s[i])
    requires |r| <= |t| && r == t[..|r|]
    requires r == [] || !IsWhitespace(r[|r| - 1])
    requires forall i :: |r| <= i < |t| ==> IsWhitespace(t[i])
    ensures TrimmedAt(s, r, |s| - |t|)
    ensures r == [] || (!IsWhitespace(r[0]) && !IsWhitespace(r[|r| - 1]))
  {
    SliceOfSuffix(s, |s| - |t|, |r|);
    TailWhitespace(s, t, r);
    if r != [] {
      assert r[0] == t[0];
    }
  }

  lemma SliceOfSuffix(s: string, lo: nat, n: nat)
    requires lo + n <= |s|
    ensures s[lo..][..n] == s[lo..lo + n]
  {
  }

  lemma TailWhitespace(s: string, t: string, r: string)
    requires |t| <= |s| && t == s[|s| - |t|..]
    requires |r| <= |t| && r == t[..|r|]
    requires forall i :: |r| <= i < |t| ==> IsWhitespace(t[i])
    ensures forall i :: |s| - |t| + |r| <= i < |s| ==> IsWhitespace(s[i])
  {
    var lo := |s| - |t|;
    forall i | lo + |r| <= i < |s| ensures IsWhitespace(s[i]) {
      assert s[i] == t[i - lo];
    }
  }

  /** A character outside the Basic Multilingual Plane, which JavaScript stores as two UTF-16 code units. */
  predicate IsAstral(c: char) { c as int > 0xFFFF }

  /** The UTF-16 code units of one character. */
  function CodeUnits(c: char): nat { if IsAstral(c) then 2 else 1 }

  /** String.prototype.length: the number of UTF-16 code units, which counts an astral character twice. */
  function Utf16Length(s: string): (n: nat)
    ensures |s| <= n
  {
    if s == [] then 0 else CodeUnits(s[0]) + Utf16Length(s[1..])
  }

  /** The UTF-16 code units of the characters of `s` that are not white space. */
  function VisibleUnits(s: string): nat {
    if s == [] then 0
    else (if IsWhitespace(s[0]) then 0 else CodeUnits(s[0])) + VisibleUnits(s[1..])
  }

  lemma {:induction false} VisibleUnitsAppend(a: string, b: string)
    ensures VisibleUnits(a + b) == VisibleUnits(a) + VisibleUnits(b)
  {
    if a == [] {
      assert a + b == b;
    } else {
      assert (a + b)[1..] == a[1..] + b;
      VisibleUnitsAppend(a[1..], b);
    }
  }

  lemma {:induction false} AllWhitespaceCount(s: string)
    requires forall i :: 0 <= i < |s| ==> IsWhitespace(s[i])
    ensures VisibleUnits(s) == 0
  {
    if s != [] {
      AllWhitespaceCount(s[1..]);
    }
  }

  /**
   * Trimming keeps every non-white-space character; the trimmed string is empty, or one
   * UTF-16 unit long, exactly when those characters make up no unit, or one.
   */
  lemma TrimmedLength(s: string)
    ensures VisibleUnits(Trim(s)) == VisibleUnits(s)
    ensures VisibleUnits(s) == 0 <==> Trim(s) == ""
    ensures VisibleUnits(s) == 1 <==> Utf16Length(Trim(s)) == 1
  {
    var r := Trim(s);
    TrimShape(s);
    var lo :| TrimmedAt(s, r, lo);
    TrimKeepsCount(s, r, lo);
    EndsCount(r);
  }

  lemma TrimKeepsCount(s: string, r: string, lo: int)
    requires TrimmedAt(s, r, lo)
    ensures VisibleUnits(r) == VisibleUnits(s)
  {
    var a, c := s[..lo], s[lo + |r|..];
    assert s == a + r + c;
    VisibleUnitsAppend(a + r, c);
    VisibleUnitsAppend(a, r);
    AllWhitespaceCount(a);
    AllWhitespaceCount(c);
  }

  /** A string that starts and ends with a non-white-space character is empty, or one unit long, as its visible units are. */
  lemma EndsCount(r: string)
    requires r == [] || (!IsWhitespace(r[0]) && !IsWhitespace(r[|r| - 1]))
    ensures VisibleUnits(r) == 0 <==> r == ""
    ensures VisibleUnits(r) == 1 <==> Utf16Length(r) == 1
  {
    if |r| >= 2 {
      var m := r[1..|r| - 1];
      assert r == [r[0]] + m + [r[|r| - 1]];
      VisibleUnitsAppend([r[0]] + m, [r[|r| - 1]]);
      VisibleUnitsAppend([r[0]], m);
      assert VisibleUnits([r[0]]) >= 1;
      assert VisibleUnits([r[|r| - 1]]) >= 1;
    } else if |r| == 1 {
      assert r[1..] == [];
    }
  }

  /** The decimal digit for 0..9. */
  function DigitChar(d: nat): (c: char)
    requires d < 10
    ensures '0' <= c <= '9' && c as int - '0' as int == d
  {
    ('0' as int + d) as char
  }

  /** A number rendered in a template literal: its decimal digits, without leading zeros. */
  function NatToString(n: nat): (s: string)
    ensures |s| >= 1
    ensures forall i :: 0 <= i < |s| ==> '0' <= s[i] <= '9'
    ensures |s| > 1 ==> s[0] != '0'
  {
    if n < 10 then [DigitChar(n)] else NatToString(n / 10) + [DigitChar(n % 10)]
  }

  /** Reads a string of decimal digits back as a number. */
  function DecimalValue(s: string): nat
    requires forall i :: 0 <= i < |s| ==> '0' <= s[i] <= '9'
  {
    if s == [] then 0
    else 10 * DecimalValue(s[..|s| - 1]) + (s[|s| - 1] as int - '0' as int)
  }

  /** Rendering a number and reading it back gives the number. */
  lemma {:induction false} NatToStringRoundTrip(n: nat)
    ensures DecimalValue(NatToString(n)) == n
  {
    if n >= 10 {
      var s := NatToString(n);
      assert s[..|s| - 1] == NatToString(n / 10);
      NatToStringRoundTrip(n / 10);
    }
  }
}
