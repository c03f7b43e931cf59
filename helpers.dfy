/**
 * The pure helpers of the utilities file: the employee id format, `capitalize`,
 * `getInitials`, `isValidEmail` and `calculateAge`. The uuid, "today" and the
 * date parser are parameters.
 */
module Helpers {
  import opened Wrappers
  import opened Strings

  function Min(a: int, b: int): int { if a <= b then a else b }

  // ---------------------------------------------------------------- employee id

  predicate IsLowerHexDigit(c: char) { '0' <= c <= '9' || 'a' <= c <= 'f' }
  predicate IsUpperHexDigit(c: char) { '0' <= c <= '9' || 'A' <= c <= 'F' }

  /** `EMP-${uuid.substring(0, 8).toUpperCase()}` for a uuid supplied by the caller. */
  function GenerateEmployeeId(uuid: string): (id: string)
    ensures StartsWith(id, "EMP-")
    ensures IsUpperCase(id)
    ensures |uuid| >= 8 ==> |id| == 12
    ensures id[4..] == Upper(uuid[..Min(8, |uuid|)])
  {
    "EMP-" + Upper(uuid[..Min(8, |uuid|)])
  }

  /** A uuid v4 starts with eight lower-case hex digits, so the id is "EMP-" and eight upper-case hex digits. */
  lemma EmployeeIdFormat(uuid: string)
    requires |uuid| >= 8 && forall i :: 0 <= i < 8 ==> IsLowerHexDigit(uuid[i])
    ensures var id := GenerateEmployeeId(uuid);
            |id| == 12 && id[..4] == "EMP-" && forall i :: 4 <= i < 12 ==> IsUpperHexDigit(id[i])
  {
    var id := GenerateEmployeeId(uuid);
    forall i | 4 <= i < 12 ensures IsUpperHexDigit(id[i]) {
      assert id[i] == UpperChar(uuid[i - 4]);
    }
  }

  // ---------------------------------------------------------------- capitalize

  /** `str.charAt(0).toUpperCase() + str.slice(1).toLowerCase()`, and '' for ''. */
  function Capitalize(s: string): (r: string)
    ensures |r| == |s|
    ensures s != "" ==> r[0] == UpperChar(s[0]) && !IsAsciiLower(r[0])
    ensures forall i :: 1 <= i < |s| ==> r[i] == LowerChar(s[i]) && !IsAsciiUpper(r[i])
  {
    if s == "" then "" else [UpperChar(s[0])] + Lower(s[1..])
  }

  /** Capitalizing a capitalized string changes nothing. */
  lemma CapitalizeIdempotent(s: string)
    ensures Capitalize(Capitalize(s)) == Capitalize(s)
  {
    var c := Capitalize(s);
    var cc := Capitalize(c);
    if s != "" {
      assert cc[0] == c[0];
      forall i | 1 <= i < |s| ensures cc[i] == c[i] {
        assert cc[i] == LowerChar(c[i]);
      }
    }
  }

  // ---------------------------------------------------------------- initials

  /** `s.split(' ')`: the pieces between single spaces; '' splits into [''] . */
  function SplitOnSpace(s: string): (words: seq<string>)
    ensures |words| >= 1
  {
    if s == "" then [""]
    else if s[0] == ' ' then [""] + SplitOnSpace(s[1..])
    else
      var rest := SplitOnSpace(s[1..]);
      [[s[0]] + rest[0]] + rest[1..]
  }

  /** `words.map(n => n[0]).join('')`: an empty word contributes `undefined`, which joins as ''. */
  function FirstChars(words: seq<string>): string {
    if words == [] then ""
    else (if words[0] == "" then "" else [words[0][0]]) + FirstChars(words[1..])
  }

  /**
   * The reference reading of "initials": the characters of `s` that are not a space and
   * stand at the start or right after a space. `atStart` says whether the previous
   * character was a space (or there was none).
   */
  function WordStarts(s: string, atStart: bool): string {
    if s == "" then ""
    else (if atStart && s[0] != ' ' then [s[0]] else "") + WordStarts(s[1..], s[0] == ' ')
  }

  /** Splitting and taking first characters yields exactly the word starts. */
  lemma {:induction false} FirstCharsAreWordStarts(s: string)
    ensures FirstChars(SplitOnSpace(s)) == WordStarts(s, true)
    ensures FirstChars(SplitOnSpace(s)[1..]) == WordStarts(s, false)
  {
    if s != "" {
      FirstCharsAreWordStarts(s[1..]);
      var rest := SplitOnSpace(s[1..]);
      if s[0] == ' ' {
        assert SplitOnSpace(s)[1..] == rest;
        assert FirstChars(SplitOnSpace(s)) == FirstChars([""]) + FirstChars(rest) by {
          assert ([""] + rest)[1..] == rest;
        }
      } else {
        var ws := SplitOnSpace(s);
        assert ws[1..] == rest[1..];
        assert ws[0] == [s[0]] + rest[0];
      }
    }
  }

  lemma {:induction false} WordStartsHaveNoSpace(s: string, atStart: bool)
    ensures forall i :: 0 <= i < |WordStarts(s, atStart)| ==> WordStarts(s, atStart)[i] != ' '
    ensures |WordStarts(s, atStart)| <= |s|
  {
    if s != "" {
      WordStartsHaveNoSpace(s[1..], s[0] == ' ');
    }
  }

  /** `name.split(' ').map(n => n[0]).join('').toUpperCase().slice(0, 2)`. */
  function GetInitials(name: string): (r: string)
    ensures |r| <= 2 && IsUpperCase(r)
    ensures var starts := Upper(WordStarts(name, true));
            r == starts[..Min(2, |starts|)]
    ensures forall i :: 0 <= i < |r| ==> r[i] != ' '
  {
    var joined := Upper(FirstChars(SplitOnSpace(name)));
    FirstCharsAreWordStarts(name);
    WordStartsHaveNoSpace(name, true);
    joined[..Min(2, |joined|)]
  }

  /** Initials of a blank-free two-word name are its two first letters, upper-cased. */
  lemma InitialsOfTwoWords(first: string, last: string)
    requires first != "" && last != "" && ' ' !in first && ' ' !in last
    ensures GetInitials(first + " " + last) == [UpperChar(first[0]), UpperChar(last[0])]
  {
    WordStartsNoSpaces(first[1..]);
    WordStartsNoSpaces(last[1..]);
    var s := first + " " + last;
    assert s == first + (" " + last);
    WordStartsAppend(first, " " + last, true);
    assert AfterRead(first, true) == false by {
      assert first[|first| - 1] in first;
    }
    WordStartsAppend(" ", last, false);
    assert WordStarts(" ", false) == "";
    assert WordStarts(first, true) == [first[0]] + WordStarts(first[1..], false);
    assert WordStarts(last, true) == [last[0]] + WordStarts(last[1..], false);
    assert WordStarts(s, true) == [first[0], last[0]];
  }

  /** The start flag after reading `s`. */
  function AfterRead(s: string, atStart: bool): bool {
    if s == "" then atStart else s[|s| - 1] == ' '
  }

  lemma {:induction false} WordStartsAppend(a: string, b: string, atStart: bool)
    ensures WordStarts(a + b, atStart) == WordStarts(a, atStart) + WordStarts(b, AfterRead(a, atStart))
  {
    if a == "" {
      assert a + b == b;
    } else {
      var head := if atStart && a[0] != ' ' then [a[0]] else "";
      var next := a[0] == ' ';
      WordStartsCons(a, b, atStart);
      WordStartsAppend(a[1..], b, next);
      AfterReadTail(a, atStart);
      assert WordStarts(a, atStart) == head + WordStarts(a[1..], next);
    }
  }

  /** Reading the first character of a non-empty `a + b`. */
  lemma WordStartsCons(a: string, b: string, atStart: bool)
    requires a != ""
    ensures WordStarts(a + b, atStart) ==
              (if atStart && a[0] != ' ' then [a[0]] else "") + WordStarts(a[1..] + b, a[0] == ' ')
  {
    assert (a + b)[1..] == a[1..] + b;
  }

  lemma AfterReadTail(a: string, atStart: bool)
    requires a != ""
    ensures AfterRead(a[1..], a[0] == ' ') == AfterRead(a, atStart)
  {
    if a[1..] != "" {
      assert a[1..][|a[1..]| - 1] == a[|a| - 1];
    }
  }

  lemma {:induction false} WordStartsNoSpaces(s: string)
    requires ' ' !in s
    ensures WordStarts(s, false) == ""
  {
    if s != "" {
      WordStartsNoSpaces(s[1..]);
    }
  }

  // ---------------------------------------------------------------- email

  /** A character `[^\s@]` admits. */
  predicate PlainEmailChar(c: char) { !IsWhitespace(c) && c != '@' }

  /** `/^[^\s@]+@[^\s@]+\.[^\s@]+$/` matches with its '@' at `at` and its '\.' at `dot`. */
  ghost predicate EmailShape(s: string, at: int, dot: int) {
    0 < at && at + 1 < dot && dot + 1 < |s| && s[at] == '@' && s[dot] == '.'
    && forall k :: 0 <= k < |s| && k != at ==> PlainEmailChar(s[k])
  }

  ghost predicate MatchesEmailPattern(s: string) {
    exists at, dot :: EmailShape(s, at, dot)
  }

  /** The first index of `c` in `s`, if any. */
  function IndexOf(s: string, c: char): (r: Option<nat>)
    ensures r.None? <==> c !in s
    ensures r.Some? ==> r.value < |s| && s[r.value] == c && c !in s[..r.value]
  {
    if s == "" then None
    else if s[0] == c then Some(0)
    else
      var r := IndexOf(s[1..], c);
      if r.None? then None
      else
        assert s[..r.value + 1] == [s[0]] + s[1..][..r.value];
        Some(r.value + 1)
  }

  predicate AllPlainEmailChars(s: string) {
    forall k :: 0 <= k < |s| ==> PlainEmailChar(s[k])
  }

  /** The checks `isValidEmail` makes once the first '@' is found at `at`. */
  predicate EmailChecks(email: string, at: nat)
    requires at < |email|
  {
    at > 0
    && AllPlainEmailChars(email[..at]) && AllPlainEmailChars(email[at + 1..])
    && |email| - at - 1 >= 3 && '.' in email[at + 2..|email| - 1]
  }

  /** `isValidEmail`: one '@' after a non-empty local part, no white space, and a '.' inside the domain. */
  function IsValidEmail(email: string): (ok: bool)
    ensures ok <==> MatchesEmailPattern(email)
  {
    var at := IndexOf(email, '@');
    if at.Some? && EmailChecks(email, at.value) then
      EmailChecksSuffice(email, at.value);
      true
    else
      EmailPatternNeedsChecks(email);
      false
  }

  lemma EmailChecksSuffice(email: string, a: nat)
    requires a < |email| && email[a] == '@' && EmailChecks(email, a)
    ensures MatchesEmailPattern(email)
  {
    var mid := email[a + 2..|email| - 1];
    var k :| 0 <= k < |mid| && mid[k] == '.';
    forall j | 0 <= j < |email| && j != a ensures PlainEmailChar(email[j]) {
      if j < a {
        assert email[j] == email[..a][j];
      } else {
        assert email[j] == email[a + 1..][j - a - 1];
      }
    }
    assert EmailShape(email, a, a + 2 + k);
  }

  lemma EmailPatternNeedsChecks(email: string)
    ensures MatchesEmailPattern(email) ==>
              IndexOf(email, '@').Some? && EmailChecks(email, IndexOf(email, '@').value)
  {
    if MatchesEmailPattern(email) {
      var a, d :| EmailShape(email, a, d);
      var at := IndexOf(email, '@');
      assert email[a] == '@';
      assert at.Some? && at.value == a;
      var local, domain := email[..a], email[a + 1..];
      forall j | 0 <= j < |local| ensures PlainEmailChar(local[j]) {
        assert local[j] == email[j];
      }
      forall j | 0 <= j < |domain| ensures PlainEmailChar(domain[j]) {
        assert domain[j] == email[a + 1 + j];
      }
      assert email[d] == email[a + 2..|email| - 1][d - a - 2];
    }
  }

  // ---------------------------------------------------------------- age

  /** Calendar fields as `getFullYear`, `getMonth` and `getDate` report them. */
  datatype Date = Date(year: int, month: int, day: int)

  /** `calculateAge`'s result: '' for an empty input, NaN for an unparsable date, or whole years. */
  datatype Age = NoAge | NotANumber | Years(years: int)

  /** Calendar order on (year, month, day). */
  predicate OnOrBefore(a: Date, b: Date) {
    a.year < b.year || (a.year == b.year && (a.month < b.month || (a.month == b.month && a.day <= b.day)))
  }

  /** The `n`-th birthday (same month and day, `n` years on) is on or before `today`. */
  predicate AnniversaryReached(birth: Date, today: Date, n: int) {
    OnOrBefore(Date(birth.year + n, birth.month, birth.day), today)
  }

  /**
   * `calculateAge(dob)`: the year difference, one less when this year's birthday
   * is still ahead. That is the number of birthdays already reached.
   */
  method CalculateAge(dob: string, parse: string -> Option<Date>, today: Date) returns (age: Age)
    ensures age == NoAge <==> dob == ""
    ensures dob != "" && parse(dob).None? ==> age == NotANumber
    ensures dob != "" && parse(dob).Some? ==>
              age.Years? && AnniversaryReached(parse(dob).value, today, age.years)
              && !AnniversaryReached(parse(dob).value, today, age.years + 1)
    ensures dob != "" && parse(dob).Some? && OnOrBefore(parse(dob).value, today) ==>
              age.Years? && age.years >= 0
  {
    if dob == "" {
      return NoAge;
    }
    var parsed := parse(dob);
    if parsed.None? {
      return NotANumber;
    }
    var birth := parsed.value;
    var years := today.year - birth.year;
    var monthDiff := today.month - birth.month;
    if monthDiff < 0 || (monthDiff == 0 && today.day < birth.day) {
      years := years - 1;
    }
    age := Years(years);
  }
}
