/** The weekday resolver `get_day_of_week` of gen.py: append a year to a
    date string, parse it with `datetime.strptime(..., '%d %B %Y')`, and
    name the weekday, or answer "Unknown Day" wherever the parse raises
    `ValueError`.

    `strptime` turns the format into a regular expression and matches it
    case-insensitively from the start of the string:
      %d  ->  3[01]|[12]\d|0[1-9]|[1-9]| [1-9]
      ' ' ->  \s+
      %B  ->  the twelve month names
      %Y  ->  \d\d\d\d
    It fails when nothing matches or when characters are left after the
    match, and `datetime.date` then fails on a day the month does not have
    or on year 0.  The functions below follow those steps. */
module DayOfWeek {
  import opened Calendar

  datatype Option<T> = None | Some(value: T)

  /** The fields the pattern captured, and the index where the match ends. */
  datatype Match = Match(day: nat, month: nat, year: nat, end: nat)

  /** The `year` argument's default. */
  const DefaultYear: string := "2024"

  /** What the resolver answers for any date it cannot parse. */
  const UnknownDay: string := "Unknown Day"

  /** The characters `\s` matches in a Python `str` pattern. */
  predicate IsSpace(c: char) {
    c == ' ' || '\t' <= c <= '\r' || '\U{1C}' <= c <= '\U{1F}'
    || c == '\U{85}' || c == '\U{A0}' || c == '\U{1680}'
    || '\U{2000}' <= c <= '\U{200A}' || c == '\U{2028}' || c == '\U{2029}'
    || c == '\U{202F}' || c == '\U{205F}' || c == '\U{3000}'
  }

  predicate IsDigit(c: char) {
    '0' <= c <= '9'
  }

  predicate IsNonZeroDigit(c: char) {
    '1' <= c <= '9'
  }

  function DigitValue(c: char): (v: nat)
    requires IsDigit(c)
    ensures v <= 9
  {
    c as int - '0' as int
  }

  /** ASCII case folding, which is how the pattern's letters ignore case. */
  function LowerAscii(c: char): char {
    if 'A' <= c <= 'Z' then (c as int + 32) as char else c
  }

  /** `name` is `pat` (lower case) with any letters in either case. */
  predicate SameIgnoringCase(name: string, pat: string) {
    |name| == |pat| && forall k :: 0 <= k < |pat| ==> LowerAscii(name[k]) == pat[k]
  }

  /** The alternatives of `%B`: `strptime`'s locale table keeps the month
      names in lower case and the pattern matches them ignoring case. */
  function MonthPattern(month: nat): string
    requires 1 <= month <= 12
  {
    MonthPatterns[month - 1]
  }

  const MonthPatterns: seq<string> :=
    ["january", "february", "march", "april", "may", "june", "july",
     "august", "september", "october", "november", "december"]

  /** `pat` (lower case) matches at index `i` of `s`, ignoring case. */
  predicate MatchesAt(s: string, i: nat, pat: string) {
    i + |pat| <= |s| && forall k :: 0 <= k < |pat| ==> LowerAscii(s[i + k]) == pat[k]
  }

  /** The end of the run of `\s` characters that starts at `i`; the run is
      empty when the end is `i`. */
  function SkipSpaces(s: string, i: nat): (j: nat)
    requires i <= |s|
    ensures i <= j <= |s|
    ensures j == |s| || !IsSpace(s[j])
    decreases |s| - i
  {
    if i < |s| && IsSpace(s[i]) then SkipSpaces(s, i + 1) else i
  }

  /** Alternative `n` of `%d` at the start of `s`, as (day, end of the
      field), or `None` where it does not match. The regular expression tries
      `3[01]`, `[12]\d`, `0[1-9]`, `[1-9]` and ` [1-9]` in that order. */
  function DayAlternative(s: string, n: nat): (r: Option<(nat, nat)>)
    ensures r.Some? ==> n < 5 && 1 <= r.value.0 <= 31 && 1 <= r.value.1 <= 2 && r.value.1 <= |s|
  {
    if n == 0 then
      if |s| >= 2 && s[0] == '3' && (s[1] == '0' || s[1] == '1')
      then Some((30 + DigitValue(s[1]), 2)) else None
    else if n == 1 then
      if |s| >= 2 && (s[0] == '1' || s[0] == '2') && IsDigit(s[1])
      then Some((10 * DigitValue(s[0]) + DigitValue(s[1]), 2)) else None
    else if n == 2 then
      if |s| >= 2 && s[0] == '0' && IsNonZeroDigit(s[1])
      then Some((DigitValue(s[1]), 2)) else None
    else if n == 3 then
      if |s| >= 1 && IsNonZeroDigit(s[0])
      then Some((DigitValue(s[0]), 1)) else None
    else if n == 4 then
      if |s| >= 2 && s[0] == ' ' && IsNonZeroDigit(s[1])
      then Some((DigitValue(s[1]), 2)) else None
    else None
  }

  /** `%B` at index `i`: the first month, counting from `from`, whose name
      matches there. */
  function MonthAt(s: string, i: nat, from: nat): (r: Option<nat>)
    requires 1 <= from <= 13
    ensures r.Some? ==> from <= r.value <= 12 && i + |MonthPattern(r.value)| <= |s|
    decreases 13 - from
  {
    if from == 13 then None
    else if MatchesAt(s, i, MonthPattern(from)) then Some(from)
    else MonthAt(s, i, from + 1)
  }

  /** `%Y`: four digits at index `i`. */
  predicate FourDigitsAt(s: string, i: nat) {
    i + 4 <= |s| && IsDigit(s[i]) && IsDigit(s[i + 1]) && IsDigit(s[i + 2]) && IsDigit(s[i + 3])
  }

  function FourDigitValue(s: string, i: nat): (v: nat)
    requires FourDigitsAt(s, i)
    ensures v <= 9999
  {
    1000 * DigitValue(s[i]) + 100 * DigitValue(s[i + 1]) + 10 * DigitValue(s[i + 2]) + DigitValue(s[i + 3])
  }

  /** The rest of the pattern, `\s+%B\s+%Y`, after a day field ending at `i`. */
  function MatchAfterDay(s: string, day: nat, i: nat): Option<Match>
    requires i <= |s|
  {
    var j := SkipSpaces(s, i);
    if j == i then None else MatchMonth(s, day, j)
  }

  /** `%B\s+%Y` from index `j`. */
  function MatchMonth(s: string, day: nat, j: nat): Option<Match> {
    match MonthAt(s, j, 1)
    case None => None
    case Some(month) => MatchYear(s, day, month, j + |MonthPattern(month)|)
  }

  /** `\s+%Y` from index `k`, just after the month name. */
  function MatchYear(s: string, day: nat, month: nat, k: nat): Option<Match>
    requires k <= |s|
  {
    var l := SkipSpaces(s, k);
    if l == k || !FourDigitsAt(s, l) then None
    else Some(Match(day, month, FourDigitValue(s, l), l + 4))
  }

  /** The first day alternative, from alternative `n` on, whose
      continuation matches, as the regular expression's backtracking finds
      it. */
  function FirstMatch(s: string, n: nat): Option<Match>
    decreases 5 - n
  {
    if n >= 5 then None
    else match DayAlternative(s, n)
      case None => FirstMatch(s, n + 1)
      case Some((day, e)) =>
        var r := MatchAfterDay(s, day, e);
        if r.Some? then r else FirstMatch(s, n + 1)
  }

  /** `re.match` of the pattern that `strptime` builds for '%d %B %Y'. */
  function MatchDatePattern(s: string): Option<Match> {
    FirstMatch(s, 0)
  }

  /** `datetime.strptime(s, '%d %B %Y')` as (year, month, day); `None` where
      it raises `ValueError`. */
  function ParseDate(s: string): (r: Option<(int, int, int)>)
    ensures r.Some? ==> IsValidDate(r.value.0, r.value.1, r.value.2)
  {
    match MatchDatePattern(s)
    case None => None
    case Some(m) =>
      if m.end != |s| then None  // unconverted data remains
      else if !IsValidDate(m.year, m.month, m.day) then None
      else Some((m.year, m.month, m.day))
  }

  /** `get_day_of_week(date_str, year='2024')`. */
  function GetDayOfWeek(dateStr: string, year: string := DefaultYear): (r: string)
    ensures r == UnknownDay || r in WeekdayNames
    ensures r == UnknownDay <==> ParseDate(dateStr + " " + year).None?
  {
    match ParseDate(dateStr + " " + year)
    case None => UnknownDay
    case Some((y, m, d)) => WeekdayNames[Weekday(y, m, d)]
  }


  // ---------------------------------------------------------------------
  // The forms the pattern accepts: "<day><spaces><Month><spaces>" followed
  // by the year, where the day may carry a leading zero, each run of
  // spaces is any non-empty run of white space and the month name may be
  // written in any case.

  /** A day number written without leading zero, as in "3" or "17". */
  function DayText(day: nat): string
    requires 1 <= day <= 31
  {
    if day < 10 then [('0' as int + day) as char]
    else [('0' as int + day / 10) as char, ('0' as int + day % 10) as char]
  }

  /** A day number written with two digits, as in "03" or "17". */
  function PaddedDayText(day: nat): string
    requires 1 <= day <= 31
  {
    if day < 10 then "0" + DayText(day) else DayText(day)
  }

  /** The ways `%d` reads a day: "3" or "17", "03", and " 3" (one space
      before a single digit). */
  predicate IsDayField(d: string, day: nat) {
    1 <= day <= 31
    && (d == DayText(day) || d == PaddedDayText(day) || (day < 10 && d == " " + DayText(day)))
  }

  predicate IsSpaces(w: string) {
    forall k :: 0 <= k < |w| ==> IsSpace(w[k])
  }

  predicate IsFourDigitYear(year: string) {
    |year| == 4 && FourDigitsAt(year, 0)
  }

  /** `t` is written in `s` from index `i` on. */
  predicate OccursAt(s: string, i: nat, t: string) {
    i + |t| <= |s| && forall k :: 0 <= k < |t| ==> s[i + k] == t[k]
  }

  /** Every character of `s` from index `i` up to `j` is white space. */
  predicate SpacesBetween(s: string, i: nat, j: nat) {
    forall k :: i <= k < j && k < |s| ==> IsSpace(s[k])
  }

  /** The lower-case first three letters of each month name. */
  const MonthAbbreviations: seq<string> :=
    ["jan", "feb", "mar", "apr", "may", "jun", "jul", "aug", "sep", "oct", "nov", "dec"]

  lemma MonthPatternStart(month: nat)
    requires 1 <= month <= 12
    ensures |MonthPattern(month)| >= 3 && MonthPattern(month)[..3] == MonthAbbreviations[month - 1]
    ensures 'a' <= MonthPattern(month)[0] <= 'z'
  {
  }

  /** The table holds exactly the English month names, in lower case. */
  lemma MonthPatternIsLowerName(month: nat)
    requires 1 <= month <= 12
    ensures SameIgnoringCase(MonthNames[month - 1], MonthPattern(month))
  {
    if month <= 6 {
      FirstHalfLowerNames(month);
    } else {
      SecondHalfLowerNames(month);
    }
  }

  lemma FirstHalfLowerNames(month: nat)
    requires 1 <= month <= 6
    ensures SameIgnoringCase(MonthNames[month - 1], MonthPattern(month))
  {
    var n, p := MonthNames[month - 1], MonthPattern(month);
    forall k | 0 <= k < |p| ensures LowerAscii(n[k]) == p[k] {
      assert 0 < k ==> n[k] == p[k];
    }
  }

  lemma SecondHalfLowerNames(month: nat)
    requires 7 <= month <= 12
    ensures SameIgnoringCase(MonthNames[month - 1], MonthPattern(month))
  {
    var n, p := MonthNames[month - 1], MonthPattern(month);
    forall k | 0 <= k < |p| ensures LowerAscii(n[k]) == p[k] {
      assert 0 < k ==> n[k] == p[k];
    }
  }

  lemma MonthAbbreviationsDistinct(m1: nat, m2: nat)
    requires 1 <= m1 <= 12 && 1 <= m2 <= 12
    requires MonthAbbreviations[m1 - 1] == MonthAbbreviations[m2 - 1]
    ensures m1 == m2
  {
  }

  /** Two month names never both match at one index: their first three
      letters already differ. */
  lemma MonthNamesExclusive(s: string, i: nat, m1: nat, m2: nat)
    requires 1 <= m1 <= 12 && 1 <= m2 <= 12
    requires MatchesAt(s, i, MonthPattern(m1)) && MatchesAt(s, i, MonthPattern(m2))
    ensures m1 == m2
  {
    MonthPatternStart(m1);
    MonthPatternStart(m2);
    var p, q := MonthPattern(m1), MonthPattern(m2);
    assert LowerAscii(s[i]) == p[0] == q[0];
    assert LowerAscii(s[i + 1]) == p[1] == q[1];
    assert LowerAscii(s[i + 2]) == p[2] == q[2];
    assert p[..3] == q[..3];
    MonthAbbreviationsDistinct(m1, m2);
  }

  /** `%B` fails only where no month name matches. */
  lemma {:induction false} MonthAtFindsAny(s: string, i: nat, from: nat, month: nat)
    requires 1 <= from <= month <= 12 && MatchesAt(s, i, MonthPattern(month))
    ensures MonthAt(s, i, from).Some?
    decreases 13 - from
  {
    if from < month && !MatchesAt(s, i, MonthPattern(from)) {
      MonthAtFindsAny(s, i, from + 1, month);
    }
  }

  /** The month `%B` finds is one whose name matches. */
  lemma {:induction false} MonthAtMatches(s: string, i: nat, from: nat)
    requires 1 <= from <= 13 && MonthAt(s, i, from).Some?
    ensures MatchesAt(s, i, MonthPattern(MonthAt(s, i, from).value))
    decreases 13 - from
  {
    if !MatchesAt(s, i, MonthPattern(from)) {
      MonthAtMatches(s, i, from + 1);
    }
  }

  /** `%B` finds the month whose name is written at `i`, in any case. */
  lemma MonthAtWrittenName(s: string, i: nat, month: nat)
    requires 1 <= month <= 12 && MatchesAt(s, i, MonthPattern(month))
    ensures MonthAt(s, i, 1) == Some(month)
  {
    var found := MonthAt(s, i, 1);
    MonthAtFindsAny(s, i, 1, month);
    MonthAtMatches(s, i, 1);
    if found.value != month {
      MonthNamesExclusive(s, i, month, found.value);
    }
  }

  /** A month name written at `j` in any case matches there, and it starts
      with a letter, not with white space. */
  lemma NameMatches(s: string, j: nat, name: string, month: nat)
    requires 1 <= month <= 12 && SameIgnoringCase(name, MonthPattern(month)) && OccursAt(s, j, name)
    ensures MatchesAt(s, j, MonthPattern(month)) && j < |s| && !IsSpace(s[j])
  {
    MonthPatternStart(month);
    assert s[j] == name[0];
  }

  /** A run of white space up to a character that is none is skipped
      exactly. */
  lemma {:induction false} SkipSpacesRun(s: string, i: nat, j: nat)
    requires i <= j < |s| && SpacesBetween(s, i, j) && !IsSpace(s[j])
    ensures SkipSpaces(s, i) == j
    decreases j - i
  {
    if i < j {
      assert IsSpace(s[i]);
      SkipSpacesRun(s, i + 1, j);
    }
  }

  lemma SpacesAt(s: string, i: nat, w: string)
    requires OccursAt(s, i, w) && IsSpaces(w)
    ensures SpacesBetween(s, i, i + |w|)
  {
    forall k | i <= k < i + |w| && k < |s| ensures IsSpace(s[k]) {
      assert s[i + (k - i)] == w[k - i];
    }
  }

  /** Four digits written at `l`, and their value. */
  lemma YearAt(s: string, l: nat, year: string)
    requires OccursAt(s, l, year) && IsFourDigitYear(year)
    ensures FourDigitsAt(s, l) && FourDigitValue(s, l) == FourDigitValue(year, 0)
  {
    assert s[l] == year[0] && s[l + 1] == year[1] && s[l + 2] == year[2] && s[l + 3] == year[3];
  }

  lemma MatchYearAt(s: string, day: nat, month: nat, k: nat, l: nat)
    requires k < l && FourDigitsAt(s, l) && SkipSpaces(s, k) == l
    ensures MatchYear(s, day, month, k) == Some(Match(day, month, FourDigitValue(s, l), l + 4))
  {
  }

  lemma MatchMonthAt(s: string, day: nat, j: nat, month: nat, k: nat, r: Match)
    requires 1 <= month <= 12 && MonthAt(s, j, 1) == Some(month) && k == j + |MonthPattern(month)|
    requires MatchYear(s, day, month, k) == Some(r)
    ensures MatchMonth(s, day, j) == Some(r)
  {
    assert MatchMonth(s, day, j) == MatchYear(s, day, month, k);
  }

  lemma MatchAfterDayAt(s: string, day: nat, i: nat, j: nat, r: Match)
    requires i < j <= |s| && SkipSpaces(s, i) == j && MatchMonth(s, day, j) == Some(r)
    ensures MatchAfterDay(s, day, i) == Some(r)
  {
  }

  /** `MatchAfterDay` on white space up to `j`, the name of `month` at `j`,
      white space up to `l` and four digits at `l`. */
  lemma MatchAfterFields(s: string, day: nat, i: nat, j: nat, month: nat, l: nat)
    requires 1 <= month <= 12 && i < j
    requires MatchesAt(s, j, MonthPattern(month)) && !IsSpace(s[j]) && SpacesBetween(s, i, j)
    requires j + |MonthPattern(month)| < l && FourDigitsAt(s, l)
    requires SpacesBetween(s, j + |MonthPattern(month)|, l)
    ensures MatchAfterDay(s, day, i) == Some(Match(day, month, FourDigitValue(s, l), l + 4))
  {
    MonthThenYear(s, day, j, month, l);
    SkipSpacesRun(s, i, j);
    MatchAfterDayAt(s, day, i, j, Match(day, month, FourDigitValue(s, l), l + 4));
  }

  lemma MonthThenYear(s: string, day: nat, j: nat, month: nat, l: nat)
    requires 1 <= month <= 12 && MatchesAt(s, j, MonthPattern(month))
    requires j + |MonthPattern(month)| < l && FourDigitsAt(s, l)
    requires SpacesBetween(s, j + |MonthPattern(month)|, l)
    ensures MatchMonth(s, day, j) == Some(Match(day, month, FourDigitValue(s, l), l + 4))
  {
    var k := j + |MonthPattern(month)|;
    var r := Match(day, month, FourDigitValue(s, l), l + 4);
    assert MatchYear(s, day, month, k) == Some(r) by {
      YearAfterSpaces(s, day, month, k, l);
    }
    assert MonthAt(s, j, 1) == Some(month) by {
      MonthAtWrittenName(s, j, month);
    }
    MatchMonthAt(s, day, j, month, k, r);
  }

  /** `\s+%Y` on white space from `k` up to four digits at `l`. */
  lemma YearAfterSpaces(s: string, day: nat, month: nat, k: nat, l: nat)
    requires k < l && FourDigitsAt(s, l) && SpacesBetween(s, k, l)
    ensures MatchYear(s, day, month, k) == Some(Match(day, month, FourDigitValue(s, l), l + 4))
  {
    assert !IsSpace(s[l]);
    SkipSpacesRun(s, k, l);
    MatchYearAt(s, day, month, k, l);
  }

  /** Alternative `n` is the first `%d` alternative that matches at the
      start of `s`, reading `day` and ending at `e`. */
  predicate FirstDayField(s: string, n: nat, day: nat, e: nat) {
    DayAlternative(s, n) == Some((day, e))
    && forall k :: 0 <= k < n ==> DayAlternative(s, k).None?
  }

  /** On a day field followed by white space, the first `%d` alternative
      that matches is that whole field. */
  lemma FirstDayAlternative(s: string, d: string, day: nat) returns (n: nat)
    requires IsDayField(d, day)
    requires OccursAt(s, 0, d) && |d| < |s| && IsSpace(s[|d|])
    ensures FirstDayField(s, n, day, |d|)
  {
    assert s[0] == d[0];
    if |d| == 1 {
      n := SingleDigitDay(s, day);
    } else if d[0] == ' ' {
      assert s[1] == d[1];
      n := SpacedSingleDigitDay(s, day);
    } else if day < 10 {
      assert s[1] == d[1];
      n := PaddedSingleDigitDay(s, day);
    } else {
      assert s[1] == d[1];
      n := TwoDigitDay(s, day);
    }
  }

  lemma SingleDigitDay(s: string, day: nat) returns (n: nat)
    requires 1 <= day <= 9 && 1 < |s| && s[0] == ('0' as int + day) as char && IsSpace(s[1])
    ensures FirstDayField(s, n, day, 1)
  {
    assert !IsDigit(s[1]);
    n := 3;
  }

  lemma SpacedSingleDigitDay(s: string, day: nat) returns (n: nat)
    requires 1 <= day <= 9 && 2 < |s| && s[0] == ' ' && s[1] == ('0' as int + day) as char
    ensures FirstDayField(s, n, day, 2)
  {
    n := 4;
  }

  lemma PaddedSingleDigitDay(s: string, day: nat) returns (n: nat)
    requires 1 <= day <= 9 && 2 < |s| && s[0] == '0' && s[1] == ('0' as int + day) as char
    ensures FirstDayField(s, n, day, 2)
  {
    n := 2;
  }

  lemma TwoDigitDay(s: string, day: nat) returns (n: nat)
    requires 10 <= day <= 31 && 2 < |s|
    requires s[0] == ('0' as int + day / 10) as char && s[1] == ('0' as int + day % 10) as char
    ensures FirstDayField(s, n, day, 2)
  {
    var tens, ones := day / 10, day % 10;
    assert DigitValue(s[0]) == tens && DigitValue(s[1]) == ones;
    if tens == 3 {
      n := 0;
    } else {
      assert tens == 1 || tens == 2;
      n := 1;
    }
  }

  /** Alternatives that do not match are passed over. */
  lemma {:induction false} FirstMatchSkips(s: string, m: nat, n: nat)
    requires m <= n && forall k :: m <= k < n ==> DayAlternative(s, k).None?
    ensures FirstMatch(s, m) == FirstMatch(s, n)
    decreases n - m
  {
    if m < n {
      FirstMatchSkips(s, m + 1, n);
    }
  }

  /** The date pattern takes the first day alternative that matches when
      its continuation matches. */
  lemma MatchDatePatternAt(s: string, n: nat, day: nat, e: nat, r: Match)
    requires FirstDayField(s, n, day, e) && e <= |s| && MatchAfterDay(s, day, e) == Some(r)
    ensures MatchDatePattern(s) == Some(r)
  {
    FirstMatchSkips(s, 0, n);
  }

  /** Where the fields of "<day><spaces><month><spaces><year>" lie, with
      anything after the year: the month name at `j`, the white space after
      it from `m` to `l`, the year at `l`. */
  lemma WrittenDateLayout(s: string, d: string, w1: string, name: string, w2: string, year: string,
                          rest: string, j: nat, m: nat, l: nat)
    requires IsSpaces(w1) && IsSpaces(w2) && s == d + w1 + name + w2 + year + rest
    requires j == |d| + |w1| && m == j + |name| && l == m + |w2|
    ensures OccursAt(s, 0, d) && SpacesBetween(s, |d|, j) && OccursAt(s, j, name)
    ensures SpacesBetween(s, m, l) && OccursAt(s, l, year) && |s| == l + |year| + |rest|
  {
    forall k | |d| <= k < j ensures IsSpace(s[k]) {
      assert s[k] == w1[k - |d|];
    }
    forall k | m <= k < l ensures IsSpace(s[k]) {
      assert s[k] == w2[k - m];
    }
  }

  /** The resolver on the forms the pattern accepts: a day field, white
      space, a month name in any case, optional white space. It names the
      Gregorian weekday of that date in the given year when the date exists,
      and answers "Unknown Day" when it does not. */
  lemma GetDayOfWeekWrittenDate(d: string, day: nat, w1: string, name: string, month: nat,
                                w2: string, year: string)
    requires IsDayField(d, day)
    requires w1 != [] && IsSpaces(w1) && IsSpaces(w2)
    requires 1 <= month <= 12 && SameIgnoringCase(name, MonthPattern(month))
    requires IsFourDigitYear(year)
    ensures var y := FourDigitValue(year, 0);
      GetDayOfWeek(d + w1 + name + w2, year)
        == if IsValidDate(y, month, day) then WeekdayNames[Weekday(y, month, day)] else UnknownDay
  {
    var s := d + w1 + name + w2 + " " + year;
    assert IsSpaces(w2 + " ") by {
      assert forall k :: 0 <= k < |w2| ==> (w2 + " ")[k] == w2[k];
    }
    assert s == d + w1 + name + (w2 + " ") + year;
    ParseWrittenDate(s, d, w1, name, w2 + " ", year, day, month, FourDigitValue(year, 0));
  }

  /** On "<day><spaces><month><spaces><year>" followed by anything, the
      first `%d` alternative that matches is the day field and the rest of
      the pattern matches from its end up to the end of the year. */
  lemma WrittenDateMatch(s: string, d: string, day: nat, w1: string, name: string, month: nat,
                         w2: string, year: string, rest: string, end: nat) returns (n: nat)
    requires IsDayField(d, day)
    requires w1 != [] && IsSpaces(w1) && w2 != [] && IsSpaces(w2)
    requires 1 <= month <= 12 && SameIgnoringCase(name, MonthPattern(month))
    requires IsFourDigitYear(year) && s == d + w1 + name + w2 + year + rest
    requires end == |s| - |rest|
    ensures FirstDayField(s, n, day, |d|) && |d| <= |s|
    ensures MatchAfterDay(s, day, |d|) == Some(Match(day, month, FourDigitValue(year, 0), end))
  {
    var j := |d| + |w1|;
    var m := j + |name|;
    var l := m + |w2|;
    WrittenDateLayout(s, d, w1, name, w2, year, rest, j, m, l);
    n := MatchWrittenDate(s, d, day, j, name, month, l, year, end);
  }

  /** On a laid-out date, the first `%d` alternative is the day field and
      the rest of the pattern matches from its end up to the end of the
      year. */
  lemma MatchWrittenDate(s: string, d: string, day: nat, j: nat, name: string, month: nat, l: nat,
                         year: string, end: nat) returns (n: nat)
    requires IsDayField(d, day)
    requires 1 <= month <= 12 && SameIgnoringCase(name, MonthPattern(month))
    requires OccursAt(s, 0, d) && |d| < j && SpacesBetween(s, |d|, j)
    requires OccursAt(s, j, name) && j + |name| < l && SpacesBetween(s, j + |name|, l)
    requires OccursAt(s, l, year) && IsFourDigitYear(year) && end == l + 4
    ensures FirstDayField(s, n, day, |d|) && |d| <= |s|
    ensures MatchAfterDay(s, day, |d|) == Some(Match(day, month, FourDigitValue(year, 0), end))
  {
    MatchAfterWrittenDay(s, day, |d|, j, name, month, l, year, end);
    assert IsSpace(s[|d|]);
    n := FirstDayAlternative(s, d, day);
  }

  /** The rest of the date pattern after the day field, on white space up to
      `j`, a month name at `j`, white space up to `l` and a year at `l`. */
  lemma MatchAfterWrittenDay(s: string, day: nat, i: nat, j: nat, name: string, month: nat, l: nat,
                             year: string, end: nat)
    requires 1 <= month <= 12 && SameIgnoringCase(name, MonthPattern(month))
    requires i < j && SpacesBetween(s, i, j)
    requires OccursAt(s, j, name) && j + |name| < l && SpacesBetween(s, j + |name|, l)
    requires OccursAt(s, l, year) && IsFourDigitYear(year) && end == l + 4
    ensures MatchAfterDay(s, day, i) == Some(Match(day, month, FourDigitValue(year, 0), end))
  {
    YearAt(s, l, year);
    NameMatches(s, j, name, month);
    MatchAfterFields(s, day, i, j, month, l);
    SameMatch(MatchAfterDay(s, day, i), Match(day, month, FourDigitValue(year, 0), l + 4), end);
  }

  /** Rewrites the end of a match already known. A separate lemma, so that
      the verifier equates the two ends without expanding `MatchAfterDay`
      again. */
  lemma SameMatch(r: Option<Match>, m: Match, end: nat)
    requires r == Some(m) && m.end == end
    ensures r == Some(m.(end := end))
  {
  }

  // ---------------------------------------------------------------------
  // Exactly which strings `ParseDate` accepts.

  /** `s` is written as a day field for `day`, white space, the name of
      `month` in any case, white space and the four digits of `year`, and
      nothing after them. */
  predicate IsWrittenDate(s: string, d: string, w1: string, name: string, w2: string, digits: string,
                          day: int, month: int, year: int)
  {
    1 <= day <= 31 && IsDayField(d, day) && w1 != [] && IsSpaces(w1)
    && 1 <= month <= 12 && SameIgnoringCase(name, MonthPattern(month))
    && w2 != [] && IsSpaces(w2) && IsFourDigitYear(digits) && FourDigitValue(digits, 0) == year
    && s == d + w1 + name + w2 + digits
  }

  /** A written date parses to its own day, month and year when that date
      exists, and fails when it does not. */
  lemma ParseWrittenDate(s: string, d: string, w1: string, name: string, w2: string, digits: string,
                         day: int, month: int, year: int)
    requires IsWrittenDate(s, d, w1, name, w2, digits, day, month, year)
    ensures ParseDate(s) == if IsValidDate(year, month, day) then Some((year, month, day)) else None
  {
    assert s == d + w1 + name + w2 + digits + "";
    var n := WrittenDateMatch(s, d, day, w1, name, month, w2, digits, "", |s|);
    MatchDatePatternAt(s, n, day, |d|, Match(day, month, year, |s|));
  }

  /** Conversely, whatever `ParseDate` accepts is a written date. */
  lemma ParsedDateIsWritten(s: string, year: int, month: int, day: int)
    requires ParseDate(s) == Some((year, month, day))
    ensures exists d, w1, name, w2, digits :: IsWrittenDate(s, d, w1, name, w2, digits, day, month, year)
  {
    var r := MatchDatePattern(s).value;
    var d, w1, name, w2, digits := WholeMatchIsWritten(s, r);
  }

  /** `ParseDate` returns a date exactly for the written dates that exist. */
  lemma ParseDateIsWrittenDate(s: string, year: int, month: int, day: int)
    ensures ParseDate(s) == Some((year, month, day))
        <==> IsValidDate(year, month, day)
             && exists d, w1, name, w2, digits :: IsWrittenDate(s, d, w1, name, w2, digits, day, month, year)
  {
    if ParseDate(s) == Some((year, month, day)) {
      ParsedDateIsWritten(s, year, month, day);
    }
    if exists d, w1, name, w2, digits :: IsWrittenDate(s, d, w1, name, w2, digits, day, month, year) {
      var d, w1, name, w2, digits :| IsWrittenDate(s, d, w1, name, w2, digits, day, month, year);
      ParseWrittenDate(s, d, w1, name, w2, digits, day, month, year);
    }
  }

  /** The resolver names a weekday exactly when the date string followed by
      the year is a written date that exists; otherwise it answers
      "Unknown Day". */
  lemma ResolvesExactlyWrittenDates(dateStr: string, year: string)
    ensures GetDayOfWeek(dateStr, year) != UnknownDay
        <==> exists d, w1, name, w2, digits, day, month, y ::
               IsWrittenDate(dateStr + " " + year, d, w1, name, w2, digits, day, month, y)
               && IsValidDate(y, month, day)
  {
    var s := dateStr + " " + year;
    if ParseDate(s).Some? {
      var (y, month, day) := ParseDate(s).value;
      ParsedDateIsWritten(s, y, month, day);
      var d, w1, name, w2, digits :| IsWrittenDate(s, d, w1, name, w2, digits, day, month, y);
      assert IsWrittenDate(s, d, w1, name, w2, digits, day, month, y) && IsValidDate(y, month, day);
    }
    if exists d, w1, name, w2, digits, day, month, y ::
         IsWrittenDate(s, d, w1, name, w2, digits, day, month, y) && IsValidDate(y, month, day) {
      var d, w1, name, w2, digits, day, month, y :|
        IsWrittenDate(s, d, w1, name, w2, digits, day, month, y) && IsValidDate(y, month, day);
      ParseWrittenDate(s, d, w1, name, w2, digits, day, month, y);
    }
  }

  /** A match of the whole string cuts it into the fields of a written
      date. */
  lemma WholeMatchIsWritten(s: string, r: Match) returns (d: string, w1: string, name: string, w2: string,
                                                          digits: string)
    requires MatchDatePattern(s) == Some(r) && r.end == |s|
    ensures IsWrittenDate(s, d, w1, name, w2, digits, r.day, r.month, r.year)
  {
    var n, day, e := FirstMatchFound(s, 0);
    var j, month, k, l := MatchAfterDayParts(s, day, e);
    DayAlternativeField(s, n, day, e);
    SpacesField(s, e, j);
    NameField(s, j, month);
    SpacesField(s, k, l);
    YearField(s, l);
    SplitFive(s, e, j, k, l);
    d, w1, name, w2, digits := s[..e], s[e..j], s[j..k], s[k..l], s[l..];
  }

  /** A match captures a day from 1 to 31, a month from 1 to 12 and a year
      of at most four digits, and ends within the string. */
  lemma MatchFieldsInRange(s: string)
    requires MatchDatePattern(s).Some?
    ensures var r := MatchDatePattern(s).value;
      1 <= r.day <= 31 && 1 <= r.month <= 12 && r.year <= 9999 && r.end <= |s|
  {
    var n, day, e := FirstMatchFound(s, 0);
    var j, month, k, l := MatchAfterDayParts(s, day, e);
  }

  /** A match of the pattern comes from some day alternative and the
      continuation after it. */
  lemma {:induction false} FirstMatchFound(s: string, n: nat) returns (k: nat, day: nat, e: nat)
    requires FirstMatch(s, n).Some?
    ensures DayAlternative(s, k) == Some((day, e)) && MatchAfterDay(s, day, e) == FirstMatch(s, n)
    decreases 5 - n
  {
    match DayAlternative(s, n)
    case None =>
      k, day, e := FirstMatchFound(s, n + 1);
    case Some((d0, e0)) =>
      if MatchAfterDay(s, d0, e0).Some? {
        k, day, e := n, d0, e0;
      } else {
        k, day, e := FirstMatchFound(s, n + 1);
      }
  }

  /** What a match of `\s+%B\s+%Y` from index `i` consists of. */
  lemma MatchAfterDayParts(s: string, day: nat, i: nat) returns (j: nat, month: nat, k: nat, l: nat)
    requires i <= |s| && MatchAfterDay(s, day, i).Some?
    ensures i < j && SpacesBetween(s, i, j) && 1 <= month <= 12 && MatchesAt(s, j, MonthPattern(month))
    ensures k == j + |MonthPattern(month)| && k < l && SpacesBetween(s, k, l) && FourDigitsAt(s, l)
    ensures MatchAfterDay(s, day, i) == Some(Match(day, month, FourDigitValue(s, l), l + 4))
  {
    j := SkipSpaces(s, i);
    SkipSpacesSpans(s, i);
    assert MonthAt(s, j, 1).Some?;
    month := MonthAt(s, j, 1).value;
    MonthAtMatches(s, j, 1);
    k := j + |MonthPattern(month)|;
    assert MatchAfterDay(s, day, i) == MatchYear(s, day, month, k);
    l := SkipSpaces(s, k);
    SkipSpacesSpans(s, k);
  }

  /** `\s+` consumes only white space. */
  lemma {:induction false} SkipSpacesSpans(s: string, i: nat)
    requires i <= |s|
    ensures SpacesBetween(s, i, SkipSpaces(s, i))
    decreases |s| - i
  {
    if i < |s| && IsSpace(s[i]) {
      SkipSpacesSpans(s, i + 1);
    }
  }

  /** Every `%d` alternative reads a day field. */
  lemma DayAlternativeField(s: string, n: nat, day: nat, e: nat)
    requires DayAlternative(s, n) == Some((day, e))
    ensures IsDayField(s[..e], day)
  {
    if n == 0 {
      assert day / 10 == 3 && day % 10 == DigitValue(s[1]);
      assert s[..e] == [s[0], s[1]];
    } else if n == 1 {
      assert day / 10 == DigitValue(s[0]) && day % 10 == DigitValue(s[1]);
      assert s[..e] == [s[0], s[1]];
    } else if n == 2 {
      assert s[..e] == "0" + [s[1]];
    } else if n == 3 {
      assert s[..e] == [s[0]];
    } else {
      assert s[..e] == " " + [s[1]];
    }
  }

  lemma SpacesField(s: string, i: nat, j: nat)
    requires i <= j <= |s| && SpacesBetween(s, i, j)
    ensures IsSpaces(s[i..j])
  {
    forall k | 0 <= k < j - i ensures IsSpace(s[i..j][k]) {
      assert s[i..j][k] == s[i + k];
    }
  }

  lemma NameField(s: string, j: nat, month: nat)
    requires 1 <= month <= 12 && MatchesAt(s, j, MonthPattern(month))
    ensures SameIgnoringCase(s[j..j + |MonthPattern(month)|], MonthPattern(month))
  {
    var p := MonthPattern(month);
    forall k | 0 <= k < |p| ensures LowerAscii(s[j..j + |p|][k]) == p[k] {
      assert s[j..j + |p|][k] == s[j + k];
    }
  }

  lemma YearField(s: string, l: nat)
    requires FourDigitsAt(s, l) && l + 4 == |s|
    ensures IsFourDigitYear(s[l..]) && FourDigitValue(s[l..], 0) == FourDigitValue(s, l)
  {
    assert s[l..][0] == s[l] && s[l..][1] == s[l + 1] && s[l..][2] == s[l + 2] && s[l..][3] == s[l + 3];
  }

  lemma SplitFive(s: string, e: nat, j: nat, k: nat, l: nat)
    requires e <= j <= k <= l <= |s|
    ensures s == s[..e] + s[e..j] + s[j..k] + s[k..l] + s[l..]
  {
    assert s[..j] == s[..e] + s[e..j];
    assert s[..k] == s[..j] + s[j..k];
    assert s[..l] == s[..k] + s[k..l];
    assert s == s[..l] + s[l..];
  }

  /** A match, through the first day alternative, that stops short of the
      end leaves unconverted data: the resolver answers "Unknown Day". */
  lemma ResolvePartialMatch(dateStr: string, year: string, n: nat, day: nat, e: nat, r: Match)
    requires var s := dateStr + " " + year;
      FirstDayField(s, n, day, e) && e <= |s|
      && MatchAfterDay(s, day, e) == Some(r) && r.end != |s|
    ensures GetDayOfWeek(dateStr, year) == UnknownDay
  {
    MatchDatePatternAt(dateStr + " " + year, n, day, e, r);
  }

  /** The canonical form "<day> <Month>", e.g. "3 June". */
  lemma GetDayOfWeekCanonical(day: nat, month: nat, year: string)
    requires 1 <= day <= 31 && 1 <= month <= 12 && IsFourDigitYear(year)
    ensures var y := FourDigitValue(year, 0);
      GetDayOfWeek(DayText(day) + " " + MonthNames[month - 1], year)
        == if IsValidDate(y, month, day) then WeekdayNames[Weekday(y, month, day)] else UnknownDay
  {
    MonthPatternIsLowerName(month);
    GetDayOfWeekWrittenDate(DayText(day), day, " ", MonthNames[month - 1], month, "", year);
    assert DayText(day) + " " + MonthNames[month - 1] + "" == DayText(day) + " " + MonthNames[month - 1];
  }

  /** Text after the year is "unconverted data" and makes the parse fail,
      so a date that already carries a year resolves to the placeholder. */
  lemma DateWithYearIsUnknown(day: nat, month: nat, y1: string, year: string)
    requires 1 <= day <= 31 && 1 <= month <= 12 && IsFourDigitYear(y1)
    ensures GetDayOfWeek(DayText(day) + " " + MonthNames[month - 1] + " " + y1, year) == UnknownDay
  {
    MonthPatternIsLowerName(month);
    var name := MonthNames[month - 1];
    WrittenDateWithYear(DayText(day) + " " + name + " " + y1, day, name, month, y1, year);
  }

  lemma WrittenDateWithYear(text: string, day: nat, name: string, month: nat, y1: string, year: string)
    requires 1 <= day <= 31 && 1 <= month <= 12 && SameIgnoringCase(name, MonthPattern(month))
    requires IsFourDigitYear(y1) && text == DayText(day) + " " + name + " " + y1
    ensures GetDayOfWeek(text, year) == UnknownDay
  {
    var s := text + " " + year;
    assert s == DayText(day) + " " + name + " " + y1 + (" " + year);
    var n := WrittenDateMatch(s, DayText(day), day, " ", name, month, " ", y1, " " + year, |text|);
    ResolvePartialMatch(text, year, n, day, |DayText(day)|,
                        Match(day, month, FourDigitValue(y1, 0), |text|));
  }

  /** A string that starts with neither a digit nor a space has no day
      field. */
  lemma NoDayFieldIsUnknown(dateStr: string, year: string)
    requires dateStr != [] && !IsDigit(dateStr[0]) && dateStr[0] != ' '
    ensures GetDayOfWeek(dateStr, year) == UnknownDay
  {
    var s := dateStr + " " + year;
    assert s[0] == dateStr[0];
    FirstMatchSkips(s, 0, 5);
  }

  /** Two leading digits above 31 are no day: the pattern takes the first
      digit alone and then finds a digit where it needs white space. */
  lemma DayAbove31IsUnknown(dateStr: string, year: string)
    requires |dateStr| >= 2 && IsDigit(dateStr[0]) && IsDigit(dateStr[1])
    requires 10 * DigitValue(dateStr[0]) + DigitValue(dateStr[1]) > 31
    ensures GetDayOfWeek(dateStr, year) == UnknownDay
  {
    var s := dateStr + " " + year;
    assert s[0] == dateStr[0] && s[1] == dateStr[1];
    assert DayAlternative(s, 3) == Some((DigitValue(s[0]), 1));
    assert SkipSpaces(s, 1) == 1;
    assert FirstMatch(s, 4) == None;
    assert FirstMatch(s, 3) == None;
    FirstMatchSkips(s, 0, 3);
  }

  /** An empty date string leaves only " <year>", which is no date. */
  lemma EmptyDateIsUnknown(year: string)
    requires IsFourDigitYear(year)
    ensures GetDayOfWeek("", year) == UnknownDay
  {
    var s := "" + " " + year;
    assert s[1] == year[0] && s[2] == year[1];
    assert SkipSpaces(s, 2) == 2;
    assert FirstMatch(s, 4) == None;
    FirstMatchSkips(s, 0, 4);
  }

  // ---------------------------------------------------------------------
  // Dates with the default year 2024.

  lemma DefaultYearIsFourDigits()
    ensures IsFourDigitYear(DefaultYear) && FourDigitValue(DefaultYear, 0) == 2024
  {
  }

  /** `GetDayOfWeekWrittenDate` for a given text and the default year. */
  lemma WrittenDateIn2024(text: string, d: string, day: nat, w1: string, name: string, month: nat,
                          w2: string)
    requires IsDayField(d, day)
    requires w1 != [] && IsSpaces(w1) && IsSpaces(w2)
    requires 1 <= month <= 12 && SameIgnoringCase(name, MonthPattern(month))
    requires text == d + w1 + name + w2
    ensures GetDayOfWeek(text)
        == if IsValidDate(2024, month, day) then WeekdayNames[Weekday(2024, month, day)] else UnknownDay
  {
    DefaultYearIsFourDigits();
    GetDayOfWeekWrittenDate(d, day, w1, name, month, w2, DefaultYear);
  }

  /** `GetDayOfWeekCanonical` for a given text and the default year. */
  lemma CanonicalDateIn2024(text: string, day: nat, month: nat)
    requires 1 <= day <= 31 && 1 <= month <= 12
    requires text == DayText(day) + " " + MonthNames[month - 1]
    ensures GetDayOfWeek(text)
        == if IsValidDate(2024, month, day) then WeekdayNames[Weekday(2024, month, day)] else UnknownDay
  {
    DefaultYearIsFourDigits();
    GetDayOfWeekCanonical(day, month, DefaultYear);
  }

  lemma JuneThirdIsMonday()
    ensures GetDayOfWeek("3 June") == "Monday"
  {
    Weekdays2024();
    CanonicalDateIn2024("3 June", 3, 6);
  }

  lemma JuneTenthIsMonday()
    ensures GetDayOfWeek("10 June") == "Monday"
  {
    Weekdays2024();
    CanonicalDateIn2024("10 June", 10, 6);
  }

  /** 2024 is a leap year, so "29 February" exists. */
  lemma LeapDayIsThursday()
    ensures GetDayOfWeek("29 February") == "Thursday"
  {
    Weekdays2024();
    CanonicalDateIn2024("29 February", 29, 2);
  }

  /** Days the month does not have resolve to the placeholder. */
  lemma ThirtiethOfFebruaryIsUnknown()
    ensures GetDayOfWeek("30 February") == UnknownDay
  {
    CanonicalDateIn2024("30 February", 30, 2);
  }

  lemma ThirtyFirstOfFebruaryIsUnknown()
    ensures GetDayOfWeek("31 February") == UnknownDay
  {
    CanonicalDateIn2024("31 February", 31, 2);
  }

  lemma ThirtyFirstOfJuneIsUnknown()
    ensures GetDayOfWeek("31 June") == UnknownDay
  {
    CanonicalDateIn2024("31 June", 31, 6);
  }

  /** Strings that are no date, or carry a year of their own, resolve to the
      placeholder. */
  lemma NonDatesAreUnknown()
    ensures GetDayOfWeek("not a date") == UnknownDay
    ensures GetDayOfWeek("") == UnknownDay
    ensures GetDayOfWeek("32 June") == UnknownDay
  {
    NoDayFieldIsUnknown("not a date", DefaultYear);
    DefaultYearIsFourDigits();
    EmptyDateIsUnknown(DefaultYear);
    DayAbove31IsUnknown("32 June", DefaultYear);
  }

  lemma DateWithOwnYearIsUnknown()
    ensures GetDayOfWeek("3 June 2023") == UnknownDay
  {
    DatedTextIsUnknown("3 June 2023");
  }

  /** `DateWithYearIsUnknown` for "3 June 2023". The text is a parameter so
      that the verifier equates it with the literal once, rather than
      expanding the parser on the literal. */
  lemma DatedTextIsUnknown(text: string)
    requires text == DayText(3) + " " + MonthNames[5] + " " + "2023"
    ensures GetDayOfWeek(text) == UnknownDay
  {
    DateWithYearIsUnknown(3, 6, "2023", DefaultYear);
  }

  /** A leading zero and a month name in lower case are accepted. */
  lemma LeadingZeroAndLowerCaseResolve()
    ensures GetDayOfWeek("03 june") == "Monday"
  {
    Weekdays2024();
    WrittenDateIn2024("03 june", PaddedDayText(3), 3, " ", "june", 6, "");
  }

  /** A tab separates the fields as a space does, and a month name in
      capitals is accepted. */
  lemma TabAndUpperCaseResolve()
    ensures GetDayOfWeek("3\tJUNE") == "Monday"
  {
    Weekdays2024();
    WrittenDateIn2024("3\tJUNE", DayText(3), 3, "\t", "JUNE", 6, "");
  }

  /** A single space may stand before a one-digit day. */
  lemma SpaceBeforeDayResolves()
    ensures GetDayOfWeek(" 3 June") == "Monday"
  {
    Weekdays2024();
    WrittenDateIn2024(" 3 June", " " + DayText(3), 3, " ", "June", 6, "");
  }

  /** Runs of spaces separate the fields as one space does, and trailing
      white space is absorbed by the separator before the year. */
  lemma RunsOfSpacesResolve()
    ensures GetDayOfWeek("10   June ") == "Monday"
  {
    Weekdays2024();
    WrittenDateIn2024("10   June ", DayText(10), 10, "   ", "June", 6, " ");
  }
}
