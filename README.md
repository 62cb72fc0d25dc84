# Day cards from an events table — a Dafny model of `gen.py`

`gen.py` turns a table of dated events into one portrait "story" card per
day and stitches the cards into a video. This project models the part of
that script that is deterministic logic, and proves what it guarantees:

- **Day grouping** (`create_day_images`, first loop): events are grouped by
  their raw `Date` string into an insertion-ordered dictionary. Each bucket
  lists that day's events in input order.
- **Weekday resolver** (`get_day_of_week`): the year (default `"2024"`) is
  appended to the date string. The result is parsed as `datetime.strptime`
  does with the format `'%d %B %Y'`, and the Gregorian weekday is named. The
  resolver answers `"Unknown Day"` wherever the parse raises `ValueError`.
- **Card layout and naming** (`create_day_images`, second loop): each card
  holds a title `"<weekday>'s Events:"` and a date line `"Date: <date>"`,
  then one line `"<bullet> <title> - <time>"` per event. The event lines sit
  at x = 30, y = 380 + 70·i. Each card is saved as `"<date>_events.png"`, and
  the list of paths is returned in day order.

Drawing is modelled as a list of draw commands (text and position), not as
pixels.

Files and modules:

| file | module | what it holds |
|---|---|---|
| `calendar.dfy` | `Calendar` | leap years, month lengths, date validity as `datetime.date` checks it, CPython's ordinal and weekday formulas, reference day counts by summation |
| `day_of_week.dfy` | `DayOfWeek` | the regular expression `strptime` builds for `'%d %B %Y'`, `ParseDate`, `GetDayOfWeek`, lemmas about the forms it accepts and concrete dates |
| `grouping.dfy` | `DayGrouping` | the `Event` record, the grouping loop `GroupByDate` as a method, its specification functions and the partition/order lemmas |
| `day_cards.dfy` | `DayCards` | the draw commands, `RenderDayCard` and `CreateDayImages` as methods, the layout and path lemmas |

How the Python constructs map to Dafny:

- **The dictionary.** The `days` dictionary becomes a key list, in insertion
  order, plus a `map` from key to bucket. `GroupByDate` reassigns both in its
  loop, as `days[date] = []` and `.append` update the dictionary.
- **The running `y`.** The running `y` of the event loop is a loop variable of
  `RenderDayCard`.
- **The returned list.** `generated_images` is the `paths` out-parameter of
  `CreateDayImages`, which appends to it once per day.
- **The resolver.** `get_day_of_week` has no loop, so it is a pure, total
  function.

How much of `strptime` the parser covers:

- The leniency of `strptime` is modelled, not just the canonical form:
  - `%d` accepts `3[01]|[12]\d|0[1-9]|[1-9]| [1-9]`, tried in that order with backtracking;
  - each space of the format accepts any non-empty run of white space (`\s+`);
  - `%B` accepts the English month names in any letter case;
  - `%Y` accepts exactly four digits.
- Letter case is folded for ASCII letters only. Python's `re.IGNORECASE` also lets a few non-ASCII letters (the long s, the dotted capital I) match month-name letters. `strptime` then fails to find the name in its month table and raises `ValueError`. The day field fixes where the month name must start, so both Python and the model answer "Unknown Day" on such input.
- Text left over after the year makes the parse fail ("unconverted data").
- A day the month does not have, and year 0, make `datetime.date` fail.

## Model

| member | source | states |
|---|---|---|
| `DayGrouping.GroupByDate` | gen.py:27-33 | the loop yields the keys in first-occurrence order (`DistinctDates`), the map has exactly those keys, and each key's bucket is `Bucket(events, key)`, the events of that date in input order |
| `DayGrouping.DistinctDatesMembership` | gen.py:29-32 | a date is a key if and only if some input event carries it |
| `DayGrouping.UnseenDateHasEmptyBucket` | gen.py:31-32 | a date not yet among the keys has no events so far, so `days[date] = []` loses nothing |
| `DayGrouping.DistinctDatesHaveNoDuplicates` | gen.py:31-32 | a key is created only once: the keys are pairwise distinct |
| `DayGrouping.KeyCountIsDateCount` | gen.py:31-35 | the number of buckets equals the number of distinct `Date` values |
| `DayGrouping.KeysInFirstOccurrenceOrder` | gen.py:29-32 | if key i comes before key j, the first event dated key j is preceded by an event dated key i |
| `DayGrouping.BucketHoldsItsDate` | gen.py:30-33 | every event in a bucket carries exactly that bucket's date string |
| `DayGrouping.BucketCounts` | gen.py:29-33 | a bucket holds each event of its date exactly as often as the input does, and no other event |
| `DayGrouping.EventInItsOwnBucket` | gen.py:29-33 | every input event's date is a key, the event is in that key's bucket, and it is in no other bucket |
| `DayGrouping.ConcatenationCounts` | gen.py:29-35 | the buckets of distinct keys, concatenated, hold each event whose date is among them as often as the input does |
| `DayGrouping.BucketsArePermutation` | gen.py:29-35 | concatenating all buckets in key order is a permutation of the input |
| `DayGrouping.BucketIsStable` | gen.py:33 | a bucket is the subsequence of the input at the strictly increasing positions that carry its date, so relative order is kept |
| `DayGrouping.RepeatedFirstDate` | gen.py:29-35 | dates d1, d2, d1 give keys [d1, d2] with buckets [e1, e3] and [e2] |
| `DayGrouping.ThreeEventExample` | gen.py:29-35 | "3 June", "5 June", "3 June" give keys ["3 June", "5 June"], with two events in the first bucket and one in the second |
| `Calendar.DaysInMonth` | gen.py:20 | every month has 28 to 31 days, and February has 29 exactly in leap years |
| `Calendar.IsLeapYear` | gen.py:20 | the Gregorian rule `datetime` applies: divisible by 4, and not by 100 unless by 400 (a predicate; `DaysInMonth` and `DaysBeforeYearStep` state what depends on it) |
| `Calendar.IsValidDate` | gen.py:20 | the triples `datetime.date` accepts: year 1 to 9999, month 1 to 12, day 1 to the month's length (a predicate; `ParseDate` guarantees it of every result) |
| `Calendar.DaysBeforeYear` | gen.py:21 | CPython's closed-form count of the days before a year; `DaysBeforeYearIsSum` proves it equals the sum of the earlier years' lengths |
| `Calendar.DaysBeforeMonth` | gen.py:21 | CPython's table of the days before a month, plus one after February in a leap year; `DaysBeforeMonthIsSum` proves it equals the sum of the earlier months' lengths |
| `Calendar.Ordinal` | gen.py:21 | the proleptic Gregorian ordinal, 1 January of year 1 being day 1; `NextDateOrdinal` proves that consecutive days have consecutive ordinals |
| `Calendar.Weekday` | gen.py:21 | the weekday index of a valid date lies in 0..6 |
| `Calendar.DaysBeforeYearStep` | gen.py:21 | CPython's closed-form day count grows by exactly the year's length from one year to the next |
| `Calendar.DaysBeforeYearIsSum` | gen.py:21 | the closed-form count of days before a year equals the sum of the lengths of all earlier years |
| `Calendar.DaysBeforeMonthIsSum` | gen.py:21 | the month-offset table equals the sum of the lengths of the earlier months |
| `Calendar.NextDateOrdinal` | gen.py:21 | the next calendar day is valid and its ordinal is one more |
| `Calendar.NextDateAdvancesWeekday` | gen.py:21 | the next calendar day has the next weekday, Sunday wrapping to Monday |
| `Calendar.Weekdays2024` | gen.py:16 | 2024 is a leap year; 3 June and 10 June 2024 are Mondays and 29 February 2024 is a Thursday |
| `DayOfWeek.ParseDate` | gen.py:19-20 | a successful parse yields a date that `datetime.date` accepts; `ParseDateIsWrittenDate` states exactly which strings parse, and to what |
| `DayOfWeek.ParseWrittenDate` | gen.py:20 | a day field (including "03" and " 3"), white space, a month name in any case, white space and four digits, with nothing after them, parse to that day, month and year when the date exists, and fail otherwise |
| `DayOfWeek.ParsedDateIsWritten` | gen.py:20 | conversely, every string that parses to (y, m, d) has exactly that form, with d, m and y spelled in it |
| `DayOfWeek.ParseDateIsWrittenDate` | gen.py:20 | both directions together: `ParseDate(s)` is (y, m, d) if and only if the date exists and `s` is a written form of it |
| `DayOfWeek.ResolvesExactlyWrittenDates` | gen.py:16-23 | the resolver names a weekday if and only if the date string followed by " " and the year is a written date that exists; otherwise it answers "Unknown Day" |
| `DayOfWeek.WholeMatchIsWritten` | gen.py:20 | a match of the pattern that covers the whole string cuts it into the day field, white space, month name, white space and year |
| `DayOfWeek.MatchDatePattern` | gen.py:20 | `re.match` of the pattern `strptime` builds for '%d %B %Y' (no contract of its own; `MatchFieldsInRange`, `MatchDatePatternAt` and `WholeMatchIsWritten` state its properties) |
| `DayOfWeek.MatchFieldsInRange` | gen.py:20 | a match captures a day 1..31, a month 1..12 and a year of at most four digits, and ends inside the string |
| `DayOfWeek.FirstMatch` | gen.py:20 | the regular expression's backtracking over the `%d` alternatives, in their order (no contract of its own; `FirstMatchSkips` and `FirstMatchFound` state its properties) |
| `DayOfWeek.FirstMatchFound` | gen.py:20 | every match comes from some `%d` alternative followed by a match of the rest of the pattern |
| `DayOfWeek.MatchAfterDayParts` | gen.py:20 | a match of `\s+%B\s+%Y` is a non-empty run of white space, a month name, a non-empty run of white space and four digits, in that order |
| `DayOfWeek.DayAlternativeField` | gen.py:20 | what a `%d` alternative reads is a day written as "3", "17", "03" or " 3" |
| `DayOfWeek.MonthAt` | gen.py:20 | `%B`: a month found at an index is one of the twelve, and its name fits inside the string |
| `DayOfWeek.MatchYear` | gen.py:20 | `\s+%Y`: white space, then four digits (no contract of its own; `MatchAfterDayParts` and `YearAfterSpaces` state its properties) |
| `DayOfWeek.YearAfterSpaces` | gen.py:20 | on white space followed by four digits, `\s+%Y` matches and reads the year from those digits |
| `DayOfWeek.SkipSpaces` | gen.py:20 | the end of a `\s` run stays within the string and is not itself white space |
| `DayOfWeek.SkipSpacesSpans` | gen.py:20 | everything a `\s` run consumes is white space |
| `DayOfWeek.IsSpace` | gen.py:20 | the characters `\s` matches in a Python `str` pattern (a predicate; `SkipSpacesRun` and `SkipSpacesSpans` state what the runs built from it consume) |
| `DayOfWeek.GetDayOfWeek` | gen.py:16-23 | total: the result is "Unknown Day" or one of the seven weekday names, and it is "Unknown Day" exactly when the parse fails |
| `DayOfWeek.DayAlternative` | gen.py:20 | each of the five `%d` alternatives that matches reads a day from 1 to 31 from a field of one or two characters inside the string |
| `DayOfWeek.FirstMatchSkips` | gen.py:20 | backtracking passes over `%d` alternatives that do not match, so the pattern's result is that of the first one that does |
| `DayOfWeek.MatchDatePatternAt` | gen.py:20 | when the first matching `%d` alternative's continuation matches, that match is the pattern's result |
| `DayOfWeek.MonthPatternIsLowerName` | gen.py:20 | the `%B` alternatives are exactly the English month names, ignoring case |
| `DayOfWeek.MonthNamesExclusive` | gen.py:20 | at most one month name matches at any position |
| `DayOfWeek.MonthAtWrittenName` | gen.py:20 | `%B` finds the month whose name is written there, in any letter case |
| `DayOfWeek.SkipSpacesRun` | gen.py:20 | `\s+` consumes exactly the run of white space up to the next non-space character |
| `DayOfWeek.FirstDayAlternative` | gen.py:20 | on a day written as "3", "03" or " 3" (or "17") and followed by white space, the first `%d` alternative that matches is the whole field |
| `DayOfWeek.GetDayOfWeekWrittenDate` | gen.py:16-23 | for any day field ("3", "03", " 3", "17"), any white-space runs, a month name in any case and a four-digit year: the result is the Gregorian weekday if the date exists, otherwise "Unknown Day" |
| `DayOfWeek.GetDayOfWeekCanonical` | gen.py:19-21 | the same for the canonical form "<d> <Month>" |
| `DayOfWeek.DateWithYearIsUnknown` | gen.py:19-23 | a date string that already carries a year leaves unconverted data, so the answer is "Unknown Day" |
| `DayOfWeek.WrittenDateWithYear` | gen.py:19-23 | the same for a month name written in any letter case |
| `DayOfWeek.NoDayFieldIsUnknown` | gen.py:20-23 | a string starting with neither a digit nor a space gives "Unknown Day" |
| `DayOfWeek.DayAbove31IsUnknown` | gen.py:20-23 | two leading digits above 31 give "Unknown Day" |
| `DayOfWeek.EmptyDateIsUnknown` | gen.py:19-23 | the empty date string gives "Unknown Day" |
| `DayOfWeek.CanonicalDateIn2024` | gen.py:16-21 | with the default year, "<d> <Month>" resolves to the weekday of that date in 2024, or "Unknown Day" if 2024 has no such date |
| `DayOfWeek.JuneThirdIsMonday` | gen.py:16-21 | "3 June" gives "Monday" |
| `DayOfWeek.JuneTenthIsMonday` | gen.py:16-21 | "10 June" gives "Monday" |
| `DayOfWeek.LeapDayIsThursday` | gen.py:16-21 | "29 February" is valid in 2024 and gives "Thursday" |
| `DayOfWeek.ThirtiethOfFebruaryIsUnknown` | gen.py:16-23 | "30 February" gives "Unknown Day" |
| `DayOfWeek.ThirtyFirstOfFebruaryIsUnknown` | gen.py:16-23 | "31 February" gives "Unknown Day" |
| `DayOfWeek.ThirtyFirstOfJuneIsUnknown` | gen.py:16-23 | "31 June" gives "Unknown Day" |
| `DayOfWeek.NonDatesAreUnknown` | gen.py:16-23 | "not a date", the empty string and "32 June" give "Unknown Day" |
| `DayOfWeek.DateWithOwnYearIsUnknown` | gen.py:19-23 | "3 June 2023" gives "Unknown Day" |
| `DayOfWeek.LeadingZeroAndLowerCaseResolve` | gen.py:16-21 | "03 june" gives "Monday" |
| `DayOfWeek.TabAndUpperCaseResolve` | gen.py:16-21 | "3\tJUNE" gives "Monday" |
| `DayOfWeek.RunsOfSpacesResolve` | gen.py:16-21 | "10   June " gives "Monday" |
| `DayOfWeek.SpaceBeforeDayResolves` | gen.py:16-21 | " 3 June", with one space before a one-digit day, gives "Monday" |
| `DayCards.CenteredX` | gen.py:56 | the centred left edge leaves equal margins on both sides of a text of the given width |
| `DayCards.TitleText` | gen.py:53 | the title, the weekday followed by "'s Events:" (no contract of its own; `CardTitle` and `WeekdayIsNotUnknown` state its properties) |
| `DayCards.DateLine` | gen.py:61 | "Date: " followed by the raw date string (no contract of its own; `CardSize` states where it is drawn) |
| `DayCards.EventLine` | gen.py:71 | the bullet, a space, the event title, " - " and the time (no contract of its own; `EventLinesAreEvenlySpaced` states which line shows it) |
| `DayCards.EventY` | gen.py:68-73 | the running `y` after k events, 380 + 70 k (no contract of its own; `EventLinesOnCanvas` and `RenderDayCard` state its properties) |
| `DayCards.ImagePath` | gen.py:76 | `date + "_events.png"` (no contract of its own; `ImagePathIsInjective` states its property) |
| `DayCards.EventLines` | gen.py:68-73 | the event lines of one card, the k-th at (30, 380 + 70 k) (no contract of its own; `RenderDayCard` is proved to draw them) |
| `DayCards.DayCard` | gen.py:49-73 | everything drawn on the card for a date: title, date line, event lines (no contract of its own; `CardSize`, `CardTitle` and `EventLinesAreEvenlySpaced` state its shape) |
| `DayCards.RenderDayCard` | gen.py:49-73 | the loop with the running `y` draws exactly `DayCard(date, events)`: title, date line, then event line i at (30, 380 + 70 i) |
| `DayCards.CreateDayImages` | gen.py:26-80 | returns one card per key, in key order, each saved under `date + "_events.png"` with the drawing of that date's bucket, plus the list of those paths |
| `DayCards.TitleIsUnknownExactlyWhenUnparsed` | gen.py:49-57 | the title is the first command, centred at y = 180, and reads "Unknown Day's Events:" exactly when the date, with the default year, does not parse |
| `DayCards.TitleNamesTheWeekday` | gen.py:49-53 | when the date parses, the title is the weekday name of that date followed by "'s Events:" |
| `DayCards.WeekdayIsNotUnknown` | gen.py:53 | no weekday title reads "Unknown Day's Events:" |
| `DayCards.CardTitle` | gen.py:49-57 | the first command is the title, centred at y = 180, reading the resolved weekday followed by "'s Events:" |
| `DayCards.MondayCardTitle` | gen.py:49-53 | a date that resolves to Monday gets the title "Monday's Events:" |
| `DayCards.JuneThirdCardTitle` | gen.py:49-53 | the card for "3 June" is titled "Monday's Events:" |
| `DayCards.EventLinesAreEvenlySpaced` | gen.py:61-73 | a card has 2 + n commands: the date line "Date: " + date, then event line k with text bullet + " " + title + " - " + time at (30, 380 + 70 k), each 70 below the previous |
| `DayCards.EventLinesOnCanvas` | gen.py:68-73 | every event line lies below the date line (y = 250), and line k starts inside the 1920-pixel-high canvas exactly when k < 22 |
| `DayCards.ImagePathIsInjective` | gen.py:76 | distinct dates give distinct file names |
| `DayCards.ImagePathsAreDistinct` | gen.py:76-80 | the path list has one entry per key (as many as distinct dates), entry k is key k + "_events.png", and no two entries are equal |
| `DayCards.EveryEventIsDrawn` | gen.py:29-80 | every input event is drawn as a line on the card saved under its own date's path |
| `DayCards.RepeatedFirstDateCards` | gen.py:29-80 | dates d1, d2, d1 give two cards: d1's draws the first and third events, d2's the middle one |
| `DayCards.RepeatedFirstDatePaths` | gen.py:76-80 | dates d1, d2, d1 give the paths [d1 + "_events.png", d2 + "_events.png"] |
| `DayCards.RepeatedFirstDateSizes` | gen.py:68-80 | dates d1, d2, d1 give two cards, with four and three commands |
| `DayCards.TwoDayScenario` | gen.py:26-80 | two events on "3 June" and one on "10 June" give exactly "3 June_events.png" and "10 June_events.png", with two and one event lines |
| `DayCards.CardSize` | gen.py:53-73 | a card draws two heading lines and one line per event: first the title centred at y = 180, then "Date: " + date centred at y = 250 |

## Left out

- `read_events_from_csv` (gen.py:7-13) is file I/O through `csv.DictReader`. The model takes the event sequence as input.
- Event records carry only the `Date`, `Event title` and `Time` columns the cards use. Other columns, and the `KeyError` a missing column would raise, are not modelled.
- The PIL calls are foreign library calls and file output, and are not modelled:
  - canvas allocation, loading `background.png` and alpha compositing;
  - font loading;
  - `textbbox` measurement and pixel drawing;
  - `image.save`.
- Saving is represented only by the path a card gets, so overwriting an existing file is not modelled.
- `DayCards.CreateDayImages`: the model assumes every `image.save` succeeds and returns every path. In gen.py:77 a date key that contains '/' (such as "06/03") names a file in a directory that need not exist. The save then raises and `create_day_images` returns nothing.
- Horizontal centring depends on a width the font measures. Title and date positions are therefore recorded as "centred at y". `CenteredX` states the centring for a given width, in exact arithmetic rather than floating point.
- Colours and font sizes are constants with no logic.
- `create_video` (gen.py:83-86) is moviepy encoding and file output.
- The `__main__` block and its `print` (gen.py:88-95) are orchestration and console output.
- `Bullet` is the three characters that gen.py:71 spells. They are what a UTF-8 "•" becomes when it is read as Windows-1252. No property depends on its value.
- `DayOfWeek.GetDayOfWeek`: `\d` in `%d` and `%Y` is ASCII digits only. Python also accepts other Unicode decimal digits there.
- `DayOfWeek.GetDayOfWeek`: the month names are the English/C-locale ones. Other locales are not modelled.
- `DayOfWeek.GetDayOfWeek`: the `year` argument is taken as a string. The f-string in the source would format any value.

The canonical form of a date is "<d> <Month>", as in "3 June". The
`strptime` call at gen.py:20 accepts more, and the model follows it:

- a zero-padded day ("03"), or a single space before a one-digit day (" 3");
- a month name in any letter case;
- any non-empty run of white space between the fields;
- trailing white space after the month, which the separator before the
  year absorbs.

`ParseDateIsWrittenDate` states exactly which strings parse, and
`GetDayOfWeekWrittenDate` gives the weekday for each of these forms.
