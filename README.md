# Titans fixtures: calendar ingestion and month grid

This project models the part of the Titans fixtures site that turns the team's public Google
Calendar into fixture records, and the part that lays those fixtures out on a month grid, and it
proves properties of both.

**Ingestion** (`services/fixtureService.ts`). `getFixtures` asks four CORS relays for the
calendar's `.ics` file, one after another. It unwraps the JSON envelope of the relay that gives
one, and decodes a base 64 `data:` URI when the body is one. It rejects bodies that are too short
and HTML error pages. It parses the first acceptable calendar and returns its fixtures sorted by
date.

The parser works in three steps:

- `parseICS` splits the text into lines.
- `unfoldLines` joins folded continuation lines back on.
- A loop collects each `VEVENT`'s properties.

`parseIcsDate` reads an event's `DTSTART`, and `mapEventToFixture` classifies the event by a
cascade of string tests. The cascade decides:

- home or away, the opponent and the team name;
- the score and the result;
- the competition tag, the label and its round, plate and trophy suffixes;
- the status.

**Month grid** (`components/CalendarGrid.tsx`). The grid is laid out Monday first. It has leading
cells from the previous month, the month's own days, and trailing cells up to the end of the last
week. Each cell shows the fixtures on its local date. A fixture's competition selects a silver,
bronze or gold theme.

The model keeps the source's form:

- The loops of `unfoldLines`, `parseICS`, `getFixtures` and the grid builder are methods with loop
  invariants.
- Each loop method is proved equal to a specification function: `Ics.Unfold`, `Ics.ParseIcs`,
  `Relay.Fetch` and the cell formula of `Calendar.BuildCells`.
- `mapEventToFixture` is one imperative method per block of the source. Together they are proved
  equal to `Classifier.Classify`, which composes one function per stage.
- The body of the `parseICS` loop is the method `Ics.ReadLine`. The label block of
  `mapEventToFixture` is split into the generic label (`Classifier.GenericLabel`) and the suffixes
  (`Classifier.AddSuffixes`).
- Scores are compared as JavaScript numbers: `parseInt` yields a double, so digit runs beyond 2^53
  are rounded to the nearest double, ties to even, before `>` and `<` compare them.
- The properties are lemmas about those functions.

Each regular expression of the source is a leftmost scanner written out by hand, specified against
a predicate saying where the pattern occurs:

- the separator `/^(.*?)(\s+(?:v|vs|V|VS|Vs|against)\.?\s+|\s+[-–—]\s+)(.*)$/`;
- the score `/\b(\d+)\s*[-–—]\s*(\d+)\b/`;
- the two date patterns.

JavaScript `Date` arithmetic follows the ECMAScript definitions `MakeDay`, `MakeDate`, `WeekDay`
and `Date.UTC`, with a two-digit year read as 19xx. Local time is UTC shifted by a constant
`offset` in milliseconds.

Inputs supplied as parameters:

- **Network:** each relay's outcome is an input, `Relay.Outcome`. It is either the rejection
  message, or the response's `ok` flag, its text, and its body read as JSON.
- **Clock:** `new Date()` is the parameter `now`.
- **Identifiers:** `Math.random()` ids come from a function `freshId`, applied to the number of
  fixtures emitted so far.

The files:

- `wrappers.dfy` (module `Wrappers`): `Option` and `Result`
- `text.dfy` (module `Text`): the JavaScript string operations used: `includes`, `indexOf`, `trim`, ASCII case mapping, `replace`
- `civil.dfy` (module `Civil`): ECMAScript day and time arithmetic, and the local calendar date of an instant
- `fixture.dfy` (module `Fixtures`): the `Fixture` record of `types.ts`
- `icsdate.dfy` (module `IcsDate`): `parseIcsDate`
- `patterns.dfy` (module `Patterns`): the separator and score regular expressions, and `replace(/^-| -$/, '')`
- `classifier.dfy` (module `Classifier`): `mapEventToFixture`
- `ics.dfy` (module `Ics`): line splitting, `unfoldLines`, `parseICS`
- `base64.dfy` (module `Base64`): `atob`, and an encoder as its partner
- `utf8.dfy` (module `Utf8`): `TextDecoder("utf-8")`, a UTF-8 encoder as its partner, `encodeURIComponent`
- `relay.dfy` (module `Relay`): the relay table, `getIcsUrl`, the `getFixtures` loop, the sort by date
- `calendar.dfy` (module `Calendar`): the month grid, `getCompetitionTheme`, the per-cell fixture filter

## Model

| member | source | states |
|---|---|---|
| `Relay.IcsUrl` | services/fixtureService.ts:35-36 | the address starts with the Google prefix and ends with `/public/basic.ics`; between them only unreserved characters and `%XX` escapes appear, so no id can leave its path segment; an id of unreserved characters appears verbatim |
| `Relay.ProxyUrl` | services/fixtureService.ts:12-33 | a relay request starts with the relay's prefix, and everything after it is unreserved or a `%XX` escape |
| `Utf8.EncodeUriComponent` | services/fixtureService.ts:15-36 | the output has only unreserved characters and `%XX` escapes, is no shorter than the input, and leaves an all-unreserved input unchanged |
| `Utf8.PercentBytes` | services/fixtureService.ts:15-36 | each byte becomes three characters: `%` and two upper-case hex digits |
| `Relay.Payload` | services/fixtureService.ts:363-374 | a text relay's payload is its body; a JSON relay's is a non-empty string `contents`; a missing or empty `contents` is the "missing 'contents' field" error; a JSON syntax error is its own message |
| `Relay.DecodeDataUri` | services/fixtureService.ts:376-392 | a body that starts with `data:` and contains `;base64,` is replaced by the UTF-8 decoding of the text after the marker; anything else, or base 64 that `atob` rejects, is kept as it is |
| `Relay.DecodeDataBlock` | services/fixtureService.ts:376-392 | the method computes exactly `DecodeDataUri` |
| `Relay.Screen` | services/fixtureService.ts:394-400 | the "empty or invalid" error iff the UTF-16 length is under 50; the "HTML error page" error iff the body is long enough and its trimmed text starts with `<!DOCTYPE` or `<html`; no error iff neither holds |
| `Relay.AttemptOf` | services/fixtureService.ts:352-410 | a rejected fetch is a failure with its message; a response that is not `ok` is skipped without recording an error |
| `Relay.Attempts` | services/fixtureService.ts:351-352 | relay `j` is tried with the `j`-th outcome, in table order |
| `Relay.TryRelay` | services/fixtureService.ts:352-410 | one pass of the loop body yields exactly `AttemptOf` of that relay's outcome |
| `Relay.GetFixtures` | services/fixtureService.ts:346-415 | the loop over the relays returns exactly `Fetch`, the fold of the attempts that keeps the last error |
| `Relay.RelayFrom` | services/fixtureService.ts:351-414 | the relays from `i` on give fixtures sorted by date, or an error exactly when none of them succeeds; `FirstSuccessWins` and `NoSuccessLastError` pin down which fixtures and which error |
| `Relay.Fetch` | services/fixtureService.ts:346-415 | the result is sorted by date, and it is an error exactly when no relay's attempt succeeds; `FetchFirstSuccess` and `FetchNoSuccess` pin down the value |
| `Relay.FirstSuccessWins` | services/fixtureService.ts:351-404 | when relay `k` is the first to produce fixtures, the result is those fixtures sorted by date, whatever the later relays would do |
| `Relay.FetchFirstSuccess` | services/fixtureService.ts:346-415 | the same for `Fetch` over the four relays' outcomes |
| `Relay.NoSuccessLastError` | services/fixtureService.ts:406-414 | when no relay produces fixtures, the error is the last failure's message, or the generic "Failed to load calendar data" message when none failed |
| `Relay.FetchNoSuccess` | services/fixtureService.ts:406-414 | the same for `Fetch` over the four relays' outcomes |
| `Relay.AllSkippedIsUnavailable` | services/fixtureService.ts:358-361 | when every relay answers with a non-2xx status, the result is the generic unavailable error |
| `Relay.AllSkippedNoError` | services/fixtureService.ts:358-361 | skipped relays record no error |
| `Relay.RejectedPayloads` | services/fixtureService.ts:365-400 | a JSON envelope without contents, a payload that decodes to under 50 units, and an HTML page each make the relay fail with the matching message |
| `Relay.MarkerAfterHeader` | services/fixtureService.ts:378-381 | in `header + ";base64," + payload`, with a `data:` header free of `;`, the marker is found right after the header |
| `Relay.DataUriRoundTrip` | services/fixtureService.ts:376-392 | a `data:` URI carrying the base 64 of a text's UTF-8 bytes decodes back to that text (when it does not start with a byte-order mark) |
| `Relay.Insert` | services/fixtureService.ts:404 | inserting a fixture adds exactly that fixture to the multiset of elements |
| `Relay.SortByDate` | services/fixtureService.ts:404 | sorting keeps the number of fixtures |
| `Relay.InsertElements` | services/fixtureService.ts:404 | the inserted sequence holds exactly the old elements and the new one |
| `Relay.InsertSorted` | services/fixtureService.ts:404 | inserting into a sequence sorted by date keeps it sorted |
| `Relay.SortSorted` | services/fixtureService.ts:404 | the result of the sort is in non-decreasing date order |
| `Relay.SortPermutes` | services/fixtureService.ts:404 | the result of the sort is a permutation of its input |
| `Relay.OnInstantAppend` | services/fixtureService.ts:404 | selecting the fixtures on one instant distributes over concatenation |
| `Relay.OnInstantLater` | services/fixtureService.ts:404 | no fixture is selected from a sequence that is entirely later |
| `Relay.InsertStable` | services/fixtureService.ts:404 | an inserted fixture goes after every fixture of the same instant |
| `Relay.SortStable` | services/fixtureService.ts:404 | fixtures on the same instant keep their input order, as the stable `Array.prototype.sort` promises |
| `Ics.FirstBreak` | services/fixtureService.ts:99 | the first CR or LF, with none before it, or none at all |
| `Ics.SplitLines` | services/fixtureService.ts:99 | `split(/\r\n\|\n\|\r/)` gives at least one line, and no line contains CR or LF |
| `Ics.SplitLinesJoin` | services/fixtureService.ts:99 | joining the lines with LF gives the text with every CRLF, CR and LF made one LF: no text is lost |
| `Ics.NormaliseAtBreak` | services/fixtureService.ts:99 | at the first line break, the normalised text is the text before it, one LF, and the normalised rest after the CR, LF or CRLF |
| `Ics.UnfoldLines` | services/fixtureService.ts:75-87 | the loop computes exactly `Unfold`: a line starting with a space or tab is trimmed and appended to the previous line, or dropped when there is none |
| `Ics.UnfoldShape` | services/fixtureService.ts:75-87 | there is one unfolded line per line that is not a continuation, and no unfolded line starts with a space or tab |
| `Ics.UnfoldPlain` | services/fixtureService.ts:75-87 | lines with no continuation are left unchanged |
| `Ics.UnfoldIdempotent` | services/fixtureService.ts:75-87 | unfolding twice is unfolding once |
| `Ics.Unfold` | services/fixtureService.ts:75-87 | there are never more unfolded lines than lines; `UnfoldShape`, `UnfoldPlain` and `UnfoldIdempotent` pin down the rest |
| `Ics.BeforeSemicolon` | services/fixtureService.ts:127 | the key is the longest prefix without `;`, which ends at the first `;` when there is one |
| `Ics.ParseProperty` | services/fixtureService.ts:124-131 | a line without `:` is not a property; otherwise the key is the text before the first `:` cut at its first `;`, and the value is everything after that `:` |
| `Ics.ParseIcs` | services/fixtureService.ts:94-99 | the error "Received data is not a valid ICS calendar file" (thrown at line 96, after the warning at line 95) iff the text does not contain `BEGIN:VCALENDAR` |
| `Ics.ParseIcsText` | services/fixtureService.ts:92-135 | the imperative parser (split, unfold, event loop) computes exactly `ParseIcs` |
| `Ics.ReadLine` | services/fixtureService.ts:105-131 | one pass of the loop body, `continue` included, gives exactly `Step` of the parser state |
| `Ics.Step` | services/fixtureService.ts:105-131 | a line only ever appends to the fixtures, at most one, and only an `END:VEVENT` line appends; `BeginResetsEndCloses`, `IgnoredOutsideEvents`, `LaterValueWins` and `EndEmits` pin down the rest |
| `Ics.Run` | services/fixtureService.ts:105-132 | the loop over the lines keeps the fixtures so far as a prefix and adds at most one per line; `RunAppends` pins down the per-`END:VEVENT` bound |
| `Ics.Emit` | services/fixtureService.ts:114-119 | an event appends at most one fixture to the ones so far, and exactly one iff `DTSTART` and `SUMMARY` are non-empty and `DTSTART` parses; `EndEmits` pins down which fixture |
| `Ics.StepConsistent` | services/fixtureService.ts:105-132 | the parser is inside an event exactly when it holds a current event, and every line keeps that so |
| `Ics.RunConsistent` | services/fixtureService.ts:102-132 | being inside an event exactly when an event is held is kept over any sequence of lines; it is the loop invariant of `ParseIcsText` |
| `Ics.RunAppends` | services/fixtureService.ts:105-132 | fixtures are only appended, and at most one per `END:VEVENT` line |
| `Ics.IgnoredOutsideEvents` | services/fixtureService.ts:105-131 | outside an event, a line that neither begins nor ends one changes nothing |
| `Ics.BeginResetsEndCloses` | services/fixtureService.ts:106-122 | `BEGIN:VEVENT` starts an empty event and keeps the fixtures; `END:VEVENT` with no open event only leaves the event |
| `Ics.LaterValueWins` | services/fixtureService.ts:124-131 | when a property is repeated in an event, the later value replaces the earlier one |
| `Ics.EndEmits` | services/fixtureService.ts:112-122 | `END:VEVENT` appends the classified event exactly when `DTSTART` and `SUMMARY` are non-empty and the date parses, with the id function applied to the number of fixtures so far |
| `IcsDate.FindStamp` | services/fixtureService.ts:45 | the leftmost match of `(\d{4})(\d{2})(\d{2})T(\d{2})(\d{2})(\d{2})`, or none |
| `IcsDate.FindDay` | services/fixtureService.ts:48 | the leftmost match of `(\d{4})(\d{2})(\d{2})`, or none |
| `IcsDate.Number` | services/fixtureService.ts:50-68 | `parseInt` of `k` digits is below `10^k` |
| `IcsDate.ParseIcsDate` | services/fixtureService.ts:41-70 | a date exists iff eight digits occur somewhere; the leftmost date-time match gives the `Date.UTC` instant; with no date-time match, the leftmost eight digits give local midnight |
| `IcsDate.StampInstant` | services/fixtureService.ts:59-69 | the `Date.UTC` instant is a whole number of seconds, and for in-range hours, minutes and seconds it falls on the day `MakeDay` of the stamp's year (two digits read as 19xx), 0-based month and date; `StampInstantReadsBack` pins down the date read back |
| `IcsDate.DayInstant` | services/fixtureService.ts:49-54 | the instant is local midnight: shifted by the offset it is a whole number of days, the day `MakeDay` of the year, 0-based month and date; `DayReadsBack` pins down the date read back |
| `IcsDate.EmptyIsNull` | services/fixtureService.ts:42 | an empty `DTSTART` gives no date |
| `IcsDate.StampReadsBack` | services/fixtureService.ts:45-69 | a valid `YYYYMMDDTHHMMSS` stamp (year 100 or later) lands on its own calendar date in UTC |
| `IcsDate.StampInstantReadsBack` | services/fixtureService.ts:62-69 | the `Date.UTC` instant of a valid stamp has that stamp's UTC calendar date |
| `IcsDate.DayReadsBack` | services/fixtureService.ts:46-55 | a valid `YYYYMMDD` all-day date lands on its own local calendar date, for any offset |
| `IcsDate.TwoDigitYears` | services/fixtureService.ts:62-69 | a stamp year from 0 to 99 is read as 1900 plus that year, as `Date.UTC` does |
| `Civil.DayFromYearStep` | services/fixtureService.ts:62-69 | consecutive years are 365 or 366 days apart, by the leap rule |
| `Civil.MakeDay` | services/fixtureService.ts:62-69 | for a month in 0..11, day `d` of the month falls within the year that starts `d - 1` days after 1 January; `MakeDayInYear` and `MonthLength` pin down the exact day |
| `Civil.FullYear` | services/fixtureService.ts:62-69 | `Date.UTC`'s year: it keeps the last two digits, never lands in 0..99, and leaves a year outside 0..99 unchanged |
| `Civil.UtcTime` | services/fixtureService.ts:62-69 | `Date.UTC` gives a whole number of seconds, and for in-range hours, minutes and seconds an instant on the day `MakeDay` of the full year, month and date; `UtcTimeReadsBack` pins down the date read back |
| `Civil.WholeSeconds` | services/fixtureService.ts:62-69 | `MakeDate` of a day and a time of whole seconds is a multiple of 1000, and lies on that day when the time is within the day |
| `Civil.TwoDigitYear` | services/fixtureService.ts:62-69 | `Date.UTC` of a year 0..99 is `Date.UTC` of 1900 plus that year |
| `Civil.LocalMidnight` | services/fixtureService.ts:50-54 | `new Date(y, m, d)`: shifted by the offset, the instant is exactly the start of the day `MakeDay` of the full year, month and date; `LocalDateOfLocalDay` pins down the date read back |
| `Civil.DateOfDay` | components/CalendarGrid.tsx:111-115 | the year, month and date of a day number, in range, and with `MakeDay` of it giving the day back |
| `Civil.DateOfMakeDay` | components/CalendarGrid.tsx:29-45 | reading back a valid year, month and date gives the same three |
| `Civil.UtcTimeReadsBack` | services/fixtureService.ts:62-69 | a UTC instant's UTC calendar date is the date it was built from |
| `Civil.LocalDateOfLocalDay` | services/fixtureService.ts:50-54 | an instant built from a local date and a time of day has that local date |
| `Civil.MonthLength` | components/CalendarGrid.tsx:22-23 | the first of the next month is `DaysInMonth` days after the first of this one, and day 0 of the next month is the last day of this one |
| `Civil.MonthCarry` | components/CalendarGrid.tsx:29-31 | month -1 is December of the year before, and month 12 is January of the next year |
| `Civil.WeekDay` | components/CalendarGrid.tsx:18 | `getDay` is in 0..6 |
| `Civil.LocalWeekDay` | services/fixtureService.ts:197 | the local weekday is in 0..6; `LocalWeekDayOfDate` ties it to the event's own local date |
| `Civil.LocalWeekDayOfDate` | services/fixtureService.ts:197 | `getDay()` of any instant of the local day `new Date(y, m, d)` begins is the weekday of that day's number, `WeekDayOfDay(MakeDay(...))`, the one the grid's columns use |
| `Calendar.PrevMonthDays` | components/CalendarGrid.tsx:23-31 | a day of month -1 is that day of the previous month, which ends the day before this month's first |
| `Calendar.MonthEnd` | components/CalendarGrid.tsx:22 | `new Date(y, m + 1, 0).getDate()` is the month's length |
| `Calendar.PrevMonthEnd` | components/CalendarGrid.tsx:23 | `new Date(y, m, 0).getDate()` is the previous month's length |
| `Calendar.DayOfWeekIndex` | components/CalendarGrid.tsx:90 | the Monday-first column `(getDay() + 6) % 7`: 0 is Monday, 6 is Sunday |
| `Calendar.WeekendDays` | components/CalendarGrid.tsx:91 | a cell is a weekend cell iff it is a Saturday or a Sunday |
| `Calendar.LeadingCells` | components/CalendarGrid.tsx:18-20 | the number of leading cells is in 0..6 |
| `Calendar.LeadingCellsIsColumn` | components/CalendarGrid.tsx:18-20 | the leading cell count is the first day's Monday-first column: 6 for a Sunday, 0 for a Monday |
| `Calendar.RoundUpToWeek` | components/CalendarGrid.tsx:39-41 | the total is the smallest multiple of 7 that is at least the cell count |
| `Calendar.MonthFrame` | components/CalendarGrid.tsx:15-23 | the full year, the leading cell count, this month's length and the previous month's length |
| `Calendar.BuildCells` | components/CalendarGrid.tsx:25-45 | the three loops give whole weeks of consecutive days, starting `firstDay` days before the first, and a cell is current exactly for this month's days |
| `Calendar.CellDates` | components/CalendarGrid.tsx:29-45 | cell `k` shows the previous month's `prevMonthDays - i`, this month's `k - firstDay + 1`, or the next month's `i`, as the three loops build them |
| `Calendar.NextMonthDay` | components/CalendarGrid.tsx:43-45 | day `d` of month `m + 1` is day `d` of the next month, also across the end of December |
| `Calendar.NextMonthTest` | components/CalendarGrid.tsx:88 | `!isCurrent && getDate() < 15` holds exactly for the trailing next-month cells |
| `Calendar.CellColumns` | components/CalendarGrid.tsx:18-20 | cell `k` falls in column `k % 7` of the Monday-first grid |
| `Calendar.DayEvents` | components/CalendarGrid.tsx:111-115 | a cell shows exactly the fixtures whose local year, month and date are the cell's, in their input order, and no more |
| `Calendar.DayEventsAppend` | components/CalendarGrid.tsx:111-115 | the filter distributes over concatenation, so order is kept |
| `Calendar.CompetitionTheme` | components/CalendarGrid.tsx:48-56 | silver iff the upper-cased label and tag contain `PLATE`; bronze iff not, but `SHIELD` or `QUARTER-FINAL`; gold iff neither, but `CUP` or `TROPHY` |
| `Calendar.PlateLabelIsSilver` | components/CalendarGrid.tsx:48-56 | a competition label containing "plate" in any ASCII case is themed silver |
| `Calendar.PlateIsSilver` | components/CalendarGrid.tsx:48-56 | every fixture whose description mentions a plate is themed silver, because the suffix step leaves "plate" in its label |
| `Classifier.PropertyOr` | services/fixtureService.ts:141-148 | `event[key] \|\| fallback`: the property when present and non-empty, the fallback otherwise |
| `Classifier.UnescapeSummary` | services/fixtureService.ts:141-142 | the unescaped summary has no leading or trailing whitespace; `SummaryDecodes` states how each escape is decoded |
| `Classifier.NoEscapeUnchanged` | services/fixtureService.ts:141-148 | text in which no backslash precedes an escaped character is left alone |
| `Classifier.PlainDescriptionUnchanged` | services/fixtureService.ts:146-148 | a description without backslashes is used as written |
| `Classifier.DoubledBackslash` | services/fixtureService.ts:141-148 | for the two-character text `\\`: it collapses to one backslash in the summary and the description, but stays two in the location |
| `Classifier.NoBreakSpace` | services/fixtureService.ts:141-148 | for the one-character text U+00A0: it becomes a space in the location but stays in the description |
| `Classifier.CommonDecodes` | services/fixtureService.ts:142 | after a backslash-free prefix, the three common passes turn `\,` into `,`, `\;` into `;` and `\n` or `\N` into a space, and decode the rest of the text on its own |
| `Classifier.CommonKeepsDoubled` | services/fixtureService.ts:142 | the three common passes leave `\\` unchanged when no escape letter or backslash follows it |
| `Classifier.DescriptionDecodes` | services/fixtureService.ts:148 | after a backslash-free prefix, the description turns `\,`, `\;`, `\n`, `\N` and `\\` into `,`, `;`, a space, a space and `\`, and decodes the rest on its own (for `\\`, when no escape letter or backslash follows) |
| `Classifier.SummaryDecodes` | services/fixtureService.ts:142 | the summary decodes the same five escapes in place, with no-break spaces made spaces, and is then trimmed |
| `Classifier.LocationDecodes` | services/fixtureService.ts:145 | the location decodes `\,`, `\;`, `\n` and `\N` in place, with no-break spaces made spaces |
| `Classifier.LocationKeepsDoubled` | services/fixtureService.ts:145 | the location has no `\\` pass: a doubled backslash stays doubled |
| `Classifier.UnescapeLocation` | services/fixtureService.ts:144-145 | the location is no longer than the raw text and holds no U+00A0; `LocationDecodes` and `LocationKeepsDoubled` state how each escape is decoded |
| `Classifier.UnescapeDescription` | services/fixtureService.ts:147-148 | the description is no longer than the raw text, and text without a backslash is kept as it is; `DescriptionDecodes` states how each escape is decoded |
| `Classifier.ShapeOf` | services/fixtureService.ts:161-214 | training iff the summary mentions training; separated iff it does not and the separator matches; single weekday iff neither and the local weekday is Monday to Friday |
| `Classifier.SingleName` | services/fixtureService.ts:163-164 | a single-entity name is empty only when the summary is |
| `Classifier.TrainingWins` | services/fixtureService.ts:161-167 | a summary mentioning training is a home training session with no opponent, whatever separators it contains |
| `Classifier.SeparatedSides` | services/fixtureService.ts:170-194 | with two non-blank sides, a right side naming the club makes an away fixture against the left side, and otherwise a home fixture against the right side |
| `Classifier.WeekdayIsSingleEntity` | services/fixtureService.ts:196-204 | a weekday summary without a separator is a home event with no opponent, named after the summary |
| `Classifier.SidesOfSplit` | services/fixtureService.ts:172-194 | `Fixture`; no opponent iff a side is blank; the opponent is one of the two trimmed sides; away iff there is an opponent and the right side mentions `titan`; `SeparatedSides` pins down which side |
| `Classifier.WeekendSides` | services/fixtureService.ts:205-213 | a home `Fixture`; no opponent iff the summary is empty; the team is `Titans` or the summary; a summary mentioning `titan` gives the opponent `Internal Match / Event` or `Club Event` |
| `Classifier.Identify` | services/fixtureService.ts:151-215 | the competition is `Training` iff the summary mentions training, and `Fixture` otherwise; an away fixture always has an opponent; `ShapeOf`, `TrainingWins`, `SeparatedSides` and `WeekdayIsSingleEntity` pin down each branch |
| `Classifier.Failsafe` | services/fixtureService.ts:217-220 | the home flag, team name and competition are untouched, and the opponent is kept or becomes `Club Event`; `FailsafeSeparates` pins down when |
| `Classifier.FailsafeSeparates` | services/fixtureService.ts:217-220 | after the failsafe, an opponent other than `Club Event` differs from the team name up to case and spaces; the opponent changes iff it equalled the team name |
| `Classifier.IdentifySides` | services/fixtureService.ts:151-215 | the imperative cascade computes exactly `Identify` |
| `Classifier.ChooseScore` | services/fixtureService.ts:223-229 | the description's score match wins; the summary's is used only when the description has none |
| `Classifier.ExactResult` | services/fixtureService.ts:234-250 | for scores below 2^53, where `parseInt` is exact, W, L or D iff the club's score as a whole number is greater, smaller or equal |
| `Classifier.RoundedScoresDraw` | services/fixtureService.ts:234-250 | scores of 2^53 + 1 and 2^53 are a draw either way round, since both round to the same double |
| `Classifier.LargeScoresDraw` | services/fixtureService.ts:234-250 | the text `9007199254740993-9007199254740992` is a well-formed score, and it is a draw at home and away |
| `Classifier.ResultOf` | services/fixtureService.ts:234-250 | the scores are compared as JavaScript numbers, `parseInt` of each run of digits: W, L or D iff the club's number is greater than, smaller than or equal to the other's; the club's number is the first at home and the second away; `ExactResult` and `LargeScoresDraw` pin down what this means for small and for very large scores |
| `Classifier.ScoreAndResult` | services/fixtureService.ts:222-251 | the score and result block computes exactly the chosen match, its score string and its result, with both numbers taken through `parseInt`'s rounding to a double |
| `Classifier.NoOpponentKept` | services/fixtureService.ts:217-263 | an event without an opponent keeps none, and keeps its home flag and competition, through the failsafe and the clean-up |
| `Classifier.DropLondon` | services/fixtureService.ts:253-256 | a team name not starting with `London Titans` is kept; one that does becomes `Titans` followed by the rest, trimmed |
| `Classifier.StripScore` | services/fixtureService.ts:259-262 | cutting the score out of a name gives a name no longer than before, with no whitespace at either end |
| `Classifier.CleanNames` | services/fixtureService.ts:253-263 | the home flag and competition are kept, no opponent stays none, and without a score in the summary or without an opponent only the `London` prefix is dropped |
| `Classifier.SidesAndScore` | services/fixtureService.ts:151-263 | the sides, failsafe, score and clean-up blocks compute exactly the composed stage functions |
| `Classifier.FirstFiring` | services/fixtureService.ts:265-286 | the first rule from `i` on that fires, with none before it, or none at all |
| `Classifier.TagPriority` | services/fixtureService.ts:265-286 | rule `i` decides the tag iff it fires and no earlier rule does |
| `Classifier.TagIndexCascade` | services/fixtureService.ts:265-286 | the rule table read as the source's `if`/`else if` chain, needle by needle |
| `Classifier.TagIndex` | services/fixtureService.ts:269-286 | the index into `TagRules`, the six rules of lines 270-285 in order, of a rule that fires, or none exactly when no rule fires; `FirstFiring` and `TagPriority` pin down that it is the first |
| `Classifier.TagCascade` | services/fixtureService.ts:265-286 | the imperative cascade sets the tag of the deciding rule, and the competition only for the four specific rules |
| `Classifier.SpecificTagNamesCompetition` | services/fixtureService.ts:265-281 | a shield, development, LUL cup or dev-league rule names the competition, and only suffixes are added after it |
| `Classifier.GenericTagKeepsCompetition` | services/fixtureService.ts:282-286 | the GFSN and LUL rules set only the tag; the label then comes from the generic step |
| `Classifier.UnnamedLabel` | services/fixtureService.ts:265-310 | when no specific rule fires, the label is the generic label followed by the suffixes |
| `Classifier.DefaultLabel` | services/fixtureService.ts:288-294 | a label other than `Fixture` is kept; `Fixture` becomes League Match iff the description or summary mentions `league`; Cup Match iff not, but `cup`; Friendly iff neither, but `friendly`; Club Event iff none of them and there is no opponent; it stays Fixture iff none of them and there is an opponent |
| `Classifier.DefaultLabelIdempotent` | services/fixtureService.ts:288-294 | relabelling a label that was already decided changes nothing |
| `Classifier.GenericLabel` | services/fixtureService.ts:288-294 | the imperative `if`/`else if` chain computes exactly `DefaultLabel` |
| `Classifier.LabelAndSuffixes` | services/fixtureService.ts:288-310 | the imperative label and suffix block computes exactly the generic label with its suffixes |
| `Classifier.AddSuffixes` | services/fixtureService.ts:296-310 | the three imperative suffix tests compute exactly `WithSuffixes` |
| `Classifier.RoundSuffix` | services/fixtureService.ts:297-303 | ` Quarter-Final` iff the description names a quarter-final (`quarter-final` or `quarter final`) and the label lacks `quarter`; ` Semi-Final` iff it names no quarter-final but a semi-final and the label lacks `semi`; ` Final` iff it names neither, mentions `final` but not `semi`, and the label lacks `final`; otherwise empty, and always empty without `final` in the description |
| `Classifier.RoundWordsMentionFinal` | services/fixtureService.ts:297-301 | a description mentioning a quarter-final or semi-final round also mentions `final` |
| `Classifier.PlateSuffix` | services/fixtureService.ts:305-307 | ` Plate` iff the description mentions `plate` and the label, lower-cased, does not; otherwise empty; `PlateSettled` shows a second pass adds nothing |
| `Classifier.TrophySuffix` | services/fixtureService.ts:308-310 | ` Trophy` iff the description mentions `trophy` and the label, lower-cased, does not; otherwise empty; `TrophySettled` shows a second pass adds nothing |
| `Classifier.WordSuffix` | services/fixtureService.ts:305-310 | the plate and trophy test: the suffix iff the description mentions the word and the lower-cased label does not, otherwise empty |
| `Classifier.WithSuffixes` | services/fixtureService.ts:296-310 | the suffixed label starts with the label; `SuffixesShape` and `SuffixesIdempotent` pin down what follows |
| `Classifier.SettledLabel` | services/fixtureService.ts:296-310 | a label for which all three suffixes are empty is left unchanged by the suffix step |
| `Classifier.SuffixesShape` | services/fixtureService.ts:296-310 | the label is the old label plus at most one round suffix, then optionally ` Plate`, then optionally ` Trophy` |
| `Classifier.RoundSettled` | services/fixtureService.ts:296-303 | once a round suffix is decided, the label contains the word that suppresses it |
| `Classifier.PlateSettled` | services/fixtureService.ts:305-307 | once the plate suffix is decided, the label suppresses it, whatever follows |
| `Classifier.TrophySettled` | services/fixtureService.ts:308-310 | once the trophy suffix is decided, the label suppresses it |
| `Classifier.SuffixesIdempotent` | services/fixtureService.ts:296-310 | applying the suffix step to its own result adds nothing; `RoundStays`, `PlateStays` and `TrophyStays` show that no suffix is asked for again |
| `Classifier.RoundStays` | services/fixtureService.ts:297-303 | the suffixed label asks for no further round suffix |
| `Classifier.PlateStays` | services/fixtureService.ts:305-307 | the suffixed label asks for no further plate suffix |
| `Classifier.TrophyStays` | services/fixtureService.ts:308-310 | the suffixed label asks for no further trophy suffix |
| `Classifier.PlateLabelled` | services/fixtureService.ts:305-307 | a description mentioning a plate leaves "plate" in the label |
| `Classifier.StatusOf` | services/fixtureService.ts:312-313 | completed iff the event starts before now, otherwise upcoming, never live |
| `Classifier.MapEventToFixture` | services/fixtureService.ts:140-328 | the imperative classifier computes exactly `Classify`, the composition of the stage functions |
| `Classifier.Classify` | services/fixtureService.ts:140-328 | the record carries the event's date and is never live; it has a result iff it has a score, and the score has no whitespace; `ClassifyStages` pins down every field |
| `Classifier.StatusFromDate` | services/fixtureService.ts:312-323 | the record's date is the event's date, and its status is completed iff that is before now |
| `Classifier.IdAndLocation` | services/fixtureService.ts:144-316 | the id is the event's `UID` or else the fresh id; the location defaults to `TBC` |
| `Classifier.ScoreFromDescriptionFirst` | services/fixtureService.ts:222-251 | a result iff a score; a score iff the description or summary has one; the description's wins; it is stored as the two numbers joined by `-` |
| `Classifier.TrainingEvent` | services/fixtureService.ts:162-310 | a training session is at home with no opponent, and is labelled `Training` plus suffixes unless a specific tag rule names another competition |
| `Patterns.WsEnd` | services/fixtureService.ts:170 | the end of the maximal run of `\s` from `i` |
| `Patterns.DigitsEnd` | services/fixtureService.ts:223 | the end of the maximal run of digits from `i` |
| `Patterns.StripTitansPrefix` | services/fixtureService.ts:163 | a leading `london titans` or `titans`, in any case and followed by whitespace, is removed with the whitespace; otherwise the summary is unchanged |
| `Patterns.MatchSeparator` | services/fixtureService.ts:170 | a split iff a separator occurs before the first line terminator; the left side is the text before the leftmost such separator and the right side the text after it |
| `Patterns.FindSeparator` | services/fixtureService.ts:170 | the leftmost separator position from `k`, with none in between, or none before a line terminator |
| `Patterns.NoSeparatorFrom` | services/fixtureService.ts:170 | the scan's step: no separator at `k` and none after it means none from `k` |
| `Patterns.SeparatorAt` | services/fixtureService.ts:170 | a separator starts with whitespace, and the right side after it contains no line terminator |
| `Patterns.WordAlternatives` | services/fixtureService.ts:170 | a word separator matches only where one of `v`, `vs`, `V`, `VS`, `Vs`, `against` occurs |
| `Patterns.DashAlternative` | services/fixtureService.ts:170 | a dash separator has a hyphen, en dash or em dash after its whitespace |
| `Patterns.MatchScore` | services/fixtureService.ts:223 | the leftmost score match: digits, optional spaces, a dash, optional spaces, digits, on word boundaries; none iff no position matches |
| `Patterns.FindScore` | services/fixtureService.ts:223 | the leftmost score position from `p`, with none in between, or none at all |
| `Patterns.ScoreAt` | services/fixtureService.ts:223 | a match at `p` is well formed, occurs at `p` and sits on word boundaries |
| `Patterns.PiecesMatch` | services/fixtureService.ts:223 | digit, space, dash, space and digit runs between word boundaries make a well-formed match of their concatenation |
| `Patterns.ScoreStringShape` | services/fixtureService.ts:232 | the stored score is the two numbers joined by a hyphen, without whitespace |
| `Patterns.ScoreString` | services/fixtureService.ts:232 | the stored score has no whitespace and is no longer than the matched text; `ScoreStringShape` pins down its exact form |
| `Patterns.DropEdgeDash` | services/fixtureService.ts:261-262 | `/^-\| -$/` removes one leading `-`, or failing that one trailing ` -` |
| `Text.IndexOf` | services/fixtureService.ts:379 | `indexOf`: the first occurrence, none before it, or none at all |
| `Text.ContainsIff` | services/fixtureService.ts:94 | `includes` holds iff the pattern occurs at some position |
| `Text.ContainsTail` | services/fixtureService.ts:297-301 | a text that contains `a + b` contains `b` |
| `Text.ReplaceFirst` | services/fixtureService.ts:255 | `replace` with a string pattern: no occurrence leaves the text unchanged; otherwise the length changes by the difference, and the text before the leftmost occurrence, the replacement and the text after it are the result |
| `Text.ReplaceEscapes` | services/fixtureService.ts:141-148 | the escape replacements never lengthen the text when the replacement has at most two characters, and text without a backslash is unchanged; `ReplacesEscape`, `SkipsEscape` and `SkipsDoubled` state what happens at each backslash |
| `Text.NoBackslashPrefix` | services/fixtureService.ts:141-148 | a backslash-free prefix passes through a `/\\x/g` replacement unchanged, and the rest is replaced on its own |
| `Text.ReplacesEscape` | services/fixtureService.ts:141-148 | after a backslash-free prefix, a backslash followed by an escaped character becomes the replacement |
| `Text.SkipsEscape` | services/fixtureService.ts:141-148 | a backslash followed by a character that is not escaped, and not a backslash, is kept with that character |
| `Text.SkipsDoubled` | services/fixtureService.ts:141-148 | when the backslash is not itself escaped, `\\` is kept, provided the character after it is not escaped |
| `Text.ReplaceChar` | services/fixtureService.ts:145 | `replace(/\u00A0/g, ' ')`: every occurrence of the character is replaced and every other character kept, at its position |
| `Text.RemoveWhitespace` | services/fixtureService.ts:232 | `replace(/\s+/g, '')` leaves no whitespace and never lengthens the text; `RemoveWhitespaceAppend`, `RemoveWhitespaceAll` and `RemoveWhitespaceNone` pin down what is kept |
| `Text.ReplaceFirstDash` | services/fixtureService.ts:232 | `replace(/[-–—]/, '-')` keeps the length and adds no whitespace; `ReplaceFirstDashAfter` pins down where the dash is replaced |
| `Text.DigitsConcat` | services/fixtureService.ts:234-235 | the value of two digit strings joined is the first value shifted by the second's length plus the second value |
| `Text.BeyondTwo53Digits` | services/fixtureService.ts:234-235 | `9007199254740993` is 2^53 + 1 and `9007199254740992` is 2^53 |
| `Text.NumberValue` | services/fixtureService.ts:234-235 | the nearest double to a whole number: exact below 2^53, and an even value when rounded above it |
| `Text.ParseIntDigits` | services/fixtureService.ts:234-235 | `parseInt` of a digit run is its exact value below 2^53 |
| `Text.RoundsToEven` | services/fixtureService.ts:234-235 | 2^53 + 1 rounds to 2^53, its even neighbour |
| `Text.TrimStart` | services/fixtureService.ts:80 | removes exactly the leading ECMAScript whitespace |
| `Text.TrimEnd` | services/fixtureService.ts:80 | removes exactly the trailing ECMAScript whitespace |
| `Text.TrimBounds` | services/fixtureService.ts:80 | a trimmed string is no longer and neither starts nor ends with whitespace |
| `Text.ContainsLowerUpper` | components/CalendarGrid.tsx:49-53 | a lower-case needle found in the lower-cased text is found, upper-cased, in the upper-cased text |
| `Base64.Decode` | services/fixtureService.ts:381-382 | `atob` succeeds iff, after dropping ASCII whitespace and one or two final `=`, only base 64 characters remain and the length is not 1 more than a multiple of 4 |
| `Base64.DecodeGroups` | services/fixtureService.ts:382 | every 4 characters give 3 bytes, and a final 2 or 3 give 1 or 2 |
| `Base64.DecodeEncode` | services/fixtureService.ts:382 | `atob` inverts base 64 encoding for every byte string |
| `Base64.GroupsRoundTrip` | services/fixtureService.ts:382 | decoding the unpadded groups returns the bytes |
| `Base64.RejectsStrayCharacter` | services/fixtureService.ts:382 | `atob` rejects `QQ=A`, padding in the middle, and `Q`, a lone character |
| `Utf8.DecodeEncode` | services/fixtureService.ts:383-387 | `TextDecoder` inverts UTF-8 encoding for every text not starting with a byte-order mark |
| `Utf8.DecodeFromEncode` | services/fixtureService.ts:383-387 | decoding without the byte-order-mark step inverts encoding for every text |
| `Utf8.DropsByteOrderMark` | services/fixtureService.ts:387 | a leading byte-order mark is dropped |
| `Utf8.ReplacesIllFormed` | services/fixtureService.ts:387 | the bytes 41 80 42 decode to `A`, U+FFFD, `B` (a stray continuation byte); E2 82 decodes to one U+FFFD (a truncated sequence); E2 41 decodes to U+FFFD, `A` (a broken sequence, the byte after it decoded) |
| `Utf8.Decode` | services/fixtureService.ts:387 | the decoded text has no more characters than there are bytes |

## Left out

- Network access: `fetchWithTimeout`, the `AbortController` timer, `fetch` and the response
  objects are not modelled. Each relay's outcome is an input. "Timed out" and "network error" are
  represented only by the rejection message `Unreachable(error)`.
- JSON: `response.json()` is abstracted to its result, which is either a syntax error with a
  message or an object whose `contents` is a string or is absent. A `contents` field that holds a
  non-string value is not represented.
- Errors: `throw lastError` and the final `throw new Error(...)` are modelled as the error's
  message in `Result.Err`. The relays' internal status messages and all `console` logging are left
  out, because they do not affect the result.
- `Relay.DecodeDataBlock`: the loop that copies `atob`'s binary string into a `Uint8Array` is
  modelled as the identity on bytes. That is what it computes.
- Time zones: local time is UTC plus a constant `offset`. Daylight-saving changes, which make
  the offset depend on the instant, are not modelled.
- `Civil.WeekDay`: the range 0..6 is stated. The weekday itself comes from the ECMAScript
  definition `(day + 4) mod 7`.
- Clock: `new Date()` in `mapEventToFixture` and in the grid's `today` is a parameter `now`. One
  value serves for a whole parse, whereas the source reads the clock once per event.
- Identifiers: `Math.random()` identifiers are supplied by the parameter `freshId`. The model
  does not claim they are distinct.
- Strings are sequences of Unicode scalar values. Lone surrogates cannot be represented. Length
  tests count UTF-16 code units, as JavaScript does.
- Case mapping: `toLowerCase` and `toUpperCase` are modelled on ASCII letters only. Other letters
  are left unchanged, so non-ASCII case folding is not captured.
- `IcsDate.Number`: `parseInt` is applied only to runs that the pattern has already matched as
  ASCII digits. Other inputs do not arise.
- `Ics.ParseIcs`: the time zone parameters of `DTSTART` (`TZID=`) are ignored, as the source
  ignores them. A date-time without `Z` is read as UTC, as the source reads it.
- Rendering: JSX, styling, `isToday`, the click handlers, and hiding weekday cells when weekdays
  are not shown are left out. The model keeps the values that decide them, namely
  `Calendar.IsWeekend` and `Calendar.NextMonthTest`.
- `components/EventModal.tsx`, `App.tsx`, the header and the fixture list views are not part of
  this model.
- `Classifier.FailsafeSeparates`: the failsafe guarantees a distinct opponent only when the
  opponent is not `Club Event`. The source's replacement value can itself equal a team name
  spelled `Club Event`, so the stronger statement is false as the code is written.
- `Classifier.NoOpponentKept`: the name clean-up cuts the score text out of both names, and it can
  make the names equal again (for example `Foo 1-0 - Foo`). No separation property is claimed
  after the clean-up.
- `Text.ParseIntDigits`: for a run of more than 20 significant digits ECMAScript lets `parseInt`
  approximate the value before rounding. The model rounds the exact value, which is what the
  standard requires up to 20 digits.
- `Classifier.TrainingEvent`: a specific competition tag (for example GFSN Shield) overrides the
  label `Training`, as the source's order of statements makes it do. The lemma therefore
  restricts its label claim to events where no specific rule fires.
