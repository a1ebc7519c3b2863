# tw-daterange: a verified model of the date-range picker's logic

`DateRangePicker` (a React component in `src/DateRangePicker.tsx`) shows two
adjacent month calendars and lets the user pick a date range by clicking a
start day and then an end day. This project models the component's logic in
Dafny and proves properties of it:

- **Calendar** (`calendar.dfy`): proleptic Gregorian dates with months 0..11
  as `Date.getMonth()` numbers them. It covers the month lengths of
  `getDaysInMonth` and a day ordinal counted from 1 January of year 1. It also
  covers the weekday of `getDay()` and JavaScript's day-overflow
  normalisation in `new Date(y, m, d)`. Finally it covers date-fns `addMonths`
  (the day is clamped to the target month) and `addDays`. An instant is a
  date plus milliseconds since local midnight. `Stamp` plays the role of
  `getTime()`.
- **Compare** (`compare.dfy`): `isSameDay`, `isBefore`, `isAfter`,
  `isEqual`, and the component's own `isBetween` with its four inclusivity
  tokens. An unknown token is an error result, because the source throws.
- **Grid** (`grid.dfy`): `generateCalendar`, the 42-cell, Sunday-first month
  grid.
- **Picker** (`picker.dfy`): the component's state as a class. It holds the
  anchor month (`currYear`, `currMonth`), the `dateRange` and the log of
  `onUpdate` calls. It has the previous/next buttons, both panels' day
  buttons, and the effect that reports a full range. Pure functions give the
  selection cycle (`Click`), its replay over a sequence of clicks, the
  resolution of a clicked day number to a date, the right panel's year label
  and the four highlight tests of a day cell.

"Today" is a parameter of the constructor instead of a wall-clock read. The
`onUpdate` callback is modelled by the `hasOnUpdate` flag and the `notified`
log of the ranges it would have received.

Two behaviours of the code are reproduced as written and documented by lemmas:

- A right-panel day number larger than the anchor month's length first
  overflows into the next month. The added month then moves it once more. So
  with February 2023 as anchor, day 30 of the right (March) grid selects
  2 April 2023 (`RightPanelOverflowExample`).
- The right panel's year label adds one year, not one month, to the anchor.
  It agrees with the year of the right grid's month only when the anchor is
  December (`RightLabelYearMatchesGrid`).

Two consequences of the initial state are kept as written too:

- Each bound of the initial range is defaulted separately (the code applies
  `??` per field). So the initial range is always full, and `onUpdate` is
  called on mounting.
- The start is never `null` afterwards, so the "no start" branch of the click
  handler is kept but never taken by the class.

## Model

| member | source | states |
|---|---|---|
| `Calendar.DaysInMonth` | src/DateRangePicker.tsx:61 | a month has 28 to 31 days; February has 29 exactly in a Gregorian leap year, and every other month has at least 30 |
| `Calendar.Weekday` | src/DateRangePicker.tsx:59 | the weekday index lies in 0..6 (0 = Sunday) |
| `Calendar.WeekdayAnchors` | src/DateRangePicker.tsx:59 | the weekday agrees with known days: 1 January 1970 and 1 February 2024 were Thursdays |
| `Calendar.WeekdayStep` | src/DateRangePicker.tsx:59 | the day after any valid date has the next weekday, so with the known anchors every date's weekday is that of `getDay()` |
| `Calendar.Stamp` | src/DateRangePicker.tsx:40-44 | the millisecond stamp compared by date-fns (`getTime()`) of a valid instant lies within its own day |
| `Calendar.StampOrder` | src/DateRangePicker.tsx:40-44 | stamps of valid instants order them by calendar day and then time of day, and distinct instants have distinct stamps |
| `Calendar.YearStep` | src/DateRangePicker.tsx:61 | the first day of year y+1 comes exactly 365 or 366 days (Gregorian leap rule) after that of y |
| `Calendar.MonthStep` | src/DateRangePicker.tsx:61 | the first of the next month comes exactly `daysInMonth` days after the first of the month, across December too |
| `Calendar.OrdinalOrder` | src/DateRangePicker.tsx:180-183 | for valid dates the day ordinal follows calendar order and is injective, both directions |
| `Calendar.PrevNextInverse` | src/DateRangePicker.tsx:114-146 | moving back one month after moving forward one (and the reverse) returns the same anchor |
| `Calendar.MakeDate` | src/DateRangePicker.tsx:464 | `new Date(y, m, d)` with a day past the month's end yields a valid date that is d - 1 days after the 1st |
| `Calendar.AddMonths` | src/DateRangePicker.tsx:464-466 | date-fns month addition yields a valid date exactly n months later, and keeps the day or clamps it to the target month's last day |
| `Calendar.AddMonthToFirst` | src/DateRangePicker.tsx:83-90 | adding one month to the 1st of a month gives the 1st of the next month, and subtracting one gives that of the previous month |
| `Calendar.AddMonthsTo` | src/DateRangePicker.tsx:464-466 | `add(date, {months: n})` on a time-carrying date gives a valid instant n months later at the same time of day, keeping the day or clamping it to the target month's last day |
| `Calendar.AddDays` | src/DateRangePicker.tsx:21 | adding n days yields a valid instant whose day ordinal is n larger, at the same time of day |
| `Compare.SameDay` | src/DateRangePicker.tsx:180-183 | `isSameDay` holds of valid instants exactly when their day ordinals agree |
| `Compare.IsEqual` | src/DateRangePicker.tsx:40 | `isEqual` holds of valid instants exactly when they are the same day and time |
| `Compare.IsBefore` | src/DateRangePicker.tsx:40-41 | `isBefore(a, b)` holds exactly when a's day precedes b's in the calendar, or the day is the same and a's time earlier |
| `Compare.IsAfter` | src/DateRangePicker.tsx:43-44 | `isAfter(a, b)` holds exactly when b's day precedes a's in the calendar, or the day is the same and a's time later |
| `Compare.IsBetween` | src/DateRangePicker.tsx:25-46 | fails exactly for a token other than the four, with that token as the error; a true result lies within the closed interval and a false one outside the open interval |
| `Compare.BetweenIsInterval` | src/DateRangePicker.tsx:35-45 | each of the four tokens is the interval whose lower bound is closed by `[` and whose upper bound is closed by `]` |
| `Compare.BetweenDefaultIsOpen` | src/DateRangePicker.tsx:29 | without a token the test is the `()` test |
| `Compare.BetweenEndpoints` | src/DateRangePicker.tsx:35-45 | for a forward range, both bounds are between with `[]` and neither is with `()` |
| `Compare.BetweenBackwardsEmpty` | src/DateRangePicker.tsx:38-45 | when `from` is after `to`, nothing is between under any accepted token |
| `Compare.BetweenWidens` | src/DateRangePicker.tsx:35-36 | making a bound inclusive only adds instants: `()` implies `(]` and `[)`, each of which implies `[]` |
| `Grid.StartDay` | src/DateRangePicker.tsx:56-59 | the number of leading blanks is the weekday of the 1st, between 0 and 6 |
| `Grid.GenerateCalendar` | src/DateRangePicker.tsx:48-73 | exactly 42 cells; cell i holds i - startDay + 1 when 0 <= i - startDay < daysInMonth and is blank otherwise |
| `Grid.GridCountsMonth` | src/DateRangePicker.tsx:61-71 | the number of non-blank cells equals the month's day count |
| `Grid.GridFirstDay` | src/DateRangePicker.tsx:59-66 | the first non-blank cell is at the weekday index of the 1st and holds 1 |
| `Grid.GridFits` | src/DateRangePicker.tsx:59-71 | the last day sits at index 36 or earlier, so cells 37..41 are always blank |
| `Grid.GridHoldsEachDay` | src/DateRangePicker.tsx:62-71 | every day 1..daysInMonth appears at index startDay + day - 1, and no cell holds anything else |
| `Grid.GridIncreasing` | src/DateRangePicker.tsx:62-71 | day numbers increase strictly along the grid |
| `Grid.LeapFebruaryGrid` | src/DateRangePicker.tsx:59-61 | February 2024 starts on Thursday (index 4) with 29 days; March 2024 has 31 |
| `Picker.InitialRange` | src/DateRangePicker.tsx:19-22 | the initial range is always full: a given bound is kept, a missing start is today, and a missing end is 20 days after today at the same time |
| `Picker.Click` | src/DateRangePicker.tsx:232-267 | after any click the start is present; a start-only range gets the clicked end with no reordering; otherwise the start becomes the clicked day; a full range loses its end; a range without start keeps its end |
| `Picker.ClickAlternates` | src/DateRangePicker.tsx:232-267 | once a start is set, clicks alternate between a start-only range and a full one |
| `Picker.Effect` | src/DateRangePicker.tsx:94-98 | the effect calls `onUpdate` at most once, exactly when a callback was given and both bounds are present, and passes the current range |
| `Picker.ReplayFromFull` | src/DateRangePicker.tsx:94-98 | from a full range, an even number of clicks gives a full range and an odd number a start-only one; `onUpdate` is called once per pair of clicks, with the pair as range (repeats included) |
| `Picker.ResolveLeft` | src/DateRangePicker.tsx:236 | a left-panel day v is local midnight of day v of the anchor month |
| `Picker.MakeDateOverflowOnce` | src/DateRangePicker.tsx:464 | a day beyond the anchor month's length, but within the next month, lands in the next month |
| `Picker.ResolveRight` | src/DateRangePicker.tsx:464-466 | a right-panel day v is that day of the month after the anchor when the anchor month has a day v, and otherwise day v - daysInMonth(anchor) two months after the anchor |
| `Picker.RightPanelOverflowExample` | src/DateRangePicker.tsx:464-466 | with February 2023 as anchor, right-panel day 30 selects 2 April 2023 |
| `Picker.AddMonthsClampExample` | src/DateRangePicker.tsx:464-466 | 31 January plus one month is 28 February 2023 and 29 February 2024 |
| `Picker.RightLabelYear` | src/DateRangePicker.tsx:284-289 | the right panel's year label is the anchor year plus one |
| `Picker.RightLabelYearMatchesGrid` | src/DateRangePicker.tsx:280-289 | the right label's year equals the year of the right grid's month exactly when the anchor is December |
| `Picker.CellMarks` | src/DateRangePicker.tsx:179-231 | a cell is shaded exactly when both bounds exist and it lies between them inclusive, instant-wise; it is marked start, end or today exactly when it is on that day |
| `Picker.NothingInRangeUnlessForward` | src/DateRangePicker.tsx:213-218 | a start-only range or a backwards range shades no cell |
| `Picker.BackwardsClickKept` | src/DateRangePicker.tsx:244-254 | clicking an end before the start stores the backwards range as clicked, which then shades nothing |
| `Picker.DefaultRangeEdgeCells` | src/DateRangePicker.tsx:19-22 | with the default range taken after midnight, today's cell is marked start but not shaded, while the default end day's cell is marked end and shaded |
| `Picker.DateRangePicker.constructor` | src/DateRangePicker.tsx:13-22 | mounting sets the anchor to today's month and the range to the initial one, and calls `onUpdate`, if given, once with that full range |
| `Picker.DateRangePicker.LeftGrid` | src/DateRangePicker.tsx:75-81 | the left grid is the grid of the anchor month: 42 cells holding every one of its days |
| `Picker.DateRangePicker.RightGrid` | src/DateRangePicker.tsx:83-91 | the right grid is always the grid of the month after the anchor, with all its days |
| `Picker.DateRangePicker.Prev` | src/DateRangePicker.tsx:114-120 | the anchor moves back one month, January rolling to December of the previous year; the right panel's button (lines 295-305) runs the same code |
| `Picker.DateRangePicker.Next` | src/DateRangePicker.tsx:140-146 | the anchor moves forward one month, December rolling to January of the next year; the right panel's button (lines 325-332) runs the same code |
| `Picker.DateRangePicker.UpdateEffect` | src/DateRangePicker.tsx:94-98 | appends the current range to the call log exactly when a callback was given and both bounds are present |
| `Picker.DateRangePicker.Select` | src/DateRangePicker.tsx:232-267 | the three sequential tests on the pre-click range write exactly the transition `Click`, then the effect runs |
| `Picker.DateRangePicker.ClickLeft` | src/DateRangePicker.tsx:232-267 | the range becomes `Click` of the old range and the left day's date, and the effect's call, if any, is logged; the start stays present |
| `Picker.DateRangePicker.ClickRight` | src/DateRangePicker.tsx:460-541 | the range becomes `Click` of the old range and `ResolveRight` of the day, and the effect's call, if any, is logged; the start stays present |
| `Picker.NotifiedPairs` | src/DateRangePicker.tsx:94-98 | a mounted picker with a callback has called it once on mounting and then once per pair of clicks, with that pair as start and end |

## Left out

- JSX markup, CSS class strings, SVG icons and the weekday header: presentation only. The highlight tests that build the class strings are modelled by `CellMarks`.
- `console.log` calls: output with no effect on state.
- React scheduling and batching of `useState`/`useEffect`: each handler and the effect that follows it are one synchronous step. The `currCalendar`/`nextCalendar` state that the anchor effect fills (lines 75-92) is modelled as the derived functions `LeftGrid` and `RightGrid`.
- Month names from `format(..., "MMMM")`: locale-dependent library formatting. Only the label's year is modelled.
- Wall-clock `new Date()`: "today" is a constructor parameter. Time zones, daylight-saving shifts and leap seconds are not modelled; a day is always 86,400,000 ms.
- JavaScript maps years 0..99 in `new Date(y, m)` to 1900..1999. The model takes every year literally, and its years are unbounded: a JavaScript `Date` only holds times within 8.64e15 ms (about 275,760 years) of 1970, beyond which `new Date(y, m)` is an Invalid Date whose `getMonth()` is NaN; that limit is not modelled.
- `new Date(y, m, d)` is modelled for days d >= 1 only (forward overflow). That is all the component passes.
- How date-fns coerces a `null` bound in `isSameDay`/`isBetween`: a missing bound matches no day and shades no cell.
- A throwing `onUpdate` callback: the callback is only logged.
