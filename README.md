# tqtime in Dafny

A model of the conversion engine of the Go package `tqtime`, which turns a
Gregorian date into a date of the Tranquility calendar: a perennial calendar of
13 months of 28 days (Archimedes to Mendel, every month starting on a Friday),
counted from the first crewed Moon landing, with three days that belong to no
month and no week: Armstrong Day (20 July, the last day of every Tranquility
year except year -1), Aldrin Day (29 February, inserted before the last day of Hippocrates in
leap years) and Moon Landing Day (20 July 1969, year 0).

The model follows `tqtime.go` function by function:

- `Decimal.dfy` — module `Options` (an `Option` type) and module `Decimal`: the
  decimal text that Go's `strconv.Itoa`, `%d` and `%02d` produce, and parsers
  that read it back.
- `TqTime.dfy` — module `TqTime`: the weekday and month enumerations and the
  special-day markers as in the source, Go's truncating `%` (`GoRem`),
  `ClockModulo`, the Gregorian helpers, the Tranquility day of year, the leap
  adjustment, the public fields `Year`, `Month`, `Day`, `Weekday`, the
  renderers (`TqMonthString` for `TqMonth.String`, `MonthLetter`, `DayName`,
  `DayCode`, `WeekdayName`, `ShortDate`, `LongDate`) and `IsBeforeTranquility`.
- `TqTimeFacts.dfy` — module `TqTimeFacts`: properties that relate several
  functions (the Gregorian dates of the special days, what changes from one day
  to the next, the Gregorian date of every Tranquility month and day, reading
  the short form back) and the calendar's dated examples.

The source is pure: every function is an expression or an if/switch, so the
model is functions and lemmas. In the source `Year`, `Month`, `Day`, `Weekday`,
`YearDay`, `ShortDate` and `LongDate` take a Unix timestamp and first split it
into Gregorian year and day of year with Go's `time` package; here they take
that pair `(gy, gyd)` directly and require `1 <= gyd <= GYearLen(gy)`, which is
what that split always delivers. The renderers (`TqMonthString`, `MonthLetter`,
`DayName`, `DayCode`, `WeekdayName`) take enumeration or integer values, as in
the source, and `IsBeforeTranquility` takes the Unix timestamp itself.

Day 59 of 1900, a common year, is the Tranquility day of year 223, which is
27 Hippocrates of year -70, short form `27H -70`
(`TqTimeFacts.Day59Of1900Example`). `IsBeforeTranquility` compares a Unix
timestamp with the constant -14182919, the instant 20:18:01 UTC on 20 July 1969.

## Model

| member | source | states |
|---|---|---|
| `TqTime.GoRem` | tqtime.go:91 | Go's `%` for a positive divisor: remainder in [0, b) for a >= 0 and in (-b, 0] for a < 0, congruent to a, zero exactly when b divides a |
| `TqTime.ClockModulo` | tqtime.go:89-96 | result is b exactly when b divides a; in [1, b] for a >= 0; in (-b, 0) for a negative non-multiple; always congruent to a modulo b |
| `TqTime.ClockModuloUnique` | tqtime.go:89-96 | for a >= 0 the result is the only number in [1, b] congruent to a |
| `TqTime.ClockModuloStep` | tqtime.go:89-96 | counting on by one moves the result one step round the cycle 1..b |
| `TqTime.GLeapYear` | tqtime.go:68-71 | a year is leap exactly when Go's truncating remainder finds it divisible by 400, or by 4 and not by 100; this holds for negative years too |
| `TqTime.GYearLen` | tqtime.go:73-79 | 366 exactly in leap years, 365 exactly otherwise |
| `TqTime.GArmstrongDay` | tqtime.go:81-87 | 202 exactly in leap years, 201 otherwise; always 164 days before the year's end |
| `TqTime.TqYearDay` | tqtime.go:98-102 | never 0 and never beyond the year length; for a valid day it is the day shifted forward by 164 up to Armstrong Day and the day minus Armstrong Day after it |
| `TqTime.GregorianYearDay` | tqtime.go:98-102 | every Tranquility day of year is the image of a valid Gregorian day of the same year |
| `TqTimeFacts.TqYearDayRoundTrip` | tqtime.go:98-102 | the rotation is one-to-one on a year's days |
| `TqTimeFacts.TqYearBoundaries` | tqtime.go:81-102 | Armstrong Day maps to the last Tranquility day of year and the day after it to day 1 |
| `TqTime.TqLeapAdjustedYearDay` | tqtime.go:104-121 | Aldrin Day exactly for day 224 of a leap year; Moon Landing Day exactly for the year's last day in 1969; Armstrong Day exactly for the last day of any other year; otherwise a day in [1, 364] |
| `TqTime.UnadjustedYearDay` | tqtime.go:104-121 | every adjusted ordinary day in [1, 364] is the adjustment of some day of the year |
| `TqTime.LeapAdjustedRoundTrip` | tqtime.go:104-121 | on ordinary days the adjustment is one-to-one |
| `TqTimeFacts.LeapAdjustedExample` | tqtime.go:104 | day 300 of 2000 is the adjusted day 299 |
| `TqTime.AdjustedYearDay` | tqtime.go:154 | the leap-adjusted day of a valid date is a special marker or a day in [1, 364] |
| `TqTime.Year` | tqtime.go:135-149 | 0 exactly on 20 July 1969; positive exactly for dates after it |
| `TqTime.Month` | tqtime.go:151-159 | SpecialDay exactly on special days, otherwise a month from Archimedes to Mendel |
| `TqTime.Day` | tqtime.go:161-169 | negative exactly on special days, and then the special marker; otherwise in [1, 28] and congruent to the adjusted day of year |
| `TqTime.Weekday` | tqtime.go:171-178 | SpecialWeekday exactly when the day is special; otherwise Friday..Thursday congruent to the day of month modulo 7; day 1 is Friday and day 28 Thursday |
| `TqTime.MonthDayRoundTrip` | tqtime.go:151-169 | month and day are special together; otherwise (month - 1) * 28 + day is the adjusted day of year |
| `TqTime.MoonLandingYearZero` | tqtime.go:135-169 | year 0 exactly on Moon Landing Day |
| `TqTime.TqMonthString` | tqtime.go:180-201 | "" exactly for values outside Archimedes..Mendel; otherwise a name whose initial is the month's place in the alphabet |
| `TqTime.MonthLetter` | tqtime.go:203-210 | "" exactly for values that are not months; otherwise one letter, A for Archimedes to M for Mendel |
| `TqTime.MonthOfLetter` | tqtime.go:203-210 | a letter read back gives a month whose letter it is |
| `TqTime.MonthLetterRoundTrip` | tqtime.go:203-210 | the letter of a month reads back as that month |
| `TqTime.DayName` | tqtime.go:212-224 | the three special names; any other value is the shortest decimal text of its clock-modulo-28 day and reads back as it, so days 1..28 read back as themselves |
| `TqTime.DayCode` | tqtime.go:226-238 | ARM, ALD, MNL for the special days; any other value is the shortest decimal text of its clock-modulo-28 day and reads back as it |
| `TqTime.WeekdayName` | tqtime.go:240-246 | "" exactly outside Friday..Thursday; otherwise Go's weekday name at (w + 4) % 7 equals the Tranquility enumeration's own name |
| `TqTime.ShortDate` | tqtime.go:248-257 | on special days the day code, a space and the year; otherwise the zero-padded day, the month letter, a space and the year; the space is always the fourth character |
| `TqTimeFacts.ShortDateRoundTrip` | tqtime.go:248-257 | day of month, month and year are read back from the short form |
| `TqTimeFacts.ShortDateDetermines` | tqtime.go:248-257 | equal short forms mean equal day of month, month and year |
| `TqTime.LongDate` | tqtime.go:259-280 | exactly "Moon Landing Day" on Moon Landing Day only; otherwise ends in "Before Tranquility" exactly for negative years and in "After Tranquility" exactly for positive years |
| `TqTime.LongForm` | tqtime.go:259-280 | from resolved fields: the same; away from Moon Landing Day the text is exactly the head, ", ", the year's magnitude, a space and the era, where the head is the day's name on Armstrong and Aldrin Day and the weekday name, ", ", the day, a space and the month's name on ordinary days |
| `TqTimeFacts.LongDateYearText` | tqtime.go:266-279 | the long form ends with the magnitude of the year and its era |
| `TqTimeFacts.LongDateFormat` | tqtime.go:266-279 | away from Moon Landing Day the long form of a date is exactly its head, ", ", the year's magnitude and the era |
| `TqTimeFacts.LongDateHead` | tqtime.go:274-279 | the long form starts with "Armstrong Day, " or "Aldrin Day, " on those days, and with the weekday, day and month names on ordinary days |
| `TqTimeFacts.FirstDayLongExample` | tqtime.go:276-279 | 21 July 1969 is "Friday, 1 Archimedes, 1 After Tranquility" |
| `TqTimeFacts.ArmstrongDay1968LongExample` | tqtime.go:266-275 | 20 July 1968 is "Armstrong Day, 2 Before Tranquility" |
| `TqTimeFacts.AldrinDay2000LongExample` | tqtime.go:266-275 | 29 February 2000 is "Aldrin Day, 31 After Tranquility" |
| `TqTime.IsBeforeTranquility` | tqtime.go:129-133 | true exactly for instants on a Unix day before 20 July 1969, or on that day before 20:18:01 UTC |
| `TqTimeFacts.SpecialDaysInGregorianTerms` | tqtime.go:48-55 | Aldrin Day is exactly 29 February (day 60) of leap years, Armstrong Day exactly 20 July of every year but 1969, Moon Landing Day exactly 20 July 1969 |
| `TqTimeFacts.YearStep` | tqtime.go:135-149 | from one day to the next the year rises by one exactly on the first day of a Tranquility year and on Moon Landing Day |
| `TqTimeFacts.AdjustedDayStep` | tqtime.go:151-169 | between consecutive ordinary days the adjusted day of year rises by one, also across the Gregorian new year |
| `TqTimeFacts.WeekNeverBreaks` | tqtime.go:161-178 | between consecutive ordinary days the day of month and the weekday advance cyclically |
| `TqTimeFacts.MonthCycleStep` | tqtime.go:168-177 | one step of the 28-day month cycle is one step of the 7-day week cycle, Thursday the 28th followed by Friday the 1st |
| `TqTimeFacts.GregorianDayOf` | tqtime.go:151-169 | every day 1..28 of every month occurs in every Tranquility year |
| `TqTimeFacts.GregorianDayOfRoundTrip` | tqtime.go:151-169 | an ordinary day is the only date with its month and day in its year |
| `TqTimeFacts.MoonLandingDayExample` | tqtime.go:54-55 | 20 July 1969: year 0, no month or weekday, "MNL 0", "Moon Landing Day" |
| `TqTimeFacts.FirstDayExample` | tqtime.go:135-178 | 21 July 1969: Friday 1 Archimedes of year 1, "01A 1" |
| `TqTimeFacts.LastDayBeforeExample` | tqtime.go:135-169 | 19 July 1969: 28 Mendel of year -1, "28M -1" |
| `TqTimeFacts.ArmstrongDay1968Example` | tqtime.go:48-49 | 20 July 1968: Armstrong Day of year -2, "ARM -2" |
| `TqTimeFacts.AldrinDay2000Example` | tqtime.go:51-52 | 29 February 2000: Aldrin Day of year 31, "ALD 31" |
| `TqTimeFacts.Day59Of1900Example` | tqtime.go:151-169 | day 59 of the common year 1900: 27 Hippocrates of year -70, "27H -70" |
| `Decimal.NatDigits` | tqtime.go:222 | the digits of a non-negative number: at least one, no leading zero, and a first digit '0' only for 0 |
| `Decimal.ParseNatDigits` | tqtime.go:222 | the digits read back as the number |
| `Decimal.Itoa` | tqtime.go:222 | a leading '-' exactly for negative numbers, digits otherwise, and never a leading zero before another digit |
| `Decimal.ItoaRoundTrip` | tqtime.go:222 | the text reads back as the number |
| `Decimal.Pad2` | tqtime.go:256 | at least two digits, exactly two below 100, reading back as the number |

## Left out

- `gYearDay` (tqtime.go:62-66): a call into Go's `time.Unix`; the Gregorian year and day of year are parameters instead.
- `YearDay` (tqtime.go:123-127): only `gYearDay` followed by `TqYearDay`, which is modelled.
- Go's `int` is 64 bits wide; the model uses unbounded integers, so overflow of years near 2^63 is not modelled.
- `ClockModulo` requires a positive divisor: Go panics on 0, and the source only ever passes 7, 28 or a year length.
- `Pad2` takes a non-negative number: `%02d` is only used on days of the month 1..28.
- `WeekdayName` uses a fixed copy of Go's `time.Weekday` names in place of the library call.
- `LongDate`: its own contract states only the Moon Landing Day case and the era; the whole text of every other day is stated in `LongForm` and lifted to dates by `TqTimeFacts.LongDateFormat`, with `TqTimeFacts.LongDateHead` and `TqTimeFacts.LongDateYearText` for its beginning and end, which keeps each proof small.
- The example programs (`_example/tqdate.go`, `_example/today.go`) and `tqtime_test.go` only read input, call the clock and print.
