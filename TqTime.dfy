/**
  The Tranquility calendar conversion engine of package tqtime: a Gregorian
  (year, day-of-year) pair is turned into a Tranquility year, month,
  day-of-month and weekday, each of which is either an ordinary value or a
  marker for one of the three days that belong to no month and no week
  (Armstrong Day, Aldrin Day, Moon Landing Day), and these fields are
  rendered as short and long text.

  The package's date functions (Year, Month, Day, Weekday, ShortDate,
  LongDate) take a Unix timestamp and first split it into the Gregorian year
  and day of year; here that split is left to the caller, and each of them
  takes the pair (gy, gyd) itself, with 1 <= gyd <= GYearLen(gy) as its
  precondition.
 */
module TqTime {
  import opened Options
  import opened Decimal

  // ---------------------------------------------------------------------
  // Enumerations and constants
  // ---------------------------------------------------------------------

  /** A day of the Tranquility week; 0 is the marker for days outside every week. */
  newtype TqWeekday = int

  const SpecialWeekday: TqWeekday := 0
  const Friday: TqWeekday := 1
  const Saturday: TqWeekday := 2
  const Sunday: TqWeekday := 3
  const Monday: TqWeekday := 4
  const Tuesday: TqWeekday := 5
  const Wednesday: TqWeekday := 6
  const Thursday: TqWeekday := 7

  /** A Tranquility month; 0 is the marker for days outside every month. */
  newtype TqMonth = int

  const SpecialDay: TqMonth := 0
  const Archimedes: TqMonth := 1
  const Brahe: TqMonth := 2
  const Copernicus: TqMonth := 3
  const Darwin: TqMonth := 4
  const Einstein: TqMonth := 5
  const Faraday: TqMonth := 6
  const Galileo: TqMonth := 7
  const Hippocrates: TqMonth := 8
  const Imhotep: TqMonth := 9
  const Jung: TqMonth := 10
  const Kepler: TqMonth := 11
  const Lavoisier: TqMonth := 12
  const Mendel: TqMonth := 13

  /** The day-of-month markers of the three days that belong to no month. */
  const ArmstrongDay: int := -1
  const AldrinDay: int := -2
  const MoonLandingDay: int := -3

  const CommonYearLen: int := 365
  const GCommonYearArmstrongDay: int := 201
  const TqMonthLen: int := 28
  const GMoonLandingYear: int := 1969

  /** The forward rotation from a Gregorian day of year to a Tranquility day of year. */
  const TqYearShift: int := CommonYearLen - GCommonYearArmstrongDay

  /** The Tranquility day of year that is Aldrin Day in a leap year: the last day of Hippocrates. */
  const TqAldrinSlot: int := TqMonthLen * Hippocrates as int

  /** The number of ordinary (month-and-week) days in every Tranquility year. */
  const OrdinaryDays: int := CommonYearLen - 1

  predicate IsSpecialDay(d: int) {
    d == ArmstrongDay || d == AldrinDay || d == MoonLandingDay
  }

  // ---------------------------------------------------------------------
  // Arithmetic helpers
  // ---------------------------------------------------------------------

  /** Euclidean division is determined by its quotient and remainder. */
  lemma DivModUnique(a: int, b: int, q: int, r: int)
    requires b > 0 && 0 <= r < b && a == q * b + r
    ensures a / b == q && a % b == r
  {
    var q0, r0 := a / b, a % b;
    assert a == q0 * b + r0;
    assert (q - q0) * b == r0 - r;
    var k := q - q0;
    assert k * b == b + (k - 1) * b && k * b == -b + (k + 1) * b;
    assert k >= 1 ==> (k - 1) * b >= 0;
    assert k <= -1 ==> (k + 1) * b <= 0;
  }

  /** b divides a exactly when a is an integer multiple of b. */
  lemma MultipleMod(a: int, b: int, q: int)
    requires b > 0 && a == q * b
    ensures a % b == 0
  {
    DivModUnique(a, b, q, 0);
  }

  /** Go's `%` for a positive divisor: division truncates toward zero, so the remainder has the sign of a. */
  function GoRem(a: int, b: int): (r: int)
    requires b > 0
    ensures a >= 0 ==> 0 <= r < b
    ensures a < 0 ==> -b < r <= 0
    ensures (a - r) % b == 0
    ensures r == 0 <==> a % b == 0
  {
    if a >= 0 then
      assert (a - a % b) % b == 0 by { MultipleMod(a - a % b, b, a / b); }
      a % b
    else
      var q := (-a) / b;
      assert -a == q * b + (-a) % b;
      assert (a + (-a) % b) % b == 0 by { MultipleMod(a + (-a) % b, b, -q); }
      assert (-a) % b == 0 ==> a % b == 0 by {
        if (-a) % b == 0 { MultipleMod(a, b, -q); }
      }
      assert a % b == 0 ==> (-a) % b == 0 by {
        if a % b == 0 { MultipleMod(-a, b, -(a / b)); }
      }
      -((-a) % b)
  }

  /** A remainder in [1, b] rather than [0, b - 1]: an exact multiple of b gives b itself. */
  function ClockModulo(a: int, b: int): (r: int)
    requires b > 0
    ensures r == b <==> a % b == 0
    ensures a >= 0 ==> 1 <= r <= b
    ensures a < 0 && a % b != 0 ==> -b < r < 0
    ensures (a - r) % b == 0
  {
    var mod := GoRem(a, b);
    if mod == 0 then
      assert (a - b) % b == 0 by { MultipleMod(a - b, b, a / b - 1); }
      b
    else mod
  }

  /** Numbers congruent modulo b have the same remainder. */
  lemma CongruentMod(a: int, x: int, b: int)
    requires b > 0 && (a - x) % b == 0
    ensures a % b == x % b
  {
    var q := (a - x) / b;
    assert a - x == q * b;
    assert x == (x / b) * b + x % b;
    DivModUnique(a, b, q + x / b, x % b);
  }

  /** For a >= 0, ClockModulo(a, b) is the only number in [1, b] congruent to a modulo b. */
  lemma ClockModuloUnique(a: int, b: int, x: int)
    requires a >= 0 && b > 0 && 1 <= x <= b && (a - x) % b == 0
    ensures ClockModulo(a, b) == x
  {
    var r := ClockModulo(a, b);
    CongruentMod(a, x, b);
    CongruentMod(a, r, b);
    if x < b {
      DivModUnique(x, b, 0, x);
    } else {
      DivModUnique(x, b, 1, 0);
    }
    if r < b {
      DivModUnique(r, b, 0, r);
    }
  }

  /** Counting on by one moves ClockModulo one step round its cycle 1, 2, ..., b, 1, ... */
  lemma ClockModuloStep(a: int, b: int)
    requires a >= 0 && b > 0
    ensures ClockModulo(a + 1, b) == ClockModulo(a, b) % b + 1
  {
    var r := ClockModulo(a, b);
    if r < b {
      DivModUnique(r, b, 0, r);
      assert (a + 1 - (r + 1)) % b == 0;
      ClockModuloUnique(a + 1, b, r + 1);
    } else {
      DivModUnique(r, b, 1, 0);
      assert a % b == 0;
      assert (a + 1 - 1) % b == 0;
      ClockModuloUnique(a + 1, b, 1);
    }
  }

  // ---------------------------------------------------------------------
  // Gregorian helpers
  // ---------------------------------------------------------------------

  /**
    Gregorian leap years. Go's truncating `%` and Dafny's Euclidean `%` agree
    on whether the remainder is zero, also for negative years.
   */
  predicate GLeapYear(gy: int)
    ensures GLeapYear(gy) <==> GoRem(gy, 400) == 0 || (GoRem(gy, 4) == 0 && GoRem(gy, 100) != 0)
  {
    (gy % 400 == 0) || (gy % 4 == 0 && gy % 100 != 0)
  }

  function GYearLen(gy: int): (n: int)
    ensures n == 366 <==> GLeapYear(gy)
    ensures n == 365 <==> !GLeapYear(gy)
  {
    if GLeapYear(gy) then CommonYearLen + 1 else CommonYearLen
  }

  /** The Gregorian day of year of 20 July, Armstrong Day: always TqYearShift days before the year's end. */
  function GArmstrongDay(gy: int): (d: int)
    ensures d == GYearLen(gy) - TqYearShift
    ensures d == 202 <==> GLeapYear(gy)
    ensures d == 201 <==> !GLeapYear(gy)
  {
    if GLeapYear(gy) then GCommonYearArmstrongDay + 1 else GCommonYearArmstrongDay
  }

  /** A Gregorian day of year that exists in year gy. */
  predicate ValidGregorian(gy: int, gyd: int) {
    1 <= gyd <= GYearLen(gy)
  }

  /** A Tranquility day of year, before leap adjustment, for the Tranquility year that ends in Gregorian year gy. */
  predicate InTqYear(gy: int, tqyd: int) {
    1 <= tqyd <= GYearLen(gy)
  }

  // ---------------------------------------------------------------------
  // Tranquility day of year
  // ---------------------------------------------------------------------

  /**
    Rotates the Gregorian day of year by TqYearShift within the year's length.
    The Tranquility year begins the day after Armstrong Day, so the days up to
    Armstrong Day land at the end and the days after it at the start.
   */
  function TqYearDay(gy: int, gyd: int): (tqyd: int)
    ensures gyd + TqYearShift >= 0 ==> InTqYear(gy, tqyd)
    ensures ValidGregorian(gy, gyd) ==>
      tqyd == if gyd <= GArmstrongDay(gy) then gyd + TqYearShift else gyd - GArmstrongDay(gy)
  {
    var a := gyd + TqYearShift;
    var n := GYearLen(gy);
    var r := ClockModulo(a, n);
    assert ValidGregorian(gy, gyd) ==> r == if a <= n then a else a - n by {
      if ValidGregorian(gy, gyd) {
        assert 0 < a < 2 * n;
        if a < n {
          assert a % n == a;
        } else if a > n {
          assert a - n == a % n by { assert a == 1 * n + (a - n); }
        }
      }
    }
    r
  }

  /** The inverse of TqYearDay within one year: the Gregorian day of year of a Tranquility day of year. */
  function GregorianYearDay(gy: int, tqyd: int): (gyd: int)
    requires InTqYear(gy, tqyd)
    ensures ValidGregorian(gy, gyd)
    ensures TqYearDay(gy, gyd) == tqyd
  {
    if tqyd <= TqYearShift then tqyd + GArmstrongDay(gy) else tqyd - TqYearShift
  }

  /**
    Removes Aldrin Day from a leap year so that the rest of the year falls on
    the common-year grid of 13 months of 28 days, and recognises the special
    days: Aldrin Day at TqAldrinSlot in leap years, and at the adjusted day 365
    Armstrong Day, or Moon Landing Day in 1969.
   */
  function TqLeapAdjustedYearDay(tqyd: int, gy: int): (d: int)
    ensures InTqYear(gy, tqyd) ==> (d == AldrinDay <==> GLeapYear(gy) && tqyd == TqAldrinSlot)
    ensures InTqYear(gy, tqyd) ==> (d == MoonLandingDay <==> gy == GMoonLandingYear && tqyd == GYearLen(gy))
    ensures InTqYear(gy, tqyd) ==> (d == ArmstrongDay <==> gy != GMoonLandingYear && tqyd == GYearLen(gy))
    ensures InTqYear(gy, tqyd) ==> IsSpecialDay(d) || 1 <= d <= OrdinaryDays
  {
    if GLeapYear(gy) && tqyd == TqAldrinSlot then AldrinDay
    else
      var t := if GLeapYear(gy) && tqyd > TqAldrinSlot then tqyd - 1 else tqyd;
      if t == CommonYearLen then
        if gy == GMoonLandingYear then MoonLandingDay else ArmstrongDay
      else t
  }

  /** The inverse of TqLeapAdjustedYearDay on ordinary days: where an adjusted day sits in year gy. */
  function UnadjustedYearDay(d: int, gy: int): (tqyd: int)
    requires 1 <= d <= OrdinaryDays
    ensures InTqYear(gy, tqyd)
    ensures TqLeapAdjustedYearDay(tqyd, gy) == d
  {
    if GLeapYear(gy) && d >= TqAldrinSlot then d + 1 else d
  }

  lemma LeapAdjustedRoundTrip(tqyd: int, gy: int)
    requires InTqYear(gy, tqyd)
    requires !IsSpecialDay(TqLeapAdjustedYearDay(tqyd, gy))
    ensures UnadjustedYearDay(TqLeapAdjustedYearDay(tqyd, gy), gy) == tqyd
  {
  }

  /** The leap-adjusted Tranquility day of year of a Gregorian date: a special-day marker or a day in [1, 364]. */
  function AdjustedYearDay(gy: int, gyd: int): (d: int)
    requires ValidGregorian(gy, gyd)
    ensures IsSpecialDay(d) || 1 <= d <= OrdinaryDays
  {
    TqLeapAdjustedYearDay(TqYearDay(gy, gyd), gy)
  }

  // ---------------------------------------------------------------------
  // Public fields
  // ---------------------------------------------------------------------

  /**
    The Tranquility year: 0 only for Moon Landing Day, positive after it and
    negative before it; ordinary days skip year 0, and 20 July 1968 is Armstrong
    Day of year -2.
   */
  function Year(gy: int, gyd: int): (tqy: int)
    requires ValidGregorian(gy, gyd)
    ensures tqy == 0 <==> gy == GMoonLandingYear && gyd == GCommonYearArmstrongDay
    ensures tqy > 0 <==> gy > GMoonLandingYear || (gy == GMoonLandingYear && gyd > GCommonYearArmstrongDay)
  {
    if gy == GMoonLandingYear && gyd == GCommonYearArmstrongDay then 0
    else
      var diff := gy - GMoonLandingYear;
      var diff' := if gyd > GArmstrongDay(gy) then diff + 1 else diff;
      if diff' < 1 then diff' - 1 else diff'
  }

  function Month(gy: int, gyd: int): (m: TqMonth)
    requires ValidGregorian(gy, gyd)
    ensures m == SpecialDay <==> IsSpecialDay(AdjustedYearDay(gy, gyd))
    ensures m != SpecialDay ==> Archimedes <= m <= Mendel
  {
    var tqyd := AdjustedYearDay(gy, gyd);
    if tqyd < 0 then SpecialDay else (((tqyd - 1) / TqMonthLen) + 1) as TqMonth
  }

  function Day(gy: int, gyd: int): (d: int)
    requires ValidGregorian(gy, gyd)
    ensures d < 0 <==> IsSpecialDay(d)
    ensures d < 0 <==> IsSpecialDay(AdjustedYearDay(gy, gyd))
    ensures d < 0 ==> d == AdjustedYearDay(gy, gyd)
    ensures d >= 0 ==> 1 <= d <= TqMonthLen && (AdjustedYearDay(gy, gyd) - d) % TqMonthLen == 0
  {
    var tqyd := AdjustedYearDay(gy, gyd);
    if tqyd < 0 then tqyd else ClockModulo(tqyd, TqMonthLen)
  }

  /** Every month starts on a Friday, so the weekday follows the day of the month. */
  function Weekday(gy: int, gyd: int): (w: TqWeekday)
    requires ValidGregorian(gy, gyd)
    ensures w == SpecialWeekday <==> Day(gy, gyd) < 0
    ensures w != SpecialWeekday ==> Friday <= w <= Thursday && (w as int - Day(gy, gyd)) % 7 == 0
    ensures Day(gy, gyd) == 1 ==> w == Friday
    ensures Day(gy, gyd) == TqMonthLen ==> w == Thursday
  {
    var tqd := Day(gy, gyd);
    if tqd < 0 then SpecialWeekday else ClockModulo(tqd, 7) as TqWeekday
  }

  /** Month and day of month agree: both are special together, and otherwise they recompose the adjusted day of year. */
  lemma MonthDayRoundTrip(gy: int, gyd: int)
    requires ValidGregorian(gy, gyd)
    ensures Month(gy, gyd) == SpecialDay <==> Day(gy, gyd) < 0
    ensures Day(gy, gyd) >= 0 ==>
      (Month(gy, gyd) as int - 1) * TqMonthLen + Day(gy, gyd) == AdjustedYearDay(gy, gyd)
  {
    var t := AdjustedYearDay(gy, gyd);
    if t >= 0 {
      var q := (t - 1) / TqMonthLen;
      var r := (t - 1) % TqMonthLen;
      assert t == q * TqMonthLen + r + 1;
      assert Day(gy, gyd) == r + 1 by {
        assert (t - (r + 1)) % TqMonthLen == 0;
      }
    }
  }

  // ---------------------------------------------------------------------
  // Rendering
  // ---------------------------------------------------------------------

  const MonthNames: seq<string> := [
    "Archimedes", "Brahe", "Copernicus", "Darwin", "Einstein", "Faraday", "Galileo",
    "Hippocrates", "Imhotep", "Jung", "Kepler", "Lavoisier", "Mendel"
  ]

  /** TqMonth.String: the month's English name, or "" for anything that is not a month. */
  function TqMonthString(m: TqMonth): (name: string)
    ensures name == "" <==> !(Archimedes <= m <= Mendel)
    ensures Archimedes <= m <= Mendel ==> |name| >= 4 && name[0] as int - 'A' as int == m as int - 1
  {
    if m < Archimedes || m > Mendel then ""
    else
      assert forall i :: 0 <= i < |MonthNames| ==>
        |MonthNames[i]| >= 4 && MonthNames[i][0] as int - 'A' as int == i;
      MonthNames[m - 1]
  }

  /** The first letter of the month's name: months are in alphabetical order, A to M. */
  function MonthLetter(m: TqMonth): (letter: string)
    ensures letter == "" <==> !(Archimedes <= m <= Mendel)
    ensures Archimedes <= m <= Mendel ==> |letter| == 1 && letter[0] as int - 'A' as int == m as int - 1
  {
    var name := TqMonthString(m);
    if |name| > 0 then name[..1] else ""
  }

  /** The month whose letter is c, or SpecialDay; the reading of MonthLetter. */
  function MonthOfLetter(c: char): (m: TqMonth)
    ensures m == SpecialDay || MonthLetter(m) == [c]
    ensures m != SpecialDay <==> 'A' <= c <= 'M'
  {
    if 'A' <= c <= 'M' then (c as int - 'A' as int + 1) as TqMonth else SpecialDay
  }

  lemma MonthLetterRoundTrip(m: TqMonth)
    requires Archimedes <= m <= Mendel
    ensures MonthOfLetter(MonthLetter(m)[0]) == m
  {
  }

  /** DayName: the special days by name, any other value as the decimal day of the month. */
  function DayName(tqmd: int): (name: string)
    ensures tqmd == ArmstrongDay ==> name == "Armstrong Day"
    ensures tqmd == AldrinDay ==> name == "Aldrin Day"
    ensures tqmd == MoonLandingDay ==> name == "Moon Landing Day"
    ensures !IsSpecialDay(tqmd) ==> ParseInt(name) == Some(ClockModulo(tqmd, TqMonthLen))
    ensures !IsSpecialDay(tqmd) ==> name == Itoa(ClockModulo(tqmd, TqMonthLen))
    ensures 1 <= tqmd <= TqMonthLen ==> ParseInt(name) == Some(tqmd)
    ensures |name| >= 1
  {
    if tqmd == ArmstrongDay then "Armstrong Day"
    else if tqmd == AldrinDay then "Aldrin Day"
    else if tqmd == MoonLandingDay then "Moon Landing Day"
    else
      var n := ClockModulo(tqmd, TqMonthLen);
      ItoaRoundTrip(n);
      assert 1 <= tqmd <= TqMonthLen ==> n == tqmd by {
        if 1 <= tqmd < TqMonthLen {
          assert tqmd % TqMonthLen == tqmd;
        }
      }
      Itoa(n)
  }

  /** DayCode: the special days as three-letter codes, any other value as the decimal day of the month. */
  function DayCode(tqmd: int): (code: string)
    ensures tqmd == ArmstrongDay ==> code == "ARM"
    ensures tqmd == AldrinDay ==> code == "ALD"
    ensures tqmd == MoonLandingDay ==> code == "MNL"
    ensures IsSpecialDay(tqmd) ==> |code| == 3 && !IsDigit(code[0])
    ensures !IsSpecialDay(tqmd) ==> ParseInt(code) == Some(ClockModulo(tqmd, TqMonthLen))
    ensures !IsSpecialDay(tqmd) ==> code == Itoa(ClockModulo(tqmd, TqMonthLen))
  {
    if tqmd == ArmstrongDay then "ARM"
    else if tqmd == AldrinDay then "ALD"
    else if tqmd == MoonLandingDay then "MNL"
    else
      var n := ClockModulo(tqmd, TqMonthLen);
      ItoaRoundTrip(n);
      Itoa(n)
  }

  /** Go's time.Weekday.String table, indexed from Sunday = 0. */
  const GoWeekdayNames: seq<string> := [
    "Sunday", "Monday", "Tuesday", "Wednesday", "Thursday", "Friday", "Saturday"
  ]

  /** The Tranquility week in the order of the TqWeekday enumeration, from Friday = 1. */
  const TqWeekdayNames: seq<string> := [
    "Friday", "Saturday", "Sunday", "Monday", "Tuesday", "Wednesday", "Thursday"
  ]

  /** WeekdayName: the English name of the weekday, or "" for anything that is not a weekday. */
  function WeekdayName(tqwd: TqWeekday): (name: string)
    ensures name == "" <==> !(Friday <= tqwd <= Thursday)
    ensures Friday <= tqwd <= Thursday ==> name == TqWeekdayNames[tqwd - 1] && |name| >= 6
  {
    if tqwd < Friday || tqwd > Thursday then ""
    else
      var i := (tqwd as int + 4) % 7;
      assert GoWeekdayNames[i] == TqWeekdayNames[tqwd - 1] by {
        if tqwd == Friday { assert i == 5; }
        else if tqwd == Saturday { assert i == 6; }
        else if tqwd == Sunday { assert i == 0; }
        else if tqwd == Monday { assert i == 1; }
        else if tqwd == Tuesday { assert i == 2; }
        else if tqwd == Wednesday { assert i == 3; }
        else { assert i == 4; }
      }
      GoWeekdayNames[i]
  }

  /**
    The compact form: "DDM y" on ordinary days (zero-padded day of the month,
    month letter, year), "CCC y" on special days (three-letter day code, year).
   */
  function ShortDate(gy: int, gyd: int): (s: string)
    requires ValidGregorian(gy, gyd)
    ensures Day(gy, gyd) < 0 ==> s == DayCode(Day(gy, gyd)) + " " + Itoa(Year(gy, gyd))
    ensures Day(gy, gyd) >= 0 ==>
      s == Pad2(Day(gy, gyd)) + MonthLetter(Month(gy, gyd)) + " " + Itoa(Year(gy, gyd))
    ensures |s| >= 5 && s[3] == ' '
  {
    var tqmd := Day(gy, gyd);
    var tqy := Year(gy, gyd);
    if tqmd < 0 then DayCode(tqmd) + " " + Itoa(tqy)
    else
      var tqml := MonthLetter(Month(gy, gyd));
      Pad2(tqmd) + tqml + " " + Itoa(tqy)
  }

  predicate StartsWith(s: string, prefix: string) {
    |prefix| <= |s| && s[..|prefix|] == prefix
  }

  predicate EndsWith(s: string, suffix: string) {
    |suffix| <= |s| && s[|s| - |suffix|..] == suffix
  }

  /**
    The descriptive form. Moon Landing Day is exactly "Moon Landing Day"; every
    other day starts with the name of the day (Armstrong Day, Aldrin Day) or
    with the weekday, the day and the month's name, and ends with the year's
    magnitude and "Before Tranquility" when the year is negative or "After
    Tranquility" when it is positive.
   */
  function LongDate(gy: int, gyd: int): (s: string)
    requires ValidGregorian(gy, gyd)
    ensures var tqmd, tqy := Day(gy, gyd), Year(gy, gyd);
      && (s == "Moon Landing Day" <==> tqmd == MoonLandingDay)
      && (tqmd != MoonLandingDay ==> (EndsWith(s, "Before Tranquility") <==> tqy < 0))
      && (tqmd != MoonLandingDay ==> (EndsWith(s, "After Tranquility") <==> tqy > 0))
  {
    var tqmd := Day(gy, gyd);
    var tqy := Year(gy, gyd);
    assert tqy == 0 <==> tqmd == MoonLandingDay by { MoonLandingYearZero(gy, gyd); }
    LongForm(tqmd, tqy, Weekday(gy, gyd), Month(gy, gyd))
  }

  /** The long form of resolved fields: the body of LongDate once the fields are known. */
  function LongForm(tqmd: int, tqy: int, tqwd: TqWeekday, tqmn: TqMonth): (s: string)
    requires tqy == 0 <==> tqmd == MoonLandingDay
    ensures s == "Moon Landing Day" <==> tqmd == MoonLandingDay
    ensures tqmd != MoonLandingDay && tqy < 0 ==> EndsWith(s, ", " + Itoa(-tqy) + " Before Tranquility")
    ensures tqmd != MoonLandingDay && tqy > 0 ==> EndsWith(s, ", " + Itoa(tqy) + " After Tranquility")
    ensures tqmd != MoonLandingDay ==> (EndsWith(s, "Before Tranquility") <==> tqy < 0)
    ensures tqmd != MoonLandingDay ==> (EndsWith(s, "After Tranquility") <==> tqy > 0)
    ensures tqmd != MoonLandingDay && tqmd < 0 ==> StartsWith(s, DayName(tqmd) + ", ")
    ensures tqmd >= 0 ==>
      StartsWith(s, WeekdayName(tqwd) + ", " + DayName(tqmd) + " " + TqMonthString(tqmn) + ", ")
    ensures tqmd != MoonLandingDay && tqy < 0 ==> s == LongHead(tqmd, tqwd, tqmn) + ", " + Itoa(-tqy) + " Before Tranquility"
    ensures tqmd != MoonLandingDay && tqy > 0 ==> s == LongHead(tqmd, tqwd, tqmn) + ", " + Itoa(tqy) + " After Tranquility"
  {
    if tqmd == MoonLandingDay then DayName(tqmd)
    else
      var head := LongHead(tqmd, tqwd, tqmn);
      if tqy < 0 then
        BeforeSuffix(head, Itoa(-tqy));
        head + ", " + Itoa(-tqy) + " Before Tranquility"
      else
        AfterSuffix(head, Itoa(tqy));
        head + ", " + Itoa(tqy) + " After Tranquility"
  }

  /**
    The part of a long form before the year: the name of a special day, or the
    weekday, the day of the month and the month's name.
   */
  function LongHead(tqmd: int, tqwd: TqWeekday, tqmn: TqMonth): (head: string)
    ensures tqmd < 0 ==> head == DayName(tqmd)
    ensures tqmd >= 0 ==> head == WeekdayName(tqwd) + ", " + DayName(tqmd) + " " + TqMonthString(tqmn)
  {
    if tqmd < 0 then DayName(tqmd) else WeekdayName(tqwd) + ", " + DayName(tqmd) + " " + TqMonthString(tqmn)
  }

  /** Only Moon Landing Day is in year 0. */
  lemma MoonLandingYearZero(gy: int, gyd: int)
    requires ValidGregorian(gy, gyd)
    ensures Year(gy, gyd) == 0 <==> Day(gy, gyd) == MoonLandingDay
  {
    if gy == GMoonLandingYear {
      assert !GLeapYear(gy);
    }
  }

  /** A long form before the epoch: longer than "Moon Landing Day", starting with its head, and ending in "Before Tranquility" only. */
  lemma BeforeSuffix(head: string, digits: string)
    ensures var s := head + ", " + digits + " Before Tranquility";
      && |s| > |"Moon Landing Day"|
      && StartsWith(s, head + ", ")
      && EndsWith(s, ", " + digits + " Before Tranquility")
      && EndsWith(s, "Before Tranquility")
      && !EndsWith(s, "After Tranquility")
  {
    var tail := ", " + digits + " Before Tranquility";
    var s := head + ", " + digits + " Before Tranquility";
    assert s == (head + ", ") + (digits + " Before Tranquility");
    assert s == head + tail;
    assert s[|s| - |tail|..] == tail;
    assert tail[|tail| - 18..] == "Before Tranquility";
    assert s[|s| - 18..] == "Before Tranquility";
    assert s[|s| - 17] == 'e';
  }

  /** A long form after the epoch: longer than "Moon Landing Day", starting with its head, and ending in "After Tranquility" only. */
  lemma AfterSuffix(head: string, digits: string)
    ensures var s := head + ", " + digits + " After Tranquility";
      && |s| > |"Moon Landing Day"|
      && StartsWith(s, head + ", ")
      && EndsWith(s, ", " + digits + " After Tranquility")
      && EndsWith(s, "After Tranquility")
      && !EndsWith(s, "Before Tranquility")
  {
    var tail := ", " + digits + " After Tranquility";
    var s := head + ", " + digits + " After Tranquility";
    assert s == (head + ", ") + (digits + " After Tranquility");
    assert s == head + tail;
    assert s[|s| - |tail|..] == tail;
    assert tail[|tail| - 17..] == "After Tranquility";
    assert s[|s| - 17..] == "After Tranquility";
    assert s[|s| - 18] == ' ';
  }

  // ---------------------------------------------------------------------
  // The epoch instant
  // ---------------------------------------------------------------------

  const SecondsPerDay: int := 86400

  /** The Unix day number of 20 July 1969: the days from it to 1 January 1970, counted backwards. */
  const MoonLandingUnixDay: int := -(CommonYearLen - GCommonYearArmstrongDay + 1)

  /** 20:18:01, the moment the word "Tranquility" was said, in seconds after midnight UTC. */
  const TranquilitySecondOfDay: int := 20 * 3600 + 18 * 60 + 1

  const UnixMoonLanding: int := -14182919

  /** True exactly for Unix times before 20:18:01 UTC on 20 July 1969. */
  function IsBeforeTranquility(unixTime: int): (before: bool)
    ensures before <==>
      unixTime / SecondsPerDay < MoonLandingUnixDay
      || (unixTime / SecondsPerDay == MoonLandingUnixDay && unixTime % SecondsPerDay < TranquilitySecondOfDay)
  {
    assert UnixMoonLanding == MoonLandingUnixDay * SecondsPerDay + TranquilitySecondOfDay;
    unixTime < UnixMoonLanding
  }
}
