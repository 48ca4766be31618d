/**
  Properties that relate several operations of the Tranquility conversion
  engine: the Gregorian dates of the special days, what happens from one day
  to the next, the Gregorian date of every Tranquility month and day, the
  reading back of the short form, and the dated examples of the calendar.
 */
module TqTimeFacts {
  import opened Options
  import opened Decimal
  import opened TqTime

  // ---------------------------------------------------------------------
  // The Tranquility year inside the Gregorian year
  // ---------------------------------------------------------------------

  /** Armstrong Day ends the Tranquility year and the next day begins it. */
  lemma TqYearBoundaries(gy: int)
    ensures ValidGregorian(gy, GArmstrongDay(gy)) && ValidGregorian(gy, GArmstrongDay(gy) + 1)
    ensures TqYearDay(gy, GArmstrongDay(gy)) == GYearLen(gy)
    ensures TqYearDay(gy, GArmstrongDay(gy) + 1) == 1
  {
  }

  /** TqYearDay is one-to-one on the days of a Gregorian year; GregorianYearDay undoes it. */
  lemma TqYearDayRoundTrip(gy: int, gyd: int)
    requires ValidGregorian(gy, gyd)
    ensures GregorianYearDay(gy, TqYearDay(gy, gyd)) == gyd
  {
  }

  /** The Gregorian dates of the three special days: 29 February, 20 July, and 20 July 1969. */
  lemma SpecialDaysInGregorianTerms(gy: int, gyd: int)
    requires ValidGregorian(gy, gyd)
    ensures Day(gy, gyd) == AldrinDay <==> GLeapYear(gy) && gyd == 60
    ensures Day(gy, gyd) == ArmstrongDay <==> gy != GMoonLandingYear && gyd == GArmstrongDay(gy)
    ensures Day(gy, gyd) == MoonLandingDay <==> gy == GMoonLandingYear && gyd == GCommonYearArmstrongDay
  {
    var tqyd := TqYearDay(gy, gyd);
    assert tqyd == GYearLen(gy) <==> gyd == GArmstrongDay(gy);
    assert tqyd == TqAldrinSlot <==> gyd == 60;
  }

  // ---------------------------------------------------------------------
  // From one day to the next
  // ---------------------------------------------------------------------

  /** The Gregorian day after (gy, gyd). */
  function NextGregorianDay(gy: int, gyd: int): (next: (int, int))
    requires ValidGregorian(gy, gyd)
    ensures ValidGregorian(next.0, next.1)
    ensures next.0 == gy || (next.0 == gy + 1 && next.1 == 1 && gyd == GYearLen(gy))
  {
    if gyd < GYearLen(gy) then (gy, gyd + 1) else (gy + 1, 1)
  }

  /**
    The Tranquility year goes up by one on the first day of each Tranquility
    year and on Moon Landing Day, and stays the same on every other day: the
    numbering runs ..., -2, -1, 0 (Moon Landing Day only), 1, 2, ...
   */
  lemma YearStep(gy: int, gyd: int)
    requires ValidGregorian(gy, gyd)
    ensures var (ny, nd) := NextGregorianDay(gy, gyd);
      Year(ny, nd) == Year(gy, gyd) +
        (if TqYearDay(ny, nd) == 1 || (ny == GMoonLandingYear && nd == GCommonYearArmstrongDay) then 1 else 0)
  {
    var (ny, nd) := NextGregorianDay(gy, gyd);
    if ny == gy {
      assert TqYearDay(ny, nd) == 1 <==> gyd == GArmstrongDay(gy);
    } else {
      assert TqYearDay(ny, nd) == 1 + TqYearShift;
      assert gyd > GArmstrongDay(gy);
    }
  }

  /**
    Between two consecutive ordinary days the leap-adjusted day of year goes up
    by one, also across the Gregorian new year: the special days are the only
    interruptions of the month and week cycles.
   */
  lemma AdjustedDayStep(gy: int, gyd: int)
    requires ValidGregorian(gy, gyd)
    requires var (ny, nd) := NextGregorianDay(gy, gyd);
      !IsSpecialDay(AdjustedYearDay(gy, gyd)) && !IsSpecialDay(AdjustedYearDay(ny, nd))
    ensures var (ny, nd) := NextGregorianDay(gy, gyd);
      AdjustedYearDay(ny, nd) == AdjustedYearDay(gy, gyd) + 1
  {
    var (ny, nd) := NextGregorianDay(gy, gyd);
    var t, nt := TqYearDay(gy, gyd), TqYearDay(ny, nd);
    if ny == gy {
      assert gyd != GArmstrongDay(gy);
      assert nt == t + 1;
    } else {
      assert t == TqYearShift && nt == TqYearShift + 1;
    }
  }

  /** On consecutive ordinary days the day of the month and the weekday both advance cyclically. */
  lemma WeekNeverBreaks(gy: int, gyd: int)
    requires ValidGregorian(gy, gyd)
    requires var (ny, nd) := NextGregorianDay(gy, gyd);
      Day(gy, gyd) >= 0 && Day(ny, nd) >= 0
    ensures var (ny, nd) := NextGregorianDay(gy, gyd);
      && Day(ny, nd) == Day(gy, gyd) % TqMonthLen + 1
      && Weekday(ny, nd) as int == Weekday(gy, gyd) as int % 7 + 1
  {
    var (ny, nd) := NextGregorianDay(gy, gyd);
    AdjustedDayStep(gy, gyd);
    var t := AdjustedYearDay(gy, gyd);
    assert Day(gy, gyd) == ClockModulo(t, TqMonthLen);
    assert Day(ny, nd) == ClockModulo(t + 1, TqMonthLen);
    assert Weekday(gy, gyd) as int == ClockModulo(Day(gy, gyd), 7);
    assert Weekday(ny, nd) as int == ClockModulo(Day(ny, nd), 7);
    MonthCycleStep(t);
  }

  /** One step of the month cycle of 28 days is one step of the week cycle of 7. */
  lemma MonthCycleStep(t: int)
    requires t >= 1
    ensures var d, d' := ClockModulo(t, TqMonthLen), ClockModulo(t + 1, TqMonthLen);
      d' == d % TqMonthLen + 1 && ClockModulo(d', 7) == ClockModulo(d, 7) % 7 + 1
  {
    var d := ClockModulo(t, TqMonthLen);
    ClockModuloStep(t, TqMonthLen);
    if d < TqMonthLen {
      assert d % TqMonthLen == d;
      ClockModuloStep(d, 7);
    } else {
      assert ClockModulo(t + 1, TqMonthLen) == 1;
      assert ClockModulo(1, 7) == 1 && ClockModulo(TqMonthLen, 7) == 7;
    }
  }

  // ---------------------------------------------------------------------
  // The Gregorian date of a Tranquility month and day
  // ---------------------------------------------------------------------

  /** The Gregorian day of year, in the Tranquility year that ends in gy, of day d of month m. */
  function GregorianDayOf(gy: int, m: TqMonth, d: int): (gyd: int)
    requires Archimedes <= m <= Mendel && 1 <= d <= TqMonthLen
    ensures ValidGregorian(gy, gyd)
    ensures Month(gy, gyd) == m && Day(gy, gyd) == d
  {
    var t := (m as int - 1) * TqMonthLen + d;
    var gyd := GregorianYearDay(gy, UnadjustedYearDay(t, gy));
    assert AdjustedYearDay(gy, gyd) == t;
    MonthDaySplit(m as int, d);
    gyd
  }

  /** Day d of month m sits at (m - 1) * 28 + d, from which month and day are recovered. */
  lemma MonthDaySplit(m: int, d: int)
    requires 1 <= d <= TqMonthLen
    ensures var t := (m - 1) * TqMonthLen + d;
      (t - 1) / TqMonthLen == m - 1 && t % TqMonthLen == d % TqMonthLen
  {
    var t := (m - 1) * TqMonthLen + d;
    DivModUnique(t - 1, TqMonthLen, m - 1, d - 1);
    DivModUnique(t, TqMonthLen, m - 1 + d / TqMonthLen, d % TqMonthLen);
  }

  /** Every ordinary day is the day GregorianDayOf gives for its own month and day. */
  lemma GregorianDayOfRoundTrip(gy: int, gyd: int)
    requires ValidGregorian(gy, gyd) && Day(gy, gyd) >= 0
    ensures Archimedes <= Month(gy, gyd) <= Mendel
    ensures GregorianDayOf(gy, Month(gy, gyd), Day(gy, gyd)) == gyd
  {
    MonthDayRoundTrip(gy, gyd);
    var g := GregorianDayOf(gy, Month(gy, gyd), Day(gy, gyd));
    MonthDayRoundTrip(gy, g);
    LeapAdjustedRoundTrip(TqYearDay(gy, gyd), gy);
    LeapAdjustedRoundTrip(TqYearDay(gy, g), gy);
    TqYearDayRoundTrip(gy, gyd);
    TqYearDayRoundTrip(gy, g);
  }

  // ---------------------------------------------------------------------
  // Reading back the short form
  // ---------------------------------------------------------------------

  /** The fields a short form carries. */
  datatype ShortFields = ShortFields(day: int, month: TqMonth, year: int)

  /** Reads "DDM y" and "CCC y" back into day of month, month and year. */
  function ParseShortDate(s: string): Option<ShortFields> {
    if |s| < 5 || s[3] != ' ' then None
    else match ParseInt(s[4..]) {
      case None => None
      case Some(y) =>
        var code := s[..3];
        if code == "ARM" then Some(ShortFields(ArmstrongDay, SpecialDay, y))
        else if code == "ALD" then Some(ShortFields(AldrinDay, SpecialDay, y))
        else if code == "MNL" then Some(ShortFields(MoonLandingDay, SpecialDay, y))
        else if AllDigits(s[..2]) && MonthOfLetter(s[2]) != SpecialDay then
          var d := ParseNat(s[..2]);
          if 1 <= d <= TqMonthLen then Some(ShortFields(d, MonthOfLetter(s[2]), y)) else None
        else None
    }
  }

  /** The short form loses nothing: day of month, month and year can all be read back from it. */
  lemma ShortDateRoundTrip(gy: int, gyd: int)
    requires ValidGregorian(gy, gyd)
    ensures ParseShortDate(ShortDate(gy, gyd)) == Some(ShortFields(Day(gy, gyd), Month(gy, gyd), Year(gy, gyd)))
  {
    var d, m, y := Day(gy, gyd), Month(gy, gyd), Year(gy, gyd);
    MonthDayRoundTrip(gy, gyd);
    if d < 0 {
      ParseSpecialShortDate(d, y);
    } else {
      ParseOrdinaryShortDate(d, m, y);
    }
  }

  /** The short form of a special day reads back as its marker, no month, and the year. */
  lemma ParseSpecialShortDate(d: int, y: int)
    requires IsSpecialDay(d)
    ensures ParseShortDate(DayCode(d) + " " + Itoa(y)) == Some(ShortFields(d, SpecialDay, y))
  {
    ShortDateSplit(DayCode(d), y);
  }

  /** The short form of an ordinary day reads back as its day, month and year. */
  lemma ParseOrdinaryShortDate(d: int, m: TqMonth, y: int)
    requires 1 <= d <= TqMonthLen && Archimedes <= m <= Mendel
    ensures ParseShortDate(Pad2(d) + MonthLetter(m) + " " + Itoa(y)) == Some(ShortFields(d, m, y))
  {
    var code := Pad2(d) + MonthLetter(m);
    var s := code + " " + Itoa(y);
    OrdinaryCode(d, m);
    ShortDateSplit(code, y);
    assert !IsDigit('A') && !IsDigit('M');
    assert s[..3] != "ARM" && s[..3] != "ALD" && s[..3] != "MNL" by {
      assert s[..3][0] == code[0];
    }
    assert AllDigits(s[..2]) && ParseNat(s[..2]) == d && MonthOfLetter(s[2]) == m;
  }

  /** The code of an ordinary day: two digits that read back as the day, then the month's letter. */
  lemma OrdinaryCode(d: int, m: TqMonth)
    requires 1 <= d <= TqMonthLen && Archimedes <= m <= Mendel
    ensures var code := Pad2(d) + MonthLetter(m);
      && |code| == 3 && IsDigit(code[0]) && AllDigits(code[..2])
      && ParseNat(code[..2]) == d && MonthOfLetter(code[2]) == m
  {
    var code := Pad2(d) + MonthLetter(m);
    assert code[..2] == Pad2(d);
    assert code[2] == MonthLetter(m)[0];
    MonthLetterRoundTrip(m);
  }

  /** A three-character code, a space and a year split back into the code and the year. */
  lemma ShortDateSplit(code: string, y: int)
    requires |code| == 3
    ensures var s := code + " " + Itoa(y);
      && |s| >= 5 && s[3] == ' ' && s[..3] == code && s[..2] == code[..2] && s[2] == code[2]
      && ParseInt(s[4..]) == Some(y)
  {
    var s := code + " " + Itoa(y);
    assert s[4..] == Itoa(y);
    ItoaRoundTrip(y);
  }

  /** Two days with the same short form have the same day of month, month and year. */
  lemma ShortDateDetermines(gy1: int, gyd1: int, gy2: int, gyd2: int)
    requires ValidGregorian(gy1, gyd1) && ValidGregorian(gy2, gyd2)
    requires ShortDate(gy1, gyd1) == ShortDate(gy2, gyd2)
    ensures Day(gy1, gyd1) == Day(gy2, gyd2)
    ensures Month(gy1, gyd1) == Month(gy2, gyd2)
    ensures Year(gy1, gyd1) == Year(gy2, gyd2)
  {
    ShortDateRoundTrip(gy1, gyd1);
    ShortDateRoundTrip(gy2, gyd2);
  }

  /** Away from Moon Landing Day the long form ends with the year's magnitude and its era. */
  lemma LongDateYearText(gy: int, gyd: int)
    requires ValidGregorian(gy, gyd) && Day(gy, gyd) != MoonLandingDay
    ensures Year(gy, gyd) < 0 ==> EndsWith(LongDate(gy, gyd), ", " + Itoa(-Year(gy, gyd)) + " Before Tranquility")
    ensures Year(gy, gyd) > 0 ==> EndsWith(LongDate(gy, gyd), ", " + Itoa(Year(gy, gyd)) + " After Tranquility")
  {
    MoonLandingYearZero(gy, gyd);
    assert LongDate(gy, gyd) == LongForm(Day(gy, gyd), Year(gy, gyd), Weekday(gy, gyd), Month(gy, gyd));
  }

  /**
    The long form starts with the day's name on Armstrong Day and Aldrin Day,
    and with the weekday, the day of the month and the month's name on every
    ordinary day.
   */
  lemma LongDateHead(gy: int, gyd: int)
    requires ValidGregorian(gy, gyd)
    ensures Day(gy, gyd) == ArmstrongDay ==> StartsWith(LongDate(gy, gyd), "Armstrong Day, ")
    ensures Day(gy, gyd) == AldrinDay ==> StartsWith(LongDate(gy, gyd), "Aldrin Day, ")
    ensures Day(gy, gyd) >= 0 ==> StartsWith(LongDate(gy, gyd),
      WeekdayName(Weekday(gy, gyd)) + ", " + DayName(Day(gy, gyd)) + " " + TqMonthString(Month(gy, gyd)) + ", ")
  {
    var tqmd, tqy, tqwd, tqmn := Day(gy, gyd), Year(gy, gyd), Weekday(gy, gyd), Month(gy, gyd);
    MoonLandingYearZero(gy, gyd);
    assert LongDate(gy, gyd) == LongForm(tqmd, tqy, tqwd, tqmn);
    if tqmd == ArmstrongDay {
      assert DayName(tqmd) == "Armstrong Day";
    } else if tqmd == AldrinDay {
      assert DayName(tqmd) == "Aldrin Day";
    }
  }

  /**
    Away from Moon Landing Day the long form is exactly the head (the special
    day's name, or weekday, day and month), ", ", the year's magnitude and its
    era.
   */
  lemma LongDateFormat(gy: int, gyd: int)
    requires ValidGregorian(gy, gyd) && Day(gy, gyd) != MoonLandingDay
    ensures Year(gy, gyd) < 0 ==>
      LongDate(gy, gyd) == LongHead(Day(gy, gyd), Weekday(gy, gyd), Month(gy, gyd)) + ", " + Itoa(-Year(gy, gyd)) + " Before Tranquility"
    ensures Year(gy, gyd) > 0 ==>
      LongDate(gy, gyd) == LongHead(Day(gy, gyd), Weekday(gy, gyd), Month(gy, gyd)) + ", " + Itoa(Year(gy, gyd)) + " After Tranquility"
  {
    MoonLandingYearZero(gy, gyd);
    assert LongDate(gy, gyd) == LongForm(Day(gy, gyd), Year(gy, gyd), Weekday(gy, gyd), Month(gy, gyd));
  }

  // ---------------------------------------------------------------------
  // Dated examples
  // ---------------------------------------------------------------------

  /** 20 July 1969 is Moon Landing Day, year 0. */
  lemma MoonLandingDayExample()
    ensures Year(1969, 201) == 0 && Day(1969, 201) == MoonLandingDay
    ensures Month(1969, 201) == SpecialDay && Weekday(1969, 201) == SpecialWeekday
    ensures ShortDate(1969, 201) == "MNL 0"
    ensures LongDate(1969, 201) == "Moon Landing Day"
  {
  }

  /** 21 July 1969 is Friday, 1 Archimedes of year 1. */
  lemma FirstDayExample()
    ensures Year(1969, 202) == 1 && Month(1969, 202) == Archimedes && Day(1969, 202) == 1
    ensures Weekday(1969, 202) == Friday
    ensures ShortDate(1969, 202) == "01A 1"
  {
  }

  /** 19 July 1969 is 28 Mendel of year -1. */
  lemma LastDayBeforeExample()
    ensures Year(1969, 200) == -1 && Month(1969, 200) == Mendel && Day(1969, 200) == 28
    ensures ShortDate(1969, 200) == "28M -1"
  {
  }

  /** 20 July 1968 is Armstrong Day of year -2. */
  lemma ArmstrongDay1968Example()
    ensures Year(1968, 202) == -2 && Day(1968, 202) == ArmstrongDay
    ensures ShortDate(1968, 202) == "ARM -2"
  {
  }

  /** 29 February 2000 is Aldrin Day of year 31. */
  lemma AldrinDay2000Example()
    ensures Year(2000, 60) == 31 && Day(2000, 60) == AldrinDay
    ensures ShortDate(2000, 60) == "ALD 31"
  {
  }

  /** The long form of 21 July 1969. */
  lemma FirstDayLongExample()
    ensures LongDate(1969, 202) == "Friday, 1 Archimedes, 1 After Tranquility"
  {
    assert LongDate(1969, 202) == LongForm(1, 1, Friday, Archimedes) by {
      assert Day(1969, 202) == 1 && Year(1969, 202) == 1;
      assert Weekday(1969, 202) == Friday && Month(1969, 202) == Archimedes;
    }
    assert LongForm(1, 1, Friday, Archimedes)
      == WeekdayName(Friday) + ", " + DayName(1) + " " + TqMonthString(Archimedes) + ", " + Itoa(1) + " After Tranquility";
    assert WeekdayName(Friday) == "Friday";
    assert TqMonthString(Archimedes) == "Archimedes";
    assert DayName(1) == "1" && Itoa(1) == "1";
    ConcatFirstDayLongForm(LongDate(1969, 202), WeekdayName(Friday), DayName(1), TqMonthString(Archimedes), Itoa(1));
  }

  /** The string step of FirstDayLongExample: its rendered parts concatenate to the expected text. */
  lemma ConcatFirstDayLongForm(s: string, weekday: string, day: string, month: string, year: string)
    requires s == weekday + ", " + day + " " + month + ", " + year + " After Tranquility"
    requires weekday == "Friday" && day == "1" && month == "Archimedes" && year == "1"
    ensures s == "Friday, 1 Archimedes, 1 After Tranquility"
  {
  }

  /** The long form of 20 July 1968. */
  lemma ArmstrongDay1968LongExample()
    ensures LongDate(1968, 202) == "Armstrong Day, 2 Before Tranquility"
  {
    assert LongDate(1968, 202) == LongForm(ArmstrongDay, -2, SpecialWeekday, SpecialDay) by {
      assert Day(1968, 202) == ArmstrongDay && Year(1968, 202) == -2;
      assert Weekday(1968, 202) == SpecialWeekday && Month(1968, 202) == SpecialDay;
    }
    assert LongForm(ArmstrongDay, -2, SpecialWeekday, SpecialDay)
      == DayName(ArmstrongDay) + ", " + Itoa(2) + " Before Tranquility";
    assert DayName(ArmstrongDay) == "Armstrong Day" && Itoa(2) == "2";
    ConcatArmstrongDay1968LongForm(LongDate(1968, 202), DayName(ArmstrongDay), Itoa(2));
  }

  /** The string step of ArmstrongDay1968LongExample: its rendered parts concatenate to the expected text. */
  lemma ConcatArmstrongDay1968LongForm(s: string, day: string, year: string)
    requires s == day + ", " + year + " Before Tranquility"
    requires day == "Armstrong Day" && year == "2"
    ensures s == "Armstrong Day, 2 Before Tranquility"
  {
  }

  /** The long form of 29 February 2000. */
  lemma AldrinDay2000LongExample()
    ensures LongDate(2000, 60) == "Aldrin Day, 31 After Tranquility"
  {
    assert Day(2000, 60) == AldrinDay && Year(2000, 60) == 31 by {
      AldrinDay2000Example();
    }
    LongDateFormat(2000, 60);
    assert LongHead(AldrinDay, Weekday(2000, 60), Month(2000, 60)) == "Aldrin Day";
    assert Itoa(31) == "31" by {
      assert NatDigits(31) == NatDigits(3) + [DigitChar(1)];
    }
    ConcatAldrinDay2000LongForm(LongDate(2000, 60), LongHead(AldrinDay, Weekday(2000, 60), Month(2000, 60)), Itoa(31));
  }

  /** The string step of AldrinDay2000LongExample: its rendered parts concatenate to the expected text. */
  lemma ConcatAldrinDay2000LongForm(s: string, day: string, year: string)
    requires s == day + ", " + year + " After Tranquility"
    requires day == "Aldrin Day" && year == "31"
    ensures s == "Aldrin Day, 31 After Tranquility"
  {
  }

  /** Day 59 of 1900 (not a leap year) is 27 Hippocrates of year -70. */
  lemma Day59Of1900Example()
    ensures !GLeapYear(1900)
    ensures Year(1900, 59) == -70 && Month(1900, 59) == Hippocrates && Day(1900, 59) == 27
    ensures ShortDate(1900, 59) == "27H -70"
  {
  }

  /** In 2000, Tranquility day 300 comes after Aldrin Day and is the adjusted day 299. */
  lemma LeapAdjustedExample()
    ensures TqLeapAdjustedYearDay(300, 2000) == 299
  {
  }
}
