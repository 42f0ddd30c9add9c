/**
  What an instant is: the count of nanoseconds of the Gregorian calendar, second by second, from the
  start of year 1 UTC. With it, the order of messages by instant is the order of their clock readings.
 */
module Calendar {
  import opened Wrappers
  import opened Rfc3339

  // One second after another ------------------------------------------------------------------------

  /** 31 January, 28 or 29 February, and so on; leap years are those of the Gregorian reform. */
  predicate EndsMonth(year: int, month: int, day: int) {
    || (month in {1, 3, 5, 7, 8, 10, 12} && day == 31)
    || (month in {4, 6, 9, 11} && day == 30)
    || (month == 2 && day == 29)
    || (month == 2 && day == 28 && (year % 4 != 0 || (year % 100 == 0 && year % 400 != 0)))
  }

  function NextDay(c: Civil): Civil {
    if !EndsMonth(c.year, c.month, c.day) then c.(day := c.day + 1)
    else if c.month < 12 then c.(month := c.month + 1, day := 1)
    else c.(year := c.year + 1, month := 1, day := 1)
  }

  /** The clock reading one second later, carrying from seconds up to years. */
  function NextSecond(c: Civil): Civil {
    if c.second < 59 then c.(second := c.second + 1)
    else if c.minute < 59 then c.(minute := c.minute + 1, second := 0)
    else if c.hour < 23 then c.(hour := c.hour + 1, minute := 0, second := 0)
    else NextDay(c).(hour := 0, minute := 0, second := 0)
  }

  function DayNumber(c: Civil): int {
    DaysBeforeMonth(c.year, c.month) + c.day
  }

  lemma MonthLength(year: int, month: int, day: int)
    requires 1 <= month <= 12 && 1 <= day <= DaysIn(year, month)
    ensures EndsMonth(year, month, day) <==> day == DaysIn(year, month)
    ensures day < DaysIn(year, month) ==> !EndsMonth(year, month, day)
  {
  }

  /** The leap years up to `year` as the Gregorian rule counts them one by one. */
  lemma LeapDays(year: int)
    ensures year / 4 - year / 100 + year / 400 ==
            (year - 1) / 4 - (year - 1) / 100 + (year - 1) / 400 + if IsLeap(year) then 1 else 0
  {
    Quotients(year, 4);
    Quotients(year, 100);
    Quotients(year, 400);
    Multiples(year);
  }

  lemma Multiples(n: int)
    ensures n % 400 == 0 ==> n % 100 == 0
    ensures n % 100 == 0 ==> n % 4 == 0
  {
    if n % 400 == 0 {
      Multiple(n, 100, 4 * (n / 400));
    }
    if n % 100 == 0 {
      Multiple(n, 4, 25 * (n / 100));
    }
  }

  lemma Multiple(n: int, d: int, q: int)
    requires d in {4, 100} && n == d * q
    ensures n % d == 0
  {
  }

  lemma Quotients(n: int, d: int)
    requires d in {4, 100, 400}
    ensures n / d == (n - 1) / d + if n % d == 0 then 1 else 0
  {
  }

  lemma YearLength(year: int)
    ensures DaysBeforeMonth(year, 12) + 31 == DaysBeforeMonth(year + 1, 1)
    ensures DaysBeforeMonth(year + 1, 1) == DaysBeforeMonth(year, 1) + if IsLeap(year) then 366 else 365
  {
    LeapDays(year);
    assert DaysBeforeMonth(year, 4) == DaysBeforeMonth(year, 1) + 59 + (if IsLeap(year) then 1 else 0) + 31 by {
      assert DaysBeforeMonth(year, 2) == DaysBeforeMonth(year, 1) + 31;
      assert DaysBeforeMonth(year, 3) == DaysBeforeMonth(year, 2) + 28 + if IsLeap(year) then 1 else 0;
    }
    assert DaysBeforeMonth(year, 6) == DaysBeforeMonth(year, 4) + 61 by {
      assert DaysBeforeMonth(year, 5) == DaysBeforeMonth(year, 4) + 30;
    }
    assert DaysBeforeMonth(year, 8) == DaysBeforeMonth(year, 6) + 61 by {
      assert DaysBeforeMonth(year, 7) == DaysBeforeMonth(year, 6) + 30;
    }
    assert DaysBeforeMonth(year, 10) == DaysBeforeMonth(year, 8) + 61 by {
      assert DaysBeforeMonth(year, 9) == DaysBeforeMonth(year, 8) + 31;
    }
    assert DaysBeforeMonth(year, 12) == DaysBeforeMonth(year, 10) + 61 by {
      assert DaysBeforeMonth(year, 11) == DaysBeforeMonth(year, 10) + 31;
    }
  }

  lemma DayAfterDay(c: Civil)
    requires ValidCivil(c)
    ensures ValidCivil(NextDay(c)) && DayNumber(NextDay(c)) == DayNumber(c) + 1
    ensures var n := NextDay(c); n == c.(year := n.year, month := n.month, day := n.day)
  {
    MonthLength(c.year, c.month, c.day);
    if c.month < 12 {
      assert DaysBeforeMonth(c.year, c.month + 1) == DaysBeforeMonth(c.year, c.month) + DaysIn(c.year, c.month);
    } else {
      YearLength(c.year);
    }
  }

  lemma TimeOfDay(c: Civil)
    requires ValidCivil(c)
    ensures InstantOf(c) ==
            ((DayNumber(c) - 1) * 86400 + c.hour * 3600 + c.minute * 60 + c.second - c.offset) * 1_000_000_000 + c.nano
    ensures 0 <= c.hour * 3600 + c.minute * 60 + c.second < 86400
  {
    hide DaysBeforeMonth, DaysIn;
  }

  lemma SecondCarries(c: Civil)
    requires ValidCivil(c)
    ensures var n := NextSecond(c);
            && ValidCivil(n) && n.offset == c.offset && n.nano == c.nano
            && (DayNumber(n) - DayNumber(c)) * 86400 + (n.hour - c.hour) * 3600 + (n.minute - c.minute) * 60
               + (n.second - c.second) == 1
  {
    DayAfterDay(c);
    hide DaysBeforeMonth, DaysIn, NextDay, EndsMonth;
    var n := NextSecond(c);
    if c.second == 59 && c.minute == 59 && c.hour == 23 {
      assert n == NextDay(c).(hour := 0, minute := 0, second := 0);
      assert DayNumber(n) == DayNumber(NextDay(c));
    } else {
      assert DayNumber(n) == DayNumber(c);
    }
  }

  /** The next second is one second later, across minutes, hours, days, months and years, leap days included. */
  lemma SecondAfterSecond(c: Civil)
    requires ValidCivil(c)
    ensures ValidCivil(NextSecond(c)) && InstantOf(NextSecond(c)) == InstantOf(c) + 1_000_000_000
  {
    SecondCarries(c);
    TimeOfDay(c);
    TimeOfDay(NextSecond(c));
    hide InstantOf, NextSecond, DayNumber, ValidCivil;
  }

  /** Within a second the nanoseconds count, and a clock further east shows the same fields earlier. */
  lemma NanosAndOffset(c: Civil, nano: int, offset: int)
    ensures InstantOf(c.(nano := nano, offset := offset)) ==
            InstantOf(c) + (nano - c.nano) - (offset - c.offset) * 1_000_000_000
  {
    hide DaysBeforeMonth;
  }

  /** The count starts with year 1 UTC; the Unix epoch is 62135596800 seconds later. */
  lemma Origin()
    ensures InstantOf(Civil(1, 1, 1, 0, 0, 0, 0, 0)) == 0
    ensures InstantOf(Civil(1970, 1, 1, 0, 0, 0, 0, 0)) == 62_135_596_800 * 1_000_000_000
  {
    assert DaysBeforeMonth(1, 1) == 0;
    assert DaysBeforeMonth(1970, 1) == 719_162;
  }

  // The order of clock readings ---------------------------------------------------------------------

  predicate DateBefore(a: Civil, b: Civil) {
    || a.year < b.year
    || (a.year == b.year && (a.month < b.month || (a.month == b.month && a.day < b.day)))
  }

  /** Field by field, the most significant first. */
  predicate ReadsBefore(a: Civil, b: Civil) {
    if (a.year, a.month, a.day) != (b.year, b.month, b.day) then DateBefore(a, b)
    else if a.hour != b.hour then a.hour < b.hour
    else if a.minute != b.minute then a.minute < b.minute
    else if a.second != b.second then a.second < b.second
    else a.nano < b.nano
  }

  lemma {:induction false} MonthsAscend(year: int, m: int, n: int)
    requires 1 <= m < n <= 12
    ensures DaysBeforeMonth(year, m) + DaysIn(year, m) <= DaysBeforeMonth(year, n)
    decreases n
  {
    if m < n - 1 {
      MonthsAscend(year, m, n - 1);
    }
  }

  lemma {:induction false} YearsAscend(a: int, b: int)
    requires a < b
    ensures DaysBeforeMonth(a + 1, 1) <= DaysBeforeMonth(b, 1)
    decreases b - a
  {
    if a + 1 < b {
      YearsAscend(a, b - 1);
      YearLength(b - 1);
    }
  }

  lemma DatesAscend(a: Civil, b: Civil)
    requires ValidCivil(a) && ValidCivil(b) && DateBefore(a, b)
    ensures DayNumber(a) < DayNumber(b)
  {
    if a.year < b.year {
      YearsAscend(a.year, b.year);
      YearLength(a.year);
      if a.month < 12 {
        MonthsAscend(a.year, a.month, 12);
      }
      if 1 < b.month {
        MonthsAscend(b.year, 1, b.month);
      }
    } else if a.month < b.month {
      MonthsAscend(a.year, a.month, b.month);
    }
  }

  lemma EarlierReadsBefore(a: Civil, b: Civil)
    requires ValidCivil(a) && ValidCivil(b) && a.offset == b.offset && ReadsBefore(a, b)
    ensures InstantOf(a) < InstantOf(b)
  {
    TimeOfDay(a);
    TimeOfDay(b);
    if DateBefore(a, b) {
      DatesAscend(a, b);
    }
    hide InstantOf, DaysBeforeMonth, DaysIn;
  }

  /** On clocks of one zone, the earlier instant is the one whose fields read earlier. */
  lemma InstantsFollowClocks(a: Civil, b: Civil)
    requires ValidCivil(a) && ValidCivil(b) && a.offset == b.offset
    ensures InstantOf(a) < InstantOf(b) <==> ReadsBefore(a, b)
    ensures InstantOf(a) == InstantOf(b) <==> a == b
  {
    if ReadsBefore(a, b) {
      EarlierReadsBefore(a, b);
    } else if ReadsBefore(b, a) {
      EarlierReadsBefore(b, a);
    }
  }
}
