/**
 * The proleptic Gregorian calendar as Go's `time` package uses it: leap years, month lengths,
 * the `2006-01-02` date layout, adding one day, and counting days from a fixed origin.
 */
module Calendar {
  import opened Wrappers
  import opened Text

  predicate IsLeap(year: int)
  {
    year % 4 == 0 && (year % 100 != 0 || year % 400 == 0)
  }

  function DaysInMonth(year: int, month: int): (n: int)
    requires 1 <= month <= 12
    ensures 28 <= n <= 31
  {
    if month == 2 then (if IsLeap(year) then 29 else 28)
    else if month == 4 || month == 6 || month == 9 || month == 11 then 30
    else 31
  }

  function DaysInYear(year: int): (n: int)
    ensures n == 365 || n == 366
  {
    if IsLeap(year) then 366 else 365
  }

  datatype Date = Date(year: int, month: int, day: int)
  {
    predicate Valid()
    {
      1 <= month <= 12 && 1 <= day <= DaysInMonth(year, month)
    }
  }

  /** Days in the months of `year` before `month`. */
  function DaysBeforeMonth(year: int, month: int): (n: nat)
    requires 1 <= month <= 13
    decreases month
  {
    if month == 1 then 0 else DaysBeforeMonth(year, month - 1) + DaysInMonth(year, month - 1)
  }

  lemma {:induction false} DaysBeforeMonthMonotone(year: int, m1: int, m2: int)
    requires 1 <= m1 <= m2 <= 13
    ensures DaysBeforeMonth(year, m1) <= DaysBeforeMonth(year, m2)
    decreases m2 - m1
  {
    if m1 < m2 {
      DaysBeforeMonthMonotone(year, m1, m2 - 1);
    }
  }

  lemma DaysBeforeMonthYear(year: int)
    ensures DaysBeforeMonth(year, 13) == DaysInYear(year)
  {
  }

  /** Zero-based position of a date in its year. */
  function DayOfYear(d: Date): (n: nat)
    requires d.Valid()
    ensures n < DaysInYear(d.year)
  {
    DaysBeforeMonthMonotone(d.year, d.month + 1, 13);
    DaysBeforeMonthYear(d.year);
    DaysBeforeMonth(d.year, d.month) + d.day - 1
  }

  /** Every day of an earlier month comes before the first day of a later one. */
  lemma DaysBeforeLaterMonth(year: int, m1: int, m2: int)
    requires 1 <= m1 < m2 <= 13
    ensures DaysBeforeMonth(year, m1) + DaysInMonth(year, m1) <= DaysBeforeMonth(year, m2)
  {
    DaysBeforeMonthMonotone(year, m1 + 1, m2);
    assert DaysBeforeMonth(year, m1 + 1) == DaysBeforeMonth(year, m1) + DaysInMonth(year, m1);
  }

  /** Within one year, the day number identifies the date. */
  lemma DayOfYearInjective(d1: Date, d2: Date)
    requires d1.Valid() && d2.Valid() && d1.year == d2.year && DayOfYear(d1) == DayOfYear(d2)
    ensures d1 == d2
  {
    if d1.month < d2.month {
      DaysBeforeLaterMonth(d1.year, d1.month, d2.month);
    } else if d2.month < d1.month {
      DaysBeforeLaterMonth(d1.year, d2.month, d1.month);
    }
  }

  /** `t.AddDate(0, 0, 1)` on a date: the following calendar day. */
  function NextDay(d: Date): (r: Date)
    requires d.Valid()
    ensures r.Valid()
  {
    if d.day < DaysInMonth(d.year, d.month) then Date(d.year, d.month, d.day + 1)
    else if d.month < 12 then Date(d.year, d.month + 1, 1)
    else Date(d.year + 1, 1, 1)
  }

  lemma NextDayInYear(d: Date)
    requires d.Valid() && DayOfYear(d) + 1 < DaysInYear(d.year)
    ensures NextDay(d).year == d.year && DayOfYear(NextDay(d)) == DayOfYear(d) + 1
  {
    if d.day == DaysInMonth(d.year, d.month) && d.month == 12 {
      DaysBeforeMonthYear(d.year);
      assert false;
    }
  }

  /** Days from 1 January of year 0 to 1 January of `year`. */
  function DaysBeforeYear(year: nat): nat
  {
    if year == 0 then 0 else DaysBeforeYear(year - 1) + DaysInYear(year - 1)
  }

  /** Days since 1 January of year 0; differences agree with `Unix() / 86400` at midnight UTC. */
  function EpochDay(d: Date): (n: nat)
    requires d.Valid() && d.year >= 0
    ensures DaysBeforeYear(d.year) <= n < DaysBeforeYear(d.year + 1)
  {
    DaysBeforeYear(d.year) + DayOfYear(d)
  }

  /** Adding one day moves the day count by exactly one, across month and year ends. */
  lemma EpochDayNext(d: Date)
    requires d.Valid() && d.year >= 0
    ensures NextDay(d).year >= 0 && EpochDay(NextDay(d)) == EpochDay(d) + 1
  {
    if d.day == DaysInMonth(d.year, d.month) && d.month == 12 {
      DaysBeforeMonthYear(d.year);
    }
  }

  /** The date `k` days after 1 January of `year`, stepping one day at a time. */
  function NthDay(year: int, k: nat): (r: Date)
    ensures r.Valid()
  {
    if k == 0 then Date(year, 1, 1) else NextDay(NthDay(year, k - 1))
  }

  lemma {:induction false} NthDayInYear(year: int, k: nat)
    requires k < DaysInYear(year)
    ensures NthDay(year, k).year == year && DayOfYear(NthDay(year, k)) == k
  {
    if k > 0 {
      NthDayInYear(year, k - 1);
      NextDayInYear(NthDay(year, k - 1));
    }
  }

  /** Stepping from 1 January meets every date of the year, each at its own day number. */
  lemma NthDayCoversYear(d: Date)
    requires d.Valid()
    ensures NthDay(d.year, DayOfYear(d)) == d
  {
    NthDayInYear(d.year, DayOfYear(d));
    DayOfYearInjective(NthDay(d.year, DayOfYear(d)), d);
  }

  // ---------------------------------------------------------------- the 2006-01-02 layout

  /** `Format("2006-01-02")` for a four-digit year. */
  function FormatDate(d: Date): (s: string)
    requires d.Valid() && 0 <= d.year <= 9999
    ensures |s| == 10
  {
    FourDigits(d.year) + "-" + ZeroPad2(d.month) + "-" + ZeroPad2(d.day)
  }

  function FourDigits(n: nat): (s: string)
    requires n <= 9999
    ensures |s| == 4 && AllDigits(s) && DigitsValue(s) == n
  {
    DigitsValueAppend(ZeroPad2(n / 100), ZeroPad2(n % 100));
    ZeroPad2(n / 100) + ZeroPad2(n % 100)
  }

  /** `Format("01-02")`: the month and day of a date. */
  function MonthDay(d: Date): (s: string)
    requires d.Valid()
    ensures |s| == 5
  {
    ZeroPad2(d.month) + "-" + ZeroPad2(d.day)
  }

  lemma MonthDayInjective(d1: Date, d2: Date)
    requires d1.Valid() && d2.Valid() && d1.year == d2.year && MonthDay(d1) == MonthDay(d2)
    ensures d1 == d2
  {
    assert MonthDay(d1)[..2] == ZeroPad2(d1.month) && MonthDay(d2)[..2] == ZeroPad2(d2.month);
    assert MonthDay(d1)[3..] == ZeroPad2(d1.day) && MonthDay(d2)[3..] == ZeroPad2(d2.day);
    ZeroPad2Injective(d1.month, d2.month);
    ZeroPad2Injective(d1.day, d2.day);
  }

  /**
   * `time.Parse("2006-01-02", s)`: a four-digit year, a two-digit month from 01 to 12 and a two-digit
   * day that exists in that month, separated by dashes, and nothing more.
   */
  function ParseDate(s: string): (r: Option<Date>)
    ensures r.Some? ==> r.value.Valid() && 0 <= r.value.year <= 9999
  {
    if |s| == 10 && AllDigits(s[..4]) && s[4] == '-' && AllDigits(s[5..7]) && s[7] == '-' && AllDigits(s[8..]) then
      var d := Date(DigitsValue(s[..4]), DigitsValue(s[5..7]), DigitsValue(s[8..]));
      DigitsValueBound(s[..4]);
      if 1 <= d.month <= 12 && 1 <= d.day <= DaysInMonth(d.year, d.month) then Some(d) else None
    else None
  }

  /** Parsing reads back what formatting writes. */
  lemma ParseFormatDate(d: Date)
    requires d.Valid() && 0 <= d.year <= 9999
    ensures ParseDate(FormatDate(d)) == Some(d)
  {
    var s := FormatDate(d);
    assert s[..4] == FourDigits(d.year);
    assert s[5..7] == ZeroPad2(d.month);
    assert s[8..] == ZeroPad2(d.day);
  }

  /** Formatting writes back the text that parsed. */
  lemma FormatParseDate(s: string)
    requires ParseDate(s).Some?
    ensures FormatDate(ParseDate(s).value) == s
  {
    var d := ParseDate(s).value;
    var t := FormatDate(d);
    DigitsValueInjective(FourDigits(d.year), s[..4]);
    DigitsValueInjective(ZeroPad2(d.month), s[5..7]);
    DigitsValueInjective(ZeroPad2(d.day), s[8..]);
    assert t[..4] == s[..4] && t[5..7] == s[5..7] && t[8..] == s[8..];
    assert forall k :: 0 <= k < 10 ==> t[k] == s[k] by {
      forall k | 0 <= k < 10
        ensures t[k] == s[k]
      {
        if k < 4 {
          assert t[k] == t[..4][k];
        } else if 5 <= k < 7 {
          assert t[k] == t[5..7][k - 5];
        } else if 8 <= k {
          assert t[k] == t[8..][k - 8];
        }
      }
    }
  }

  lemma {:induction false} DigitsValueInjective(a: string, b: string)
    requires AllDigits(a) && AllDigits(b) && |a| == |b| && DigitsValue(a) == DigitsValue(b)
    ensures a == b
  {
    if a != [] {
      var n := |a| - 1;
      DigitsValueInjective(a[..n], b[..n]);
      assert a == a[..n] + [a[n]] && b == b[..n] + [b[n]];
    }
  }
}
