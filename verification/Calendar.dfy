/** The Gregorian calendar behind `Date.UTC` and the UTC getters of a JavaScript `Date`. */
module Calendar {

  const MS_PER_DAY := 86_400_000

  predicate Leap(y: nat) { y % 4 == 0 && (y % 100 != 0 || y % 400 == 0) }

  function MonthDays(y: nat, m: nat): nat {
    if m == 2 then (if Leap(y) then 29 else 28)
    else if m == 4 || m == 6 || m == 9 || m == 11 then 30
    else 31
  }

  datatype Date = Date(year: nat, month: nat, day: nat)
  {
    predicate Valid() { 1 <= month <= 12 && 1 <= day <= MonthDays(year, month) }

    predicate Before(other: Date) {
      year < other.year ||
      (year == other.year && (month < other.month || (month == other.month && day < other.day)))
    }
  }

  function NextDay(d: Date): (r: Date)
    requires d.Valid()
    ensures r.Valid()
  {
    if d.day < MonthDays(d.year, d.month) then Date(d.year, d.month, d.day + 1)
    else if d.month < 12 then Date(d.year, d.month + 1, 1)
    else Date(d.year + 1, 1, 1)
  }

  /** The calendar counted out day by day from 1 January of year 0. */
  function Civil(n: nat): (d: Date)
    ensures d.Valid()
  {
    if n == 0 then Date(0, 1, 1) else NextDay(Civil(n - 1))
  }

  /** The closed formula for the days before a year. */
  function DaysBeforeYear(y: nat): nat {
    365 * y + (y + 3) / 4 + (y + 399) / 400 - (y + 99) / 100
  }

  function DaysBeforeMonth(y: nat, m: nat): nat {
    if m <= 1 then 0 else DaysBeforeMonth(y, m - 1) + MonthDays(y, m - 1)
  }

  /** `MakeDay`: months beyond the year carry over, days beyond the month simply add up. */
  function DayNumber(y: nat, month: int, day: int): int
    requires y + (month - 1) / 12 >= 0
  {
    var ym, m := y + (month - 1) / 12, (month - 1) % 12 + 1;
    DaysBeforeYear(ym) + DaysBeforeMonth(ym, m) + day - 1
  }

  lemma YearLength(y: nat)
    ensures DaysBeforeYear(y + 1) == DaysBeforeYear(y) + if Leap(y) then 366 else 365
    ensures DaysBeforeMonth(y, 12) + MonthDays(y, 12) == if Leap(y) then 366 else 365
  {
    hide DaysBeforeMonth;
    Unrolled(y);
    LeapDays(y);
  }

  /** The leap days before a year, stepping by one after a leap year. */
  lemma LeapDays(y: nat)
    ensures (y + 4) / 4 + (y + 400) / 400 - (y + 100) / 100
         == (y + 3) / 4 + (y + 399) / 400 - (y + 99) / 100 + if Leap(y) then 1 else 0
  {
    FourthYear(y);
    HundredthYear(y);
    FourHundredthYear(y);
  }

  lemma FourthYear(y: nat)
    ensures (y + 4) / 4 == (y + 3) / 4 + if y % 4 == 0 then 1 else 0
  {}

  lemma HundredthYear(y: nat)
    ensures (y + 100) / 100 == (y + 99) / 100 + if y % 100 == 0 then 1 else 0
    ensures y % 100 == 0 ==> y % 4 == 0
  {
    var q, r := y / 100, y % 100;
    assert y == 100 * q + r;
    if r == 0 {
      assert y == 4 * (25 * q);
      assert y + 99 == 100 * q + 99;
    } else {
      assert y + 99 == 100 * (q + 1) + (r - 1);
    }
  }

  lemma FourHundredthYear(y: nat)
    ensures (y + 400) / 400 == (y + 399) / 400 + if y % 400 == 0 then 1 else 0
    ensures y % 400 == 0 ==> y % 100 == 0
  {
    var q, r := y / 400, y % 400;
    assert y == 400 * q + r;
    if r == 0 {
      assert y == 100 * (4 * q);
      assert y + 399 == 400 * q + 399;
    } else {
      assert y + 399 == 400 * (q + 1) + (r - 1);
    }
  }

  lemma Unrolled(y: nat)
    ensures DaysBeforeMonth(y, 12) == 306 + MonthDays(y, 2)
  {
    assert DaysBeforeMonth(y, 1) == 0 && DaysBeforeMonth(y, 2) == 31;
    assert DaysBeforeMonth(y, 3) == 31 + MonthDays(y, 2);
    assert DaysBeforeMonth(y, 5) == DaysBeforeMonth(y, 3) + 61;
    assert DaysBeforeMonth(y, 7) == DaysBeforeMonth(y, 5) + 61;
    assert DaysBeforeMonth(y, 9) == DaysBeforeMonth(y, 7) + 62;
    assert DaysBeforeMonth(y, 11) == DaysBeforeMonth(y, 9) + 61;
  }

  lemma OfRealDate(d: Date)
    requires d.Valid()
    ensures DayNumber(d.year, d.month, d.day) == DaysBeforeYear(d.year) + DaysBeforeMonth(d.year, d.month) + d.day - 1
  {
    assert (d.month - 1) / 12 == 0;
  }

  lemma NextDayNumber(d: Date)
    requires d.Valid()
    ensures var e := NextDay(d); DayNumber(e.year, e.month, e.day) == DayNumber(d.year, d.month, d.day) + 1
  {
    hide DaysBeforeYear, Leap, DayNumber;
    OfRealDate(d);
    OfRealDate(NextDay(d));
    YearLength(d.year);
  }

  lemma FirstDay()
    ensures DayNumber(0, 1, 1) == 0
  {}

  lemma {:induction false} CivilDayNumber(n: nat)
    ensures var d := Civil(n); DayNumber(d.year, d.month, d.day) == n
  {
    hide DaysBeforeYear, DaysBeforeMonth;
    if n == 0 {
      FirstDay();
    } else {
      CivilDayNumber(n - 1);
      NextDayNumber(Civil(n - 1));
    }
  }

  lemma {:induction false} MonthsGrow(y: nat, m: nat, k: nat)
    requires 1 <= m < k <= 12
    ensures DaysBeforeMonth(y, m) + MonthDays(y, m) <= DaysBeforeMonth(y, k)
    decreases k
  {
    if m < k - 1 { MonthsGrow(y, m, k - 1); }
  }

  lemma {:induction false} YearsGrow(y: nat, z: nat)
    requires y < z
    ensures DaysBeforeYear(y + 1) <= DaysBeforeYear(z)
    decreases z
  {
    if y + 1 < z {
      YearsGrow(y, z - 1);
      YearLength(z - 1);
    }
  }

  lemma WithinYear(d: Date)
    requires d.Valid()
    ensures DaysBeforeYear(d.year) <= DayNumber(d.year, d.month, d.day) < DaysBeforeYear(d.year + 1)
  {
    hide DaysBeforeYear, DaysBeforeMonth, DayNumber, MonthDays, Leap;
    OfRealDate(d);
    YearLength(d.year);
    if d.month < 12 { MonthsGrow(d.year, d.month, 12); }
  }

  /** Earlier dates have smaller day numbers. */
  lemma DayNumbersGrow(d: Date, e: Date)
    requires d.Valid() && e.Valid() && d.Before(e)
    ensures DayNumber(d.year, d.month, d.day) < DayNumber(e.year, e.month, e.day)
  {
    hide DaysBeforeYear, DaysBeforeMonth, DayNumber, MonthDays;
    OfRealDate(d);
    OfRealDate(e);
    if d.year < e.year {
      WithinYear(d);
      WithinYear(e);
      YearsGrow(d.year, e.year);
    } else if d.month < e.month {
      MonthsGrow(d.year, d.month, e.month);
    }
  }

  /** The formula and the day-by-day calendar are inverse to each other on real dates. */
  lemma CivilOfDayNumber(d: Date)
    requires d.Valid()
    ensures DayNumber(d.year, d.month, d.day) >= 0 && Civil(DayNumber(d.year, d.month, d.day)) == d
  {
    WithinYear(d);
    var e := Civil(DayNumber(d.year, d.month, d.day));
    CivilDayNumber(DayNumber(d.year, d.month, d.day));
    if d.Before(e) { DayNumbersGrow(d, e); } else if e.Before(d) { DayNumbersGrow(e, d); }
  }

  // ---- Points in time ----

  datatype Fields = Fields(date: Date, hour: nat, minute: nat, second: nat, millisecond: nat)
  {
    predicate Valid() { date.Valid() && hour < 24 && minute < 60 && second < 60 && millisecond < 1000 }
  }

  function TimeOfDay(f: Fields): nat {
    f.hour * 3_600_000 + f.minute * 60_000 + f.second * 1_000 + f.millisecond
  }

  /** Milliseconds since 1 January of year 0; `Date.UTC` differs by the constant distance to 1970. */
  function Moment(f: Fields): int
    requires f.date.year + (f.date.month - 1) / 12 >= 0
  {
    DayNumber(f.date.year, f.date.month, f.date.day) * MS_PER_DAY + TimeOfDay(f)
  }

  /** The UTC getters. */
  function FieldsAt(t: nat): (f: Fields)
    ensures f.Valid()
  {
    var inDay := t % MS_PER_DAY;
    Fields(Civil(t / MS_PER_DAY), inDay / 3_600_000, inDay / 60_000 % 60, inDay / 1_000 % 60, inDay % 1_000)
  }

  lemma TimeOfDayFields(f: Fields)
    requires f.hour < 24 && f.minute < 60 && f.second < 60 && f.millisecond < 1000
    ensures var t := TimeOfDay(f);
      t < MS_PER_DAY && t / 3_600_000 == f.hour && t / 60_000 % 60 == f.minute
      && t / 1_000 % 60 == f.second && t % 1_000 == f.millisecond
  {
    var t := TimeOfDay(f);
    assert t / 60_000 == f.hour * 60 + f.minute;
    assert t / 1_000 == (f.hour * 60 + f.minute) * 60 + f.second;
  }

  /** Reading the fields of a moment gives back exactly the fields that really exist. */
  lemma FieldsRoundTrip(f: Fields)
    requires f.date.year >= 1
    ensures Moment(f) >= 0
    ensures FieldsAt(Moment(f)) == f <==> f.Valid()
  {
    MomentNotNegative(f);
    if f.Valid() {
      CivilOfDayNumber(f.date);
      TimeOfDayFields(f);
      SplitMoment(DayNumber(f.date.year, f.date.month, f.date.day), TimeOfDay(f));
    }
  }

  lemma MomentNotNegative(f: Fields)
    requires f.date.year >= 1
    ensures Moment(f) >= 0
  {
    var d := f.date;
    var ym := d.year + (d.month - 1) / 12;
    if ym == 0 {
      assert d.month == 0 && (d.month - 1) % 12 + 1 == 12;
      YearLength(0);
    }
    assert DayNumber(d.year, d.month, d.day) >= 0;
  }

  lemma SplitMoment(day: nat, inDay: nat)
    requires inDay < MS_PER_DAY
    ensures (day * MS_PER_DAY + inDay) / MS_PER_DAY == day && (day * MS_PER_DAY + inDay) % MS_PER_DAY == inDay
  {}

  predicate FieldsBefore(f: Fields, g: Fields) {
    f.date.Before(g.date) || (f.date == g.date && TimeOfDay(f) < TimeOfDay(g))
  }

  lemma MomentsFollowFields(f: Fields, g: Fields)
    requires f.Valid() && g.Valid()
    ensures Moment(f) < Moment(g) <==> FieldsBefore(f, g)
  {
    TimeOfDayFields(f);
    TimeOfDayFields(g);
    if f.date.Before(g.date) { DayNumbersGrow(f.date, g.date); } else if g.date.Before(f.date) { DayNumbersGrow(g.date, f.date); }
  }

  /** Four hundred years are 146,097 days, with 97 leap years: every fourth one but three of four centuries. */
  lemma GregorianCycle(y: nat)
    ensures DaysBeforeYear(y + 400) == DaysBeforeYear(y) + 146_097
    ensures Leap(y + 400) == Leap(y) && !Leap(1900) && Leap(2000) && !Leap(2023) && Leap(2024)
  {}
}
