/** The proleptic Gregorian calendar as Go's time package computes it: days are
    numbered from 1 January of year 1 (day 0, a Monday), for every year. */
module Calendar {

  datatype Civil = Civil(year: int, month: int, day: int)

  predicate IsLeap(y: int) {
    y % 4 == 0 && (y % 100 != 0 || y % 400 == 0)
  }

  /** The month-length table of section 5.7 of RFC 3339. */
  function MonthLength(y: int, m: int): (days: int)
    requires 1 <= m <= 12
    ensures 28 <= days <= 31
  {
    if m == 2 then (if IsLeap(y) then 29 else 28)
    else if m == 4 || m == 6 || m == 9 || m == 11 then 30
    else 31
  }

  predicate ValidCivil(c: Civil) {
    1 <= c.month <= 12 && 1 <= c.day <= MonthLength(c.year, c.month)
  }

  /** Days of a common year that precede month m; m = 13 gives the whole year. */
  function DaysBeforeMonth(m: int): (days: int)
    requires 1 <= m <= 13
  {
    match m
    case 1 => 0   case 2 => 31  case 3 => 59   case 4 => 90   case 5 => 120
    case 6 => 151 case 7 => 181 case 8 => 212  case 9 => 243  case 10 => 273
    case 11 => 304 case 12 => 334 case _ => 365
  }

  /** Zero-based day of year on which month m starts. */
  function MonthOffset(leap: bool, m: int): (days: int)
    requires 1 <= m <= 13
  {
    DaysBeforeMonth(m) + (if leap && m >= 3 then 1 else 0)
  }

  function DaysBeforeYear(y: int): int {
    365 * (y - 1) + (y - 1) / 4 - (y - 1) / 100 + (y - 1) / 400
  }

  /** Day number of a date whose month and day may lie out of range: the month is
      folded into the year first, then the day counts on from the month's start. */
  function DayNumber(year: int, month: int, day: int): int {
    var y := year + (month - 1) / 12;
    var m := (month - 1) % 12 + 1;
    DaysBeforeYear(y) + MonthOffset(IsLeap(y), m) + day - 1
  }

  /** Year of a day number, by the 400/100/4/1-year cycle reduction. */
  function YearOf(n: int): int {
    var c400 := n / 146097;
    var d400 := n % 146097;
    var q100 := d400 / 36524;
    var c100 := q100 - q100 / 4;
    var d100 := d400 - 36524 * c100;
    var c4 := d100 / 1461;
    var d4 := d100 - 1461 * c4;
    var q1 := d4 / 365;
    var c1 := q1 - q1 / 4;
    400 * c400 + 100 * c100 + 4 * c4 + c1 + 1
  }

  /** Month and day of a zero-based day of year: 29 February is cut out, month
      `day / 31` is guessed and corrected upwards once. */
  function MonthDayOf(leap: bool, yearDay: int): (md: (int, int))
    requires 0 <= yearDay < 365 + (if leap then 1 else 0)
    ensures 1 <= md.0 <= 12
    ensures MonthOffset(leap, md.0) + md.1 - 1 == yearDay
    ensures 1 <= md.1 && yearDay < MonthOffset(leap, md.0 + 1)
  {
    if leap && yearDay == 59 then (2, 29)
    else
      var d := if leap && yearDay > 59 then yearDay - 1 else yearDay;
      var guess := d / 31;
      var end := DaysBeforeMonth(guess + 2);
      if d >= end then (guess + 2, d - end + 1)
      else (guess + 1, d - DaysBeforeMonth(guess + 1) + 1)
  }

  lemma MonthOffsetStep(y: int, m: int)
    requires 1 <= m <= 12
    ensures MonthOffset(IsLeap(y), m + 1) - MonthOffset(IsLeap(y), m) == MonthLength(y, m)
  {
  }

  lemma Quotient4(x: int, q: int, r: int)
    requires x == 4 * q + r && 0 <= r < 4
    ensures x / 4 == q && x % 4 == r
  {
  }

  lemma Quotient100(x: int, q: int, r: int)
    requires x == 100 * q + r && 0 <= r < 100
    ensures x / 100 == q && x % 100 == r
  {
  }

  lemma Quotient400(x: int, q: int, r: int)
    requires x == 400 * q + r && 0 <= r < 400
    ensures x / 400 == q && x % 400 == r
  {
  }

  /** Leap years within a 400-year cycle that starts at year 400 * c400 + 1. */
  lemma LeapInCycle(c400: int, c100: int, c4: int, c1: int)
    requires 0 <= c100 <= 3 && 0 <= c4 <= 24 && 0 <= c1 <= 3
    ensures IsLeap(400 * c400 + 100 * c100 + 4 * c4 + c1 + 1)
       <==> c1 == 3 && (c4 != 24 || c100 == 3)
  {
    var y := 400 * c400 + 100 * c100 + 4 * c4 + c1 + 1;
    if c1 != 3 {
      Quotient4(y, 100 * c400 + 25 * c100 + c4, c1 + 1);
    } else {
      Quotient4(y, 100 * c400 + 25 * c100 + c4 + 1, 0);
      if c4 != 24 {
        Quotient100(y, 4 * c400 + c100, 4 * c4 + 4);
      } else {
        Quotient100(y, 4 * c400 + c100 + 1, 0);
        if c100 == 3 {
          Quotient400(y, c400 + 1, 0);
        } else {
          Quotient400(y, c400, 100 * c100 + 100);
        }
      }
    }
  }

  lemma CycleYear(c400: int, c100: int, c4: int, c1: int)
    requires 0 <= c100 <= 3 && 0 <= c4 <= 24 && 0 <= c1 <= 3
    ensures DaysBeforeYear(400 * c400 + 100 * c100 + 4 * c4 + c1 + 1)
         == 146097 * c400 + 36524 * c100 + 1461 * c4 + 365 * c1
  {
    var y := 400 * c400 + 100 * c100 + 4 * c4 + c1;
    Quotient4(y, 100 * c400 + 25 * c100 + c4, c1);
    Quotient100(y, 4 * c400 + c100, 4 * c4 + c1);
    Quotient400(y, c400, 100 * c100 + 4 * c4 + c1);
  }

  /** A year is a day longer exactly when it is a leap year. */
  lemma YearSpan(y: int)
    ensures DaysBeforeYear(y + 1) - DaysBeforeYear(y) == 365 + (if IsLeap(y) then 1 else 0)
  {
    hide DaysBeforeYear;
    hide IsLeap;
    var x := y - 1;
    var c400, r := x / 400, x % 400;
    var c100, r100 := r / 100, r % 100;
    var c4, c1 := r100 / 4, r100 % 4;
    assert y == 400 * c400 + 100 * c100 + 4 * c4 + c1 + 1;
    CycleYear(c400, c100, c4, c1);
    LeapInCycle(c400, c100, c4, c1);
    if c1 < 3 {
      CycleYear(c400, c100, c4, c1 + 1);
    } else if c4 < 24 {
      CycleYear(c400, c100, c4 + 1, 0);
    } else if c100 < 3 {
      CycleYear(c400, c100 + 1, 0, 0);
    } else {
      CycleYear(c400 + 1, 0, 0, 0);
    }
  }

  /** What the 100/4/1-year reductions leave of a day within a 400-year cycle. */
  lemma CycleRemainder(d400: int, c100: int, c4: int, c1: int)
    requires 0 <= d400 < 146097
    requires c100 == d400 / 36524 - d400 / 36524 / 4
    requires c4 == (d400 - 36524 * c100) / 1461
    requires c1 == (d400 - 36524 * c100 - 1461 * c4) / 365 - (d400 - 36524 * c100 - 1461 * c4) / 365 / 4
    ensures 0 <= c100 <= 3 && 0 <= c4 <= 24 && 0 <= c1 <= 3
    ensures 0 <= d400 - 36524 * c100 - 1461 * c4 - 365 * c1
              < 365 + (if c1 == 3 && (c4 != 24 || c100 == 3) then 1 else 0)
  {
    var q100 := d400 / 36524;
    assert 0 <= q100 <= 4 && 36524 * q100 <= d400 < 36524 * q100 + 36524;
    assert q100 / 4 == if q100 == 4 then 1 else 0;
    var d100 := d400 - 36524 * c100;
    assert 0 <= d100 < 36524 + (if c100 == 3 then 1 else 0);
    assert 1461 * c4 <= d100 < 1461 * c4 + 1461;
    var d4 := d100 - 1461 * c4;
    var q1 := d4 / 365;
    assert 0 <= q1 <= 4 && 365 * q1 <= d4 < 365 * q1 + 365;
    assert q1 / 4 == if q1 == 4 then 1 else 0;
  }

  /** YearOf finds the year whose span holds the day. */
  lemma YearOfBounds(n: int)
    ensures DaysBeforeYear(YearOf(n)) <= n < DaysBeforeYear(YearOf(n) + 1)
  {
    hide DaysBeforeYear;
    var c400, d400 := n / 146097, n % 146097;
    var c100 := d400 / 36524 - d400 / 36524 / 4;
    var c4 := (d400 - 36524 * c100) / 1461;
    var d4 := d400 - 36524 * c100 - 1461 * c4;
    var c1 := d4 / 365 - d4 / 365 / 4;
    CycleRemainder(d400, c100, c4, c1);
    YearWithin(n, c400, c100, c4, c1);
  }

  lemma YearWithin(n: int, c400: int, c100: int, c4: int, c1: int)
    requires 0 <= c100 <= 3 && 0 <= c4 <= 24 && 0 <= c1 <= 3
    requires 0 <= n - 146097 * c400 - 36524 * c100 - 1461 * c4 - 365 * c1
               < 365 + (if c1 == 3 && (c4 != 24 || c100 == 3) then 1 else 0)
    ensures var y := 400 * c400 + 100 * c100 + 4 * c4 + c1 + 1;
            DaysBeforeYear(y) <= n < DaysBeforeYear(y + 1)
  {
    hide DaysBeforeYear;
    hide IsLeap;
    CycleYear(c400, c100, c4, c1);
    LeapInCycle(c400, c100, c4, c1);
    YearSpan(400 * c400 + 100 * c100 + 4 * c4 + c1 + 1);
  }

  lemma InYear(y: int, m: int, d: int)
    requires 1 <= m <= 12
    ensures DayNumber(y, m, d) == DaysBeforeYear(y) + MonthOffset(IsLeap(y), m) + d - 1
  {
    hide DaysBeforeYear;
    hide MonthOffset;
    hide IsLeap;
  }

  /** Civil date of a day number. */
  function DateOf(n: int): (c: Civil)
    ensures ValidCivil(c)
    ensures DayNumber(c.year, c.month, c.day) == n
  {
    YearOfBounds(n);
    var y := YearOf(n);
    YearSpan(y);
    var md := MonthDayOf(IsLeap(y), n - DaysBeforeYear(y));
    MonthOffsetStep(y, md.0);
    InYear(y, md.0, md.1);
    Civil(y, md.0, md.1)
  }

  /** Months are numbered through the years, so that month arithmetic is linear. */
  function MonthIndex(c: Civil): int { 12 * c.year + c.month - 1 }

  function MonthStart(k: int): int { DaysBeforeYear(k / 12) + MonthOffset(IsLeap(k / 12), k % 12 + 1) }

  function LengthOfMonth(k: int): int { MonthLength(k / 12, k % 12 + 1) }

  lemma IndexParts(y: int, m: int)
    requires 1 <= m <= 12
    ensures (12 * y + m - 1) / 12 == y && (12 * y + m - 1) % 12 + 1 == m
  {
  }

  /** Any year and month, in range or not, starts where its month index says. */
  lemma MonthStartIs(y: int, m: int, d: int)
    ensures DayNumber(y, m, d) == MonthStart(12 * y + m - 1) + d - 1
  {
    hide DaysBeforeYear;
    hide MonthOffset;
    hide IsLeap;
    var k := 12 * y + m - 1;
    assert k / 12 == y + (m - 1) / 12;
    assert k % 12 == (m - 1) % 12;
  }

  /** Consecutive month starts are one table month apart, across year ends too. */
  lemma MonthStartStep(k: int)
    ensures MonthStart(k + 1) == MonthStart(k) + LengthOfMonth(k)
  {
    hide DaysBeforeYear;
    hide MonthLength;
    hide IsLeap;
    var y, m := k / 12, k % 12 + 1;
    MonthOffsetStep(y, m);
    if m == 12 {
      YearSpan(y);
      assert (k + 1) / 12 == y + 1 && (k + 1) % 12 == 0;
    } else {
      assert (k + 1) / 12 == y && (k + 1) % 12 == m;
    }
  }

  lemma {:induction false} MonthStartMonotone(a: int, b: int)
    requires a <= b
    ensures MonthStart(a) + 28 * (b - a) <= MonthStart(b)
    decreases b - a
  {
    hide MonthStart;
    hide MonthLength;
    if a < b {
      MonthStartStep(b - 1);
      MonthStartMonotone(a, b - 1);
    }
  }

  lemma MonthsDisjoint(j: int, k: int, n: int)
    requires MonthStart(j) <= n < MonthStart(j + 1)
    requires MonthStart(k) <= n < MonthStart(k + 1)
    ensures j == k
  {
    hide MonthStart;
    if j < k {
      MonthStartMonotone(j + 1, k);
    } else if k < j {
      MonthStartMonotone(k + 1, j);
    }
  }

  /** A valid date lies inside its own month. */
  lemma CivilMonth(c: Civil)
    requires ValidCivil(c)
    ensures var k, n := MonthIndex(c), DayNumber(c.year, c.month, c.day);
            n == MonthStart(k) + c.day - 1 && MonthStart(k) <= n < MonthStart(k + 1)
            && k / 12 == c.year && k % 12 + 1 == c.month
  {
    hide DayNumber;
    hide MonthStart;
    hide MonthLength;
    var k := MonthIndex(c);
    IndexParts(c.year, c.month);
    assert LengthOfMonth(k) == MonthLength(c.year, c.month);
    MonthStartIs(c.year, c.month, c.day);
    MonthStartStep(k);
  }

  /** The date of the day that lies d days into month k. */
  lemma DateInMonth(k: int, d: int)
    requires 1 <= d <= LengthOfMonth(k)
    ensures DateOf(MonthStart(k) + d - 1) == Civil(k / 12, k % 12 + 1, d)
  {
    hide DateOf;
    hide DayNumber;
    hide MonthStart;
    hide MonthLength;
    SameMonthDate(k, d, DateOf(MonthStart(k) + d - 1));
  }

  lemma SameMonthDate(k: int, d: int, c: Civil)
    requires 1 <= d <= LengthOfMonth(k)
    requires ValidCivil(c) && DayNumber(c.year, c.month, c.day) == MonthStart(k) + d - 1
    ensures c == Civil(k / 12, k % 12 + 1, d)
  {
    hide DayNumber;
    hide MonthStart;
    hide MonthLength;
    MonthStartStep(k);
    CivilMonth(c);
    MonthsDisjoint(MonthIndex(c), k, MonthStart(k) + d - 1);
  }

  /** The two directions of the calendar are inverse: reading back a valid date's
      day number gives that date. */
  lemma CivilRoundTrip(c: Civil)
    requires ValidCivil(c)
    ensures DateOf(DayNumber(c.year, c.month, c.day)) == c
  {
    hide DayNumber;
    hide MonthStart;
    hide MonthLength;
    hide DateOf;
    IndexParts(c.year, c.month);
    MonthStartIs(c.year, c.month, c.day);
    DateInMonth(MonthIndex(c), c.day);
  }

  /** daysInMonth: the day-of-month of "day 0 of the following month". */
  function DaysInMonth(y: int, m: int): (days: int) {
    DateOf(DayNumber(y, m + 1, 0)).day
  }

  /** The day-0 trick yields the RFC 3339 table for every year and month. */
  lemma DaysInMonthIsTable(y: int, m: int)
    requires 1 <= m <= 12
    ensures DaysInMonth(y, m) == MonthLength(y, m)
  {
    hide DateOf;
    hide MonthStart;
    hide DayNumber;
    IndexParts(y, m);
    DayZero(12 * y + m - 1, y, m + 1);
    DateInMonth(12 * y + m - 1, MonthLength(y, m));
  }

  lemma DayZero(k: int, y: int, m: int)
    requires k == 12 * y + m - 2
    ensures DayNumber(y, m, 0) == MonthStart(k) + LengthOfMonth(k) - 1
  {
    hide DayNumber;
    hide MonthStart;
    hide MonthLength;
    MonthStartIs(y, m, 0);
    MonthStartStep(k);
  }

  /** Weekday of a day number, Sunday = 0; day 0 was a Monday. */
  function Weekday(n: int): (w: int)
    ensures 0 <= w <= 6
  {
    (n + 1) % 7
  }

  // ----- the day of the week, from the date alone -----

  /** Year and month counted from March, as the formula below wants them. */
  function FromMarch(c: Civil): (ym: (int, int)) {
    if c.month < 3 then (c.year - 1, c.month + 10) else (c.year, c.month - 2)
  }

  /** The day of the week of a date, Sunday = 0: the formula of appendix B of RFC 3339. */
  function DayOfWeek(c: Civil): (w: int)
    ensures 0 <= w <= 6
  {
    var (y, m) := FromMarch(c);
    ((26 * m - 2) / 10 + c.day + y % 100 + y % 100 / 4 + y / 100 / 4 + 5 * (y / 100)) % 7
  }

  lemma DaysByCentury(y: int)
    ensures DaysBeforeYear(y + 1) == 36524 * (y / 100) + 365 * (y % 100) + y % 100 / 4 + y / 100 / 4
  {
    var c, r := y / 100, y % 100;
    assert y == 100 * c + r;
    Quotient4(y, 25 * c + r / 4, r % 4);
    Quotient400(y, c / 4, 100 * (c % 4) + r);
  }

  /** Day numbers against years that start in March. */
  lemma DaysFromMarch(c: Civil)
    requires ValidCivil(c)
    ensures var (y, m) := FromMarch(c);
            DayNumber(c.year, c.month, c.day) + 1
            == DaysBeforeYear(y + 1) + c.day + DaysBeforeMonth(c.month) - (if c.month < 3 then 0 else 365)
  {
    YearSpan(c.year);
    hide DaysBeforeYear;
  }

  lemma MonthsModWeek(c: Civil) returns (k: int)
    requires 1 <= c.month <= 12
    ensures DaysBeforeMonth(c.month) - (if c.month < 3 then 0 else 365) == (26 * FromMarch(c).1 - 2) / 10 + 7 * k
  {
    k := (DaysBeforeMonth(c.month) - (if c.month < 3 then 0 else 365) - (26 * FromMarch(c).1 - 2) / 10) / 7;
  }

  lemma MultiplesOfSeven(x: int, k: int)
    ensures (x + 7 * k) % 7 == x % 7
  {
  }

  /** The weekday of a day number is that of its date, for every valid date. */
  lemma WeekdayIsDayOfWeek(c: Civil)
    requires ValidCivil(c)
    ensures Weekday(DayNumber(c.year, c.month, c.day)) == DayOfWeek(c)
  {
    var (y, m) := FromMarch(c);
    DaysFromMarch(c);
    DaysByCentury(y);
    var k := MonthsModWeek(c);
    hide DayNumber;
    hide DaysBeforeYear;
    hide DaysBeforeMonth;
    hide FromMarch;
    var n := DayNumber(c.year, c.month, c.day);
    var x := (26 * m - 2) / 10 + c.day + y % 100 + y % 100 / 4 + y / 100 / 4 + 5 * (y / 100);
    assert n + 1 == x + 7 * (k + 5217 * (y / 100) + 52 * (y % 100));
    MultiplesOfSeven(x, k + 5217 * (y / 100) + 52 * (y % 100));
  }

  lemma WeekdayOfDay(n: int)
    ensures Weekday(n) == DayOfWeek(DateOf(n))
  {
    hide DayNumber;
    WeekdayIsDayOfWeek(DateOf(n));
  }

  /** Where the day numbers start: Go's zero time and the Unix epoch. */
  lemma Epochs()
    ensures DayNumber(1, 1, 1) == 0 && DayNumber(1970, 1, 1) == 719162
    ensures DayOfWeek(Civil(1, 1, 1)) == 1 && DayOfWeek(Civil(1970, 1, 1)) == 4
  {
    assert DaysBeforeYear(1) == 0 && DaysBeforeYear(1970) == 719162;
    WeekdayIsDayOfWeek(Civil(1, 1, 1));
    WeekdayIsDayOfWeek(Civil(1970, 1, 1));
    hide DaysBeforeYear;
    hide DayOfWeek;
    hide IsLeap;
  }
}
