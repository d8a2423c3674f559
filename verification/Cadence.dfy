/** When a schedule runs next: scheduler.go's interval, daily, weekly and monthly
    arithmetic. Instants are nanoseconds since Go's zero time, a zone is any fixed
    offset from UTC in nanoseconds, and a schedule's text fields are strings. */
module Cadence {
  import opened Basics
  import opened Calendar
  import Text

  const MINUTE := 60_000_000_000
  const HOUR := 3_600_000_000_000
  const DAY := 86_400_000_000_000

  datatype Timing = Timing(
    cadence: string,
    timeOfDay: string,
    dayOfWeek: int,
    dayOfMonth: int,
    intervalMinutes: int)

  // ----- time of day -----

  predicate IsDigit(c: char) { '0' <= c <= '9' }

  function DigitsValue(s: string): (v: nat) {
    if s == [] || !IsDigit(s[|s| - 1]) then 0
    else 10 * DigitsValue(s[..|s| - 1]) + (s[|s| - 1] as int - '0' as int)
  }

  predicate AllDigits(s: string) { s != "" && forall i :: 0 <= i < |s| ==> IsDigit(s[i]) }

  /** strconv.Atoi on a 64-bit platform: value and whether err is nil. A syntax
      error yields 0, a range error the nearest representable value. */
  function Atoi(s: string): (r: (int, bool)) {
    var signed := s != [] && (s[0] == '+' || s[0] == '-');
    var digits := if signed then s[1..] else s;
    if !AllDigits(digits) then (0, false)
    else
      var v := (if signed && s[0] == '-' then -1 else 1) * DigitsValue(digits);
      if v > 0x7FFF_FFFF_FFFF_FFFF then (0x7FFF_FFFF_FFFF_FFFF, false)
      else if v < -0x8000_0000_0000_0000 then (-0x8000_0000_0000_0000, false)
      else (v, true)
  }

  /** What a number text means: an optional sign and decimal digits, cut off at the int64
      range; anything else is zero and an error. */
  lemma AtoiExactly(digits: string)
    requires AllDigits(digits)
    ensures var v: int := DigitsValue(digits);
            && Atoi(digits) == (if v <= 0x7FFF_FFFF_FFFF_FFFF then (v, true) else (0x7FFF_FFFF_FFFF_FFFF, false))
            && Atoi("+" + digits) == Atoi(digits)
            && Atoi("-" + digits) == (if v <= 0x8000_0000_0000_0000 then (-v, true) else (-0x8000_0000_0000_0000, false))
  {
    assert ("+" + digits)[1..] == digits && ("-" + digits)[1..] == digits;
    assert IsDigit(digits[0]);
    hide DigitsValue;
  }

  lemma AtoiRefuses(s: string)
    requires !AllDigits(s) && !(s != "" && s[0] in "+-" && AllDigits(s[1..]))
    ensures Atoi(s) == (0, false)
  {
    hide AllDigits;
    hide DigitsValue;
    assert "+-"[0] == '+' && "+-"[1] == '-';
  }

  /** A number written in decimal. */
  function DecimalText(n: nat): (s: string)
  {
    if n < 10 then [('0' as int + n) as char] else DecimalText(n / 10) + [('0' as int + n % 10) as char]
  }

  lemma {:induction false} DecimalReadsBack(n: nat)
    ensures AllDigits(DecimalText(n)) && DigitsValue(DecimalText(n)) == n
  {
    var s := DecimalText(n);
    if n < 10 {
      assert s[..0] == [];
    } else {
      DecimalReadsBack(n / 10);
      assert s[..|s| - 1] == DecimalText(n / 10);
    }
  }

  function ParseTimeOfDay(tod: string): (hm: (int, int))
    ensures 0 <= hm.0 <= 23 && 0 <= hm.1 <= 59
  {
    var i := Text.IndexOf(tod, ':');
    if i == |tod| then (0, 0)
    else
      var h := Atoi(tod[..i]).0;
      var m := Atoi(tod[i + 1..]).0;
      (if h < 0 || h > 23 then 0 else h, if m < 0 || m > 59 then 0 else m)
  }

  /** handlers.validTimeOfDay, the check made before a schedule is stored. */
  predicate ValidTimeOfDay(tod: string) {
    var i := Text.IndexOf(tod, ':');
    i < |tod|
    && Atoi(tod[..i]).1 && 0 <= Atoi(tod[..i]).0 <= 23
    && Atoi(tod[i + 1..]).1 && 0 <= Atoi(tod[i + 1..]).0 <= 59
  }

  /** The part of handlers.validateSchedule that concerns timing. */
  predicate ValidTiming(t: Timing) {
    match t.cadence
    case "interval" => t.intervalMinutes >= 5
    case "daily" => ValidTimeOfDay(t.timeOfDay)
    case "weekly" => ValidTimeOfDay(t.timeOfDay) && 0 <= t.dayOfWeek <= 6
    case "monthly" => ValidTimeOfDay(t.timeOfDay) && 1 <= t.dayOfMonth <= 31
    case _ => false
  }

  /** Which schedules pass: intervals from five minutes on, and calendar cadences with two
      numbers in range around a colon, on a weekday or a day of the month. */
  lemma ValidTimingExactly(t: Timing, a: string, b: string)
    requires ':' !in a
    ensures t.cadence !in ["interval", "daily", "weekly", "monthly"] ==> !ValidTiming(t)
    ensures t.cadence == "interval" ==> (ValidTiming(t) <==> t.intervalMinutes * MINUTE >= 300_000_000_000)
    ensures t.timeOfDay == a && t.cadence != "interval" ==> !ValidTiming(t)
    ensures t.timeOfDay == a + [':'] + b && t.cadence != "interval" ==>
      (ValidTiming(t) <==>
        && t.cadence in ["daily", "weekly", "monthly"]
        && Atoi(a).1 && Atoi(b).1 && 0 <= Atoi(a).0 <= 23 && 0 <= Atoi(b).0 <= 59
        && (t.cadence == "weekly" ==> t.dayOfWeek in [0, 1, 2, 3, 4, 5, 6])
        && (t.cadence == "monthly" ==> 0 < t.dayOfMonth < 32))
  {
    hide Atoi;
    Text.IndexOfNone(a, ':');
    Text.IndexOfAt(a, ':', b);
    var tod := a + [':'] + b;
    assert tod[..|a|] == a && tod[|a| + 1..] == b;
  }

  // ----- fixed-offset local time -----

  function LocalDay(t: Instant, off: int): int { (t + off) / DAY }

  function LocalClock(t: Instant, off: int): (c: int)
    ensures 0 <= c < DAY
  {
    (t + off) % DAY
  }

  /** time.Date(y, mo, d, h, m, 0, 0, loc) for a day number. */
  function At(dayNumber: int, hm: (int, int), off: int): Instant {
    dayNumber * DAY + hm.0 * HOUR + hm.1 * MINUTE - off
  }

  /** time.Time.AddDate(0, 0, days). */
  function AddDays(t: Instant, days: int, off: int): Instant {
    var c := DateOf(LocalDay(t, off));
    DayNumber(c.year, c.month, c.day + days) * DAY + LocalClock(t, off) - off
  }

  predicate ClockIs(t: Instant, hm: (int, int), off: int) {
    LocalClock(t, off) == hm.0 * HOUR + hm.1 * MINUTE
  }

  predicate ClockRange(hm: (int, int)) { 0 <= hm.0 <= 23 && 0 <= hm.1 <= 59 }

  lemma AtLocal(d: int, hm: (int, int), off: int)
    requires ClockRange(hm)
    ensures LocalDay(At(d, hm, off), off) == d && ClockIs(At(d, hm, off), hm, off)
  {
    var c := hm.0 * HOUR + hm.1 * MINUTE;
    assert At(d, hm, off) + off == d * DAY + c;
    assert 0 <= c < DAY;
  }

  /** An instant at clock time hm is the At of its own local day. */
  lemma ClockGivesAt(t: Instant, hm: (int, int), off: int)
    requires ClockIs(t, hm, off)
    ensures t == At(LocalDay(t, off), hm, off)
  {
  }

  lemma EarlierDay(d: int, hm: (int, int), off: int, t: Instant)
    requires ClockRange(hm)
    ensures d < LocalDay(t, off) ==> At(d, hm, off) < t
    ensures d > LocalDay(t, off) ==> At(d, hm, off) > t
  {
    var n, c := LocalDay(t, off), LocalClock(t, off);
    assert t + off == n * DAY + c;
  }

  lemma AddDaysIs(t: Instant, days: int, off: int)
    ensures AddDays(t, days, off) == t + days * DAY
  {
    hide DateOf;
    var c := DateOf(LocalDay(t, off));
    assert DayNumber(c.year, c.month, c.day + days) == DayNumber(c.year, c.month, c.day) + days;
    assert t + off == LocalDay(t, off) * DAY + LocalClock(t, off);
  }

  // ----- the four cadences -----

  /** Duration arithmetic is int64 and wraps. */
  function Wrap64(x: int): int {
    var r := x % 0x1_0000_0000_0000_0000;
    if r >= 0x8000_0000_0000_0000 then r - 0x1_0000_0000_0000_0000 else r
  }

  /** Effective interval: the wrapped product, or a day when that is not positive. */
  function IntervalStep(minutes: int): (step: int)
    ensures step > 0
    ensures 1 <= minutes <= 153_722_867 ==> step == minutes * MINUTE
    ensures -153_722_867 <= minutes <= 0 ==> step == 24 * HOUR
  {
    var step := Wrap64(minutes * MINUTE);
    if step <= 0 then 24 * HOUR else step
  }

  /** nextInterval keeps a pending time and otherwise counts one step from now. The
      source's closing loop never iterates: `next > after` holds on reaching it. */
  function IntervalNext(minutes: int, nextRunAt: Instant, after: Instant): (next: Instant)
    ensures next > after
  {
    if nextRunAt != 0 && nextRunAt > after then nextRunAt else after + IntervalStep(minutes)
  }

  function NextDaily(timeOfDay: string, after: Instant, off: int): Instant {
    var hm := ParseTimeOfDay(timeOfDay);
    var a := DateOf(LocalDay(after, off));
    var candidate := At(DayNumber(a.year, a.month, a.day), hm, off);
    if candidate > after then candidate else AddDays(candidate, 1, off)
  }

  function NextWeekly(dayOfWeek: int, timeOfDay: string, after: Instant, off: int): Instant {
    var hm := ParseTimeOfDay(timeOfDay);
    var a := DateOf(LocalDay(after, off));
    var candidate := At(DayNumber(a.year, a.month, a.day), hm, off);
    var ahead := dayOfWeek - Weekday(LocalDay(candidate, off));
    var ahead' := if ahead < 0 then ahead + 7 else ahead;
    var candidate' := AddDays(candidate, ahead', off);
    if candidate' > after then candidate' else AddDays(candidate', 7, off)
  }

  function ClampMonthDay(year: int, month: int, day: int, hm: (int, int), off: int): Instant {
    var last := DaysInMonth(year, month);
    At(DayNumber(year, month, if day > last then last else day), hm, off)
  }

  function NextMonthly(dayOfMonth: int, timeOfDay: string, after: Instant, off: int): Instant {
    var hm := ParseTimeOfDay(timeOfDay);
    var day := if dayOfMonth < 1 then 1 else dayOfMonth;
    var a := DateOf(LocalDay(after, off));
    var candidate := ClampMonthDay(a.year, a.month, day, hm, off);
    if candidate > after then candidate
    else if a.month + 1 > 12 then ClampMonthDay(a.year + 1, 1, day, hm, off)
    else ClampMonthDay(a.year, a.month + 1, day, hm, off)
  }

  /** nextScheduleRun: an unknown cadence falls through to the interval rule. */
  function NextScheduleRun(t: Timing, nextRunAt: Instant, after: Instant, off: int): Instant {
    match t.cadence
    case "daily" => NextDaily(t.timeOfDay, after, off)
    case "weekly" => NextWeekly(t.dayOfWeek, t.timeOfDay, after, off)
    case "monthly" => NextMonthly(t.dayOfMonth, t.timeOfDay, after, off)
    case _ => IntervalNext(t.intervalMinutes, nextRunAt, after)
  }

  predicate IsCalendar(t: Timing) {
    t.cadence == "daily" || t.cadence == "weekly" || t.cadence == "monthly"
  }

  // ----- what an occurrence is, said without the code above -----

  predicate DailyOccurs(t: Instant, hm: (int, int), off: int) { ClockIs(t, hm, off) }

  /** The date's day of the week, by the formula of RFC 3339. */
  predicate WeeklyOccurs(t: Instant, dayOfWeek: int, hm: (int, int), off: int) {
    DayOfWeek(DateOf(LocalDay(t, off))) == dayOfWeek && ClockIs(t, hm, off)
  }

  /** The wanted day of month, or the month's last day when the month is shorter. */
  predicate MonthlyOccurs(t: Instant, dayOfMonth: int, hm: (int, int), off: int) {
    var c := DateOf(LocalDay(t, off));
    var last := MonthLength(c.year, c.month);
    c.day == (if dayOfMonth < 1 then 1 else if dayOfMonth > last then last else dayOfMonth)
    && ClockIs(t, hm, off)
  }

  predicate Occurs(tm: Timing, off: int, t: Instant) {
    var hm := ParseTimeOfDay(tm.timeOfDay);
    match tm.cadence
    case "daily" => DailyOccurs(t, hm, off)
    case "weekly" => WeeklyOccurs(t, tm.dayOfWeek, hm, off)
    case "monthly" => MonthlyOccurs(t, tm.dayOfMonth, hm, off)
    case _ => false
  }

  /** r is the least occurrence strictly after `after`. */
  ghost predicate LeastAfter(tm: Timing, off: int, after: Instant, r: Instant) {
    r > after && Occurs(tm, off, r)
    && forall t :: t > after && Occurs(tm, off, t) ==> r <= t
  }

  // ----- daily -----

  lemma DailyLeast(tm: Timing, after: Instant, off: int)
    requires tm.cadence == "daily"
    ensures var r := NextDaily(tm.timeOfDay, after, off);
            LeastAfter(tm, off, after, r) && r <= after + DAY
  {
    hide DateOf;
    hide DayNumber;
    var hm := ParseTimeOfDay(tm.timeOfDay);
    var n := LocalDay(after, off);
    var candidate := At(n, hm, off);
    AddDaysIs(candidate, 1, off);
    var r := NextDaily(tm.timeOfDay, after, off);
    var d := if candidate > after then n else n + 1;
    assert r == At(d, hm, off);
    AtLocal(d, hm, off);
    EarlierDay(n + 1, hm, off, after);
    EarlierDay(n - 1, hm, off, after);
    forall t | t > after && Occurs(tm, off, t) ensures r <= t {
      ClockGivesAt(t, hm, off);
      EarlierDay(LocalDay(t, off), hm, off, after);
    }
  }

  // ----- weekly -----

  lemma WeekdayShift(n: int, days: int)
    ensures Weekday(n + days) == (Weekday(n) + days) % 7
  {
  }

  /** Landing day of the weekly rule, counted from the current local day. */
  lemma WeeklyShape(tm: Timing, after: Instant, off: int) returns (d: int)
    requires tm.cadence == "weekly" && 0 <= tm.dayOfWeek <= 6
    ensures var hm := ParseTimeOfDay(tm.timeOfDay);
            NextWeekly(tm.dayOfWeek, tm.timeOfDay, after, off) == At(d, hm, off)
            && Weekday(d) == tm.dayOfWeek
            && At(d - 7, hm, off) <= after < At(d, hm, off)
  {
    hide LocalDay;
    hide AddDays;
    hide ParseTimeOfDay;
    hide DateOf;
    hide DayNumber;
    var hm := ParseTimeOfDay(tm.timeOfDay);
    var n := LocalDay(after, off);
    var candidate := At(n, hm, off);
    AtLocal(n, hm, off);
    var ahead := tm.dayOfWeek - Weekday(n);
    var ahead' := if ahead < 0 then ahead + 7 else ahead;
    AddDaysIs(candidate, ahead', off);
    AddDaysIs(At(n + ahead', hm, off), 7, off);
    WeekdayShift(n, ahead');
    WeekdayShift(n + ahead', 7);
    EarlierDay(n + ahead' - 7, hm, off, after);
    EarlierDay(n + ahead' + 7, hm, off, after);
    d := if At(n + ahead', hm, off) > after then n + ahead' else n + ahead' + 7;
  }

  lemma SameWeekday(a: int, b: int)
    requires Weekday(a) == Weekday(b) && a > b - 7
    ensures a >= b
  {
    if a < b {
      WeekdayShift(a, b - a);
    }
  }

  lemma WeeklyLeast(tm: Timing, after: Instant, off: int)
    requires tm.cadence == "weekly" && 0 <= tm.dayOfWeek <= 6
    ensures var r := NextWeekly(tm.dayOfWeek, tm.timeOfDay, after, off);
            LeastAfter(tm, off, after, r) && r <= after + 7 * DAY
  {
    hide NextWeekly;
    hide Weekday;
    hide DayOfWeek;
    hide DateOf;
    var hm := ParseTimeOfDay(tm.timeOfDay);
    var d := WeeklyShape(tm, after, off);
    AtLocal(d, hm, off);
    WeekdayOfDay(d);
    forall t | t > after && Occurs(tm, off, t) ensures At(d, hm, off) <= t {
      ClockGivesAt(t, hm, off);
      WeekdayOfDay(LocalDay(t, off));
      SameWeekday(LocalDay(t, off), d);
    }
  }

  // ----- monthly -----

  function ClampDay(dayOfMonth: int, k: int): (d: int)
    ensures 1 <= d <= LengthOfMonth(k)
  {
    var last := LengthOfMonth(k);
    if dayOfMonth < 1 then 1 else if dayOfMonth > last then last else dayOfMonth
  }

  /** The monthly occurrence of month k. */
  function MonthlyAt(k: int, dayOfMonth: int, hm: (int, int), off: int): Instant {
    At(MonthStart(k) + ClampDay(dayOfMonth, k) - 1, hm, off)
  }

  lemma ClampMonthDayIs(year: int, month: int, dayOfMonth: int, hm: (int, int), off: int)
    requires 1 <= month <= 12
    ensures ClampMonthDay(year, month, if dayOfMonth < 1 then 1 else dayOfMonth, hm, off)
         == MonthlyAt(12 * year + month - 1, dayOfMonth, hm, off)
  {
    hide MonthStart;
    hide DayNumber;
    hide DaysInMonth;
    hide MonthLength;
    var k := 12 * year + month - 1;
    IndexParts(year, month);
    DaysInMonthIsTable(year, month);
    MonthStartIs(year, month, ClampDay(dayOfMonth, k));
  }

  lemma MonthlyAtLocal(k: int, dayOfMonth: int, hm: (int, int), off: int)
    requires ClockRange(hm)
    ensures var t := MonthlyAt(k, dayOfMonth, hm, off);
            LocalDay(t, off) == MonthStart(k) + ClampDay(dayOfMonth, k) - 1
            && DateOf(LocalDay(t, off)) == Civil(k / 12, k % 12 + 1, ClampDay(dayOfMonth, k))
            && MonthIndex(DateOf(LocalDay(t, off))) == k
            && MonthlyOccurs(t, dayOfMonth, hm, off)
  {
    hide MonthStart;
    hide DateOf;
    hide MonthLength;
    AtLocal(MonthStart(k) + ClampDay(dayOfMonth, k) - 1, hm, off);
    DateInMonth(k, ClampDay(dayOfMonth, k));
  }

  /** Every monthly occurrence is the one of its own month. */
  lemma MonthlyOccursInMonth(t: Instant, dayOfMonth: int, hm: (int, int), off: int)
    requires MonthlyOccurs(t, dayOfMonth, hm, off)
    ensures t == MonthlyAt(MonthIndex(DateOf(LocalDay(t, off))), dayOfMonth, hm, off)
  {
    hide MonthStart;
    hide DateOf;
    hide MonthLength;
    hide DayNumber;
    ClockGivesAt(t, hm, off);
    CivilMonth(DateOf(LocalDay(t, off)));
  }

  lemma MonthlyAtMonotone(j: int, k: int, dayOfMonth: int, hm: (int, int), off: int)
    requires j < k && ClockRange(hm)
    ensures MonthlyAt(j, dayOfMonth, hm, off) < MonthlyAt(k, dayOfMonth, hm, off)
  {
    hide MonthStart;
    hide MonthLength;
    MonthStartStep(j);
    MonthStartMonotone(j + 1, k);
  }

  /** The monthly rule picks the first month whose occurrence lies after `after`. */
  lemma MonthlyShape(dayOfMonth: int, timeOfDay: string, after: Instant, off: int)
    returns (k: int)
    ensures var hm := ParseTimeOfDay(timeOfDay);
            NextMonthly(dayOfMonth, timeOfDay, after, off) == MonthlyAt(k, dayOfMonth, hm, off)
            && MonthlyAt(k - 1, dayOfMonth, hm, off) <= after < MonthlyAt(k, dayOfMonth, hm, off)
  {
    hide MonthStart;
    hide DateOf;
    hide MonthLength;
    hide DayNumber;
    hide ClampMonthDay;
    hide ParseTimeOfDay;
    var hm := ParseTimeOfDay(timeOfDay);
    var a := DateOf(LocalDay(after, off));
    var m := MonthIndex(a);
    CivilMonth(a);
    ClampMonthDayIs(a.year, a.month, dayOfMonth, hm, off);
    if a.month + 1 > 12 {
      ClampMonthDayIs(a.year + 1, 1, dayOfMonth, hm, off);
    } else {
      ClampMonthDayIs(a.year, a.month + 1, dayOfMonth, hm, off);
    }
    assert MonthlyAt(m - 1, dayOfMonth, hm, off) <= after by {
      MonthStartStep(m - 1);
      EarlierDay(MonthStart(m - 1) + ClampDay(dayOfMonth, m - 1) - 1, hm, off, after);
    }
    assert MonthlyAt(m + 1, dayOfMonth, hm, off) > after by {
      EarlierDay(MonthStart(m + 1) + ClampDay(dayOfMonth, m + 1) - 1, hm, off, after);
    }
    k := if MonthlyAt(m, dayOfMonth, hm, off) > after then m else m + 1;
  }

  lemma MonthlyLeast(tm: Timing, after: Instant, off: int)
    requires tm.cadence == "monthly"
    ensures LeastAfter(tm, off, after, NextMonthly(tm.dayOfMonth, tm.timeOfDay, after, off))
  {
    hide LocalDay;
    hide MonthIndex;
    hide MonthStart;
    hide ClampDay;
    hide MonthlyAt;
    hide MonthlyOccurs;
    hide NextMonthly;
    hide DateOf;
    hide ParseTimeOfDay;
    var hm := ParseTimeOfDay(tm.timeOfDay);
    var k := MonthlyShape(tm.dayOfMonth, tm.timeOfDay, after, off);
    MonthlyAtLocal(k, tm.dayOfMonth, hm, off);
    forall t | t > after && Occurs(tm, off, t)
      ensures MonthlyAt(k, tm.dayOfMonth, hm, off) <= t
    {
      var j := MonthIndex(DateOf(LocalDay(t, off)));
      MonthlyOccursInMonth(t, tm.dayOfMonth, hm, off);
      if j < k - 1 { MonthlyAtMonotone(j, k - 1, tm.dayOfMonth, hm, off); }
      if k < j { MonthlyAtMonotone(k, j, tm.dayOfMonth, hm, off); }
    }
  }

  /** n successive monthly runs counted from `start`. */
  function MonthlyRuns(dayOfMonth: int, timeOfDay: string, start: Instant, off: int, n: nat): Instant {
    if n == 0 then start
    else NextMonthly(dayOfMonth, timeOfDay, MonthlyRuns(dayOfMonth, timeOfDay, start, off, n - 1), off)
  }

  /** No drift: starting from the occurrence of month k, the n-th following run is
      the occurrence of month k + n, on the wanted day clamped to that month alone. */
  lemma {:induction false} MonthlyNoDrift(dayOfMonth: int, timeOfDay: string, k: int, off: int, n: nat)
    ensures var hm := ParseTimeOfDay(timeOfDay);
            var t := MonthlyRuns(dayOfMonth, timeOfDay, MonthlyAt(k, dayOfMonth, hm, off), off, n);
            t == MonthlyAt(k + n, dayOfMonth, hm, off)
            && DateOf(LocalDay(t, off)) == Civil((k + n) / 12, (k + n) % 12 + 1, ClampDay(dayOfMonth, k + n))
  {
    hide LocalDay;
    hide MonthlyOccurs;
    hide MonthStart;
    hide MonthlyAt;
    hide NextMonthly;
    hide DateOf;
    hide ParseTimeOfDay;
    hide ClampDay;
    var hm := ParseTimeOfDay(timeOfDay);
    MonthlyAtLocal(k + n, dayOfMonth, hm, off);
    if n > 0 {
      MonthlyNoDrift(dayOfMonth, timeOfDay, k, off, n - 1);
      var at := MonthlyAt(k + n - 1, dayOfMonth, hm, off);
      var j := MonthlyShape(dayOfMonth, timeOfDay, at, off);
      if j < k + n - 1 { MonthlyAtMonotone(j, k + n - 1, dayOfMonth, hm, off); }
      if j > k + n { MonthlyAtMonotone(k + n - 1, j - 1, dayOfMonth, hm, off); }
      if j == k + n - 1 { assert false; }
    }
  }

  // ----- the cadences together -----

  /** Every cadence moves strictly forward; a calendar cadence lands on its least
      following occurrence. */
  lemma NextScheduleRunLeast(tm: Timing, nextRunAt: Instant, after: Instant, off: int)
    requires tm.cadence == "weekly" ==> 0 <= tm.dayOfWeek <= 6
    ensures NextScheduleRun(tm, nextRunAt, after, off) > after
    ensures IsCalendar(tm) ==> LeastAfter(tm, off, after, NextScheduleRun(tm, nextRunAt, after, off))
  {
    hide NextDaily;
    hide NextWeekly;
    hide NextMonthly;
    hide Occurs;
    if tm.cadence == "daily" {
      DailyLeast(tm, after, off);
    } else if tm.cadence == "weekly" {
      WeeklyLeast(tm, after, off);
    } else if tm.cadence == "monthly" {
      MonthlyLeast(tm, after, off);
    }
  }

  /** Re-planning before the planned time changes nothing, whatever the cadence: this
      is why a manual run ahead of time leaves NextRunAt alone. */
  lemma ReplanIsStable(tm: Timing, planned: Instant, t0: Instant, now: Instant, prior: Instant, off: int)
    requires tm.cadence == "weekly" ==> 0 <= tm.dayOfWeek <= 6
    requires planned == NextScheduleRun(tm, prior, t0, off)
    requires t0 <= now < planned && planned != 0
    ensures NextScheduleRun(tm, planned, now, off) == planned
  {
    hide NextDaily;
    hide NextWeekly;
    hide NextMonthly;
    hide Occurs;
    NextScheduleRunLeast(tm, prior, t0, off);
    NextScheduleRunLeast(tm, planned, now, off);
  }

  // ----- time-of-day text -----

  /** What the handler validates is what the scheduler uses: no clamping happens. */
  lemma ValidatedTimeIsKept(tod: string)
    requires ValidTimeOfDay(tod)
    ensures var i := Text.IndexOf(tod, ':');
            ParseTimeOfDay(tod) == (Atoi(tod[..i]).0, Atoi(tod[i + 1..]).0)
  {
  }

  /** A text without a colon means midnight; elsewhere a field that is no number in range
      counts as zero, whatever the other field is. */
  lemma UnparsableTimes(a: string, b: string)
    requires ':' !in a
    ensures ParseTimeOfDay(a) == (0, 0)
    ensures var hm := ParseTimeOfDay(a + [':'] + b);
            && hm.0 == (if 0 <= Atoi(a).0 <= 23 then Atoi(a).0 else 0)
            && hm.1 == (if 0 <= Atoi(b).0 <= 59 then Atoi(b).0 else 0)
  {
    hide Atoi;
    var tod := a + [':'] + b;
    Text.IndexOfAt(a, ':', b);
    assert tod[..|a|] == a && tod[|a| + 1..] == b;
    Text.IndexOfNone(a, ':');
  }

  function TwoDigits(v: int): string
    requires 0 <= v <= 99
  {
    [('0' as int + v / 10) as char, ('0' as int + v % 10) as char]
  }

  lemma TwoDigitsValue(v: int)
    requires 0 <= v <= 99
    ensures Atoi(TwoDigits(v)) == (v, true)
    ensures ':' !in TwoDigits(v)
  {
    var s := TwoDigits(v);
    assert s[..1] == [s[0]] && s[..1][..0] == [];
    assert DigitsValue(s[..1]) == v / 10;
    assert DigitsValue(s) == 10 * (v / 10) + v % 10;
  }

  /** Every HH:MM text is accepted and read back as the time it writes. */
  lemma HoursMinutesRoundTrip(h: int, m: int)
    requires 0 <= h <= 23 && 0 <= m <= 59
    ensures var tod := TwoDigits(h) + [':'] + TwoDigits(m);
            ValidTimeOfDay(tod) && ParseTimeOfDay(tod) == (h, m)
  {
    hide Atoi;
    hide TwoDigits;
    var a, b := TwoDigits(h), TwoDigits(m);
    var tod := a + [':'] + b;
    TwoDigitsValue(h);
    TwoDigitsValue(m);
    Text.IndexOfAt(a, ':', b);
    assert tod[..|a|] == a && tod[|a| + 1..] == b;
  }

  /** A schedule that passed validation runs as it was written: calendar cadences at the
      validated clock time, on their least following occurrence; intervals keep a pending
      run and otherwise wait one step, which is the wanted minutes exactly when int64
      nanoseconds hold them (292 years). */
  lemma ValidatedScheduleRuns(tm: Timing, nextRunAt: Instant, after: Instant, off: int)
    requires ValidTiming(tm)
    ensures var next := NextScheduleRun(tm, nextRunAt, after, off);
            && next > after
            && (IsCalendar(tm) ==>
                  LeastAfter(tm, off, after, next)
                  && var i := Text.IndexOf(tm.timeOfDay, ':');
                     LocalClock(next, off) == Atoi(tm.timeOfDay[..i]).0 * HOUR + Atoi(tm.timeOfDay[i + 1..]).0 * MINUTE)
            && (!IsCalendar(tm) ==>
                  if nextRunAt > after && nextRunAt != 0 then next == nextRunAt
                  else next == after + tm.intervalMinutes * MINUTE <==> tm.intervalMinutes <= 153_722_867)
  {
    hide NextDaily;
    hide NextWeekly;
    hide NextMonthly;
    hide Atoi;
    hide DateOf;
    NextScheduleRunLeast(tm, nextRunAt, after, off);
  }
}
