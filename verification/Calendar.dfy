/** Audit timestamps: civil dates from epoch seconds. */
module Calendar {

  // ── The source's arithmetic ─────────────────────────────────────────

  function YearOfEra(doe: int): int {
    (doe - doe / 1460 + doe / 36524 - doe / 146096) / 365
  }

  /** Days of an era before its year y; years run from March. */
  function DaysBefore(y: int): int {
    365 * y + y / 4 - y / 100
  }

  datatype Date = Date(year: int, month: int, day: int)

  function DateOf(era: int, yoe: int, doy: int): Date {
    var mp := (5 * doy + 2) / 153;
    var d := doy - (153 * mp + 2) / 5 + 1;
    var m := if mp < 10 then mp + 3 else mp - 9;
    var y := yoe + era * 400;
    Date(if m <= 2 then y + 1 else y, m, d)
  }

  /** `days_to_ymd` */
  function DaysToYmd(days: nat): Date {
    var eraDays := days + 719468;
    var era := eraDays / 146097;
    var doe := eraDays - era * 146097;
    DateInEra(era, doe, YearOfEra(doe))
  }

  function DateInEra(era: int, doe: int, yoe: int): Date {
    DateOf(era, yoe, doe - DaysBefore(yoe))
  }

  datatype DateTime = DateTime(date: Date, hours: int, minutes: int, seconds: int)

  /** The split in `now_iso8601`. */
  function TimeOf(totalSecs: nat): DateTime {
    var timeSecs := totalSecs % 86400;
    DateTime(DaysToYmd(totalSecs / 86400), timeSecs / 3600, (timeSecs % 3600) / 60, timeSecs % 60)
  }

  // ── The Gregorian calendar, day by day ──────────────────────────────

  predicate IsLeap(year: int) {
    year % 4 == 0 && (year % 100 != 0 || year % 400 == 0)
  }

  function DaysInMonth(year: int, month: int): int {
    if month == 2 then if IsLeap(year) then 29 else 28
    else if month == 4 || month == 6 || month == 9 || month == 11 then 30
    else 31
  }

  predicate ValidDate(d: Date) {
    1 <= d.month <= 12 && 1 <= d.day <= DaysInMonth(d.year, d.month)
  }

  function NextDay(d: Date): Date {
    if d.day < DaysInMonth(d.year, d.month) then d.(day := d.day + 1)
    else if d.month < 12 then Date(d.year, d.month + 1, 1)
    else Date(d.year + 1, 1, 1)
  }

  function DayAfter(n: nat): Date {
    if n == 0 then Date(1970, 1, 1) else NextDay(DayAfter(n - 1))
  }

  // ── Locating a day in its era ───────────────────────────────────────

  /** Whether the March-based year y of an era ends with a 29 February. */
  predicate LongYear(y: int) {
    (y + 1) % 4 == 0 && ((y + 1) % 100 != 0 || y + 1 == 400)
  }

  function LastDayOfYear(y: int): int {
    if LongYear(y) then 365 else 364
  }

  predicate InYear(y: int, doy: int) {
    0 <= y < 400 && 0 <= doy <= LastDayOfYear(y)
  }

  /** Centuries q, four-year cycles p and years s count out a year of the era. */
  lemma YearParts(y: int)
    requires 0 <= y < 400
    ensures var q, p, s := y / 100, y % 100 / 4, y % 4;
            && y == 100 * q + 4 * p + s && 0 <= q <= 3 && 0 <= p <= 24 && 0 <= s <= 3
            && DaysBefore(y) == 36524 * q + 1461 * p + 365 * s
            && (LongYear(y) <==> s == 3 && (p < 24 || q == 3))
  {
    var q, p, s := y / 100, y % 100 / 4, y % 4;
    assert y == 100 * q + 4 * p + s;
    assert y / 4 == 25 * q + p;
  }

  /** The quotients in the formula for the year of the era. */
  lemma YearFormula(q: int, p: int, s: int, t: int)
    requires 0 <= q <= 3 && 0 <= p <= 24 && 0 <= s <= 3 && 0 <= t <= 365
    requires t == 365 ==> s == 3 && (p < 24 || q == 3)
    ensures YearOfEra(36524 * q + 1461 * p + 365 * s + t) == 100 * q + 4 * p + s
  {
    var doe := 36524 * q + 1461 * p + 365 * s + t;
    var e := if 24 * q + p + 365 * s + t >= 1460 then 1 else 0;
    assert doe / 1460 == 25 * q + p + e;
    var last := if doe == 146096 then 1 else 0;
    assert doe / 36524 == q + last;
    assert doe / 146096 == last;
  }

  lemma YearOfEraIs(y: int, doy: int)
    requires InYear(y, doy)
    ensures YearOfEra(DaysBefore(y) + doy) == y
  {
    YearParts(y);
    YearFormula(y / 100, y % 100 / 4, y % 4, doy);
  }

  /** A day is found at (era, y, doy). */
  predicate Located(days: nat, era: int, y: int, doy: int) {
    InYear(y, doy) && days + 719468 == 146097 * era + DaysBefore(y) + doy
  }

  lemma DaysBeforeBound(y: int, doy: int)
    requires InYear(y, doy)
    ensures 0 <= DaysBefore(y) + doy < 146097
    ensures y < 399 ==> DaysBefore(y + 1) == DaysBefore(y) + LastDayOfYear(y) + 1
    ensures y == 399 ==> DaysBefore(y) + LastDayOfYear(y) + 1 == 146097
  {
    YearParts(y);
    if y < 399 { YearParts(y + 1); }
  }

  lemma LocatedDate(days: nat, era: int, y: int, doy: int)
    requires Located(days, era, y, doy)
    ensures DaysToYmd(days) == DateOf(era, y, doy)
  {
    DaysBeforeBound(y, doy);
    InEra(days, era, DaysBefore(y) + doy);
    InYearOfEra(era, y, doy);
  }

  lemma InEra(days: nat, era: int, doe: int)
    requires 0 <= doe < 146097 && days + 719468 == 146097 * era + doe
    ensures DaysToYmd(days) == DateInEra(era, doe, YearOfEra(doe))
  {
    EraOf(days + 719468, era, doe);
  }

  lemma InYearOfEra(era: int, y: int, doy: int)
    requires InYear(y, doy)
    ensures DateInEra(era, DaysBefore(y) + doy, YearOfEra(DaysBefore(y) + doy)) == DateOf(era, y, doy)
  {
    YearOfEraIs(y, doy);
  }

  lemma EraOf(eraDays: int, era: int, doe: int)
    requires 0 <= doe < 146097 && eraDays == 146097 * era + doe
    ensures eraDays / 146097 == era && eraDays - era * 146097 == doe && eraDays % 146097 == doe
  {
  }

  // ── Months ──────────────────────────────────────────────────────────

  /** Length of the mp-th month from March; the last one is as long as the year allows. */
  function MonthLength(mp: int): int {
    if mp == 1 || mp == 3 || mp == 6 || mp == 8 then 30 else 31
  }

  lemma MonthOf(doy: int)
    requires 0 <= doy <= 365
    ensures var mp := (5 * doy + 2) / 153;
            var d := doy - (153 * mp + 2) / 5 + 1;
            0 <= mp <= 11 && 1 <= d <= MonthLength(mp) && (mp == 11 ==> d == doy - 336)
  {
  }

  lemma MonthStep(doy: int)
    requires 0 <= doy < 365
    ensures var mp, mp' := (5 * doy + 2) / 153, (5 * (doy + 1) + 2) / 153;
            var d, d' := doy - (153 * mp + 2) / 5 + 1, doy + 1 - (153 * mp' + 2) / 5 + 1;
            if d < MonthLength(mp) then mp' == mp && d' == d + 1 else mp' == mp + 1 && d' == 1
  {
  }

  // ── One day further ─────────────────────────────────────────────────

  lemma LeapOfEra(era: int, y: int)
    requires 0 <= y < 400
    ensures IsLeap(y + 1 + era * 400) <==> LongYear(y)
  {
    YearsModulo(y + 1, era);
  }

  lemma YearsModulo(y: int, era: int)
    ensures (y + era * 400) % 400 == y % 400 && (y + era * 400) % 100 == y % 100 && (y + era * 400) % 4 == y % 4
  {
    Modulo400(y, era);
    Modulo100(y, 4 * era);
    Modulo4(y, 100 * era);
  }

  lemma Modulo400(y: int, k: int)
    ensures (y + k * 400) % 400 == y % 400
  {
  }

  lemma Modulo100(y: int, k: int)
    ensures (y + k * 100) % 100 == y % 100
  {
  }

  lemma Modulo4(y: int, k: int)
    ensures (y + k * 4) % 4 == y % 4
  {
  }

  /** Within a March-based year the date steps as the calendar does. */
  lemma DateSteps(era: int, y: int, doy: int)
    requires InYear(y, doy) && InYear(y, doy + 1)
    ensures ValidDate(DateOf(era, y, doy)) && NextDay(DateOf(era, y, doy)) == DateOf(era, y, doy + 1)
  {
    LeapOfEra(era, y);
    MonthOf(doy);
    MonthStep(doy);
    MonthOf(doy + 1);
  }

  /** After 28 or 29 February comes 1 March, of the next year of the era or of the next era. */
  lemma YearSteps(era: int, y: int)
    requires 0 <= y < 400
    ensures ValidDate(DateOf(era, y, LastDayOfYear(y)))
    ensures NextDay(DateOf(era, y, LastDayOfYear(y))) == Date(y + 1 + era * 400, 3, 1)
  {
    LeapOfEra(era, y);
    MonthOf(LastDayOfYear(y));
  }

  lemma ValidOf(era: int, y: int, doy: int)
    requires InYear(y, doy)
    ensures ValidDate(DateOf(era, y, doy))
  {
    if doy == LastDayOfYear(y) { YearSteps(era, y); } else { DateSteps(era, y, doy); }
  }

  lemma MarchFirst(era: int, y: int)
    ensures DateOf(era, y, 0) == Date(y + era * 400, 3, 1)
  {
  }

  /** From one day's place to the next one's. */
  lemma NextLocated(days: nat, era: int, y: int, doy: int) returns (era': int, y': int, doy': int)
    requires Located(days, era, y, doy)
    ensures Located(days + 1, era', y', doy') && DateOf(era', y', doy') == NextDay(DateOf(era, y, doy))
  {
    DaysBeforeBound(y, doy);
    if doy < LastDayOfYear(y) {
      DateSteps(era, y, doy);
      era', y', doy' := era, y, doy + 1;
    } else {
      YearSteps(era, y);
      era', y', doy' := if y == 399 then era + 1 else era, if y == 399 then 0 else y + 1, 0;
      MarchFirst(era', y');
    }
  }

  lemma EpochLocated()
    ensures Located(0, 4, 369, 306) && DateOf(4, 369, 306) == Date(1970, 1, 1)
  {
  }

  /** Every day is located, and its date is the one the calendar reaches. */
  lemma {:induction false} DayLocated(days: nat) returns (era: int, y: int, doy: int)
    ensures Located(days, era, y, doy) && DateOf(era, y, doy) == DayAfter(days)
  {
    if days == 0 {
      EpochLocated();
      era, y, doy := 4, 369, 306;
    } else {
      era, y, doy := DayLocated(days - 1);
      era, y, doy := NextLocated(days - 1, era, y, doy);
    }
  }

  /** `days_to_ymd` gives the Gregorian date reached from 1970-01-01 by that many single days. */
  lemma DaysToYmdIsCalendar(days: nat)
    ensures DaysToYmd(days) == DayAfter(days) && ValidDate(DayAfter(days))
  {
    var era, y, doy := DayLocated(days);
    LocatedDate(days, era, y, doy);
    ValidOf(era, y, doy);
  }

  /** None of its subtractions goes below zero: those for the day of the era, the year of the era
      (two, from left to right), the days before that year, the day of the year, the day of the
      month and the month. */
  lemma NoUnderflow(days: nat)
    ensures var eraDays := days + 719468;
            var era := eraDays / 146097;
            var doe := eraDays - era * 146097;
            var yoe := YearOfEra(doe);
            var doy := doe - DaysBefore(yoe);
            var mp := (5 * doy + 2) / 153;
            && era * 146097 <= eraDays
            && doe / 1460 <= doe && doe / 146096 <= doe - doe / 1460 + doe / 36524
            && 0 <= yoe < 400 && yoe / 100 <= 365 * yoe + yoe / 4
            && DaysBefore(yoe) <= doe <= DaysBefore(yoe) + 365
            && (153 * mp + 2) / 5 <= doy
            && mp <= 11 && (mp < 10 || 9 <= mp)
  {
    var era, y, doy := DayLocated(days);
    DaysBeforeBound(y, doy);
    var doe := DaysBefore(y) + doy;
    EraOf(days + 719468, era, doe);
    YearOfEraIs(y, doy);
    assert YearOfEra(doe) == y && DaysBefore(y) <= doe <= DaysBefore(y) + 365;
    MonthStarts(doy);
  }

  lemma MonthStarts(doy: int)
    requires 0 <= doy <= 365
    ensures var mp := (5 * doy + 2) / 153; (153 * mp + 2) / 5 <= doy && mp <= 11
  {
  }

  // ── Order ───────────────────────────────────────────────────────────

  predicate DateLt(a: Date, b: Date) {
    a.year < b.year || (a.year == b.year && (a.month < b.month || (a.month == b.month && a.day < b.day)))
  }

  predicate TimeLt(a: DateTime, b: DateTime) {
    DateLt(a.date, b.date) || (a.date == b.date && ClockLt(a, b))
  }

  predicate ClockLt(a: DateTime, b: DateTime) {
    || a.hours < b.hours
    || (a.hours == b.hours && (a.minutes < b.minutes || (a.minutes == b.minutes && a.seconds < b.seconds)))
  }

  lemma {:induction false} DatesIncrease(m: nat, n: nat)
    requires m < n
    ensures DateLt(DayAfter(m), DayAfter(n)) && !DateLt(DayAfter(n), DayAfter(m))
  {
    if m < n - 1 { DatesIncrease(m, n - 1); }
  }

  function Clock(date: Date, timeSecs: int): DateTime {
    DateTime(date, timeSecs / 3600, timeSecs % 3600 / 60, timeSecs % 60)
  }

  lemma TimeOfIs(totalSecs: nat)
    ensures TimeOf(totalSecs) == Clock(DayAfter(totalSecs / 86400), totalSecs % 86400)
  {
    DaysToYmdIsCalendar(totalSecs / 86400);
  }

  lemma ClockIncreases(date: Date, a: nat, b: nat)
    requires a < b
    ensures ClockLt(Clock(date, a), Clock(date, b)) && !ClockLt(Clock(date, b), Clock(date, a))
  {
    HourOrder(a, b);
    if a / 3600 == b / 3600 {
      MinuteOrder(a % 3600, b % 3600);
      SecondsOf(a);
      SecondsOf(b);
    }
  }

  lemma HourOrder(a: nat, b: nat)
    requires a < b
    ensures a / 3600 < b / 3600 || (a / 3600 == b / 3600 && a % 3600 < b % 3600)
  {
  }

  lemma MinuteOrder(a: nat, b: nat)
    requires a < b
    ensures a / 60 < b / 60 || (a / 60 == b / 60 && a % 60 < b % 60)
  {
  }

  lemma SecondsOf(a: nat)
    ensures a % 3600 % 60 == a % 60
  {
    assert a == 60 * (60 * (a / 3600) + a % 3600 / 60) + a % 3600 % 60;
  }

  lemma SplitOrder(a: nat, b: nat)
    requires a < b
    ensures a / 86400 < b / 86400 || (a / 86400 == b / 86400 && a % 86400 < b % 86400)
  {
  }

  /** Dates and times are ordered as their epoch seconds are. */
  lemma TimeOrdered(a: nat, b: nat)
    ensures TimeLt(TimeOf(a), TimeOf(b)) <==> a < b
  {
    if a < b { TimeIncreases(a, b); }
    if b < a { TimeIncreases(b, a); }
  }

  lemma TimeIncreases(a: nat, b: nat)
    requires a < b
    ensures TimeLt(TimeOf(a), TimeOf(b)) && !TimeLt(TimeOf(b), TimeOf(a)) && TimeOf(a) != TimeOf(b)
  {
    TimeOfIs(a);
    TimeOfIs(b);
    SplitOrder(a, b);
    if a / 86400 < b / 86400 {
      DatesIncrease(a / 86400, b / 86400);
    } else {
      ClockIncreases(DayAfter(a / 86400), a % 86400, b % 86400);
    }
  }
}
