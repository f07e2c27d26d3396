/** Civil dates from a second count (`iso_utc_now` in crates/vdsm-host/src/stats.rs), against the
    proleptic Gregorian calendar. */
module CivilDate {

  datatype Date = Date(year: int, month: int, day: int)

  // ---------------------------------------------------- the calendar, independently

  predicate IsLeap(y: int) {
    y % 4 == 0 && (y % 100 != 0 || y % 400 == 0)
  }

  function DaysInMonth(y: int, m: int): int {
    if m == 2 then (if IsLeap(y) then 29 else 28)
    else if m == 4 || m == 6 || m == 9 || m == 11 then 30
    else 31
  }

  predicate ValidDate(x: Date) {
    1 <= x.month <= 12 && 1 <= x.day <= DaysInMonth(x.year, x.month)
  }

  function NextDate(x: Date): Date {
    if x.day < DaysInMonth(x.year, x.month) then Date(x.year, x.month, x.day + 1)
    else if x.month < 12 then Date(x.year, x.month + 1, 1)
    else Date(x.year + 1, 1, 1)
  }

  predicate Before(a: Date, b: Date) {
    || a.year < b.year
    || (a.year == b.year && (a.month < b.month || (a.month == b.month && a.day < b.day)))
  }

  /** Days from the first day of year 1 to the first day of year `y` (negative before year 1). */
  function DaysBeforeYear(y: int): int {
    365 * (y - 1) + (y - 1) / 4 - (y - 1) / 100 + (y - 1) / 400
  }

  /** Days of year `y` before month `m`: the month lengths added up. */
  function DaysBeforeMonth(y: int, m: int): int
    requires 1 <= m <= 13
    decreases m
  {
    if m == 1 then 0 else DaysBeforeMonth(y, m - 1) + DaysInMonth(y, m - 1)
  }

  /** Days since 1970-01-01. */
  function DayNumber(x: Date): int
    requires 1 <= x.month <= 12
  {
    DaysBeforeYear(x.year) + DaysBeforeMonth(x.year, x.month) + (x.day - 1) - 719162
  }

  // ------------------------------------------------------------- the source's arithmetic

  /** Rust's `/` on signed integers: it truncates toward zero. */
  function TruncDiv(a: int, b: int): int
    requires b > 0
  {
    if a >= 0 then a / b else -((-a) / b)
  }

  function Era(z: int): int {
    TruncDiv(if z >= 0 then z else z - 146096, 146097)
  }

  function YearOfEra(doe: int): int {
    (doe - doe / 1460 + doe / 36524 - doe / 146096) / 365
  }

  function DayOfYear(doe: int, yoe: int): int {
    doe - (365 * yoe + yoe / 4 - yoe / 100)
  }

  /** Month and day of day `doy` of the year that starts on 1 March of year `y`. */
  function MarchDate(y: int, doy: int): Date {
    var mp := (5 * doy + 2) / 153;
    var d := doy - (153 * mp + 2) / 5 + 1;
    var m := if mp < 10 then mp + 3 else mp - 9;
    Date(y + (if m <= 2 then 1 else 0), m, d)
  }

  function EraDate(era: int, doe: int): Date {
    var yoe := YearOfEra(doe);
    MarchDate(yoe + era * 400, DayOfYear(doe, yoe))
  }

  function DayOfEra(z: int): int {
    z - Era(z) * 146097
  }

  /** `iso_utc_now`, from the day count to year, month and day. */
  function Civil(days: int): Date {
    var z := days + 719468;
    EraDate(Era(z), DayOfEra(z))
  }

  // --------------------------------------------------------------------- proofs

  lemma EraFloors(z: int)
    ensures 0 <= DayOfEra(z) < 146097 && z == 146097 * Era(z) + DayOfEra(z)
  {
  }

  /** The day of the era split along centuries, four-year groups and years. */
  datatype Split = Split(c: int, q: int, t: int, r: int)

  predicate Splits(doe: int, s: Split) {
    && 0 <= s.c <= 3 && 0 <= s.q <= 24 && 0 <= s.t <= 3 && 0 <= s.r <= 365
    && (s.r == 365 ==> s.t == 3 && (s.q < 24 || s.c == 3))
    && doe == 36524 * s.c + 1461 * s.q + 365 * s.t + s.r
  }

  lemma SplitExists(doe: int) returns (s: Split)
    requires 0 <= doe < 146097
    ensures Splits(doe, s)
  {
    var c := if doe >= 109572 then 3 else doe / 36524;
    var rem := doe - 36524 * c;
    var q := rem / 1461;
    var rem' := rem - 1461 * q;
    var t := if rem' >= 1095 then 3 else rem' / 365;
    s := Split(c, q, t, rem' - 365 * t);
  }

  lemma YearOfSplit(doe: int, s: Split)
    requires Splits(doe, s)
    ensures YearOfEra(doe) == 100 * s.c + 4 * s.q + s.t
    ensures DayOfYear(doe, YearOfEra(doe)) == s.r
    ensures doe >= doe / 1460 && doe - doe / 1460 + doe / 36524 >= doe / 146096
  {
    var last := if doe == 146096 then 1 else 0;
    assert doe / 146096 == last;
    assert doe / 36524 == s.c + last;
    var e := if 24 * s.c + s.q + 365 * s.t + s.r >= 1460 then 1 else 0;
    assert doe / 1460 == 25 * s.c + s.q + e;
    var y := 100 * s.c + 4 * s.q + s.t;
    assert doe - doe / 1460 + doe / 36524 - doe / 146096 == 365 * y + (s.r - e);
    assert y / 4 == 25 * s.c + s.q && y / 100 == s.c;
  }

  function LeapDay(y: int): int { if IsLeap(y) then 1 else 0 }

  lemma YearStep(y: int)
    ensures DaysBeforeYear(y + 1) == DaysBeforeYear(y) + 365 + LeapDay(y)
  {
    var x := y - 1;
    assert (x + 1) / 4 == x / 4 + if y % 4 == 0 then 1 else 0;
    assert (x + 1) / 100 == x / 100 + if y % 100 == 0 then 1 else 0;
    assert (x + 1) / 400 == x / 400 + if y % 400 == 0 then 1 else 0;
    assert y % 400 == 0 ==> y % 100 == 0;
    assert y % 100 == 0 ==> y % 4 == 0;
  }

  lemma MonthStarts(y: int)
    ensures DaysBeforeMonth(y, 1) == 0 && DaysBeforeMonth(y, 2) == 31
    ensures var l := LeapDay(y);
            && DaysBeforeMonth(y, 3) == 59 + l && DaysBeforeMonth(y, 4) == 90 + l
            && DaysBeforeMonth(y, 5) == 120 + l && DaysBeforeMonth(y, 6) == 151 + l
            && DaysBeforeMonth(y, 7) == 181 + l && DaysBeforeMonth(y, 8) == 212 + l
            && DaysBeforeMonth(y, 9) == 243 + l && DaysBeforeMonth(y, 10) == 273 + l
            && DaysBeforeMonth(y, 11) == 304 + l && DaysBeforeMonth(y, 12) == 334 + l
            && DaysBeforeMonth(y, 13) == 365 + l
  {
    assert DaysBeforeMonth(y, 4) == 90 + LeapDay(y);
    assert DaysBeforeMonth(y, 7) == 181 + LeapDay(y);
    assert DaysBeforeMonth(y, 10) == 273 + LeapDay(y);
  }

  /** Days from 1 March to the first day of each month after it. */
  function MarchStart(mp: int): int {
    match mp
    case 0 => 0 case 1 => 31 case 2 => 61 case 3 => 92 case 4 => 122 case 5 => 153
    case 6 => 184 case 7 => 214 case 8 => 245 case 9 => 275 case 10 => 306 case 11 => 337
    case _ => 366
  }

  lemma MarchMonth(doy: int)
    requires 0 <= doy <= 365
    ensures var mp := (5 * doy + 2) / 153;
            0 <= mp <= 11 && (153 * mp + 2) / 5 == MarchStart(mp) && MarchStart(mp) <= doy < MarchStart(mp + 1)
  {
  }

  /** The months in the order of the source, against the calendar. */
  lemma MarchMonths(y: int, mp: int)
    requires 0 <= mp <= 11
    ensures mp < 10 ==>
              && DaysBeforeMonth(y, mp + 3) == 59 + LeapDay(y) + MarchStart(mp)
              && DaysInMonth(y, mp + 3) == MarchStart(mp + 1) - MarchStart(mp)
    ensures mp >= 10 ==> DaysBeforeMonth(y, mp - 9) == MarchStart(mp) - 306
    ensures DaysInMonth(y, 1) == 31 && DaysInMonth(y, 2) == 28 + LeapDay(y)
  {
    MonthStarts(y);
  }

  lemma MarchDateCounts(y: int, doy: int)
    requires 0 <= doy <= 365 && (doy == 365 ==> IsLeap(y + 1))
    ensures ValidDate(MarchDate(y, doy))
    ensures DayNumber(MarchDate(y, doy)) == DaysBeforeYear(y + 1) - 306 + doy - 719162
  {
    var mp := (5 * doy + 2) / 153;
    MarchMonth(doy);
    if mp < 10 {
      MarchMonths(y, mp);
      YearStep(y);
    } else {
      MarchMonths(y + 1, mp);
    }
  }

  lemma LastDayIsLeap(era: int, s: Split)
    requires Splits(36524 * s.c + 1461 * s.q + 365 * s.t + s.r, s) && s.r == 365
    ensures IsLeap(400 * era + 100 * s.c + 4 * s.q + s.t + 1)
  {
    var y := 400 * era + 100 * s.c + 4 * s.q + s.t + 1;
    Remainders(100 * era + 25 * s.c + s.q + 1, 4 * era + s.c, 4 * s.q + 4, era + 1);
    assert y == 4 * (100 * era + 25 * s.c + s.q + 1);
    assert s.q < 24 ==> y == 100 * (4 * era + s.c) + (4 * s.q + 4);
    assert s.q == 24 ==> y == 400 * (era + 1);
  }

  lemma Remainders(k: int, c: int, r: int, e: int)
    ensures (4 * k) % 4 == 0
    ensures 0 <= r < 100 ==> (100 * c + r) % 100 == r
    ensures (400 * e) % 400 == 0
  {
  }

  lemma EraDateCounts(era: int, doe: int, days: int)
    requires 0 <= doe < 146097 && days == 146097 * era + doe - 719468
    ensures ValidDate(EraDate(era, doe)) && DayNumber(EraDate(era, doe)) == days
  {
    var s := SplitExists(doe);
    YearOfSplit(doe, s);
    SplitDateCounts(era, s, 100 * s.c + 4 * s.q + s.t + era * 400, days);
  }

  lemma SplitDateCounts(era: int, s: Split, y: int, days: int)
    requires Splits(36524 * s.c + 1461 * s.q + 365 * s.t + s.r, s)
    requires y == 100 * s.c + 4 * s.q + s.t + era * 400
    requires days == 146097 * era + (36524 * s.c + 1461 * s.q + 365 * s.t + s.r) - 719468
    ensures ValidDate(MarchDate(y, s.r)) && DayNumber(MarchDate(y, s.r)) == days
  {
    if s.r == 365 {
      LastDayIsLeap(era, s);
    }
    SplitYears(era, s, y);
    MarchDateCounts(y, s.r);
  }

  lemma SplitYears(era: int, s: Split, y: int)
    requires 0 <= s.c <= 3 && 0 <= s.q <= 24 && 0 <= s.t <= 3
    requires y == 100 * s.c + 4 * s.q + s.t + era * 400
    ensures DaysBeforeYear(y + 1) == 146097 * era + 36524 * s.c + 1461 * s.q + 365 * s.t
  {
    assert y / 4 == 100 * era + 25 * s.c + s.q;
    assert y / 100 == 4 * era + s.c;
    assert y / 400 == era;
  }

  /** For every day count the computed date is a calendar date, and counting the days up to it
      gives the day count back. */
  lemma CivilCounts(days: int)
    ensures ValidDate(Civil(days)) && DayNumber(Civil(days)) == days
  {
    var z := days + 719468;
    EraFloors(z);
    EraDateCounts(Era(z), DayOfEra(z), days);
  }

  /** The unsigned intermediates of the source never go below zero and the day of the era stays in
      range, so no `u64` subtraction wraps and no cast loses anything. */
  lemma NoUnderflow(days: int)
    ensures var z := days + 719468;
            var doe := DayOfEra(z);
            var yoe := YearOfEra(doe);
            var doy := DayOfYear(doe, yoe);
            var mp := (5 * doy + 2) / 153;
            && 0 <= doe < 146097 && doe / 1460 <= doe && doe / 146096 <= doe - doe / 1460 + doe / 36524
            && 0 <= yoe < 400 && yoe / 100 <= 365 * yoe + yoe / 4
            && 0 <= doy <= 365 && 0 <= mp <= 11 && (153 * mp + 2) / 5 <= doy
  {
    var z := days + 719468;
    EraFloors(z);
    var s := SplitExists(DayOfEra(z));
    YearOfSplit(DayOfEra(z), s);
  }

  lemma {:induction false} YearsGrow(a: int, b: int)
    requires a < b
    ensures DaysBeforeYear(a) + 365 + LeapDay(a) <= DaysBeforeYear(b)
    decreases b - a
  {
    YearStep(b - 1);
    if a < b - 1 {
      YearsGrow(a, b - 1);
    } else {
      YearStep(a);
    }
  }

  lemma {:induction false} MonthsGrow(y: int, a: int, b: int)
    requires 1 <= a < b <= 13
    ensures DaysBeforeMonth(y, a) + DaysInMonth(y, a) <= DaysBeforeMonth(y, b)
    decreases b - a
  {
    if a < b - 1 {
      MonthsGrow(y, a, b - 1);
    }
  }

  /** Later dates have larger day numbers. */
  lemma DayNumberGrows(a: Date, b: Date)
    requires ValidDate(a) && ValidDate(b) && Before(a, b)
    ensures DayNumber(a) < DayNumber(b)
  {
    if a.year < b.year {
      YearsGrow(a.year, b.year);
      MonthsGrow(a.year, a.month, 13);
      MonthStarts(a.year);
      if b.month > 1 {
        MonthsGrow(b.year, 1, b.month);
      }
    } else if a.month < b.month {
      MonthsGrow(a.year, a.month, b.month);
    }
  }

  lemma DayNumberInjective(a: Date, b: Date)
    requires ValidDate(a) && ValidDate(b) && DayNumber(a) == DayNumber(b)
    ensures a == b
  {
    if Before(a, b) {
      DayNumberGrows(a, b);
    } else if Before(b, a) {
      DayNumberGrows(b, a);
    }
  }

  /** The conversion is exact in the other direction too: every calendar date is the date of its
      day number. */
  lemma CivilInverts(x: Date)
    requires ValidDate(x)
    ensures Civil(DayNumber(x)) == x
  {
    CivilCounts(DayNumber(x));
    DayNumberInjective(Civil(DayNumber(x)), x);
  }

  lemma NextDateCounts(x: Date)
    requires ValidDate(x)
    ensures ValidDate(NextDate(x)) && DayNumber(NextDate(x)) == DayNumber(x) + 1
  {
    if x.day == DaysInMonth(x.year, x.month) && x.month == 12 {
      YearStep(x.year);
      MonthStarts(x.year);
    }
  }

  /** Anchored at the epoch, one more day is always the next calendar date: this alone fixes the
      conversion for every day count. */
  lemma CivilSteps(days: int)
    ensures Civil(0) == Date(1970, 1, 1)
    ensures Civil(days + 1) == NextDate(Civil(days))
  {
    CivilEpoch();
    CivilNext(days, Civil(days), Civil(days + 1));
  }

  lemma CivilEpoch()
    ensures Civil(0) == Date(1970, 1, 1)
  {
    assert Era(719468) == 4;
    assert YearOfEra(135080) == 369 && DayOfYear(135080, 369) == 306;
  }

  lemma CivilNext(days: int, a: Date, b: Date)
    requires a == Civil(days) && b == Civil(days + 1)
    ensures b == NextDate(a)
  {
    CivilCounts(days);
    CivilCounts(days + 1);
    NextDateCounts(a);
    DayNumberInjective(b, NextDate(a));
  }

  ghost predicate FollowsCalendar(f: int -> Date) {
    && f(0) == Date(1970, 1, 1)
    && forall n :: ValidDate(f(n)) && f(n + 1) == NextDate(f(n))
  }

  lemma CalendarStep(f: int -> Date, n: int)
    requires FollowsCalendar(f)
    ensures DayNumber(f(n + 1)) == DayNumber(f(n)) + 1
  {
    NextDateCounts(f(n));
  }

  lemma CalendarStart()
    ensures DayNumber(Date(1970, 1, 1)) == 0
  {
    MonthStarts(1970);
  }

  lemma {:induction false} CalendarCounts(f: int -> Date, days: int)
    requires FollowsCalendar(f)
    ensures DayNumber(f(days)) == days
    decreases if days >= 0 then days else -days
  {
    if days > 0 {
      CalendarCounts(f, days - 1);
      CalendarStep(f, days - 1);
    } else if days < 0 {
      CalendarCounts(f, days + 1);
      CalendarStep(f, days);
    } else {
      CalendarStart();
    }
  }

  /** `CivilSteps` indeed leaves no choice: any dating of the integers that starts at the epoch and
      follows the calendar is `Civil`. */
  lemma CivilUnique(f: int -> Date, days: int)
    requires FollowsCalendar(f)
    ensures f(days) == Civil(days)
  {
    CalendarCounts(f, days);
    CivilCounts(days);
    DayNumberInjective(f(days), Civil(days));
  }
}
