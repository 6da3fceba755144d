/**
 * Dates from day numbers: `iso8601_utc` in crates/c0mpute-core/src/status_aggregator.rs and
 * `rfc3339_now` in crates/c0mpute-bench/src/lib.rs, two copies of one algorithm.
 * `/` and `%` here are the Euclidean ones; where the source truncates, the operands are not negative.
 */
module CivilDate {
  import opened Arithmetic

  datatype Date = Date(y: int, m: int, d: int)

  // ---- the calendar ----------------------------------------------------

  /** Leap years, as in Appendix C of RFC 3339. */
  predicate IsLeap(y: int) {
    y % 4 == 0 && (y % 100 != 0 || y % 400 == 0)
  }

  /** The last day of a month, as in section 5.7 of RFC 3339. */
  function MonthDays(y: int, m: int): int
    requires 1 <= m <= 12
  {
    if m == 2 then (if IsLeap(y) then 29 else 28)
    else if m == 4 || m == 6 || m == 9 || m == 11 then 30
    else 31
  }

  predicate ValidDate(date: Date) {
    1 <= date.m <= 12 && 1 <= date.d <= MonthDays(date.y, date.m)
  }

  /** The day after a date. */
  function NextDay(date: Date): Date
    requires ValidDate(date)
  {
    if date.d < MonthDays(date.y, date.m) then date.(d := date.d + 1)
    else if date.m < 12 then Date(date.y, date.m + 1, 1)
    else Date(date.y + 1, 1, 1)
  }

  // ---- the algorithm ---------------------------------------------------

  /** Days of an era with its leap days taken out, near enough that 365 divides it into years. */
  function Flattened(doe: int): int {
    doe - doe / 1460 + doe / 36524 - doe / 146096
  }

  /** The year of a 400-year era, counted from March, that day `doe` of the era falls in. */
  function YearOfEra(doe: int): int {
    Flattened(doe) / 365
  }

  function DayOfYear(doe: int, yoe: int): int {
    doe - (365 * yoe + yoe / 4 - yoe / 100)
  }

  /** Month and day of a year that starts in March. */
  function MonthIndex(doy: int): int {
    (5 * doy + 2) / 153
  }

  function DayOfMonth(doy: int): int {
    doy - (153 * MonthIndex(doy) + 2) / 5 + 1
  }

  /** The date of day `doe` of an era. */
  function DateInEra(era: int, doe: int): Date {
    var yoe := YearOfEra(doe);
    var doy := DayOfYear(doe, yoe);
    var mp := MonthIndex(doy);
    var m := if mp < 10 then mp + 3 else mp - 9;
    var y := yoe + era * 400;
    Date(if m <= 2 then y + 1 else y, m, DayOfMonth(doy))
  }

  /** The calendar date of a day number; day 0 is the first of January 1970. */
  function CivilFromDays(days: int): Date {
    DateInEra((days + 719468) / 146097, (days + 719468) % 146097)
  }

  // ---- years -----------------------------------------------------------

  /** The day of the era on which its `yoe`-th year starts, 1 March; year 400 starts the next era. */
  function YearStart(yoe: int): int {
    365 * yoe + yoe / 4 - yoe / 100 + yoe / 400
  }

  lemma FlattenedStep(x: int)
    requires 0 <= x < 146096
    ensures Flattened(x) <= Flattened(x + 1)
  {
  }

  lemma {:induction false} FlattenedMonotone(x: int, y: int)
    requires 0 <= x <= y <= 146096
    ensures Flattened(x) <= Flattened(y)
    decreases y
  {
    if x < y {
      FlattenedMonotone(x, y - 1);
      FlattenedStep(y - 1);
    }
  }

  /** Year `4 q + t` of century `c` of the era: where it starts, and what is left of that day when flattened. */
  lemma FlattenedAtYearStart(c: int, q: int, t: int)
    requires 0 <= c <= 3 && 0 <= q <= 24 && 0 <= t <= 3
    ensures var y, x := 100 * c + 4 * q + t, 36524 * c + 1461 * q + 365 * t;
            YearStart(y) == x && Flattened(x) == 365 * y
  {
    var y, x := 100 * c + 4 * q + t, 36524 * c + 1461 * q + 365 * t;
    DivIs(y, 4, 25 * c + q);
    DivIs(y, 100, c);
    DivIs(y, 400, 0);
    DivIs(x, 1460, 25 * c + q);
    DivIs(x, 36524, c);
    DivIs(x, 146096, 0);
  }

  /** `a`, `b` and `l` are the quotients of the era's day `x` by 1460, 36524 and 146096. */
  lemma FlattenedIs(x: int, a: int, b: int, l: int)
    requires 1460 * a <= x < 1460 * a + 1460
    requires 36524 * b <= x < 36524 * b + 36524
    requires 146096 * l <= x < 146096 * l + 146096
    ensures Flattened(x) == x - a + b - l
  {
    DivIs(x, 1460, a);
    DivIs(x, 36524, b);
    DivIs(x, 146096, l);
  }

  /** The last day of year `y` still flattens to a day of that year. */
  predicate EndsInTime(y: int) {
    YearStart(y) < YearStart(y + 1) && Flattened(YearStart(y + 1) - 1) < 365 * (y + 1)
  }

  /** A year that starts on day `start` of the era and whose last day has these quotients. */
  lemma YearEnd(y: int, start: int, next: int, a: int, b: int)
    requires YearStart(y) == start < next == YearStart(y + 1)
    requires 1460 * a <= next - 1 < 1460 * a + 1460
    requires 36524 * b <= next - 1 < 36524 * b + 36524
    requires 0 < next <= 146096 && next - 1 - a + b < 365 * (y + 1)
    ensures EndsInTime(y)
  {
    FlattenedIs(next - 1, a, b, 0);
  }

  lemma OrdinaryYearEnd(c: int, q: int, t: int)
    requires 0 <= c <= 3 && 0 <= q <= 24 && 0 <= t <= 2
    ensures EndsInTime(100 * c + 4 * q + t)
  {
    var y, start := 100 * c + 4 * q + t, 36524 * c + 1461 * q + 365 * t;
    FlattenedAtYearStart(c, q, t);
    FlattenedAtYearStart(c, q, t + 1);
    YearEnd(y, start, start + 365, 25 * c + q, c);
  }

  lemma FourthYearEnd(c: int, q: int)
    requires 0 <= c <= 3 && 0 <= q <= 23
    ensures EndsInTime(100 * c + 4 * q + 3)
  {
    var y, start := 100 * c + 4 * q + 3, 36524 * c + 1461 * q + 1095;
    FlattenedAtYearStart(c, q, 3);
    FlattenedAtYearStart(c, q + 1, 0);
    YearEnd(y, start, start + 366, 25 * c + q + 1, c);
  }

  lemma CenturyEnd(c: int)
    requires 0 <= c <= 2
    ensures EndsInTime(100 * c + 99)
  {
    var y, start := 100 * c + 99, 36524 * c + 36159;
    FlattenedAtYearStart(c, 24, 3);
    FlattenedAtYearStart(c + 1, 0, 0);
    YearEnd(y, start, start + 365, 25 * c + 25, c);
  }

  lemma FlattenedAtYearEnd(c: int, q: int, t: int)
    requires 0 <= c <= 3 && 0 <= q <= 24 && 0 <= t <= 3
    ensures EndsInTime(100 * c + 4 * q + t)
  {
    if t < 3 {
      OrdinaryYearEnd(c, q, t);
    } else if q < 24 {
      FourthYearEnd(c, q);
    } else if c < 3 {
      CenturyEnd(c);
    } else {
      LastYearOfEra();
    }
  }

  lemma LastYearOfEra()
    ensures YearStart(400) == 146097 && EndsInTime(399)
  {
  }

  /** Century, leap-year group and rest of a year of the era. */
  lemma Parts(y: int) returns (c: int, q: int, t: int)
    requires 0 <= y < 400
    ensures 0 <= c <= 3 && 0 <= q <= 24 && 0 <= t <= 3 && y == 100 * c + 4 * q + t
  {
    c, q, t := y / 100, y % 100 / 4, y % 100 % 4;
  }

  lemma StartsInEra(y: int)
    requires 0 <= y <= 400
    ensures 0 <= YearStart(y) <= 146097
  {
  }

  lemma YearFlattens(y: int)
    requires 0 <= y < 400
    ensures Flattened(YearStart(y)) == 365 * y
  {
    var c, q, t := Parts(y);
    FlattenedAtYearStart(c, q, t);
  }

  lemma YearEndsInTime(y: int)
    requires 0 <= y < 400
    ensures EndsInTime(y)
  {
    var c, q, t := Parts(y);
    FlattenedAtYearEnd(c, q, t);
  }

  lemma YearEdges(y: int) returns (first: int, last: int)
    requires 0 <= y < 400
    ensures first == YearStart(y) && last == YearStart(y + 1) - 1 && 0 <= first <= last <= 146096
    ensures Flattened(first) == 365 * y && Flattened(last) < 365 * y + 365
  {
    first, last := YearStart(y), YearStart(y + 1) - 1;
    YearFlattens(y);
    YearEndsInTime(y);
    StartsInEra(y);
    StartsInEra(y + 1);
  }

  lemma FlattenedInYear(doe: int, y: int, first: int, last: int)
    requires 0 <= first <= doe <= last <= 146096 && Flattened(first) == 365 * y && Flattened(last) < 365 * y + 365
    ensures Flattened(doe) / 365 == y
  {
    FlattenedMonotone(first, doe);
    FlattenedMonotone(doe, last);
    DivIs(Flattened(doe), 365, y);
  }

  /** The years of an era are laid end to end, and `YearOfEra` finds the one a day falls in. */
  lemma YearOfEraExact(doe: int, y: int)
    requires 0 <= y < 400 && YearStart(y) <= doe < YearStart(y + 1)
    requires 0 <= doe < 146097
    ensures YearOfEra(doe) == y
  {
    var first, last := YearEdges(y);
    FlattenedInYear(doe, y, first, last);
  }

  lemma YearContaining(doe: int, from: int) returns (y: int)
    requires 0 <= from < 400 && YearStart(from) <= doe < 146097
    ensures 0 <= y < 400 && YearStart(y) <= doe < YearStart(y + 1)
    decreases 400 - from
  {
    if doe < YearStart(from + 1) {
      y := from;
    } else {
      y := YearContaining(doe, from + 1);
    }
  }

  /** `YearOfEra` splits the days of an era into its 400 years, in order and without gaps. */
  lemma YearOfEraSplits(doe: int)
    requires 0 <= doe < 146097
    ensures 0 <= YearOfEra(doe) < 400
    ensures YearStart(YearOfEra(doe)) <= doe < YearStart(YearOfEra(doe) + 1)
  {
    var y := YearContaining(doe, 0);
    YearOfEraExact(doe, y);
  }

  // ---- days of a year --------------------------------------------------

  /** The length of year `y` counted from March: its February falls in the next calendar year. */
  function YearLength(y: int): int {
    if IsLeap(y + 1) then 366 else 365
  }

  /** Which years of an era are followed by a 29 February. */
  lemma LeapAfter(c: int, q: int, t: int)
    requires 0 <= c <= 3 && 0 <= q <= 24 && 0 <= t <= 3
    ensures IsLeap(100 * c + 4 * q + t + 1) <==> t == 3 && (q < 24 || c == 3)
  {
    var y := 100 * c + 4 * q + t + 1;
    if t < 3 {
      ModUnique(y, 25 * c + q, t + 1, 4);
    } else if q < 24 {
      ModUnique(y, 25 * c + q + 1, 0, 4);
      ModUnique(y, c, 4 * q + 4, 100);
    } else {
      ModUnique(y, 25 * c + 25, 0, 4);
      ModUnique(y, c + 1, 0, 100);
      ModUnique(y, if c == 3 then 1 else 0, if c == 3 then 0 else 100 * c + 100, 400);
    }
  }

  lemma YearStartStepParts(c: int, q: int, t: int)
    requires 0 <= c <= 3 && 0 <= q <= 24 && 0 <= t <= 3
    ensures var y := 100 * c + 4 * q + t; YearStart(y + 1) == YearStart(y) + YearLength(y)
  {
    LeapAfter(c, q, t);
    FlattenedAtYearStart(c, q, t);
    if t < 3 {
      FlattenedAtYearStart(c, q, t + 1);
    } else if q < 24 {
      FlattenedAtYearStart(c, q + 1, 0);
    } else if c < 3 {
      FlattenedAtYearStart(c + 1, 0, 0);
    } else {
      LastYearOfEra();
    }
  }

  lemma YearStartStep(y: int)
    requires 0 <= y < 400
    ensures YearStart(y + 1) == YearStart(y) + YearLength(y)
  {
    var c, q, t := Parts(y);
    YearStartStepParts(c, q, t);
  }

  lemma LeapRepeats(y: int, era: int)
    ensures IsLeap(y + 400 * era) == IsLeap(y)
  {
    ModUnique(y + 400 * era, y / 4 + 100 * era, y % 4, 4);
    ModUnique(y + 400 * era, y / 100 + 4 * era, y % 100, 100);
    ModUnique(y + 400 * era, y / 400 + era, y % 400, 400);
  }

  /** Day `doy` of year `y` of an era, as a date. */
  function Civil(era: int, y: int, doy: int): Date {
    var mp := MonthIndex(doy);
    var m := if mp < 10 then mp + 3 else mp - 9;
    Date(y + era * 400 + (if m <= 2 then 1 else 0), m, DayOfMonth(doy))
  }

  /** The day a month of a March year starts on. */
  function MonthStart(mp: int): int {
    (153 * mp + 2) / 5
  }

  lemma MonthOf(doy: int)
    requires 0 <= doy <= 365
    ensures 0 <= MonthIndex(doy) <= 11
    ensures MonthStart(MonthIndex(doy)) <= doy < MonthStart(MonthIndex(doy) + 1)
  {
  }

  /** March to January have the lengths the month formula spaces them by; February has what is left. */
  lemma MonthLengths(y: int, mp: int)
    requires 0 <= mp <= 11
    ensures var m := if mp < 10 then mp + 3 else mp - 9;
            && (mp < 11 ==> MonthStart(mp + 1) - MonthStart(mp) == MonthDays(y, m))
            && (mp == 11 ==> MonthStart(mp) == 337)
  {
  }

  lemma CivilIsValid(era: int, y: int, doy: int)
    requires 0 <= doy < YearLength(y)
    ensures ValidDate(Civil(era, y, doy))
  {
    MonthOf(doy);
    MonthLengths(y + era * 400 + 1, MonthIndex(doy));
    LeapRepeats(y + 1, era);
  }

  lemma CivilNextInYear(era: int, y: int, doy: int)
    requires 0 <= doy && doy + 1 < YearLength(y)
    ensures ValidDate(Civil(era, y, doy)) && Civil(era, y, doy + 1) == NextDay(Civil(era, y, doy))
  {
    CivilIsValid(era, y, doy);
    MonthOf(doy);
    MonthOf(doy + 1);
    var mp := MonthIndex(doy);
    MonthLengths(y + era * 400 + 1, mp);
    MonthLengths(y + era * 400, mp);
    LeapRepeats(y + 1, era);
    MonthSteps(doy);
  }

  lemma MonthSteps(doy: int)
    requires 0 <= doy < 365
    ensures var mp, next := MonthIndex(doy), MonthIndex(doy + 1);
            if doy + 1 < MonthStart(mp + 1) then next == mp else next == mp + 1 && doy + 1 == MonthStart(mp + 1)
  {
  }

  lemma CivilNextYear(era: int, y: int)
    ensures var last := Civil(era, y, YearLength(y) - 1);
            ValidDate(last) && NextDay(last) == Date(y + era * 400 + 1, 3, 1)
  {
    CivilIsValid(era, y, YearLength(y) - 1);
    LeapRepeats(y + 1, era);
    assert MonthIndex(364) == 11 && MonthIndex(365) == 11;
  }

  // ---- days since the epoch --------------------------------------------

  lemma DayOfYearIs(doe: int, y: int)
    requires 0 <= y < 400
    ensures DayOfYear(doe, y) == doe - YearStart(y)
  {
    DivIs(y, 400, 0);
  }

  /** The algorithm in terms of era, year and day of year. */
  lemma CivilOfParts(days: int, era: int, doe: int, y: int)
    requires days + 719468 == 146097 * era + doe && 0 <= doe < 146097
    requires y == YearOfEra(doe) && 0 <= y < 400
    ensures CivilFromDays(days) == Civil(era, y, doe - YearStart(y))
  {
    ModUnique(days + 719468, era, doe, 146097);
    DayOfYearIs(doe, y);
    assert DateInEra(era, doe) == Civil(era, y, DayOfYear(doe, y));
  }

  lemma EraOf(days: int) returns (era: int, doe: int)
    ensures days + 719468 == 146097 * era + doe && 0 <= doe < 146097
  {
    era, doe := (days + 719468) / 146097, (days + 719468) % 146097;
    DivMod(days + 719468, 146097);
  }

  lemma PartsOfEra(doe: int) returns (y: int, doy: int)
    requires 0 <= doe < 146097
    ensures y == YearOfEra(doe) && 0 <= y < 400 && doy == doe - YearStart(y) && 0 <= doy < YearLength(y)
  {
    YearOfEraSplits(doe);
    y := YearOfEra(doe);
    YearStartStep(y);
    doy := doe - YearStart(y);
  }

  lemma CivilFromDaysParts(days: int) returns (era: int, y: int, doy: int)
    ensures 0 <= y < 400 && 0 <= doy < YearLength(y)
    ensures days + 719468 == 146097 * era + YearStart(y) + doy
    ensures CivilFromDays(days) == Civil(era, y, doy)
  {
    var doe;
    era, doe := EraOf(days);
    y, doy := PartsOfEra(doe);
    CivilOfParts(days, era, doe, y);
  }

  lemma DayInYear(y: int, doy: int) returns (doe: int)
    requires 0 <= y < 400 && 0 <= doy < YearLength(y)
    ensures doe == YearStart(y) + doy && 0 <= doe < 146097 && YearOfEra(doe) == y
  {
    doe := YearStart(y) + doy;
    YearStartStep(y);
    StartsInEra(y);
    StartsInEra(y + 1);
    YearOfEraExact(doe, y);
  }

  /** A day number determines era, year and day of year. */
  lemma CivilFromDaysIs(days: int, era: int, y: int, doy: int)
    requires 0 <= y < 400 && 0 <= doy < YearLength(y)
    requires days + 719468 == 146097 * era + YearStart(y) + doy
    ensures CivilFromDays(days) == Civil(era, y, doy)
  {
    var doe := DayInYear(y, doy);
    CivilOfParts(days, era, doe, y);
  }

  /** The day after the last day of year `y` is the first of the next year, which may start the next era. */
  lemma NextYearParts(era: int, y: int) returns (era': int, y': int)
    requires 0 <= y < 400
    ensures 0 <= y' < 400 && 146097 * era' + YearStart(y') == 146097 * era + YearStart(y + 1)
    ensures Civil(era', y', 0) == Date(y + era * 400 + 1, 3, 1)
  {
    if y < 399 {
      era', y' := era, y + 1;
    } else {
      LastYearOfEra();
      era', y' := era + 1, 0;
    }
    FirstOfMarch(era', y');
  }

  /** The parts of the day after day `doy` of year `y`, and that they make the next date. */
  lemma NextParts(era: int, y: int, doy: int) returns (era': int, y': int, doy': int)
    requires 0 <= y < 400 && 0 <= doy < YearLength(y)
    ensures 0 <= y' < 400 && 0 <= doy' < YearLength(y')
    ensures 146097 * era' + YearStart(y') + doy' == 146097 * era + YearStart(y) + doy + 1
    ensures ValidDate(Civil(era, y, doy)) && Civil(era', y', doy') == NextDay(Civil(era, y, doy))
  {
    if doy + 1 < YearLength(y) {
      CivilNextInYear(era, y, doy);
      era', y', doy' := era, y, doy + 1;
    } else {
      YearStartStep(y);
      CivilNextYear(era, y);
      era', y' := NextYearParts(era, y);
      doy' := 0;
    }
  }

  lemma FirstOfMarch(era: int, y: int)
    ensures Civil(era, y, 0) == Date(y + era * 400, 3, 1)
  {
  }

  lemma DayZero()
    ensures CivilFromDays(0) == Date(1970, 1, 1)
  {
    assert YearStart(369) == 134774 && YearLength(369) == 365;
    CivilFromDaysIs(0, 4, 369, 306);
    assert MonthIndex(306) == 10;
  }

  lemma DateIsValid(days: int)
    ensures ValidDate(CivilFromDays(days))
  {
    var era, y, doy := CivilFromDaysParts(days);
    CivilIsValid(era, y, doy);
  }

  /**
   * Every day number gives a valid date, day 0 is 1970-01-01, and the next day number gives the
   * next day of the calendar.
   */
  lemma DatesFollowTheCalendar(days: int)
    ensures ValidDate(CivilFromDays(days))
    ensures CivilFromDays(0) == Date(1970, 1, 1)
    ensures CivilFromDays(days + 1) == NextDay(CivilFromDays(days))
  {
    DayZero();
    var era, y, doy := CivilFromDaysParts(days);
    var era', y', doy' := NextParts(era, y, doy);
    CivilFromDaysIs(days + 1, era', y', doy');
  }

  predicate Earlier(a: Date, b: Date) {
    a.y < b.y || (a.y == b.y && (a.m < b.m || (a.m == b.m && a.d < b.d)))
  }

  lemma NextDayIsLater(a: Date, b: Date, c: Date)
    requires ValidDate(b) && c == NextDay(b) && (a == b || Earlier(a, b))
    ensures Earlier(a, c) && a != c
  {
  }

  /** What one day number has to do with the next. */
  predicate Steps(date: int -> Date, day: int) {
    ValidDate(date(day)) && date(day + 1) == NextDay(date(day))
  }

  lemma {:induction false} StepsIncrease(date: int -> Date, i: int, j: int)
    requires i < j && forall day: int :: Steps(date, day)
    ensures Earlier(date(i), date(j)) && date(i) != date(j)
    decreases j - i
  {
    assert Steps(date, j - 1);
    if i < j - 1 { StepsIncrease(date, i, j - 1); }
    NextDayIsLater(date(i), date(j - 1), date(j));
  }

  /** Dates grow strictly with the day number, so no two day numbers share a date. */
  lemma DatesIncrease(i: int, j: int)
    requires i < j
    ensures Earlier(CivilFromDays(i), CivilFromDays(j)) && CivilFromDays(i) != CivilFromDays(j)
  {
    forall day: int
      ensures Steps(CivilFromDays, day)
    {
      DatesFollowTheCalendar(day);
    }
    StepsIncrease(CivilFromDays, i, j);
  }

  // ---- timestamps ------------------------------------------------------

  datatype Stamp = Stamp(date: Date, hh: int, mm: int, ss: int)

  /** The date arithmetic of `iso8601_utc`: the first copy, in full. */
  function IsoDate(days: int): Date {
    var z := days + 719468;
    var era, doe := z / 146097, z % 146097;
    var yoe := (doe - doe / 1460 + doe / 36524 - doe / 146096) / 365;
    var doy := doe - (365 * yoe + yoe / 4 - yoe / 100);
    var mp := (5 * doy + 2) / 153;
    var d := doy - (153 * mp + 2) / 5 + 1;
    var m := if mp < 10 then mp + 3 else mp - 9;
    var y := yoe + era * 400;
    Date(if m <= 2 then y + 1 else y, m, d)
  }

  /** The fields `iso8601_utc` formats, from Unix milliseconds. */
  function Iso8601(unixMs: nat): Stamp {
    var secs := unixMs / 1000;
    var rem := secs % 86400;
    Stamp(IsoDate(secs / 86400), rem / 3600, rem % 3600 / 60, rem % 60)
  }

  /** The fields `rfc3339_now` formats, from Unix seconds: the second copy. */
  function Rfc3339(secs: nat): Stamp {
    var rem := secs % 86400;
    Stamp(CivilFromDays(secs / 86400), rem / 3600, (rem % 3600) / 60, rem % 60)
  }

  predicate EarlierStamp(a: Stamp, b: Stamp) {
    Earlier(a.date, b.date)
    || (a.date == b.date && (a.hh < b.hh || (a.hh == b.hh && (a.mm < b.mm || (a.mm == b.mm && a.ss < b.ss)))))
  }

  /** Both copies agree on every millisecond of every second. */
  lemma BothCopiesAgree(unixMs: nat)
    ensures Iso8601(unixMs) == Rfc3339(unixMs / 1000)
  {
    BothDatesAgree(unixMs / 1000 / 86400);
  }

  lemma BothDatesAgree(days: int)
    ensures IsoDate(days) == CivilFromDays(days)
  {
  }

  /** The time of day is a valid time, and the fields give back the second they came from. */
  lemma TimeOfDay(secs: nat)
    ensures var t := Rfc3339(secs);
            && 0 <= t.hh < 24 && 0 <= t.mm < 60 && 0 <= t.ss < 60
            && secs % 86400 == t.hh * 3600 + t.mm * 60 + t.ss
  {
    var rem := secs % 86400;
    assert rem % 60 == rem % 3600 % 60;
  }

  /** A later second has a later timestamp. */
  lemma TimestampsIncrease(s1: nat, s2: nat)
    requires s1 < s2
    ensures EarlierStamp(Rfc3339(s1), Rfc3339(s2))
  {
    TimeOfDay(s1);
    TimeOfDay(s2);
    if s1 / 86400 < s2 / 86400 {
      DatesIncrease(s1 / 86400, s2 / 86400);
    } else {
      assert s1 / 86400 == s2 / 86400 && s1 % 86400 < s2 % 86400;
    }
  }

  function Digits(n: nat): (s: string)
    ensures |s| >= 1
  {
    if n < 10 then [('0' as int + n) as char] else Digits(n / 10) + [('0' as int + n % 10) as char]
  }

  /** `{:0width}`. */
  function Pad(n: nat, width: nat): string {
    seq(if |Digits(n)| < width then width - |Digits(n)| else 0, _ => '0') + Digits(n)
  }

  function Format(t: Stamp): string
    requires t.date.y >= 0 && t.date.m >= 0 && t.date.d >= 0 && t.hh >= 0 && t.mm >= 0 && t.ss >= 0
  {
    Pad(t.date.y, 4) + "-" + Pad(t.date.m, 2) + "-" + Pad(t.date.d, 2) + "T"
    + Pad(t.hh, 2) + ":" + Pad(t.mm, 2) + ":" + Pad(t.ss, 2) + "Z"
  }

  lemma {:induction false} DigitCount(n: nat, k: nat, bound: nat)
    requires k >= 1 && bound == TenTo(k)
    ensures |Digits(n)| <= k <==> n < bound
  {
    if n >= 10 && k > 1 { DigitCount(n / 10, k - 1, TenTo(k - 1)); }
  }

  function TenTo(k: nat): (p: nat)
    ensures p >= 1 && (k >= 1 ==> p >= 10)
  {
    if k == 0 then 1 else 10 * TenTo(k - 1)
  }

  lemma PadWidth(n: nat, width: nat)
    requires width >= 1
    ensures |Pad(n, width)| == width <==> n < TenTo(width)
    ensures |Pad(n, width)| >= width
  {
    DigitCount(n, width, TenTo(width));
  }

  predicate Printable(t: Stamp) {
    t.date.y >= 0 && 0 <= t.date.m < 100 && 0 <= t.date.d < 100 && 0 <= t.hh < 100 && 0 <= t.mm < 100 && 0 <= t.ss < 100
  }

  lemma FormatWidth(t: Stamp)
    requires Printable(t)
    ensures |Format(t)| == 20 <==> t.date.y <= 9999
  {
    PadWidth(t.date.y, 4);
    PadWidth(t.date.m, 2);
    PadWidth(t.date.d, 2);
    PadWidth(t.hh, 2);
    PadWidth(t.mm, 2);
    PadWidth(t.ss, 2);
    assert TenTo(2) == 100 && TenTo(4) == 10000;
  }

  lemma ValidDateIsPrintable(date: Date)
    requires ValidDate(date) && (date == Date(1970, 1, 1) || Earlier(Date(1970, 1, 1), date))
    ensures date.y >= 1970 && 0 <= date.m < 100 && 0 <= date.d < 100
  {
  }

  lemma DateIsPrintable(days: nat)
    ensures var date := CivilFromDays(days); date.y >= 1970 && 0 <= date.m < 100 && 0 <= date.d < 100
  {
    DateIsValid(days);
    DayZero();
    if days > 0 { DatesIncrease(0, days); }
    ValidDateIsPrintable(CivilFromDays(days));
  }

  /** The text has the 20 characters of an RFC 3339 timestamp (four-digit year) exactly up to the year 9999. */
  lemma TextHasRfc3339ShapeUpToYear9999(secs: nat)
    ensures Printable(Rfc3339(secs))
    ensures |Format(Rfc3339(secs))| == 20 <==> Rfc3339(secs).date.y <= 9999
  {
    TimeOfDay(secs);
    DateIsPrintable(secs / 86400);
    FormatWidth(Rfc3339(secs));
  }

  // ---- reading the text back -------------------------------------------

  predicate AllDigits(s: string) {
    forall i | 0 <= i < |s| :: '0' <= s[i] <= '9'
  }

  /** The number that decimal digits stand for. */
  function Value(s: string): nat
    requires AllDigits(s)
  {
    if s == [] then 0 else 10 * Value(s[..|s| - 1]) + (s[|s| - 1] as int - '0' as int)
  }

  lemma {:induction false} DigitsReadBack(n: nat)
    ensures AllDigits(Digits(n)) && Value(Digits(n)) == n
  {
    if n >= 10 {
      DigitsReadBack(n / 10);
      assert Digits(n)[..|Digits(n)| - 1] == Digits(n / 10);
    } else {
      assert Digits(n)[..0] == [];
    }
  }

  lemma {:induction false} ZerosAddNothing(zeros: string, s: string)
    requires AllDigits(s) && forall i | 0 <= i < |zeros| :: zeros[i] == '0'
    ensures AllDigits(zeros + s) && Value(zeros + s) == Value(s)
  {
    if s != [] {
      ZerosAddNothing(zeros, s[..|s| - 1]);
      assert (zeros + s)[..|zeros + s| - 1] == zeros + s[..|s| - 1];
    } else if zeros != [] {
      ZerosAddNothing(zeros[..|zeros| - 1], s);
      assert zeros + s == zeros && zeros[..|zeros| - 1] + s == zeros[..|zeros| - 1];
    }
  }

  lemma PadReadsBack(n: nat, width: nat)
    ensures AllDigits(Pad(n, width)) && Value(Pad(n, width)) == n
  {
    DigitsReadBack(n);
    var zeros: string := seq(if |Digits(n)| < width then width - |Digits(n)| else 0, _ => '0');
    ZerosAddNothing(zeros, Digits(n));
  }

  /** `text` reads as the stamp `t`: its fields in the order and with the marks of section 5.6 of RFC 3339. */
  predicate ReadsAs(text: string, t: Stamp) {
    && |text| == 20
    && text[4] == '-' && text[7] == '-' && text[10] == 'T' && text[13] == ':' && text[16] == ':' && text[19] == 'Z'
    && AllDigits(text[..4]) && AllDigits(text[5..7]) && AllDigits(text[8..10])
    && AllDigits(text[11..13]) && AllDigits(text[14..16]) && AllDigits(text[17..19])
    && Stamp(Date(Value(text[..4]), Value(text[5..7]), Value(text[8..10])),
             Value(text[11..13]), Value(text[14..16]), Value(text[17..19])) == t
  }

  lemma FieldsStandApart(y: string, m: string, d: string, hh: string, mm: string, ss: string)
    requires |y| == 4 && |m| == |d| == |hh| == |mm| == |ss| == 2
    ensures var text := y + "-" + m + "-" + d + "T" + hh + ":" + mm + ":" + ss + "Z";
            && |text| == 20
            && text[4] == '-' && text[7] == '-' && text[10] == 'T'
            && text[13] == ':' && text[16] == ':' && text[19] == 'Z'
            && text[..4] == y && text[5..7] == m && text[8..10] == d
            && text[11..13] == hh && text[14..16] == mm && text[17..19] == ss
  {
    var text := y + "-" + m + "-" + d + "T" + hh + ":" + mm + ":" + ss + "Z";
    assert text[..4] == y;
    assert text[5] == m[0] && text[6] == m[1];
    assert text[8] == d[0] && text[9] == d[1];
    assert text[11] == hh[0] && text[12] == hh[1];
    assert text[14] == mm[0] && text[15] == mm[1];
    assert text[17] == ss[0] && text[18] == ss[1];
  }

  lemma FormatReadsBack(t: Stamp)
    requires Printable(t) && t.date.y <= 9999
    ensures ReadsAs(Format(t), t)
  {
    PadsAreExact(t);
    FieldsStandApart(Pad(t.date.y, 4), Pad(t.date.m, 2), Pad(t.date.d, 2), Pad(t.hh, 2), Pad(t.mm, 2), Pad(t.ss, 2));
    PadReadsBack(t.date.y, 4);
    PadReadsBack(t.date.m, 2);
    PadReadsBack(t.date.d, 2);
    PadReadsBack(t.hh, 2);
    PadReadsBack(t.mm, 2);
    PadReadsBack(t.ss, 2);
  }

  lemma PadsAreExact(t: Stamp)
    requires Printable(t) && t.date.y <= 9999
    ensures |Pad(t.date.y, 4)| == 4 && |Pad(t.date.m, 2)| == |Pad(t.date.d, 2)| == 2
    ensures |Pad(t.hh, 2)| == |Pad(t.mm, 2)| == |Pad(t.ss, 2)| == 2
  {
    PadWidth(t.date.y, 4);
    PadWidth(t.date.m, 2);
    PadWidth(t.date.d, 2);
    PadWidth(t.hh, 2);
    PadWidth(t.mm, 2);
    PadWidth(t.ss, 2);
    assert TenTo(2) == 100 && TenTo(4) == 10000;
  }

  /** Up to the year 9999 the text of a second reads back as its date and time of day. */
  lemma TextReadsBack(secs: nat)
    requires Rfc3339(secs).date.y <= 9999
    ensures ReadsAs(Format(Rfc3339(secs)), Rfc3339(secs))
  {
    TextHasRfc3339ShapeUpToYear9999(secs);
    FormatReadsBack(Rfc3339(secs));
  }
}
