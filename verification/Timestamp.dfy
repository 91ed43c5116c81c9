/**
 Calendar arithmetic of `timestamp.rs` against the Gregorian rules themselves:
 month lengths, leap years and the day after.
 */
module Timestamp {
  import opened Wrappers

  const MS_PER_DAY := 86_400_000

  datatype Date = Date(year: int, month: int, day: int)

  // --- The calendar, stated independently ----------------------------------------

  predicate IsLeap(year: int) {
    year % 4 == 0 && (year % 100 != 0 || year % 400 == 0)
  }

  function DaysIn(year: int, month: int): int {
    if month == 2 then (if IsLeap(year) then 29 else 28)
    else if month == 4 || month == 6 || month == 9 || month == 11 then 30
    else 31
  }

  predicate Valid(d: Date) {
    1 <= d.month <= 12 && 1 <= d.day <= DaysIn(d.year, d.month)
  }

  function Next(d: Date): Date {
    if d.day < DaysIn(d.year, d.month) then d.(day := d.day + 1)
    else if d.month < 12 then Date(d.year, d.month + 1, 1)
    else Date(d.year + 1, 1, 1)
  }

  // --- The code -------------------------------------------------------------------

  // Division as the processor does it: towards zero.
  function TruncDiv(a: int, b: int): int
    requires b > 0
  {
    if a >= 0 then a / b else -((-a) / b)
  }

  function YearOfEra(doe: int): int {
    TruncDiv(doe - TruncDiv(doe, 1460) + TruncDiv(doe, 36524) - TruncDiv(doe, 146_096), 365)
  }

  // From the era and the day within it on.
  function CivilInEra(era: int, doe: int): Date {
    var yoe := YearOfEra(doe);
    var y := yoe + era * 400;
    var doy := doe - (365 * yoe + TruncDiv(yoe, 4) - TruncDiv(yoe, 100));
    var mp := TruncDiv(5 * doy + 2, 153);
    var d := doy - TruncDiv(153 * mp + 2, 5) + 1;
    var m := if mp < 10 then mp + 3 else mp - 9;
    Date(if m <= 2 then y + 1 else y, m, d)
  }

  function CivilFromDays(z0: int): Date {
    var z := z0 + 719_468;
    var era := TruncDiv(if z >= 0 then z else z - 146_096, 146_097);
    CivilInEra(era, z - era * 146_097)
  }

  function DaysFromCivil(date: Date): int {
    var y := if date.month <= 2 then date.year - 1 else date.year;
    var era := TruncDiv(if y >= 0 then y else y - 399, 400);
    var yoe := y - era * 400;
    var m := date.month;
    var doy := TruncDiv(153 * (if m > 2 then m - 3 else m + 9) + 2, 5) + date.day - 1;
    var doe := yoe * 365 + TruncDiv(yoe, 4) - TruncDiv(yoe, 100) + doy;
    era * 146_097 + doe - 719_468
  }

  // --- Eras and years -----------------------------------------------------------------

  lemma EraIsFloor(z: int)
    ensures TruncDiv(if z >= 0 then z else z - 146_096, 146_097) == z / 146_097
  {
  }

  lemma YearEraIsFloor(y: int)
    ensures TruncDiv(if y >= 0 then y else y - 399, 400) == y / 400
  {
  }

  // The first day of a March-based year within its era.
  function YearStart(yoe: int): int {
    365 * yoe + yoe / 4 - yoe / 100
  }

  // Whether the March-based year ends in a leap day.
  predicate LongYear(yoe: int) {
    IsLeap(yoe + 1)
  }

  lemma YearLength(yoe: int)
    requires 0 <= yoe < 399
    ensures YearStart(yoe + 1) - YearStart(yoe) == if LongYear(yoe) then 366 else 365
  {
    assert (yoe + 1) / 4 == yoe / 4 + if (yoe + 1) % 4 == 0 then 1 else 0;
    assert (yoe + 1) / 100 == yoe / 100 + if (yoe + 1) % 100 == 0 then 1 else 0;
  }

  // The year formula, run on any day of a year, gives that year.
  lemma YearOfEraExact(yoe: int, doy: int)
    requires 0 <= yoe < 400 && 0 <= doy <= 365
    requires doy == 365 ==> LongYear(yoe)
    ensures YearOfEra(YearStart(yoe) + doy) == yoe
  {
    hide YearOfEra;
    var c, q, r := yoe / 100, yoe % 100 / 4, yoe % 4;
    Cycles(yoe, c, q, r);
    Centuries(YearStart(yoe) + doy, c, 365 * (4 * q + r) + q + doy);
    Corrections(yoe, doy, c, q, r);
    LateDays(yoe, doy, c, q, r);
    YearByDivision(YearStart(yoe) + doy, yoe, doy, c, if 24 * c + 365 * r + q + doy >= 1460 then 1 else 0);
  }

  // What the corrections leave is a day of a year of 365.
  lemma LateDays(yoe: int, doy: int, c: int, q: int, r: int)
    requires 0 <= doy <= 365 && 0 <= c < 4 && 0 <= q < 25 && 0 <= r < 4 && r == yoe % 4
    requires doy == 365 ==> LongYear(yoe)
    ensures var u := if 24 * c + 365 * r + q + doy >= 1460 then 1 else 0; 0 <= doy - u <= 364
  {
  }

  lemma YearByDivision(doe: int, yoe: int, doy: int, c: int, u: int)
    requires 0 <= yoe && 0 <= doy - u <= 364 && doe >= 0
    requires doe - doe / 1460 + c == 365 * yoe + doy - u && doe / 36524 - doe / 146_096 == c
    ensures YearOfEra(doe) == yoe
  {
  }

  // The corrections leave the day of the year less u, where u is 1 only late in
  // the fourth year of a cycle.
  lemma Corrections(yoe: int, doy: int, c: int, q: int, r: int)
    requires 0 <= doy <= 365 && 0 <= c < 4 && 0 <= q < 25 && 0 <= r < 4
    requires yoe == 100 * c + 4 * q + r && YearStart(yoe) == 36524 * c + 365 * (4 * q + r) + q
    ensures var doe, u := YearStart(yoe) + doy, if 24 * c + 365 * r + q + doy >= 1460 then 1 else 0;
            doe - doe / 1460 + c == 365 * yoe + doy - u
  {
    var rest := 24 * c + 365 * r + q + doy;
    assert YearStart(yoe) + doy == 1460 * (25 * c + q) + rest;
  }

  lemma Cycles(yoe: int, c: int, q: int, r: int)
    requires 0 <= yoe < 400 && c == yoe / 100 && q == yoe % 100 / 4 && r == yoe % 4
    ensures yoe == 100 * c + 4 * q + r && 0 <= c < 4 && 0 <= q < 25 && 0 <= r < 4
    ensures YearStart(yoe) == 36524 * c + 365 * (4 * q + r) + q
  {
  }

  // Whole centuries counted, less the extra one on the last day of the era.
  lemma Centuries(doe: int, c: int, d: int)
    requires doe == 36524 * c + d && 0 <= c < 4 && 0 <= d <= 36524
    requires d == 36524 ==> c == 3
    ensures doe / 36524 - doe / 146_096 == c
  {
  }

  function YearDays(yoe: int): int {
    if LongYear(yoe) then 366 else 365
  }

  // Every day of an era lies in one of its 400 years.
  lemma {:induction false} FindYear(doe: int, n: nat) returns (yoe: int)
    requires 0 < n <= 400 && 0 <= doe < YearStart(n - 1) + YearDays(n - 1)
    ensures 0 <= yoe < n && 0 <= doe - YearStart(yoe) < YearDays(yoe)
  {
    if doe >= YearStart(n - 1) {
      yoe := n - 1;
    } else {
      YearLength(n - 2);
      yoe := FindYear(doe, n - 1);
    }
  }

  // --- Months -----------------------------------------------------------------------------

  // The first day of the March-based month mp within its year.
  function MonthStart(mp: int): int {
    (153 * mp + 2) / 5
  }

  function MonthOf(mp: int): int {
    if mp < 10 then mp + 3 else mp - 9
  }

  function MarchMonth(month: int): int {
    if month > 2 then month - 3 else month + 9
  }

  // The month formula gives the month whose days enclose doy.
  lemma MonthExact(mp: int, doy: int)
    requires 0 <= mp < 12 && MonthStart(mp) <= doy
    requires mp < 11 ==> doy < MonthStart(mp + 1)
    requires doy <= 365
    ensures (5 * doy + 2) / 153 == mp
  {
  }

  lemma MonthLength(year: int, mp: int)
    requires 0 <= mp < 11
    ensures MonthStart(mp + 1) - MonthStart(mp) == DaysIn(year, MonthOf(mp))
  {
  }

  lemma FindMonth(doy: int)
    requires 0 <= doy <= 365
    ensures var mp := (5 * doy + 2) / 153;
            0 <= mp < 12 && MonthStart(mp) <= doy && (mp < 11 ==> doy < MonthStart(mp + 1))
  {
  }

  // --- A day taken apart and put together ----------------------------------------------------

  // The day number of day doy of a March-based year.
  function DayNumber(marchYear: int, doy: int): int {
    marchYear / 400 * 146_097 + YearStart(marchYear % 400) + doy - 719_468
  }

  function CivilDate(marchYear: int, doy: int): Date {
    var mp := (5 * doy + 2) / 153;
    var m := MonthOf(mp);
    Date(if m <= 2 then marchYear + 1 else marchYear, m, doy - MonthStart(mp) + 1)
  }

  lemma FourPeriodic(year: int, k: int)
    ensures (year + 4 * k) % 4 == year % 4
  {
  }

  lemma CenturyPeriodic(year: int, k: int)
    ensures (year + 100 * k) % 100 == year % 100
  {
  }

  lemma CyclePeriodic(year: int, k: int)
    ensures (year + 400 * k) % 400 == year % 400
  {
  }

  lemma LeapPeriodic(year: int, k: int)
    ensures IsLeap(year + 400 * k) <==> IsLeap(year)
  {
    FourPeriodic(year, 100 * k);
    CenturyPeriodic(year, 4 * k);
    CyclePeriodic(year, k);
  }

  lemma LongYearPeriodic(marchYear: int)
    ensures LongYear(marchYear) <==> LongYear(marchYear % 400)
  {
    LeapPeriodic(marchYear % 400 + 1, marchYear / 400);
  }

  // The ranges that the code notes for doe, yoe and mp, on any day given by its
  // March-based year and day of the year.
  lemma DayOfEra(marchYear: int, doy: int)
    requires 0 <= doy < YearDays(marchYear)
    ensures var doe := YearStart(marchYear % 400) + doy;
            0 <= doe <= 146_096 && YearOfEra(doe) == marchYear % 400
    ensures 0 <= (5 * doy + 2) / 153 <= 11
  {
    LongYearPeriodic(marchYear);
    YearOfEraExact(marchYear % 400, doy);
    WithinEra(marchYear % 400, doy);
  }

  lemma CivilOfDayNumber(marchYear: int, doy: int)
    requires 0 <= doy < YearDays(marchYear)
    ensures CivilFromDays(DayNumber(marchYear, doy)) == CivilDate(marchYear, doy)
  {
    hide CivilDate, CivilFromDays, CivilInEra, YearOfEra, YearStart;
    var era, yoe := marchYear / 400, marchYear % 400;
    var doe := YearStart(yoe) + doy;
    DayOfEra(marchYear, doy);
    EraOfDay(era * 146_097 + doe, era, doe);
    CivilByEra(DayNumber(marchYear, doy));
    DateInEra(era, doe, yoe, doy);
  }

  lemma DateInEra(era: int, doe: int, yoe: int, doy: int)
    requires YearOfEra(doe) == yoe && 0 <= yoe < 400 && doe == YearStart(yoe) + doy && 0 <= doy <= 365
    ensures CivilInEra(era, doe) == CivilDate(yoe + era * 400, doy)
  {
    FindMonth(doy);
  }

  lemma EraOfDay(z: int, era: int, doe: int)
    requires z == era * 146_097 + doe && 0 <= doe <= 146_096
    ensures z / 146_097 == era && z % 146_097 == doe
  {
  }

  lemma WithinEra(yoe: int, doy: int)
    requires 0 <= yoe < 400 && 0 <= doy < YearDays(yoe)
    ensures 0 <= YearStart(yoe) + doy <= 146_096
  {
  }

  // Every day number is some day of some March-based year.
  lemma FindDay(z: int) returns (marchYear: int, doy: int)
    ensures 0 <= doy < YearDays(marchYear) && DayNumber(marchYear, doy) == z
  {
    var era, doe := (z + 719_468) / 146_097, (z + 719_468) % 146_097;
    var yoe := FindYear(doe, 400);
    marchYear, doy := era * 400 + yoe, doe - YearStart(yoe);
    assert marchYear / 400 == era && marchYear % 400 == yoe;
    LongYearPeriodic(marchYear);
  }

  lemma CivilDateExists(marchYear: int, doy: int)
    requires 0 <= doy < YearDays(marchYear)
    ensures Valid(CivilDate(marchYear, doy))
  {
    var mp := (5 * doy + 2) / 153;
    FindMonth(doy);
    if mp < 11 {
      MonthLength(CivilDate(marchYear, doy).year, mp);
    }
  }

  lemma CivilDateCounts(marchYear: int, doy: int)
    requires 0 <= doy <= 365
    ensures DaysFromCivil(CivilDate(marchYear, doy)) == DayNumber(marchYear, doy)
  {
    FindMonth(doy);
    YearEraIsFloor(marchYear);
  }

  lemma CivilDateValid(marchYear: int, doy: int)
    requires 0 <= doy < YearDays(marchYear)
    ensures Valid(CivilDate(marchYear, doy))
    ensures DaysFromCivil(CivilDate(marchYear, doy)) == DayNumber(marchYear, doy)
  {
    CivilDateExists(marchYear, doy);
    CivilDateCounts(marchYear, doy);
  }

  // A valid date is the civil date of its own March-based year and day.
  lemma DateTakenApart(d: Date) returns (marchYear: int, doy: int)
    requires Valid(d)
    ensures 0 <= doy < YearDays(marchYear) && CivilDate(marchYear, doy) == d
    ensures marchYear == (if d.month <= 2 then d.year - 1 else d.year)
    ensures doy == MonthStart(MarchMonth(d.month)) + d.day - 1
  {
    var mp := MarchMonth(d.month);
    marchYear := if d.month <= 2 then d.year - 1 else d.year;
    doy := MonthStart(mp) + d.day - 1;
    if mp < 11 {
      MonthLength(d.year, mp);
    }
    MonthExact(mp, doy);
  }

  // --- The theorems ------------------------------------------------------------------------------

  lemma EpochIs1970()
    ensures CivilFromDays(0) == Date(1970, 1, 1)
  {
  }

  lemma DaysInvertCivil(z: int)
    ensures Valid(CivilFromDays(z)) && DaysFromCivil(CivilFromDays(z)) == z
  {
    var marchYear, doy := FindDay(z);
    CivilOfDayNumber(marchYear, doy);
    CivilDateValid(marchYear, doy);
  }

  lemma CivilInvertsDays(d: Date)
    requires Valid(d)
    ensures CivilFromDays(DaysFromCivil(d)) == d
  {
    var marchYear, doy := DateTakenApart(d);
    CivilDateValid(marchYear, doy);
    CivilOfDayNumber(marchYear, doy);
  }

  // The first day of a March-based year follows the last day of the year before.
  lemma NextMarch(marchYear: int)
    ensures DayNumber(marchYear + 1, 0) == DayNumber(marchYear, YearDays(marchYear) - 1) + 1
  {
    LongYearPeriodic(marchYear);
    if marchYear % 400 < 399 {
      YearLength(marchYear % 400);
      assert (marchYear + 1) / 400 == marchYear / 400;
    } else {
      assert (marchYear + 1) / 400 == marchYear / 400 + 1;
    }
  }

  lemma DaysByMarch(d: Date)
    requires 1 <= d.month <= 12
    ensures DaysFromCivil(d) ==
              DayNumber(if d.month <= 2 then d.year - 1 else d.year, MonthStart(MarchMonth(d.month)) + d.day - 1)
  {
    YearEraIsFloor(if d.month <= 2 then d.year - 1 else d.year);
  }

  lemma NextInMonth(d: Date)
    requires Valid(d) && d.day < DaysIn(d.year, d.month)
    ensures Valid(Next(d)) && DaysFromCivil(Next(d)) == DaysFromCivil(d) + 1
  {
  }

  lemma NextMonth(d: Date)
    requires Valid(d) && d.day == DaysIn(d.year, d.month) && d.month != 2
    ensures Valid(Next(d)) && DaysFromCivil(Next(d)) == DaysFromCivil(d) + 1
  {
    MonthLength(d.year, MarchMonth(d.month));
    DaysByMarch(d);
    DaysByMarch(Next(d));
    assert MarchMonth(Next(d).month) == MarchMonth(d.month) + 1;
  }

  lemma NextAfterFebruary(d: Date)
    requires Valid(d) && d.day == DaysIn(d.year, d.month) && d.month == 2
    ensures Valid(Next(d)) && DaysFromCivil(Next(d)) == DaysFromCivil(d) + 1
  {
    NextMarch(d.year - 1);
    var y, doy := DateTakenApart(d);
    CivilDateValid(y, doy);
    var y', doy' := DateTakenApart(Next(d));
    CivilDateValid(y', doy');
  }

  lemma NextIsOneDayLater(d: Date)
    requires Valid(d)
    ensures Valid(Next(d)) && DaysFromCivil(Next(d)) == DaysFromCivil(d) + 1
  {
    if d.day < DaysIn(d.year, d.month) {
      NextInMonth(d);
    } else if d.month != 2 {
      NextMonth(d);
    } else {
      NextAfterFebruary(d);
    }
  }

  // Two mutually inverse maps, one of which turns "next" into "plus one".
  lemma InverseSteps<D(!new)>(f: int -> D, g: D -> int, next: D -> D, valid: D -> bool, z: int)
    requires forall i :: valid(f(i)) && g(f(i)) == i
    requires forall d | valid(d) :: f(g(d)) == d && valid(next(d)) && g(next(d)) == g(d) + 1
    ensures f(z + 1) == next(f(z))
  {
    assert g(next(f(z))) == z + 1;
  }

  lemma AllDaysInvert()
    ensures forall i :: Valid(CivilFromDays(i)) && DaysFromCivil(CivilFromDays(i)) == i
  {
    forall i ensures Valid(CivilFromDays(i)) && DaysFromCivil(CivilFromDays(i)) == i {
      DaysInvertCivil(i);
    }
  }

  lemma AllDatesStep()
    ensures forall d | Valid(d) ::
              CivilFromDays(DaysFromCivil(d)) == d && Valid(Next(d)) && DaysFromCivil(Next(d)) == DaysFromCivil(d) + 1
  {
    forall d | Valid(d)
      ensures CivilFromDays(DaysFromCivil(d)) == d && Valid(Next(d)) && DaysFromCivil(Next(d)) == DaysFromCivil(d) + 1
    {
      CivilInvertsDays(d);
      NextIsOneDayLater(d);
    }
  }

  // Day by day, for every integer: the code walks the Gregorian calendar.
  lemma CivilSuccessor(z: int)
    ensures CivilFromDays(z + 1) == Next(CivilFromDays(z))
  {
    AllDaysInvert();
    AllDatesStep();
    InverseSteps(CivilFromDays, DaysFromCivil, Next, Valid, z);
  }

  // --- Nothing overflows --------------------------------------------------------------------------

  const I64_MIN := -0x8000_0000_0000_0000
  const I64_MAX := 0x7FFF_FFFF_FFFF_FFFF

  const TWO_TO_THE_32 := 0x1_0000_0000

  // A 64-bit result, or none where it does not fit.
  function Fits(n: int): Option<int> {
    if I64_MIN <= n <= I64_MAX then Some(n) else None
  }

  function Plus(a: Option<int>, b: Option<int>): Option<int> {
    if a.Some? && b.Some? then Fits(a.value + b.value) else None
  }

  function Minus(a: Option<int>, b: Option<int>): Option<int> {
    if a.Some? && b.Some? then Fits(a.value - b.value) else None
  }

  function Times(n: int, a: Option<int>): Option<int> {
    if a.Some? then Fits(n * a.value) else None
  }

  function Over(a: Option<int>, n: int): Option<int>
    requires n > 0
  {
    if a.Some? then Fits(TruncDiv(a.value, n)) else None
  }

  // civil_from_days in 64 bits, step by step: the era and the day in it,
  function EraIn64(z0: Option<int>): (Option<int>, Option<int>) {
    var z := Plus(z0, Some(719_468));
    var era := Over(if z.Some? && z.value >= 0 then z else Minus(z, Some(146_096)), 146_097);
    (era, Minus(z, Times(146_097, era)))
  }

  // the year of the era,
  function YearIn64(doe: Option<int>): Option<int> {
    Over(Minus(Plus(Minus(doe, Over(doe, 1460)), Over(doe, 36524)), Over(doe, 146_096)), 365)
  }

  // the day of the year,
  function DayOfYearIn64(doe: Option<int>, yoe: Option<int>): Option<int> {
    Minus(doe, Minus(Plus(Times(365, yoe), Over(yoe, 4)), Over(yoe, 100)))
  }

  // the month from March on,
  function MarchMonthIn64(doy: Option<int>): Option<int> {
    Over(Plus(Times(5, doy), Some(2)), 153)
  }

  // the day of the month,
  function DayIn64(doy: Option<int>, mp: Option<int>): Option<int> {
    Plus(Minus(doy, Over(Plus(Times(153, mp), Some(2)), 5)), Some(1))
  }

  // and the date, with month and day cast to 32 bits.
  function DateIn64(y: Option<int>, mp: Option<int>, d: Option<int>): Option<Date> {
    var m := if mp.Some? && mp.value < 10 then Plus(mp, Some(3)) else Minus(mp, Some(9));
    var year := if m.Some? && m.value <= 2 then Plus(y, Some(1)) else y;
    if year.Some? && m.Some? && d.Some?
    then Some(Date(year.value, m.value % TWO_TO_THE_32, d.value % TWO_TO_THE_32)) else None
  }

  function CivilIn64(z0: Option<int>): Option<Date> {
    var (era, doe) := EraIn64(z0);
    var yoe := YearIn64(doe);
    var doy := DayOfYearIn64(doe, yoe);
    var mp := MarchMonthIn64(doy);
    DateIn64(Plus(yoe, Times(400, era)), mp, DayIn64(doy, mp))
  }

  // The remainder, never negative.
  function Within(a: Option<int>, n: int): Option<int>
    requires n > 0
  {
    if a.Some? then Fits(a.value % n) else None
  }

  // format_millis_utc in 64 bits: the hour and the minute.
  function ClockIn64(ms: Option<int>): (Option<int>, Option<int>) {
    var seconds := Over(Within(ms, MS_PER_DAY), 1000);
    (Over(seconds, 3600), Over(Within(seconds, 3600), 60))
  }

  // The ranges that the code notes beside its bindings, for every day number.
  lemma NotedRanges(z0: int)
    ensures var z := z0 + 719_468;
            var era := TruncDiv(if z >= 0 then z else z - 146_096, 146_097);
            var doe := z - era * 146_097;
            var yoe := YearOfEra(doe);
            var doy := doe - (365 * yoe + TruncDiv(yoe, 4) - TruncDiv(yoe, 100));
            era == z / 146_097 && 0 <= doe <= 146_096 && 0 <= yoe <= 399 && 0 <= doy <= 365
            && 0 <= TruncDiv(5 * doy + 2, 153) <= 11
  {
    EraIsFloor(z0 + 719_468);
    var doe := (z0 + 719_468) % 146_097;
    var yoe := FindYear(doe, 400);
    YearOfEraExact(yoe, doe - YearStart(yoe));
  }

  lemma EraFits(z0: int)
    requires -200_000_000_000 < z0 < 200_000_000_000
    ensures EraIn64(Some(z0)) == (Some((z0 + 719_468) / 146_097), Some((z0 + 719_468) % 146_097))
  {
    EraIsFloor(z0 + 719_468);
  }

  lemma YearFits(doe: int)
    requires 0 <= doe <= 146_096
    ensures YearIn64(Some(doe)) == Some(YearOfEra(doe))
  {
  }

  lemma DayOfYearFits(doe: int, yoe: int)
    requires 0 <= doe <= 146_096 && 0 <= yoe <= 399
    ensures DayOfYearIn64(Some(doe), Some(yoe)) == Some(doe - (365 * yoe + TruncDiv(yoe, 4) - TruncDiv(yoe, 100)))
  {
  }

  lemma MonthFits(doy: int)
    requires 0 <= doy <= 365
    ensures var mp := TruncDiv(5 * doy + 2, 153);
            && 0 <= mp <= 11 && MarchMonthIn64(Some(doy)) == Some(mp)
            && 0 <= doy - TruncDiv(153 * mp + 2, 5) + 1 <= 31
            && DayIn64(Some(doy), Some(mp)) == Some(doy - TruncDiv(153 * mp + 2, 5) + 1)
  {
  }

  lemma DateFits(y: int, mp: int, d: int)
    requires -1_000_000_000 < y < 1_000_000_000 && 0 <= mp <= 11 && 0 <= d <= 31
    ensures var m := if mp < 10 then mp + 3 else mp - 9;
            DateIn64(Some(y), Some(mp), Some(d)) == Some(Date(if m <= 2 then y + 1 else y, m, d))
  {
  }

  lemma CivilFits(era: int, doe: int, yoe: int, doy: int)
    requires -2_000_000 < era < 2_000_000 && yoe == YearOfEra(doe) && 0 <= yoe <= 399
    requires doy == doe - (365 * yoe + TruncDiv(yoe, 4) - TruncDiv(yoe, 100)) && 0 <= doy <= 365
    ensures var mp := MarchMonthIn64(Some(doy));
            DateIn64(Plus(Some(yoe), Times(400, Some(era))), mp, DayIn64(Some(doy), mp)) == Some(CivilInEra(era, doe))
  {
    hide MarchMonthIn64, DayIn64, DateIn64, TruncDiv, YearOfEra, Plus, Times;
    var mp := TruncDiv(5 * doy + 2, 153);
    MonthFits(doy);
    EraYearFits(era, yoe);
    DateFits(yoe + era * 400, mp, doy - TruncDiv(153 * mp + 2, 5) + 1);
  }

  lemma EraYearFits(era: int, yoe: int)
    requires -2_000_000 < era < 2_000_000 && 0 <= yoe <= 399
    ensures Plus(Some(yoe), Times(400, Some(era))) == Some(yoe + era * 400)
  {
  }

  lemma DayOfEraInRange(z0: int)
    ensures var doe := (z0 + 719_468) % 146_097; var yoe := YearOfEra(doe);
            && 0 <= yoe <= 399
            && 0 <= doe - (365 * yoe + TruncDiv(yoe, 4) - TruncDiv(yoe, 100)) <= 365
  {
    NotedRanges(z0);
  }

  lemma CivilByEra(z0: int)
    ensures CivilFromDays(z0) == CivilInEra((z0 + 719_468) / 146_097, (z0 + 719_468) % 146_097)
  {
    EraIsFloor(z0 + 719_468);
    hide CivilInEra;
  }

  // For every 64-bit millisecond count, computing in 64 bits gives the date and the time
  // that computing without bounds does: nothing overflows on the way, and the casts of
  // month and day change nothing.
  lemma NoOverflow(ms: int)
    requires I64_MIN <= ms <= I64_MAX
    ensures CivilIn64(Fits(ms / MS_PER_DAY)) == Some(CivilFromDays(ms / MS_PER_DAY))
    ensures ClockIn64(Some(ms)) ==
              (Some(ms % MS_PER_DAY / 1000 / 3600), Some(ms % MS_PER_DAY / 1000 % 3600 / 60))
  {
    hide CivilIn64, CivilFromDays, ClockIn64;
    DaysInRange(ms);
    DayFits(ms / MS_PER_DAY);
    ClockFits(ms);
  }

  lemma ClockFits(ms: int)
    ensures ClockIn64(Some(ms)) ==
              (Some(ms % MS_PER_DAY / 1000 / 3600), Some(ms % MS_PER_DAY / 1000 % 3600 / 60))
  {
    var rem := ms % MS_PER_DAY;
    assert Within(Some(ms), MS_PER_DAY) == Some(rem);
    SecondsFit(rem);
  }

  lemma SecondsFit(rem: int)
    requires 0 <= rem < MS_PER_DAY
    ensures var seconds := rem / 1000;
            && Over(Some(rem), 1000) == Some(seconds) && Over(Some(seconds), 3600) == Some(seconds / 3600)
            && Within(Some(seconds), 3600) == Some(seconds % 3600)
            && Over(Some(seconds % 3600), 60) == Some(seconds % 3600 / 60)
  {
  }

  lemma DayFits(z0: int)
    requires -200_000_000_000 < z0 < 200_000_000_000
    ensures CivilIn64(Some(z0)) == Some(CivilFromDays(z0))
  {
    hide EraIn64, YearIn64, DayOfYearIn64, MarchMonthIn64, DayIn64, DateIn64, Plus, Times, TruncDiv;
    hide CivilFromDays, CivilInEra, YearOfEra;
    var era, doe := (z0 + 719_468) / 146_097, (z0 + 719_468) % 146_097;
    var yoe := YearOfEra(doe);
    EraFits(z0);
    CivilByEra(z0);
    DayOfEraInRange(z0);
    YearFits(doe);
    DayOfYearFits(doe, yoe);
    CivilFits(era, doe, yoe, doe - (365 * yoe + TruncDiv(yoe, 4) - TruncDiv(yoe, 100)));
  }

  lemma DaysInRange(ms: int)
    requires I64_MIN <= ms <= I64_MAX
    ensures -200_000_000_000 < ms / MS_PER_DAY < 200_000_000_000
  {
  }
}
