/** The proleptic Gregorian calendar of src/time.rs: the closed day-count
    formulas, proved against a calendar that only knows how to step one day. */
module Calendar {

  datatype Date = Date(year: int, month: int, day: int)

  predicate IsLeapYear(y: int) {
    (y % 4 == 0 && y % 100 != 0) || y % 400 == 0
  }

  function DaysInMonth(y: int, m: int): int {
    if m in {1, 3, 5, 7, 8, 10, 12} then 31
    else if m in {4, 6, 9, 11} then 30
    else if m == 2 then (if IsLeapYear(y) then 29 else 28)
    else 0
  }

  predicate Valid(t: Date) {
    1 <= t.month <= 12 && 1 <= t.day <= DaysInMonth(t.year, t.month)
  }

  /** Rust's `/`: rounds toward zero, unlike Dafny's. */
  function TruncDiv(a: int, b: int): int
    requires b > 0
  {
    if a >= 0 then a / b else -((-a) / b)
  }

  function DaysFromCivil(t: Date): int {
    var y := if t.month <= 2 then t.year - 1 else t.year;
    var era := TruncDiv(if y >= 0 then y else y - 399, 400);
    var yoe := y - era * 400;
    var mp := if t.month > 2 then t.month - 3 else t.month + 9;
    var doy := TruncDiv(153 * mp + 2, 5) + t.day - 1;
    var doe := yoe * 365 + TruncDiv(yoe, 4) - TruncDiv(yoe, 100) + doy;
    era * 146_097 + doe - 719_468
  }

  function CivilFromDays(days: int): Date {
    var (era, doe) := EraAndDay(days);
    var (yoe, doy) := YearAndDay(doe);
    var (m, d) := MonthAndDay(doy);
    var y := yoe + era * 400;
    Date(if m <= 2 then y + 1 else y, m, d)
  }

  function EraAndDay(days: int): (int, int) {
    var z := days + 719_468;
    var era := TruncDiv(if z >= 0 then z else z - 146_096, 146_097);
    (era, z - era * 146_097)
  }

  function YearAndDay(doe: int): (int, int) {
    var yoe := TruncDiv(doe - TruncDiv(doe, 1_460) + TruncDiv(doe, 36_524) - TruncDiv(doe, 146_096), 365);
    (yoe, doe - (365 * yoe + TruncDiv(yoe, 4) - TruncDiv(yoe, 100)))
  }

  function MonthAndDay(doy: int): (int, int) {
    var mp := TruncDiv(5 * doy + 2, 153);
    (if mp < 10 then mp + 3 else mp - 9, doy - TruncDiv(153 * mp + 2, 5) + 1)
  }

  // ---- The naive calendar ---------------------------------------------------

  const EPOCH := Date(1970, 1, 1)

  function NextDay(t: Date): (n: Date)
    requires Valid(t)
    ensures Valid(n)
  {
    if t.day < DaysInMonth(t.year, t.month) then t.(day := t.day + 1)
    else if t.month < 12 then Date(t.year, t.month + 1, 1)
    else Date(t.year + 1, 1, 1)
  }

  function PreviousDay(t: Date): (p: Date)
    requires Valid(t)
    ensures Valid(p) && NextDay(p) == t
  {
    if t.day > 1 then t.(day := t.day - 1)
    else if t.month > 1 then Date(t.year, t.month - 1, DaysInMonth(t.year, t.month - 1))
    else Date(t.year - 1, 12, 31)
  }

  /** The date `n` days after 1970-01-01, reached one day at a time. */
  function NaiveDate(n: int): (t: Date)
    ensures Valid(t)
    decreases if n >= 0 then n else -n
  {
    if n == 0 then EPOCH
    else if n > 0 then NextDay(NaiveDate(n - 1))
    else PreviousDay(NaiveDate(n + 1))
  }

  predicate Before(a: Date, b: Date) {
    || a.year < b.year
    || (a.year == b.year && (a.month < b.month || (a.month == b.month && a.day < b.day)))
  }

  // ---- days_from_civil ------------------------------------------------------

  /** The era arithmetic collapses to the four floor divisions of the leap rule. */
  function MarchYearStart(y: int): int {
    365 * y + y / 4 - y / 100 + y / 400
  }

  /** Years counted from 1 March, and the days before each of their months. */
  function MarchYear(t: Date): int {
    if t.month <= 2 then t.year - 1 else t.year
  }

  function DayOfMarchYear(t: Date): int {
    (153 * (if t.month > 2 then t.month - 3 else t.month + 9) + 2) / 5 + t.day - 1
  }

  lemma EraFloor(y: int)
    ensures TruncDiv(if y >= 0 then y else y - 399, 400) == y / 400
  {
    if y < 0 {
      var q := y / 400;
      assert 399 - y == 400 * (-q) + (399 - y % 400);
    }
  }

  lemma ClosedForm(t: Date)
    requires 1 <= t.month <= 12
    ensures DaysFromCivil(t) == MarchYearStart(MarchYear(t)) + DayOfMarchYear(t) - 719_468
  {
    var y := MarchYear(t);
    EraFloor(y);
    var era, yoe := y / 400, y % 400;
    assert y == 400 * era + yoe;
    assert y / 4 == 100 * era + yoe / 4;
    assert y / 100 == 4 * era + yoe / 100;
  }

  lemma FloorStep(y: int, k: int)
    requires k in {4, 100, 400}
    ensures y / k - (y - 1) / k == if y % k == 0 then 1 else 0
  {
    if k == 4 {
      assert y == 4 * (y / 4) + y % 4;
    } else if k == 100 {
      assert y == 100 * (y / 100) + y % 100;
    } else {
      assert y == 400 * (y / 400) + y % 400;
    }
  }

  lemma MarchYearLength(y: int)
    ensures MarchYearStart(y) - MarchYearStart(y - 1) == if IsLeapYear(y) then 366 else 365
  {
    FloorStep(y, 4);
    FloorStep(y, 100);
    FloorStep(y, 400);
  }

  /** The day count is 0 at the epoch ... */
  lemma EpochIsDayZero()
    ensures DaysFromCivil(EPOCH) == 0
  {}

  lemma NextDayInMarchYear(t: Date)
    requires Valid(t)
    ensures var n := NextDay(t);
            if t.month == 2 && n.month == 3
            then MarchYear(n) == t.year == MarchYear(t) + 1 && DayOfMarchYear(n) == 0
                 && DayOfMarchYear(t) == if IsLeapYear(t.year) then 365 else 364
            else MarchYear(n) == MarchYear(t) && DayOfMarchYear(n) == DayOfMarchYear(t) + 1
  {}

  /** ... and every step of the naive calendar adds exactly one, in every year. */
  lemma NextDayCountsOne(t: Date)
    requires Valid(t)
    ensures DaysFromCivil(NextDay(t)) == DaysFromCivil(t) + 1
  {
    NextDayInMarchYear(t);
    var from, to := MarchYear(t), MarchYear(NextDay(t));
    assert MarchYearStart(to) - MarchYearStart(from)
        == if from == to then 0 else if IsLeapYear(to) then 366 else 365 by {
      MarchYearLength(to);
    }
    assert DaysFromCivil(t) == MarchYearStart(from) + DayOfMarchYear(t) - 719_468 by {
      ClosedForm(t);
    }
    assert DaysFromCivil(NextDay(t)) == MarchYearStart(to) + DayOfMarchYear(NextDay(t)) - 719_468 by {
      ClosedForm(NextDay(t));
    }
  }

  lemma {:induction false} MarchYearsGrow(a: int, b: int)
    requires a < b
    ensures MarchYearStart(b) >= MarchYearStart(a + 1)
    decreases b - a
  {
    if a + 1 >= b {
    } else {
      MarchYearsGrow(a, b - 1);
      MarchYearLength(b);
    }
  }

  lemma DayFitsItsMarchYear(t: Date)
    requires Valid(t)
    ensures 0 <= DayOfMarchYear(t) <= if IsLeapYear(MarchYear(t) + 1) then 365 else 364
  {}

  lemma OrderWithinMarchYear(a: Date, b: Date)
    requires Valid(a) && Valid(b) && Before(a, b)
    ensures MarchYear(a) <= MarchYear(b)
    ensures MarchYear(a) == MarchYear(b) ==> DayOfMarchYear(a) < DayOfMarchYear(b)
  {}

  lemma LaterMarchYearStartsLater(a: Date, b: Date)
    requires Valid(a) && MarchYear(a) < MarchYear(b)
    ensures MarchYearStart(MarchYear(a)) + DayOfMarchYear(a) < MarchYearStart(MarchYear(b))
  {
    DayFitsItsMarchYear(a);
    MarchYearsGrow(MarchYear(a), MarchYear(b));
    MarchYearLength(MarchYear(a) + 1);
  }

  lemma StrictlyIncreasing(a: Date, b: Date)
    requires Valid(a) && Valid(b) && Before(a, b)
    ensures DaysFromCivil(a) < DaysFromCivil(b)
  {
    var start, later := MarchYearStart(MarchYear(a)), MarchYearStart(MarchYear(b));
    assert DaysFromCivil(a) == start + DayOfMarchYear(a) - 719_468 by { ClosedForm(a); }
    assert DaysFromCivil(b) == later + DayOfMarchYear(b) - 719_468 by { ClosedForm(b); }
    assert start + DayOfMarchYear(a) < later + DayOfMarchYear(b) by {
      OrderWithinMarchYear(a, b);
      DayFitsItsMarchYear(b);
      if MarchYear(a) < MarchYear(b) { LaterMarchYearStartsLater(a, b); }
    }
  }

  lemma DayNumberIsInjective(a: Date, b: Date)
    requires Valid(a) && Valid(b) && DaysFromCivil(a) == DaysFromCivil(b)
    ensures a == b
  {
    if Before(a, b) { StrictlyIncreasing(a, b); }
    if Before(b, a) { StrictlyIncreasing(b, a); }
  }

  /** Later day number, later date: the converse of StrictlyIncreasing. */
  lemma LaterNumberLaterDate(a: Date, b: Date)
    requires Valid(a) && Valid(b) && DaysFromCivil(a) < DaysFromCivil(b)
    ensures Before(a, b)
  {
    if Before(b, a) { StrictlyIncreasing(b, a); }
  }

  // ---- civil_from_days ------------------------------------------------------

  lemma EraSplits(days: int)
    ensures EraAndDay(days) == ((days + 719_468) / 146_097, (days + 719_468) % 146_097)
  {
    var z := days + 719_468;
    var era, doe := z / 146_097, z % 146_097;
    assert z == 146_097 * era + doe;
    if z < 0 {
      assert 146_096 - z == 146_097 * (-era) + (146_096 - doe);
    }
  }

  /** An era's day splits into century, four-year block, year and day of year;
      the corrections in the formula make the quotient by 365 come out right. */
  lemma YearOfEra(doe: int, c: int, q: int, s: int)
    requires 0 <= c <= 3 && 0 <= q <= 24 && 0 <= s <= 1_460
    requires doe == 36_524 * c + 1_461 * q + s
    requires q == 24 && c < 3 ==> s <= 1_459
    ensures var t := if s == 1_460 then 3 else s / 365;
            (doe - doe / 1_460 + doe / 36_524 - doe / 146_096) / 365 == 100 * c + 4 * q + t
  {
    var carry := if 24 * c + q + s >= 1_460 then 1 else 0;
    assert doe / 1_460 == 25 * c + q + carry by {
      assert doe == 1_460 * (25 * c + q) + (24 * c + q + s);
    }
    var last := if c == 3 && q == 24 && s == 1_460 then 1 else 0;
    assert doe / 36_524 == c + last;
    assert doe / 146_096 == last;
    assert doe - doe / 1_460 + doe / 36_524 - doe / 146_096 == 365 * (100 * c + 4 * q) + (s - carry);
    var t := if s == 1_460 then 3 else s / 365;
    assert 365 * t <= s - carry < 365 * (t + 1);
  }

  /** The leap rule within an era, seen from March. */
  predicate LongYearOfEra(yoe: int) {
    yoe % 4 == 3 && (yoe % 100 != 99 || yoe == 399)
  }

  lemma YearSplits(doe: int)
    requires 0 <= doe <= 146_096
    ensures var (yoe, doy) := YearAndDay(doe);
            && 0 <= yoe <= 399 && 0 <= doy <= 365
            && doe == 365 * yoe + yoe / 4 - yoe / 100 + doy
            && (doy == 365 ==> LongYearOfEra(yoe))
  {
    var c := if doe == 146_096 then 3 else doe / 36_524;
    var r := doe - 36_524 * c;
    var q := if r == 36_524 then 24 else r / 1_461;
    var s := r - 1_461 * q;
    YearOfEra(doe, c, q, s);
    var t := if s == 1_460 then 3 else s / 365;
    var yoe := 100 * c + 4 * q + t;
    assert YearAndDay(doe).0 == yoe;
    assert yoe == 100 * c + (4 * q + t) && yoe == 4 * (25 * c + q) + t;
    assert yoe / 4 == 25 * c + q && yoe / 100 == c;
    assert YearAndDay(doe).1 == s - 365 * t;
  }

  lemma MonthSplits(doy: int)
    requires 0 <= doy <= 365
    ensures var (m, d) := MonthAndDay(doy);
            var mp := if m > 2 then m - 3 else m + 9;
            && 1 <= m <= 12 && 1 <= d
            && (153 * mp + 2) / 5 + d - 1 == doy
            && d <= if m == 2 then (if doy == 365 then 29 else 28) else if m in {4, 6, 9, 11} then 30 else 31
  {
    var mp := (5 * doy + 2) / 153;
    assert 153 * mp <= 5 * doy + 2 < 153 * (mp + 1);
  }

  lemma Shift4(n: int, y: int)
    ensures (4 * n + y) % 4 == y % 4
  {}

  lemma Shift100(n: int, y: int)
    ensures (100 * n + y) % 100 == y % 100
  {}

  lemma Shift400(n: int, y: int)
    ensures (400 * n + y) % 400 == y % 400
  {}

  lemma LeapRepeatsEachEra(era: int, y: int)
    ensures IsLeapYear(400 * era + y) == IsLeapYear(y)
  {
    Shift4(100 * era, y);
    Shift100(4 * era, y);
    Shift400(era, y);
  }

  lemma StartOfEraYear(era: int, yoe: int)
    requires 0 <= yoe <= 399
    ensures MarchYearStart(400 * era + yoe) == 146_097 * era + 365 * yoe + yoe / 4 - yoe / 100
  {
    var y := 400 * era + yoe;
    assert y / 4 == 100 * era + yoe / 4;
    assert y / 100 == 4 * era + yoe / 100;
    assert y / 400 == era;
  }

  lemma CivilOfParts(era: int, yoe: int, doy: int) returns (t: Date)
    requires 0 <= yoe <= 399 && 0 <= doy <= 365
    requires doy == 365 ==> LongYearOfEra(yoe)
    ensures var (m, d) := MonthAndDay(doy);
            t == Date(yoe + era * 400 + (if m <= 2 then 1 else 0), m, d)
    ensures Valid(t) && MarchYear(t) == 400 * era + yoe && DayOfMarchYear(t) == doy
  {
    var (m, d) := MonthAndDay(doy);
    MonthSplits(doy);
    t := Date(yoe + era * 400 + (if m <= 2 then 1 else 0), m, d);
    assert 400 * era + (yoe + 1) == 400 * era + yoe + 1;
    LeapRepeatsEachEra(era, yoe + 1);
  }

  /** Every integer is the day number of exactly the valid date returned for it. */
  lemma CivilIsInverse(days: int)
    ensures Valid(CivilFromDays(days))
    ensures DaysFromCivil(CivilFromDays(days)) == days
  {
    var (era, doe) := EraAndDay(days);
    EraSplits(days);
    var (yoe, doy) := YearAndDay(doe);
    YearSplits(doe);
    var t := CivilOfParts(era, yoe, doy);
    assert CivilFromDays(days) == t;
    var start := MarchYearStart(400 * era + yoe);
    assert start == 146_097 * era + doe - doy by { StartOfEraYear(era, yoe); }
    assert DaysFromCivil(t) == start + doy - 719_468 by { ClosedForm(t); }
  }

  lemma DateSurvivesTheRoundTrip(t: Date)
    requires Valid(t)
    ensures CivilFromDays(DaysFromCivil(t)) == t
  {
    CivilIsInverse(DaysFromCivil(t));
    DayNumberIsInjective(CivilFromDays(DaysFromCivil(t)), t);
  }

  lemma {:induction false} NaiveDayNumber(n: int)
    ensures DaysFromCivil(NaiveDate(n)) == n
    decreases if n >= 0 then n else -n
  {
    if n > 0 {
      NaiveDayNumber(n - 1);
      NextDayCountsOne(NaiveDate(n - 1));
    } else if n < 0 {
      NaiveDayNumber(n + 1);
      NextDayCountsOne(NaiveDate(n));
    } else {
      EpochIsDayZero();
    }
  }

  /** The closed formulas agree with stepping the calendar day by day, in both
      directions from the epoch. */
  lemma FormulasRefineTheNaiveCalendar(n: int)
    ensures CivilFromDays(n) == NaiveDate(n)
    ensures DaysFromCivil(NaiveDate(n)) == n
  {
    NaiveDayNumber(n);
    DateSurvivesTheRoundTrip(NaiveDate(n));
  }

  // ---- Machine arithmetic -----------------------------------------------------

  newtype Word64 = x: int | -0x8000_0000_0000_0000 <= x < 0x8000_0000_0000_0000

  lemma ProductIsNoSmaller(b: int, q: int)
    requires b >= 1 && q >= 0
    ensures b * q >= q
  {}

  lemma QuotientIsNoLarger(a: int, b: int)
    requires a >= 0 && b >= 1
    ensures 0 <= a / b <= a
  {
    var q, r := a / b, a % b;
    assert a == b * q + r;
    ProductIsNoSmaller(b, if q >= 0 then q else 0);
  }

  function TruncDiv64(a: Word64, b: Word64): (q: Word64)
    requires b > 0 && a > -0x8000_0000_0000_0000
    ensures q as int == TruncDiv(a as int, b as int)
  {
    QuotientIsNoLarger(if a >= 0 then a as int else -(a as int), b as int);
    if a >= 0 then a / b else -((-a) / b)
  }

  /** civil_from_days in machine words: every intermediate fits an i64, for
      every day count that an i64 second count can produce. */
  function CivilFromDays64(days: Word64): (r: (Word64, Word64, Word64))
    requires -106_751_991_167_301 <= days <= 106_751_991_167_300
    ensures Date(r.0 as int, r.1 as int, r.2 as int) == CivilFromDays(days as int)
  {
    var (era, doe) := EraAndDay64(days);
    var (yoe, doy) := YearAndDay64(doe);
    var (m, d) := MonthAndDay64(doy);
    var y := yoe + era * 400;
    (if m <= 2 then y + 1 else y, m, d)
  }

  function EraAndDay64(days: Word64): (r: (Word64, Word64))
    requires -106_751_991_167_301 <= days <= 106_751_991_167_300
    ensures (r.0 as int, r.1 as int) == EraAndDay(days as int)
    ensures -800_000_000 <= r.0 <= 800_000_000 && 0 <= r.1 <= 146_096
  {
    EraSplits(days as int);
    var z := days + 719_468;
    var era := TruncDiv64(if z >= 0 then z else z - 146_096, 146_097);
    (era, z - era * 146_097)
  }

  function YearAndDay64(doe: Word64): (r: (Word64, Word64))
    requires 0 <= doe <= 146_096
    ensures (r.0 as int, r.1 as int) == YearAndDay(doe as int)
    ensures 0 <= r.0 <= 399 && 0 <= r.1 <= 365
  {
    YearSplits(doe as int);
    var yoe := YearOfEra64(doe);
    (yoe, doe - (365 * yoe + TruncDiv64(yoe, 4) - TruncDiv64(yoe, 100)))
  }

  function YearOfEra64(doe: Word64): (yoe: Word64)
    requires 0 <= doe <= 146_096
    ensures yoe as int == TruncDiv((doe as int) - TruncDiv(doe as int, 1_460) + TruncDiv(doe as int, 36_524)
                                   - TruncDiv(doe as int, 146_096), 365)
    ensures 0 <= yoe <= 400
  {
    TruncDiv64(doe - TruncDiv64(doe, 1_460) + TruncDiv64(doe, 36_524) - TruncDiv64(doe, 146_096), 365)
  }

  function MonthAndDay64(doy: Word64): (r: (Word64, Word64))
    requires 0 <= doy <= 365
    ensures (r.0 as int, r.1 as int) == MonthAndDay(doy as int)
  {
    var mp := TruncDiv64(5 * doy + 2, 153);
    (if mp < 10 then mp + 3 else mp - 9, doy - TruncDiv64(153 * mp + 2, 5) + 1)
  }

  lemma EverySecondHasADay(secs: Word64)
    ensures -106_751_991_167_301 <= secs as int / 86_400 <= 106_751_991_167_300
  {}
}
