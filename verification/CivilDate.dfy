/** Calendar arithmetic of crates/red-core/src/doc.rs: `civil_from_days` and `iso8601_utc`. */
module CivilDate {
  import opened Wrappers

  datatype Date = Date(year: int, month: int, day: int)

  /** Rust's `/` on `i64`: toward zero. */
  function Trunc(a: int, b: int): int
    requires b > 0
  {
    if a >= 0 then a / b else -(-a / b)
  }

  function Era(z: int): int {
    Trunc(if z >= 0 then z else z - 146_096, 146_097)
  }

  function YearOfEra(doe: int): int {
    (doe - doe / 1460 + doe / 36_524 - doe / 146_096) / 365
  }

  /** Days from the start of an era to the first of March of its year `yoe`. */
  function YearStart(yoe: int): int {
    365 * yoe + yoe / 4 - yoe / 100
  }

  /** Days from the first of March to the first of the month `mp` months later. */
  function MonthStart(mp: int): int {
    (153 * mp + 2) / 5
  }

  /** The calendar date `days` days after 1970-01-01. */
  function CivilFromDays(days: int): (r: Date) {
    var z := days + 719_468;
    var era := Era(z);
    var doe := z - era * 146_097;
    var yoe := YearOfEra(doe);
    var y := yoe + era * 400;
    var doy := doe - YearStart(yoe);
    var mp := (5 * doy + 2) / 153;
    var d := doy - MonthStart(mp) + 1;
    var m := if mp < 10 then mp + 3 else mp - 9;
    Date(if m <= 2 then y + 1 else y, m, d)
  }

  // ----- the Gregorian calendar -----

  predicate Leap(y: int) {
    y % 4 == 0 && (y % 100 != 0 || y % 400 == 0)
  }

  function MonthLength(y: int, m: int): int {
    if m == 2 then (if Leap(y) then 29 else 28)
    else if m == 4 || m == 6 || m == 9 || m == 11 then 30
    else 31
  }

  predicate IsDate(d: Date) {
    1 <= d.month <= 12 && 1 <= d.day <= MonthLength(d.year, d.month)
  }

  /** Days from 0001-01-01 to the first of January of `y`. */
  function DaysBeforeYear(y: int): int {
    365 * (y - 1) + (y - 1) / 4 - (y - 1) / 100 + (y - 1) / 400
  }

  function DaysBeforeMonth(y: int, m: int): int
    requires 1 <= m <= 12
  {
    if m == 1 then 0 else DaysBeforeMonth(y, m - 1) + MonthLength(y, m - 1)
  }

  /** The Gregorian day count, 1970-01-01 being day 0. */
  function DayCount(d: Date): int
    requires 1 <= d.month <= 12
  {
    DaysBeforeYear(d.year) + DaysBeforeMonth(d.year, d.month) + d.day - 1 - 719_162
  }

  predicate Before(a: Date, b: Date) {
    a.year < b.year || (a.year == b.year && (a.month < b.month || (a.month == b.month && a.day < b.day)))
  }

  /** A year has 365 days, one more when it is leap. */
  lemma YearLength(y: int)
    ensures DaysBeforeYear(y + 1) - DaysBeforeYear(y) == if Leap(y) then 366 else 365
    ensures DaysBeforeMonth(y, 12) + 31 == if Leap(y) then 366 else 365
  {
    LeapByQuotients(y);
    MonthsOf(y);
  }

  lemma LeapByQuotients(y: int)
    ensures y / 4 - (y - 1) / 4 == (if y % 4 == 0 then 1 else 0)
    ensures y / 100 - (y - 1) / 100 == (if y % 100 == 0 then 1 else 0)
    ensures y / 400 - (y - 1) / 400 == (if y % 400 == 0 then 1 else 0)
    ensures y % 400 == 0 ==> y % 100 == 0
    ensures y % 100 == 0 ==> y % 4 == 0
  {
  }

  lemma MonthsOf(y: int)
    ensures var l := if Leap(y) then 1 else 0;
            && DaysBeforeMonth(y, 1) == 0 && DaysBeforeMonth(y, 2) == 31 && DaysBeforeMonth(y, 3) == 59 + l
            && DaysBeforeMonth(y, 4) == 90 + l && DaysBeforeMonth(y, 5) == 120 + l && DaysBeforeMonth(y, 6) == 151 + l
            && DaysBeforeMonth(y, 7) == 181 + l && DaysBeforeMonth(y, 8) == 212 + l && DaysBeforeMonth(y, 9) == 243 + l
            && DaysBeforeMonth(y, 10) == 273 + l && DaysBeforeMonth(y, 11) == 304 + l && DaysBeforeMonth(y, 12) == 334 + l
  {
    hide Leap;
    var l := if Leap(y) then 1 else 0;
    assert DaysBeforeMonth(y, 1) == 0 && DaysBeforeMonth(y, 2) == 31;
    assert DaysBeforeMonth(y, 3) == 59 + l && DaysBeforeMonth(y, 4) == 90 + l;
    assert DaysBeforeMonth(y, 5) == 120 + l && DaysBeforeMonth(y, 6) == 151 + l;
    assert DaysBeforeMonth(y, 7) == 181 + l && DaysBeforeMonth(y, 8) == 212 + l;
    assert DaysBeforeMonth(y, 9) == 243 + l && DaysBeforeMonth(y, 10) == 273 + l;
    assert DaysBeforeMonth(y, 11) == 304 + l;
  }

  // ----- the year inside an era -----

  lemma EraBounds(z: int)
    ensures 0 <= z - Era(z) * 146_097 <= 146_096
  {
  }

  /** Inside a four-year cycle. */
  lemma CycleYear(f: int, s: int, u: int)
    requires 0 <= s <= 1460 && 0 <= f && (u == 0 || u == 1) && (u == 1 ==> s >= 1100) && (s == 1460 ==> u == 1)
    ensures var y := (1460 * f + s - u) / 365;
            365 * y + y / 4 <= 1461 * f + s < 365 * (y + 1) + (y + 1) / 4 && 4 * f <= y < 4 * f + 4
  {
    var y := (1460 * f + s - u) / 365;
    assert y == 4 * f + (s - u) / 365;
    assert y / 4 == f;
  }

  /** Inside a century. */
  lemma CenturyYear(r: int, c: int)
    requires 0 <= r < 36_524 && 0 <= c <= 3
    ensures var y := (r - (r + 24 * c) / 1460) / 365;
            365 * y + y / 4 <= r < 365 * (y + 1) + (y + 1) / 4 && 0 <= y < 100
  {
    var f, s := r / 1461, r % 1461;
    var u := (f + s + 24 * c) / 1460;
    assert 0 <= f <= 24;
    assert (r + 24 * c) / 1460 == f + u;
    assert u == 0 || u == 1;
    CycleYear(f, s, u);
  }

  lemma CenturySplit(doe: int, c: int, r: int)
    requires doe == 36_524 * c + r && 0 <= r < 36_524 && 0 <= c <= 3
    ensures YearOfEra(doe) == 100 * c + (r - (r + 24 * c) / 1460) / 365
  {
    assert doe / 36_524 == c;
    assert doe / 146_096 == 0;
    assert doe / 1460 == 25 * c + (r + 24 * c) / 1460;
  }

  /** The year found starts on or before the day, and the next one after it. */
  lemma YearOfEraIsRight(doe: int)
    requires 0 <= doe <= 146_096
    ensures var yoe := YearOfEra(doe);
            && 0 <= yoe <= 399 && YearStart(yoe) <= doe
            && doe < (if yoe == 399 then 146_097 else YearStart(yoe + 1))
  {
    if doe == 146_096 {
      assert YearOfEra(doe) == 399;
    } else {
      var c, r := doe / 36_524, doe % 36_524;
      CenturySplit(doe, c, r);
      CenturyYear(r, c);
      var y := (r - (r + 24 * c) / 1460) / 365;
      assert (100 * c + y) / 4 == 25 * c + y / 4;
      assert (100 * c + y) / 100 == c;
      assert (100 * c + y + 1) / 4 == 25 * c + (y + 1) / 4;
      assert (100 * c + y + 1) / 100 == if y == 99 then c + 1 else c;
    }
  }

  // ----- the month inside a year -----

  lemma MonthOfYear(doy: int)
    requires 0 <= doy <= 365
    ensures var mp := (5 * doy + 2) / 153;
            0 <= mp <= 11 && MonthStart(mp) <= doy && (mp < 11 ==> doy < MonthStart(mp + 1))
  {
  }

  lemma MonthStarts()
    ensures MonthStart(0) == 0 && MonthStart(1) == 31 && MonthStart(2) == 61 && MonthStart(3) == 92
    ensures MonthStart(4) == 122 && MonthStart(5) == 153 && MonthStart(6) == 184 && MonthStart(7) == 214
    ensures MonthStart(8) == 245 && MonthStart(9) == 275 && MonthStart(10) == 306 && MonthStart(11) == 337
  {
  }

  /** Days from 1970-01-01 to the first of March of `y`. */
  function MarchFirst(y: int): int {
    365 * y + y / 4 - y / 100 + y / 400 - 719_468
  }

  lemma MarchFirstCounts(y: int)
    ensures DayCount(Date(y, 3, 1)) == MarchFirst(y)
  {
    LeapByQuotients(y);
    MonthsOf(y);
  }

  lemma MarchFirstOfEra(era: int, yoe: int)
    requires 0 <= yoe <= 399
    ensures MarchFirst(yoe + era * 400) == era * 146_097 + YearStart(yoe) - 719_468
  {
    assert (yoe + era * 400) / 4 == yoe / 4 + 100 * era;
    assert (yoe + era * 400) / 100 == yoe / 100 + 4 * era;
    assert (yoe + era * 400) / 400 == era;
  }

  /** The month `mp` months after March, of the year that starts in March `y`. */
  function MarchDate(y: int, mp: int, d: int): Date {
    var m := if mp < 10 then mp + 3 else mp - 9;
    Date(if m <= 2 then y + 1 else y, m, d)
  }

  lemma MarchMonthCounts(y: int, mp: int)
    requires 0 <= mp <= 11
    ensures DayCount(MarchDate(y, mp, 1)) == MarchFirst(y) + MonthStart(mp)
    ensures mp < 11 ==> MonthLength(MarchDate(y, mp, 1).year, MarchDate(y, mp, 1).month) == MonthStart(mp + 1) - MonthStart(mp)
    ensures mp == 11 ==> MonthLength(MarchDate(y, mp, 1).year, MarchDate(y, mp, 1).month) == MarchFirst(y + 1) - MarchFirst(y) - MonthStart(mp)
  {
    hide Leap;
    MarchFirstCounts(y);
    MarchFirstCounts(y + 1);
    MonthsOf(y);
    MonthsOf(y + 1);
    YearLength(y);
    MonthStarts();
  }

  // ----- correctness -----

  /** The day of the year found lies inside that year. */
  lemma DayOfYearBounds(era: int, doe: int)
    requires 0 <= doe <= 146_096
    ensures var yoe := YearOfEra(doe);
            var y := yoe + era * 400;
            && 0 <= doe - YearStart(yoe) <= 365
            && MarchFirst(y) == era * 146_097 + YearStart(yoe) - 719_468
            && doe - YearStart(yoe) < MarchFirst(y + 1) - MarchFirst(y)
  {
    var yoe := YearOfEra(doe);
    hide YearOfEra;
    YearOfEraIsRight(doe);
    MarchFirstOfEra(era, yoe);
    if yoe == 399 {
      MarchFirstOfEra(era + 1, 0);
    } else {
      MarchFirstOfEra(era, yoe + 1);
    }
  }

  lemma DayInMonth(y: int, doy: int)
    requires 0 <= doy <= 365 && doy < MarchFirst(y + 1) - MarchFirst(y)
    ensures var mp := (5 * doy + 2) / 153;
            var date := MarchDate(y, mp, doy - MonthStart(mp) + 1);
            IsDate(date) && DayCount(date) == MarchFirst(y) + doy
  {
    hide MarchFirst, MonthLength, DaysBeforeYear, DaysBeforeMonth;
    var mp := (5 * doy + 2) / 153;
    MonthOfYear(doy);
    MarchMonthCounts(y, mp);
  }

  /** `civil_from_days` yields a valid date, and the one that many days after 1970-01-01. */
  lemma CivilIsTheDate(days: int)
    ensures IsDate(CivilFromDays(days))
    ensures DayCount(CivilFromDays(days)) == days
  {
    hide Era, YearOfEra, YearStart, MarchFirst, MonthStart, IsDate, DayCount;
    var z := days + 719_468;
    var era := Era(z);
    var doe := z - era * 146_097;
    var yoe := YearOfEra(doe);
    EraBounds(z);
    DayOfYearBounds(era, doe);
    DayInMonth(yoe + era * 400, doe - YearStart(yoe));
  }

  lemma {:induction false} YearsAscend(y: int, n: nat)
    ensures DaysBeforeYear(y) + 365 * n <= DaysBeforeYear(y + n)
    decreases n
  {
    if n > 0 {
      YearsAscend(y, n - 1);
      YearLength(y + n - 1);
    }
  }

  lemma {:induction false} MonthsAscend(y: int, m: int, n: int)
    requires 1 <= m < n <= 12
    ensures DaysBeforeMonth(y, m) + MonthLength(y, m) <= DaysBeforeMonth(y, n)
    decreases n
  {
    if m < n - 1 {
      MonthsAscend(y, m, n - 1);
    }
  }

  lemma DayOfYear(d: Date)
    requires IsDate(d)
    ensures 0 <= DaysBeforeMonth(d.year, d.month) + d.day - 1 < (if Leap(d.year) then 366 else 365)
  {
    if d.month > 1 {
      MonthsAscend(d.year, 1, d.month);
    }
    if d.month < 12 {
      MonthsAscend(d.year, d.month, 12);
    }
    MonthsOf(d.year);
  }

  /** Later dates have larger day counts. */
  lemma DayCountAscends(a: Date, b: Date)
    requires IsDate(a) && IsDate(b) && Before(a, b)
    ensures DayCount(a) < DayCount(b)
  {
    hide DaysBeforeYear, DaysBeforeMonth, Leap;
    if a.year < b.year {
      DayOfYear(a);
      DayOfYear(b);
      YearLength(a.year);
      YearsAscend(a.year + 1, b.year - a.year - 1);
    } else if a.month < b.month {
      MonthsAscend(a.year, a.month, b.month);
    }
  }

  /** The inverse: every valid date is the one found for its day count. */
  lemma CivilInvertsDayCount(d: Date)
    requires IsDate(d)
    ensures CivilFromDays(DayCount(d)) == d
  {
    hide CivilFromDays, DayCount, MonthLength;
    var e := CivilFromDays(DayCount(d));
    CivilIsTheDate(DayCount(d));
    if Before(d, e) {
      DayCountAscends(d, e);
      assert false;
    }
    if Before(e, d) {
      DayCountAscends(e, d);
      assert false;
    }
  }

  /** `civil_from_days` is strictly monotone. */
  lemma CivilAscends(x: int, y: int)
    requires x < y
    ensures Before(CivilFromDays(x), CivilFromDays(y))
  {
    hide CivilFromDays, DayCount, MonthLength;
    var a, b := CivilFromDays(x), CivilFromDays(y);
    CivilIsTheDate(x);
    CivilIsTheDate(y);
    if Before(b, a) {
      DayCountAscends(b, a);
      assert false;
    }
  }

  // ----- overflow -----

  predicate I64(n: int) {
    -0x8000_0000_0000_0000 <= n < 0x8000_0000_0000_0000
  }

  /** Every intermediate value of the computation, in the order it is computed. */
  function Intermediates(z: int, era: int, doe: int, yoe: int): seq<int> {
    var y := yoe + era * 400;
    var doy := doe - YearStart(yoe);
    var mp := (5 * doy + 2) / 153;
    [z, z - 146_096, era, era * 146_097, doe, doe - doe / 1460, doe - doe / 1460 + doe / 36_524, 365 * yoe,
     365 * yoe + yoe / 4, YearStart(yoe), yoe, era * 400, y, y + 1, doy, 5 * doy + 2, mp, 153 * mp + 2, mp + 3, mp - 9]
  }

  lemma WideIntermediates(z: int, era: int, doe: int, yoe: int)
    requires I64(z) && I64(z - 146_096) && doe == z - era * 146_097
    requires 0 <= doe <= 146_096 && 0 <= yoe <= 399 && 0 <= doe - YearStart(yoe) <= 365
    ensures forall n <- Intermediates(z, era, doe, yoe) :: I64(n)
  {
    var mp := (5 * (doe - YearStart(yoe)) + 2) / 153;
    assert 0 <= mp <= 11;
    assert z - 146_096 <= era * 146_097 <= z;
    assert -0x100_0000_0000_0000 < era * 400 < 0x100_0000_0000_0000;
  }

  const LAST_DAY: int := 0x7FFF_FFFF_FFFF_FFFF - 719_468

  /** For an `i64` day count no step overflows, exactly up to the last day that the shift of the epoch leaves room for. */
  lemma CivilOverflowsExactly(days: int)
    requires I64(days)
    ensures var z := days + 719_468;
            var doe := z - Era(z) * 146_097;
            (forall n <- Intermediates(z, Era(z), doe, YearOfEra(doe)) :: I64(n)) <==> days <= LAST_DAY
  {
    hide Era, YearOfEra, YearStart, MarchFirst;
    var z := days + 719_468;
    var doe := z - Era(z) * 146_097;
    var all := Intermediates(z, Era(z), doe, YearOfEra(doe));
    assert all[0] == z && z in all;
    if days <= LAST_DAY {
      EraBounds(z);
      YearOfEraIsRight(doe);
      DayOfYearBounds(0, doe);
      WideIntermediates(z, Era(z), doe, YearOfEra(doe));
    }
  }

  /** No step overflows for any `i64` count of milliseconds. */
  lemma CivilNeverOverflows(ms: int)
    requires I64(ms)
    ensures var z := ms / 86_400_000 + 719_468;
            var doe := z - Era(z) * 146_097;
            forall n <- Intermediates(z, Era(z), doe, YearOfEra(doe)) :: I64(n)
  {
    hide Era, YearOfEra, Intermediates;
    CivilOverflowsExactly(ms / 86_400_000);
  }
}
