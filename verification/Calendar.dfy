/** Days since the epoch to proleptic Gregorian dates, and the timestamps built from them (src/connectors.rs). */
module Calendar {

  datatype Date = Date(year: int, month: int, day: int)

  // ----- the calendar, independently of the code -----

  predicate IsLeap(y: int) { y % 4 == 0 && (y % 100 != 0 || y % 400 == 0) }

  function DaysInMonth(y: int, m: int): int
    requires 1 <= m <= 12
  {
    if m == 2 then (if IsLeap(y) then 29 else 28)
    else if m == 4 || m == 6 || m == 9 || m == 11 then 30
    else 31
  }

  predicate ValidDate(d: Date) { 1 <= d.month <= 12 && 1 <= d.day <= DaysInMonth(d.year, d.month) }

  // The day after.
  function Successor(d: Date): Date
    requires ValidDate(d)
  {
    if d.day < DaysInMonth(d.year, d.month) then Date(d.year, d.month, d.day + 1)
    else if d.month < 12 then Date(d.year, d.month + 1, 1)
    else Date(d.year + 1, 1, 1)
  }

  // Days of the months before m in year y.
  function DaysBeforeMonth(y: int, m: int): int
    requires 1 <= m <= 12
  {
    if m == 1 then 0 else DaysBeforeMonth(y, m - 1) + DaysInMonth(y, m - 1)
  }

  // Days from 0001-01-01 to the first day of year y; division rounds down.
  function DaysBeforeYear(y: int): int {
    365 * (y - 1) + (y - 1) / 4 - (y - 1) / 100 + (y - 1) / 400
  }

  const EPOCH_OFFSET: int := 719162

  // Days since 1970-01-01.
  function DayNumber(d: Date): int
    requires ValidDate(d)
  {
    DaysBeforeYear(d.year) + DaysBeforeMonth(d.year, d.month) + d.day - 1 - EPOCH_OFFSET
  }

  // ----- the code -----

  // Rust's division: it rounds toward zero.
  function TruncDiv(a: int, b: int): int
    requires b > 0
  {
    if a >= 0 then a / b else -((-a) / b)
  }

  function CivilFromDays(days: int): Date {
    var z := days + 719468;
    var era := TruncDiv(if z >= 0 then z else z - 146096, 146097);
    CivilInEra(era, z - era * 146097)
  }

  function CivilInEra(era: int, doe: int): Date {
    var yoe := TruncDiv(doe - TruncDiv(doe, 1460) + TruncDiv(doe, 36524) - TruncDiv(doe, 146096), 365);
    CivilInYear(yoe + era * 400, doe - (365 * yoe + TruncDiv(yoe, 4) - TruncDiv(yoe, 100)))
  }

  function CivilInYear(year: int, doy: int): Date {
    var mp := TruncDiv(5 * doy + 2, 153);
    var day := doy - TruncDiv(153 * mp + 2, 5) + 1;
    var month := mp + if mp < 10 then 3 else -9;
    Date(if month <= 2 then year + 1 else year, month, day)
  }

  // ----- eras -----

  lemma IntMulMono(a: int, b: int, m: int)
    requires a <= b && m >= 0
    ensures a * m <= b * m
  {
  }

  // Quotient and remainder are determined by what they have to satisfy.
  lemma DivModIs(n: int, q: int, r: int, m: int)
    requires 0 <= r < m && n == q * m + r
    ensures n / m == q && n % m == r
  {
    var x, y := n / m, n % m;
    assert n == x * m + y && 0 <= y < m;
    assert (x + 1) * m == x * m + m && (q + 1) * m == q * m + m;
    if x < q {
      IntMulMono(x + 1, q, m);
    } else if q < x {
      IntMulMono(q + 1, x, m);
    }
  }

  lemma EraIsFloor(z: int)
    ensures TruncDiv(if z >= 0 then z else z - 146096, 146097) == z / 146097
  {
  }

  // Years counted from March within an era of 400 years: the first day of year y.
  function YearStart(y: int): int { 365 * y + y / 4 - y / 100 }

  function YearOf(doe: int): int { (doe - doe / 1460 + doe / 36524 - doe / 146096) / 365 }

  lemma YearOfIsYear(c: int, q: int, r: int, d: int)
    requires 0 <= c < 4 && 0 <= q < 25 && 0 <= r < 4
    requires 0 <= d && d < 365 + (if r == 3 && (q < 24 || c == 3) then 1 else 0)
    ensures var y := 100 * c + 4 * q + r;
            var doe := 36524 * c + 1461 * q + 365 * r + d;
            0 <= doe < 146097 && YearStart(y) == 36524 * c + 1461 * q + 365 * r && YearOf(doe) == y
  {
    var y := 100 * c + 4 * q + r;
    var doe := 36524 * c + 1461 * q + 365 * r + d;
    assert y / 4 == 25 * c + q;
    assert y / 100 == c;
    assert doe / 36524 == if doe == 146096 then 4 else c;
    assert doe / 146096 == if doe == 146096 then 1 else 0;
    var g := doe - doe / 1460 + doe / 36524 - doe / 146096;
    assert 365 * y <= g < 365 * y + 365;
  }

  // A day of the era is a century, a run of four years, a year and a day within it.
  lemma SplitEra(doe: int) returns (c: int, q: int, r: int, d: int)
    requires 0 <= doe < 146097
    ensures 0 <= c < 4 && 0 <= q < 25 && 0 <= r < 4
    ensures 0 <= d && d < 365 + (if r == 3 && (q < 24 || c == 3) then 1 else 0)
    ensures doe == 36524 * c + 1461 * q + 365 * r + d
  {
    c := if doe == 146096 then 3 else doe / 36524;
    var x := doe - 36524 * c;
    q := x / 1461;
    var y := x - 1461 * q;
    r := if y == 1460 then 3 else y / 365;
    d := y - 365 * r;
  }

  // ----- months, counted from March -----

  function MonthStart(mp: int): int { (153 * mp + 2) / 5 }

  function MonthFromMarch(mp: int): int { if mp < 10 then mp + 3 else mp - 9 }

  // The length of a month counted from March, with the leap day in February.
  function MarchMonthLength(mp: int): int {
    if mp == 11 then 29 else if mp == 1 || mp == 3 || mp == 6 || mp == 8 then 30 else 31
  }

  lemma MonthOfDay(d: int)
    requires 0 <= d < 366
    ensures var mp := (5 * d + 2) / 153;
            && 0 <= mp < 12 && MonthStart(mp) <= d
            && d - MonthStart(mp) < MarchMonthLength(mp)
            && (mp == 11 && d - MonthStart(mp) == 28 <==> d == 365)
  {
  }

  lemma MonthTable(y: int)
    ensures DaysBeforeMonth(y, 1) == 0 && DaysBeforeMonth(y, 2) == 31
    ensures var l := if IsLeap(y) then 1 else 0;
            forall mp :: 0 <= mp < 10 ==> DaysBeforeMonth(y, mp + 3) == 59 + l + MonthStart(mp)
  {
    var l := if IsLeap(y) then 1 else 0;
    assert DaysBeforeMonth(y, 2) == 31;
    assert DaysBeforeMonth(y, 3) == 59 + l + MonthStart(0);
    assert DaysBeforeMonth(y, 4) == 59 + l + MonthStart(1);
    assert DaysBeforeMonth(y, 5) == 59 + l + MonthStart(2);
    assert DaysBeforeMonth(y, 6) == 59 + l + MonthStart(3);
    assert DaysBeforeMonth(y, 7) == 59 + l + MonthStart(4);
    assert DaysBeforeMonth(y, 8) == 59 + l + MonthStart(5);
    assert DaysBeforeMonth(y, 9) == 59 + l + MonthStart(6);
    assert DaysBeforeMonth(y, 10) == 59 + l + MonthStart(7);
    assert DaysBeforeMonth(y, 11) == 59 + l + MonthStart(8);
    assert DaysBeforeMonth(y, 12) == 59 + l + MonthStart(9);
  }

  // Days from 0001-01-01 to the first of March of year y.
  function MarchFirst(y: int): int { 365 * y + y / 4 - y / 100 + y / 400 - 306 }

  lemma QuotientSteps(y: int)
    ensures y / 4 == (y - 1) / 4 + (if y % 4 == 0 then 1 else 0)
    ensures y / 100 == (y - 1) / 100 + (if y % 100 == 0 then 1 else 0)
    ensures y / 400 == (y - 1) / 400 + (if y % 400 == 0 then 1 else 0)
  {
  }

  lemma Divisibility(y: int)
    ensures y % 400 == 0 ==> y % 100 == 0
    ensures y % 100 == 0 ==> y % 4 == 0
  {
  }

  lemma MarchAndJanuary(y: int)
    ensures DaysBeforeYear(y) + 59 + (if IsLeap(y) then 1 else 0) == MarchFirst(y)
    ensures DaysBeforeYear(y + 1) == MarchFirst(y) + 306
    ensures DaysBeforeYear(y + 1) == DaysBeforeYear(y) + 365 + (if IsLeap(y) then 1 else 0)
  {
    QuotientSteps(y);
    Divisibility(y);
  }

  lemma MarchOfEra(era: int, y: int)
    requires 0 <= y < 400
    ensures MarchFirst(400 * era + y) == 146097 * era + YearStart(y) - 306
  {
    DivModIs(400 * era + y, 100 * era + y / 4, y % 4, 4);
    DivModIs(400 * era + y, 4 * era + y / 100, y % 100, 100);
    DivModIs(400 * era + y, era, y, 400);
  }

  lemma LeapInEra(era: int, c: int, q: int, r: int)
    requires 0 <= c < 4 && 0 <= q < 25 && 0 <= r < 4
    ensures IsLeap(400 * era + 100 * c + 4 * q + r + 1) <==> r == 3 && (q < 24 || c == 3)
  {
    var y := 400 * era + 100 * c + 4 * q + r + 1;
    if r < 3 {
      DivModIs(y, 100 * era + 25 * c + q, r + 1, 4);
    } else {
      DivModIs(y, 100 * era + 25 * c + q + 1, 0, 4);
      if q < 24 {
        DivModIs(y, 4 * era + c, 4 * q + 4, 100);
      } else {
        DivModIs(y, 4 * era + c + 1, 0, 100);
        if c < 3 {
          DivModIs(y, era, 100 * c + 100, 400);
        } else {
          DivModIs(y, era + 1, 0, 400);
        }
      }
    }
  }

  // The date of day d of March-based year y of an era.
  function MarchDate(era: int, y: int, d: int): Date {
    var mp := (5 * d + 2) / 153;
    var month := MonthFromMarch(mp);
    Date(if month <= 2 then 400 * era + y + 1 else 400 * era + y, month, d - MonthStart(mp) + 1)
  }

  lemma CivilSplitsEra(days: int, era: int, doe: int)
    requires days + 719468 == 146097 * era + doe && 0 <= doe < 146097
    ensures CivilFromDays(days) == CivilInEra(era, doe)
  {
    EraIsFloor(days + 719468);
    DivModIs(days + 719468, era, doe, 146097);
  }

  lemma YearIsMarchDate(era: int, y: int, d: int)
    requires 0 <= d < 366
    ensures CivilInYear(y + era * 400, d) == MarchDate(era, y, d)
  {
    MonthOfDay(d);
  }

  lemma EraIsMarchDate(era: int, y: int, d: int)
    requires 0 <= y < 400 && 0 <= d < 366
    requires 0 <= YearStart(y) + d < 146097 && YearOf(YearStart(y) + d) == y
    ensures CivilInEra(era, YearStart(y) + d) == MarchDate(era, y, d)
  {
    YearNumerator(YearStart(y) + d);
    assert TruncDiv(y, 4) == y / 4 && TruncDiv(y, 100) == y / 100;
    YearIsMarchDate(era, y, d);
  }

  lemma CivilIsMarchDate(days: int, era: int, y: int, d: int)
    requires 0 <= y < 400 && 0 <= d < 366
    requires days + 719468 == 146097 * era + YearStart(y) + d
    requires 0 <= YearStart(y) + d < 146097 && YearOf(YearStart(y) + d) == y
    ensures CivilFromDays(days) == MarchDate(era, y, d)
  {
    CivilSplitsEra(days, era, YearStart(y) + d);
    EraIsMarchDate(era, y, d);
  }

  lemma YearNumerator(doe: int)
    requires 0 <= doe < 146097
    ensures TruncDiv(doe - TruncDiv(doe, 1460) + TruncDiv(doe, 36524) - TruncDiv(doe, 146096), 365) == YearOf(doe)
  {
    assert doe / 1460 <= doe;
    assert doe / 146096 <= doe / 36524;
  }

  lemma MarchDateIsDay(era: int, y: int, d: int)
    requires 0 <= y < 400 && 0 <= d < 366 && (d == 365 ==> IsLeap(400 * era + y + 1))
    ensures ValidDate(MarchDate(era, y, d))
    ensures DayNumber(MarchDate(era, y, d)) + 719468 == 146097 * era + YearStart(y) + d
  {
    MonthOfDay(d);
    MarchOfEra(era, y);
    MarchAndJanuary(400 * era + y);
    MonthTable(400 * era + y);
    MonthTable(400 * era + y + 1);
  }

  // ----- the results -----

  // The code computes a date, and it is the date whose day number it was given.
  lemma CivilIsInverse(days: int)
    ensures ValidDate(CivilFromDays(days)) && DayNumber(CivilFromDays(days)) == days
  {
    var z := days + 719468;
    var era, doe := z / 146097, z % 146097;
    var c, q, r, d := SplitEra(doe);
    var y := 100 * c + 4 * q + r;
    YearOfIsYear(c, q, r, d);
    LeapInEra(era, c, q, r);
    CivilIsMarchDate(days, era, y, d);
    MarchDateIsDay(era, y, d);
  }

  lemma YearsAscend(a: int, b: int)
    requires a <= b
    ensures DaysBeforeYear(a) <= DaysBeforeYear(b)
  {
    var x, y := a - 1, b - 1;
    assert y / 100 - x / 100 <= (y - x) / 100 + 1;
  }

  lemma {:induction false} MonthsAscend(y: int, m: int, n: int)
    requires 1 <= m < n <= 12
    ensures DaysBeforeMonth(y, m) + DaysInMonth(y, m) <= DaysBeforeMonth(y, n)
  {
    if m < n - 1 {
      MonthsAscend(y, m, n - 1);
    }
  }

  lemma InsideYear(d: Date)
    requires ValidDate(d)
    ensures DaysBeforeYear(d.year) <= DayNumber(d) + EPOCH_OFFSET < DaysBeforeYear(d.year + 1)
  {
    MonthTable(d.year);
    MarchAndJanuary(d.year);
    if 1 < d.month {
      MonthsAscend(d.year, 1, d.month);
    }
    if d.month < 12 {
      MonthsAscend(d.year, d.month, 12);
    }
    assert DaysBeforeMonth(d.year, 9 + 3) == 59 + (if IsLeap(d.year) then 1 else 0) + MonthStart(9);
  }

  predicate Earlier(a: Date, b: Date) {
    a.year < b.year || (a.year == b.year && (a.month < b.month || (a.month == b.month && a.day < b.day)))
  }

  lemma DayNumberAscends(a: Date, b: Date)
    requires ValidDate(a) && ValidDate(b) && Earlier(a, b)
    ensures DayNumber(a) < DayNumber(b)
  {
    if a.year < b.year {
      InsideYear(a);
      InsideYear(b);
      YearsAscend(a.year + 1, b.year);
    } else if a.month < b.month {
      MonthsAscend(a.year, a.month, b.month);
    }
  }

  // The other direction: every calendar date is found from its day number.
  lemma InverseIsCivil(d: Date, n: int)
    requires ValidDate(d) && DayNumber(d) == n
    ensures CivilFromDays(n) == d
  {
    CivilIsInverse(n);
    SameDaySameDate(CivilFromDays(n), d);
  }

  lemma SameDaySameDate(a: Date, b: Date)
    requires ValidDate(a) && ValidDate(b) && DayNumber(a) == DayNumber(b)
    ensures a == b
  {
    if Earlier(a, b) {
      DayNumberAscends(a, b);
    } else if Earlier(b, a) {
      DayNumberAscends(b, a);
    }
  }

  lemma SuccessorCounts(d: Date)
    requires ValidDate(d)
    ensures ValidDate(Successor(d)) && DayNumber(Successor(d)) == DayNumber(d) + 1
  {
    MarchAndJanuary(d.year);
    MonthTable(d.year);
    assert DaysBeforeMonth(d.year, 9 + 3) == 59 + (if IsLeap(d.year) then 1 else 0) + MonthStart(9);
  }

  lemma NextDay(d: Date, days: int)
    requires ValidDate(d) && DayNumber(d) == days
    ensures CivilFromDays(days + 1) == Successor(d)
  {
    SuccessorCounts(d);
    InverseIsCivil(Successor(d), days + 1);
  }

  lemma EpochIsDayZero()
    ensures CivilFromDays(0) == Date(1970, 1, 1)
  {
    assert DayNumber(Date(1970, 1, 1)) == 0;
    InverseIsCivil(Date(1970, 1, 1), 0);
  }

  // Day 0 is the first of January 1970 and each next day is the calendar's successor.
  lemma CivilFollowsCalendar(days: int)
    ensures CivilFromDays(0) == Date(1970, 1, 1)
    ensures ValidDate(CivilFromDays(days)) && CivilFromDays(days + 1) == Successor(CivilFromDays(days))
  {
    EpochIsDayZero();
    CivilIsInverse(days);
    NextDay(CivilFromDays(days), days);
  }

  lemma CivilAscends(a: int, b: int)
    requires a < b
    ensures Earlier(CivilFromDays(a), CivilFromDays(b))
  {
    CivilIsInverse(a);
    CivilIsInverse(b);
    LaterIsLater(CivilFromDays(a), CivilFromDays(b));
  }

  lemma LaterIsLater(a: Date, b: Date)
    requires ValidDate(a) && ValidDate(b) && DayNumber(a) < DayNumber(b)
    ensures Earlier(a, b)
  {
    if Earlier(b, a) {
      DayNumberAscends(b, a);
    }
  }
}
