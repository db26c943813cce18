/**
 * The proleptic Gregorian calendar over day numbers counted from 1970-01-01,
 * as far as Carbon's `startOfMonth()->diffInMonths(...)` needs it: which
 * month a day falls in, and on which day each month begins.
 *
 * Months are numbered `year * 12 + month - 1`. Internally years are counted
 * from 1 March, so that the leap day closes its year: the 400-year cycle
 * (an era) has 146097 days, and 1 March of year 0 is 719468 days before
 * 1970-01-01.
 */
module Calendar {
  import opened Common

  const DaysPerEra: int := 146097
  const EpochShift: int := 719468

  /** Days from 1 March of year 0 to 1 March of year `y`. */
  function MarchYearStart(y: int): int
  {
    365 * y + y / 4 - y / 100 + y / 400
  }

  /** The year of its era that the era's day `z` falls in (civil-from-days). */
  function YearOfEra(z: int): int
  {
    (z - z / 1460 + z / 36524 - z / 146096) / 365
  }

  /** Days before the `i`-th month of a March-based year begins (March is 0). */
  function MonthOffset(i: int): int
  {
    (153 * i + 2) / 5
  }

  /** The day on which month `m` begins. */
  function FirstDayOfMonth(m: int): int
  {
    MarchYearStart((m - 2) / 12) + MonthOffset((m - 2) % 12) - EpochShift
  }

  /** The month `day` falls in (civil-from-days). */
  function MonthIndex(day: int): int
  {
    MonthOfMarchDay(day + EpochShift)
  }

  /**
   * The month of day `z` counted from 1 March of year 0. The calendar repeats
   * every era (146097 days, 4800 months); within an era the March-based year
   * follows from the day, and the month from the day of that year.
   */
  function MonthOfMarchDay(z: int): int
    decreases z < 0, if z < 0 then -z else z
  {
    if z < 0 then MonthOfMarchDay(z + DaysPerEra) - 4800
    else if z < DaysPerEra then
      var y := YearOfEra(z);
      12 * y + (5 * (z - MarchYearStart(y)) + 2) / 153 + 2
    else MonthOfMarchDay(z - DaysPerEra) + 4800
  }

  // ---------------------------------------------------------------------------
  // Division by a constant
  // ---------------------------------------------------------------------------

  /** A multiple of a positive `d` by a non-zero whole number is at least `d` away from 0. */
  lemma MultipleAwayFromZero(d: int, x: int)
    requires d > 0
    ensures x >= 1 ==> d * x >= d
    ensures x <= -1 ==> d * x <= -d
  {
  }

  /** `q` is the quotient of `n` by `d` when `n` lies in `q`'s block of `d`. */
  lemma DivIs(n: int, d: int, q: int)
    requires d > 0 && d * q <= n < d * q + d
    ensures n / d == q
  {
    var x := n / d - q;
    assert d * x == (n - d * q) - n % d;
    MultipleAwayFromZero(d, x);
  }

  // ---------------------------------------------------------------------------
  // Years
  // ---------------------------------------------------------------------------

  /** Four years make 1461 days, a century 36524, an era 146097. */
  lemma YearStartInCentury(y: int, b: int, k: int, j: int)
    requires 0 <= b <= 3 && 0 <= k <= 24 && 0 <= j <= 3 && y == 100 * b + 4 * k + j
    ensures MarchYearStart(y) == 36524 * b + 1461 * k + 365 * j
  {
    DivIs(y, 4, 25 * b + k);
    DivIs(y, 100, b);
    DivIs(y, 400, 0);
  }

  /** The fourth century of an era has the era's one extra leap day. */
  lemma YearStartOfCentury(c: int)
    requires 1 <= c <= 4
    ensures MarchYearStart(100 * c) == 36524 * c + (if c == 4 then 1 else 0)
  {
    DivIs(100 * c, 4, 25 * c);
    DivIs(100 * c, 100, c);
    DivIs(100 * c, 400, if c == 4 then 1 else 0);
  }

  /** 1 if day `u` of the `k`-th leap cycle of century `b` reaches the next 1460-day block. */
  function Carry(b: int, k: int, u: int): int
  {
    if u >= 1460 - 24 * b - k then 1 else 0
  }

  lemma YearOfEraNumerator(b: int, k: int, u: int)
    requires 0 <= b <= 3 && 0 <= k <= 24 && 0 <= u < 1461 && (k == 24 ==> u < 1460)
    ensures var z := 36524 * b + 1461 * k + u;
      z - z / 1460 + z / 36524 - z / 146096 == 36500 * b + 1460 * k + u - Carry(b, k, u)
  {
    var z := 36524 * b + 1461 * k + u;
    DivIs(z, 1460, 25 * b + k + Carry(b, k, u));
    DivIs(z, 36524, b);
    DivIs(z, 146096, 0);
  }

  /** Day `u` of leap cycle `k` of century `b` lies in year `100b + 4k + j` of the era. */
  lemma YearOfCenturyDay(b: int, k: int, u: int)
    requires 0 <= b <= 3 && 0 <= k <= 24 && 0 <= u < 1461 && (k == 24 ==> u < 1460)
    ensures var j := if u < 1095 then u / 365 else 3;
      YearOfEra(36524 * b + 1461 * k + u) == 100 * b + 4 * k + j
  {
    var j := if u < 1095 then u / 365 else 3;
    YearOfEraNumerator(b, k, u);
    DivIs(36500 * b + 1460 * k + u - Carry(b, k, u), 365, 100 * b + 4 * k + j);
  }

  /** The start of the year after year `100b + 4k + j` of an era. */
  lemma NextYearStart(y: int, b: int, k: int, j: int) returns (next: int)
    requires 0 <= b <= 3 && 0 <= k <= 24 && 0 <= j <= 3 && y == 100 * b + 4 * k + j
    ensures next == MarchYearStart(y + 1)
    ensures next == if j < 3 then 36524 * b + 1461 * k + 365 * (j + 1)
      else if k < 24 then 36524 * b + 1461 * (k + 1)
      else 36524 * (b + 1) + (if b == 3 then 1 else 0)
  {
    if j < 3 {
      YearStartInCentury(y + 1, b, k, j + 1);
    } else if k < 24 {
      YearStartInCentury(y + 1, b, k + 1, 0);
    } else {
      YearStartOfCentury(b + 1);
    }
    next := MarchYearStart(y + 1);
  }

  lemma YearOfEraInCentury(z: int, b: int, k: int, u: int)
    requires 0 <= b <= 3 && 0 <= k <= 24 && 0 <= u < 1461 && (k == 24 ==> u < 1460)
    requires z == 36524 * b + 1461 * k + u
    ensures 0 <= YearOfEra(z) < 400
    ensures MarchYearStart(YearOfEra(z)) <= z < MarchYearStart(YearOfEra(z) + 1)
  {
    YearOfCenturyDay(b, k, u);
    var j := if u < 1095 then u / 365 else 3;
    var y := 100 * b + 4 * k + j;
    assert YearOfEra(z) == y;
    YearStartInCentury(y, b, k, j);
    var next := NextYearStart(y, b, k, j);
    assert MarchYearStart(y) <= z < next;
  }

  /** Splits a day of an era, other than its last, into century, leap cycle and day. */
  lemma CenturyDay(z: int) returns (b: int, k: int, u: int)
    requires 0 <= z < DaysPerEra - 1
    ensures 0 <= b <= 3 && 0 <= k <= 24 && 0 <= u < 1461 && (k == 24 ==> u < 1460)
    ensures z == 36524 * b + 1461 * k + u
  {
    b := z / 36524;
    var w := z % 36524;
    k := w / 1461;
    u := w % 1461;
  }

  /** The last day of an era, the extra leap day, closes year 399. */
  lemma LastDayOfEra()
    ensures YearOfEra(DaysPerEra - 1) == 399
    ensures MarchYearStart(399) <= DaysPerEra - 1 < MarchYearStart(400)
  {
    DivIs(146096, 1460, 100);
    DivIs(146096, 36524, 4);
    DivIs(146096, 146096, 1);
    DivIs(145999, 365, 399);
    YearStartInCentury(399, 3, 24, 3);
    YearStartOfCentury(4);
  }

  lemma YearOfEraBracket(z: int)
    requires 0 <= z < DaysPerEra
    ensures 0 <= YearOfEra(z) < 400
    ensures MarchYearStart(YearOfEra(z)) <= z < MarchYearStart(YearOfEra(z) + 1)
  {
    if z == DaysPerEra - 1 {
      LastDayOfEra();
    } else {
      var b, k, u := CenturyDay(z);
      YearOfEraInCentury(z, b, k, u);
    }
  }

  /** The calendar repeats every 400 years. */
  lemma EraShift(n: int, era: int, y: int)
    requires n == 400 * era + y
    ensures MarchYearStart(n) == DaysPerEra * era + MarchYearStart(y)
  {
    DivIs(n, 4, 100 * era + y / 4);
    DivIs(n, 100, 4 * era + y / 100);
    DivIs(n, 400, era + y / 400);
  }

  /** A March-based year has 365 days, or 366 when the February that closes it has a leap day. */
  lemma YearLength(y: int)
    ensures 365 <= MarchYearStart(y + 1) - MarchYearStart(y) <= 366
  {
    var era := y / 400;
    var r := y % 400;
    EraShift(y, era, r);
    EraShift(y + 1, era, r + 1);
    YearLengthInEra(r);
  }

  lemma YearLengthInEra(r: int)
    requires 0 <= r < 400
    ensures 365 <= MarchYearStart(r + 1) - MarchYearStart(r) <= 366
  {
    var b, k, j := CenturyYear(r);
    YearStartInCentury(r, b, k, j);
    var next := NextYearStart(r, b, k, j);
  }

  /** Splits a year of an era into century, leap cycle and year. */
  lemma CenturyYear(r: int) returns (b: int, k: int, j: int)
    requires 0 <= r < 400
    ensures 0 <= b <= 3 && 0 <= k <= 24 && 0 <= j <= 3 && r == 100 * b + 4 * k + j
  {
    b := r / 100;
    k := (r % 100) / 4;
    j := r % 4;
  }

  // ---------------------------------------------------------------------------
  // Months
  // ---------------------------------------------------------------------------

  /** Day `doy` of a March-based year lies in its month `(5 doy + 2) / 153`. */
  lemma MonthOfYear(doy: int, len: int)
    requires 0 <= doy < len <= 366
    ensures var i := (5 * doy + 2) / 153;
      && 0 <= i < 12
      && MonthOffset(i) <= doy
      && (i < 11 ==> doy < MonthOffset(i + 1))
  {
    var i := (5 * doy + 2) / 153;
    DivIs(153 * i + 2, 5, MonthOffset(i));
    DivIs(153 * (i + 1) + 2, 5, MonthOffset(i + 1));
  }

  /** Month `12y + i + 2` begins `i` months into March-based year `y`, and the next one after it. */
  lemma MonthNumbering(m: int, y: int, i: int)
    requires 0 <= i < 12 && m == 12 * y + i + 2
    ensures FirstDayOfMonth(m) == MarchYearStart(y) + MonthOffset(i) - EpochShift
    ensures FirstDayOfMonth(m + 1) ==
      if i < 11 then MarchYearStart(y) + MonthOffset(i + 1) - EpochShift else MarchYearStart(y + 1) - EpochShift
  {
    DivIs(m - 2, 12, y);
    if i < 11 {
      DivIs(m - 1, 12, y);
    } else {
      DivIs(m - 1, 12, y + 1);
    }
  }

  /** Splits a month number into its March-based year and month of that year. */
  lemma YearAndMonth(m: int) returns (y: int, i: int)
    ensures 0 <= i < 12 && m == 12 * y + i + 2
  {
    y := (m - 2) / 12;
    i := (m - 2) % 12;
  }

  /** A month has 28 to 31 days. */
  lemma MonthLength(m: int)
    ensures 28 <= FirstDayOfMonth(m + 1) - FirstDayOfMonth(m) <= 31
  {
    var y, i := YearAndMonth(m);
    MonthNumbering(m, y, i);
    YearLength(y);
  }

  /** Later months begin later. */
  lemma {:induction false} FirstDayOfMonthMonotone(a: int, b: int)
    requires a <= b
    ensures FirstDayOfMonth(a) + 28 * (b - a) <= FirstDayOfMonth(b)
    decreases b - a
  {
    if a < b {
      FirstDayOfMonthMonotone(a, b - 1);
      MonthLength(b - 1);
    }
  }

  /** Months 4800 apart begin an era apart. */
  lemma FirstDayOfMonthEra(m: int, n: int, eras: int)
    requires n == m + 4800 * eras
    ensures FirstDayOfMonth(n) == FirstDayOfMonth(m) + DaysPerEra * eras
  {
    var y, i := YearAndMonth(m);
    MonthNumbering(m, y, i);
    MonthNumbering(n, y + 400 * eras, i);
    EraShift(y + 400 * eras, eras, y);
  }

  /** The month a day falls in is the one whose first day is the last on or before it. */
  lemma MonthIndexBracket(day: int)
    ensures FirstDayOfMonth(MonthIndex(day)) <= day < FirstDayOfMonth(MonthIndex(day) + 1)
  {
    var r, eras, m := MarchDayEras(day + EpochShift);
    EraBracketShift(day, r, eras, m, MonthIndex(day));
  }

  /** A day and its month, moved by whole eras, stay a day and its month. */
  lemma EraBracketShift(day: int, r: int, eras: int, m: int, n: int)
    requires day + EpochShift == DaysPerEra * eras + r && n == m + 4800 * eras
    requires FirstDayOfMonth(m) + EpochShift <= r < FirstDayOfMonth(m + 1) + EpochShift
    ensures FirstDayOfMonth(n) <= day < FirstDayOfMonth(n + 1)
  {
    FirstDayOfMonthEra(m, n, eras);
    FirstDayOfMonthEra(m + 1, n + 1, eras);
  }

  /**
   * Day `z` is day `r` of its era, `eras` eras after 1 March of year 0, and
   * its month is `eras` eras after the month `m` that day `r` falls in.
   */
  lemma MarchDayEras(z: int) returns (r: int, eras: int, m: int)
    ensures z == DaysPerEra * eras + r && MonthOfMarchDay(z) == m + 4800 * eras
    ensures FirstDayOfMonth(m) + EpochShift <= r < FirstDayOfMonth(m + 1) + EpochShift
  {
    r, eras := z % DaysPerEra, z / DaysPerEra;
    MonthOfMarchDayEras(z, r, eras);
    m := EraMonthBracket(r);
  }

  /** Days whole eras apart are in months whole eras apart. */
  lemma {:induction false} MonthOfMarchDayEras(z: int, r: int, eras: int)
    requires z == DaysPerEra * eras + r
    ensures MonthOfMarchDay(z) == MonthOfMarchDay(r) + 4800 * eras
    decreases if eras < 0 then -eras else eras
  {
    if eras > 0 {
      MonthOfMarchDayEras(z - DaysPerEra, r, eras - 1);
      NextEra(z - DaysPerEra, z);
    } else if eras < 0 {
      MonthOfMarchDayEras(z + DaysPerEra, r, eras + 1);
      NextEra(z, z + DaysPerEra);
    }
  }

  /** A day one era later falls in the month one era later. */
  lemma NextEra(z: int, z': int)
    requires z' == z + DaysPerEra
    ensures MonthOfMarchDay(z') == MonthOfMarchDay(z) + 4800
  {
  }

  lemma EraMonthBracket(z: int) returns (m: int)
    requires 0 <= z < DaysPerEra
    ensures m == MonthOfMarchDay(z)
    ensures FirstDayOfMonth(m) + EpochShift <= z < FirstDayOfMonth(m + 1) + EpochShift
  {
    m := MonthOfMarchDay(z);
    var y, i := EraMonthParts(z, m);
    MonthNumbering(m, y, i);
    MonthBracket(z, MarchYearStart(y), MarchYearStart(y + 1), i, FirstDayOfMonth(m), FirstDayOfMonth(m + 1));
  }

  /** The March-based year a day of an era falls in, and its month of that year. */
  lemma EraMonthParts(z: int, m: int) returns (y: int, i: int)
    requires 0 <= z < DaysPerEra && m == MonthOfMarchDay(z)
    ensures 0 <= i < 12 && m == 12 * y + i + 2
    ensures MarchYearStart(y) <= z < MarchYearStart(y + 1)
    ensures MonthOffset(i) <= z - MarchYearStart(y)
    ensures i < 11 ==> z - MarchYearStart(y) < MonthOffset(i + 1)
  {
    y := YearOfEra(z);
    YearOfEraBracket(z);
    YearLength(y);
    i := (5 * (z - MarchYearStart(y)) + 2) / 153;
    MonthOfYear(z - MarchYearStart(y), MarchYearStart(y + 1) - MarchYearStart(y));
  }

  lemma MonthBracket(z: int, start: int, next: int, i: int, first: int, after: int)
    requires start <= z < next
    requires MonthOffset(i) <= z - start && (i < 11 ==> z - start < MonthOffset(i + 1))
    requires first == start + MonthOffset(i) - EpochShift
    requires after == if i < 11 then start + MonthOffset(i + 1) - EpochShift else next - EpochShift
    ensures first + EpochShift <= z < after + EpochShift
  {
  }

  // ---------------------------------------------------------------------------
  // Any numbering of days by months
  // ---------------------------------------------------------------------------

  /**
   * `start` gives each month's first day, later months beginning later, and
   * `month` puts every day in the month whose first day is the last on or
   * before it.
   */
  ghost predicate NumbersMonths(month: int -> int, start: int -> int)
  {
    && (forall a, b :: a < b ==> start(a) < start(b))
    && (forall d :: start(month(d)) <= d < start(month(d) + 1))
  }

  lemma NumberingIff(month: int -> int, start: int -> int, d: int, m: int)
    requires NumbersMonths(month, start)
    ensures month(d) == m <==> start(m) <= d < start(m + 1)
  {
    var k := month(d);
    if k < m {
      assert start(k + 1) <= start(m);
    } else if k > m {
      assert start(m + 1) <= start(k);
    }
  }

  lemma NumberingMonotone(month: int -> int, start: int -> int, d1: int, d2: int)
    requires NumbersMonths(month, start) && d1 <= d2
    ensures month(d1) <= month(d2)
  {
  }

  lemma NumberingStep(month: int -> int, start: int -> int, d: int)
    requires NumbersMonths(month, start)
    ensures month(d) <= month(d + 1) <= month(d) + 1
    ensures month(d + 1) == month(d) + 1 <==> d + 1 == start(month(d + 1))
  {
    NumberingMonotone(month, start, d, d + 1);
    var k := month(d);
    var k' := month(d + 1);
    if k' == k {
      assert start(k') <= d;
    }
  }

  /** The months in which some of `days` fall. */
  function Image(month: int -> int, days: set<int>): set<int>
  {
    set d | d in days :: month(d)
  }

  lemma ImageGrows(month: int -> int, days: set<int>, d: int)
    ensures Image(month, days + {d}) == Image(month, days) + {month(d)}
  {
  }

  lemma ImageOfOne(month: int -> int, d: int)
    ensures Image(month, {d}) == {month(d)}
  {
  }

  /** The days `lo..hi` fall in every month from `lo`'s to `hi`'s and in no other. */
  lemma {:induction false} NumberingOfSpan(month: int -> int, start: int -> int, lo: int, hi: int)
    requires NumbersMonths(month, start) && lo <= hi
    ensures Image(month, Span(lo, hi)) == Span(month(lo), month(hi))
    decreases hi - lo
  {
    if lo < hi {
      NumberingOfSpan(month, start, lo, hi - 1);
      NumberingStep(month, start, hi - 1);
      NumberingMonotone(month, start, lo, hi - 1);
      SpanGrows(lo, hi - 1, hi);
      ImageGrows(month, Span(lo, hi - 1), hi);
      SpanGrows(month(lo), month(hi - 1), month(hi));
    } else {
      assert Span(lo, hi) == {lo};
      ImageOfOne(month, lo);
    }
  }

  /** A run of whole numbers ending at `b` grows by `b` itself or by the next one. */
  lemma SpanGrows(a: int, b: int, c: int)
    requires a <= b && (c == b || c == b + 1)
    ensures Span(a, b) + {c} == Span(a, c)
  {
  }

  // ---------------------------------------------------------------------------
  // The calendar's numbering
  // ---------------------------------------------------------------------------

  /** `MonthIndex` and `FirstDayOfMonth` number the days by months. */
  lemma CalendarNumbersMonths()
    ensures NumbersMonths(MonthIndex, FirstDayOfMonth)
  {
    forall a, b | a < b
      ensures FirstDayOfMonth(a) < FirstDayOfMonth(b)
    {
      FirstDayOfMonthMonotone(a, b);
    }
    forall d
      ensures FirstDayOfMonth(MonthIndex(d)) <= d < FirstDayOfMonth(MonthIndex(d) + 1)
    {
      MonthIndexBracket(d);
    }
  }

  /** A day lies in month `m` exactly when it falls between `m`'s first day and the next month's. */
  lemma MonthIndexIff(day: int, m: int)
    ensures MonthIndex(day) == m <==> FirstDayOfMonth(m) <= day < FirstDayOfMonth(m + 1)
  {
    CalendarNumbersMonths();
    NumberingIff(MonthIndex, FirstDayOfMonth, day, m);
  }

  /** A later day never lies in an earlier month. */
  lemma MonthIndexMonotone(d1: int, d2: int)
    requires d1 <= d2
    ensures MonthIndex(d1) <= MonthIndex(d2)
  {
    CalendarNumbersMonths();
    NumberingMonotone(MonthIndex, FirstDayOfMonth, d1, d2);
  }

  /**
   * From one day to the next the month number stays or goes up by one, and it
   * goes up exactly when the next day is the first of its month.
   */
  lemma MonthIndexStep(day: int)
    ensures MonthIndex(day) <= MonthIndex(day + 1) <= MonthIndex(day) + 1
    ensures MonthIndex(day + 1) == MonthIndex(day) + 1 <==> day + 1 == FirstDayOfMonth(MonthIndex(day + 1))
  {
    CalendarNumbersMonths();
    NumberingStep(MonthIndex, FirstDayOfMonth, day);
  }

  /** The months in which some of `days` fall. */
  function MonthsTouched(days: set<int>): set<int>
  {
    Image(MonthIndex, days)
  }

  /**
   * The days `lo..hi` touch every month from `lo`'s to `hi`'s and no other,
   * so as many months as `hi`'s month number exceeds `lo`'s, plus one.
   */
  lemma MonthsOfSpan(lo: int, hi: int)
    requires lo <= hi
    ensures MonthsTouched(Span(lo, hi)) == Span(MonthIndex(lo), MonthIndex(hi))
    ensures |MonthsTouched(Span(lo, hi))| == MonthIndex(hi) - MonthIndex(lo) + 1
  {
    CalendarNumbersMonths();
    NumberingOfSpan(MonthIndex, FirstDayOfMonth, lo, hi);
    NumberingMonotone(MonthIndex, FirstDayOfMonth, lo, hi);
  }

  /** 1 January 1970 (day 0) is the first day of January 1970. */
  lemma EpochIsJanuary1970()
    ensures MonthIndex(0) == 1970 * 12
    ensures FirstDayOfMonth(1970 * 12) == 0
  {
    MonthNumbering(1970 * 12, 1969, 10);
    DivIs(1969, 4, 492);
    DivIs(1969, 100, 19);
    DivIs(1969, 400, 4);
    DivIs(153 * 10 + 2, 5, 306);
    DivIs(153 * 11 + 2, 5, 337);
    MonthIndexIff(0, 1970 * 12);
  }

  /** 29 February 2024 (day 19782) is the last day of February 2024. */
  lemma LeapDay2024IsFebruary()
    ensures MonthIndex(19782) == 2024 * 12 + 1
    ensures FirstDayOfMonth(2024 * 12 + 2) == 19783
  {
    MonthNumbering(2024 * 12 + 1, 2023, 11);
    DivIs(2023, 4, 505);
    DivIs(2023, 100, 20);
    DivIs(2023, 400, 5);
    DivIs(2024, 4, 506);
    DivIs(2024, 100, 20);
    DivIs(2024, 400, 5);
    DivIs(153 * 11 + 2, 5, 337);
    MonthIndexIff(19782, 2024 * 12 + 1);
  }

  /** The day after, 1 March 2024, lies in March 2024. */
  lemma DayAfterLeapDay2024IsMarch()
    ensures MonthIndex(19783) == 2024 * 12 + 2
  {
    LeapDay2024IsFebruary();
    MonthLength(2024 * 12 + 2);
    MonthIndexIff(19783, 2024 * 12 + 2);
  }
}
