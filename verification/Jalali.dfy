/**
Gregorian to Jalali conversion (internal/sub/remark_vars.go:357-424): a Julian Day Number in
closed form, then a walk over Jalali months from a fixed date. Both sides are compared with
calendars that only know how to go to the next day.
*/
module Jalali {

  /** Integer division and remainder as Go computes them, towards zero. */
  function Quo(a: int, b: int): int
    requires b > 0
  {
    if a >= 0 then a / b else -((-a) / b)
  }

  function Rem(a: int, b: int): int
    requires b > 0
  {
    a - b * Quo(a, b)
  }

  datatype Date = Date(year: int, month: int, day: int)

  // ---------------------------------------------------------------- the Jalali calendar

  /** `isJalaliLeap`. */
  predicate IsJalaliLeap(y: int) { Rem(y, 33) in {1, 5, 9, 13, 17, 22, 26, 30} }

  /** `jalaliMonthDays`. */
  function JalaliMonthDays(y: int, m: int): (n: int)
    ensures 29 <= n <= 31
  {
    if m <= 6 then 31 else if m <= 11 then 30 else if IsJalaliLeap(y) then 30 else 29
  }

  predicate ValidJalali(d: Date) { 1 <= d.month <= 12 && 1 <= d.day <= JalaliMonthDays(d.year, d.month) }

  function NextJalali(d: Date): Date {
    if d.day < JalaliMonthDays(d.year, d.month) then d.(day := d.day + 1)
    else if d.month < 12 then Date(d.year, d.month + 1, 1)
    else Date(d.year + 1, 1, 1)
  }

  function PreviousJalali(d: Date): Date {
    if d.day > 1 then d.(day := d.day - 1)
    else if d.month > 1 then Date(d.year, d.month - 1, JalaliMonthDays(d.year, d.month - 1))
    else Date(d.year - 1, 12, JalaliMonthDays(d.year - 1, 12))
  }

  const REFERENCE_JDN := 2460311

  /** The calendar itself: the date `n` days after the eleventh of Dey 1402, one day at a time. */
  function JalaliAt(n: int): Date
    decreases if n < 0 then -n else n
  {
    if n == 0 then Date(1402, 10, 11)
    else if n > 0 then NextJalali(JalaliAt(n - 1))
    else PreviousJalali(JalaliAt(n + 1))
  }

  // ---------------------------------------------------------------- counting days

  /** Leap years among the first `r` years of a 33-year cycle. */
  function LeapsInCycle(r: int): int {
    (if r > 1 then 1 else 0) + (if r > 5 then 1 else 0) + (if r > 9 then 1 else 0) + (if r > 13 then 1 else 0)
    + (if r > 17 then 1 else 0) + (if r > 22 then 1 else 0) + (if r > 26 then 1 else 0) + (if r > 30 then 1 else 0)
  }

  /** Days from the first day of year 0 to the first day of year `y`; the code sees no leap year before year 0. */
  function YearStart(y: int): int {
    if y <= 0 then 365 * y else 365 * y + 8 * (y / 33) + LeapsInCycle(y % 33)
  }

  function MonthStart(m: int): int { if m <= 7 then 31 * (m - 1) else 186 + 30 * (m - 7) }

  function DayCount(d: Date): int { YearStart(d.year) + MonthStart(d.month) + d.day - 1 }

  lemma LeapRule(y: int)
    ensures IsJalaliLeap(y) <==> y > 0 && y % 33 in {1, 5, 9, 13, 17, 22, 26, 30}
  {
    if y < 0 {
      assert Rem(y, 33) == -((-y) % 33);
    } else {
      assert Rem(y, 33) == y % 33;
    }
  }

  lemma YearLength(y: int)
    ensures YearStart(y + 1) - YearStart(y) == if IsJalaliLeap(y) then 366 else 365
  {
    LeapRule(y);
    if y > 0 {
      if y % 33 == 32 {
        assert (y + 1) / 33 == y / 33 + 1 && (y + 1) % 33 == 0;
      } else {
        assert (y + 1) / 33 == y / 33 && (y + 1) % 33 == y % 33 + 1;
      }
    }
  }

  lemma MonthLength(y: int, m: int)
    requires 1 <= m <= 12
    ensures JalaliMonthDays(y, m)
            == if m < 12 then MonthStart(m + 1) - MonthStart(m) else YearStart(y + 1) - YearStart(y) - MonthStart(12)
  {
    YearLength(y);
  }

  lemma NextCountsOne(d: Date)
    requires ValidJalali(d)
    ensures ValidJalali(NextJalali(d)) && DayCount(NextJalali(d)) == DayCount(d) + 1
  {
    hide YearStart, IsJalaliLeap;
    MonthLength(d.year, d.month);
  }

  lemma PreviousCountsOne(d: Date)
    requires ValidJalali(d)
    ensures ValidJalali(PreviousJalali(d)) && DayCount(PreviousJalali(d)) == DayCount(d) - 1
  {
    hide YearStart, IsJalaliLeap;
    if d.day == 1 {
      if d.month > 1 { MonthLength(d.year, d.month - 1); } else { MonthLength(d.year - 1, 12); }
    }
  }

  lemma {:induction false} JalaliAtCounts(n: int)
    ensures ValidJalali(JalaliAt(n)) && DayCount(JalaliAt(n)) == DayCount(JalaliAt(0)) + n
    decreases if n < 0 then -n else n
  {
    if n > 0 {
      JalaliAtCounts(n - 1);
      NextCountsOne(JalaliAt(n - 1));
    } else if n < 0 {
      JalaliAtCounts(n + 1);
      PreviousCountsOne(JalaliAt(n + 1));
    }
  }

  predicate Before(a: Date, b: Date) {
    a.year < b.year || (a.year == b.year && (a.month < b.month || (a.month == b.month && a.day < b.day)))
  }

  lemma {:induction false} YearsAscend(y: int, z: int)
    requires y < z
    ensures YearStart(y) + 365 <= YearStart(z)
    decreases z - y
  {
    YearLength(z - 1);
    if y < z - 1 { YearsAscend(y, z - 1); }
  }

  /** A day lies inside its year. */
  lemma InsideYear(d: Date)
    requires ValidJalali(d)
    ensures YearStart(d.year) <= DayCount(d) < YearStart(d.year + 1)
  {
    MonthLength(d.year, d.month);
    YearLength(d.year);
  }

  lemma MonthsAscend(y: int, m: int, n: int)
    requires 1 <= m < n <= 12
    ensures MonthStart(m) + JalaliMonthDays(y, m) <= MonthStart(n)
  {}

  lemma EarlierYearCountsLess(a: Date, b: Date)
    requires ValidJalali(a) && ValidJalali(b) && a.year < b.year
    ensures DayCount(a) < DayCount(b)
  {
    hide YearStart, DayCount;
    InsideYear(a);
    InsideYear(b);
    if a.year + 1 < b.year { YearsAscend(a.year + 1, b.year); }
  }

  lemma BeforeCountsLess(a: Date, b: Date)
    requires ValidJalali(a) && ValidJalali(b) && Before(a, b)
    ensures DayCount(a) < DayCount(b)
  {
    hide YearStart, MonthStart, JalaliMonthDays;
    if a.year < b.year {
      EarlierYearCountsLess(a, b);
    } else if a.month < b.month {
      MonthsAscend(a.year, a.month, b.month);
    }
  }

  /** Counting days respects the order of dates, so a day count determines its date. */
  lemma CountOrders(a: Date, b: Date)
    requires ValidJalali(a) && ValidJalali(b)
    ensures Before(a, b) <==> DayCount(a) < DayCount(b)
    ensures DayCount(a) == DayCount(b) ==> a == b
  {
    hide DayCount, JalaliMonthDays;
    if Before(a, b) {
      BeforeCountsLess(a, b);
    } else if Before(b, a) {
      BeforeCountsLess(b, a);
    }
  }

  // ---------------------------------------------------------------- the Julian Day Number

  /** The closed form, with Go's division. */
  function Jdn(gy: int, gm: int, gd: int): int {
    var a := Quo(14 - gm, 12);
    var y := gy + 4800 - a;
    var m := gm + 12 * a - 3;
    gd + Quo(153 * m + 2, 5) + 365 * y + Quo(y, 4) - Quo(y, 100) + Quo(y, 400) - 32045
  }

  // ---------------------------------------------------------------- the conversion

  /** The first loop of `gregorianToJalali`: months forward from the reference date. */
  method WalkForward(total: int) returns (jy: int, jm: int, jd: int)
    requires total >= 0
    ensures ValidJalali(Date(jy, jm, jd)) && DayCount(Date(jy, jm, jd)) == DayCount(JalaliAt(0)) + total
  {
    hide YearStart, IsJalaliLeap, JalaliMonthDays, MonthStart;
    FirstMonth();
    var days := total;
    jy, jm, jd := 1402, 10, 11;
    while days > 0
      invariant days >= 0 && ValidJalali(Date(jy, jm, jd))
      invariant DayCount(Date(jy, jm, jd)) + days == DayCount(JalaliAt(0)) + total
      decreases days
    {
      var remaining := JalaliMonthDays(jy, jm) - jd + 1;
      MonthLength(jy, jm);
      if days < remaining {
        jd := jd + days;
        return;
      }
      days := days - remaining;
      jm := jm + 1;
      if jm > 12 {
        jm := 1;
        jy := jy + 1;
      }
      jd := 1;
    }
  }

  /** The second loop: months backward. */
  method WalkBack(total: int) returns (jy: int, jm: int, jd: int)
    requires total < 0
    ensures ValidJalali(Date(jy, jm, jd)) && DayCount(Date(jy, jm, jd)) == DayCount(JalaliAt(0)) + total
  {
    hide YearStart, IsJalaliLeap, JalaliMonthDays, MonthStart;
    FirstMonth();
    jy, jm, jd := 1402, 10, 11 + total;
    while jd < 1
      invariant 1 <= jm <= 12 && jd <= JalaliMonthDays(jy, jm)
      invariant DayCount(Date(jy, jm, jd)) == DayCount(JalaliAt(0)) + total
      decreases -jd
    {
      jm := jm - 1;
      if jm < 1 {
        jm := 12;
        jy := jy - 1;
      }
      MonthLength(jy, jm);
      jd := jd + JalaliMonthDays(jy, jm);
    }
  }

  /** `gregorianToJalali`, for any integers: whichever loop runs ends at the date that many days away. */
  method GregorianToJalali(gy: int, gm: int, gd: int) returns (jy: int, jm: int, jd: int)
    ensures ValidJalali(Date(jy, jm, jd))
    ensures DayCount(Date(jy, jm, jd)) - DayCount(JalaliAt(0)) == Jdn(gy, gm, gd) - REFERENCE_JDN
    ensures Date(jy, jm, jd) == ToJalali(Date(gy, gm, gd))
    ensures gy >= -4799 ==> forall n :: GregorianAt(n) == Date(gy, gm, gd) ==> Date(jy, jm, jd) == JalaliAt(n)
  {
    var a := Quo(14 - gm, 12);
    var y := gy + 4800 - a;
    var m := gm + 12 * a - 3;
    var jdn := gd + Quo(153 * m + 2, 5) + 365 * y + Quo(y, 4) - Quo(y, 100) + Quo(y, 400) - 32045;
    assert jdn == Jdn(gy, gm, gd);
    hide Jdn, Quo, DayCount, JalaliAt, JalaliMonthDays;
    var days := jdn - REFERENCE_JDN;
    if days >= 0 {
      jy, jm, jd := WalkForward(days);
    } else {
      jy, jm, jd := WalkBack(days);
    }
    JalaliAtCounts(days);
    CountOrders(Date(jy, jm, jd), JalaliAt(days));
    if gy >= -4799 {
      forall n | GregorianAt(n) == Date(gy, gm, gd) ensures Date(jy, jm, jd) == JalaliAt(n) {
        GregorianAtCounts(n);
      }
    }
  }

  lemma FirstMonth()
    ensures MonthStart(1) == 0
  {}

  /** The conversion as a function of the Gregorian date; the method's contract ties the code to it. */
  function ToJalali(g: Date): Date { JalaliAt(Jdn(g.year, g.month, g.day) - REFERENCE_JDN) }

  // ---------------------------------------------------------------- the Gregorian calendar

  predicate IsGregorianLeap(y: int) { y % 4 == 0 && (y % 100 != 0 || y % 400 == 0) }

  function GregorianMonthDays(y: int, m: int): int {
    if m == 2 then (if IsGregorianLeap(y) then 29 else 28) else if m in {4, 6, 9, 11} then 30 else 31
  }

  /** Dates of the proleptic Gregorian calendar. */
  predicate ValidGregorian(g: Date) { 1 <= g.month <= 12 && 1 <= g.day <= GregorianMonthDays(g.year, g.month) }

  /** The years in which the formula divides no negative number. */
  predicate Counted(g: Date) { ValidGregorian(g) && g.year >= -4799 }

  function NextGregorian(g: Date): Date {
    if g.day < GregorianMonthDays(g.year, g.month) then g.(day := g.day + 1)
    else if g.month < 12 then Date(g.year, g.month + 1, 1)
    else Date(g.year + 1, 1, 1)
  }

  function PreviousGregorian(g: Date): Date {
    if g.day > 1 then g.(day := g.day - 1)
    else if g.month > 1 then Date(g.year, g.month - 1, GregorianMonthDays(g.year, g.month - 1))
    else Date(g.year - 1, 12, 31)
  }

  /** The date `n` days after the first of January 2024, one day at a time. */
  function GregorianAt(n: int): Date
    decreases if n < 0 then -n else n
  {
    if n == 0 then Date(2024, 1, 1)
    else if n > 0 then NextGregorian(GregorianAt(n - 1))
    else PreviousGregorian(GregorianAt(n + 1))
  }

  /** Leap days up to a March-based year, and how many the year after adds. */
  function LeapDays(y: int): int { y / 4 - y / 100 + y / 400 }

  lemma OneMoreOnLeapYears(y: int)
    requires y >= 0
    ensures LeapDays(y + 1) - LeapDays(y) == if IsGregorianLeap(y + 1) then 1 else 0
  {
    QuotientStep(y, 4);
    QuotientStep(y, 100);
    QuotientStep(y, 400);
    RemainderChain(y + 1);
  }

  lemma QuotientStep(y: int, k: int)
    requires y >= 0 && k > 0
    ensures (y + 1) / k - y / k == if (y + 1) % k == 0 then 1 else 0
  {
    var q, r := y / k, y % k;
    assert y == q * k + r;
    if r == k - 1 {
      assert y + 1 == (q + 1) * k;
      Divided(y + 1, q + 1, 0, k);
    } else {
      Divided(y + 1, q, r + 1, k);
    }
  }

  lemma Divided(n: int, q: int, r: int, k: int)
    requires k > 0 && 0 <= r < k && n == q * k + r
    ensures n / k == q && n % k == r
  {
    var q', r' := n / k, n % k;
    assert n == q' * k + r' && 0 <= r' < k;
    assert (q - q') * k == q * k - q' * k && (q' - q) * k == q' * k - q * k;
    if q > q' {
      AtLeastOnce(q - q', k);
    } else if q < q' {
      AtLeastOnce(q' - q, k);
    }
  }

  lemma AtLeastOnce(d: int, k: int)
    requires d >= 1 && k > 0
    ensures d * k >= k
  {}

  lemma RemainderChain(y: int)
    ensures y % 400 == 0 ==> y % 100 == 0
    ensures y % 100 == 0 ==> y % 4 == 0
  {
    if y % 400 == 0 { Divided(y, 4 * (y / 400), 0, 100); }
    if y % 100 == 0 { Divided(y, 25 * (y / 100), 0, 4); }
  }

  lemma LeapIgnoresShift(y: int)
    ensures IsGregorianLeap(y + 4800) == IsGregorianLeap(y)
  {
    Divided(y + 4800, y / 4 + 1200, y % 4, 4);
    Divided(y + 4800, y / 100 + 48, y % 100, 100);
    Divided(y + 4800, y / 400 + 12, y % 400, 400);
  }

  predicate LastOfFebruary(g: Date) { g.month == 2 && g.day == GregorianMonthDays(g.year, 2) }

  /**
  The day number rises by exactly one from each date to the next, exactly from the year -4799 on and,
  before it, except at the end of February of leap years, where it stands still, and of the years
  after them, where it rises by two.
  */
  lemma JdnCountsOne(g: Date)
    requires ValidGregorian(g)
    ensures ValidGregorian(NextGregorian(g))
    ensures var n, late := NextGregorian(g), !Counted(g) && LastOfFebruary(g);
            Jdn(n.year, n.month, n.day) == Jdn(g.year, g.month, g.day) + 1
              - (if late && IsGregorianLeap(g.year) then 1 else 0) + (if late && IsGregorianLeap(g.year - 1) then 1 else 0)
    ensures var n := NextGregorian(g);
            Jdn(n.year, n.month, n.day) == Jdn(g.year, g.month, g.day) + 1
            <==> Counted(g) || !LastOfFebruary(g) || (!IsGregorianLeap(g.year) && !IsGregorianLeap(g.year - 1))
  {
    hide Jdn, Quo, IsGregorianLeap;
    var y, m, last := g.year, g.month, GregorianMonthDays(g.year, g.month);
    JdnInMonth(y, m, g.day);
    JdnInMonth(y, m, g.day + 1);
    NoTwoLeapYears(y);
    if m == 2 {
      FebruaryLength(y);
    } else {
      MonthInDays(y, m);
    }
  }

  /** Within a month the day number follows the day. */
  lemma JdnInMonth(y: int, m: int, d: int)
    ensures Jdn(y, m, d) == Jdn(y, m, 1) + d - 1
  {
    hide Quo;
  }

  /** Before the year -4799 truncating division puts the leap day a year late. */
  lemma FebruaryLength(y: int)
    ensures Jdn(y, 3, 1) == Jdn(y, 2, 1) + if IsGregorianLeap(if y >= -4799 then y else y - 1) then 29 else 28
  {
    hide Jdn, IsGregorianLeap, TruncatedLeapDays;
    JdnOverFebruary(y);
    TruncatedStep(y + 4799);
    LeapIgnoresShift(y);
    LeapIgnoresShift(y - 1);
  }

  /** The formula's leap days up to a March-based year. */
  function TruncatedLeapDays(y: int): int { Quo(y, 4) - Quo(y, 100) + Quo(y, 400) }

  lemma JdnOverFebruary(y: int)
    ensures Jdn(y, 3, 1) == Jdn(y, 2, 1) + 28 + TruncatedLeapDays(y + 4800) - TruncatedLeapDays(y + 4799)
  {
    assert Quo(11, 12) == 0 && Quo(12, 12) == 1;
    assert Quo(2, 5) == 0 && Quo(1685, 5) == 337;
    hide Quo;
  }

  lemma TruncatedStep(y: int)
    ensures TruncatedLeapDays(y + 1) - TruncatedLeapDays(y)
            == if IsGregorianLeap(if y >= 0 then y + 1 else y) then 1 else 0
  {
    if y >= 0 {
      OneMoreOnLeapYears(y);
    } else {
      OneMoreOnLeapYears(-y - 1);
      LeapIgnoresSign(y);
    }
  }

  lemma LeapIgnoresSign(y: int)
    ensures IsGregorianLeap(-y) == IsGregorianLeap(y)
  {
    SignedRemainder(y, 4);
    SignedRemainder(y, 100);
    SignedRemainder(y, 400);
  }

  lemma SignedRemainder(y: int, k: int)
    requires k > 0
    ensures (-y) % k == 0 <==> y % k == 0
  {
    if y % k == 0 {
      assert -y == -(y / k) * k;
      Divided(-y, -(y / k), 0, k);
    }
    if (-y) % k == 0 {
      assert y == -((-y) / k) * k;
      Divided(y, -((-y) / k), 0, k);
    }
  }

  lemma NoTwoLeapYears(y: int)
    ensures !(IsGregorianLeap(y) && IsGregorianLeap(y - 1))
  {
  }

  /** The other months, December before January. */
  lemma MonthInDays(y: int, m: int)
    requires 1 <= m <= 12 && m != 2
    ensures Jdn(if m < 12 then y else y + 1, if m < 12 then m + 1 else 1, 1) == Jdn(y, m, 1) + GregorianMonthDays(y, m)
  {
    hide IsGregorianLeap, Quo;
    var n := if m < 12 then m + 1 else 1;
    MarchBased(m);
    MarchBased(n);
    MonthQuotient(if m < 3 then m + 9 else m - 3);
  }

  lemma MarchBased(m: int)
    requires 1 <= m <= 12
    ensures Quo(14 - m, 12) == if m < 3 then 1 else 0
  {}

  /** 153 days in five months: the rule behind the lengths from March to January. */
  lemma MonthQuotient(k: int)
    requires 0 <= k < 11
    ensures Quo(153 * (k + 1) + 2, 5) - Quo(153 * k + 2, 5) == if k in {1, 3, 6, 8} then 30 else 31
  {}

  // ---------------------------------------------------------------- order of Gregorian dates

  /** The two days the formula does not tell apart. */
  predicate Merged(a: Date, b: Date) {
    a.year < -4799 && IsGregorianLeap(a.year) && a == Date(a.year, 2, 29) && b == Date(a.year, 3, 1)
  }

  /** The day number keeps the order of all dates, and is the same only for a late leap day and the day after. */
  lemma {:induction false} JdnOrders(a: Date, b: Date)
    requires ValidGregorian(a) && ValidGregorian(b) && Before(a, b)
    ensures var j, k := Jdn(a.year, a.month, a.day), Jdn(b.year, b.month, b.day);
            j <= k && (j == k <==> Merged(a, b))
    decreases 372 * (b.year - a.year) + 31 * (b.month - a.month) + b.day - a.day
  {
    hide Jdn, IsGregorianLeap;
    JdnCountsOne(a);
    NoTwoLeapYears(a.year);
    var n := NextGregorian(a);
    if n != b {
      JdnOrders(n, b);
    }
  }

  // ---------------------------------------------------------------- both calendars, day by day

  lemma PreviousThenNext(g: Date)
    requires ValidGregorian(g)
    ensures var p := PreviousGregorian(g);
            ValidGregorian(p) && NextGregorian(p) == g && g.year - 1 <= p.year <= g.year
  {
    hide IsGregorianLeap;
  }

  lemma NextThenPrevious(g: Date)
    requires ValidGregorian(g)
    ensures PreviousGregorian(NextGregorian(g)) == g
  {
    hide IsGregorianLeap;
  }

  /** From the year -4799 on the day number counts the days of the calendar. */
  lemma {:induction false} GregorianAtCounts(n: int)
    ensures var g := GregorianAt(n);
            ValidGregorian(g) && (g.year >= -4799 ==> Jdn(g.year, g.month, g.day) == REFERENCE_JDN + n)
    decreases if n < 0 then -n else n
  {
    hide Jdn, NextGregorian, PreviousGregorian, GregorianMonthDays;
    if n == 0 {
      FirstDay();
    } else if n > 0 {
      GregorianAtCounts(n - 1);
      var p := GregorianAt(n - 1);
      JdnCountsOne(p);
      NextIsLater(p);
      if n - 1 >= 0 { YearsAfter(n - 1); }
    } else {
      GregorianAtCounts(n + 1);
      PreviousThenNext(GregorianAt(n + 1));
      JdnCountsOne(GregorianAt(n));
    }
  }

  lemma FirstDay()
    ensures ValidGregorian(Date(2024, 1, 1)) && Jdn(2024, 1, 1) == REFERENCE_JDN
  {
    assert Quo(13, 12) == 1 && Quo(153 * 10 + 2, 5) == 306;
    assert Quo(6823, 4) == 1705 && Quo(6823, 100) == 68 && Quo(6823, 400) == 17;
  }

  lemma NextIsLater(g: Date)
    requires ValidGregorian(g)
    ensures NextGregorian(g).year >= g.year
  {
  }

  lemma {:induction false} YearsAfter(n: nat)
    ensures GregorianAt(n).year >= 2024
  {
    if n > 0 {
      YearsAfter(n - 1);
      GregorianAtIsValid(n - 1);
      NextIsLater(GregorianAt(n - 1));
    }
  }

  lemma {:induction false} GregorianAtIsValid(n: nat)
    ensures ValidGregorian(GregorianAt(n))
  {
    hide IsGregorianLeap;
    if n > 0 {
      GregorianAtIsValid(n - 1);
    }
  }

  /** Every date from the year -4799 on is one of these days. */
  lemma {:induction false} EveryDateIsReached(g: Date)
    requires Counted(g)
    ensures GregorianAt(Jdn(g.year, g.month, g.day) - REFERENCE_JDN) == g
    decreases var d := 372 * (g.year - 2024) + 31 * (g.month - 1) + g.day - 1; if d < 0 then -d else d
  {
    hide Jdn, IsGregorianLeap, GregorianAt;
    var n := Jdn(g.year, g.month, g.day) - REFERENCE_JDN;
    if g == Date(2024, 1, 1) {
      FirstDay();
      GregorianSteps(0);
    } else if g.year >= 2024 {
      var p := PreviousGregorian(g);
      PreviousThenNext(g);
      EveryDateIsReached(p);
      JdnCountsOne(p);
      JdnAfterFirst(g);
      GregorianSteps(n);
    } else {
      var q := NextGregorian(g);
      NextThenPrevious(g);
      JdnCountsOne(g);
      EveryDateIsReached(q);
      JdnBeforeFirst(g);
      GregorianSteps(n);
    }
  }

  lemma GregorianSteps(n: int)
    ensures n == 0 ==> GregorianAt(n) == Date(2024, 1, 1)
    ensures n > 0 ==> GregorianAt(n) == NextGregorian(GregorianAt(n - 1))
    ensures n < 0 ==> GregorianAt(n) == PreviousGregorian(GregorianAt(n + 1))
  {
    hide NextGregorian, PreviousGregorian;
  }

  lemma JdnAfterFirst(g: Date)
    requires ValidGregorian(g) && g.year >= 2024 && g != Date(2024, 1, 1)
    ensures Jdn(g.year, g.month, g.day) > REFERENCE_JDN
  {
    FirstDay();
    JdnOrders(Date(2024, 1, 1), g);
    hide Jdn;
  }

  lemma JdnBeforeFirst(g: Date)
    requires ValidGregorian(g) && g.year < 2024
    ensures Jdn(g.year, g.month, g.day) < REFERENCE_JDN
  {
    FirstDay();
    JdnOrders(g, Date(2024, 1, 1));
    hide Jdn;
  }

  /** The two calendars agree day by day: the `n`-th day after the first of January 2024 is the `n`-th after 1402/10/11. */
  lemma CalendarsAgree(n: int)
    requires GregorianAt(n).year >= -4799
    ensures ToJalali(GregorianAt(n)) == JalaliAt(n)
  {
    hide Jdn, GregorianAt, JalaliAt;
    GregorianAtCounts(n);
  }

  /** Dates of both calendars that are known to be the same day, the last two around a leap day. */
  lemma KnownDates()
    ensures ToJalali(Date(2024, 1, 1)) == Date(1402, 10, 11)
    ensures ToJalali(Date(2000, 3, 20)) == Date(1379, 1, 1)
    ensures ToJalali(Date(1979, 2, 11)) == Date(1357, 11, 22)
    ensures ToJalali(Date(2025, 3, 20)) == Date(1403, 12, 30)
    ensures ToJalali(Date(2025, 3, 21)) == Date(1404, 1, 1)
  {
    hide JalaliAt;
    DayIs(Date(2024, 1, 1), 2460311, Date(1402, 10, 11));
    DayIs(Date(2000, 3, 20), 2451624, Date(1379, 1, 1));
    DayIs(Date(1979, 2, 11), 2443916, Date(1357, 11, 22));
    DayIs(Date(2025, 3, 20), 2460755, Date(1403, 12, 30));
    DayIs(Date(2025, 3, 21), 2460756, Date(1404, 1, 1));
  }

  /** The leap years of the present cycle, by name. */
  lemma KnownLeapYears(y: int)
    requires 1387 <= y < 1420
    ensures IsJalaliLeap(y) <==> y in {1387, 1391, 1395, 1399, 1403, 1408, 1412, 1416}
  {
    LeapRule(y);
  }

  lemma DayIs(g: Date, jdn: int, d: Date)
    requires Jdn(g.year, g.month, g.day) == jdn && ValidJalali(d)
    requires DayCount(d) - DayCount(Date(1402, 10, 11)) == jdn - REFERENCE_JDN
    ensures ToJalali(g) == d
  {
    hide Jdn, DayCount, ValidJalali;
    JalaliAtCounts(jdn - REFERENCE_JDN);
    assert JalaliAt(0) == Date(1402, 10, 11);
    hide JalaliAt;
    CountOrders(JalaliAt(jdn - REFERENCE_JDN), d);
  }

  /** The next Gregorian day is converted to the next Jalali day, under the same exact condition. */
  lemma NextDayToNextDay(g: Date)
    requires ValidGregorian(g)
    ensures ToJalali(NextGregorian(g)) == NextJalali(ToJalali(g))
            <==> Counted(g) || !LastOfFebruary(g) || (!IsGregorianLeap(g.year) && !IsGregorianLeap(g.year - 1))
  {
    hide Jdn, JalaliAt, DayCount, IsGregorianLeap, ValidJalali;
    JdnCountsOne(g);
    var n := NextGregorian(g);
    var k, j := Jdn(g.year, g.month, g.day) - REFERENCE_JDN, Jdn(n.year, n.month, n.day) - REFERENCE_JDN;
    JalaliAtCounts(k);
    JalaliAtCounts(j);
    NextCountsOne(JalaliAt(k));
    CountOrders(JalaliAt(j), NextJalali(JalaliAt(k)));
  }

  /** The conversion keeps the order of dates and tells all of them apart, late leap days excepted. */
  lemma ConversionOrders(a: Date, b: Date)
    requires ValidGregorian(a) && ValidGregorian(b)
    ensures Before(ToJalali(a), ToJalali(b)) <==> Before(a, b) && !Merged(a, b)
    ensures ToJalali(a) == ToJalali(b) <==> a == b || Merged(a, b) || Merged(b, a)
  {
    hide Jdn, DayCount, JalaliAt, ValidJalali, IsGregorianLeap, ValidGregorian;
    var j, k := Jdn(a.year, a.month, a.day) - REFERENCE_JDN, Jdn(b.year, b.month, b.day) - REFERENCE_JDN;
    JalaliAtCounts(j);
    JalaliAtCounts(k);
    CountOrders(JalaliAt(j), JalaliAt(k));
    CountOrders(JalaliAt(k), JalaliAt(j));
    if Before(a, b) { JdnOrders(a, b); }
    if Before(b, a) { JdnOrders(b, a); }
  }

  // ---------------------------------------------------------------- the 33-year cycle

  /** One cycle of 33 years has 12053 days, exactly for the years from -2 on, and fewer before. */
  lemma CycleExactly(y: int)
    ensures YearStart(y + 33) - YearStart(y) == 12053 <==> y >= -2
    ensures YearStart(y + 33) - YearStart(y) <= 12053
  {
    if y > 0 {
      Divided(y + 33, y / 33 + 1, y % 33, 33);
    } else if -33 < y < 0 {
      assert (y + 33) / 33 == 0 && (y + 33) % 33 == y + 33;
    }
  }

  lemma {:induction false} CyclesCount(y: int, k: nat)
    ensures YearStart(y + 33 * k) <= YearStart(y) + 12053 * k
    ensures YearStart(y + 33 * k) == YearStart(y) + 12053 * k <==> k == 0 || y >= -2
  {
    hide YearStart;
    if k > 0 {
      CyclesCount(y, k - 1);
      CycleExactly(y + 33 * (k - 1));
      assert y + 33 * k == y + 33 * (k - 1) + 33;
    }
  }

  lemma {:induction false} LeapYearsRepeat(y: int, k: nat)
    requires y >= -2
    ensures IsJalaliLeap(y + 33 * k) == IsJalaliLeap(y)
  {
    if k > 0 {
      LeapYearsRepeat(y, k - 1);
      var z := y + 33 * (k - 1);
      LeapRule(z);
      LeapRule(z + 33);
      Divided(z + 33, z / 33 + 1, z % 33, 33);
      assert y + 33 * k == z + 33;
    }
  }

  /** Jumping over whole cycles gives the date that walking gives, exactly from the year -2 on. */
  lemma CyclesJump(n: int, k: nat)
    ensures JalaliAt(n + 12053 * k) == JalaliAt(n).(year := JalaliAt(n).year + 33 * k)
            <==> k == 0 || JalaliAt(n).year >= -2
  {
    hide JalaliAt, YearStart, MonthStart, IsJalaliLeap;
    var d, m := JalaliAt(n), n + 12053 * k;
    var e := d.(year := d.year + 33 * k);
    JalaliAtCounts(n);
    JalaliAtCounts(m);
    CyclesCount(d.year, k);
    assert DayCount(e) == DayCount(JalaliAt(m)) <==> k == 0 || d.year >= -2;
    if d.year >= -2 {
      LeapYearsRepeat(d.year, k);
      CountOrders(JalaliAt(m), e);
    }
  }
}
