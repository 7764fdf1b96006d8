/** The proleptic Gregorian calendar of Python's `datetime`, reduced to what
    `strftime("%Y-%m-%d")` and `strftime("%Y")` need.

    An instant is a number of minutes since 0001-01-01 00:00 (`datetime.min`);
    a day number counts days since that same date, so day number n is
    `date.fromordinal(n + 1)`. */
module Calendar {
  import opened Wrappers
  import opened Strings
  import opened Numeric

  const MinutesPerDay: nat := 1440

  datatype Date = Date(year: nat, month: nat, day: nat)

  predicate IsLeap(y: int) {
    y % 4 == 0 && (y % 100 != 0 || y % 400 == 0)
  }

  function DaysInYear(y: int): nat {
    if IsLeap(y) then 366 else 365
  }

  function DaysInMonth(y: int, m: int): nat {
    if m == 2 then (if IsLeap(y) then 29 else 28)
    else if m == 4 || m == 6 || m == 9 || m == 11 then 30
    else 31
  }

  predicate ValidDate(d: Date) {
    d.year >= 1 && 1 <= d.month <= 12 && 1 <= d.day <= DaysInMonth(d.year, d.month)
  }

  /** Days of a common year before the first of each month; entry 12 is the whole year. */
  const CommonDaysBefore: seq<nat> := [0, 31, 59, 90, 120, 151, 181, 212, 243, 273, 304, 334, 365]

  /** Days of year `y` before the first of month `m`; `m == 13` gives the whole year. */
  function DaysBeforeMonth(y: int, m: int): nat
    requires 1 <= m <= 13
  {
    CommonDaysBefore[m - 1] + (if IsLeap(y) && m > 2 then 1 else 0)
  }

  /** Days of the years before year `y`. */
  function DaysBeforeYear(y: int): nat
    requires y >= 1
  {
    var x := y - 1;
    365 * x + x / 4 - x / 100 + x / 400
  }

  /** The day number of a date: `d.toordinal() - 1`. */
  function DayNumber(d: Date): nat
    requires ValidDate(d)
  {
    DaysBeforeYear(d.year) + DaysBeforeMonth(d.year, d.month) + d.day - 1
  }

  lemma DaysBeforeMonthStep(y: int, m: int)
    requires 1 <= m <= 12
    ensures DaysBeforeMonth(y, m + 1) == DaysBeforeMonth(y, m) + DaysInMonth(y, m)
    ensures DaysBeforeMonth(y, 13) == DaysInYear(y)
  {
  }

  /** `x / k` grows by one exactly when `x + 1` is a multiple of `k`. */
  lemma DivStep(x: nat, k: nat)
    requires k == 4 || k == 100 || k == 400
    ensures (x + 1) / k == x / k + (if (x + 1) % k == 0 then 1 else 0)
  {
    var q, r := x / k, x % k;
    assert x == q * k + r && 0 <= r < k;
    if r + 1 < k {
      DivUnique(x + 1, k, q, r + 1);
    } else {
      DivUnique(x + 1, k, q + 1, 0);
    }
  }

  lemma DivUnique(a: nat, k: nat, q: int, r: int)
    requires k == 4 || k == 100 || k == 400
    requires a == q * k + r && 0 <= r < k
    ensures a / k == q && a % k == r
  {
  }

  /** The leap days before year `x + 1` grow by one exactly at a leap year. */
  lemma LeapDaysStep(x: nat)
    ensures (x + 1) / 4 - (x + 1) / 100 + (x + 1) / 400
      == x / 4 - x / 100 + x / 400 + (if IsLeap(x + 1) then 1 else 0)
  {
    DivStep(x, 4);
    DivStep(x, 100);
    DivStep(x, 400);
    DivisorChain(x + 1);
  }

  /** A multiple of 400 is a multiple of 100, and that of 4. */
  lemma DivisorChain(n: nat)
    ensures n % 400 == 0 ==> n % 100 == 0
    ensures n % 100 == 0 ==> n % 4 == 0
  {
    if n % 400 == 0 {
      DivUnique(n, 100, 4 * (n / 400), 0);
    }
    if n % 100 == 0 {
      DivUnique(n, 4, 25 * (n / 100), 0);
    }
  }

  lemma {:induction false} YearStep(y: int)
    requires y >= 1
    ensures DaysBeforeYear(y + 1) == DaysBeforeYear(y) + DaysInYear(y)
  {
    LeapDaysStep(y - 1);
  }

  lemma {:induction false} DaysBeforeYearMonotone(y: int, z: int)
    requires 1 <= y <= z
    ensures DaysBeforeYear(y) <= DaysBeforeYear(z)
    decreases z - y
  {
    if y < z {
      YearStep(y);
      DaysBeforeYearMonotone(y + 1, z);
    }
  }

  /** Walks the months of year `y` from `m` on, consuming `n` days. */
  function MonthWalk(y: nat, m: nat, n: nat): (d: Date)
    requires y >= 1 && 1 <= m <= 12
    requires DaysBeforeMonth(y, m) + n < DaysInYear(y)
    ensures ValidDate(d) && d.year == y
    ensures DaysBeforeMonth(y, d.month) + d.day - 1 == DaysBeforeMonth(y, m) + n
    decreases 12 - m
  {
    DaysBeforeMonthStep(y, m);
    if n < DaysInMonth(y, m) then Date(y, m, n + 1)
    else MonthWalk(y, m + 1, n - DaysInMonth(y, m))
  }

  /** Walks the years from `y` on, consuming `n` days. */
  function YearWalk(y: nat, n: nat): (d: Date)
    requires y >= 1
    ensures ValidDate(d) && d.year >= y
    ensures DayNumber(d) == DaysBeforeYear(y) + n
    decreases n
  {
    if n < DaysInYear(y) then
      DaysBeforeMonthStep(y, 12);
      MonthWalk(y, 1, n)
    else
      YearStep(y);
      YearWalk(y + 1, n - DaysInYear(y))
  }

  /** `date.fromordinal(n + 1)`: the date with day number `n`. */
  function FromDayNumber(n: nat): (d: Date)
    ensures ValidDate(d) && DayNumber(d) == n
  {
    YearWalk(1, n)
  }

  /** Distinct valid dates have distinct day numbers. */
  lemma {:induction false} DayNumberInjective(d1: Date, d2: Date)
    requires ValidDate(d1) && ValidDate(d2)
    requires DayNumber(d1) == DayNumber(d2)
    ensures d1 == d2
  {
    if d1.year < d2.year {
      YearBound(d1);
      DaysBeforeYearMonotone(d1.year + 1, d2.year);
    } else if d2.year < d1.year {
      YearBound(d2);
      DaysBeforeYearMonotone(d2.year + 1, d1.year);
    } else if d1.month < d2.month {
      MonthBound(d1.year, d1.month, d2.month);
    } else if d2.month < d1.month {
      MonthBound(d1.year, d2.month, d1.month);
    }
  }

  lemma YearBound(d: Date)
    requires ValidDate(d)
    ensures DayNumber(d) < DaysBeforeYear(d.year + 1)
  {
    YearStep(d.year);
    DaysBeforeMonthStep(d.year, d.month);
    MonthBound(d.year, d.month, 13);
  }

  lemma MonthBound(y: int, m: int, m': int)
    requires 1 <= m < m' <= 13
    ensures DaysBeforeMonth(y, m) + DaysInMonth(y, m) <= DaysBeforeMonth(y, m')
  {
  }

  /** Reading a day number back from its date is the identity, so a date
      and its day number determine each other. */
  lemma FromDayNumberOfDayNumber(d: Date)
    requires ValidDate(d)
    ensures FromDayNumber(DayNumber(d)) == d
  {
    DayNumberInjective(FromDayNumber(DayNumber(d)), d);
  }

  /** `strftime("%Y-%m-%d")`: four-digit year, two-digit month and day. */
  function FormatDate(d: Date): (s: string)
    requires ValidDate(d)
  {
    Padded(d.year, 4) + "-" + Padded(d.month, 2) + "-" + Padded(d.day, 2)
  }

  /** Reads a `...Y-MM-DD` string back: a digit year of any width, a dash,
      two month digits, a dash, two day digits. */
  function ParseDate(s: string): (r: Option<Date>)
  {
    if |s| >= 7 && s[|s| - 3] == '-' && s[|s| - 6] == '-'
       && IsDigits(s[..|s| - 6]) && IsDigits(s[|s| - 5..|s| - 3]) && IsDigits(s[|s| - 2..])
    then Some(Date(Value(s[..|s| - 6]), Value(s[|s| - 5..|s| - 3]), Value(s[|s| - 2..])))
    else None
  }

  lemma ShortRender(n: nat)
    requires n < 100
    ensures |Render(n)| <= 2
  {
  }

  /** Both padded fields of a formatted date are exactly two digits wide. */
  lemma {:induction false} FormatDateFields(d: Date)
    requires ValidDate(d)
    ensures FormatDate(d) == Padded(d.year, 4) + "-" + Padded(d.month, 2) + "-" + Padded(d.day, 2)
    ensures |Padded(d.month, 2)| == 2 && |Padded(d.day, 2)| == 2
  {
    ShortRender(d.month);
    ShortRender(d.day);
  }

  /** A formatted date reads back as the same date. */
  lemma {:induction false} FormatDateRoundTrip(d: Date)
    requires ValidDate(d)
    ensures ParseDate(FormatDate(d)) == Some(d)
  {
    FormatDateFields(d);
    ParseFields(Padded(d.year, 4), Padded(d.month, 2), Padded(d.day, 2));
  }

  /** `ParseDate` reads the three digit fields of `y-mm-dd`. */
  lemma ParseFields(y: string, m: string, dd: string)
    requires |y| > 0 && IsDigits(y) && IsDigits(m) && IsDigits(dd) && |m| == 2 && |dd| == 2
    ensures ParseDate(y + "-" + m + "-" + dd) == Some(Date(Value(y), Value(m), Value(dd)))
  {
    var t := ['-', m[0], m[1], '-', dd[0], dd[1]];
    assert m == [m[0], m[1]] && dd == [dd[0], dd[1]];
    var s := y + "-" + m + "-" + dd;
    assert s == y + t;
    assert s[..|s| - 6] == y;
    assert s[|s| - 5..|s| - 3] == t[1..3] == m;
    assert s[|s| - 2..] == t[4..] == dd;
  }

  /** A formatted date consists of digits and exactly two dashes. */
  lemma {:induction false} FormatDateShape(d: Date)
    requires ValidDate(d)
    ensures forall i :: 0 <= i < |FormatDate(d)| ==> IsDigit(FormatDate(d)[i]) || FormatDate(d)[i] == '-'
    ensures Count(FormatDate(d), '-') == 2
  {
    FormatDateFields(d);
    var y, m, dd := Padded(d.year, 4), Padded(d.month, 2), Padded(d.day, 2);
    JoinedCharacters(y, m, dd);
    JoinedDashes(y, m, dd);
  }

  /** Digit fields joined by dashes hold only digits and dashes. */
  lemma JoinedCharacters(y: string, m: string, dd: string)
    requires IsDigits(y) && IsDigits(m) && IsDigits(dd)
    ensures var s := y + "-" + m + "-" + dd;
      forall i :: 0 <= i < |s| ==> IsDigit(s[i]) || s[i] == '-'
  {
    var s := y + "-" + m + "-" + dd;
    forall i | 0 <= i < |s|
      ensures IsDigit(s[i]) || s[i] == '-'
    {
      if i < |y| {
        assert s[i] == y[i];
      } else if |y| < i < |y| + 1 + |m| {
        assert s[i] == m[i - |y| - 1];
      } else if |y| + 1 + |m| < i {
        assert s[i] == dd[i - |y| - |m| - 2];
      }
    }
  }

  /** Three digit fields joined by dashes hold exactly two dashes. */
  lemma JoinedDashes(y: string, m: string, dd: string)
    requires IsDigits(y) && IsDigits(m) && IsDigits(dd)
    ensures Count(y + "-" + m + "-" + dd, '-') == 2
  {
    NoDash(y);
    NoDash(m);
    NoDash(dd);
    assert multiset(y + "-" + m + "-" + dd) == multiset(y) + multiset("-") + multiset(m) + multiset("-") + multiset(dd);
  }

  lemma NoDash(s: string)
    requires IsDigits(s)
    ensures multiset(s)['-'] == 0
  {
    assert forall i :: 0 <= i < |s| ==> s[i] != '-';
    assert '-' !in s;
  }
}
