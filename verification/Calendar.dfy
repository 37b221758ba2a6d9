/** Calendar dates as day numbers, and arithmetic on them; day numbers follow sections 15.9.1.3,
  * 15.9.1.4 and 15.9.1.12 of ECMA-262 edition 5.1.
  */
module Calendar {
  import Decimal

  /** A date as its parts; parts read from a text need not be a day of the calendar. */
  datatype Date = Date(year: int, month: int, day: int)

  predicate IsLeap(y: int) {
    y % 4 == 0 && (y % 100 != 0 || y % 400 == 0)
  }

  /** DayFromYear: the number of the first day of a year, 1970-01-01 being day 0. */
  function DayFromYear(y: int): int {
    365 * (y - 1970) + (y - 1969) / 4 - (y - 1901) / 100 + (y - 1601) / 400
  }

  /** Days of a year before its month `m`, counted from 0. */
  function MonthStart(leap: bool, m: int): int
    requires 0 <= m <= 12
  {
    var l := if leap then 1 else 0;
    if m == 0 then 0 else if m == 1 then 31 else if m == 2 then 59 + l else if m == 3 then 90 + l
    else if m == 4 then 120 + l else if m == 5 then 151 + l else if m == 6 then 181 + l else if m == 7 then 212 + l
    else if m == 8 then 243 + l else if m == 9 then 273 + l else if m == 10 then 304 + l else if m == 11 then 334 + l
    else 365 + l
  }

  /** MakeDay: months outside 0..11 carry into the year, days outside the month into the month. */
  function MakeDay(year: int, month: int, date: int): int {
    var y := year + month / 12;
    DayFromYear(y) + MonthStart(IsLeap(y), month % 12) + date - 1
  }

  /** A day of the calendar. */
  predicate IsValid(d: Date) {
    1 <= d.month <= 12 && 1 <= d.day <= MonthStart(IsLeap(d.year), d.month) - MonthStart(IsLeap(d.year), d.month - 1)
  }

  function DayNumber(d: Date): int {
    MakeDay(d.year, d.month - 1, d.day)
  }

  // ---- from day numbers back ----

  lemma YearLength(y: int)
    ensures DayFromYear(y + 1) == DayFromYear(y) + MonthStart(IsLeap(y), 12)
  {
    Quarters(y);
  }

  lemma Quarters(y: int)
    ensures (y - 1968) / 4 == (y - 1969) / 4 + (if y % 4 == 0 then 1 else 0)
    ensures (y - 1900) / 100 == (y - 1901) / 100 + (if y % 100 == 0 then 1 else 0)
    ensures (y - 1600) / 400 == (y - 1601) / 400 + (if y % 400 == 0 then 1 else 0)
  {
    NextMultiple(y, 1968, 4);
    NextMultiple(y, 1900, 100);
    NextMultiple(y, 1600, 400);
  }

  /** A quotient grows exactly at the multiples. */
  lemma NextMultiple(y: int, start: int, d: int)
    requires d > 0 && start % d == 0
    ensures (y - start) / d == (y - start - 1) / d + (if y % d == 0 then 1 else 0)
  {
    var q, r, k := y / d, y % d, start / d;
    Quotient(y - start, d, q - k, r);
    if r == 0 { Quotient(y - start - 1, d, q - k - 1, d - 1); } else { Quotient(y - start - 1, d, q - k, r - 1); }
  }

  lemma Quotient(n: int, d: int, q: int, r: int)
    requires 0 <= r < d && n == d * q + r
    ensures n / d == q
  {
    var p := n / d;
    assert d * p <= n < d * p + d;
    if p < q { Product(d, p + 1, q); } else if q < p { Product(d, q + 1, p); }
  }

  lemma Product(d: int, x: int, y: int)
    requires d > 0 && x <= y
    ensures d * x <= d * y
  {
  }

  lemma {:induction false} YearsApart(y: int, z: int)
    requires y <= z
    ensures 365 * (z - y) <= DayFromYear(z) - DayFromYear(y) <= 366 * (z - y)
    decreases z - y
  {
    hide DayFromYear, IsLeap;
    if y < z {
      YearLength(z - 1);
      YearsApart(y, z - 1);
    }
  }

  /** YearFromTime: the last year that does not start after the day, searched from below. */
  function YearFrom(n: int, y: int): (year: int)
    requires DayFromYear(y) <= n
    ensures DayFromYear(year) <= n < DayFromYear(year + 1)
    decreases n - DayFromYear(y)
  {
    if n < DayFromYear(y + 1) then y
    else
      YearLength(y);
      YearFrom(n, y + 1)
  }

  function YearOf(n: int): (year: int)
    ensures DayFromYear(year) <= n < DayFromYear(year + 1)
  {
    var from := if n >= 0 then 1970 + n / 366 else 1970 + n / 365;
    if n >= 0 then YearsApart(1970, from); YearFrom(n, from) else YearsApart(from, 1970); YearFrom(n, from)
  }

  /** MonthFromTime, from 0. */
  function MonthIn(leap: bool, day: int): (m: int)
    requires 0 <= day < MonthStart(leap, 12)
    ensures 0 <= m < 12 && MonthStart(leap, m) <= day < MonthStart(leap, m + 1)
  {
    if day < MonthStart(leap, 6) then
      if day < MonthStart(leap, 1) then 0 else if day < MonthStart(leap, 2) then 1 else if day < MonthStart(leap, 3) then 2
      else if day < MonthStart(leap, 4) then 3 else if day < MonthStart(leap, 5) then 4 else 5
    else if day < MonthStart(leap, 7) then 6 else if day < MonthStart(leap, 8) then 7 else if day < MonthStart(leap, 9) then 8
    else if day < MonthStart(leap, 10) then 9 else if day < MonthStart(leap, 11) then 10 else 11
  }

  /** The date of a day number. */
  function FromDay(n: int): (d: Date)
    ensures IsValid(d) && DayNumber(d) == n
  {
    var y := YearOf(n);
    DayInYear(y, n);
    Date(y, MonthIn(IsLeap(y), n - DayFromYear(y)) + 1, n - DayFromYear(y) - MonthStart(IsLeap(y), MonthIn(IsLeap(y), n - DayFromYear(y))) + 1)
  }

  lemma DayInYear(y: int, n: int)
    requires DayFromYear(y) <= n < DayFromYear(y + 1)
    ensures 0 <= n - DayFromYear(y) < MonthStart(IsLeap(y), 12)
    ensures var rest := n - DayFromYear(y); var m := MonthIn(IsLeap(y), rest);
            var d := Date(y, m + 1, rest - MonthStart(IsLeap(y), m) + 1);
            IsValid(d) && DayNumber(d) == n
  {
    hide DayFromYear, IsLeap, MonthStart, MonthIn;
    YearLength(y);
  }

  lemma MonthsGrow(leap: bool, m: int, k: int)
    requires 0 <= m < k <= 12
    ensures MonthStart(leap, m) + 28 <= MonthStart(leap, k)
  {
  }

  /** A valid date lies in its year. */
  lemma InItsYear(d: Date)
    requires IsValid(d)
    ensures DayFromYear(d.year) <= DayNumber(d) < DayFromYear(d.year + 1)
  {
    hide DayFromYear;
    YearLength(d.year);
    if d.month < 12 { MonthsGrow(IsLeap(d.year), d.month, 12); }
    if d.month > 1 { MonthsGrow(IsLeap(d.year), 0, d.month - 1); }
  }

  lemma EarlierMonth(d: Date, e: Date)
    requires IsValid(d) && IsValid(e) && d.year == e.year && d.month < e.month
    ensures DayNumber(d) < DayNumber(e)
  {
    hide DayFromYear, IsLeap, MonthStart;
    if d.month < e.month - 1 { MonthsGrow(IsLeap(d.year), d.month, e.month - 1); }
  }

  lemma EarlierYear(d: Date, e: Date)
    requires IsValid(d) && IsValid(e) && d.year < e.year
    ensures DayNumber(d) < DayNumber(e)
  {
    hide DayFromYear, IsLeap, MonthStart, DayNumber;
    InItsYear(d);
    InItsYear(e);
    YearsApart(d.year + 1, e.year);
  }

  /** Day numbers and dates of the calendar correspond one to one, in order. */
  lemma DayNumbersOrder(d: Date, e: Date)
    requires IsValid(d) && IsValid(e)
    ensures DayNumber(d) < DayNumber(e) <==>
              d.year < e.year || (d.year == e.year && (d.month < e.month || (d.month == e.month && d.day < e.day)))
    ensures DayNumber(d) == DayNumber(e) <==> d == e
  {
    hide DayFromYear, IsLeap, MonthStart;
    if d.year < e.year { EarlierYear(d, e); }
    else if e.year < d.year { EarlierYear(e, d); }
    else if d.month < e.month { EarlierMonth(d, e); }
    else if e.month < d.month { EarlierMonth(e, d); }
  }

  lemma FromDayOf(d: Date)
    requires IsValid(d)
    ensures FromDay(DayNumber(d)) == d
  {
    hide DayNumber, FromDay;
    DayNumbersOrder(FromDay(DayNumber(d)), d);
  }

  // ---- as the service writes and reads dates ----

  /** A text of at least four digits, two, and two. */
  function ToText(d: Date): string
    requires d.year >= 0 && d.month >= 0 && d.day >= 0
  {
    Decimal.Padded(d.year, 4) + "-" + (Decimal.Padded(d.month, 2) + "-" + Decimal.Padded(d.day, 2))
  }

  /** Year, month and day, parted by hyphens. */
  lemma TextIs(d: Date)
    requires IsValid(d) && 0 <= d.year <= 9999
    ensures var text := ToText(d);
            && |text| == 10 && text[4] == '-' && text[7] == '-'
            && Decimal.AllDigits(text[..4]) && Decimal.Parse(text[..4]) == d.year
            && Decimal.AllDigits(text[5..7]) && Decimal.Parse(text[5..7]) == d.month
            && Decimal.AllDigits(text[8..]) && Decimal.Parse(text[8..]) == d.day
  {
    hide Decimal.Padded, Decimal.Parse, IsLeap;
    Powers();
    assert d.day <= 31;
    var (y, m, day) := (Decimal.Padded(d.year, 4), Decimal.Padded(d.month, 2), Decimal.Padded(d.day, 2));
    Decimal.ParsePadded(d.year, 4);
    Decimal.ParsePadded(d.month, 2);
    Decimal.ParsePadded(d.day, 2);
    var text := ToText(d);
    assert text == y + "-" + (m + "-" + day);
    assert text[..4] == y && text[5..7] == m && text[8..] == day;
  }

  /** Up to the year 9999, texts compare as the dates do. */
  lemma TextOrder(d: Date, e: Date)
    requires IsValid(d) && IsValid(e) && 0 <= d.year <= 9999 && 0 <= e.year <= 9999
    ensures Decimal.Less(ToText(d), ToText(e)) <==> DayNumber(d) < DayNumber(e)
  {
    hide Decimal.Padded, Decimal.Less, Decimal.Parse, DayNumber, IsLeap;
    Powers();
    assert d.day <= 31 && e.day <= 31;
    DayNumbersOrder(d, e);
    SameWidth(d.year, e.year, 4);
    SameWidth(d.month, e.month, 2);
    SameWidth(d.day, e.day, 2);
    var (a, b, c) := (Decimal.Padded(d.year, 4), Decimal.Padded(d.month, 2), Decimal.Padded(d.day, 2));
    var (x, y, z) := (Decimal.Padded(e.year, 4), Decimal.Padded(e.month, 2), Decimal.Padded(e.day, 2));
    Decimal.LessByPrefix(a + "-", b + "-" + c, x + "-", y + "-" + z);
    Decimal.LessByPrefix(a, "-", x, "-");
    Decimal.LessIrreflexive("-");
    Decimal.LessByPrefix(b + "-", c, y + "-", z);
    Decimal.LessByPrefix(b, "-", y, "-");
    SameStart(a, x, "-");
    SameStart(b, y, "-");
  }

  lemma Powers()
    ensures Decimal.Pow10(2) == 100 && Decimal.Pow10(4) == 10000
  {
  }

  lemma SameStart(a: string, x: string, end: string)
    requires |a| == |x|
    ensures a + end == x + end <==> a == x
  {
    if a + end == x + end { assert (a + end)[..|a|] == (x + end)[..|x|]; }
  }

  lemma SameWidth(m: nat, n: nat, width: nat)
    requires m < Decimal.Pow10(width) && n < Decimal.Pow10(width) && width > 0
    ensures var s, t := Decimal.Padded(m, width), Decimal.Padded(n, width);
            |s| == |t| == width && (Decimal.Less(s, t) <==> m < n) && (s == t <==> m == n)
  {
    hide Decimal.Padded, Decimal.Less, Decimal.Parse;
    Decimal.ParsePadded(m, width);
    Decimal.ParsePadded(n, width);
    Decimal.LessIsSmaller(Decimal.Padded(m, width), Decimal.Padded(n, width));
  }

  /** Date.UTC reads the years 0 to 99 as 1900 to 1999. */
  function UtcYear(y: int): int {
    if 0 <= y <= 99 then 1900 + y else y
  }

  function AddDays(d: Date, days: int): (e: Date)
    ensures IsValid(e)
  {
    FromDay(MakeDay(UtcYear(d.year), d.month - 1, d.day + days))
  }

  /** Months; a day past the end of the month rolls over into the next. */
  function AddMonths(d: Date, months: int): (e: Date)
    ensures IsValid(e)
  {
    FromDay(MakeDay(UtcYear(d.year), d.month - 1 + months, d.day))
  }

  /** A date of the years 0 to 99 is counted from the date 1900 years later. */
  lemma CountedFrom1900(d: Date, n: int)
    requires 0 <= d.year <= 99
    ensures AddDays(d, n) == AddDays(Date(1900 + d.year, d.month, d.day), n)
    ensures AddMonths(d, n) == AddMonths(Date(1900 + d.year, d.month, d.day), n)
  {
    hide FromDay, MakeDay, IsValid;
  }

  lemma AddDaysNumber(d: Date, days: int)
    requires d.year >= 100 || d.year < 0
    ensures DayNumber(AddDays(d, days)) == DayNumber(d) + days
  {
    hide DayFromYear, MonthStart, IsLeap;
  }

  /** From the year 100 on, adding days composes additively and is strictly monotone. */
  lemma AddDaysComposes(d: Date, a: int, b: int)
    requires d.year >= 100 && AddDays(d, a).year >= 100
    ensures AddDays(AddDays(d, a), b) == AddDays(d, a + b)
    ensures a < b <==> DayNumber(AddDays(d, a)) < DayNumber(AddDays(d, b))
  {
    hide AddDays, DayNumber;
    AddDaysNumber(d, a);
    AddDaysNumber(AddDays(d, a), b);
    AddDaysNumber(d, a + b);
    AddDaysNumber(d, b);
    DayNumbersOrder(AddDays(AddDays(d, a), b), AddDays(d, a + b));
  }

  /** Adding no days gives the date back exactly outside the years 0 to 99. */
  lemma AddNothing(d: Date)
    requires IsValid(d)
    ensures AddDays(d, 0) == d <==> !(0 <= d.year <= 99)
  {
    hide DayNumber, IsValid, FromDay, DayFromYear;
    if 0 <= d.year <= 99 {
      hide AddDays;
      CenturyMoved(d);
    } else {
      AddDaysNumber(d, 0);
      DayNumbersOrder(AddDays(d, 0), d);
    }
  }

  lemma CenturyMoved(d: Date)
    requires IsValid(d) && 0 <= d.year <= 99
    ensures AddDays(d, 0).year >= 1900
  {
    hide DayFromYear, IsLeap, FromDay, MakeDay, MonthStart;
    YearsApart(1900, UtcYear(d.year));
    FirstOfYear(d, UtcYear(d.year));
    var e := AddDays(d, 0);
    if e.year < 1900 {
      InItsYear(e);
      YearsApart(e.year + 1, 1900);
    }
  }

  lemma FirstOfYear(d: Date, y: int)
    requires 1 <= d.month <= 12 && d.day >= 1
    ensures MakeDay(y, d.month - 1, d.day) >= DayFromYear(y)
  {
    hide DayFromYear, IsLeap;
  }

  // ---- months ----

  /** The first day of a month, counting months from the year 0. */
  function MonthDay(m: int): int {
    DayFromYear(m / 12) + MonthStart(IsLeap(m / 12), m % 12)
  }

  lemma NextMonth(m: int)
    ensures MonthDay(m) + 28 <= MonthDay(m + 1)
  {
    hide DayFromYear, IsLeap;
    if m % 12 == 11 {
      Quotient(m + 1, 12, m / 12 + 1, 0);
      YearLength(m / 12);
    } else {
      Quotient(m + 1, 12, m / 12, m % 12 + 1);
    }
  }

  lemma {:induction false} MonthsApart(m: int, k: nat)
    ensures MonthDay(m) + 28 * k <= MonthDay(m + k)
    decreases k
  {
    hide MonthDay;
    if k > 0 {
      MonthsApart(m, k - 1);
      NextMonth(m + k - 1);
    }
  }

  lemma MakeDayByMonth(year: int, month: int, date: int)
    ensures MakeDay(year, month, date) == MonthDay(12 * year + month) + date - 1
  {
    hide DayFromYear, IsLeap;
    Quotient(12 * year + month, 12, year + month / 12, month % 12);
  }

  /** Month-end rollover included, each month more is at least 28 days later. */
  lemma AddMonthsNumber(d: Date, months: nat)
    requires d.year >= 100 && 1 <= d.month <= 12
    ensures DayNumber(AddMonths(d, months)) >= DayNumber(d) + 28 * months
  {
    hide MonthDay, MakeDay, IsValid, FromDay;
    MakeDayByMonth(d.year, d.month - 1, d.day);
    MakeDayByMonth(d.year, d.month - 1 + months, d.day);
    MonthsApart(12 * d.year + d.month - 1, months);
  }

  // ---- the calendar itself ----

  /** A year divisible by 4 is a leap year, but of the full centuries every fourth only. */
  predicate HasLeapDay(year: int) {
    if year % 100 == 0 then year % 400 == 0 else year % 4 == 0
  }

  /** Thirty days have April, June, September and November. */
  function MonthLength(leap: bool, month: int): int {
    if month == 2 then (if leap then 29 else 28) else if month in {4, 6, 9, 11} then 30 else 31
  }

  function DaysIn(year: int, month: int): int {
    MonthLength(HasLeapDay(year), month)
  }

  function NextDay(d: Date): Date {
    if d.day < DaysIn(d.year, d.month) then Date(d.year, d.month, d.day + 1)
    else if d.month < 12 then Date(d.year, d.month + 1, 1)
    else Date(d.year + 1, 1, 1)
  }

  lemma LeapDays(year: int)
    ensures IsLeap(year) <==> HasLeapDay(year)
  {
    var q, r := year / 100, year % 100;
    assert year == 100 * q + r;
    Remainder(year, 4, 25 * q + r / 4, r % 4);
    if year % 400 == 0 { Remainder(year, 100, 4 * (year / 400), 0); }
  }

  lemma Remainder(n: int, d: int, q: int, r: int)
    requires 0 <= r < d && n == d * q + r
    ensures n % d == r
  {
    Quotient(n, d, q, r);
  }

  lemma MonthLengths(leap: bool, month: int)
    requires 1 <= month <= 12
    ensures MonthStart(leap, month) == MonthStart(leap, month - 1) + MonthLength(leap, month)
    ensures MonthStart(leap, 0) == 0 && 28 <= MonthLength(leap, month) <= 31 && MonthLength(leap, 12) == 31
  {
  }

  lemma ValidDates(d: Date)
    ensures IsValid(d) <==> 1 <= d.month <= 12 && 1 <= d.day <= DaysIn(d.year, d.month)
  {
    hide IsLeap, HasLeapDay, MonthStart, MonthLength;
    LeapDays(d.year);
    if 1 <= d.month <= 12 { MonthLengths(IsLeap(d.year), d.month); }
  }

  lemma DayNumberInMonth(d: Date)
    requires 1 <= d.month <= 12
    ensures DayNumber(d) == DayFromYear(d.year) + MonthStart(IsLeap(d.year), d.month - 1) + d.day - 1
  {
    hide DayFromYear, IsLeap, MonthStart;
  }

  /** Counting from 1970-01-01, each day of the calendar has the next number. */
  lemma DaysAreCounted(d: Date)
    requires IsValid(d)
    ensures DayNumber(Date(1970, 1, 1)) == 0
    ensures IsValid(NextDay(d)) && DayNumber(NextDay(d)) == DayNumber(d) + 1
  {
    FirstDay();
    ValidDates(d);
    ValidDates(NextDay(d));
    hide DayNumber, DayFromYear, IsLeap, HasLeapDay, MonthStart, MonthLength, IsValid;
    LeapDays(d.year);
    LeapDays(d.year + 1);
    DayNumberInMonth(d);
    DayNumberInMonth(NextDay(d));
    MonthLengths(IsLeap(d.year), d.month);
    MonthLengths(IsLeap(d.year), if d.month < 12 then d.month + 1 else 1);
    MonthLengths(IsLeap(d.year + 1), 1);
    if d.month == 12 { YearLength(d.year); }
  }

  lemma FirstDay()
    ensures DayNumber(Date(1970, 1, 1)) == 0
  {
    hide DayNumber, MonthStart, IsLeap;
    FirstYear();
    DayNumberInMonth(Date(1970, 1, 1));
    MonthLengths(IsLeap(1970), 1);
  }

  lemma FirstYear()
    ensures DayFromYear(1970) == 0
  {
  }

  /** One day more is the next day of the calendar. */
  lemma TomorrowIsNextDay(d: Date)
    requires IsValid(d) && (d.year >= 100 || d.year < 0)
    ensures AddDays(d, 1) == NextDay(d)
  {
    hide AddDays, DayNumber, IsValid, NextDay;
    DaysAreCounted(d);
    AddDaysNumber(d, 1);
    DayNumbersOrder(AddDays(d, 1), NextDay(d));
  }

  /** A day of a month, months counted from the year 0; where the month is too short, the days it lacks are
    * counted on into the month after it.
    */
  function OnMonth(m: int, day: int): Date {
    var year, month := m / 12, m % 12 + 1;
    if day <= DaysIn(year, month) then Date(year, month, day)
    else if month < 12 then Date(year, month + 1, day - DaysIn(year, month))
    else Date(year + 1, 1, day - DaysIn(year, month))
  }

  /** The same day some months later or earlier. */
  function MonthsOn(d: Date, months: int): Date {
    OnMonth(12 * d.year + d.month - 1 + months, d.day)
  }

  lemma AddMonthsIsMonthsOn(d: Date, months: int)
    requires IsValid(d) && (d.year >= 100 || d.year < 0)
    ensures AddMonths(d, months) == MonthsOn(d, months)
  {
    hide FromDay, MakeDay, MonthDay, DaysIn, IsLeap, MonthStart;
    var m := 12 * d.year + d.month - 1 + months;
    MakeDayByMonth(d.year, d.month - 1 + months, d.day);
    ValidDates(d);
    assert DaysIn(d.year, d.month) <= 31 by { MonthLengths(HasLeapDay(d.year), d.month); LengthIs(d.year, d.month); }
    OnIsCounted(m, d.day);
    FromDayOf(MonthsOn(d, months));
  }

  lemma LengthIs(year: int, month: int)
    ensures DaysIn(year, month) == MonthLength(HasLeapDay(year), month)
  {
  }

  lemma OnIsCounted(m: int, day: int)
    requires 1 <= day <= 31
    ensures var d := OnMonth(m, day); IsValid(d) && DayNumber(d) == MonthDay(m) + day - 1
  {
    var year, month := m / 12, m % 12 + 1;
    var d := OnMonth(m, day);
    ValidDates(d);
    hide DayNumber, DayFromYear, IsLeap, HasLeapDay, MonthStart, MonthLength, IsValid;
    LeapDays(year);
    LeapDays(year + 1);
    DayNumberInMonth(d);
    MonthLengths(IsLeap(year), month);
    MonthLengths(IsLeap(year), if month < 12 then month + 1 else 1);
    MonthLengths(IsLeap(year + 1), 1);
    if month == 12 { YearLength(year); }
  }
}
