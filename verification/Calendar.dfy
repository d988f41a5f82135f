// Date texts as seconds, and the seek offset made from two of them.

module Calendar {

  datatype Date = Date(year: int, month: int, day: int, hour: int, minute: int, second: int)

  predicate Leap(year: int) {
    year % 4 == 0 && (year % 100 != 0 || year % 400 == 0)
  }

  function YearLength(year: int): int {
    if Leap(year) then 366 else 365
  }

  function MonthLength(year: int, month: int): int {
    if month == 2 then (if Leap(year) then 29 else 28)
    else if month in {4, 6, 9, 11} then 30
    else 31
  }

  predicate Valid(d: Date) {
    && 1 <= d.month <= 12 && 1 <= d.day <= MonthLength(d.year, d.month)
    && 0 <= d.hour < 24 && 0 <= d.minute < 60 && 0 <= d.second < 60
  }

  // ---------- the calendar, by counting ----------

  // The days of so many years, from the given year on.
  function DaysInYears(year: int, n: nat): int {
    if n == 0 then 0 else DaysInYears(year, n - 1) + YearLength(year + n - 1)
  }

  // Days from the start of 1970 to the start of the year, negative for earlier years.
  function DaysBeforeYear(year: int): int {
    if year >= 1970 then DaysInYears(1970, year - 1970) else -DaysInYears(year, 1970 - year)
  }

  function DaysBeforeMonth(year: int, month: int): int
    requires 1 <= month <= 13
    decreases month
  {
    if month <= 1 then 0 else DaysBeforeMonth(year, month - 1) + MonthLength(year, month - 1)
  }

  function Days(d: Date): int
    requires Valid(d)
  {
    DaysBeforeYear(d.year) + DaysBeforeMonth(d.year, d.month) + (d.day - 1)
  }

  // Seconds since the start of 1970, by counting years, months and days.
  function Seconds(d: Date): int
    requires Valid(d)
  {
    Days(d) * 86400 + d.hour * 3600 + d.minute * 60 + d.second
  }

  // The first second of 1970.
  const EPOCH := Date(1970, 1, 1, 0, 0, 0)

  // The first second of the next day.
  function NextDay(d: Date): Date
    requires Valid(d)
  {
    if d.day < MonthLength(d.year, d.month) then Date(d.year, d.month, d.day + 1, 0, 0, 0)
    else if d.month < 12 then Date(d.year, d.month + 1, 1, 0, 0, 0)
    else Date(d.year + 1, 1, 1, 0, 0, 0)
  }

  // One second later, by the rules of clock and calendar.
  function Tick(d: Date): Date
    requires Valid(d)
  {
    if d.second < 59 then d.(second := d.second + 1)
    else if d.minute < 59 then d.(minute := d.minute + 1, second := 0)
    else if d.hour < 23 then d.(hour := d.hour + 1, minute := 0, second := 0)
    else NextDay(d)
  }

  predicate Before(d: Date, e: Date) {
    d.year < e.year || (d.year == e.year && (
    d.month < e.month || (d.month == e.month && (
    d.day < e.day || (d.day == e.day && (
    d.hour < e.hour || (d.hour == e.hour && (
    d.minute < e.minute || (d.minute == e.minute &&
    d.second < e.second)))))))))
  }

  lemma {:induction false} YearIsItsMonths(year: int)
    ensures DaysBeforeMonth(year, 13) == YearLength(year)
  {
    assert DaysBeforeMonth(year, 4) == DaysBeforeMonth(year, 3) + 31
        == DaysBeforeMonth(year, 2) + MonthLength(year, 2) + 31;
    assert DaysBeforeMonth(year, 7) == DaysBeforeMonth(year, 6) + 30 == DaysBeforeMonth(year, 5) + 61
        == DaysBeforeMonth(year, 4) + 91;
    assert DaysBeforeMonth(year, 10) == DaysBeforeMonth(year, 9) + 30 == DaysBeforeMonth(year, 8) + 61
        == DaysBeforeMonth(year, 7) + 92;
    assert DaysBeforeMonth(year, 13) == DaysBeforeMonth(year, 12) + 31 == DaysBeforeMonth(year, 11) + 61
        == DaysBeforeMonth(year, 10) + 92;
  }

  lemma {:induction false} FirstYear(year: int, n: nat)
    requires n > 0
    ensures DaysInYears(year, n) == YearLength(year) + DaysInYears(year + 1, n - 1)
  {
    if n > 1 {
      FirstYear(year, n - 1);
    }
  }

  lemma YearByYear(year: int)
    ensures DaysBeforeYear(year + 1) == DaysBeforeYear(year) + YearLength(year)
  {
    if year < 1970 {
      FirstYear(year, 1970 - year);
    }
  }

  lemma NextDayCounts(d: Date)
    requires Valid(d)
    ensures Valid(NextDay(d)) && Days(NextDay(d)) == Days(d) + 1
  {
    if d.day == MonthLength(d.year, d.month) {
      if d.month < 12 {
        assert DaysBeforeMonth(d.year, d.month + 1) == DaysBeforeMonth(d.year, d.month) + d.day;
      } else {
        YearIsItsMonths(d.year);
        YearByYear(d.year);
        assert DaysBeforeMonth(d.year, 13) == DaysBeforeMonth(d.year, 12) + d.day;
      }
    }
  }

  // The count advances by one with every tick of the clock.
  lemma TickCounts(d: Date)
    requires Valid(d)
    ensures Valid(Tick(d)) && Seconds(Tick(d)) == Seconds(d) + 1
  {
    if d.second == 59 && d.minute == 59 && d.hour == 23 {
      NextDayCounts(d);
    } else {
      assert Days(Tick(d)) == Days(d);
    }
  }

  // ---------- order ----------

  lemma {:induction false} MonthsGrow(year: int, m: int, n: int)
    requires 1 <= m < n <= 13
    ensures DaysBeforeMonth(year, m) + MonthLength(year, m) <= DaysBeforeMonth(year, n)
    decreases n
  {
    if m + 1 < n {
      MonthsGrow(year, m, n - 1);
    }
  }

  lemma {:induction false} YearsGrow(y: int, z: int)
    requires y < z
    ensures DaysBeforeYear(y) + YearLength(y) <= DaysBeforeYear(z)
    decreases z - y
  {
    YearByYear(z - 1);
    if y + 1 < z {
      YearsGrow(y, z - 1);
    }
  }

  lemma {:induction false} DayOfYear(d: Date)
    requires Valid(d)
    ensures 0 <= DaysBeforeMonth(d.year, d.month) + (d.day - 1) < YearLength(d.year)
  {
    YearIsItsMonths(d.year);
    MonthsGrow(d.year, d.month, 13);
    if d.month > 1 {
      MonthsGrow(d.year, 1, d.month);
    }
  }

  lemma EarlierDay(d: Date, e: Date)
    requires Valid(d) && Valid(e)
    ensures d.year < e.year ==> Days(d) < Days(e)
    ensures d.year == e.year && d.month < e.month ==> Days(d) < Days(e)
  {
    DayOfYear(d);
    DayOfYear(e);
    if d.year < e.year {
      YearsGrow(d.year, e.year);
    } else if d.year == e.year && d.month < e.month {
      MonthsGrow(d.year, d.month, e.month);
    }
  }

  // The count is strictly monotone, so it tells dates apart.
  lemma SecondsOrder(d: Date, e: Date)
    requires Valid(d) && Valid(e)
    ensures Before(d, e) <==> Seconds(d) < Seconds(e)
    ensures d == e <==> Seconds(d) == Seconds(e)
  {
    if Before(d, e) {
      EarlierDay(d, e);
    } else if d != e {
      EarlierDay(e, d);
      assert Before(e, d);
    }
  }

  // ---------- elapsed time ----------

  // The date n seconds later, by ticking.
  function Later(d: Date, n: nat): (e: Date)
    requires Valid(d)
    ensures Valid(e) && Seconds(e) == Seconds(d) + n
  {
    if n == 0 then d else
    var e := Later(d, n - 1);
    TickCounts(e);
    Tick(e)
  }

  // The difference of two counts is the true elapsed time: ticking the clock that many
  // times leads from one date to the other.
  lemma DifferenceIsElapsed(d: Date, e: Date)
    requires Valid(d) && Valid(e) && Seconds(d) <= Seconds(e)
    ensures Later(d, Seconds(e) - Seconds(d)) == e
  {
    SecondsOrder(Later(d, Seconds(e) - Seconds(d)), e);
  }

  lemma ElapsedBy(from: Date, to: Date, elapsed: nat)
    requires Valid(from) && Valid(to) && Seconds(from) + elapsed == Seconds(to)
    ensures Later(from, elapsed) == to
  {
    DifferenceIsElapsed(from, to);
  }

  lemma EpochIsValid()
    ensures Valid(EPOCH)
  {
  }

  lemma EpochDays()
    ensures DaysBeforeYear(1970) == 0 && DaysBeforeMonth(1970, 1) == 0
  {
  }

  // The count starts at 0.
  lemma EpochIsZero()
    ensures Valid(EPOCH) && Seconds(EPOCH) == 0
  {
    EpochIsValid();
    EpochDays();
  }

  lemma FromZero(epoch: Date, d: Date)
    requires Valid(epoch) && Valid(d) && Seconds(epoch) == 0 <= Seconds(d)
    ensures Later(epoch, Seconds(d)) == d
  {
    ElapsedBy(epoch, d, Seconds(d));
  }

  // The count can be inverted: ticking it off from the epoch gives the date back.
  lemma SecondsInvertible(d: Date)
    requires Valid(d) && Seconds(d) >= 0
    ensures Valid(EPOCH) && Later(EPOCH, Seconds(d)) == d
  {
    EpochIsZero();
    FromZero(EPOCH, d);
  }

  // ---------- mktime ----------

  // The broken-down time of the C library: years since 1900, months from 0.
  datatype Tm = Tm(year: int, month: int, day: int, hour: int, minute: int, second: int)

  const CUMULATIVE := [0, 31, 59, 90, 120, 151, 181, 212, 243, 273, 304, 334]

  function YearDay(tm: Tm): int
    requires 0 <= tm.month < 12
  {
    CUMULATIVE[tm.month] + (if tm.month >= 2 && Leap(tm.year + 1900) then 1 else 0) + tm.day - 1
  }

  // "Seconds Since the Epoch" of section 4.16 of the POSIX Base Definitions, less the
  // constant offset of the local zone from it. POSIX leaves years before 1970 open; there
  // the formula is read with quotients rounded down.
  function MkTime(tm: Tm, zone: int): int
    requires 0 <= tm.month < 12
  {
    tm.second + tm.minute * 60 + tm.hour * 3600 + YearDay(tm) * 86400 +
    (tm.year - 70) * 31536000 + ((tm.year - 69) / 4) * 86400 -
    ((tm.year - 1) / 100) * 86400 + ((tm.year + 299) / 400) * 86400 - zone
  }

  function Broken(d: Date): Tm {
    Tm(d.year - 1900, d.month - 1, d.day, d.hour, d.minute, d.second)
  }

  // Leap days from 1970 up to the year.
  function LeapDaysBefore(year: int): int {
    (year - 1969) / 4 - (year - 1901) / 100 + (year - 1601) / 400
  }

  lemma {:induction false} YearsByFormula(year: int)
    ensures DaysBeforeYear(year) == (year - 1970) * 365 + LeapDaysBefore(year)
    decreases if year < 1970 then 1970 - year else year - 1970
  {
    if year > 1970 {
      YearsByFormula(year - 1);
      YearByYear(year - 1);
      LeapStep(year - 1);
    } else if year < 1970 {
      YearsByFormula(year + 1);
      YearByYear(year);
      LeapStep(year);
    }
  }

  lemma LeapStep(year: int)
    ensures LeapDaysBefore(year + 1) == LeapDaysBefore(year) + YearLength(year) - 365
  {
    FourthYear(year);
    HundredthYear(year);
    FourHundredthYear(year);
    CenturiesNest(year);
  }

  lemma CenturiesNest(year: int)
    ensures year % 400 == 0 ==> year % 100 == 0
    ensures year % 100 == 0 ==> year % 4 == 0
  {
    QuadMultiple(year / 100);
    var q := year / 400;
    if year % 400 == 0 {
      assert year == 400 * q == 100 * (4 * q);
      MultipleOf100(4 * q);
    }
  }

  lemma MultipleOf100(k: int)
    ensures (100 * k) % 100 == 0
  {
  }

  lemma QuadMultiple(k: int)
    ensures (100 * k) % 4 == 0
  {
    assert 100 * k == 4 * (25 * k);
  }

  lemma FourthYear(year: int)
    ensures (year - 1968) / 4 == (year - 1969) / 4 + if year % 4 == 0 then 1 else 0
  {
  }

  lemma HundredthYear(year: int)
    ensures (year - 1900) / 100 == (year - 1901) / 100 + if year % 100 == 0 then 1 else 0
  {
  }

  lemma FourHundredthYear(year: int)
    ensures (year - 1600) / 400 == (year - 1601) / 400 + if year % 400 == 0 then 1 else 0
  {
  }

  lemma {:induction false} MonthTable(year: int, month: int)
    requires 1 <= month <= 12
    ensures DaysBeforeMonth(year, month) == CUMULATIVE[month - 1] + if month > 2 && Leap(year) then 1 else 0
    decreases month
  {
    if month > 1 {
      MonthTable(year, month - 1);
    }
  }

  // The closed formula of mktime is the count of the calendar.
  lemma MkTimeCounts(d: Date, zone: int)
    requires Valid(d)
    ensures MkTime(Broken(d), zone) == Seconds(d) - zone
  {
    YearsByFormula(d.year);
    MonthTable(d.year, d.month);
  }

  // ---------- the calendar, by arithmetic alone ----------

  // Leap days of the years up to this one.
  function LeapDays(year: int): int {
    year / 4 - year / 100 + year / 400
  }

  // Days since the start of 1970, without a table: years and months are counted from March,
  // five of which have 153 days.
  function CivilDays(d: Date): int {
    var year := if d.month <= 2 then d.year - 1 else d.year;
    365 * year + LeapDays(year) + (153 * ((d.month + 9) % 12) + 2) / 5 + d.day - 1 - 719468
  }

  function CivilSeconds(d: Date): int {
    CivilDays(d) * 86400 + d.hour * 3600 + d.minute * 60 + d.second
  }

  // The count of the calendar is that number, for every date.
  lemma SecondsAreCivil(d: Date)
    requires Valid(d)
    ensures Days(d) == CivilDays(d) && Seconds(d) == CivilSeconds(d)
  {
    YearFromMarch(d.year);
    MonthFromMarch(d.year, d.month);
  }

  lemma YearFromMarch(year: int)
    ensures DaysBeforeYear(year) == 365 * (year - 1) + LeapDays(year - 1) - 719162
    ensures LeapDays(year) == LeapDays(year - 1) + if Leap(year) then 1 else 0
  {
    YearsByFormula(year);
    LeapShift(year);
    LeapShift(year + 1);
    LeapStep(year);
  }

  lemma LeapShift(year: int)
    ensures LeapDaysBefore(year) == LeapDays(year - 1) - 477
  {
    assert (year - 1969) / 4 == (year - 1) / 4 - 492;
    assert (year - 1901) / 100 == (year - 1) / 100 - 19;
    assert (year - 1601) / 400 == (year - 1) / 400 - 4;
  }

  lemma MonthFromMarch(year: int, month: int)
    requires 1 <= month <= 12
    ensures DaysBeforeMonth(year, month) ==
            (153 * ((month + 9) % 12) + 2) / 5 + if month > 2 then (if Leap(year) then 60 else 59) else -306
  {
    MonthTable(year, month);
  }

  // The calendar repeats after 400 years of 146097 days.
  lemma FourHundredYears(d: Date)
    requires Valid(d)
    ensures var e := d.(year := d.year + 400); Valid(e) && Days(e) == Days(d) + 146097
  {
    var e := d.(year := d.year + 400);
    SameLeap(d.year);
    SecondsAreCivil(d);
    SecondsAreCivil(e);
    LeapDaysRepeat(if d.month <= 2 then d.year - 1 else d.year);
  }

  lemma SameLeap(year: int)
    ensures Leap(year + 400) <==> Leap(year)
  {
    SameQuarter(year);
    SameCentury(year);
    SameEra(year);
  }

  lemma SameQuarter(year: int)
    ensures (year + 400) % 4 == year % 4
  {
  }

  lemma SameCentury(year: int)
    ensures (year + 400) % 100 == year % 100
  {
  }

  lemma SameEra(year: int)
    ensures (year + 400) % 400 == year % 400
  {
  }

  lemma LeapDaysRepeat(year: int)
    ensures LeapDays(year + 400) == LeapDays(year) + 97
  {
    assert (year + 400) / 4 == year / 4 + 100;
    assert (year + 400) / 100 == year / 100 + 4;
    assert (year + 400) / 400 == year / 400 + 1;
  }
}

// The 14-digit texts YYYYMMDDhhmmss.
module DateText {
  import opened Bytes
  import opened Calendar

  predicate IsDigit(c: char) {
    '0' <= c <= '9'
  }

  predicate Digits(s: string) {
    forall i :: 0 <= i < |s| ==> IsDigit(s[i])
  }

  function Value(c: char): nat
    requires IsDigit(c)
  {
    c as int - '0' as int
  }

  // The decimal number that the digits spell.
  function Number(s: string): nat
    requires Digits(s)
    decreases |s|
  {
    if s == [] then 0 else Number(s[..|s| - 1]) * 10 + Value(s[|s| - 1])
  }

  // The last digits of the number, in the given width.
  function Spelled(n: nat, width: nat): (s: string)
    ensures |s| == width && Digits(s)
    decreases width
  {
    if width == 0 then [] else Spelled(n / 10, width - 1) + ['0' + (n % 10) as char]
  }

  // A text whose six fields are of the widths 4, 2, 2, 2, 2 and 2.
  function Parse(s: string): Date
    requires |s| == 14 && Digits(s)
  {
    Date(Number(s[..4]), Number(s[4..6]), Number(s[6..8]), Number(s[8..10]), Number(s[10..12]), Number(s[12..14]))
  }

  predicate ValidText(s: string) {
    |s| == 14 && Digits(s) && Valid(Parse(s))
  }

  function Format(d: Date): (s: string)
    requires Valid(d) && d.year >= 0
    ensures |s| == 14 && Digits(s)
  {
    Spelled(d.year, 4) + Spelled(d.month, 2) + Spelled(d.day, 2) +
    Spelled(d.hour, 2) + Spelled(d.minute, 2) + Spelled(d.second, 2)
  }

  // Lexicographic order of texts of the same length.
  predicate TextBefore(a: string, b: string)
    requires |a| == |b|
    decreases |a|
  {
    a != [] && (a[0] < b[0] || (a[0] == b[0] && TextBefore(a[1..], b[1..])))
  }

  // ---------- numbers and their spelling ----------

  function PowerOfTen(n: nat): nat {
    if n == 0 then 1 else 10 * PowerOfTen(n - 1)
  }

  lemma {:induction false} NumberBound(s: string)
    requires Digits(s)
    ensures Number(s) < PowerOfTen(|s|)
    decreases |s|
  {
    if s != [] {
      NumberBound(s[..|s| - 1]);
    }
  }

  lemma {:induction false} NumberFromFront(s: string)
    requires Digits(s) && s != []
    ensures Number(s) == Value(s[0]) * PowerOfTen(|s| - 1) + Number(s[1..])
    decreases |s|
  {
    if |s| == 1 {
      assert s[..0] == [] == s[1..];
    } else {
      var t := s[..|s| - 1];
      NumberFromFront(t);
      assert s[1..][..|s| - 2] == t[1..];
      assert t[0] == s[0];
      OneMoreDigit(Value(s[0]), PowerOfTen(|s| - 2), Number(t[1..]), Value(s[|s| - 1]));
    }
  }

  lemma OneMoreDigit(front: nat, power: nat, middle: nat, last: nat)
    ensures (front * power + middle) * 10 + last == front * (10 * power) + (middle * 10 + last)
  {
  }

  // Texts of the same length compare like the numbers they spell.
  lemma {:induction false} TextOrderIsNumberOrder(a: string, b: string)
    requires |a| == |b| && Digits(a) && Digits(b)
    ensures TextBefore(a, b) <==> Number(a) < Number(b)
    ensures a == b <==> Number(a) == Number(b)
    decreases |a|
  {
    if a != [] {
      NumberFromFront(a);
      NumberFromFront(b);
      NumberBound(a[1..]);
      NumberBound(b[1..]);
      TextOrderIsNumberOrder(a[1..], b[1..]);
      FrontDecides(Value(a[0]), Value(b[0]), PowerOfTen(|a| - 1), Number(a[1..]), Number(b[1..]));
      assert a == [a[0]] + a[1..] && b == [b[0]] + b[1..];
    }
  }

  lemma FrontDecides(x: nat, y: nat, p: nat, r: nat, s: nat)
    requires r < p && s < p
    ensures x < y ==> x * p + r < y * p + s
    ensures x > y ==> x * p + r > y * p + s
  {
    if x < y {
      assert (x + 1) * p <= y * p;
    } else if x > y {
      assert (y + 1) * p <= x * p;
    }
  }

  lemma {:induction false} SpelledNumber(n: nat, width: nat)
    requires n < PowerOfTen(width)
    ensures Number(Spelled(n, width)) == n
    decreases width
  {
    if width > 0 {
      SpelledNumber(n / 10, width - 1);
      var s := Spelled(n, width);
      assert s[..|s| - 1] == Spelled(n / 10, width - 1);
    }
  }

  lemma NumberSpelled(s: string)
    requires Digits(s)
    ensures Spelled(Number(s), |s|) == s
  {
    NumberBound(s);
    SpelledNumber(Number(s), |s|);
    TextOrderIsNumberOrder(Spelled(Number(s), |s|), s);
  }

  // ---------- texts and dates ----------

  // Field by field.
  lemma {:induction false} TextOrderSplits(a: string, b: string, k: nat)
    requires |a| == |b| && k <= |a|
    ensures TextBefore(a, b) <==> TextBefore(a[..k], b[..k]) || (a[..k] == b[..k] && TextBefore(a[k..], b[k..]))
    decreases k
  {
    if k > 0 {
      TextOrderSplits(a[1..], b[1..], k - 1);
      assert a[1..][..k - 1] == a[..k][1..] && b[1..][..k - 1] == b[..k][1..];
      assert a[1..][k - 1..] == a[k..] && b[1..][k - 1..] == b[k..];
      assert a[..k] == [a[0]] + a[..k][1..] && b[..k] == [b[0]] + b[..k][1..];
    }
  }

  lemma FieldOrder(a: string, b: string, i: nat, j: nat)
    requires |a| == |b| && i <= j <= |a| && Digits(a) && Digits(b)
    ensures TextBefore(a[i..], b[i..]) <==>
            Number(a[i..j]) < Number(b[i..j]) ||
            (Number(a[i..j]) == Number(b[i..j]) && TextBefore(a[j..], b[j..]))
  {
    TextOrderSplits(a[i..], b[i..], j - i);
    assert a[i..][..j - i] == a[i..j] && b[i..][..j - i] == b[i..j];
    assert a[i..][j - i..] == a[j..] && b[i..][j - i..] == b[j..];
    TextOrderIsNumberOrder(a[i..j], b[i..j]);
  }

  // The order of the texts is the order of the dates.
  lemma TextOrderIsDateOrder(a: string, b: string)
    requires ValidText(a) && ValidText(b)
    ensures TextBefore(a, b) <==> Before(Parse(a), Parse(b))
  {
    assert a[0..] == a && b[0..] == b;
    assert a[0..4] == a[..4] && b[0..4] == b[..4];
    FieldOrder(a, b, 0, 4);
    FieldOrder(a, b, 4, 6);
    FieldOrder(a, b, 6, 8);
    FieldOrder(a, b, 8, 10);
    FieldOrder(a, b, 10, 12);
    FieldOrder(a, b, 12, 14);
  }

  // Seconds are strictly monotone in the lexicographic order of the texts.
  lemma SecondsFollowText(a: string, b: string)
    requires ValidText(a) && ValidText(b)
    ensures TextBefore(a, b) <==> Seconds(Parse(a)) < Seconds(Parse(b))
  {
    TextOrderIsDateOrder(a, b);
    SecondsOrder(Parse(a), Parse(b));
  }

  lemma FormatFields(d: Date)
    requires Valid(d) && d.year >= 0
    ensures var s := Format(d);
            && s[..4] == Spelled(d.year, 4) && s[4..6] == Spelled(d.month, 2) && s[6..8] == Spelled(d.day, 2)
            && s[8..10] == Spelled(d.hour, 2) && s[10..12] == Spelled(d.minute, 2) && s[12..14] == Spelled(d.second, 2)
  {
  }

  lemma SmallPowers()
    ensures PowerOfTen(2) == 100 && PowerOfTen(4) == 10000
  {
    assert PowerOfTen(4) == 100 * PowerOfTen(2);
  }

  lemma ParseFormat(d: Date)
    requires Valid(d) && 0 <= d.year <= 9999
    ensures Parse(Format(d)) == d
  {
    FormatFields(d);
    SmallPowers();
    SpelledNumber(d.year, 4);
    SpelledNumber(d.month, 2);
    SpelledNumber(d.day, 2);
    SpelledNumber(d.hour, 2);
    SpelledNumber(d.minute, 2);
    SpelledNumber(d.second, 2);
  }

  lemma FormatParse(s: string)
    requires ValidText(s)
    ensures Format(Parse(s)) == s
  {
    NumberSpelled(s[..4]);
    NumberSpelled(s[4..6]);
    NumberSpelled(s[6..8]);
    NumberSpelled(s[8..10]);
    NumberSpelled(s[10..12]);
    NumberSpelled(s[12..14]);
    Fields(s);
  }

  lemma Fields(s: string)
    requires |s| == 14
    ensures s[..4] + s[4..6] + s[6..8] + s[8..10] + s[10..12] + s[12..14] == s
  {
    assert s[..4] + s[4..6] == s[..6];
    assert s[..6] + s[6..8] == s[..8];
    assert s[..8] + s[8..10] == s[..10];
    assert s[..10] + s[10..12] == s[..12];
  }

  // The text can be had back from its seconds: tick off the difference from any date that
  // is not later, and format.
  lemma TextFromSeconds(origin: Date, s: string, elapsed: nat)
    requires Valid(origin) && ValidText(s) && Seconds(origin) + elapsed == Seconds(Parse(s))
    ensures Later(origin, elapsed).year >= 0 && Format(Later(origin, elapsed)) == s
  {
    ElapsedBy(origin, Parse(s), elapsed);
    FormatOf(Later(origin, elapsed), s);
  }

  lemma FormatOf(d: Date, s: string)
    requires ValidText(s) && d == Parse(s)
    ensures d.year >= 0 && Format(d) == s
  {
    FormatParse(s);
  }

  // ---------- the code ----------

  // The time of the text in a zone with a constant offset.
  method StringToDatetime(s: string, zone: int) returns (t: int)
    requires ValidText(s)
    ensures t == Seconds(Parse(s)) - zone
  {
    var year, month, day := Number(s[..4]), Number(s[4..6]), Number(s[6..8]);
    var hour, minute, second := Number(s[8..10]), Number(s[10..12]), Number(s[12..14]);
    var tm := Tm(year, month, day, hour, minute, second);
    tm := tm.(year := tm.year - 1900);
    tm := tm.(month := tm.month - 1);
    MkTimeCounts(Parse(s), zone);
    t := MkTime(tm, zone);
  }

  // The seek offset of the target from the start of the recording.
  method SeekOffset(target: string, start: string, zone: int) returns (offset: word32)
    requires ValidText(target) && ValidText(start)
    ensures offset == Offset(target, start)
  {
    var to := StringToDatetime(target, zone);
    var from := StringToDatetime(start, zone);
    offset := Wrap32(to - from);
  }

  // The difference as an unsigned 32-bit number, the same in every zone.
  function Offset(target: string, start: string): word32
    requires ValidText(target) && ValidText(start)
  {
    Wrap32(Seconds(Parse(target)) - Seconds(Parse(start)))
  }

  const NO_OFFSET: word32 := 0xFFFF_FFFF

  lemma OffsetForward(target: string, start: string)
    requires ValidText(target) && ValidText(start) && !TextBefore(target, start)
    requires Seconds(Parse(target)) - Seconds(Parse(start)) < TWO_TO_32 - 1
    ensures Seconds(Parse(start)) <= Seconds(Parse(target))
    ensures Offset(target, start) == Seconds(Parse(target)) - Seconds(Parse(start)) < NO_OFFSET
  {
    SecondsFollowText(target, start);
    Wrap32Near(Seconds(Parse(target)) - Seconds(Parse(start)));
  }

  // From a start to a target not before it and less than 2^32 - 1 seconds away, the offset
  // is the true elapsed time, never the value that means "no offset".
  lemma SeekIsElapsedTime(target: string, start: string)
    requires ValidText(target) && ValidText(start) && !TextBefore(target, start)
    requires Seconds(Parse(target)) - Seconds(Parse(start)) < TWO_TO_32 - 1
    ensures Offset(target, start) != NO_OFFSET
    ensures Later(Parse(start), Offset(target, start)) == Parse(target)
  {
    OffsetForward(target, start);
    ElapsedBy(Parse(start), Parse(target), Offset(target, start));
  }

  lemma WrapsToItselfIff(d: int)
    ensures Wrap32(d) == d && Wrap32(d) != NO_OFFSET <==> 0 <= d < TWO_TO_32 - 1
    ensures Wrap32(d) == NO_OFFSET <==> (d + 1) % TWO_TO_32 == 0
  {
  }

  // The offset is the elapsed time and not "no offset" if and only if the target text is
  // not before the start text and less than 2^32 - 1 seconds after it.
  lemma SeekForwardIff(target: string, start: string)
    requires ValidText(target) && ValidText(start)
    ensures var d := Seconds(Parse(target)) - Seconds(Parse(start));
            Offset(target, start) == d && Offset(target, start) != NO_OFFSET <==>
            !TextBefore(target, start) && d < TWO_TO_32 - 1
  {
    SecondsFollowText(target, start);
    WrapsToItselfIff(Seconds(Parse(target)) - Seconds(Parse(start)));
  }

  // "No offset" is what the code computes if and only if the target is one second before
  // the start, or a multiple of 2^32 seconds from there.
  lemma NoOffsetIff(target: string, start: string)
    requires ValidText(target) && ValidText(start)
    ensures Offset(target, start) == NO_OFFSET <==>
            (Seconds(Tick(Parse(target))) - Seconds(Parse(start))) % TWO_TO_32 == 0
  {
    TickCounts(Parse(target));
    WrapsToItselfIff(Seconds(Parse(target)) - Seconds(Parse(start)));
  }

  // The seconds from one text to another, by arithmetic on their digits alone.
  function CivilElapsed(target: string, start: string): int
    requires ValidText(target) && ValidText(start)
  {
    CivilSeconds(Parse(target)) - CivilSeconds(Parse(start))
  }

  // For any two texts, the offset is congruent to that modulo 2^32.
  lemma OffsetIsCongruent(target: string, start: string)
    requires ValidText(target) && ValidText(start)
    ensures (Offset(target, start) - CivilElapsed(target, start)) % 0x1_0000_0000 == 0
  {
    ElapsedIsCivil(target, start);
    WrapIsCongruent(CivilElapsed(target, start));
  }

  lemma ElapsedIsCivil(target: string, start: string)
    requires ValidText(target) && ValidText(start)
    ensures Offset(target, start) == Wrap32(CivilElapsed(target, start))
  {
    SecondsAreCivil(Parse(target));
    SecondsAreCivil(Parse(start));
  }

  lemma WrapIsCongruent(d: int)
    ensures (Wrap32(d) - d) % 0x1_0000_0000 == 0
  {
    var q := d / 0x1_0000_0000;
    assert Wrap32(d) - d == -q * 0x1_0000_0000;
  }

  // ---------- two seeks that go wrong ----------

  lemma FourDigits(s: string)
    requires |s| == 4 && Digits(s)
    ensures Number(s) == Value(s[0]) * 1000 + Value(s[1]) * 100 + Value(s[2]) * 10 + Value(s[3])
  {
    NumberFromFront(s);
    NumberFromFront(s[1..]);
    TwoDigits(s[2..]);
    assert s[1..][1..] == s[2..];
    SmallPowers();
  }

  lemma TwoDigits(s: string)
    requires |s| == 2 && Digits(s)
    ensures Number(s) == Value(s[0]) * 10 + Value(s[1])
  {
    var t := s[..1];
    assert Number(t) == Number(t[..0]) * 10 + Value(t[0]) == Value(s[0]);
  }

  lemma FieldsOf(s: string)
    requires |s| == 14 && Digits(s)
    ensures Parse(s) == Date(
      Value(s[0]) * 1000 + Value(s[1]) * 100 + Value(s[2]) * 10 + Value(s[3]),
      Value(s[4]) * 10 + Value(s[5]), Value(s[6]) * 10 + Value(s[7]), Value(s[8]) * 10 + Value(s[9]),
      Value(s[10]) * 10 + Value(s[11]), Value(s[12]) * 10 + Value(s[13]))
  {
    FourDigits(s[..4]);
    TwoDigits(s[4..6]);
    TwoDigits(s[6..8]);
    TwoDigits(s[8..10]);
    TwoDigits(s[10..12]);
    TwoDigits(s[12..14]);
  }

  lemma TextOfLeapDay()
    ensures var s := "20240229235959"; ValidText(s) && Parse(s) == Date(2024, 2, 29, 23, 59, 59)
  {
    FieldsOf("20240229235959");
  }

  lemma TextOfMarch()
    ensures var s := "20240301000000"; ValidText(s) && Parse(s) == Date(2024, 3, 1, 0, 0, 0)
  {
    FieldsOf("20240301000000");
  }

  lemma OneSecondBack(target: string, start: string)
    requires ValidText(target) && ValidText(start) && Parse(start) == Tick(Parse(target))
    ensures Offset(target, start) == NO_OFFSET
  {
    TickCounts(Parse(target));
    WrapsToItselfIff(Seconds(Parse(target)) - Seconds(Parse(start)));
  }

  // One second back over the end of a leap February.
  lemma SeekOneSecondBack()
    ensures var start, target := "20240301000000", "20240229235959";
            ValidText(start) && ValidText(target) && Offset(target, start) == NO_OFFSET
  {
    TextOfLeapDay();
    TextOfMarch();
    OneSecondBack("20240229235959", "20240301000000");
  }

  lemma TextOfEpoch()
    ensures var s := "19700101000000"; ValidText(s) && Parse(s) == EPOCH
  {
    FieldsOf("19700101000000");
  }

  lemma TextOfMark()
    ensures var s := "21060207062815"; ValidText(s) && Parse(s) == Date(2106, 2, 7, 6, 28, 15)
  {
    FieldsOf("21060207062815");
  }

  lemma SecondsOfMark(d: Date)
    requires Valid(d) && d == Date(2106, 2, 7, 6, 28, 15)
    ensures Seconds(d) == TWO_TO_32 - 1
  {
    MkTimeCounts(d, 0);
  }

  lemma FarAhead(target: string, start: string)
    requires ValidText(target) && ValidText(start)
    requires Seconds(Parse(target)) == TWO_TO_32 - 1 && Seconds(Parse(start)) == 0
    ensures !TextBefore(target, start) && Offset(target, start) == NO_OFFSET
  {
    SecondsFollowText(target, start);
  }

  // Forward by 2^32 - 1 seconds.
  lemma SeekTooFarAhead()
    ensures var start, target := "19700101000000", "21060207062815";
            ValidText(start) && ValidText(target) && !TextBefore(target, start) && Offset(target, start) == NO_OFFSET
  {
    TextOfEpoch();
    TextOfMark();
    EpochIsZero();
    SecondsOfMark(Parse("21060207062815"));
    FarAhead("21060207062815", "19700101000000");
  }
}
