/** UTC date and time from epoch seconds, against the Gregorian calendar counted day by day. */
module CivilDate {
  datatype Date = Date(year: nat, month: nat, day: nat)

  datatype DateTime = DateTime(date: Date, hours: nat, minutes: nat, seconds: nat)

  /** The calendar of section 5.7 and Appendix C of RFC 3339. */
  predicate Leap(year: nat) { year % 4 == 0 && (year % 100 != 0 || year % 400 == 0) }

  function DaysInMonth(year: nat, month: nat): nat {
    if month == 2 then (if Leap(year) then 29 else 28)
    else if month in {4, 6, 9, 11} then 30
    else 31
  }

  predicate ValidDate(d: Date) { 1 <= d.month <= 12 && 1 <= d.day <= DaysInMonth(d.year, d.month) }

  const EPOCH: Date := Date(1970, 1, 1)

  function NextDay(d: Date): Date {
    if d.day < DaysInMonth(d.year, d.month) then d.(day := d.day + 1)
    else if d.month < 12 then Date(d.year, d.month + 1, 1)
    else Date(d.year + 1, 1, 1)
  }

  /** Day number `n` counted one day at a time from the epoch. */
  function NthDay(n: nat): Date {
    if n == 0 then EPOCH else NextDay(NthDay(n - 1))
  }

  predicate DateBefore(a: Date, b: Date) {
    a.year < b.year || (a.year == b.year && (a.month < b.month || (a.month == b.month && a.day < b.day)))
  }

  predicate Before(a: DateTime, b: DateTime) {
    DateBefore(a.date, b.date)
    || (a.date == b.date && (a.hours < b.hours || (a.hours == b.hours
        && (a.minutes < b.minutes || (a.minutes == b.minutes && a.seconds < b.seconds)))))
  }

  /** Years since March of the year that opens a 400-year era. */
  function YearOfEra(doe: nat): nat {
    (doe - doe / 1460 + doe / 36524 - doe / 146096) / 365
  }

  function YearStart(yoe: nat): nat { 365 * yoe + yoe / 4 - yoe / 100 }

  /** Month counted from March, and day of the month, of a day of the March-based year. */
  function MonthFromMarch(doy: nat): nat { (5 * doy + 2) / 153 }

  function MonthStart(mp: nat): nat { (153 * mp + 2) / 5 }

  /** A March-based position as a civil date. */
  function FromMarch(era: nat, yoe: nat, mp: nat, day: nat): Date
    requires mp < 12
  {
    var m := if mp < 10 then mp + 3 else mp - 9;
    Date(yoe + era * 400 + if m <= 2 then 1 else 0, m, day)
  }

  function CivilFromDays(days: nat): Date {
    var z := days + 719468;
    var era := z / 146097;
    var doe := z - era * 146097;
    var yoe := YearOfEra(doe);
    EraDoe(doe);
    var doy := doe - YearStart(yoe);
    var mp := MonthFromMarch(doy);
    FromMarch(era, yoe, mp, doy - MonthStart(mp) + 1)
  }

  function ChronoLiteUtc(epochSecs: nat): DateTime {
    var remaining := epochSecs % 86400;
    DateTime(CivilFromDays(epochSecs / 86400), remaining / 3600, (remaining % 3600) / 60, remaining % 60)
  }

  /** The inverse formula. */
  function DaysFromCivil(d: Date): int {
    var y := d.year - if d.month <= 2 then 1 else 0;
    var era := y / 400;
    var yoe := y - era * 400;
    var mp := if d.month > 2 then d.month - 3 else d.month + 9;
    era * 146097 + YearStart(yoe) + MonthStart(mp) + d.day - 1 - 719468
  }

  /** Length of a March-based year: its February belongs to the next civil year. */
  function YearLength(yoe: nat): nat { if Leap(yoe + 1) then 366 else 365 }

  /** A day of the era splits into centuries, four-year cycles, years and days. */
  lemma {:induction false} EraParts(doe: nat) returns (c: nat, q: nat, a: nat, d: nat)
    requires doe < 146097
    ensures c <= 3 && q <= 24 && a <= 3 && d <= 365
    ensures doe == 36524 * c + 1461 * q + 365 * a + d
    ensures d == 365 ==> a == 3 && (q < 24 || c == 3)
  {
    c := if doe / 36524 == 4 then 3 else doe / 36524;
    var r := doe - 36524 * c;
    q := r / 1461;
    var t := r - 1461 * q;
    a := if t == 1460 then 3 else t / 365;
    d := t - 365 * a;
  }

  lemma {:induction false} YearOfParts(c: nat, q: nat, a: nat, d: nat)
    requires c <= 3 && q <= 24 && a <= 3 && d <= 365
    requires d == 365 ==> a == 3 && (q < 24 || c == 3)
    ensures YearOfEra(36524 * c + 1461 * q + 365 * a + d) == 100 * c + 4 * q + a
  {
    var doe := 36524 * c + 1461 * q + 365 * a + d;
    var e := if 24 * c + q + 365 * a + d >= 1460 then 1 else 0;
    assert doe / 1460 == 25 * c + q + e;
    assert doe / 36524 - doe / 146096 == c;
  }

  lemma {:induction false} YearStartOfParts(c: nat, q: nat, a: nat)
    requires c <= 3 && q <= 24 && a <= 3
    ensures YearStart(100 * c + 4 * q + a) == 36524 * c + 1461 * q + 365 * a
    ensures Leap(100 * c + 4 * q + a + 1) <==> a == 3 && (q < 24 || c == 3)
  {
    var y := 100 * c + 4 * q + a;
    assert y / 4 == 25 * c + q && y / 100 == c;
    assert (y + 1) % 4 == (a + 1) % 4;
    if a == 3 && q == 24 {
      assert y + 1 == 100 * (c + 1);
    } else {
      assert y % 100 == 4 * q + a;
    }
  }

  /** The year formula picks the March-based year that holds the day. */
  lemma {:induction false} EraDoe(doe: nat)
    requires doe < 146097
    ensures YearOfEra(doe) <= 399
    ensures YearStart(YearOfEra(doe)) <= doe < YearStart(YearOfEra(doe)) + YearLength(YearOfEra(doe))
    ensures MonthFromMarch(doe - YearStart(YearOfEra(doe))) < 12
    ensures var doy := doe - YearStart(YearOfEra(doe)); MonthStart(MonthFromMarch(doy)) <= doy
  {
    var c, q, a, d := EraParts(doe);
    YearOfParts(c, q, a, d);
    YearStartOfParts(c, q, a);
  }

  /** A position in the March-based calendar: day `k` of month `mp` of year `yoe` of an era. */
  predicate InMarchYear(yoe: nat, mp: nat, k: nat) {
    yoe <= 399 && mp < 12 && MonthStart(mp) + k < (if mp == 11 then YearLength(yoe) else MonthStart(mp + 1))
  }

  function DayNumber(era: nat, yoe: nat, mp: nat, k: nat): nat {
    era * 146097 + YearStart(yoe) + MonthStart(mp) + k
  }

  lemma {:induction false} YearFound(yoe: nat, doy: nat)
    requires yoe <= 399 && doy < YearLength(yoe)
    ensures YearOfEra(YearStart(yoe) + doy) == yoe && YearStart(yoe) + doy < 146097
  {
    var c, q, a := yoe / 100, (yoe % 100) / 4, yoe % 4;
    assert yoe == 100 * c + 4 * q + a;
    YearStartOfParts(c, q, a);
    YearOfParts(c, q, a, doy);
  }

  lemma {:induction false} MonthFound(mp: nat, k: nat)
    requires mp < 12 && MonthStart(mp) + k < MonthStart(mp + 1)
    ensures MonthFromMarch(MonthStart(mp) + k) == mp
  {}

  /** Every position is what its day number is turned into. */
  lemma {:induction false} PositionFound(n: nat, era: nat, yoe: nat, mp: nat, k: nat)
    requires InMarchYear(yoe, mp, k) && n + 719468 == DayNumber(era, yoe, mp, k)
    ensures CivilFromDays(n) == FromMarch(era, yoe, mp, k + 1)
  {
    hide YearLength, YearOfEra, YearStart, MonthStart, MonthFromMarch;
    var doy := MonthStart(mp) + k;
    InYear(yoe, mp, k);
    YearFound(yoe, doy);
    MonthFound(mp, k);
    Quotient(n + 719468, era, YearStart(yoe) + doy);
  }

  lemma {:induction false} Quotient(z: nat, era: nat, doe: nat)
    requires z == era * 146097 + doe && doe < 146097
    ensures z / 146097 == era && z - era * 146097 == doe
  {}

  lemma {:induction false} InYear(yoe: nat, mp: nat, k: nat)
    requires InMarchYear(yoe, mp, k)
    ensures MonthStart(mp) + k < YearLength(yoe) && MonthStart(mp) + k < MonthStart(mp + 1)
  {}

  lemma {:induction false} Position(n: nat) returns (era: nat, yoe: nat, mp: nat, k: nat)
    ensures InMarchYear(yoe, mp, k) && n + 719468 == DayNumber(era, yoe, mp, k)
  {
    var z := n + 719468;
    era := z / 146097;
    var doe := z - era * 146097;
    EraDoe(doe);
    yoe := YearOfEra(doe);
    var doy := doe - YearStart(yoe);
    mp := MonthFromMarch(doy);
    k := doy - MonthStart(mp);
  }

  /** Remainders by the divisors of the leap rule. */
  lemma {:induction false} Remainders(x: nat, q: nat, r: nat)
    ensures r < 400 && x == 400 * q + r ==> x % 400 == r
    ensures r < 100 && x == 100 * q + r ==> x % 100 == r
    ensures r < 4 && x == 4 * q + r ==> x % 4 == r
  {}

  lemma {:induction false} LeapRepeats(y: nat, era: nat)
    ensures Leap(y + era * 400) == Leap(y)
  {
    Remainders(y + era * 400, y / 400 + era, y % 400);
    Remainders(y + era * 400, y / 100 + 4 * era, y % 100);
    Remainders(y + era * 400, y / 4 + 100 * era, y % 4);
  }

  function MonthLength(yoe: nat, mp: nat): int {
    (if mp == 11 then YearLength(yoe) else MonthStart(mp + 1)) - MonthStart(mp)
  }

  /** The month table of the formula is the Gregorian one. */
  lemma {:induction false} MonthLengths(era: nat, yoe: nat, mp: nat, day: nat)
    requires yoe <= 399 && mp < 12
    ensures var d := FromMarch(era, yoe, mp, day); DaysInMonth(d.year, d.month) == MonthLength(yoe, mp)
  {
    hide Leap;
    LeapRepeats(yoe + 1, era);
  }

  /** The successor of a position. */
  lemma {:induction false} MarchNext(era: nat, yoe: nat, mp: nat, k: nat)
    requires InMarchYear(yoe, mp, k)
    ensures var next := NextDay(FromMarch(era, yoe, mp, k + 1));
            if InMarchYear(yoe, mp, k + 1) then next == FromMarch(era, yoe, mp, k + 2)
            else k + 1 == MonthLength(yoe, mp)
                 && next == if mp < 11 then FromMarch(era, yoe, mp + 1, 1)
                            else if yoe < 399 then FromMarch(era, yoe + 1, 0, 1)
                            else FromMarch(era + 1, 0, 0, 1)
  {
    hide YearLength;
    MonthLengths(era, yoe, mp, k + 1);
  }

  lemma {:induction false} YearFollows(yoe: nat)
    requires yoe < 399
    ensures YearStart(yoe + 1) == YearStart(yoe) + YearLength(yoe)
  {
    var c, q, a := yoe / 100, (yoe % 100) / 4, yoe % 4;
    assert yoe == 100 * c + 4 * q + a;
    YearStartOfParts(c, q, a);
    if a < 3 {
      YearStartOfParts(c, q, a + 1);
    } else if q < 24 {
      YearStartOfParts(c, q + 1, 0);
    } else {
      YearStartOfParts(c + 1, 0, 0);
    }
  }

  /** The day number after a position. */
  lemma {:induction false} DayNumberNext(era: nat, yoe: nat, mp: nat, k: nat)
    requires InMarchYear(yoe, mp, k) && k + 1 == MonthLength(yoe, mp)
    ensures mp < 11 ==> InMarchYear(yoe, mp + 1, 0) && DayNumber(era, yoe, mp + 1, 0) == DayNumber(era, yoe, mp, k) + 1
    ensures mp == 11 && yoe < 399 ==>
              InMarchYear(yoe + 1, 0, 0) && DayNumber(era, yoe + 1, 0, 0) == DayNumber(era, yoe, mp, k) + 1
    ensures mp == 11 && yoe == 399 ==>
              InMarchYear(0, 0, 0) && DayNumber(era + 1, 0, 0, 0) == DayNumber(era, yoe, mp, k) + 1
  {
    hide Leap;
    if mp == 11 {
      if yoe < 399 { YearFollows(yoe); } else { LastYear(); }
    }
  }

  lemma {:induction false} LastYear()
    ensures YearStart(399) + YearLength(399) == 146097
  {}

  /** Consecutive day numbers are consecutive days of the calendar. */
  lemma {:induction false} NextDayFollows(n: nat)
    ensures CivilFromDays(n + 1) == NextDay(CivilFromDays(n))
  {
    hide CivilFromDays, NextDay, FromMarch, MonthLength, InMarchYear, DayNumber;
    var era, yoe, mp, k := Position(n);
    PositionFound(n, era, yoe, mp, k);
    MarchNext(era, yoe, mp, k);
    InMarchBounds(yoe, mp, k);
    if InMarchYear(yoe, mp, k + 1) {
      DayNumberStep(era, yoe, mp, k);
      PositionFound(n + 1, era, yoe, mp, k + 1);
    } else {
      DayNumberNext(era, yoe, mp, k);
      if mp < 11 {
        PositionFound(n + 1, era, yoe, mp + 1, 0);
      } else if yoe < 399 {
        PositionFound(n + 1, era, yoe + 1, 0, 0);
      } else {
        PositionFound(n + 1, era + 1, 0, 0, 0);
      }
    }
  }

  lemma {:induction false} InMarchBounds(yoe: nat, mp: nat, k: nat)
    requires InMarchYear(yoe, mp, k)
    ensures yoe <= 399 && mp < 12
  {}

  lemma {:induction false} DayNumberStep(era: nat, yoe: nat, mp: nat, k: nat)
    ensures DayNumber(era, yoe, mp, k + 1) == DayNumber(era, yoe, mp, k) + 1
  {}

  /** The closed formula counts the calendar. */
  lemma {:induction false} CountsTheCalendar(n: nat)
    ensures CivilFromDays(n) == NthDay(n) && ValidDate(CivilFromDays(n))
  {
    hide CivilFromDays;
    if n == 0 {
      PositionFound(0, 4, 369, 10, 0);
    } else {
      CountsTheCalendar(n - 1);
      NextDayFollows(n - 1);
    }
  }

  /** The inverse formula gives the day number back. */
  lemma {:induction false} DayNumberBack(n: nat)
    ensures DaysFromCivil(CivilFromDays(n)) == n
  {
    hide CivilFromDays, YearStart, YearLength;
    var era, yoe, mp, k := Position(n);
    PositionFound(n, era, yoe, mp, k);
    assert (yoe + era * 400) / 400 == era;
  }

  /** Every valid date from the epoch on is reached. */
  lemma {:induction false} DateBack(d: Date)
    requires ValidDate(d) && d.year >= 1970
    ensures DaysFromCivil(d) >= 0 && CivilFromDays(DaysFromCivil(d)) == d
  {
    hide CivilFromDays, YearStart, YearLength;
    var y := d.year - if d.month <= 2 then 1 else 0;
    var era := y / 400;
    var yoe := y - era * 400;
    var mp := if d.month > 2 then d.month - 3 else d.month + 9;
    assert FromMarch(era, yoe, mp, d.day) == d;
    MonthLengths(era, yoe, mp, d.day);
    EpochIsLeast(era, yoe, mp, d.day - 1);
    PositionFound(DaysFromCivil(d), era, yoe, mp, d.day - 1);
  }

  lemma {:induction false} EpochIsLeast(era: nat, yoe: nat, mp: nat, k: nat)
    requires yoe <= 399 && mp < 12
    requires yoe + era * 400 >= 1970 || (yoe + era * 400 == 1969 && mp >= 10)
    ensures DayNumber(era, yoe, mp, k) >= 719468
  {}

  lemma {:induction false} DaysIncrease(m: nat, n: nat)
    requires m < n
    ensures DateBefore(CivilFromDays(m), CivilFromDays(n))
    decreases n - m
  {
    hide CivilFromDays, NthDay;
    CountsTheCalendar(n - 1);
    NextDayFollows(n - 1);
    if m < n - 1 { DaysIncrease(m, n - 1); }
  }

  /** A valid time of day, from which the second can be recovered. */
  lemma {:induction false} TimeOfDay(t: nat)
    ensures var r := ChronoLiteUtc(t);
            && r.hours < 24 && r.minutes < 60 && r.seconds < 60
            && ValidDate(r.date) && r.date == NthDay(t / 86400)
            && DaysFromCivil(r.date) * 86400 + r.hours * 3600 + r.minutes * 60 + r.seconds == t
  {
    hide CivilFromDays, NthDay, DaysFromCivil, ValidDate;
    CountsTheCalendar(t / 86400);
    DayNumberBack(t / 86400);
    var remaining := t % 86400;
    assert (remaining % 3600) % 60 == remaining % 60;
  }

  /** Later seconds are later timestamps. */
  lemma {:induction false} StrictlyIncreasing(s: nat, t: nat)
    requires s < t
    ensures Before(ChronoLiteUtc(s), ChronoLiteUtc(t))
  {
    hide CivilFromDays, NthDay, DaysFromCivil, ValidDate, DateBefore;
    if s / 86400 < t / 86400 {
      DaysIncrease(s / 86400, t / 86400);
    } else {
      TimeOfDay(s);
      TimeOfDay(t);
    }
  }
}
