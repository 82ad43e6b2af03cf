/** The day count behind the age of a timestamp, against the Gregorian calendar. */
module CivilDate {

  datatype Date = Date(year: int, month: int, day: int)

  // ----- the formula

  /** Integer division that truncates toward zero. */
  function Truncated(a: int, b: int): int
    requires b > 0
  {
    if a >= 0 then a / b else -((-a) / b)
  }

  /** Years start in March, so that the leap day comes last. */
  function Days(d: Date): int {
    var y := d.year - (if d.month <= 2 then 1 else 0);
    var m := d.month + (if d.month <= 2 then 12 else 0);
    365 * y + Truncated(y, 4) - Truncated(y, 100) + Truncated(y, 400) + Truncated(153 * (m - 3) + 2, 5) + d.day - 719468
  }

  // ----- the calendar

  /** The leap rule of Appendix C of RFC 3339. */
  predicate Leap(year: int) {
    year % 4 == 0 && (year % 100 != 0 || year % 400 == 0)
  }

  function MonthLength(year: int, month: int): int {
    if month == 2 then (if Leap(year) then 29 else 28)
    else if month == 4 || month == 6 || month == 9 || month == 11 then 30
    else 31
  }

  predicate Valid(d: Date) {
    1 <= d.month <= 12 && 1 <= d.day <= MonthLength(d.year, d.month)
  }

  function Next(d: Date): Date {
    if d.day < MonthLength(d.year, d.month) then d.(day := d.day + 1)
    else if d.month < 12 then Date(d.year, d.month + 1, 1)
    else Date(d.year + 1, 1, 1)
  }

  // ----- one day is one day

  /** Among the dates RFC 3339 can write, the count advances by one per day except over the leap day of year 0. */
  lemma NextDayIsOneMoreIff(d: Date)
    requires Valid(d) && 0 <= d.year
    ensures Valid(Next(d))
    ensures Days(Next(d)) == Days(d) + 1 <==> d != Date(0, 2, 29)
    ensures d == Date(0, 2, 29) ==> Days(Next(d)) == Days(d)
  {
    if d.day == MonthLength(d.year, d.month) {
      if d.month == 2 {
        EndOfFebruary(d.year);
      } else {
        OtherMonthEnds(d);
      }
    }
  }

  function MonthOffset(month: int): int {
    var m := month + (if month <= 2 then 12 else 0);
    Truncated(153 * (m - 3) + 2, 5)
  }

  /** The month term steps by the length of each month that does not end in the leap day. */
  lemma MonthOffsets(month: int)
    requires 1 <= month <= 12
    ensures MonthOffset(month) == [306, 337, 0, 31, 61, 92, 122, 153, 184, 214, 245, 275][month - 1]
  {
  }

  lemma OtherMonthEnds(d: Date)
    requires Valid(d) && 0 <= d.year && d.month != 2 && d.day == MonthLength(d.year, d.month)
    ensures Days(Next(d)) == Days(d) + 1
  {
    MonthOffsets(d.month);
    MonthOffsets(if d.month == 12 then 1 else d.month + 1);
  }

  lemma EndOfFebruary(year: int)
    requires 0 <= year
    ensures var step := Days(Date(year, 3, 1)) - Days(Date(year, 2, MonthLength(year, 2)));
            step == if year == 0 then 0 else 1
  {
    assert Truncated(153 * 11 + 2, 5) == 337 && Truncated(2, 5) == 0;
    if year > 0 {
      LeapStep(year);
    }
  }

  function LeapDays(year: int): int {
    year / 4 - year / 100 + year / 400
  }

  /** The correction term grows by one exactly at leap years. */
  lemma LeapStep(year: int)
    requires year > 0
    ensures LeapDays(year) - LeapDays(year - 1) == if Leap(year) then 1 else 0
  {
    Steps(year, 4);
    Steps(year, 100);
    Steps(year, 400);
    Factor(year, 4, 25);
    Factor(year, 100, 4);
  }

  lemma Factor(n: int, c: int, k: int)
    requires c > 0 && k > 0
    ensures c * k > 0 && (n % (c * k) == 0 ==> n % c == 0)
  {
    var q := n / (c * k);
    if n == q * (c * k) {
      assert n == (q * k) * c;
      Multiple(q * k, c);
    }
  }

  lemma Multiple(q: int, c: int)
    requires c > 0
    ensures (q * c) % c == 0
  {
    Quotient(q * c, q, 0, c);
  }

  lemma Steps(n: int, c: int)
    requires n > 0 && c > 0
    ensures n / c - (n - 1) / c == if n % c == 0 then 1 else 0
  {
    var q, r := n / c, n % c;
    assert n == q * c + r;
    if r == 0 {
      assert n - 1 == (q - 1) * c + (c - 1);
      Quotient(n - 1, q - 1, c - 1, c);
    } else {
      Quotient(n - 1, q, r - 1, c);
    }
  }

  lemma Quotient(x: int, q: int, r: int, c: int)
    requires 0 <= r < c && x == q * c + r
    ensures x / c == q
  {
    var e := x / c - q;
    assert e * c == r - x % c;
    assert e >= 1 ==> e * c >= c;
    assert e <= -1 ==> e * c + c <= 0;
  }

  function Later(d: Date, n: nat): Date {
    if n == 0 then d else Next(Later(d, n - 1))
  }

  lemma NextKeepsYear(d: Date)
    ensures d.year <= Next(d).year
  {
  }

  /** From year 1 on, the difference of two counts is the number of days between the dates. */
  lemma {:induction false} DifferencesAreDayCounts(d: Date, n: nat)
    requires Valid(d) && 1 <= d.year
    ensures Valid(Later(d, n)) && 1 <= Later(d, n).year
    ensures Days(Later(d, n)) - Days(d) == n
    decreases n
  {
    hide Days, Next, MonthLength;
    if n > 0 {
      DifferencesAreDayCounts(d, n - 1);
      NextKeepsYear(Later(d, n - 1));
      NextDayIsOneMoreIff(Later(d, n - 1));
    }
  }

  // ----- the anchor

  /** Days before 1 January of `year`, counted year by year from year 1. */
  function BeforeYear(year: int): int
    requires year >= 1
    decreases year
  {
    if year == 1 then 0 else BeforeYear(year - 1) + (if Leap(year - 1) then 366 else 365)
  }

  function BeforeMonth(year: int, month: int): int
    requires 1 <= month <= 12
    decreases month
  {
    if month == 1 then 0 else BeforeMonth(year, month - 1) + MonthLength(year, month - 1)
  }

  /** Days before 1 January 1970, as `EpochIsDayZero` checks. */
  const EPOCH := 719162

  /** Days since 1970-01-01, by counting. */
  function UnixDays(d: Date): int
    requires Valid(d) && d.year >= 1
  {
    BeforeYear(d.year) + BeforeMonth(d.year, d.month) + (d.day - 1) - EPOCH
  }

  lemma {:induction false} BeforeYearForm(year: int)
    requires year >= 1
    ensures BeforeYear(year) == 365 * (year - 1) + LeapDays(year - 1)
    decreases year
  {
    if year > 1 {
      BeforeYearForm(year - 1);
      LeapStep(year - 1);
    }
  }

  lemma BeforeMonthForm(year: int, month: int)
    requires 1 <= month <= 12
    ensures BeforeMonth(year, month) ==
            [0, 31, 59, 90, 120, 151, 181, 212, 243, 273, 304, 334][month - 1]
              + (if month > 2 && Leap(year) then 1 else 0)
    decreases month
  {
    if month > 1 {
      BeforeMonthForm(year, month - 1);
    }
  }

  /** The formula is one day ahead of the Unix day count, for every date from year 1 on. */
  lemma AnchorIsOneDayAhead(d: Date)
    requires Valid(d) && d.year >= 1
    ensures Days(d) == UnixDays(d) + 1
  {
    assert 1 <= d.month <= 12;
    hide Days, BeforeYear, BeforeMonth, MonthOffset, LeapDays, Leap, Valid;
    BeforeYearForm(d.year);
    MonthTerms(d.year, d.month);
    LeapStep(d.year);
    DaysForm(d);
  }

  /** The month term against the days before the month: off by a constant before March, by another from March on. */
  lemma MonthTerms(year: int, month: int)
    requires 1 <= month <= 12
    ensures MonthOffset(month) - BeforeMonth(year, month) ==
            if month <= 2 then 306 else -59 - (if Leap(year) then 1 else 0)
  {
    hide Leap;
    BeforeMonthForm(year, month);
    MonthOffsets(month);
  }

  /** The formula, with the leap correction and the month term named. */
  lemma DaysForm(d: Date)
    requires d.year >= 1
    ensures var y := d.year - (if d.month <= 2 then 1 else 0);
            Days(d) == 365 * y + LeapDays(y) + MonthOffset(d.month) + d.day - 719468
  {
  }

  /** Counting puts 1970-01-01 at zero; the formula puts it at one. */
  lemma EpochIsDayZero(d: Date)
    requires d == Date(1970, 1, 1)
    ensures UnixDays(d) == 0 && Days(d) == 1
  {
    BeforeYearForm(d.year);
    assert LeapDays(1969) == 477;
    AnchorIsOneDayAhead(d);
  }

  // ----- what the reported age becomes

  const WORD := 0x1_0000_0000_0000_0000

  datatype Stamp = Stamp(date: Date, hour: int, minute: int, second: int)

  predicate ValidStamp(s: Stamp) {
    Valid(s.date) && s.date.year >= 1 && 0 <= s.hour < 24 && 0 <= s.minute < 60 && 0 <= s.second < 60
  }

  function SecondsOf(days: int, s: Stamp): int {
    days * 86400 + s.hour * 3600 + s.minute * 60 + s.second
  }

  function NextDayOf(s: Stamp): Stamp {
    Stamp(Next(s.date), 0, 0, 0)
  }

  /** The stamp one second later. */
  function NextSecond(s: Stamp): Stamp {
    if s.second < 59 then s.(second := s.second + 1)
    else if s.minute < 59 then s.(minute := s.minute + 1, second := 0)
    else if s.hour < 23 then s.(hour := s.hour + 1, minute := 0, second := 0)
    else NextDayOf(s)
  }

  /** One second later is one second more, across minutes, hours, days and leap days, counted from the Unix epoch. */
  lemma NextSecondIsOneMore(s: Stamp)
    requires ValidStamp(s)
    ensures ValidStamp(NextSecond(s))
    ensures SecondsOf(UnixDays(NextSecond(s).date), NextSecond(s)) == SecondsOf(UnixDays(s.date), s) + 1
    ensures SecondsOf(Days(NextSecond(s).date), NextSecond(s)) == SecondsOf(Days(s.date), s) + 1
    ensures s == Stamp(Date(1970, 1, 1), 0, 0, 0) ==> SecondsOf(UnixDays(s.date), s) == 0
  {
    hide Days, UnixDays, Next, Valid;
    NextDayBothWays(s.date);
    if s.date == Date(1970, 1, 1) {
      EpochIsDayZero(s.date);
    }
  }

  lemma NextDayBothWays(d: Date)
    requires Valid(d) && d.year >= 1
    ensures Valid(Next(d)) && Next(d).year >= 1
    ensures Days(Next(d)) == Days(d) + 1 && UnixDays(Next(d)) == UnixDays(d) + 1
  {
    hide Days, UnixDays, Next, Valid;
    NextDayIsOneMoreIff(d);
    NextKeepsYear(d);
    AnchorIsOneDayAhead(d);
    AnchorIsOneDayAhead(Next(d));
  }

  /** Seconds between stamp and now as reported: a cast to an unsigned word, then a saturating difference. */
  function ReportedAge(now: nat, s: Stamp): int {
    var stamp := SecondsOf(Days(s.date), s) % WORD;
    if now > stamp then now - stamp else 0
  }

  /** The report is the true age less one day, never below zero; before 1969-12-31 it is zero. */
  lemma ReportedAgeIsADayShort(now: nat, s: Stamp)
    requires ValidStamp(s) && s.date.year <= 9999 && now < WORD / 2
    ensures var age := now - SecondsOf(UnixDays(s.date), s);
            ReportedAge(now, s) ==
              if UnixDays(s.date) >= -1 then (if age >= 86400 then age - 86400 else 0) else 0
  {
    AnchorIsOneDayAhead(s.date);
    DaysBounded(s.date);
    hide Days, UnixDays, ValidStamp;
    var days, secs := Days(s.date), SecondsOf(Days(s.date), s);
    assert days < 0 <==> secs < 0;
    Cast(secs);
  }

  /** Casting to an unsigned word: negative numbers end up far ahead. */
  lemma Cast(x: int)
    requires -WORD < x < WORD
    ensures x % WORD == if x < 0 then WORD + x else x
  {
    if x < 0 {
      assert WORD + x == 0 * WORD + (WORD + x);
      assert x == (-1) * WORD + (WORD + x);
    }
  }

  lemma DaysBounded(d: Date)
    requires Valid(d) && 1 <= d.year <= 9999
    ensures -1_000_000 < Days(d) < 10_000_000
  {
    MonthOffsets(d.month);
  }
}
