/** The UTC text the store writes for an instant. SQL compares these texts, so their
    code-point order has to be the order of the instants; the tables of the other
    history modules hold the milliseconds themselves. */
module WireTimes {
  import opened Collections

  datatype Instant = Instant(
    year: nat, month: nat, day: nat, hour: nat, minute: nat, second: nat, milli: nat)

  predicate Leap(year: nat) {
    year % 4 == 0 && (year % 100 != 0 || year % 400 == 0)
  }

  function DaysIn(year: nat, month: nat): nat {
    if month == 2 then (if Leap(year) then 29 else 28)
    else if month in {4, 6, 9, 11} then 30
    else 31
  }

  /** What Python's `datetime` can hold. */
  predicate Calendar(t: Instant) {
    && 1 <= t.year <= 9999 && 1 <= t.month <= 12 && 1 <= t.day <= DaysIn(t.year, t.month)
    && t.hour < 24 && t.minute < 60 && t.second < 60 && t.milli < 1000
  }

  // --- instants as milliseconds -------------------------------------------------

  function DaysBeforeYear(year: nat): int {
    var y := year - 1;
    365 * y + y / 4 - y / 100 + y / 400
  }

  function DaysBeforeMonth(year: nat, month: nat): nat {
    if month <= 1 then 0 else DaysBeforeMonth(year, month - 1) + DaysIn(year, month - 1)
  }

  function Day(t: Instant): int {
    DaysBeforeYear(t.year) + DaysBeforeMonth(t.year, t.month) + t.day
  }

  function MillisOfDay(t: Instant): nat {
    ((t.hour * 60 + t.minute) * 60 + t.second) * 1000 + t.milli
  }

  function Millis(t: Instant): int {
    Day(t) * 86_400_000 + MillisOfDay(t)
  }

  // --- text ----------------------------------------------------------------------

  function Pad(n: nat, width: nat): string {
    if width == 0 then "" else Pad(n / 10, width - 1) + [('0' as int + n % 10) as char]
  }

  /** `isoformat(timespec="milliseconds")` in UTC, with `Z` for the offset. */
  function Wire(t: Instant): string {
    Pad(t.year, 4) + ("-" + (Pad(t.month, 2) + ("-" + (Pad(t.day, 2) + ("T" + (Pad(t.hour, 2)
    + (":" + (Pad(t.minute, 2) + (":" + (Pad(t.second, 2) + ("." + (Pad(t.milli, 3) + "Z"))))))))))))
  }

  lemma {:induction false} TextLessAppend(a: string, b: string, x: string, y: string)
    requires |a| == |b|
    ensures TextLess(a + x, b + y) <==> TextLess(a, b) || (a == b && TextLess(x, y))
  {
    if a == [] {
      assert a + x == x && b + y == y;
    } else {
      TextLessAppend(a[1..], b[1..], x, y);
      assert (a + x)[1..] == a[1..] + x && (b + y)[1..] == b[1..] + y;
      assert a == b <==> a[0] == b[0] && a[1..] == b[1..];
    }
  }

  function Ten(n: nat): nat {
    if n == 0 then 1 else 10 * Ten(n - 1)
  }

  lemma {:induction false} PadOrder(m: nat, n: nat, width: nat)
    requires m < Ten(width) && n < Ten(width)
    ensures |Pad(m, width)| == |Pad(n, width)| == width
    ensures Pad(m, width) == Pad(n, width) <==> m == n
    ensures TextLess(Pad(m, width), Pad(n, width)) <==> m < n
  {
    if width > 0 {
      PadOrder(m / 10, n / 10, width - 1);
      var c, d := ('0' as int + m % 10) as char, ('0' as int + n % 10) as char;
      TextLessAppend(Pad(m / 10, width - 1), Pad(n / 10, width - 1), [c], [d]);
      assert TextLess([c], [d]) <==> m % 10 < n % 10;
      if Pad(m, width) == Pad(n, width) {
        assert c == Pad(m, width)[width - 1] && d == Pad(n, width)[width - 1];
        assert Pad(m, width)[..width - 1] == Pad(m / 10, width - 1) && Pad(n, width)[..width - 1] == Pad(n / 10, width - 1);
      }
    }
  }

  /** One fixed-width field and the separator after it. */
  lemma {:induction false} FieldOrder(m: nat, n: nat, width: nat, mark: string, x: string, y: string)
    requires m < Ten(width) && n < Ten(width)
    ensures TextLess(Pad(m, width) + (mark + x), Pad(n, width) + (mark + y)) <==> m < n || (m == n && TextLess(x, y))
  {
    PadOrder(m, n, width);
    TextLessAppend(Pad(m, width), Pad(n, width), mark + x, mark + y);
    TextLessAppend(mark, mark, x, y);
    TextOrderAt(mark, mark, mark);
  }

  predicate Earlier(a: Instant, b: Instant) {
    a.year < b.year || (a.year == b.year && (
      a.month < b.month || (a.month == b.month && (
        a.day < b.day || (a.day == b.day && MillisOfDay(a) < MillisOfDay(b))))))
  }

  function TimePart(t: Instant): string {
    Pad(t.hour, 2) + (":" + (Pad(t.minute, 2) + (":" + (Pad(t.second, 2) + ("." + (Pad(t.milli, 3) + ("Z" + "")))))))
  }

  lemma TimeOrder(a: Instant, b: Instant)
    requires Calendar(a) && Calendar(b)
    ensures TextLess(TimePart(a), TimePart(b)) <==> MillisOfDay(a) < MillisOfDay(b)
  {
    assert Ten(2) == 100 && Ten(3) == 1000;
    hide Pad, TextLess, Ten;
    FieldOrder(a.milli, b.milli, 3, "Z", "", "");
    TextOrderAt("", "", "");
    var m1, m2 := Pad(a.milli, 3) + ("Z" + ""), Pad(b.milli, 3) + ("Z" + "");
    FieldOrder(a.second, b.second, 2, ".", m1, m2);
    var s1, s2 := Pad(a.second, 2) + ("." + m1), Pad(b.second, 2) + ("." + m2);
    FieldOrder(a.minute, b.minute, 2, ":", s1, s2);
    FieldOrder(a.hour, b.hour, 2, ":", Pad(a.minute, 2) + (":" + s1), Pad(b.minute, 2) + (":" + s2));
  }

  lemma TextFollowsCalendar(a: Instant, b: Instant)
    requires Calendar(a) && Calendar(b)
    ensures TextLess(Wire(a), Wire(b)) <==> Earlier(a, b)
  {
    assert Ten(2) == 100 && Ten(4) == 10_000;
    TimeOrder(a, b);
    hide Pad, TextLess, Ten, MillisOfDay;
    assert "Z" + "" == "Z";
    FieldOrder(a.day, b.day, 2, "T", TimePart(a), TimePart(b));
    var d1, d2 := Pad(a.day, 2) + ("T" + TimePart(a)), Pad(b.day, 2) + ("T" + TimePart(b));
    FieldOrder(a.month, b.month, 2, "-", d1, d2);
    FieldOrder(a.year, b.year, 4, "-", Pad(a.month, 2) + ("-" + d1), Pad(b.month, 2) + ("-" + d2));
  }

  // --- the calendar against milliseconds ----------------------------------------------

  lemma {:induction false} MonthsGrow(year: nat, m: nat, n: nat)
    requires 1 <= m < n
    ensures DaysBeforeMonth(year, m) + DaysIn(year, m) <= DaysBeforeMonth(year, n)
  {
    if m + 1 < n {
      MonthsGrow(year, m, n - 1);
    }
  }

  lemma YearLength(year: nat)
    requires year >= 1
    ensures DaysBeforeYear(year + 1) == DaysBeforeYear(year) + (if Leap(year) then 366 else 365)
  {
    EveryFour(year);
    EveryHundred(year);
    EveryFourHundred(year);
    Multiples(year);
  }

  lemma EveryFour(year: nat)
    requires year >= 1
    ensures year / 4 == (year - 1) / 4 + if year % 4 == 0 then 1 else 0
  {
  }

  lemma EveryHundred(year: nat)
    requires year >= 1
    ensures year / 100 == (year - 1) / 100 + if year % 100 == 0 then 1 else 0
  {
  }

  lemma EveryFourHundred(year: nat)
    requires year >= 1
    ensures year / 400 == (year - 1) / 400 + if year % 400 == 0 then 1 else 0
  {
  }

  lemma Multiples(year: nat)
    ensures year % 400 == 0 ==> year % 100 == 0
    ensures year % 100 == 0 ==> year % 4 == 0
  {
    if year % 400 == 0 {
      assert year == 100 * (4 * (year / 400));
    }
    if year % 100 == 0 {
      assert year == 4 * (25 * (year / 100));
    }
  }

  lemma {:induction false} DaysOfYear(year: nat)
    ensures DaysBeforeMonth(year, 12) + 31 == if Leap(year) then 366 else 365
  {
    assert DaysBeforeMonth(year, 4) == 62 + DaysIn(year, 2) by { assert DaysBeforeMonth(year, 2) == 31; }
    assert DaysBeforeMonth(year, 7) == DaysBeforeMonth(year, 4) + 91 by { assert DaysBeforeMonth(year, 5) == DaysBeforeMonth(year, 4) + 30; }
    assert DaysBeforeMonth(year, 9) == DaysBeforeMonth(year, 7) + 62;
    assert DaysBeforeMonth(year, 11) == DaysBeforeMonth(year, 9) + 61;
  }

  lemma {:induction false} YearsGrow(a: nat, b: nat)
    requires 1 <= a < b
    ensures DaysBeforeYear(a) + (if Leap(a) then 366 else 365) <= DaysBeforeYear(b)
  {
    hide Leap;
    YearLength(b - 1);
    if a + 1 < b {
      YearsGrow(a, b - 1);
    }
  }

  lemma EarlierDay(a: Instant, b: Instant)
    requires Calendar(a) && Calendar(b)
    requires a.year < b.year || (a.year == b.year && (a.month < b.month || (a.month == b.month && a.day < b.day)))
    ensures Day(a) < Day(b)
  {
    hide DaysBeforeYear, DaysBeforeMonth;
    if a.year < b.year {
      YearsGrow(a.year, b.year);
      DaysOfYear(a.year);
      if a.month < 12 { MonthsGrow(a.year, a.month, 12); }
      if b.month > 1 { MonthsGrow(b.year, 1, b.month); }
    } else if a.month < b.month {
      MonthsGrow(a.year, a.month, b.month);
    }
  }

  lemma EarlierMillis(a: Instant, b: Instant)
    requires Calendar(a) && Calendar(b) && Earlier(a, b)
    ensures Millis(a) < Millis(b)
  {
    hide Day;
    if a.year != b.year || a.month != b.month || a.day != b.day {
      EarlierDay(a, b);
      assert MillisOfDay(a) < 86_400_000;
    } else {
      assert Day(a) == Day(b) by { SameDay(a, b); }
    }
  }

  lemma SameDay(a: Instant, b: Instant)
    requires a.year == b.year && a.month == b.month && a.day == b.day
    ensures Day(a) == Day(b)
  {
  }

  /** Comparing stored texts is comparing instants in milliseconds. */
  lemma TextOrderIsTimeOrder(a: Instant, b: Instant)
    requires Calendar(a) && Calendar(b)
    ensures TextLess(Wire(a), Wire(b)) <==> Millis(a) < Millis(b)
  {
    TextFollowsCalendar(a, b);
    hide Wire, Millis, TextLess;
    if Earlier(a, b) {
      EarlierMillis(a, b);
    } else if Earlier(b, a) {
      EarlierMillis(b, a);
    } else {
      SameMillis(a, b);
    }
  }

  lemma SameMillis(a: Instant, b: Instant)
    requires !Earlier(a, b) && !Earlier(b, a)
    ensures Millis(a) == Millis(b)
  {
    hide DaysBeforeYear, DaysBeforeMonth;
  }

  // --- what the milliseconds are --------------------------------------------------------------

  /** Days of a month by the rule of knuckles: odd months up to July and even ones after it
      have 31. */
  function MonthLength(year: nat, month: nat): nat {
    if month == 2 then (if year % 400 == 0 || (year % 4 == 0 && year % 100 != 0) then 29 else 28)
    else if (month <= 7) == (month % 2 == 1) then 31
    else 30
  }

  /** One millisecond later, with the carries of clock and calendar. */
  function Next(t: Instant): Instant {
    if t.milli < 999 then t.(milli := t.milli + 1)
    else if t.second < 59 then t.(second := t.second + 1, milli := 0)
    else if t.minute < 59 then t.(minute := t.minute + 1, second := 0, milli := 0)
    else if t.hour < 23 then t.(hour := t.hour + 1, minute := 0, second := 0, milli := 0)
    else if t.day < MonthLength(t.year, t.month) then Instant(t.year, t.month, t.day + 1, 0, 0, 0, 0)
    else if t.month < 12 then Instant(t.year, t.month + 1, 1, 0, 0, 0, 0)
    else Instant(t.year + 1, 1, 1, 0, 0, 0, 0)
  }

  lemma MonthsExactly(year: nat, month: nat)
    requires 1 <= month <= 12
    ensures DaysIn(year, month) == MonthLength(year, month)
  {
    Multiples(year);
  }

  lemma DayAdvances(t: Instant)
    requires Calendar(t) && (t.year < 9999 || t.month < 12 || t.day < 31)
    ensures var next := if t.day < MonthLength(t.year, t.month) then Instant(t.year, t.month, t.day + 1, 0, 0, 0, 0)
                        else if t.month < 12 then Instant(t.year, t.month + 1, 1, 0, 0, 0, 0)
                        else Instant(t.year + 1, 1, 1, 0, 0, 0, 0);
            Calendar(next) && Day(next) == Day(t) + 1
  {
    MonthsExactly(t.year, t.month);
    YearLength(t.year);
    DaysOfYear(t.year);
    assert DaysBeforeMonth(t.year + 1, 1) == 0;
    hide DaysBeforeYear, Leap;
  }

  /** The calendar's milliseconds count up by one from each instant to the next, and the last
      of the year 9999 is the last there is. */
  lemma NextIsOneLater(t: Instant)
    requires Calendar(t) && t != Instant(9999, 12, 31, 23, 59, 59, 999)
    ensures Calendar(Next(t)) && Millis(Next(t)) == Millis(t) + 1
  {
    if t.hour == 23 && t.minute == 59 && t.second == 59 && t.milli == 999 {
      DayAdvances(t);
    }
    hide Day, DaysIn;
    if !(t.hour == 23 && t.minute == 59 && t.second == 59 && t.milli == 999) {
      SameDay(t, Next(t));
    }
  }
}
