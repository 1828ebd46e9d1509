// Instants as the ledger writes them: RFC 3339 with up to nine digits of a
// second, in UTC, and the reader of such texts. An instant is nanoseconds from
// the first of January of the year 0, the calendar carried on both ways.
module Times {
  import opened Common
  import opened Text

  const NANO := 1_000_000_000
  const DAY := 86_400
  const CYCLE := 146_097 // the days of 400 years

  // ---------------------------------------------------------------------
  // The calendar
  // ---------------------------------------------------------------------

  predicate Leap(y: int) {
    y % 4 == 0 && (y % 100 != 0 || y % 400 == 0)
  }

  /** The days before the first of January of a year. */
  function YearStart(y: int): int {
    365 * y + (y + 3) / 4 - (y + 99) / 100 + (y + 399) / 400
  }

  function YearDays(y: int): int {
    if Leap(y) then 366 else 365
  }

  lemma YearGoesBy(y: int)
    ensures YearStart(y + 1) == YearStart(y) + YearDays(y)
  {
    assert (y + 4) / 4 == (y + 3) / 4 + if y % 4 == 0 then 1 else 0;
    assert (y + 100) / 100 == (y + 99) / 100 + if y % 100 == 0 then 1 else 0;
    assert (y + 400) / 400 == (y + 399) / 400 + if y % 400 == 0 then 1 else 0;
    assert y % 400 == 0 ==> y % 100 == 0;
    assert y % 100 == 0 ==> y % 4 == 0;
  }

  lemma CyclesGoBy(y: int, n: int)
    ensures YearStart(y + 400 * n) == YearStart(y) + CYCLE * n
  {
    assert (y + 400 * n + 3) / 4 == (y + 3) / 4 + 100 * n;
    assert (y + 400 * n + 99) / 100 == (y + 99) / 100 + 4 * n;
    assert (y + 400 * n + 399) / 400 == (y + 399) / 400 + n;
  }

  /** The year a day falls in, found from a year it is not before. */
  function YearFrom(day: int, y: int): (r: int)
    requires YearStart(y) <= day
    ensures YearStart(r) <= day < YearStart(r + 1)
    decreases day - YearStart(y)
  {
    YearGoesBy(y);
    if day < YearStart(y + 1) then y else YearFrom(day, y + 1)
  }

  function YearOf(day: int): (y: int)
    ensures YearStart(y) <= day < YearStart(y + 1)
  {
    var n := day / CYCLE;
    var y := YearFrom(day % CYCLE, 0);
    CyclesGoBy(y, n);
    CyclesGoBy(y + 1, n);
    y + 400 * n
  }

  lemma {:induction false} YearsInOrder(y: int, z: int)
    requires y <= z
    ensures YearStart(y) <= YearStart(z)
    decreases z - y
  {
    if y < z {
      YearsInOrder(y, z - 1);
      YearGoesBy(z - 1);
    }
  }

  /** A day falls in one year. */
  lemma YearIsOne(day: int, y: int)
    requires YearStart(y) <= day < YearStart(y + 1)
    ensures YearOf(day) == y
  {
    var r := YearOf(day);
    if r < y {
      YearsInOrder(r + 1, y);
    } else if y < r {
      YearsInOrder(y + 1, r);
    }
  }

  /** The days of a year before month `m`, from 1; month 13 stands for the whole year. */
  function Before(leap: bool, m: nat): nat
    requires 1 <= m <= 13
  {
    [0, 31, 59, 90, 120, 151, 181, 212, 243, 273, 304, 334, 365][m - 1] + if leap && m > 2 then 1 else 0
  }

  function MonthFrom(leap: bool, day: nat, m: nat): (r: nat)
    requires 1 <= m <= 12 && day < Before(leap, m + 1)
    ensures 1 <= r <= 12 && Before(leap, r) <= day < Before(leap, r + 1)
  {
    if m == 1 || Before(leap, m) <= day then m else MonthFrom(leap, day, m - 1)
  }

  /** The month a day of the year falls in. */
  function MonthOf(leap: bool, day: nat): (m: nat)
    requires day < Before(leap, 13)
    ensures 1 <= m <= 12 && Before(leap, m) <= day < Before(leap, m + 1)
  {
    MonthFrom(leap, day, 12)
  }

  function DaysIn(leap: bool, m: nat): nat
    requires 1 <= m <= 12
  {
    assert Before(leap, m) <= Before(leap, m + 1);
    Before(leap, m + 1) - Before(leap, m)
  }

  datatype Date = Date(year: int, month: nat, day: nat)

  predicate ValidDate(d: Date) {
    1 <= d.month <= 12 && 1 <= d.day <= DaysIn(Leap(d.year), d.month)
  }

  function DayOf(d: Date): int
    requires ValidDate(d)
  {
    YearStart(d.year) + Before(Leap(d.year), d.month) + d.day - 1
  }

  function DateOf(day: int): (d: Date)
    ensures ValidDate(d) && DayOf(d) == day
  {
    var y := YearOf(day);
    YearGoesBy(y);
    var m := MonthOf(Leap(y), day - YearStart(y));
    Date(y, m, day - YearStart(y) - Before(Leap(y), m) + 1)
  }

  /** A clock time within a day. */
  datatype Clock = Clock(hour: nat, minute: nat, second: nat, nano: nat)

  predicate ValidClock(c: Clock) {
    c.hour < 24 && c.minute < 60 && c.second < 60 && c.nano < NANO
  }

  function Instant(d: Date, c: Clock): int
    requires ValidDate(d)
  {
    (DayOf(d) * DAY + c.hour * 3600 + c.minute * 60 + c.second) * NANO + c.nano
  }

  function DateAt(t: int): (d: Date)
    ensures ValidDate(d)
  {
    DateOf(t / NANO / DAY)
  }

  function ClockAt(t: int): (c: Clock)
    ensures ValidClock(c)
  {
    var s := t / NANO % DAY;
    Clock(s / 3600, s / 60 % 60, s % 60, t % NANO)
  }

  /** An instant is the date and the clock time it falls on. */
  lemma InstantOf(t: int)
    ensures Instant(DateAt(t), ClockAt(t)) == t
  {
    hide DateOf, DayOf, ValidDate;
    var s := t / NANO % DAY;
    assert s == s / 3600 * 3600 + s / 60 % 60 * 60 + s % 60;
  }

  // ---------------------------------------------------------------------
  // Digits
  // ---------------------------------------------------------------------

  function Pow10(n: nat): (p: nat)
    ensures p > 0
  {
    if n == 0 then 1 else 10 * Pow10(n - 1)
  }

  /** The last `w` decimal digits of a number. */
  function Digits(n: nat, w: nat): (s: string)
    ensures |s| == w && AllDigits(s)
  {
    if w == 0 then "" else Digits(n / 10, w - 1) + [(n % 10 + '0' as int) as char]
  }

  lemma {:induction false} DigitsReadBack(n: nat, w: nat)
    requires n < Pow10(w)
    ensures DigitsValue(Digits(n, w)) == n
  {
    if w > 0 {
      var s := Digits(n, w);
      DigitsReadBack(n / 10, w - 1);
      assert s[..w - 1] == Digits(n / 10, w - 1);
    }
  }

  lemma Widths()
    ensures Pow10(2) == 100 && Pow10(4) == 10_000 && Pow10(9) == NANO
  {
    assert Pow10(5) == 100_000;
  }

  /** A run of zeros at the end, cut off. */
  function Trimmed(s: string): (t: string)
    requires AllDigits(s)
    ensures |t| <= |s| && AllDigits(t) && t <= s
  {
    if s == "" || s[|s| - 1] != '0' then s else Trimmed(s[..|s| - 1])
  }

  lemma Tenfold(v: nat, p: nat)
    ensures 10 * (v * p) == v * (10 * p)
  {
  }

  lemma {:induction false} TrimmedValue(s: string)
    requires AllDigits(s)
    ensures DigitsValue(s) == DigitsValue(Trimmed(s)) * Pow10(|s| - |Trimmed(s)|)
    ensures DigitsValue(s) > 0 ==> Trimmed(s) != ""
  {
    if s != "" && s[|s| - 1] == '0' {
      var r := s[..|s| - 1];
      TrimmedValue(r);
      Tenfold(DigitsValue(Trimmed(s)), Pow10(|r| - |Trimmed(r)|));
    }
  }

  /** How many digits a text begins with. */
  function DigitRun(s: string): (n: nat)
    ensures n <= |s| && AllDigits(s[..n])
  {
    if s == "" || !IsDigit(s[0]) then 0
    else
      var n := DigitRun(s[1..]);
      assert s[..n + 1] == [s[0]] + s[1..][..n];
      n + 1
  }

  lemma {:induction false} RunEnds(s: string, rest: string)
    requires AllDigits(s) && (rest != "" ==> !IsDigit(rest[0]))
    ensures DigitRun(s + rest) == |s|
  {
    if s == "" {
      assert s + rest == rest;
    } else {
      assert (s + rest)[1..] == s[1..] + rest;
      RunEnds(s[1..], rest);
    }
  }

  // ---------------------------------------------------------------------
  // time.RFC3339Nano
  // ---------------------------------------------------------------------

  /** A number in four digits, more when it has them. */
  function FourOrMore(n: nat): string {
    if n < 10_000 then Digits(n, 4) else FormatNat(n)
  }

  /** A year, after a sign when it is negative. */
  function YearText(y: int): string {
    if y < 0 then "-" + FourOrMore(-y) else FourOrMore(y)
  }

  function DateText(d: Date): string {
    YearText(d.year) + "-" + Digits(d.month, 2) + "-" + Digits(d.day, 2)
  }

  function ClockText(c: Clock): (s: string)
    ensures |s| == 8
  {
    Digits(c.hour, 2) + ":" + Digits(c.minute, 2) + ":" + Digits(c.second, 2)
  }

  function Fraction(nano: nat): string {
    if nano == 0 then "" else "." + Trimmed(Digits(nano, 9))
  }

  /** An instant as the ledger writes it. */
  function Render(t: int): string {
    DateText(DateAt(t)) + ("T" + ClockText(ClockAt(t)) + (Fraction(ClockAt(t).nano) + "Z"))
  }

  function ParseDate(s: string): Option<Date> {
    if |s| != 10 || s[4] != '-' || s[7] != '-' then None
    else if !AllDigits(s[..4]) || !AllDigits(s[5..7]) || !AllDigits(s[8..]) then None
    else
      var d := Date(DigitsValue(s[..4]), DigitsValue(s[5..7]), DigitsValue(s[8..]));
      if ValidDate(d) then Some(d) else None
  }

  function ParseClock(s: string): Option<Clock> {
    if |s| != 8 || s[2] != ':' || s[5] != ':' then None
    else if !AllDigits(s[..2]) || !AllDigits(s[3..5]) || !AllDigits(s[6..]) then None
    else
      var c := Clock(DigitsValue(s[..2]), DigitsValue(s[3..5]), DigitsValue(s[6..]), 0);
      if ValidClock(c) then Some(c) else None
  }

  /** The length of a fraction of a second, its point included; none is no length. */
  function FractionRun(s: string): (n: nat)
    ensures n <= |s|
  {
    if |s| >= 2 && s[0] == '.' && IsDigit(s[1]) then 1 + DigitRun(s[1..]) else 0
  }

  /** Nine digits of a fraction: fewer are filled up, and more are cut off. */
  function FractionValue(digits: string): nat
    requires AllDigits(digits)
  {
    if |digits| > 9 then DigitsValue(digits[..9]) else DigitsValue(digits) * Pow10(9 - |digits|)
  }

  /** The seconds a zone is ahead of UTC. */
  function ParseZone(s: string): Option<int> {
    if s == "Z" then Some(0)
    else if |s| != 6 || (s[0] != '+' && s[0] != '-') || s[3] != ':' then None
    else if !AllDigits(s[1..3]) || !AllDigits(s[4..]) then None
    else
      var h, m := DigitsValue(s[1..3]), DigitsValue(s[4..]);
      if h >= 24 || m >= 60 then None else Some(if s[0] == '-' then -(h * 3600 + m * 60) else h * 3600 + m * 60)
  }

  /** time.Parse of such a text. */
  function Parse(s: string): Option<int> {
    if |s| < 20 || s[10] != 'T' then None
    else
      var n := FractionRun(s[19..]);
      var date, clock, zone := ParseDate(s[..10]), ParseClock(s[11..19]), ParseZone(s[19 + n..]);
      if date.None? || clock.None? || zone.None? then None
      else
        var nano := if n == 0 then 0 else FractionNano(s[19..], n);
        Some(Instant(date.value, clock.value) + nano - zone.value * NANO)
  }

  function FractionNano(s: string, n: nat): nat
    requires n == FractionRun(s) && n > 0
  {
    assert s[1..n] == s[1..][..n - 1];
    FractionValue(s[1..n])
  }

  /** The years a text of four digits can say. */
  predicate Sayable(t: int) {
    0 <= DateAt(t).year < 10_000
  }

  lemma DateReadsBack(d: Date)
    requires ValidDate(d) && 0 <= d.year < 10_000
    ensures |DateText(d)| == 10 && ParseDate(DateText(d)) == Some(d)
  {
    hide Before;
    var s := DateText(d);
    Widths();
    assert DaysIn(Leap(d.year), d.month) <= 31 by { MonthsAreShort(Leap(d.year), d.month); }
    DigitsReadBack(d.year, 4);
    DigitsReadBack(d.month, 2);
    DigitsReadBack(d.day, 2);
    assert s[..4] == Digits(d.year, 4) && s[5..7] == Digits(d.month, 2) && s[8..] == Digits(d.day, 2);
  }

  lemma MonthsAreShort(leap: bool, m: nat)
    requires 1 <= m <= 12
    ensures DaysIn(leap, m) <= 31
  {
  }

  lemma ClockReadsBack(c: Clock)
    requires ValidClock(c)
    ensures ParseClock(ClockText(c)) == Some(c.(nano := 0))
  {
    var s := ClockText(c);
    Widths();
    DigitsReadBack(c.hour, 2);
    DigitsReadBack(c.minute, 2);
    DigitsReadBack(c.second, 2);
    assert s[..2] == Digits(c.hour, 2) && s[3..5] == Digits(c.minute, 2) && s[6..] == Digits(c.second, 2);
  }

  lemma FractionReadsBack(nano: nat)
    requires nano < NANO
    ensures var s, n := Fraction(nano) + "Z", |Fraction(nano)|;
            && FractionRun(s) == n && s[n..] == "Z"
            && (n == 0 <==> nano == 0) && (n > 0 ==> FractionNano(s, n) == nano)
  {
    var s, n := Fraction(nano) + "Z", |Fraction(nano)|;
    if nano > 0 {
      var d := Trimmed(Digits(nano, 9));
      Widths();
      DigitsReadBack(nano, 9);
      TrimmedValue(Digits(nano, 9));
      assert s[1..] == d + "Z";
      RunEnds(d, "Z");
      assert s[1] == d[0] && s[1..n] == d;
    }
  }

  lemma RenderParts(t: int)
    requires Sayable(t)
    ensures var s, c := Render(t), ClockAt(t);
            && |s| >= 20 && s[..10] == DateText(DateAt(t)) && s[10] == 'T' && s[11..19] == ClockText(c)
            && s[19..] == Fraction(c.nano) + "Z"
  {
    hide DateText, ClockText, Fraction, DateAt, ClockAt, ParseDate;
    DateReadsBack(DateAt(t));
  }

  /** What is written of an instant reads back as that instant exactly if its
      year in UTC has four digits, and otherwise as no time at all. */
  lemma ReadsBackIff(t: int)
    ensures Parse(Render(t)) == if Sayable(t) then Some(t) else None
  {
    hide DateText, ClockText, Fraction, ParseDate, ParseClock, ParseZone, FractionRun, FractionNano, Instant, DateAt;
    hide ClockAt, Render;
    if Sayable(t) {
      RenderParts(t);
      var s, c := Render(t), ClockAt(t);
      DateReadsBack(DateAt(t));
      ClockReadsBack(c);
      FractionReadsBack(c.nano);
      var n := |Fraction(c.nano)|;
      assert s[19 + n..] == s[19..][n..] == "Z";
      ZoneZ();
      InstantOf(t);
      InstantNano(DateAt(t), c);
    } else {
      NotSayable(t);
    }
  }

  lemma ZoneZ()
    ensures ParseZone("Z") == Some(0)
  {
  }

  lemma InstantNano(d: Date, c: Clock)
    requires ValidDate(d)
    ensures Instant(d, c.(nano := 0)) + c.nano == Instant(d, c)
  {
  }

  lemma NotSayable(t: int)
    requires !Sayable(t)
    ensures Parse(Render(t)) == None
  {
    hide ClockText, Fraction, ParseClock, ParseZone, FractionRun, FractionNano, Instant, DateAt, ClockAt, ValidDate;
    var s, y := Render(t), DateAt(t).year;
    if y < 0 {
      assert s[0] == '-';
      assert |s| >= 20 ==> s[..10][..4][0] == '-';
    } else {
      LongYear(y);
      assert s[4] == YearText(y)[4];
      assert |s| >= 20 ==> s[..10][4] == s[4];
    }
  }

  lemma LongYear(y: nat)
    requires y >= 10_000
    ensures |YearText(y)| >= 5 && IsDigit(YearText(y)[4])
  {
    MoreDigits(y, 4);
  }

  lemma {:induction false} MoreDigits(y: nat, w: nat)
    requires y >= Pow10(w)
    ensures |FormatNat(y)| > w
  {
    if w > 0 {
      MoreDigits(y / 10, w - 1);
    }
  }

  /** An argument that names a time: a date, taken as its first instant, or a time. */
  function Given(s: string): Option<int> {
    match ParseDate(s)
    case Some(d) => Some(Instant(d, Clock(0, 0, 0, 0)))
    case None => Parse(s)
  }

  const LATE := "9999-12-31T23:59:59-01:00"

  function Digit(c: char): nat
    requires IsDigit(c)
  {
    (c as int - '0' as int) as nat
  }

  lemma {:induction false} TwoDigits(s: string)
    requires |s| == 2 && AllDigits(s)
    ensures DigitsValue(s) == 10 * Digit(s[0]) + Digit(s[1])
  {
    var t := s[..1];
    assert t[..0] == "" && DigitsValue(t) == 10 * DigitsValue(t[..0]) + Digit(t[0]);
  }

  lemma {:induction false} FourDigits(s: string)
    requires |s| == 4 && AllDigits(s)
    ensures DigitsValue(s) == 1000 * Digit(s[0]) + 100 * Digit(s[1]) + 10 * Digit(s[2]) + Digit(s[3])
  {
    var t := s[..3];
    TwoDigits(s[..2]);
    assert t[..2] == s[..2] && DigitsValue(t) == 10 * DigitsValue(t[..2]) + Digit(t[2]);
  }

  lemma LateDate()
    ensures ParseDate("9999-12-31") == Some(Date(9999, 12, 31))
  {
    var s := "9999-12-31";
    FourDigits(s[..4]);
    TwoDigits(s[5..7]);
    TwoDigits(s[8..]);
  }

  lemma LateClock()
    ensures ParseClock("23:59:59") == Some(Clock(23, 59, 59, 0))
  {
    var s := "23:59:59";
    TwoDigits(s[..2]);
    TwoDigits(s[3..5]);
    TwoDigits(s[6..]);
  }

  lemma LateZone()
    ensures ParseZone("-01:00") == Some(-3600) && FractionRun("-01:00") == 0
  {
    var s := "-01:00";
    TwoDigits(s[1..3]);
    TwoDigits(s[4..]);
  }

  lemma LateInstant()
    ensures ValidDate(Date(9999, 12, 31))
    ensures Instant(Date(9999, 12, 31), Clock(23, 59, 59, 0)) + 3600 * NANO == (YearStart(10_000) * DAY + 3599) * NANO
  {
  }

  /** A time that is taken, and in UTC is in the year 10000. */
  lemma TakenButNotSayable()
    ensures Given(LATE).Some? && !Sayable(Given(LATE).value)
  {
    hide ParseDate, ParseClock, ParseZone, FractionRun, Instant, YearStart, YearOf, ValidDate;
    assert |LATE| == 25 && ParseDate(LATE).None? by { TooLong(); }
    assert LATE[..10] == "9999-12-31" && LATE[11..19] == "23:59:59" && LATE[19..] == "-01:00";
    LateDate();
    LateClock();
    LateZone();
    LateInstant();
    var t := (YearStart(10_000) * DAY + 3599) * NANO;
    assert Given(LATE) == Some(t);
    assert t / NANO == YearStart(10_000) * DAY + 3599;
    assert t / NANO / DAY == YearStart(10_000);
    YearGoesBy(10_000);
    YearIsOne(YearStart(10_000), 10_000);
  }

  lemma TooLong()
    ensures |LATE| == 25 && ParseDate(LATE).None?
  {
  }
}
