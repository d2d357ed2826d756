/** strcmp on the fixed-width UTC stamps of CURRENT_TIMESTAMP, "YYYY-MM-DD HH:MM:SS" */
module Stamps {
  import opened Arith

  // strcmp(a, b) < 0
  predicate Less(a: string, b: string) {
    b != [] && (a == [] || a[0] < b[0] || (a[0] == b[0] && Less(a[1..], b[1..])))
  }

  lemma {:induction false} LessIsTotal(a: string, b: string)
    ensures !(Less(a, b) && Less(b, a))
    ensures Less(a, b) || Less(b, a) || a == b
  {
    if a != [] && b != [] {
      LessIsTotal(a[1..], b[1..]);
      if a[1..] == b[1..] && a[0] == b[0] {
        assert a == [a[0]] + a[1..] && b == [b[0]] + b[1..];
      }
    }
  }

  lemma {:induction false} LessIsTransitive(a: string, b: string, c: string)
    requires !Less(b, a) && !Less(c, b)
    ensures !Less(c, a)
  {
    if a != [] && b != [] && c != [] {
      if a[0] == b[0] == c[0] {
        LessIsTransitive(a[1..], b[1..], c[1..]);
      }
    }
  }

  // Strings that begin with pieces of equal length: the first piece that differs decides.
  lemma {:induction false} LessByPiece(p: string, s: string, q: string, t: string)
    requires |p| == |q|
    ensures Less(p + s, q + t) <==> Less(p, q) || (p == q && Less(s, t))
  {
    if p == [] {
      assert p + s == s && q + t == t;
    } else {
      assert (p + s)[1..] == p[1..] + s && (q + t)[1..] == q[1..] + t;
      LessByPiece(p[1..], s, q[1..], t);
      assert p == [p[0]] + p[1..] && q == [q[0]] + q[1..];
    }
  }

  // The proleptic Gregorian calendar
  predicate Leap(y: nat) { y % 4 == 0 && (y % 100 != 0 || y % 400 == 0) }

  function DaysIn(y: nat, m: nat): nat {
    if m == 2 then (if Leap(y) then 29 else 28) else if m in {4, 6, 9, 11} then 30 else 31
  }

  function YearStart(y: nat): nat {
    if y == 0 then 0 else YearStart(y - 1) + (if Leap(y - 1) then 366 else 365)
  }

  function MonthStart(y: nat, m: nat): nat
    requires m >= 1
  {
    if m == 1 then 0 else MonthStart(y, m - 1) + DaysIn(y, m - 1)
  }

  datatype Instant = Instant(year: nat, month: nat, day: nat, hour: nat, minute: nat, second: nat)

  predicate IsInstant(i: Instant) {
    && i.year < 10000 && 1 <= i.month <= 12 && 1 <= i.day <= DaysIn(i.year, i.month)
    && i.hour < 24 && i.minute < 60 && i.second < 60
  }

  function Day(i: Instant): int
    requires i.month >= 1
  {
    YearStart(i.year) + MonthStart(i.year, i.month) + i.day - 1
  }

  // Seconds since 0000-01-01 00:00:00
  function Seconds(i: Instant): int
    requires i.month >= 1
  {
    86400 * Day(i) + 3600 * i.hour + 60 * i.minute + i.second
  }

  lemma Every4(y: nat)
    ensures (y + 4) / 4 - (y + 3) / 4 == if y % 4 == 0 then 1 else 0
  {
  }

  lemma Every100(y: nat)
    ensures (y + 100) / 100 - (y + 99) / 100 == if y % 100 == 0 then 1 else 0
  {
  }

  lemma Every400(y: nat)
    ensures (y + 400) / 400 - (y + 399) / 400 == if y % 400 == 0 then 1 else 0
  {
  }

  lemma CenturiesAreFours(y: nat)
    ensures y % 100 == 0 ==> y % 4 == 0
  {
    if y % 100 == 0 {
      var b := y / 100;
      QuotientIs(y, 4, 25 * b, 0);
    }
  }

  lemma FourCenturiesAreCenturies(y: nat)
    ensures y % 400 == 0 ==> y % 100 == 0
  {
    if y % 400 == 0 {
      var a := y / 400;
      QuotientIs(y, 100, 4 * a, 0);
    }
  }

  // Leap years before year y
  function LeapYears(y: nat): int { (y + 3) / 4 - (y + 99) / 100 + (y + 399) / 400 }

  lemma OneMoreYear(y: nat)
    ensures LeapYears(y + 1) == LeapYears(y) + if Leap(y) then 1 else 0
  {
    Every4(y);
    Every100(y);
    Every400(y);
    CenturiesAreFours(y);
    FourCenturiesAreCenturies(y);
  }

  lemma {:induction false} YearStartIs(y: nat)
    ensures YearStart(y) == 365 * y + (y + 3) / 4 - (y + 99) / 100 + (y + 399) / 400
  {
    CountYears(y);
  }

  lemma {:induction false} CountYears(y: nat)
    ensures YearStart(y) == 365 * y + LeapYears(y)
  {
    if y > 0 {
      OneMoreYear(y - 1);
      hide Leap, LeapYears;
      CountYears(y - 1);
    }
  }

  lemma MonthsAreYear(y: nat)
    ensures MonthStart(y, 7) == 153 + DaysIn(y, 2)
    ensures MonthStart(y, 12) + DaysIn(y, 12) == 337 + DaysIn(y, 2)
    ensures DaysIn(y, 2) == if y % 400 == 0 || (y % 4 == 0 && y % 100 != 0) then 29 else 28
  {
    assert MonthStart(y, 2) == 31;
    assert MonthStart(y, 4) == MonthStart(y, 3) + 31 == 62 + DaysIn(y, 2);
    assert MonthStart(y, 6) == MonthStart(y, 5) + 31 == MonthStart(y, 4) + 61;
    assert MonthStart(y, 8) == MonthStart(y, 7) + 31 == MonthStart(y, 6) + 61;
    assert MonthStart(y, 10) == MonthStart(y, 9) + 30 == MonthStart(y, 8) + 61;
    assert MonthStart(y, 12) == MonthStart(y, 11) + 30 == MonthStart(y, 10) + 61;
    CenturiesAreFours(y);
    FourCenturiesAreCenturies(y);
  }

  // 1970-01-01 00:00:00 is 719528 days after 0000-01-01.
  lemma UnixEpoch(i: Instant)
    requires i == Instant(1970, 1, 1, 0, 0, 0)
    ensures Seconds(i) == 719528 * 86400
  {
    hide YearStart;
    YearStartIs(i.year);
  }

  function Two(n: nat): (s: string)
    requires n < 100
    ensures |s| == 2
  {
    ['0' + (n / 10) as char, '0' + (n % 10) as char]
  }

  function Text(i: Instant): string
    requires IsInstant(i)
  {
    Two(i.year / 100) + (Two(i.year % 100) + ("-" + (Two(i.month) + ("-" + (Two(i.day) + (" " +
    (Two(i.hour) + (":" + (Two(i.minute) + (":" + Two(i.second)))))))))))
  }

  lemma TwoLess(m: nat, n: nat)
    requires m < 100 && n < 100
    ensures Less(Two(m), Two(n)) <==> m < n
    ensures Two(m) == Two(n) ==> m == n
  {
    var a, b := Two(m), Two(n);
    assert Less(a[1..], b[1..]) <==> a[1] < b[1] || (a[1] == b[1] && Less(a[1..][1..], b[1..][1..]));
  }

  lemma TwoStep(m: nat, s: string, n: nat, t: string)
    requires m < 100 && n < 100
    ensures Less(Two(m) + s, Two(n) + t) <==> m < n || (m == n && Less(s, t))
  {
    LessByPiece(Two(m), s, Two(n), t);
    TwoLess(m, n);
  }

  lemma SeparatorStep(c: char, s: string, t: string)
    ensures Less([c] + s, [c] + t) <==> Less(s, t)
  {
    LessByPiece([c], s, [c], t);
    assert !Less([c][1..], [c][1..]);
  }

  // The clock part: string order is order in seconds of the day.
  predicate ClockBefore(i: Instant, j: Instant) {
    3600 * i.hour + 60 * i.minute + i.second < 3600 * j.hour + 60 * j.minute + j.second
  }

  lemma ClockOrder(i: Instant, j: Instant)
    requires IsInstant(i) && IsInstant(j)
    ensures ClockBefore(i, j) <==> Less(Two(i.hour) + (":" + (Two(i.minute) + (":" + Two(i.second)))),
                                        Two(j.hour) + (":" + (Two(j.minute) + (":" + Two(j.second)))))
  {
    hide Two;
    hide Less;
    var si, sj := ":" + Two(i.second), ":" + Two(j.second);
    var mi, mj := ":" + (Two(i.minute) + si), ":" + (Two(j.minute) + sj);
    TwoStep(i.hour, mi, j.hour, mj);
    SeparatorStep(':', Two(i.minute) + si, Two(j.minute) + sj);
    TwoStep(i.minute, si, j.minute, sj);
    SeparatorStep(':', Two(i.second), Two(j.second));
    TwoLess(i.second, j.second);
  }

  lemma {:induction false} YearStartGrows(y: nat, z: nat)
    requires y < z
    ensures YearStart(y) + (if Leap(y) then 366 else 365) <= YearStart(z)
  {
    if y + 1 < z {
      YearStartGrows(y, z - 1);
    }
  }

  lemma {:induction false} MonthStartGrows(y: nat, m: nat, n: nat)
    requires 1 <= m < n <= 13
    ensures MonthStart(y, m) + DaysIn(y, m) <= MonthStart(y, n)
    ensures n == 13 ==> MonthStart(y, n) == if Leap(y) then 366 else 365
  {
    if n == 13 {
      assert MonthStart(y, 2) == 31;
      assert MonthStart(y, 3) == 31 + DaysIn(y, 2);
      assert MonthStart(y, 5) == MonthStart(y, 3) + 61;
      assert MonthStart(y, 7) == MonthStart(y, 5) + 61;
      assert MonthStart(y, 9) == MonthStart(y, 7) + 62;
      assert MonthStart(y, 11) == MonthStart(y, 9) + 61;
    }
    if m + 1 < n {
      MonthStartGrows(y, m, n - 1);
    }
  }

  // Dates in field order are dates in day order.
  lemma DayOrder(i: Instant, j: Instant)
    requires IsInstant(i) && IsInstant(j)
    requires i.year < j.year || (i.year == j.year && (i.month < j.month || (i.month == j.month && i.day < j.day)))
    ensures Day(i) < Day(j)
  {
    MonthStartGrows(i.year, i.month, 13);
    if i.year < j.year {
      YearStartGrows(i.year, j.year);
    } else if i.month < j.month {
      MonthStartGrows(i.year, i.month, j.month);
    }
  }

  lemma DatesOrder(i: Instant, j: Instant)
    requires IsInstant(i) && IsInstant(j)
    ensures i.year < j.year || (i.year == j.year && (i.month < j.month || (i.month == j.month && i.day < j.day)))
      <==> Day(i) < Day(j)
    ensures Day(i) == Day(j) <==> i.year == j.year && i.month == j.month && i.day == j.day
  {
    if i.year < j.year || (i.year == j.year && (i.month < j.month || (i.month == j.month && i.day < j.day))) {
      DayOrder(i, j);
    } else if (i.year, i.month, i.day) != (j.year, j.month, j.day) {
      DayOrder(j, i);
    }
  }

  // String order is time order.
  lemma StampOrder(i: Instant, j: Instant)
    requires IsInstant(i) && IsInstant(j)
    ensures Less(Text(i), Text(j)) <==> Seconds(i) < Seconds(j)
    ensures |Text(i)| == 19
  {
    hide Two;
    hide Less;
    hide Day;
    var ci := Two(i.hour) + (":" + (Two(i.minute) + (":" + Two(i.second))));
    var cj := Two(j.hour) + (":" + (Two(j.minute) + (":" + Two(j.second))));
    var di, dj := " " + ci, " " + cj;
    var mi, mj := "-" + (Two(i.day) + di), "-" + (Two(j.day) + dj);
    var yi, yj := "-" + (Two(i.month) + mi), "-" + (Two(j.month) + mj);
    TwoStep(i.year / 100, Two(i.year % 100) + yi, j.year / 100, Two(j.year % 100) + yj);
    TwoStep(i.year % 100, yi, j.year % 100, yj);
    SeparatorStep('-', Two(i.month) + mi, Two(j.month) + mj);
    TwoStep(i.month, mi, j.month, mj);
    SeparatorStep('-', Two(i.day) + di, Two(j.day) + dj);
    TwoStep(i.day, di, j.day, dj);
    SeparatorStep(' ', ci, cj);
    ClockOrder(i, j);
    DatesOrder(i, j);
  }
}
