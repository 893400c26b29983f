/**
 The proleptic Gregorian calendar in UTC. Months are numbered consecutively, 12 * year + month - 1, and
 days from 0000-01-01.
 */
module Calendar {

  type Month = int
  type Day = int

  predicate Leap(y: int) {
    y % 4 == 0 && (y % 100 != 0 || y % 400 == 0)
  }

  function DaysIn(m: Month): (n: nat)
    ensures 28 <= n <= 31
  {
    if m % 12 == 1 then (if Leap(m / 12) then 29 else 28)
    else if m % 12 == 3 || m % 12 == 5 || m % 12 == 8 || m % 12 == 10 then 30
    else 31
  }

  /** A numbering of the first days of all months that respects their lengths. */
  ghost predicate Follows(f: int -> int, m: Month) {
    f(m + 1) == f(m) + DaysIn(m)
  }

  ghost predicate IsCalendar(f: int -> int) {
    f(0) == 0 && forall m :: Follows(f, m)
  }

  // ----- the closed form

  /** Day number of the first of the month, with years taken to begin in March. */
  function MonthStart(m: Month): Day {
    var y, k := (m - 2) / 12, (m - 2) % 12;
    365 * y + y / 4 - y / 100 + y / 400 + (153 * k + 2) / 5 + 60
  }

  lemma StepDiv(y: int, d: int)
    requires d == 4 || d == 100 || d == 400
    ensures (y + 1) / d - y / d == if (y + 1) % d == 0 then 1 else 0
  {
  }

  lemma Multiples(q: int)
    ensures (100 * q) % 100 == 0 && (4 * q) % 4 == 0
  {
  }

  lemma MultiplesNest(y: int)
    ensures y % 400 == 0 ==> y % 100 == 0
    ensures y % 100 == 0 ==> y % 4 == 0
  {
    if y % 400 == 0 {
      var q := y / 400;
      assert y == 100 * (4 * q);
      Multiples(4 * q);
    }
    if y % 100 == 0 {
      var q := y / 100;
      assert y == 4 * (25 * q);
      Multiples(25 * q);
    }
  }

  lemma LeapDays(y: int)
    ensures (y + 1) / 4 - (y + 1) / 100 + (y + 1) / 400 ==
            y / 4 - y / 100 + y / 400 + (if Leap(y + 1) then 1 else 0)
  {
    StepDiv(y, 4);
    StepDiv(y, 100);
    StepDiv(y, 400);
    MultiplesNest(y + 1);
  }

  /** Months of a year that begins in March, from its k-th to the next. */
  lemma WithinYear(k: int)
    requires 0 <= k < 11
    ensures (153 * (k + 1) + 2) / 5 - (153 * k + 2) / 5 ==
            if k == 1 || k == 3 || k == 6 || k == 8 then 30 else 31
  {
  }

  lemma SplitMonth(m: Month, y: int, k: int)
    requires m == 12 * y + k && 0 <= k < 12
    ensures m / 12 == y && m % 12 == k
  {
  }

  /** The closed form with the March-based year and month made explicit. */
  lemma MonthStartAt(m: Month, y: int, k: int)
    requires m - 2 == 12 * y + k && 0 <= k < 12
    ensures MonthStart(m) == 365 * y + y / 4 - y / 100 + y / 400 + (153 * k + 2) / 5 + 60
  {
    SplitMonth(m - 2, y, k);
  }

  lemma FebruaryFollows(m: Month, y: int)
    requires m - 2 == 12 * y + 11
    ensures MonthStart(m + 1) == MonthStart(m) + DaysIn(m)
  {
    assert DaysIn(m) == (if Leap(y + 1) then 29 else 28) by { SplitMonth(m, y + 1, 1); }
    var a, b := y / 4 - y / 100 + y / 400, (y + 1) / 4 - (y + 1) / 100 + (y + 1) / 400;
    assert b == a + (if Leap(y + 1) then 1 else 0) by { LeapDays(y); }
    assert MonthStart(m) == 365 * y + a + 397 by { MonthStartAt(m, y, 11); }
    assert MonthStart(m + 1) == 365 * (y + 1) + b + 60 by { MonthStartAt(m + 1, y + 1, 0); }
  }

  lemma OtherMonthFollows(m: Month, y: int, k: int)
    requires m - 2 == 12 * y + k && 0 <= k < 11
    ensures MonthStart(m + 1) == MonthStart(m) + DaysIn(m)
  {
    if k == 10 {
      SplitMonth(m, y + 1, 0);
    } else {
      SplitMonth(m, y, k + 2);
    }
    MonthStartAt(m, y, k);
    MonthStartAt(m + 1, y, k + 1);
    WithinYear(k);
  }

  lemma MonthStartFollows(m: Month)
    ensures Follows(MonthStart, m)
  {
    var y, k := (m - 2) / 12, (m - 2) % 12;
    if k == 11 {
      FebruaryFollows(m, y);
    } else {
      OtherMonthFollows(m, y, k);
    }
  }

  lemma ClosedFormIsCalendar()
    ensures IsCalendar(MonthStart)
  {
    assert MonthStart(0) == 0;
    forall m ensures Follows(MonthStart, m) {
      MonthStartFollows(m);
    }
  }

  // ----- the numbering

  ghost function Numbering(): (f: int -> int)
    ensures IsCalendar(f)
  {
    ClosedFormIsCalendar();
    var f :| IsCalendar(f);
    f
  }

  /** Day number of the first of the month. */
  ghost function Start(m: Month): Day {
    Numbering()(m)
  }

  lemma StartNext(m: Month)
    ensures Start(m) + 28 <= Start(m + 1) == Start(m) + DaysIn(m)
    ensures Start(0) == 0
  {
    assert Follows(Numbering(), m);
  }

  /** The numbering is unique: the closed form computes it. */
  lemma {:induction false} ClosedFormAgrees(m: Month)
    ensures MonthStart(m) == Start(m)
    decreases if m < 0 then -m else m
  {
    ClosedFormIsCalendar();
    StartNext(m);
    if m > 0 {
      ClosedFormAgrees(m - 1);
      StartNext(m - 1);
      assert Follows(MonthStart, m - 1);
    } else if m < 0 {
      ClosedFormAgrees(m + 1);
      assert Follows(MonthStart, m);
    }
  }

  lemma {:induction false} StartMonotone(a: Month, b: Month)
    requires a < b
    ensures Start(a) + 28 <= Start(b)
    decreases b - a
  {
    StartNext(a);
    if a + 1 < b {
      StartMonotone(a + 1, b);
    }
  }

  predicate Between(lo: Day, d: Day, hi: Day) {
    lo <= d < hi
  }

  ghost predicate InMonth(d: Day, m: Month) {
    Between(Start(m), d, Start(m + 1))
  }

  lemma {:induction false} EveryDayHasMonth(d: Day) returns (m: Month)
    ensures InMonth(d, m)
    decreases if d < 0 then -d else d
  {
    if d == 0 {
      m := 0;
      StartNext(0);
    } else if d > 0 {
      m := EveryDayHasMonth(d - 1);
      StartNext(m + 1);
      if d == Start(m + 1) {
        m := m + 1;
      }
    } else {
      m := EveryDayHasMonth(d + 1);
      StartNext(m - 1);
      if d < Start(m) {
        m := m - 1;
      }
    }
  }

  lemma MonthUnique(d: Day, m: Month, n: Month)
    requires InMonth(d, m) && InMonth(d, n)
    ensures m == n
  {
    if m + 1 < n {
      StartMonotone(m + 1, n);
    } else if n + 1 < m {
      StartMonotone(n + 1, m);
    }
  }

  lemma CenturiesRepeat(y: int, q: int)
    requires q == 4 || q == 100 || q == 400
    ensures (y + 400) / q == y / q + 400 / q
  {
  }

  /** MonthStart of month k of the March-based year y. */
  lemma StartOfMarchYear(y: int, k: int, fours: int, hundreds: int, eras: int)
    requires 0 <= k < 12 && 0 <= y - 4 * fours < 4 && 0 <= y - 100 * hundreds < 100 && 0 <= y - 400 * eras < 400
    ensures MonthStart(12 * y + k + 2) == 365 * y + fours - hundreds + eras + (153 * k + 2) / 5 + 60
  {
    MonthStartAt(12 * y + k + 2, y, k);
    assert y / 4 == fours by { Quotient(y, 4, fours); }
    assert y / 100 == hundreds by { Quotient(y, 100, hundreds); }
    assert y / 400 == eras by { Quotient(y, 400, eras); }
  }

  lemma Quotient(y: int, d: int, q: int)
    requires (d == 4 || d == 100 || d == 400) && 0 <= y - d * q < d
    ensures y / d == q
  {
    if d == 4 {
      assert y == 4 * q + (y - 4 * q);
    } else if d == 100 {
      assert y == 100 * q + (y - 100 * q);
    } else {
      assert y == 400 * q + (y - 400 * q);
    }
  }

  lemma KnownDates()
    ensures MonthStart(23_640) == 719_528 && MonthStart(24_001) == 730_516 && MonthStart(24_002) == 730_545
    ensures MonthStart(25_201) == 767_041 && MonthStart(25_202) == 767_069
  {
    StartOfMarchYear(1969, 10, 492, 19, 4);
    StartOfMarchYear(1999, 11, 499, 19, 4);
    StartOfMarchYear(2000, 0, 500, 20, 5);
    StartOfMarchYear(2099, 11, 524, 20, 5);
    StartOfMarchYear(2100, 0, 525, 21, 5);
  }

  /**
   The numbering agrees with 1970-01-01, 2000-02-01, 2000-03-01 (after a leap day) and the short February
   of 2100, and repeats every 400 years of 146097 days.
   */
  lemma CalendarAnchors(m: Month)
    ensures Start(23_640) == 719_528 && Start(24_001) == 730_516 && Start(24_002) == 730_545
    ensures Start(25_202) == Start(25_201) + 28
    ensures Start(m + 4800) == Start(m) + 146_097
  {
    assert Start(23_640) == 719_528 by { KnownDates(); ClosedFormAgrees(23_640); }
    assert Start(24_001) == 730_516 by { KnownDates(); ClosedFormAgrees(24_001); }
    assert Start(24_002) == 730_545 by { KnownDates(); ClosedFormAgrees(24_002); }
    assert Start(25_202) == Start(25_201) + 28 by { KnownDates(); ClosedFormAgrees(25_201); ClosedFormAgrees(25_202); }
    assert Start(m + 4800) == Start(m) + 146_097 by { MonthStartRepeats(m); ClosedFormAgrees(m); ClosedFormAgrees(m + 4800); }
  }

  lemma MonthStartRepeats(m: Month)
    ensures MonthStart(m + 4800) == MonthStart(m) + 146_097
  {
    var y, k := (m - 2) / 12, (m - 2) % 12;
    MonthStartAt(m, y, k);
    MonthStartAt(m + 4800, y + 400, k);
    CenturiesRepeat(y, 4);
    CenturiesRepeat(y, 100);
    CenturiesRepeat(y, 400);
  }
}
