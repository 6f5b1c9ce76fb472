/** Wall-clock time as whole seconds at one fixed offset: days, and years of the Gregorian calendar. */
module Calendar {

  const DAY: int := 86400

  function Day(t: int): int { t / DAY }

  function Midnight(d: int): int { d * DAY }

  /** The number of the day 1 January of a year is, 1 January 1970 being day 0. */
  function NewYear(y: int): int { 365 * (y - 1) + (y - 1) / 4 - (y - 1) / 100 + (y - 1) / 400 - 719162 }

  function YearStart(y: int): int { Midnight(NewYear(y)) }

  lemma MidnightOf(t: int)
    ensures Midnight(Day(t)) <= t < Midnight(Day(t) + 1)
  {
  }

  lemma BeforeMidnight(t: int, d: int)
    ensures t < Midnight(d) <==> Day(t) < d
  {
  }

  predicate IsLeap(y: int) { y % 4 == 0 && (y % 100 != 0 || y % 400 == 0) }

  lemma FloorStep(y: int, n: int)
    requires n > 1
    ensures y / n == (y - 1) / n + if y % n == 0 then 1 else 0
  {
    var q, r := y / n, y % n;
    if r == 0 {
      Floor(y - 1, n, q - 1, n - 1);
    } else {
      Floor(y - 1, n, q, r - 1);
    }
  }

  lemma Scale(a: int, b: int, n: int)
    requires a <= b && n > 0
    ensures a * n <= b * n
  {
  }

  lemma Floor(x: int, n: int, q: int, r: int)
    requires 0 <= r < n && x == q * n + r
    ensures x / n == q
  {
    var p := x / n;
    if p < q {
      Scale(p + 1, q, n);
    } else if q < p {
      Scale(q + 1, p, n);
    }
  }

  /** Time is counted from the first instant of 1970. */
  lemma TimeStartsIn1970()
    ensures YearStart(1970) == 0
  {
  }

  /** A year has the days the Gregorian rule gives it. */
  lemma YearLength(y: int)
    ensures NewYear(y + 1) == NewYear(y) + if IsLeap(y) then 366 else 365
  {
    FloorStep(y, 4);
    FloorStep(y, 100);
    FloorStep(y, 400);
  }

  lemma {:induction false} YearsIncrease(y: int, z: int)
    requires y <= z
    ensures NewYear(y) + 365 * (z - y) <= NewYear(z)
    decreases z - y
  {
    if y < z {
      YearLength(y);
      YearsIncrease(y + 1, z);
    }
  }

  /** The year of a day, found from some year at or before it, or at or after it. */
  function YearForth(d: int, y: int): int
    decreases d - NewYear(y)
  {
    YearLength(y);
    if NewYear(y + 1) <= d then YearForth(d, y + 1) else y
  }

  function YearBack(d: int, y: int): int
    decreases NewYear(y + 1) - d
  {
    YearLength(y);
    if d < NewYear(y) then YearBack(d, y - 1) else y
  }

  function YearOf(t: int): int {
    if Day(t) < 0 then YearBack(Day(t), 1969) else YearForth(Day(t), 1970)
  }

  lemma {:induction false} ForthSpan(d: int, y: int)
    requires NewYear(y) <= d
    ensures NewYear(YearForth(d, y)) <= d < NewYear(YearForth(d, y) + 1)
    decreases d - NewYear(y)
  {
    YearLength(y);
    if NewYear(y + 1) <= d {
      ForthSpan(d, y + 1);
    }
  }

  lemma {:induction false} BackSpan(d: int, y: int)
    requires d < NewYear(y + 1)
    ensures NewYear(YearBack(d, y)) <= d < NewYear(YearBack(d, y) + 1)
    decreases NewYear(y + 1) - d
  {
    YearLength(y);
    if d < NewYear(y) {
      BackSpan(d, y - 1);
    }
  }

  lemma YearSpan(t: int)
    ensures YearStart(YearOf(t)) <= t < YearStart(YearOf(t) + 1)
  {
    if Day(t) < 0 {
      BackSpan(Day(t), 1969);
    } else {
      ForthSpan(Day(t), 1970);
    }
    BeforeMidnight(t, NewYear(YearOf(t)));
    BeforeMidnight(t, NewYear(YearOf(t) + 1));
  }

  /** Every instant lies in exactly one year. */
  lemma InOneYear(t: int, y: int)
    ensures YearStart(y) <= t < YearStart(y + 1) <==> YearOf(t) == y
  {
    YearSpan(t);
    var z := YearOf(t);
    if z < y {
      YearsIncrease(z + 1, y);
    } else if y < z {
      YearsIncrease(y + 1, z);
    }
  }

  lemma YearIsMonotone(s: int, t: int)
    requires s <= t
    ensures YearOf(s) <= YearOf(t)
  {
    YearSpan(s);
    YearSpan(t);
    if YearOf(t) < YearOf(s) {
      YearsIncrease(YearOf(t) + 1, YearOf(s));
    }
  }

  /** Up to the end of a year, what is not before a time of that year lies in it. */
  lemma UpToYearEnd(from: int, t: int, y: int)
    requires YearOf(from) == y && t <= YearStart(y + 1)
    ensures from < t ==> YearOf(t - 1) == y
    ensures YearOf(t - 1) <= y
  {
    InOneYear(from, y);
    InOneYear(t - 1, y);
    if t <= from {
      YearIsMonotone(t - 1, from);
    }
  }
}
