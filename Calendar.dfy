/** Dates as day numbers, and the yearly intervals of the measures.

    A date is its proleptic Gregorian ordinal (0001-01-01 is day 1), so the
    difference of two dates is their distance in days, as `(a - b).days` gives
    it, and `d - days(1)` is `d - 1`. */
module Calendar {

  type Date = int

  predicate IsLeapYear(y: int) {
    y % 4 == 0 && (y % 100 != 0 || y % 400 == 0)
  }

  /** Days of all years before year `y`. */
  function DaysBeforeYear(y: int): int {
    var p := y - 1;
    365 * p + p / 4 - p / 100 + p / 400
  }

  /** Days of the months before month `m` of year `y`. */
  function DaysBeforeMonth(y: int, m: int): int
    requires 1 <= m <= 12
  {
    var cumulative := [0, 31, 59, 90, 120, 151, 181, 212, 243, 273, 304, 334];
    cumulative[m - 1] + (if m > 2 && IsLeapYear(y) then 1 else 0)
  }

  /** The day number of the date `y-m-d`. */
  function Ordinal(y: int, m: int, d: int): Date
    requires 1 <= m <= 12
  {
    DaysBeforeYear(y) + DaysBeforeMonth(y, m) + d
  }

  /** A year is 365 days long, 366 in a leap year. */
  lemma YearLength(y: int)
    ensures DaysBeforeYear(y + 1) - DaysBeforeYear(y) == if IsLeapYear(y) then 366 else 365
  {
    var p := y - 1;
    DivStep(p, 4);
    DivStep(p, 100);
    DivStep(p, 400);
  }

  /** Going one day further moves `p / k` on exactly at multiples of `k`. */
  lemma DivStep(p: int, k: int)
    requires k > 0
    ensures (p + 1) / k - p / k == if (p + 1) % k == 0 then 1 else 0
  {
    var q, r := p / k, p % k;
    assert p == k * q + r && 0 <= r < k;
    if r + 1 == k {
      assert p + 1 == k * (q + 1) + 0;
      DivUnique(p + 1, k, q + 1, 0);
    } else {
      assert p + 1 == k * q + (r + 1);
      DivUnique(p + 1, k, q, r + 1);
    }
  }

  lemma DivUnique(a: int, k: int, q: int, r: int)
    requires k > 0 && 0 <= r < k && a == k * q + r
    ensures a / k == q && a % k == r
  {
    var d := a / k - q;
    assert k * d == k * (a / k) - k * q;
    MulSign(k, d);
  }

  lemma {:induction false} MulSign(k: int, d: int)
    requires k > 0
    ensures d >= 1 ==> k * d >= k
    ensures d <= -1 ==> k * d <= -k
    decreases if d < 0 then -d else d
  {
    if d > 1 {
      MulSign(k, d - 1);
      assert k * d == k * (d - 1) + k;
    } else if d < -1 {
      MulSign(k, d + 1);
      assert k * d == k * (d + 1) - k;
    }
  }

  /** The first of January of a later year is a later day. */
  lemma {:induction false} NewYearIncreasing(y: int, z: int)
    requires y < z
    ensures Ordinal(y, 1, 1) < Ordinal(z, 1, 1)
    decreases z - y
  {
    YearLength(y);
    if y + 1 < z {
      NewYearIncreasing(y + 1, z);
    }
  }

  // The fixed dates of the study scripts.
  const StudyStart: Date := Ordinal(2009, 1, 1)
  const StudyEnd: Date := Ordinal(2024, 12, 31)
  const CensusDay: Date := Ordinal(2021, 3, 21)
  /** TPP records active registrations with far-future end dates; from this day on they mean "none". */
  const FarFuture: Date := Ordinal(3000, 1, 1)

  /** The constants agree with Python's `date.toordinal()` and lie in the expected order. */
  lemma StudyDates()
    ensures StudyStart == 733408 && StudyEnd == 739251
    ensures CensusDay == 737870 && FarFuture == 1095363
    ensures StudyStart < CensusDay < StudyEnd < FarFuture
  {
  }

  /** A measures interval, both ends included. */
  datatype Interval = Interval(start: Date, end: Date)

  /** `years(n).starting_on("<y>-01-01")`: `n` consecutive calendar years from year `y`. */
  function YearlyIntervals(n: nat, y: int): (r: seq<Interval>)
    ensures |r| == n
    ensures forall i :: 0 <= i < n ==> r[i].start == Ordinal(y + i, 1, 1)
    ensures forall i :: 0 <= i < n ==> r[i].end == Ordinal(y + i + 1, 1, 1) - 1
  {
    seq(n, i => Interval(Ordinal(y + i, 1, 1), Ordinal(y + i + 1, 1, 1) - 1))
  }

  /** The intervals are non-empty, contiguous and in increasing order. */
  lemma YearlyIntervalsContiguous(n: nat, y: int)
    ensures forall i :: 0 <= i < n ==> YearlyIntervals(n, y)[i].start <= YearlyIntervals(n, y)[i].end
    ensures forall i :: 0 <= i < n - 1 ==> YearlyIntervals(n, y)[i].end + 1 == YearlyIntervals(n, y)[i + 1].start
    ensures forall i, j :: 0 <= i <= j < n ==> YearlyIntervals(n, y)[i].end <= YearlyIntervals(n, y)[j].end
  {
    var r := YearlyIntervals(n, y);
    forall i | 0 <= i < n
      ensures r[i].start <= r[i].end
    {
      NewYearIncreasing(y + i, y + i + 1);
    }
    forall i, j | 0 <= i <= j < n
      ensures r[i].end <= r[j].end
    {
      if i < j {
        NewYearIncreasing(y + i + 1, y + j + 1);
      }
    }
  }
}
