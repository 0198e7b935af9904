/** The scalar metrics computed at the top of the dashboard component: counts, means, the
    trend delta and the salary distribution. */
module StaffMetrics {
  import opened Numeric
  import opened Records

  // ---------------------------------------------------------------------------------------
  // Sums and means

  /** The numeric fields the dashboard averages. */
  datatype Field = Salary | Rating | Attendance

  function Value(e: Employee, f: Field): real
  {
    match f
    case Salary => e.salary as real
    case Rating => e.rating
    case Attendance => e.attendanceRate
  }

  /** xs.reduce((sum, emp) => sum + emp.<field>, 0) */
  function Sum(xs: seq<Employee>, f: Field): real
  {
    if |xs| == 0 then 0.0 else Sum(xs[..|xs| - 1], f) + Value(xs[|xs| - 1], f)
  }

  /** The sum divided by the number of records; the source divides without a guard. */
  function Mean(xs: seq<Employee>, f: Field): real
    requires |xs| > 0
  {
    Sum(xs, f) / |xs| as real
  }

  lemma {:induction false} SumBounds(xs: seq<Employee>, f: Field, lo: real, hi: real)
    requires forall i | 0 <= i < |xs| :: lo <= Value(xs[i], f) <= hi
    ensures |xs| as real * lo <= Sum(xs, f) <= |xs| as real * hi
  {
    if |xs| > 0 {
      var init := xs[..|xs| - 1];
      assert forall i | 0 <= i < |init| :: init[i] == xs[i];
      SumBounds(init, f, lo, hi);
      var n := |init| as real;
      assert |xs| as real == n + 1.0;
      assert (n + 1.0) * lo == n * lo + lo;
      assert (n + 1.0) * hi == n * hi + hi;
      assert lo <= Value(xs[|xs| - 1], f) <= hi;
      assert Sum(xs, f) == Sum(init, f) + Value(xs[|xs| - 1], f);
    }
  }

  /** A mean lies within any bounds every record's value lies within. */
  lemma MeanBounds(xs: seq<Employee>, f: Field, lo: real, hi: real)
    requires |xs| > 0
    requires forall i | 0 <= i < |xs| :: lo <= Value(xs[i], f) <= hi
    ensures lo <= Mean(xs, f) <= hi
  {
    SumBounds(xs, f, lo, hi);
    var n, m := |xs| as real, Mean(xs, f);
    assert m * n == Sum(xs, f);
    assert n * (m - lo) == Sum(xs, f) - n * lo;
    assert n * (hi - m) == n * hi - Sum(xs, f);
    CancelPositive(n, m - lo);
    CancelPositive(n, hi - m);
  }

  lemma {:induction false} SumConcat(xs: seq<Employee>, ys: seq<Employee>, f: Field)
    ensures Sum(xs + ys, f) == Sum(xs, f) + Sum(ys, f)
    decreases |ys|
  {
    if |ys| == 0 {
      assert xs + ys == xs;
    } else {
      var init := ys[..|ys| - 1];
      assert (xs + ys)[..|xs + ys| - 1] == xs + init;
      SumConcat(xs, init, f);
    }
  }

  /** Taking one record out of a list takes its value out of the sum. */
  lemma SumRemove(ys: seq<Employee>, k: nat, f: Field)
    requires k < |ys|
    ensures Sum(ys, f) == Sum(ys[..k] + ys[k + 1..], f) + Value(ys[k], f)
  {
    assert ys == (ys[..k] + [ys[k]]) + ys[k + 1..];
    SumConcat(ys[..k] + [ys[k]], ys[k + 1..], f);
    SumConcat(ys[..k], [ys[k]], f);
    SumConcat(ys[..k], ys[k + 1..], f);
    assert Sum([ys[k]], f) == Value(ys[k], f) by { assert [ys[k]][..0] == []; }
  }

  /** A sum does not depend on the order of the records: sorting the shared array leaves every
      mean as it was. */
  lemma {:induction false} SumPermutation(xs: seq<Employee>, ys: seq<Employee>, f: Field)
    requires multiset(xs) == multiset(ys)
    ensures Sum(xs, f) == Sum(ys, f)
    decreases |xs|
  {
    if |xs| == 0 {
      assert |ys| == |multiset(ys)| == 0;
    } else {
      var x := xs[|xs| - 1];
      var init := xs[..|xs| - 1];
      assert x in multiset(ys);
      var k :| 0 <= k < |ys| && ys[k] == x;
      var rest := ys[..k] + ys[k + 1..];
      MultisetRemove(xs, |xs| - 1);
      assert xs[..|xs| - 1] + xs[|xs|..] == init;
      MultisetRemove(ys, k);
      MultisetCancel(multiset(init), multiset(rest), x);
      SumPermutation(init, rest, f);
      SumRemove(ys, k, f);
    }
  }

  /** The salary sum in integers. */
  function SalaryTotal(xs: seq<Employee>): int
  {
    if |xs| == 0 then 0 else SalaryTotal(xs[..|xs| - 1]) + xs[|xs| - 1].salary
  }

  lemma {:induction false} SalarySumIsIntegral(xs: seq<Employee>)
    ensures Sum(xs, Salary) == SalaryTotal(xs) as real
  {
    if |xs| > 0 {
      SalarySumIsIntegral(xs[..|xs| - 1]);
    }
  }

  // ---------------------------------------------------------------------------------------
  // The headline metrics (Overview.tsx lines 14-28)

  const ThirtyDaysMillis: int := 30 * 24 * 60 * 60 * 1000

  predicate IsActive(e: Employee) { e.status == "active" }
  predicate IsInactive(e: Employee) { !IsActive(e) }
  predicate IsHighPerformer(e: Employee) { e.rating >= 4.5 }
  predicate HasLowAttendance(e: Employee) { e.attendanceRate < 90.0 }
  predicate IsReviewPending(e: Employee) { e.rating < 4.0 }
  predicate IsOpen(r: Recruitment) { r.stage != "hired" }

  /** Joined strictly after the instant thirty days before now. */
  predicate IsRecentHire(e: Employee, now: int) { e.joinDate > now - ThirtyDaysMillis }

  function ActiveEmployees(staff: seq<Employee>): nat { Count(staff, IsActive) }
  function HighPerformers(staff: seq<Employee>): nat { Count(staff, IsHighPerformer) }
  function LowAttendance(staff: seq<Employee>): nat { Count(staff, HasLowAttendance) }
  function UpcomingReviews(staff: seq<Employee>): nat { Count(staff, IsReviewPending) }
  function OpenPositions(recs: seq<Recruitment>): nat { Count(recs, IsOpen) }
  function RecentHires(staff: seq<Employee>, now: int): nat { Count(staff, (e: Employee) => IsRecentHire(e, now)) }

  /** Math.round of the mean salary: the integer nearest the mean, halves up. */
  function AverageSalary(staff: seq<Employee>): (r: int)
    requires |staff| > 0
    ensures r == (2 * SalaryTotal(staff) + |staff|) / (2 * |staff|)
  {
    SalarySumIsIntegral(staff);
    RoundRatio(SalaryTotal(staff), |staff|);
    Round(Mean(staff, Salary))
  }

  /** Math.round of the mean attendance rate: the integer within one half of the mean. */
  function AverageAttendance(staff: seq<Employee>): (r: int)
    requires |staff| > 0
    ensures r as real - 0.5 <= Sum(staff, Attendance) / |staff| as real < r as real + 0.5
  {
    Round(Mean(staff, Attendance))
  }

  /** The summary line's "inactive" figure, total minus active, counts the non-active records. */
  lemma InactiveIsRest(staff: seq<Employee>)
    ensures |staff| - ActiveEmployees(staff) == Count(staff, IsInactive)
  {
    CountComplement(staff, IsActive, IsInactive);
  }

  /** No one is both a high performer (>= 4.5) and pending review (< 4.0). */
  lemma HighPerformersAndReviewsDisjoint(staff: seq<Employee>)
    ensures HighPerformers(staff) + UpcomingReviews(staff) <= |staff|
  {
    CountDisjoint(staff, IsHighPerformer, IsReviewPending);
  }

  /** With ratings in [0,5] and attendance rates in [0,100], the averages stay in those ranges. */
  lemma AveragesInRange(staff: seq<Employee>)
    requires |staff| > 0
    requires forall i | 0 <= i < |staff| :: 0.0 <= staff[i].rating <= 5.0
    requires forall i | 0 <= i < |staff| :: 0.0 <= staff[i].attendanceRate <= 100.0
    ensures 0.0 <= Mean(staff, Rating) <= 5.0
    ensures 0 <= AverageAttendance(staff) <= 100
  {
    MeanBounds(staff, Rating, 0.0, 5.0);
    MeanBounds(staff, Attendance, 0.0, 100.0);
    RoundMonotone(0.0, Mean(staff, Attendance));
    RoundMonotone(Mean(staff, Attendance), 100.0);
    RoundUnique(0.0, 0);
    RoundUnique(100.0, 100);
  }

  /** The recent-hire window is strict: a join exactly thirty days ago is not counted. */
  lemma RecentHireBoundary(e: Employee, now: int)
    ensures e.joinDate == now - ThirtyDaysMillis ==> !IsRecentHire(e, now)
    ensures e.joinDate == now - ThirtyDaysMillis + 1 ==> IsRecentHire(e, now)
    ensures ThirtyDaysMillis == 2592000000
  {
  }

  // ---------------------------------------------------------------------------------------
  // Trend delta (calculateTrend, lines 71-74)

  datatype Trend = Trend(value: int, isPositive: bool)

  function CalculateTrend(current: real, previous: real): (t: Trend)
    ensures t.isPositive <==> current > previous
    ensures previous <= 0.0 ==> t.value == 0
  {
    Trend(if previous > 0.0 then Round((current - previous) / previous * 100.0) else 0, current > previous)
  }

  /** For a positive baseline the percentage is the nearest integer to the relative change, and
      its sign agrees with the direction flag. */
  lemma TrendSign(current: real, previous: real)
    requires previous > 0.0
    ensures var t := CalculateTrend(current, previous);
      && t.value as real - 0.5 <= (current - previous) / previous * 100.0 < t.value as real + 0.5
      && (t.value > 0 ==> t.isPositive)
      && (t.isPositive ==> t.value >= 0)
      && (current == previous ==> t.value == 0 && !t.isPositive)
  {
    var x := (current - previous) / previous * 100.0;
    if current > previous {
      assert x > 0.0;
    } else {
      assert x <= 0.0;
    }
    if current == previous {
      RoundUnique(x, 0);
    }
  }

  /** For whole-number inputs with a positive baseline the percentage is
      (200 (c - p) + p) / (2 p) in floor division. */
  lemma TrendOfIntegers(c: int, p: int)
    requires p > 0
    ensures CalculateTrend(c as real, p as real).value == (200 * (c - p) + p) / (2 * p)
  {
    assert (c as real - p as real) / p as real * 100.0 == (100 * (c - p)) as real / p as real;
    RoundRatio(100 * (c - p), p);
  }

  lemma TrendExamples()
    ensures CalculateTrend(110.0, 100.0) == Trend(10, true)
    ensures CalculateTrend(100.0, 100.0) == Trend(0, false)
    ensures CalculateTrend(50.0, 0.0) == Trend(0, true)
  {
    TrendOfIntegers(110, 100);
    TrendOfIntegers(100, 100);
  }

  /** The headline cards compare each metric with a fixed mock baseline (lines 77-80): head count
      minus 2, salary minus 1500, attendance plus 2, performance minus 0.1. Hence three cards
      always point up and the attendance card always points down. */
  lemma HeadlineTrendDirections(total: int, salary: int, attendance: int, performance: real)
    ensures CalculateTrend(total as real, (total - 2) as real).isPositive
    ensures CalculateTrend(salary as real, (salary - 1500) as real).isPositive
    ensures !CalculateTrend(attendance as real, (attendance + 2) as real).isPositive
    ensures CalculateTrend(performance, performance - 0.1).isPositive
  {
  }

  // ---------------------------------------------------------------------------------------
  // Salary distribution (lines 58-68)

  datatype Bound = Below(limit: int) | Unbounded

  datatype SalaryRange = SalaryRange(name: string, min: int, max: Bound)

  const SalaryRanges: seq<SalaryRange> := [
    SalaryRange("<50K", 0, Below(50000)),
    SalaryRange("50-70K", 50000, Below(70000)),
    SalaryRange("70-90K", 70000, Below(90000)),
    SalaryRange(">90K", 90000, Unbounded)
  ]

  /** salary >= range.min && salary < range.max, with max possibly Infinity */
  predicate InRange(salary: int, r: SalaryRange)
  {
    r.min <= salary && (r.max.Below? ==> salary < r.max.limit)
  }

  function CountInRange(staff: seq<Employee>, r: SalaryRange): nat
  {
    Count(staff, (e: Employee) => InRange(e.salary, r))
  }

  /** One (label, count) pair per range, in the ranges' order. */
  function SalaryDistribution(staff: seq<Employee>): (d: seq<(string, nat)>)
    ensures |d| == |SalaryRanges|
    ensures forall i | 0 <= i < |d| :: d[i] == (SalaryRanges[i].name, CountInRange(staff, SalaryRanges[i]))
  {
    seq(|SalaryRanges|, i requires 0 <= i < |SalaryRanges| =>
      (SalaryRanges[i].name, CountInRange(staff, SalaryRanges[i])))
  }

  /** The bucket a salary belongs to, by comparison with the three boundaries. */
  function BucketOf(salary: int): nat
    requires salary >= 0
  {
    if salary < 50000 then 0 else if salary < 70000 then 1 else if salary < 90000 then 2 else 3
  }

  /** Every non-negative salary lies in exactly one range, boundaries going to the higher one;
      a negative salary lies in none. */
  lemma BucketsPartition(salary: int)
    ensures salary >= 0 ==> forall i | 0 <= i < |SalaryRanges| :: InRange(salary, SalaryRanges[i]) <==> i == BucketOf(salary)
    ensures salary < 0 ==> forall i | 0 <= i < |SalaryRanges| :: !InRange(salary, SalaryRanges[i])
    ensures BucketOf(50000) == 1 && BucketOf(70000) == 2 && BucketOf(90000) == 3
  {
  }

  predicate NonNegativeSalary(e: Employee) { e.salary >= 0 }

  /** The four counts add up to the number of records with a non-negative salary. */
  lemma {:induction false} DistributionTotal(staff: seq<Employee>)
    ensures var d := SalaryDistribution(staff);
      d[0].1 + d[1].1 + d[2].1 + d[3].1 == Count(staff, NonNegativeSalary)
  {
    if |staff| > 0 {
      var init := staff[..|staff| - 1];
      DistributionTotal(init);
      BucketsPartition(staff[|staff| - 1].salary);
    }
  }
}
