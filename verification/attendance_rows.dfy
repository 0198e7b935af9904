/** The weekly attendance table: the last seven attendance entries, each with its rate (late
    arrivals left out of the denominator) and its total (late arrivals included). */
module AttendanceRows {
  import opened Numeric
  import opened Records

  /** days.slice(-7): the last min(7, n) entries, in their original order. */
  function LastWeek(days: seq<AttendanceDay>): (w: seq<AttendanceDay>)
    ensures |w| == Min(7, |days|)
    ensures days == days[..|days| - |w|] + w
  {
    if |days| <= 7 then days else days[|days| - 7..]
  }

  /** The dashboard's attendance chart: the present count of each entry of the same window. */
  function AttendanceChart(days: seq<AttendanceDay>): (values: seq<nat>)
    ensures |values| == Min(7, |days|)
  {
    var w := LastWeek(days);
    seq(|w|, k requires 0 <= k < |w| => w[k].present)
  }

  /** Math.round(present / (present + absent) * 100); late arrivals are not in the denominator. */
  function DailyRate(d: AttendanceDay): (r: int)
    requires d.present + d.absent > 0
    ensures 0 <= r <= 100
  {
    Percent(d.present as real, (d.present + d.absent) as real)
  }

  /** present + absent + late */
  function DailyTotal(d: AttendanceDay): nat
  {
    d.present + d.absent + d.late
  }

  /** The rate in integer arithmetic: (200 p + (p + a)) / (2 (p + a)). */
  lemma DailyRateIntegral(d: AttendanceDay)
    requires d.present + d.absent > 0
    ensures DailyRate(d) == (200 * d.present + d.present + d.absent) / (2 * (d.present + d.absent))
  {
    var n := d.present + d.absent;
    assert d.present as real / n as real * 100.0 == (100 * d.present) as real / n as real;
    RoundRatio(100 * d.present, n);
  }

  /** The number of late arrivals moves the total but never the rate. */
  lemma RateIgnoresLate(d: AttendanceDay, late: nat)
    requires d.present + d.absent > 0
    ensures DailyRate(d.(late := late)) == DailyRate(d)
    ensures DailyTotal(d.(late := late)) == DailyTotal(d) - d.late + late
  {
  }

  /** 18 present, 2 absent, 1 late: rate 90, total 21. */
  lemma DailyExample()
    ensures DailyRate(AttendanceDay("", 18, 2, 1)) == 90
    ensures DailyTotal(AttendanceDay("", 18, 2, 1)) == 21
  {
    DailyRateIntegral(AttendanceDay("", 18, 2, 1));
  }

  datatype AttendanceRow = AttendanceRow(date: string, present: nat, absent: nat, late: nat, rate: int, total: nat)

  function AttendanceRowOf(d: AttendanceDay): (row: AttendanceRow)
    requires d.present + d.absent > 0
    ensures row.date == d.date
    ensures row.present == d.present && row.absent == d.absent && row.late == d.late
    ensures row.total == row.present + row.absent + row.late
    ensures row.rate == DailyRate(d) && 0 <= row.rate <= 100
    ensures row.rate == (200 * d.present + d.present + d.absent) / (2 * (d.present + d.absent))
  {
    DailyRateIntegral(d);
    AttendanceRow(d.date, d.present, d.absent, d.late, DailyRate(d), DailyTotal(d))
  }

  /** Every day in the window must have someone present or absent: the source divides by that sum. */
  predicate RatesDefined(days: seq<AttendanceDay>)
  {
    forall k | 0 <= k < |days| :: days[k].present + days[k].absent > 0
  }

  /** The k-th entry of the window is the (n - |window| + k)-th entry overall. */
  lemma WindowIndex(days: seq<AttendanceDay>)
    ensures forall k | 0 <= k < |LastWeek(days)| :: LastWeek(days)[k] == days[|days| - |LastWeek(days)| + k]
  {
    var w := LastWeek(days);
    var pre := days[..|days| - |w|];
    assert days == pre + w;
    forall k | 0 <= k < |w| ensures w[k] == days[|pre| + k] {
      assert (pre + w)[|pre| + k] == w[k];
    }
  }

  /** One row per entry of the last-seven window, in order. */
  function AttendanceTable(days: seq<AttendanceDay>): (rows: seq<AttendanceRow>)
    requires RatesDefined(LastWeek(days))
    ensures |rows| == Min(7, |days|)
    ensures forall k | 0 <= k < |rows| :: rows[k] == AttendanceRowOf(days[|days| - |rows| + k])
  {
    var w := LastWeek(days);
    WindowIndex(days);
    seq(|w|, k requires 0 <= k < |w| => AttendanceRowOf(w[k]))
  }

  /** The chart on the dashboard and the report's table show the same days with the same
      present counts. */
  lemma ChartMatchesTable(days: seq<AttendanceDay>)
    requires RatesDefined(LastWeek(days))
    ensures |AttendanceChart(days)| == |AttendanceTable(days)|
    ensures forall k | 0 <= k < |AttendanceChart(days)| :: AttendanceChart(days)[k] == AttendanceTable(days)[k].present
  {
    WindowIndex(days);
  }
}
