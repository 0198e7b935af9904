/** The report assembled by generatePDFReport: the executive summary, the four tables, the key
    insights and the file name, in the order the document lays them out. */
module Report {
  import opened Numeric
  import opened Text
  import opened Records
  import opened StaffMetrics
  import opened Departments
  import opened Ranking
  import opened AttendanceRows
  import opened RecruitmentRows

  // ---------------------------------------------------------------------------------------
  // Executive summary (lines 137-142)

  datatype ExecutiveSummary = ExecutiveSummary(
    total: nat,
    active: nat,
    inactive: int,
    avgSalary: int,
    avgAttendance: int,
    avgPerformanceTenths: int,
    performancePercent: int,
    openPositions: nat,
    recruitingDepartments: nat,
    recentHires: nat,
    pendingReviews: nat)

  /** The six summary lines; `now` is the render time the recent-hire window is measured from. */
  function Summary(staff: seq<Employee>, recs: seq<Recruitment>, now: int): (s: ExecutiveSummary)
    requires |staff| > 0
    ensures s.total == |staff| && s.active + s.inactive == s.total
    ensures s.active == Count(staff, IsActive) && s.inactive == Count(staff, IsInactive)
    ensures s.avgSalary == (2 * SalaryTotal(staff) + |staff|) / (2 * |staff|)
    ensures s.avgAttendance == AverageAttendance(staff)
    ensures s.avgPerformanceTenths == Tenths(Mean(staff, Rating))
    ensures s.performancePercent == Round(Mean(staff, Rating) * 20.0)
    ensures s.openPositions == Count(recs, IsOpen) && s.openPositions <= |recs|
    ensures s.recruitingDepartments == |RecruitingDepartments(recs)| && s.recruitingDepartments <= |recs|
    ensures s.recentHires == RecentHires(staff, now) && s.recentHires <= s.total
    ensures s.pendingReviews == Count(staff, IsReviewPending) && s.pendingReviews <= s.total
  {
    InactiveIsRest(staff);
    var avg := Mean(staff, Rating);
    ExecutiveSummary(
      |staff|,
      ActiveEmployees(staff),
      |staff| - ActiveEmployees(staff),
      AverageSalary(staff),
      AverageAttendance(staff),
      Tenths(avg),
      Round(avg / 5.0 * 100.0),
      OpenPositions(recs),
      |RecruitingDepartments(recs)|,
      RecentHires(staff, now),
      UpcomingReviews(staff))
  }

  // ---------------------------------------------------------------------------------------
  // Key insights (lines 308-323), one entry per line of the insight box, in order

  datatype Insight =
    | Strengths(highPerformers: nat, percent: int)
    | AttentionNeeded(lowAttendance: nat)
    | ActionItems(pendingReviews: nat)
    | GrowthTrend(recentHires: nat)
    | LeadingDepartment(department: Option<string>)
    | Compensation
    | OverallHealth(attendance: int)

  /** The top-department search as the report runs it: over the dictionary's keys, on the array
      after the in-place sort. It always finds the top department of the staff as they were. */
  function Leader(staff: seq<Employee>, sorted: seq<Employee>): (r: Option<string>)
    requires |staff| > 0 && multiset(sorted) == multiset(staff)
    ensures AllCounted(staff, Labels(staff)) && r == TopDepartment(staff, Labels(staff))
    ensures r.Some?
  {
    var keys := Labels(staff);
    LabelsCounted(staff);
    TopDepartmentPermutation(staff, sorted, keys);
    TopDepartmentDefined(staff);
    TopDepartment(sorted, keys)
  }

  /** The insights; `sorted` is the staff array as it stands when they are built, after the
      in-place sort, while the department keys come from the dictionary built before it. */
  function Insights(staff: seq<Employee>, sorted: seq<Employee>, now: int): (ins: seq<Insight>)
    requires |staff| > 0 && multiset(sorted) == multiset(staff)
    ensures AllCounted(staff, Labels(staff))
    ensures ins == [ Strengths(HighPerformers(staff), Percent(HighPerformers(staff) as real, |staff| as real)),
                     AttentionNeeded(LowAttendance(staff)),
                     ActionItems(UpcomingReviews(staff)),
                     GrowthTrend(RecentHires(staff, now)),
                     LeadingDepartment(TopDepartment(staff, Labels(staff))),
                     Compensation,
                     OverallHealth(AverageAttendance(staff)) ]
    ensures 0 <= ins[0].percent <= 100 && ins[4].department.Some?
  {
    var leader := Leader(staff, sorted);
    var high := HighPerformers(staff);
    var percent := Percent(high as real, |staff| as real);
    [ Strengths(high, percent),
      AttentionNeeded(LowAttendance(staff)),
      ActionItems(UpcomingReviews(staff)),
      GrowthTrend(RecentHires(staff, now)),
      LeadingDepartment(leader),
      Compensation,
      OverallHealth(AverageAttendance(staff)) ]
  }

  // ---------------------------------------------------------------------------------------
  // File name (line 442)

  const FilePrefix: string := "HR-Dashboard-Report-"
  const FileSuffix: string := ".pdf"

  /** `HR-Dashboard-Report-${iso.split('T')[0]}.pdf` */
  function FileName(iso: string): (name: string)
    ensures |name| == |FilePrefix| + |DatePart(iso)| + |FileSuffix|
    ensures name[..|FilePrefix|] == FilePrefix && name[|name| - |FileSuffix|..] == FileSuffix
  {
    FilePrefix + DatePart(iso) + FileSuffix
  }

  /** The date between the prefix and the extension. */
  function FileDate(name: string): string
    requires |name| >= |FilePrefix| + |FileSuffix|
  {
    name[|FilePrefix|..|name| - |FileSuffix|]
  }

  /** The file name carries exactly the date part of the timestamp: two timestamps of the same
      day give the same name, and different days different names. */
  lemma FileNameDate(iso: string)
    ensures FileDate(FileName(iso)) == DatePart(iso)
  {
    var name := FileName(iso);
    assert name == FilePrefix + DatePart(iso) + FileSuffix;
  }

  // ---------------------------------------------------------------------------------------
  // The whole report

  datatype Report = Report(
    // page 1
    summary: ExecutiveSummary,
    departments: seq<DepartmentRow>,
    topPerformers: seq<PerformerRow>,
    // page 2
    attendance: seq<AttendanceRow>,
    recruitment: seq<RecruitmentRow>,
    insights: seq<Insight>,
    // page 3: metadata
    nextReview: int,
    fileName: string)

  const TopReportSize: nat := 5
  const TopDisplaySize: nat := 4

  /** What generatePDFReport produces. `rendered` is the staff array as the render whose closure
      the button runs saw it: the metrics (lines 14-28, `renderTime` being the Date.now() of
      line 23) and the department dictionary (line 37) were computed from it. `current` is the
      array as it stands at the click, which the hall of fame sorts (line 190) and the
      top-department search filters (line 314). The next review date uses the click's own
      Date.now() (line 423, `reportTime`) and the file name its ISO timestamp (line 442). */
  function Assemble(rendered: seq<Employee>, current: seq<Employee>, days: seq<AttendanceDay>,
                    recs: seq<Recruitment>, renderTime: int, reportTime: int, iso: string): Report
    requires |rendered| > 0 && multiset(current) == multiset(rendered)
    requires RatesDefined(LastWeek(days))
  {
    var sorted := SortByRating(current);
    SortPermutes(current);
    Report(
      Summary(rendered, recs, renderTime),
      DepartmentRows(rendered),
      PerformerRows(sorted[..Min(TopReportSize, |sorted|)]),
      AttendanceTable(days),
      RecruitmentTable(recs),
      Insights(rendered, sorted, renderTime),
      reportTime + ThirtyDaysMillis,
      FileName(iso))
  }

  /** The department table accounts for every employee once, and the recruitment table shows as
      many in-progress rows as the summary counts open positions. */
  lemma ReportTablesAgree(rendered: seq<Employee>, current: seq<Employee>, days: seq<AttendanceDay>,
                          recs: seq<Recruitment>, renderTime: int, reportTime: int, iso: string)
    requires |rendered| > 0 && multiset(current) == multiset(rendered)
    requires RatesDefined(LastWeek(days))
    ensures var r := Assemble(rendered, current, days, recs, renderTime, reportTime, iso);
      RowCounts(r.departments) == r.summary.total
    ensures var r := Assemble(rendered, current, days, recs, renderTime, reportTime, iso);
      Count(r.recruitment, IsInProgress) == r.summary.openPositions
    ensures |Assemble(rendered, current, days, recs, renderTime, reportTime, iso).attendance| == Min(7, |days|)
  {
    var r := Assemble(rendered, current, days, recs, renderTime, reportTime, iso);
    assert r.departments == DepartmentRows(rendered);
    assert r.recruitment == RecruitmentTable(recs);
    DepartmentTableComplete(rendered);
    InProgressRowsAreOpenPositions(recs);
  }

  /** The top-performer table lists min(5, n) employees with their shown ratings never increasing. */
  lemma ReportTopPerformersRanked(rendered: seq<Employee>, current: seq<Employee>, days: seq<AttendanceDay>,
                                  recs: seq<Recruitment>, renderTime: int, reportTime: int, iso: string)
    requires |rendered| > 0 && multiset(current) == multiset(rendered)
    requires RatesDefined(LastWeek(days))
    ensures |Assemble(rendered, current, days, recs, renderTime, reportTime, iso).topPerformers|
      == Min(TopReportSize, |rendered|)
    ensures var top := Assemble(rendered, current, days, recs, renderTime, reportTime, iso).topPerformers;
      forall i, j | 0 <= i < j < |top| :: top[i].ratingTenths >= top[j].ratingTenths
  {
    var rows := Assemble(rendered, current, days, recs, renderTime, reportTime, iso).topPerformers;
    var sorted := SortByRating(current);
    SortPermutes(current);
    assert |current| == |multiset(current)| == |multiset(rendered)| == |rendered|;
    var top := sorted[..Min(TopReportSize, |sorted|)];
    assert rows == PerformerRows(top);
    TopPerformers(current, TopReportSize);
    forall i, j | 0 <= i < j < |rows| ensures rows[i].ratingTenths >= rows[j].ratingTenths {
      TenthsMonotone(top[j].rating, top[i].rating);
    }
  }

  /** The leading-department insight always names a department, one that has a row in the
      department table. */
  lemma ReportLeaderListed(rendered: seq<Employee>, current: seq<Employee>, days: seq<AttendanceDay>,
                           recs: seq<Recruitment>, renderTime: int, reportTime: int, iso: string)
    requires |rendered| > 0 && multiset(current) == multiset(rendered)
    requires RatesDefined(LastWeek(days))
    ensures var r := Assemble(rendered, current, days, recs, renderTime, reportTime, iso);
      r.insights[4].department.Some? &&
      exists i :: 0 <= i < |r.departments| && r.departments[i].name == r.insights[4].department.value
  {
    var r := Assemble(rendered, current, days, recs, renderTime, reportTime, iso);
    SortPermutes(current);
    assert r.departments == DepartmentRows(rendered);
    assert r.insights == Insights(rendered, SortByRating(current), renderTime);
    var d := r.insights[4].department.value;
    assert d in Labels(rendered);
    var i :| 0 <= i < |Labels(rendered)| && Labels(rendered)[i] == d;
    assert r.departments[i].name == d;
  }

  /** What the button's closure holds from its render: the array the render's metrics were
      computed from, and the keys of the department dictionary built from it (line 37). */
  datatype RenderState = RenderState(staff: seq<Employee>, keys: seq<string>)

  /** One render of the component as far as the report depends on it: the dictionary is built
      from the shared array (line 37), then the performer card sorts that array in place and
      shows its first four entries (lines 750-752). */
  method Render(staff: array<Employee>) returns (view: RenderState, card: seq<Employee>)
    modifies staff
    ensures view.staff == old(staff[..]) && view.keys == Labels(view.staff)
    ensures staff[..] == SortByRating(old(staff[..]))
    ensures card == staff[..Min(TopDisplaySize, staff.Length)]
  {
    var rendered := staff[..];
    var keys, counts := CountByDepartment(rendered);
    view := RenderState(rendered, keys);
    card := DisplayTopPerformers(staff);
  }

  /** generatePDFReport run from the closure of a render: the summary and the department
      dictionary are the render's, the table's filters (line 150) run on the array at the click,
      the hall of fame sorts that array in place (line 190), and the top-department search filters
      the sorted array with the render's keys (lines 313-320). */
  method GenerateReport(view: RenderState, staff: array<Employee>, days: seq<AttendanceDay>,
                        recs: seq<Recruitment>, renderTime: int, reportTime: int, iso: string)
    returns (report: Report)
    requires |view.staff| > 0 && view.keys == Labels(view.staff)
    requires multiset(staff[..]) == multiset(view.staff)
    requires RatesDefined(LastWeek(days))
    modifies staff
    ensures staff[..] == SortByRating(old(staff[..]))
    ensures report == Assemble(view.staff, old(staff[..]), days, recs, renderTime, reportTime, iso)
  {
    var current := staff[..];
    var keys := view.keys;
    var summary := Summary(view.staff, recs, renderTime);
    forall i | 0 <= i < |keys|
      ensures keys[i] in Labels(current) && DepartmentRowOf(current, keys[i]) == DepartmentRowOf(view.staff, keys[i])
    {
      DepartmentRowPermutation(view.staff, current, keys[i]);
    }
    var departments := seq(|keys|, i requires 0 <= i < |keys| => DepartmentRowOf(current, keys[i]));
    assert departments == DepartmentRows(view.staff);
    var top := RankTopPerformers(staff, TopReportSize);
    var performers := PerformerRows(top);
    var attendance := AttendanceTable(days);
    var recruitment := RecruitmentTable(recs);
    SortPermutes(current);
    var insights := Insights(view.staff, staff[..], renderTime);
    report := Report(summary, departments, performers, attendance, recruitment, insights,
                     reportTime + ThirtyDaysMillis, FileName(iso));
  }

  /** The dashboard's top-performer card (lines 750-752): every render sorts the shared array in
      place and shows its first four entries. */
  method DisplayTopPerformers(staff: array<Employee>) returns (top: seq<Employee>)
    modifies staff
    ensures staff[..] == SortByRating(old(staff[..]))
    ensures top == staff[..Min(TopDisplaySize, staff.Length)]
  {
    top := RankTopPerformers(staff, TopDisplaySize);
  }

  /** At a click the array is the render's array as the card sorted it, so the report's own sort
      changes nothing: the report depends on the render's array alone. */
  lemma ClickAfterRender(s: seq<Employee>, days: seq<AttendanceDay>, recs: seq<Recruitment>,
                         renderTime: int, reportTime: int, iso: string)
    requires |s| > 0
    requires RatesDefined(LastWeek(days))
    ensures multiset(SortByRating(s)) == multiset(s)
    ensures Assemble(s, SortByRating(s), days, recs, renderTime, reportTime, iso)
      == Assemble(s, s, days, recs, renderTime, reportTime, iso)
  {
    SortPermutes(s);
    SortIdempotent(s);
  }

  /** A render followed by a click on the report button (line 549): the dictionary is the one of
      the array before the card's sort, and the report is the one specified from that array. */
  method RenderThenReport(staff: array<Employee>, days: seq<AttendanceDay>, recs: seq<Recruitment>,
                          renderTime: int, reportTime: int, iso: string)
    returns (card: seq<Employee>, report: Report)
    requires staff.Length > 0
    requires RatesDefined(LastWeek(days))
    modifies staff
    ensures staff[..] == SortByRating(old(staff[..]))
    ensures card == SortByRating(old(staff[..]))[..Min(TopDisplaySize, staff.Length)]
    ensures report == Assemble(old(staff[..]), old(staff[..]), days, recs, renderTime, reportTime, iso)
  {
    ghost var s := staff[..];
    SortPermutes(s);
    var view;
    view, card := Render(staff);
    report := GenerateReport(view, staff, days, recs, renderTime, reportTime, iso);
    SortIdempotent(s);
    ClickAfterRender(s, days, recs, renderTime, reportTime, iso);
  }

  /** A click after a later render: that render rebuilt the dictionary from the array the first
      render sorted. The hall of fame is the same as after the first render. The dictionary's keys
      may come in another order, so on a tie the leading department may be another one, but it
      has the same greatest mean. */
  lemma ReportAfterRender(s: seq<Employee>, days: seq<AttendanceDay>, recs: seq<Recruitment>,
                          renderTime: int, reportTime: int, iso: string)
    requires |s| > 0
    requires RatesDefined(LastWeek(days))
    ensures |SortByRating(s)| == |s| && multiset(SortByRating(s)) == multiset(s)
    ensures var r := Assemble(SortByRating(s), SortByRating(s), days, recs, renderTime, reportTime, iso);
      var r0 := Assemble(s, s, days, recs, renderTime, reportTime, iso);
      r.topPerformers == r0.topPerformers
    ensures var r := Assemble(SortByRating(s), SortByRating(s), days, recs, renderTime, reportTime, iso);
      var r0 := Assemble(s, s, days, recs, renderTime, reportTime, iso);
      && r.insights[4].department.Some? && r0.insights[4].department.Some?
      && Headcount(s, r.insights[4].department.value) > 0
      && Headcount(s, r0.insights[4].department.value) > 0
      && DepartmentMean(s, r.insights[4].department.value, Rating)
         == DepartmentMean(s, r0.insights[4].department.value, Rating)
  {
    var t := SortByRating(s);
    SortPermutes(s);
    SortIdempotent(s);
    SortPermutes(t);
    var r := Assemble(t, t, days, recs, renderTime, reportTime, iso);
    var r0 := Assemble(s, s, days, recs, renderTime, reportTime, iso);
    assert r.topPerformers == r0.topPerformers;
    assert r.insights == Insights(t, SortByRating(t), renderTime);
    assert r0.insights == Insights(s, t, renderTime);
    RegroupedLeaderTies(s, t);
    TopDepartmentDefined(s);
  }
}
