/** The recruitment pipeline table and the count of departments recruiting. */
module RecruitmentRows {
  import opened Text
  import opened Records
  import opened StaffMetrics

  datatype Status = Complete | InProgress

  /** '✅ Complete' exactly for the stage "hired", '🔄 In Progress' for every other stage. */
  function StatusOf(r: Recruitment): (s: Status)
    ensures s == Complete <==> r.stage == "hired"
  {
    if r.stage == "hired" then Complete else InProgress
  }

  /** The status column's text. */
  function StatusText(s: Status): (t: string)
    ensures |t| >= 1 && t[0] == (if s == Complete then '\U{2705}' else '\U{1F504}')
  {
    match s
    case Complete => "\U{2705} Complete"
    case InProgress => "\U{1F504} In Progress"
  }

  datatype RecruitmentRow = RecruitmentRow(
    position: string,
    department: string,
    applicants: nat,
    stage: string,
    priority: string,
    status: string)

  function RecruitmentRowOf(r: Recruitment): (row: RecruitmentRow)
    ensures row.position == r.position && row.department == r.department && row.applicants == r.applicants
    ensures row.stage == Capitalize(r.stage) && row.priority == Capitalize(r.priority)
    ensures row.status == StatusText(InProgress) <==> IsOpen(r)
    ensures row.status == StatusText(Complete) <==> !IsOpen(r)
  {
    RecruitmentRow(r.position, r.department, r.applicants, Capitalize(r.stage), Capitalize(r.priority),
                   StatusText(StatusOf(r)))
  }

  /** One row per pipeline entry, in order. */
  function RecruitmentTable(recs: seq<Recruitment>): (rows: seq<RecruitmentRow>)
    ensures |rows| == |recs|
    ensures forall k | 0 <= k < |rows| :: rows[k] == RecruitmentRowOf(recs[k])
  {
    seq(|recs|, k requires 0 <= k < |recs| => RecruitmentRowOf(recs[k]))
  }

  predicate IsInProgress(row: RecruitmentRow) { row.status == StatusText(InProgress) }

  /** The table shows as many "In Progress" rows as the dashboard counts open positions. */
  lemma {:induction false} InProgressRowsAreOpenPositions(recs: seq<Recruitment>)
    ensures Count(RecruitmentTable(recs), IsInProgress) == OpenPositions(recs)
  {
    if |recs| > 0 {
      var init := recs[..|recs| - 1];
      InProgressRowsAreOpenPositions(init);
      var rows := RecruitmentTable(recs);
      assert rows[..|rows| - 1] == RecruitmentTable(init);
    }
  }

  /** The stages are shown capitalised: "hired" as "Hired", "interview" as "Interview". */
  lemma StageLabels()
    ensures Capitalize("hired") == "Hired"
    ensures Capitalize("interview") == "Interview"
    ensures Capitalize("") == ""
  {
  }

  /** Some entry recruits for department d. */
  predicate Recruits(recs: seq<Recruitment>, d: string)
  {
    exists k :: 0 <= k < |recs| && recs[k].department == d
  }

  /** new Set(recs.map(r => r.department)) */
  function RecruitingDepartments(recs: seq<Recruitment>): (ds: set<string>)
    ensures |ds| <= |recs|
  {
    if |recs| == 0 then {}
    else RecruitingDepartments(recs[..|recs| - 1]) + {recs[|recs| - 1].department}
  }

  /** The set holds exactly the departments some entry names. */
  lemma {:induction false} RecruitingDepartmentsExact(recs: seq<Recruitment>, d: string)
    ensures d in RecruitingDepartments(recs) <==> Recruits(recs, d)
  {
    if |recs| > 0 {
      var init := recs[..|recs| - 1];
      RecruitingDepartmentsExact(init, d);
      if Recruits(init, d) {
        var k :| 0 <= k < |init| && init[k].department == d;
        assert recs[k].department == d;
      }
      if Recruits(recs, d) && recs[|recs| - 1].department != d {
        var k :| 0 <= k < |recs| && recs[k].department == d;
        assert init[k].department == d;
      }
    }
  }

  /** A non-empty pipeline recruits for at least one department. */
  lemma RecruitingDepartmentsNonEmpty(recs: seq<Recruitment>)
    requires |recs| > 0
    ensures |RecruitingDepartments(recs)| >= 1
  {
    RecruitingDepartmentsExact(recs, recs[0].department);
  }
}
