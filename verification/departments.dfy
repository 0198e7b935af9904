/** Grouping staff by department label: the head-count dictionary built by a reduce, the
    per-department means, the letter grade and the "top department" search. */
module Departments {
  import opened Numeric
  import opened Text
  import opened Records
  import opened StaffMetrics

  // ---------------------------------------------------------------------------------------
  // Specification of the grouping

  /** Some record carries the label d. */
  predicate HasDepartment(staff: seq<Employee>, d: string)
  {
    exists i :: 0 <= i < |staff| && staff[i].department == d
  }

  predicate Distinct(keys: seq<string>)
  {
    forall i, j | 0 <= i < j < |keys| :: keys[i] != keys[j]
  }

  /** The dictionary's keys: each department label once, in order of first occurrence. */
  function Labels(staff: seq<Employee>): seq<string>
  {
    if |staff| == 0 then []
    else
      var keys := Labels(staff[..|staff| - 1]);
      var d := staff[|staff| - 1].department;
      if d in keys then keys else keys + [d]
  }

  /** The dictionary's value for label d: how many records carry exactly that label. */
  function Headcount(staff: seq<Employee>, d: string): nat
  {
    if |staff| == 0 then 0
    else Headcount(staff[..|staff| - 1], d) + (if staff[|staff| - 1].department == d then 1 else 0)
  }

  /** staff.filter(emp => emp.department === d) */
  function Members(staff: seq<Employee>, d: string): seq<Employee>
  {
    if |staff| == 0 then []
    else
      var init := Members(staff[..|staff| - 1], d);
      if staff[|staff| - 1].department == d then init + [staff[|staff| - 1]] else init
  }

  lemma {:induction false} LabelsDistinct(staff: seq<Employee>)
    ensures Distinct(Labels(staff))
  {
    if |staff| > 0 {
      LabelsDistinct(staff[..|staff| - 1]);
    }
  }

  /** A label is a key exactly when some record carries it, and then its count is at least one. */
  lemma {:induction false} LabelsExhaustive(staff: seq<Employee>, d: string)
    ensures d in Labels(staff) <==> HasDepartment(staff, d)
    ensures d in Labels(staff) <==> Headcount(staff, d) > 0
  {
    if |staff| > 0 {
      var init := staff[..|staff| - 1];
      LabelsExhaustive(init, d);
      if d in Labels(init) {
        var i :| 0 <= i < |init| && init[i].department == d;
        assert staff[i].department == d;
      }
      if exists i :: 0 <= i < |staff| && staff[i].department == d {
        var i :| 0 <= i < |staff| && staff[i].department == d;
        if i < |init| {
          assert init[i].department == d;
        }
      }
    }
  }

  /** The filter used for the means has exactly the dictionary's count of records, all of them
      carrying the label: dividing by either (lines 50 and 151) is the same. */
  lemma {:induction false} MembersCounted(staff: seq<Employee>, d: string)
    ensures |Members(staff, d)| == Headcount(staff, d)
    ensures forall i | 0 <= i < |Members(staff, d)| :: Members(staff, d)[i].department == d
  {
    if |staff| > 0 {
      MembersCounted(staff[..|staff| - 1], d);
    }
  }

  /** The filter keeps every record with the label, as many times as it occurs, and nothing else. */
  lemma {:induction false} MembersMultiset(staff: seq<Employee>, d: string, e: Employee)
    ensures multiset(Members(staff, d))[e] == if e.department == d then multiset(staff)[e] else 0
  {
    if |staff| > 0 {
      var init := staff[..|staff| - 1];
      MembersMultiset(init, d, e);
      assert staff == init + [staff[|staff| - 1]];
    }
  }

  /** Reordering the staff (as the in-place sort does) changes neither a group's members, up to
      order, nor its count. */
  lemma MembersPermutation(a: seq<Employee>, b: seq<Employee>, d: string)
    requires multiset(a) == multiset(b)
    ensures multiset(Members(a, d)) == multiset(Members(b, d))
    ensures Headcount(a, d) == Headcount(b, d)
  {
    forall e ensures multiset(Members(a, d))[e] == multiset(Members(b, d))[e] {
      MembersMultiset(a, d, e);
      MembersMultiset(b, d, e);
    }
    assert multiset(Members(a, d)) == multiset(Members(b, d));
    MembersCounted(a, d);
    MembersCounted(b, d);
    assert |multiset(Members(a, d))| == |multiset(Members(b, d))|;
  }

  /** Total of the counts of the given keys. */
  function SumCounts(staff: seq<Employee>, keys: seq<string>): nat
  {
    if |keys| == 0 then 0 else SumCounts(staff, keys[..|keys| - 1]) + Headcount(staff, keys[|keys| - 1])
  }

  /** Adding one record adds one to the total of the distinct keys exactly when its label is among them. */
  lemma {:induction false} SumCountsStep(staff: seq<Employee>, e: Employee, keys: seq<string>)
    requires Distinct(keys)
    ensures SumCounts(staff + [e], keys) == SumCounts(staff, keys) + (if e.department in keys then 1 else 0)
  {
    if |keys| > 0 {
      var init := keys[..|keys| - 1];
      assert Distinct(init);
      SumCountsStep(staff, e, init);
      assert (staff + [e])[..|staff|] == staff;
      assert e.department in keys <==> e.department in init || e.department == keys[|keys| - 1];
    }
  }

  /** The grouping partitions the staff: the counts add up to the number of records. */
  lemma {:induction false} CountsPartitionStaff(staff: seq<Employee>)
    ensures SumCounts(staff, Labels(staff)) == |staff|
  {
    if |staff| > 0 {
      var init := staff[..|staff| - 1];
      var e := staff[|staff| - 1];
      var keys := Labels(init);
      assert staff == init + [e];
      CountsPartitionStaff(init);
      LabelsDistinct(init);
      SumCountsStep(init, e, keys);
      if e.department !in keys {
        LabelsExhaustive(init, e.department);
        assert keys + [e.department] == Labels(staff);
        assert (keys + [e.department])[..|keys|] == keys;
      }
    }
  }

  // ---------------------------------------------------------------------------------------
  // The reduce (lines 37-40), run on a dictionary accumulator

  /** mockEmployees.reduce((acc, emp) => { acc[emp.department] = (acc[emp.department] || 0) + 1; return acc }, {})
      The dictionary is a map together with its keys in insertion order. */
  method CountByDepartment(staff: seq<Employee>) returns (keys: seq<string>, counts: map<string, nat>)
    ensures keys == Labels(staff)
    ensures forall d :: d in counts <==> d in keys
    ensures forall d | d in counts :: counts[d] == Headcount(staff, d) && counts[d] >= 1
  {
    keys, counts := [], map[];
    var i := 0;
    while i < |staff|
      invariant 0 <= i <= |staff|
      invariant keys == Labels(staff[..i])
      invariant forall d :: d in counts <==> d in keys
      invariant forall d | d in counts :: counts[d] == Headcount(staff[..i], d)
    {
      var d := staff[i].department;
      LabelsExhaustive(staff[..i], d);
      var prior := if d in counts then counts[d] else 0;
      assert prior == Headcount(staff[..i], d);
      if d !in counts {
        keys := keys + [d];  // a new property goes to the end of the key order
      }
      counts := counts[d := prior + 1];
      assert staff[..i + 1][..i] == staff[..i];
      forall d' | d' in counts ensures counts[d'] == Headcount(staff[..i + 1], d') {
        assert Headcount(staff[..i + 1], d') == Headcount(staff[..i], d') + (if d' == d then 1 else 0);
      }
      i := i + 1;
    }
    assert staff[..i] == staff;
    forall d | d in counts ensures counts[d] >= 1 {
      LabelsExhaustive(staff, d);
    }
  }

  // ---------------------------------------------------------------------------------------
  // Per-department means, grade and table row (lines 48-55, 149-164)

  /** A department's field total divided by its count; defined for keys of the dictionary. */
  function DepartmentMean(staff: seq<Employee>, d: string, f: Field): real
    requires Headcount(staff, d) > 0
  {
    Sum(Members(staff, d), f) / Headcount(staff, d) as real
  }

  /** Dividing by the dictionary's count (line 151) and by the filter's length (line 50) agree. */
  lemma DepartmentMeanIsMembersMean(staff: seq<Employee>, d: string, f: Field)
    requires Headcount(staff, d) > 0
    ensures |Members(staff, d)| > 0 && DepartmentMean(staff, d, f) == Mean(Members(staff, d), f)
  {
    MembersCounted(staff, d);
  }

  /** A department mean lies within the range its members' values lie within. */
  lemma DepartmentMeanBounds(staff: seq<Employee>, d: string, f: Field, lo: real, hi: real)
    requires Headcount(staff, d) > 0
    requires forall i | 0 <= i < |staff| :: lo <= Value(staff[i], f) <= hi
    ensures lo <= DepartmentMean(staff, d, f) <= hi
  {
    DepartmentMeanIsMembersMean(staff, d, f);
    var ms := Members(staff, d);
    forall i | 0 <= i < |ms| ensures lo <= Value(ms[i], f) <= hi {
      MembersMultiset(staff, d, ms[i]);
      assert ms[i] in multiset(ms);
      assert ms[i] in multiset(staff);
    }
    MeanBounds(ms, f, lo, hi);
  }

  datatype Grade = APlus | A | BPlus | B | C

  /** Position in the order C < B < B+ < A < A+. */
  function GradeRank(g: Grade): nat
  {
    match g
    case C => 0
    case B => 1
    case BPlus => 2
    case A => 3
    case APlus => 4
  }

  /** The grade of a rating shown with one decimal, given in tenths. */
  function GradeOf(tenths: int): (g: Grade)
    ensures g == APlus <==> 45 <= tenths
    ensures g == A <==> 40 <= tenths < 45
    ensures g == BPlus <==> 35 <= tenths < 40
    ensures g == B <==> 30 <= tenths < 35
    ensures g == C <==> tenths < 30
  {
    if tenths >= 45 then APlus
    else if tenths >= 40 then A
    else if tenths >= 35 then BPlus
    else if tenths >= 30 then B
    else C
  }

  /** A higher department mean never gets a lower grade, rounding to one decimal included. */
  lemma GradeMonotone(m1: real, m2: real)
    requires m1 <= m2
    ensures GradeRank(GradeOf(Tenths(m1))) <= GradeRank(GradeOf(Tenths(m2)))
  {
    TenthsMonotone(m1, m2);
  }

  /** The grade goes by the rounded mean: 4.45 shows as "4.5" and is graded A+. */
  lemma GradeUsesRoundedMean()
    ensures GradeOf(Tenths(4.45)) == APlus
    ensures GradeOf(Tenths(4.449)) == A
  {
    RoundUnique(10.0 * 4.45, 45);
    RoundUnique(10.0 * 4.449, 44);
  }

  datatype DepartmentRow = DepartmentRow(
    name: string,
    count: nat,
    avgSalary: int,
    avgRatingTenths: int,
    avgAttendance: int,
    grade: Grade)

  function DepartmentRowOf(staff: seq<Employee>, d: string): (row: DepartmentRow)
    requires d in Labels(staff)
    ensures row.name == d && row.count == Headcount(staff, d) && row.count >= 1
    ensures Headcount(staff, d) > 0
    ensures row.avgSalary == Round(DepartmentMean(staff, d, Salary))
    ensures row.avgRatingTenths == Tenths(DepartmentMean(staff, d, Rating))
    ensures row.avgAttendance == Round(DepartmentMean(staff, d, Attendance))
    ensures row.grade == GradeOf(row.avgRatingTenths)
  {
    LabelsExhaustive(staff, d);
    var tenths := Tenths(DepartmentMean(staff, d, Rating));
    DepartmentRow(
      d,
      Headcount(staff, d),
      Round(DepartmentMean(staff, d, Salary)),
      tenths,
      Round(DepartmentMean(staff, d, Attendance)),
      GradeOf(tenths))
  }

  /** Object.entries(departmentData).map(...): one row per dictionary entry, in key order. */
  function DepartmentRows(staff: seq<Employee>): (rows: seq<DepartmentRow>)
    ensures |rows| == |Labels(staff)|
    ensures forall i | 0 <= i < |rows| :: rows[i] == DepartmentRowOf(staff, Labels(staff)[i])
  {
    var keys := Labels(staff);
    seq(|keys|, i requires 0 <= i < |keys| => DepartmentRowOf(staff, keys[i]))
  }

  function RowCounts(rows: seq<DepartmentRow>): nat
  {
    if |rows| == 0 then 0 else RowCounts(rows[..|rows| - 1]) + rows[|rows| - 1].count
  }

  lemma {:induction false} RowCountsAreSumCounts(staff: seq<Employee>, keys: seq<string>, rows: seq<DepartmentRow>)
    requires |rows| == |keys|
    requires forall i | 0 <= i < |rows| :: rows[i].count == Headcount(staff, keys[i])
    ensures RowCounts(rows) == SumCounts(staff, keys)
  {
    if |rows| > 0 {
      RowCountsAreSumCounts(staff, keys[..|keys| - 1], rows[..|rows| - 1]);
    }
  }

  /** The department table has exactly one row per department present, no name twice, and its
      staff column adds up to the number of employees. */
  lemma DepartmentTableComplete(staff: seq<Employee>)
    ensures var rows := DepartmentRows(staff);
      && (forall i, j | 0 <= i < j < |rows| :: rows[i].name != rows[j].name)
      && (forall d :: (exists i :: 0 <= i < |rows| && rows[i].name == d) <==> HasDepartment(staff, d))
      && RowCounts(rows) == |staff|
  {
    var rows := DepartmentRows(staff);
    var keys := Labels(staff);
    assert forall i | 0 <= i < |rows| :: rows[i].name == keys[i];
    LabelsDistinct(staff);
    forall d ensures (exists i :: 0 <= i < |rows| && rows[i].name == d) <==> HasDepartment(staff, d) {
      LabelsExhaustive(staff, d);
      if d in keys {
        var i :| 0 <= i < |keys| && keys[i] == d;
        assert rows[i].name == d;
      }
    }
    RowCountsAreSumCounts(staff, keys, rows);
    CountsPartitionStaff(staff);
  }

  // ---------------------------------------------------------------------------------------
  // Chart data (lines 42-45, 48-55)

  /** The department distribution chart: label cut to 8 characters, the head count. */
  function DepartmentChart(staff: seq<Employee>): (bars: seq<(string, nat)>)
    ensures |bars| == |Labels(staff)|
    ensures forall i | 0 <= i < |bars| ::
      bars[i].0 == Truncate(Labels(staff)[i], 8) && bars[i].1 == Headcount(staff, Labels(staff)[i]) >= 1
  {
    var keys := Labels(staff);
    LabelsCounted(staff);
    seq(|keys|, i requires 0 <= i < |keys| => (Truncate(keys[i], 8), Headcount(staff, keys[i])))
  }

  /** For every key, the mean over the filtered members (line 50) is the department mean over the
      dictionary count (line 151). */
  lemma KeyMeans(staff: seq<Employee>, f: Field)
    ensures AllCounted(staff, Labels(staff))
    ensures forall i | 0 <= i < |Labels(staff)| ::
      |Members(staff, Labels(staff)[i])| > 0 &&
      Mean(Members(staff, Labels(staff)[i]), f) == DepartmentMean(staff, Labels(staff)[i], f)
  {
    LabelsCounted(staff);
    forall i | 0 <= i < |Labels(staff)|
      ensures |Members(staff, Labels(staff)[i])| > 0 &&
        Mean(Members(staff, Labels(staff)[i]), f) == DepartmentMean(staff, Labels(staff)[i], f)
    {
      DepartmentMeanIsMembersMean(staff, Labels(staff)[i], f);
    }
  }

  /** The performance chart: label cut to 6 characters, Math.round(mean rating * 20) as the bar. */
  function PerformanceChart(staff: seq<Employee>): (bars: seq<(string, int)>)
    ensures |bars| == |Labels(staff)|
    ensures forall i | 0 <= i < |bars| :: bars[i].0 == Truncate(Labels(staff)[i], 6)
    ensures AllCounted(staff, Labels(staff))
    ensures forall i | 0 <= i < |bars| :: bars[i].1 == Round(DepartmentMean(staff, Labels(staff)[i], Rating) * 20.0)
  {
    KeyMeans(staff, Rating);
    var keys := Labels(staff);
    seq(|keys|, i requires 0 <= i < |keys| =>
      (LabelsExhaustive(staff, keys[i]);
       MembersCounted(staff, keys[i]);
       (Truncate(keys[i], 6), Round(Mean(Members(staff, keys[i]), Rating) * 20.0))))
  }

  /** With ratings in [0,5] every bar of the performance chart is in [0,100]. */
  lemma PerformanceChartInRange(staff: seq<Employee>)
    requires forall i | 0 <= i < |staff| :: 0.0 <= staff[i].rating <= 5.0
    ensures forall i | 0 <= i < |PerformanceChart(staff)| :: 0 <= PerformanceChart(staff)[i].1 <= 100
  {
    var keys := Labels(staff);
    forall i | 0 <= i < |keys| ensures 0 <= PerformanceChart(staff)[i].1 <= 100 {
      LabelsExhaustive(staff, keys[i]);
      DepartmentMeanBounds(staff, keys[i], Rating, 0.0, 5.0);
      DepartmentMeanIsMembersMean(staff, keys[i], Rating);
      var m := Mean(Members(staff, keys[i]), Rating);
      RoundMonotone(0.0, m * 20.0);
      RoundMonotone(m * 20.0, 100.0);
      RoundUnique(0.0, 0);
      RoundUnique(100.0, 100);
    }
  }

  // ---------------------------------------------------------------------------------------
  // Top department (lines 313-320 and 939-946)

  predicate AllCounted(staff: seq<Employee>, keys: seq<string>)
  {
    forall i | 0 <= i < |keys| :: Headcount(staff, keys[i]) > 0
  }

  /** Math.max(...means) over a non-empty list of keys. */
  function MaxMean(staff: seq<Employee>, keys: seq<string>): (m: real)
    requires |keys| > 0 && AllCounted(staff, keys)
    ensures forall i | 0 <= i < |keys| :: DepartmentMean(staff, keys[i], Rating) <= m
    ensures exists i :: 0 <= i < |keys| && DepartmentMean(staff, keys[i], Rating) == m
  {
    var last := DepartmentMean(staff, keys[|keys| - 1], Rating);
    if |keys| == 1 then last
    else
      var init := keys[..|keys| - 1];
      var m := MaxMean(staff, init);
      assert forall i | 0 <= i < |init| :: init[i] == keys[i];
      if m >= last then m else last
  }

  /** keys.find(d => mean(d) === m), as the index of the key found. */
  function FindMean(staff: seq<Employee>, keys: seq<string>, m: real): (r: Option<nat>)
    requires AllCounted(staff, keys)
    ensures r.Some? ==> r.value < |keys| && DepartmentMean(staff, keys[r.value], Rating) == m
    ensures r.Some? ==> forall i | 0 <= i < r.value :: DepartmentMean(staff, keys[i], Rating) != m
    ensures r.None? <==> forall i | 0 <= i < |keys| :: DepartmentMean(staff, keys[i], Rating) != m
  {
    if |keys| == 0 then None
    else if DepartmentMean(staff, keys[0], Rating) == m then Some(0)
    else
      match FindMean(staff, keys[1..], m)
      case None => None
      case Some(j) => Some(j + 1)
  }

  /** The index of the top department among `keys`; None when there are no keys
      (Math.max() of nothing is -Infinity and find finds nothing). */
  function TopIndex(staff: seq<Employee>, keys: seq<string>): Option<nat>
    requires AllCounted(staff, keys)
  {
    if |keys| == 0 then None else FindMean(staff, keys, MaxMean(staff, keys))
  }

  /** The search picks the first key, in key order, whose mean is the greatest. */
  lemma TopIndexIsFirstMaximum(staff: seq<Employee>, keys: seq<string>)
    requires AllCounted(staff, keys)
    ensures TopIndex(staff, keys).None? <==> |keys| == 0
    ensures TopIndex(staff, keys).Some? ==>
      var j := TopIndex(staff, keys).value;
      && j < |keys|
      && (forall i | 0 <= i < |keys| :: DepartmentMean(staff, keys[i], Rating) <= DepartmentMean(staff, keys[j], Rating))
      && (forall i | 0 <= i < j :: DepartmentMean(staff, keys[i], Rating) < DepartmentMean(staff, keys[j], Rating))
  {
    if |keys| > 0 {
      var m := MaxMean(staff, keys);
      var r := FindMean(staff, keys, m);
    }
  }

  lemma LabelsCounted(staff: seq<Employee>)
    ensures AllCounted(staff, Labels(staff))
  {
    forall i | 0 <= i < |Labels(staff)| ensures Headcount(staff, Labels(staff)[i]) > 0 {
      LabelsExhaustive(staff, Labels(staff)[i]);
    }
  }

  /** The name of the top department over the dictionary's keys. */
  function TopDepartment(staff: seq<Employee>, keys: seq<string>): (r: Option<string>)
    requires AllCounted(staff, keys)
    ensures r.None? <==> |keys| == 0
    ensures r.Some? ==> r.value in keys
  {
    TopIndexIsFirstMaximum(staff, keys);
    match TopIndex(staff, keys)
    case None => None
    case Some(j) => Some(keys[j])
  }

  /** With at least one employee there is a top department, and no department's mean exceeds it. */
  lemma TopDepartmentDefined(staff: seq<Employee>)
    requires |staff| > 0
    ensures AllCounted(staff, Labels(staff)) && TopDepartment(staff, Labels(staff)).Some?
    ensures forall i | 0 <= i < |Labels(staff)| ::
      DepartmentMean(staff, Labels(staff)[i], Rating) <= DepartmentMean(staff, TopDepartment(staff, Labels(staff)).value, Rating)
  {
    LabelsCounted(staff);
    var keys := Labels(staff);
    LabelsExhaustive(staff, staff[0].department);
    TopIndexIsFirstMaximum(staff, keys);
  }

  /** The report searches after the shared array has been sorted; reordering the staff does not
      change any department mean, so it does not change the answer. */
  lemma TopDepartmentPermutation(a: seq<Employee>, b: seq<Employee>, keys: seq<string>)
    requires multiset(a) == multiset(b)
    requires AllCounted(a, keys)
    ensures AllCounted(b, keys)
    ensures TopDepartment(a, keys) == TopDepartment(b, keys)
  {
    forall i | 0 <= i < |keys| ensures Headcount(b, keys[i]) == Headcount(a, keys[i]) {
      MembersPermutation(a, b, keys[i]);
    }
    forall i | 0 <= i < |keys| ensures DepartmentMean(a, keys[i], Rating) == DepartmentMean(b, keys[i], Rating) {
      MembersPermutation(a, b, keys[i]);
      SumPermutation(Members(a, keys[i]), Members(b, keys[i]), Rating);
    }
    SameMeansSameSearch(a, b, keys);
  }

  lemma SameMeansSameSearch(a: seq<Employee>, b: seq<Employee>, keys: seq<string>)
    requires AllCounted(a, keys) && AllCounted(b, keys)
    requires forall i | 0 <= i < |keys| :: DepartmentMean(a, keys[i], Rating) == DepartmentMean(b, keys[i], Rating)
    ensures TopDepartment(a, keys) == TopDepartment(b, keys)
  {
    if |keys| > 0 {
      TopIndexIsFirstMaximum(a, keys);
      TopIndexIsFirstMaximum(b, keys);
      var ja, jb := TopIndex(a, keys).value, TopIndex(b, keys).value;
    }
  }

  /** Reordering the staff keeps each department's head count and every department mean. */
  lemma DepartmentMeanPermutation(a: seq<Employee>, b: seq<Employee>, d: string, f: Field)
    requires multiset(a) == multiset(b)
    requires Headcount(a, d) > 0
    ensures Headcount(b, d) == Headcount(a, d)
    ensures DepartmentMean(b, d, f) == DepartmentMean(a, d, f)
  {
    MembersPermutation(a, b, d);
    SumPermutation(Members(a, d), Members(b, d), f);
  }

  /** The report's table takes its keys from the dictionary of the render (line 149) and filters
      the array as it stands at the click (line 150); any reordering of the staff gives the same
      row for each key. */
  lemma DepartmentRowPermutation(a: seq<Employee>, b: seq<Employee>, d: string)
    requires multiset(a) == multiset(b)
    requires d in Labels(a)
    ensures d in Labels(b) && DepartmentRowOf(b, d) == DepartmentRowOf(a, d)
  {
    LabelsExhaustive(a, d);
    DepartmentMeanPermutation(a, b, d, Salary);
    DepartmentMeanPermutation(a, b, d, Rating);
    DepartmentMeanPermutation(a, b, d, Attendance);
    LabelsExhaustive(b, d);
  }

  /** Regrouping a reordered staff (the dictionary rebuilt from the sorted array) may list the
      departments in another order, so on a tie the search can name another department; but the
      department it names has the same, greatest, mean. */
  lemma RegroupedLeaderTies(a: seq<Employee>, b: seq<Employee>)
    requires |a| > 0 && multiset(a) == multiset(b)
    ensures |b| > 0 && AllCounted(a, Labels(a)) && AllCounted(b, Labels(b))
    ensures TopDepartment(a, Labels(a)).Some? && TopDepartment(b, Labels(b)).Some?
    ensures var da, db := TopDepartment(a, Labels(a)).value, TopDepartment(b, Labels(b)).value;
      Headcount(a, db) > 0 && DepartmentMean(a, db, Rating) == DepartmentMean(a, da, Rating)
  {
    assert |b| == |multiset(b)| == |multiset(a)| == |a|;
    TopDepartmentDefined(a);
    TopDepartmentDefined(b);
    var ka, kb := Labels(a), Labels(b);
    var da, db := TopDepartment(a, ka).value, TopDepartment(b, kb).value;
    // da is a department of b, so the search over b found a mean at least as great
    LabelsExhaustive(a, da);
    DepartmentMeanPermutation(a, b, da, Rating);
    LabelsExhaustive(b, da);
    var i :| 0 <= i < |kb| && kb[i] == da;
    assert DepartmentMean(b, da, Rating) <= DepartmentMean(b, db, Rating);
    // and db is a department of a, so the search over a found a mean at least as great
    LabelsExhaustive(b, db);
    DepartmentMeanPermutation(b, a, db, Rating);
    LabelsExhaustive(a, db);
    var j :| 0 <= j < |ka| && ka[j] == db;
    assert DepartmentMean(a, db, Rating) <= DepartmentMean(a, da, Rating);
  }
}
