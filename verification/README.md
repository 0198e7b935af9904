# HR dashboard overview: metrics and report rows

This project models the computational core of the `Overview` component of an HR dashboard,
`src/components/Dashboard/Overview.tsx`. The component takes three record lists (employees,
daily attendance, recruitment pipeline) and computes:

- the headline figures (head counts, rounded averages, threshold counts, recent hires, open
  positions) and their trend arrows against fixed mock baselines;
- the department dictionary, built by a `reduce` that mutates an accumulator, and the two charts
  and the report table derived from it;
- the salary distribution over four half-open ranges;
- the report that `generatePDFReport` writes: the executive summary, the department table, the
  top-five "hall of fame" taken from the shared employee array after sorting it in place, the
  weekly attendance table, the recruitment table, the seven key insights (among them the top
  department) and the file name;
- the dashboard's top-four performer card, which sorts the same shared array in place on every
  render.

The lists and the ISO timestamp used for the file name are parameters, and so are the two
readings of the clock (in milliseconds): the one taken when the component renders (the
recent-hire count, which the report's summary and growth insight reuse) and the one taken when
the report is generated (the next-review date, thirty days later).
Ratings and attendance rates are exact reals. `Math.round` is `floor(x + 1/2)`. `toFixed(1)`,
read back as a number, is the nearest number of tenths, with ties rounded away from zero
(`toFixed` rounds the magnitude).

Modules: `Numeric` (rounding), `Text` (decimal strings, capitalisation, truncation, the date part),
`Records` (the entities and a generic `filter(...).length` count), `StaffMetrics`, `Departments`,
`Ranking`, `AttendanceRows`, `RecruitmentRows` and `Report`.

Where the code and the documented intent differ, the model follows the code:

- Every mean divides by the group size without a guard, and each daily rate divides by
  `present + absent` without a guard. The model states these divisors as preconditions
  (non-empty staff; every day in the window has someone present or absent) instead of inventing
  a default value.
- The weekly window is the last seven entries by position (`slice(-7)`), not by date.
- The top-five list is built by `mockEmployees.sort(...)`, which reorders the shared array in
  place, and so does the performer card on every render. The model therefore has methods on an
  `array` that leave it sorted.
- Within one render the department dictionary (line 37) and the metrics are computed before the
  card sorts the array (line 751). The report button runs a closure of that render, so it reads
  the render's dictionary and metrics together with the array as the card has since left it.
  `Report.GenerateReport` takes both: the render's state and the array at the click. The
  top-department search filters the sorted array with the render's keys, and
  `Departments.TopDepartmentPermutation` proves that the reordering does not change its answer;
  the department table filters the array at the click, and `Departments.DepartmentRowPermutation`
  proves each row is the same as over the render's array.
- A render followed by a click gives the report specified from the array as the render found it
  (`Report.RenderThenReport`); the report's own sort changes nothing, because the card has
  already sorted the array (`Report.ClickAfterRender`). From the second render on, the dictionary
  is rebuilt from the sorted array, so its keys may come in another order. On a tie for the
  greatest mean a click after such a render may name another leading department than a click
  after the first render; the one it names has the same greatest mean
  (`Departments.RegroupedLeaderTies`, `Report.ReportAfterRender`).

## Model

| member | source | states |
|---|---|---|
| Numeric.Round | src/components/Dashboard/Overview.tsx:16 | `Math.round` gives the integer within one half of x, halves going up |
| Numeric.RoundUnique | src/components/Dashboard/Overview.tsx:16 | exactly one integer meets that nearest-integer condition |
| Numeric.RoundMonotone | src/components/Dashboard/Overview.tsx:16 | rounding never reverses an order |
| Numeric.RoundRatio | src/components/Dashboard/Overview.tsx:16 | rounding a/b with b > 0 equals (2a + b) / (2b) in floor division |
| Numeric.Percent | src/components/Dashboard/Overview.tsx:309 | `Math.round(part / whole * 100)` with 0 <= part <= whole lies in 0..100 |
| Numeric.Tenths | src/components/Dashboard/Overview.tsx:152 | `toFixed(1)` as a number of tenths: the integer within one half of 10 x, a tie going away from zero (up for x >= 0, down for x < 0) |
| Numeric.TenthsMonotone | src/components/Dashboard/Overview.tsx:152 | rounding to tenths never reverses an order |
| Numeric.TenthsTies | src/components/Dashboard/Overview.tsx:197 | 0.25 shows as 0.3 and -0.25 as -0.3 |
| Text.DecimalString | src/components/Dashboard/Overview.tsx:193 | a number's decimal form is non-empty, all digits, no leading zero |
| Text.DecimalRoundTrip | src/components/Dashboard/Overview.tsx:193 | reading a number's decimal form back gives the number |
| Text.UpperChar | src/components/Dashboard/Overview.tsx:273 | upper-casing maps a-z to A-Z and leaves every other character alone |
| Text.Capitalize | src/components/Dashboard/Overview.tsx:273-274 | capitalising keeps the length, changes only the first character and maps "" to "" |
| Text.CapitalizeIdempotent | src/components/Dashboard/Overview.tsx:273-274 | capitalising twice gives the same as once |
| Text.Truncate | src/components/Dashboard/Overview.tsx:43 | a label within the width is kept, a longer one becomes its first `width` characters plus "..." |
| Text.DatePart | src/components/Dashboard/Overview.tsx:442 | `split('T')[0]` is the longest prefix without a 'T', followed by 'T' or by nothing |
| Text.DatePartOfTimestamp | src/components/Dashboard/Overview.tsx:442 | for a `YYYY-MM-DDT...` timestamp the date part is its first ten characters |
| Records.Count | src/components/Dashboard/Overview.tsx:15 | a `filter(...).length` count never exceeds the list length |
| Records.CountIndices | src/components/Dashboard/Overview.tsx:15 | `filter(p).length` is the number of positions whose record satisfies p |
| Records.CountConcat | src/components/Dashboard/Overview.tsx:15 | counting over a concatenation adds the counts |
| Records.CountComplement | src/components/Dashboard/Overview.tsx:137 | the counts of a condition and of its negation add up to the list length |
| Records.CountDisjoint | src/components/Dashboard/Overview.tsx:26-28 | the counts of two exclusive conditions add up to at most the list length |
| StaffMetrics.Sum | src/components/Dashboard/Overview.tsx:16-19 | specification function of `reduce((sum, emp) => sum + emp.field, 0)`; described by SumBounds, SumConcat, SumRemove, SumPermutation and SalarySumIsIntegral |
| StaffMetrics.Mean | src/components/Dashboard/Overview.tsx:16-19 | specification function of the sum divided by the length; described by MeanBounds and AveragesInRange |
| StaffMetrics.SumBounds | src/components/Dashboard/Overview.tsx:16-19 | a sum of n values within [lo, hi] lies within [n lo, n hi] |
| StaffMetrics.MeanBounds | src/components/Dashboard/Overview.tsx:16-19 | a mean lies within any bounds every value lies within |
| StaffMetrics.SumConcat | src/components/Dashboard/Overview.tsx:16-19 | the sum over a concatenation is the sum of the sums |
| StaffMetrics.SumRemove | src/components/Dashboard/Overview.tsx:16-19 | taking a record out of the list takes its value out of the sum |
| StaffMetrics.SumPermutation | src/components/Dashboard/Overview.tsx:190 | sums, and hence means, do not depend on the order of the records, so the in-place sort leaves them unchanged |
| StaffMetrics.SalarySumIsIntegral | src/components/Dashboard/Overview.tsx:16 | the salary sum is the integer sum of the salaries |
| StaffMetrics.AverageSalary | src/components/Dashboard/Overview.tsx:16 | the rounded mean salary is (2 total + n) / (2 n) in integers |
| StaffMetrics.AverageAttendance | src/components/Dashboard/Overview.tsx:17 | the shown mean attendance is the integer within one half of the mean rate |
| StaffMetrics.ActiveEmployees | src/components/Dashboard/Overview.tsx:15 | specification function: the number of records with status "active" (Records.Count, Records.CountIndices); described by InactiveIsRest |
| StaffMetrics.HighPerformers | src/components/Dashboard/Overview.tsx:26 | specification function: the number of records rated at least 4.5; described by HighPerformersAndReviewsDisjoint |
| StaffMetrics.LowAttendance | src/components/Dashboard/Overview.tsx:27 | specification function: the number of records with attendance below 90; at most the list length by Records.Count |
| StaffMetrics.UpcomingReviews | src/components/Dashboard/Overview.tsx:28 | specification function: the number of records rated below 4.0; described by HighPerformersAndReviewsDisjoint |
| StaffMetrics.OpenPositions | src/components/Dashboard/Overview.tsx:18 | specification function: the number of pipeline entries whose stage is not "hired"; described by RecruitmentRows.InProgressRowsAreOpenPositions |
| StaffMetrics.RecentHires | src/components/Dashboard/Overview.tsx:22-23 | specification function: the number of records that joined strictly after now minus thirty days; described by RecentHireBoundary |
| StaffMetrics.InactiveIsRest | src/components/Dashboard/Overview.tsx:137 | total minus active counts exactly the employees whose status is not "active" |
| StaffMetrics.HighPerformersAndReviewsDisjoint | src/components/Dashboard/Overview.tsx:26-28 | no employee is both a high performer (>= 4.5) and pending review (< 4.0) |
| StaffMetrics.AveragesInRange | src/components/Dashboard/Overview.tsx:17-19 | with ratings in [0,5] and rates in [0,100], the mean rating and the rounded mean attendance stay in those ranges |
| StaffMetrics.RecentHireBoundary | src/components/Dashboard/Overview.tsx:22-24 | the thirty-day window is strict: joining exactly 2592000000 ms before now does not count, one ms later does |
| StaffMetrics.CalculateTrend | src/components/Dashboard/Overview.tsx:71-74 | the direction flag holds exactly when current > previous; the value is 0 when previous <= 0 |
| StaffMetrics.TrendSign | src/components/Dashboard/Overview.tsx:71-74 | for previous > 0 the value is the nearest integer to the percentage change, its sign agrees with the flag, and equal inputs give {0, false} |
| StaffMetrics.TrendOfIntegers | src/components/Dashboard/Overview.tsx:72 | for integers with p > 0 the value is (200 (c - p) + p) / (2 p) |
| StaffMetrics.TrendExamples | src/components/Dashboard/Overview.tsx:71-74 | (110,100) gives {10,true}, (100,100) gives {0,false}, (50,0) gives {0,true} |
| StaffMetrics.HeadlineTrendDirections | src/components/Dashboard/Overview.tsx:76-80 | against the mock baselines the head-count, salary and performance cards always point up and the attendance card always down |
| StaffMetrics.SalaryDistribution | src/components/Dashboard/Overview.tsx:65-68 | one (label, count) pair per range, in range order |
| StaffMetrics.BucketsPartition | src/components/Dashboard/Overview.tsx:58-63 | each non-negative salary lies in exactly one range, 50000, 70000 and 90000 going to the higher range; a negative salary lies in none |
| StaffMetrics.DistributionTotal | src/components/Dashboard/Overview.tsx:65-68 | the four counts add up to the number of employees with a non-negative salary |
| Departments.Labels | src/components/Dashboard/Overview.tsx:37-40 | specification function of the dictionary's keys in first-seen order; described by LabelsDistinct, LabelsExhaustive, LabelsCounted and CountByDepartment |
| Departments.Headcount | src/components/Dashboard/Overview.tsx:38 | specification function of `acc[emp.department]`; described by SumCountsStep, CountsPartitionStaff and CountByDepartment |
| Departments.Members | src/components/Dashboard/Overview.tsx:49-50 | specification function of `filter(emp => emp.department === dept)`; described by MembersCounted, MembersMultiset and MembersPermutation |
| Departments.LabelsDistinct | src/components/Dashboard/Overview.tsx:37-40 | the dictionary has no key twice |
| Departments.LabelsExhaustive | src/components/Dashboard/Overview.tsx:37-40 | a label is a key exactly when some employee has it, exactly when its count is positive |
| Departments.LabelsCounted | src/components/Dashboard/Overview.tsx:37-40 | every key has at least one employee |
| Departments.MembersCounted | src/components/Dashboard/Overview.tsx:49 | a department's filtered list has as many entries as its count, all of that department |
| Departments.MembersMultiset | src/components/Dashboard/Overview.tsx:49 | the filtered list holds every copy of each employee of the department and nothing else |
| Departments.MembersPermutation | src/components/Dashboard/Overview.tsx:313-315 | reordering the staff reorders each department's members and keeps its count |
| Departments.SumCountsStep | src/components/Dashboard/Overview.tsx:38 | one more employee adds 1 to the counts of distinct keys exactly when its label is among them |
| Departments.CountsPartitionStaff | src/components/Dashboard/Overview.tsx:37-40 | the department counts add up to the number of employees |
| Departments.CountByDepartment | src/components/Dashboard/Overview.tsx:37-40 | the reduce loop yields the keys in first-seen order and a map holding exactly those keys, each with its head count, at least 1 |
| Departments.DepartmentMean | src/components/Dashboard/Overview.tsx:150-153 | specification function of a department's field total divided by its count; described by DepartmentMeanIsMembersMean, DepartmentMeanBounds and DepartmentMeanPermutation |
| Departments.DepartmentMeanIsMembersMean | src/components/Dashboard/Overview.tsx:150-153 | dividing the members' sum by the dictionary count is the mean over the members |
| Departments.DepartmentMeanBounds | src/components/Dashboard/Overview.tsx:150-153 | a department mean lies within any bounds all staff values lie within |
| Departments.GradeOf | src/components/Dashboard/Overview.tsx:154 | A+ for >= 4.5, A for [4.0, 4.5), B+ for [3.5, 4.0), B for [3.0, 3.5), C below, in tenths, each as an if-and-only-if |
| Departments.GradeMonotone | src/components/Dashboard/Overview.tsx:152-154 | a higher department mean never gets a lower grade |
| Departments.GradeUsesRoundedMean | src/components/Dashboard/Overview.tsx:152-154 | the grade is taken from the one-decimal string: 4.45 grades A+, 4.449 grades A |
| Departments.DepartmentRowOf | src/components/Dashboard/Overview.tsx:149-163 | a table row carries the department, its head count (at least 1), the rounded mean salary, the mean rating in tenths, the rounded mean attendance (each mean taken over the dictionary count) and the grade of the shown rating |
| Departments.DepartmentRows | src/components/Dashboard/Overview.tsx:149-164 | one row per dictionary key, in key order |
| Departments.RowCountsAreSumCounts | src/components/Dashboard/Overview.tsx:158 | the staff column adds up to the sum of the head counts |
| Departments.DepartmentTableComplete | src/components/Dashboard/Overview.tsx:149-164 | the table names every present department once and no other, and its staff column adds up to the number of employees |
| Departments.DepartmentChart | src/components/Dashboard/Overview.tsx:42-45 | one bar per key: the label cut to 8 characters, a count of at least 1 |
| Departments.KeyMeans | src/components/Dashboard/Overview.tsx:48-55 | for every key the filtered list is non-empty and its mean is the department mean used by the table |
| Departments.PerformanceChart | src/components/Dashboard/Overview.tsx:48-55 | one bar per key: the label cut to 6 characters and `Math.round` of the department's mean rating times 20 |
| Departments.PerformanceChartInRange | src/components/Dashboard/Overview.tsx:53 | with ratings in [0,5] every bar lies in 0..100 |
| Departments.MaxMean | src/components/Dashboard/Overview.tsx:316-319 | `Math.max` over the department means is at least every mean and equal to one of them |
| Departments.FindMean | src/components/Dashboard/Overview.tsx:313-316 | `find` returns the first key whose mean equals the target, or nothing exactly when no key matches |
| Departments.TopIndexIsFirstMaximum | src/components/Dashboard/Overview.tsx:313-320 | the search finds a key exactly when there are keys; that key has the greatest mean, and every earlier key a smaller one |
| Departments.TopDepartment | src/components/Dashboard/Overview.tsx:313-320 | the top department is undefined exactly when there are no keys, and otherwise is a key |
| Departments.TopDepartmentDefined | src/components/Dashboard/Overview.tsx:313-320 | with at least one employee the top department is defined and no department's mean exceeds its mean |
| Departments.TopDepartmentPermutation | src/components/Dashboard/Overview.tsx:313-320 | searching over a reordered staff (as after the in-place sort) gives the same top department |
| Departments.DepartmentMeanPermutation | src/components/Dashboard/Overview.tsx:313-315 | reordering the staff keeps each department's head count and each of its means |
| Departments.DepartmentRowPermutation | src/components/Dashboard/Overview.tsx:149-163 | a key of the render's dictionary is a key for any reordering of the staff, and its table row over the reordered array is the row over the original |
| Departments.RegroupedLeaderTies | src/components/Dashboard/Overview.tsx:37-40 | the search over the dictionary rebuilt from a reordered staff names a department whose mean equals the greatest mean found over the original dictionary |
| Departments.SameMeansSameSearch | src/components/Dashboard/Overview.tsx:313-320 | the search depends only on the department means |
| Ranking.Insert | src/components/Dashboard/Overview.tsx:190 | specification function of one insertion into a list sorted by descending rating; described by InsertPermutes, InsertSorted and InsertStable |
| Ranking.SortByRating | src/components/Dashboard/Overview.tsx:190 | specification function of the order `sort((a, b) => b.rating - a.rating)` produces; described by SortPermutes, SortSorts and SortIsStable |
| Ranking.InsertPermutes | src/components/Dashboard/Overview.tsx:190 | inserting into the sorted prefix adds exactly one record |
| Ranking.InsertSorted | src/components/Dashboard/Overview.tsx:190 | inserting into a list sorted by descending rating keeps it sorted |
| Ranking.InsertStable | src/components/Dashboard/Overview.tsx:190 | an inserted record goes behind every record of equal rating |
| Ranking.SortPermutes | src/components/Dashboard/Overview.tsx:190 | the sort returns a permutation of the staff |
| Ranking.SortSorts | src/components/Dashboard/Overview.tsx:190 | the sorted ratings never increase |
| Ranking.SortIsStable | src/components/Dashboard/Overview.tsx:190 | for every rating, the records with that rating keep their input order |
| Ranking.SortOfSortedIsIdentity | src/components/Dashboard/Overview.tsx:751 | sorting an already sorted list changes nothing |
| Ranking.SortIdempotent | src/components/Dashboard/Overview.tsx:190 | the report's sort of the array the card has already sorted leaves it as it is |
| Ranking.InsertAtPosition | src/components/Dashboard/Overview.tsx:190 | inserting at the position after the last record rated at least as high is the specified insertion |
| Ranking.InsertAt | src/components/Dashboard/Overview.tsx:190 | shifting the lower-rated records right places a[i] at that position, and the rest of the array is unchanged |
| Ranking.SortStep | src/components/Dashboard/Overview.tsx:190 | each pass of the sort extends the sorted prefix by one record |
| Ranking.SortInPlace | src/components/Dashboard/Overview.tsx:190 | the array is left holding the stable descending sort of its old contents |
| Ranking.RankTopPerformers | src/components/Dashboard/Overview.tsx:189-191 | after the in-place sort the result is the first min(n, length) entries of the array |
| Ranking.TopPerformers | src/components/Dashboard/Overview.tsx:189-191 | the top n has min(n, staff) records, sorted, each rated at least as high as every record left out, all drawn from the staff |
| Ranking.RankLabel | src/components/Dashboard/Overview.tsx:193 | the rank label is '#' followed by the rank's decimal form |
| Ranking.RankLabelsDistinct | src/components/Dashboard/Overview.tsx:193 | different ranks get different labels |
| Ranking.PerformerRows | src/components/Dashboard/Overview.tsx:192-201 | row k shows rank #(k + 1) and the k-th employee's fields with the rating in tenths |
| AttendanceRows.LastWeek | src/components/Dashboard/Overview.tsx:238 | `slice(-7)` keeps the last min(7, n) entries in order, as a suffix |
| AttendanceRows.AttendanceChart | src/components/Dashboard/Overview.tsx:31-34 | the chart has one value per day of the same window |
| AttendanceRows.ChartMatchesTable | src/components/Dashboard/Overview.tsx:31-34 | the chart and the report table show the same days with the same present counts |
| AttendanceRows.DailyTotal | src/components/Dashboard/Overview.tsx:244 | specification function of present + absent + late; described by RateIgnoresLate and DailyExample |
| AttendanceRows.DailyRate | src/components/Dashboard/Overview.tsx:243 | the daily rate lies in 0..100 |
| AttendanceRows.DailyRateIntegral | src/components/Dashboard/Overview.tsx:243 | the rate is (200 p + p + a) / (2 (p + a)) in integers |
| AttendanceRows.RateIgnoresLate | src/components/Dashboard/Overview.tsx:243-244 | late arrivals change the total and never the rate |
| AttendanceRows.DailyExample | src/components/Dashboard/Overview.tsx:243-244 | 18 present, 2 absent, 1 late give rate 90 and total 21 |
| AttendanceRows.AttendanceRowOf | src/components/Dashboard/Overview.tsx:239-244 | a row keeps the date and the three counts, its total is present + absent + late, and its rate is the daily rate, in 0..100, equal to (200 p + p + a) / (2 (p + a)) |
| AttendanceRows.WindowIndex | src/components/Dashboard/Overview.tsx:238 | the k-th entry of the window is entry n - w + k of the list |
| AttendanceRows.AttendanceTable | src/components/Dashboard/Overview.tsx:238-245 | one row per entry of the window, row k built from entry n - w + k |
| RecruitmentRows.StatusOf | src/components/Dashboard/Overview.tsx:275 | the status is Complete exactly when the stage is "hired" |
| RecruitmentRows.StatusText | src/components/Dashboard/Overview.tsx:275 | the status column starts with the check-mark for Complete and with the arrows for In Progress |
| RecruitmentRows.RecruitmentRowOf | src/components/Dashboard/Overview.tsx:269-276 | a row keeps position, department and applicants, capitalises stage and priority, and is In Progress exactly for an open position |
| RecruitmentRows.RecruitmentTable | src/components/Dashboard/Overview.tsx:269-276 | one row per pipeline entry, in order |
| RecruitmentRows.InProgressRowsAreOpenPositions | src/components/Dashboard/Overview.tsx:18 | the table has exactly as many In Progress rows as the open-position count |
| RecruitmentRows.StageLabels | src/components/Dashboard/Overview.tsx:273 | "hired" shows as "Hired", "interview" as "Interview", "" as "" |
| RecruitmentRows.RecruitingDepartments | src/components/Dashboard/Overview.tsx:141 | the set of recruiting departments has at most one member per entry |
| RecruitmentRows.RecruitingDepartmentsExact | src/components/Dashboard/Overview.tsx:141 | a department is in the set exactly when some entry names it |
| RecruitmentRows.RecruitingDepartmentsNonEmpty | src/components/Dashboard/Overview.tsx:141 | a non-empty pipeline recruits for at least one department |
| Report.Summary | src/components/Dashboard/Overview.tsx:137-142 | the total, active and inactive counts (adding up), the rounded mean salary in integers, the mean attendance, the mean rating in tenths and as a rounded percentage of 5, the open positions, the recruiting departments, the recent hires at render time and the pending reviews, each within its list |
| Report.Leader | src/components/Dashboard/Overview.tsx:313-320 | the search run on the sorted array with the keys of the dictionary built before the sort finds the top department of the unsorted staff, always defined |
| Report.Insights | src/components/Dashboard/Overview.tsx:308-323 | the seven insights in order: high performers with their rounded percentage (in 0..100), low-attendance count, upcoming reviews, recent hires, the top department of the unsorted staff (always defined), compensation, and the mean attendance |
| Report.FileName | src/components/Dashboard/Overview.tsx:442 | the name is "HR-Dashboard-Report-", the date part and ".pdf" |
| Report.FileNameDate | src/components/Dashboard/Overview.tsx:442 | the text between prefix and extension is exactly the date part of the timestamp |
| Report.Assemble | src/components/Dashboard/Overview.tsx:137-442 | specification function of the whole report, from the render's array, the array at the click, the two clock readings and the timestamp; described by ReportTablesAgree, ReportTopPerformersRanked, ReportLeaderListed and ClickAfterRender |
| Report.ReportTablesAgree | src/components/Dashboard/Overview.tsx:137-276 | the department table's staff column sums to the summary's total, the In Progress rows match its open positions, and the attendance table has min(7, n) rows |
| Report.ReportTopPerformersRanked | src/components/Dashboard/Overview.tsx:189-201 | the hall of fame lists min(5, n) employees with shown ratings never increasing |
| Report.ReportLeaderListed | src/components/Dashboard/Overview.tsx:313-320 | the top-department insight is always defined and names a department that has a row in the department table |
| Report.Render | src/components/Dashboard/Overview.tsx:37-40 | a render records the array it found and the keys of the dictionary built from it, then leaves the array sorted and shows its first min(4, n) entries |
| Report.GenerateReport | src/components/Dashboard/Overview.tsx:137-323 | from the render's state and the array at the click (a reordering of the render's): the array ends sorted and the report is the one specified from the render's array and the array at the click |
| Report.DisplayTopPerformers | src/components/Dashboard/Overview.tsx:750-752 | the card sorts the shared array in place and shows its first min(4, n) entries |
| Report.ClickAfterRender | src/components/Dashboard/Overview.tsx:190 | when the array at the click is the render's array sorted, the report is the one specified from the render's array alone |
| Report.RenderThenReport | src/components/Dashboard/Overview.tsx:549-550 | one render and then a click: the array ends sorted, the card shows the sorted array's first entries, and the report is the one specified from the array as the render found it, its dictionary in that array's first-seen order |
| Report.ReportAfterRender | src/components/Dashboard/Overview.tsx:37-40 | a click after a later render (whose array is the sorted one) shows the same hall of fame as after the first render, and a leading department that, though possibly another on a tie, has the same greatest mean |

## Left out

- Rendering (JSX, CSS, icons, colours, `Chart`, `MetricCard`) and `handleNavigation` are presentation only.
- jsPDF and autotable calls are foreign library calls and asynchronous I/O. This covers the dynamic imports, text coordinates, fonts, column widths, the footer loop, `doc.save`, `alert` and `console.error`. Only the values placed in the document are modelled.
- The closing `});` at line 424 ends the autotable callback before the footer and save code. The model treats the file name as part of the same report and does not model the scoping of `doc`.
- The constant tables `metricsData` and `trainingData` (lines 346-353, 375-381) and the fixed prose lines of the report carry no logic.
- The closing summary box on page 3 (lines 412-413) repeats two figures of the executive summary, `Math.round((avgPerformance/5)*100)` and `avgAttendance`; the report keeps them once, as `performancePercent` and `avgAttendance` of its summary.
- Locale formatting is library-dependent and left out: `toLocaleString` for salaries and `toLocaleDateString` for weekdays, months and dates. Rows keep the underlying numbers and ISO date strings instead.
- Dates are not parsed. `joinDate` is taken as milliseconds since the epoch; the two `Date.now()` readings (lines 23 and 423) and the ISO timestamp of the file name are parameters.
- Numbers are exact reals and integers, not IEEE-754 doubles. The model's equality in the top-department search is exact, and NaN (an empty group, a non-numeric rating) does not arise because the divisors are preconditions.
- JavaScript objects list integer-like keys ("2024") before other keys, whatever their insertion order. Keys such as "__proto__" or "toString" also behave differently in `acc[emp.department] || 0`. The model keeps plain first-seen order.
- `toUpperCase` is modelled on ASCII letters only. `length` and `substring` are modelled on code points, not UTF-16 code units.
- The weekly present and absent averages in the chart legend (lines 718 and 725) are rendered figures outside the report. They divide by 7 whatever the window size.
- AttendanceRows.DailyRate: requires present + absent > 0, because the source divides by that sum unguarded.
- The reduce loop's map of counts (line 38) is computed by `Departments.CountByDepartment`, whose contract ties each count to the head count; the rows then recompute that head count from the staff rather than reading it from the map.
- StaffMetrics.AverageSalary: requires a non-empty staff list, because the source divides by its length unguarded; likewise for the other means.
