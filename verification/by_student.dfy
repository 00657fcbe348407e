/**
 * The per-student report page: the student search, the current month's
 * counts and the 12-month chart for the selected student, and the counts
 * and details it hands to the report generators, with their fallbacks.
 */
module ByStudent {

  import opened Common
  import opened Text
  import opened Status
  import opened Percent
  import opened Calendar
  import opened ReportGenerator
  import opened MonthlyReport
  import opened MonthlyAttendance

  /** A student as the page lists it; any field may be missing. */
  datatype Pupil = Pupil(
    id: Option<string>, name: Option<string>, nisn: Option<string>,
    kelas: Option<string>, className: Option<string>)

  /** JavaScript `a || ""` for an optional string. */
  function TextOr(a: Option<string>, d: string): (r: string)
    ensures Truthy(a) ==> r == a.value
    ensures !Truthy(a) ==> r == d
  {
    if Truthy(a) then a.value else d
  }

  // ---------------------------------------------------------------------------
  // Search
  // ---------------------------------------------------------------------------

  /** The search predicate: the lower-cased name contains the lower-cased query, or the nisn contains the query. */
  predicate Matches(p: Pupil, query: string) {
    (Truthy(p.name) && Contains(Lower(p.name.value), Lower(query))) ||
    (Truthy(p.nisn) && Contains(p.nisn.value, query))
  }

  /** `fetchedStudents.filter(...)`: the matching students, in their fetched order, each as often as fetched. */
  function Search(ps: seq<Pupil>, query: string): (r: seq<Pupil>)
    ensures |r| <= |ps|
    ensures forall i :: 0 <= i < |r| ==> r[i] in ps && Matches(r[i], query)
    ensures forall i :: 0 <= i < |ps| && Matches(ps[i], query) ==> ps[i] in r
    ensures forall i :: 0 <= i < |r| ==> Truthy(r[i].name) || Truthy(r[i].nisn)
    ensures Subsequence(r, ps)
    ensures forall p :: multiset(r)[p] == if Matches(p, query) then multiset(ps)[p] else 0
  {
    if |ps| == 0 then []
    else
      var rest := Search(ps[1..], query);
      assert forall i :: 1 <= i < |ps| ==> ps[i] == ps[1..][i - 1];
      assert ps == [ps[0]] + ps[1..];
      if Matches(ps[0], query) then
        assert ([ps[0]] + rest)[1..] == rest;
        [ps[0]] + rest
      else
        SubsequenceDrop(rest, ps);
        rest
  }

  /** The list shown after a fetch: an empty fetch leaves the previous list in place. */
  function Shown(fetched: seq<Pupil>, previous: seq<Pupil>, query: string): (r: seq<Pupil>)
    ensures |fetched| == 0 ==> r == previous
    ensures |fetched| > 0 ==> r == Search(fetched, query)
  {
    if |fetched| > 0 then Search(fetched, query) else previous
  }

  /** The empty query keeps exactly the students with a name or a nisn. */
  lemma EmptyQuery(p: Pupil)
    ensures Matches(p, "") <==> Truthy(p.name) || Truthy(p.nisn)
  {
    if Truthy(p.name) {
      ContainsEmpty(Lower(p.name.value));
    }
    if Truthy(p.nisn) {
      ContainsEmpty(p.nisn.value);
    }
  }

  /** The name part of the search ignores the case of the query. */
  lemma NameMatchIgnoresCase(p: Pupil, query: string)
    requires !Truthy(p.nisn)
    ensures Matches(p, query) <==> Matches(p, Lower(query))
  {
    LowerIdempotent(query);
  }

  // ---------------------------------------------------------------------------
  // The selected student's month
  // ---------------------------------------------------------------------------

  /** One point of the chart: the month number as text and that month's counts. */
  datatype ChartPoint = ChartPoint(name: string, counts: Counts)

  /** What `fetchStudentAttendanceData` leaves behind. */
  datatype Fetch =
    | Skipped                                    // no school id or no student id: nothing changes
    | Loaded(chart: seq<ChartPoint>, summary: Counts)

  /**
   * `Array(12).fill(0).map(...)` with the current month's entry set to the
   * counts, when at least one record was fetched.
   */
  function Chart(month0: nat, rs: seq<AttendanceRecord>): (chart: seq<ChartPoint>)
    requires month0 < 12
    ensures |chart| == 12
    ensures forall i :: 0 <= i < 12 ==> chart[i].name == NatToString(i + 1)
    ensures forall i :: 0 <= i < 12 && i != month0 ==> chart[i].counts == Zero
  {
    var counts := if |rs| > 0 then Tally(rs) else Zero;
    seq(12, i requires 0 <= i < 12 => ChartPoint(NatToString(i + 1), if i == month0 then counts else Zero))
  }

  /**
   * The guard on `records.length > 0` changes nothing: without records the
   * counts are zero anyway, so the current month always shows the summary.
   */
  lemma ChartShowsSummary(month0: nat, rs: seq<AttendanceRecord>)
    requires month0 < 12
    ensures Chart(month0, rs)[month0].counts == Tally(rs)
  {
    if |rs| == 0 {
      assert Classes(rs) == [];
    }
  }

  /** The chart's names are "1".."12" and parse back to the month numbers. */
  lemma ChartNames(month0: nat, rs: seq<AttendanceRecord>, i: nat)
    requires month0 < 12 && i < 12
    ensures AllDigits(Chart(month0, rs)[i].name) && ParseDigits(Chart(month0, rs)[i].name) == i + 1
  {
    ParseNatToString(i + 1);
  }

  /**
   * `fetchStudentAttendanceData`: this student's records of the current
   * month (`month0` is the 0-based `getMonth()`), counted; a failed read
   * gives an empty chart and zero counts.
   */
  function FetchStudent(schoolId: Option<string>, studentId: Option<string>, all: seq<AttendanceRecord>,
                        failed: bool, year: nat, month0: nat): (f: Fetch)
    requires month0 < 12
    ensures f.Skipped? <==> !Truthy(schoolId) || !Truthy(studentId)
    ensures f.Loaded? && failed ==> f == Loaded([], Zero)
    ensures f.Loaded? && !failed ==>
      var rs := Of(Query(all, MonthRange(year, month0 + 1)), studentId.value);
      f.chart == Chart(month0, rs) && f.summary == Tally(rs)
  {
    if !Truthy(schoolId) || !Truthy(studentId) then Skipped
    else if failed then Loaded([], Zero)
    else
      var rs := Of(Query(all, MonthRange(year, month0 + 1)), studentId.value);
      Loaded(Chart(month0, rs), Tally(rs))
  }

  // ---------------------------------------------------------------------------
  // What the downloads hand to the generators
  // ---------------------------------------------------------------------------

  /** `monthlySummary?.hadir || 20` and so on: a zero or missing count is replaced. */
  function ReportData(summary: Option<Counts>): (d: AttendanceData)
    ensures d.total.None? && d.month.None? && d.className.None?
    ensures summary.Some? ==> forall b :: d.Tallied().Get(b) == NatOr(summary.value.Get(b), Fallback.Get(b))
    ensures summary.None? ==> d.Tallied() == Fallback
  {
    var c := if summary.Some? then summary.value else Zero;
    AttendanceData(NatOr(c.present, 20), NatOr(c.sick, 2), NatOr(c.permitted, 1), NatOr(c.absent, 1),
                   None, None, None)
  }

  /** The counts a report shows for a student without data: 20 present, 2 sick, 1 permitted, 1 absent. */
  const Fallback: Counts := Counts(20, 2, 1, 1)

  /**
   * The counts reach the report unchanged exactly when all four are nonzero;
   * after a failed fetch (all zero) the report shows the invented counts.
   */
  lemma ReportDataFaithful(c: Counts)
    ensures ReportData(Some(c)).Tallied() == c <==> c.present > 0 && c.sick > 0 && c.permitted > 0 && c.absent > 0
    ensures ReportData(Some(Zero)).Tallied() == Fallback
  {
    var d := ReportData(Some(c));
    assert d.Tallied().Get(Present) == NatOr(c.present, 20);
    assert d.Tallied().Get(Sick) == NatOr(c.sick, 2);
    assert d.Tallied().Get(Permitted) == NatOr(c.permitted, 1);
    assert d.Tallied().Get(Absent) == NatOr(c.absent, 1);
  }

  /** Every count handed on is positive, so the summary table always shows finite percentages. */
  lemma ReportDataFinite(summary: Option<Counts>)
    ensures TableTotal(ReportData(summary)) >= 4
    ensures forall i :: 0 <= i < 4 ==> SummaryRows(ReportData(summary))[i][2].p.Ratio?
  {
    var d := ReportData(summary);
    assert d.Tallied().Get(Present) >= 1 && d.Tallied().Get(Sick) >= 1;
    assert d.Tallied().Get(Permitted) >= 1 && d.Tallied().Get(Absent) >= 1;
    SummaryPercentages(d);
  }

  /**
   * The report details: the selected student's name, `kelas` or `class`, id,
   * the teacher's name, and the school id (the Excel download writes a
   * missing school id as "").
   */
  function ReportInfo(selected: Option<Pupil>, teacherName: string, schoolId: Option<string>, excel: bool): (info: AdditionalInfo)
    ensures info.studentName.Some? && info.className.Some? && info.teacherName.Some? && info.studentId.Some?
    ensures selected.Some? && Truthy(selected.value.kelas) ==> info.className == selected.value.kelas
    ensures selected.Some? && !Truthy(selected.value.kelas) && Truthy(selected.value.className) ==> info.className == selected.value.className
    ensures Truthy(info.schoolId) <==> Truthy(schoolId)
  {
    var p := if selected.Some? then selected.value else Pupil(None, None, None, None, None);
    AdditionalInfo(
      Some(if Truthy(p.kelas) then p.kelas.value else TextOr(p.className, "")),
      Some(TextOr(p.name, "")),
      Some(StrOr(teacherName, "")),
      if excel then Some(TextOr(schoolId, "")) else schoolId,
      Some(TextOr(p.id, "")))
  }

  /**
   * The two downloads show different counts. `generateExcel` never queries
   * attendance again: its sheet always exists for a student report and shows
   * the summary rows of exactly the counts the page hands over. `generatePDF`
   * refetches the student's records, so it can show other counts: for a found
   * student with no records this month it shows zero counts and a total of 1,
   * where the page handed over the fallback counts and no total.
   */
  lemma DownloadsDiffer(selected: Option<Pupil>, teacherName: string, schoolId: Option<string>, summary: Option<Counts>,
                        school: SchoolInfo, doc: Option<StudentDoc>, nowMonth: string, downloadDate: string, today: Date)
    ensures var x := GenerateExcel(StudentReport, school, ReportData(summary),
                                   ReportInfo(selected, teacherName, schoolId, true), doc, nowMonth, downloadDate, today);
      x.Success? && x.value.sheet.rows[11..16] == SummaryRows(ReportData(summary))
    ensures Truthy(schoolId) && selected.Some? && Truthy(selected.value.id) ==>
      var found := Snapshot(NoFailure, Some(StudentDoc("", "")), [], [], []);
      Refetch(StudentReport, ReportData(summary), ReportInfo(selected, teacherName, schoolId, false), found).data !=
        ReportData(summary)
  {
    var info := ReportInfo(selected, teacherName, schoolId, true);
    SheetNameAccepted(StudentReport, ExcelInfo(StudentReport, info, doc).className);
  }
}
