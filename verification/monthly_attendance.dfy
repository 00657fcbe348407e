/**
 * The monthly attendance recap page: every student of the selected class
 * gets the month's four status counts and a `total` of all their records;
 * the page shows overall shares, and the downloads list one row per student
 * followed by a TOTAL row.
 */
module MonthlyAttendance {

  import opened Common
  import opened Text
  import opened Status
  import opened Percent
  import opened Calendar
  import opened ReportGenerator
  import opened MonthlyReport

  /** A student document: its id and the text fields the recap shows ("" when missing). */
  datatype Student = Student(id: string, name: string, nisn: string, className: string)

  /** A student with the month's counters: `hadir`..`alpha` as `counts`, and `total`. */
  datatype Row = Row(student: Student, counts: Counts, total: nat)

  /** The students as listed, every counter at zero. */
  function Fresh(students: seq<Student>): (rows: seq<Row>)
    ensures |rows| == |students|
    ensures forall i :: 0 <= i < |rows| ==> rows[i] == Row(students[i], Zero, 0)
  {
    seq(|students|, i requires 0 <= i < |students| => Row(students[i], Zero, 0))
  }

  /** `studentsList.findIndex(s => s.id === studentId)`, with -1 as `None`. */
  function FindIndex(rows: seq<Row>, id: string): (r: Option<nat>)
    ensures r.Some? ==> r.value < |rows| && rows[r.value].student.id == id
    ensures r.Some? ==> forall j :: 0 <= j < r.value ==> rows[j].student.id != id
    ensures r.None? <==> forall j :: 0 <= j < |rows| ==> rows[j].student.id != id
  {
    if |rows| == 0 then None
    else if rows[0].student.id == id then Some(0)
    else match FindIndex(rows[1..], id)
      case None => None
      case Some(k) => Some(k + 1)
  }

  /** What the `forEach` reads from one attendance record: whose it is and its bucket. */
  datatype Mark = Mark(studentId: string, kind: Option<Bucket>)

  function Marks(rs: seq<AttendanceRecord>): (ms: seq<Mark>)
    ensures |ms| == |rs|
    ensures forall i :: 0 <= i < |rs| ==> ms[i] == Mark(rs[i].studentId, Classify(rs[i].status))
  {
    seq(|rs|, i requires 0 <= i < |rs| => Mark(rs[i].studentId, Classify(rs[i].status)))
  }

  /**
   * One attendance record: the first student with its `studentId` gets the
   * record's bucket bumped (if the status is recognised) and `total` bumped
   * in any case; a record of an unknown student changes nothing.
   */
  function Record(rows: seq<Row>, m: Mark): (rows': seq<Row>)
    ensures |rows'| == |rows|
    ensures forall i :: 0 <= i < |rows| ==> rows'[i].student == rows[i].student
  {
    match FindIndex(rows, m.studentId)
    case None => rows
    case Some(i) => rows[i := Row(rows[i].student, rows[i].counts.Add(One(m.kind)), rows[i].total + 1)]
  }

  /** The `forEach` over the fetched records. */
  function Apply(rows: seq<Row>, ms: seq<Mark>): (rows': seq<Row>)
    ensures |rows'| == |rows|
    ensures forall i :: 0 <= i < |rows| ==> rows'[i].student == rows[i].student
  {
    if |ms| == 0 then rows else Record(Apply(rows, ms[..|ms| - 1]), ms[|ms| - 1])
  }

  /**
   * `fetchAttendanceData`: the students with the month's counters; the
   * attendance query runs only when there is at least one student.
   */
  function FetchAttendance(students: seq<Student>, all: seq<AttendanceRecord>, year: nat, month: nat): (rows: seq<Row>)
    requires 1 <= month <= 12
    ensures |rows| == |students|
    ensures forall i :: 0 <= i < |rows| ==> rows[i].student == students[i]
  {
    var rows := Fresh(students);
    if |students| > 0 then Apply(rows, Marks(Query(all, MonthRange(year, month)))) else rows
  }

  // ---------------------------------------------------------------------------
  // Per-student counters
  // ---------------------------------------------------------------------------

  /** The records whose `studentId` is `id`, in order. */
  function Of(rs: seq<AttendanceRecord>, id: string): (out: seq<AttendanceRecord>)
    ensures |out| <= |rs|
    ensures forall x :: x in out <==> x in rs && x.studentId == id
    ensures Subsequence(out, rs)
  {
    if |rs| == 0 then []
    else
      var init, last := rs[..|rs| - 1], rs[|rs| - 1];
      var o := Of(init, id);
      assert rs == init + [last];
      SubsequenceSnoc(o, init, last);
      if last.studentId == id then o + [last] else o
  }

  /** Each record of student `id` is kept as often as it occurs, and no other record is kept. */
  lemma {:induction false} OfCounts(rs: seq<AttendanceRecord>, id: string)
    ensures forall x :: multiset(Of(rs, id))[x] == if x.studentId == id then multiset(rs)[x] else 0
    decreases |rs|
  {
    if |rs| > 0 {
      var init, last := rs[..|rs| - 1], rs[|rs| - 1];
      assert rs == init + [last];
      OfCounts(init, id);
    }
  }

  /** The buckets of the marks of student `id`, in order. */
  function KindsOf(ms: seq<Mark>, id: string): (ks: seq<Option<Bucket>>)
    ensures |ks| <= |ms|
  {
    if |ms| == 0 then []
    else KindsOf(ms[..|ms| - 1], id) + (if ms[|ms| - 1].studentId == id then [ms[|ms| - 1].kind] else [])
  }

  lemma MarksPrefix(rs: seq<AttendanceRecord>)
    requires |rs| > 0
    ensures Marks(rs)[..|rs| - 1] == Marks(rs[..|rs| - 1])
  {
  }

  lemma {:induction false} OfKinds(rs: seq<AttendanceRecord>, id: string)
    ensures Classes(Of(rs, id)) == KindsOf(Marks(rs), id)
  {
    if |rs| > 0 {
      var front, r := rs[..|rs| - 1], rs[|rs| - 1];
      OfKinds(front, id);
      MarksPrefix(rs);
      ClassesAppend(Of(front, id), if r.studentId == id then [r] else []);
    }
  }

  /** No earlier student has the same id: the one `findIndex` picks. */
  predicate FirstWithId(students: seq<Student>, i: nat)
    requires i < |students|
  {
    forall j :: 0 <= j < i ==> students[j].id != students[i].id
  }

  lemma {:induction false} ApplyMarks(students: seq<Student>, ms: seq<Mark>, i: nat)
    requires i < |students|
    ensures var row := Apply(Fresh(students), ms)[i];
      var mine := KindsOf(ms, students[i].id);
      if FirstWithId(students, i) then row.counts == CountKinds(mine) && row.total == |mine|
      else row.counts == Zero && row.total == 0
  {
    var id := students[i].id;
    if |ms| > 0 {
      var front, m := ms[..|ms| - 1], ms[|ms| - 1];
      ApplyMarks(students, front, i);
      var rows := Apply(Fresh(students), front);
      assert Apply(Fresh(students), ms) == Record(rows, m);
      var k := FindIndex(rows, m.studentId);
      if k == Some(i) {
        CountKindsSnoc(KindsOf(front, id), m.kind);
      } else if m.studentId == id {
        assert k.Some? && k.value < i;
        assert !FirstWithId(students, i);
      } else {
        AppendNil(KindsOf(front, id));
      }
    }
  }

  /**
   * Each student's counters are the tally and the number of the records
   * carrying its id, when it is the first student with that id; a student
   * whose id already appeared earlier in the list keeps all zeros.
   */
  lemma ApplyCounters(students: seq<Student>, rs: seq<AttendanceRecord>, i: nat)
    requires i < |students|
    ensures var row := Apply(Fresh(students), Marks(rs))[i];
      var mine := Of(rs, students[i].id);
      if FirstWithId(students, i) then row.counts == Tally(mine) && row.total == |mine|
      else row.counts == Zero && row.total == 0
  {
    ApplyMarks(students, Marks(rs), i);
    OfKinds(rs, students[i].id);
  }

  /** A student's four counts never exceed its `total`; they reach it exactly when every one of its statuses is recognised. */
  lemma CountsWithinTotal(students: seq<Student>, rs: seq<AttendanceRecord>, i: nat)
    requires i < |students| && FirstWithId(students, i)
    ensures var row := Apply(Fresh(students), Marks(rs))[i];
      row.counts.Sum() <= row.total &&
      (row.counts.Sum() == row.total <==>
        forall k :: 0 <= k < |Of(rs, students[i].id)| ==> Classify(Of(rs, students[i].id)[k].status).Some?)
  {
    ApplyCounters(students, rs, i);
    TallyComplete(Of(rs, students[i].id));
  }

  /** A record whose `studentId` names no student is ignored. */
  lemma UnknownIgnored(rows: seq<Row>, ms: seq<Mark>, m: Mark)
    requires forall j :: 0 <= j < |rows| ==> rows[j].student.id != m.studentId
    ensures Apply(rows, ms + [m]) == Apply(rows, ms)
  {
    assert (ms + [m])[..|ms|] == ms;
    var before := Apply(rows, ms);
    assert FindIndex(before, m.studentId).None?;
  }

  // ---------------------------------------------------------------------------
  // Overall sums and shares
  // ---------------------------------------------------------------------------

  /** `totalHadir`..`totalAlpha`: the counts summed over the students. */
  function SumCounts(rows: seq<Row>): Counts {
    if |rows| == 0 then Zero else rows[0].counts.Add(SumCounts(rows[1..]))
  }

  /** `totalAttendance`: the students' `total`s summed. */
  function SumTotal(rows: seq<Row>): nat {
    if |rows| == 0 then 0 else rows[0].total + SumTotal(rows[1..])
  }

  lemma {:induction false} SumCountsUpdate(rows: seq<Row>, i: nat, c: Counts)
    requires i < |rows|
    ensures var rows' := rows[i := Row(rows[i].student, rows[i].counts.Add(c), rows[i].total + 1)];
      SumCounts(rows') == SumCounts(rows).Add(c) && SumTotal(rows') == SumTotal(rows) + 1
  {
    var rows' := rows[i := Row(rows[i].student, rows[i].counts.Add(c), rows[i].total + 1)];
    var rest := SumCounts(rows[1..]);
    if i == 0 {
      assert rows'[1..] == rows[1..];
      AddAssoc(rows[0].counts, c, rest);
      assert c.Add(rest) == rest.Add(c);
      AddAssoc(rows[0].counts, rest, c);
    } else {
      assert rows'[1..] == rows[1..][i - 1 := Row(rows[i].student, rows[i].counts.Add(c), rows[i].total + 1)];
      SumCountsUpdate(rows[1..], i - 1, c);
      AddAssoc(rows[0].counts, rest, c);
    }
  }

  lemma FreshTail(students: seq<Student>)
    requires |students| > 0
    ensures Fresh(students)[0].counts == Zero && Fresh(students)[0].total == 0
    ensures Fresh(students)[1..] == Fresh(students[1..])
  {
  }

  lemma {:induction false} SumFreshCounts(students: seq<Student>)
    ensures SumCounts(Fresh(students)) == Zero
  {
    if |students| > 0 {
      FreshTail(students);
      SumFreshCounts(students[1..]);
    }
  }

  lemma {:induction false} SumFreshTotal(students: seq<Student>)
    ensures SumTotal(Fresh(students)) == 0
  {
    if |students| > 0 {
      FreshTail(students);
      SumFreshTotal(students[1..]);
    }
  }

  /** Some listed student has this id. */
  predicate Listed(students: seq<Student>, id: string) {
    exists j :: 0 <= j < |students| && students[j].id == id
  }

  /** The records that belong to some listed student, in order. */
  function Matched(students: seq<Student>, rs: seq<AttendanceRecord>): seq<AttendanceRecord> {
    if |rs| == 0 then []
    else Matched(students, rs[..|rs| - 1]) + (if Listed(students, rs[|rs| - 1].studentId) then [rs[|rs| - 1]] else [])
  }

  /** The buckets of the marks that belong to some listed student, in order. */
  function MatchedKinds(students: seq<Student>, ms: seq<Mark>): seq<Option<Bucket>> {
    if |ms| == 0 then []
    else MatchedKinds(students, ms[..|ms| - 1]) + (if Listed(students, ms[|ms| - 1].studentId) then [ms[|ms| - 1].kind] else [])
  }

  lemma {:induction false} MatchedMarks(students: seq<Student>, rs: seq<AttendanceRecord>)
    ensures Classes(Matched(students, rs)) == MatchedKinds(students, Marks(rs))
  {
    if |rs| > 0 {
      var front, r := rs[..|rs| - 1], rs[|rs| - 1];
      MatchedMarks(students, front);
      assert Marks(rs)[..|rs| - 1] == Marks(front);
      ClassesAppend(Matched(students, front), if Listed(students, r.studentId) then [r] else []);
    }
  }

  /** One record moves the sums by its unit count when it finds its student, and changes nothing otherwise. */
  lemma RecordSums(rows: seq<Row>, m: Mark)
    ensures FindIndex(rows, m.studentId).Some? ==>
      SumCounts(Record(rows, m)) == SumCounts(rows).Add(One(m.kind)) && SumTotal(Record(rows, m)) == SumTotal(rows) + 1
    ensures FindIndex(rows, m.studentId).None? ==> Record(rows, m) == rows
  {
    if FindIndex(rows, m.studentId).Some? {
      SumCountsUpdate(rows, FindIndex(rows, m.studentId).value, One(m.kind));
    }
  }

  lemma ListedFound(students: seq<Student>, rows: seq<Row>, id: string)
    requires |rows| == |students|
    requires forall i :: 0 <= i < |rows| ==> rows[i].student == students[i]
    ensures Listed(students, id) <==> FindIndex(rows, id).Some?
  {
    if FindIndex(rows, id).Some? {
      assert rows[FindIndex(rows, id).value].student == students[FindIndex(rows, id).value];
    }
  }

  lemma {:induction false} SumCountsOfMarks(students: seq<Student>, ms: seq<Mark>)
    ensures SumCounts(Apply(Fresh(students), ms)) == CountKinds(MatchedKinds(students, ms))
  {
    if |ms| == 0 {
      SumFreshCounts(students);
    } else {
      var front, m := ms[..|ms| - 1], ms[|ms| - 1];
      SumCountsOfMarks(students, front);
      var rows := Apply(Fresh(students), front);
      RecordSums(rows, m);
      ListedFound(students, rows, m.studentId);
      if Listed(students, m.studentId) {
        CountKindsSnoc(MatchedKinds(students, front), m.kind);
      } else {
        AppendNil(MatchedKinds(students, front));
      }
    }
  }

  lemma {:induction false} SumTotalOfMarks(students: seq<Student>, ms: seq<Mark>)
    ensures SumTotal(Apply(Fresh(students), ms)) == |MatchedKinds(students, ms)|
  {
    if |ms| == 0 {
      SumFreshTotal(students);
    } else {
      var front, m := ms[..|ms| - 1], ms[|ms| - 1];
      SumTotalOfMarks(students, front);
      var rows := Apply(Fresh(students), front);
      RecordSums(rows, m);
      ListedFound(students, rows, m.studentId);
    }
  }

  /**
   * The overall counts are the tally of the records that belong to some
   * listed student, and the overall `total` is their number.
   */
  lemma OverallSums(students: seq<Student>, rs: seq<AttendanceRecord>)
    ensures var rows := Apply(Fresh(students), Marks(rs));
      SumCounts(rows) == Tally(Matched(students, rs)) &&
      SumTotal(rows) == |Matched(students, rs)|
  {
    SumCountsOfMarks(students, Marks(rs));
    SumTotalOfMarks(students, Marks(rs));
    MatchedMarks(students, rs);
  }

  /** The four shares are all zero ("0.0") when no record matched a student. */
  function ShareOf(count: nat, total: nat): (p: Percent)
    ensures total == 0 ==> p == Ratio(0, 1)
    ensures total > 0 ==> p == Ratio(count, total)
  {
    if total > 0 then Divide(count, total) else Ratio(0, 1)
  }

  /** `attendanceData`: a share per bucket, in the order Hadir, Sakit, Izin, Alpha. */
  function Shares(rows: seq<Row>): (ps: seq<Percent>)
    ensures |ps| == 4
  {
    var c, t := SumCounts(rows), SumTotal(rows);
    seq(4, i requires 0 <= i < 4 => ShareOf(c.Get(Order[i]), t))
  }

  /**
   * The shares are fractions of the overall `total`, which also counts the
   * records with an unrecognised status: the four numerators add up to at
   * most the denominator, and to exactly it when every matched record has a
   * recognised status.
   */
  lemma SharesAddUp(students: seq<Student>, rs: seq<AttendanceRecord>)
    requires SumTotal(Apply(Fresh(students), Marks(rs))) > 0
    ensures var ps := Shares(Apply(Fresh(students), Marks(rs)));
      var m := Matched(students, rs);
      (forall i :: 0 <= i < 4 ==> ps[i].Ratio? && ps[i].den == |m|) &&
      ps[0].num + ps[1].num + ps[2].num + ps[3].num <= |m| &&
      (ps[0].num + ps[1].num + ps[2].num + ps[3].num == |m| <==>
        forall k :: 0 <= k < |m| ==> Classify(m[k].status).Some?)
  {
    OverallSums(students, rs);
    TallyComplete(Matched(students, rs));
  }
  /** What the page shows: the student rows and the four overall shares. */
  datatype Recap = Recap(rows: seq<Row>, shares: seq<Percent>)

  /**
   * `fetchAttendanceData` as the page runs it: nothing happens without a
   * school id, and a read that throws (the students or the month's
   * attendance) skips both `setStudents` and `setAttendanceData`, so the
   * previous recap stays. Otherwise the rows are the counted students and
   * the shares are computed from those rows.
   */
  function LoadRecap(prev: Recap, schoolId: Option<string>, failed: bool,
                     students: seq<Student>, all: seq<AttendanceRecord>, year: nat, month: nat): (r: Recap)
    requires 1 <= month <= 12
    ensures !Truthy(schoolId) || failed ==> r == prev
    ensures Truthy(schoolId) && !failed ==>
      r.rows == FetchAttendance(students, all, year, month) && |r.shares| == 4 && r.shares == Shares(r.rows)
  {
    if !Truthy(schoolId) || failed then prev
    else
      var rows := FetchAttendance(students, all, year, month);
      Recap(rows, Shares(rows))
  }
  /**
   * After a successful load each share is that status's count among the
   * month's records of listed students, over the number of those records.
   */
  lemma LoadedShares(prev: Recap, schoolId: Option<string>, students: seq<Student>, all: seq<AttendanceRecord>,
                     year: nat, month: nat)
    requires 1 <= month <= 12 && Truthy(schoolId)
    ensures var r := LoadRecap(prev, schoolId, false, students, all, year, month);
      var m := Matched(students, Query(all, MonthRange(year, month)));
      forall i :: 0 <= i < 4 ==> r.shares[i] == ShareOf(Tally(m).Get(Order[i]), |m|)
  {
    var rs := Query(all, MonthRange(year, month));
    var rows := FetchAttendance(students, all, year, month);
    assert rows == Apply(Fresh(students), Marks(rs));
    OverallSums(students, rs);
    var m := Matched(students, rs);
    var ps := Shares(rows);
    forall i | 0 <= i < 4
      ensures ps[i] == ShareOf(Tally(m).Get(Order[i]), |m|)
    {
    }
  }



  // ---------------------------------------------------------------------------
  // The downloads
  // ---------------------------------------------------------------------------

  /**
   * A student's row in the workbook: name, NISN and class, then the four
   * counters in the order Hadir, Sakit, Izin, Alpha, then the student's total.
   */
  function StudentRow(row: Row): (cells: seq<Cell>)
    ensures |cells| == 8
    ensures cells[..3] == [Str(row.student.name), Str(row.student.nisn), Str(row.student.className)]
    ensures forall i :: 0 <= i < 4 ==> cells[3 + i] == Num(row.counts.Get(Order[i]))
    ensures cells[7] == Num(row.total)
  {
    var s := row.student;
    [Str(s.name), Str(s.nisn), Str(s.className),
     Num(row.counts.present), Num(row.counts.sick), Num(row.counts.permitted), Num(row.counts.absent),
     Num(row.total)]
  }

  /**
   * The TOTAL row: each bucket's counters summed over the students, in the
   * order Hadir, Sakit, Izin, Alpha, and as last cell the sum of those four.
   */
  function TotalRow(rows: seq<Row>): (cells: seq<Cell>)
    ensures |cells| == 8 && cells[..3] == [Str("TOTAL"), Str(""), Str("")]
    ensures forall i :: 0 <= i < 4 ==> cells[3 + i] == Num(SumCounts(rows).Get(Order[i]))
    ensures cells[7] == Num(SumCounts(rows).Sum())
  {
    var c := SumCounts(rows);
    [Str("TOTAL"), Str(""), Str(""), Num(c.present), Num(c.sick), Num(c.permitted), Num(c.absent),
     Num(c.present + c.sick + c.permitted + c.absent)]
  }

  /**
   * The recap's file name: the label between "Rekap_Kehadiran_" and the
   * extension, with only its first space turned into `_`.
   */
  function RecapFilename(monthLabel: string, ext: string): (r: string)
    ensures |r| == |"Rekap_Kehadiran_"| + |monthLabel| + |ext|
    ensures r[..|"Rekap_Kehadiran_"|] == "Rekap_Kehadiran_" && r[|r| - |ext|..] == ext
    ensures ' ' !in monthLabel ==> r == "Rekap_Kehadiran_" + monthLabel + ext
    ensures ' ' in monthLabel ==> CountChar(r[|"Rekap_Kehadiran_"|..|r| - |ext|], ' ') == CountChar(monthLabel, ' ') - 1
  {
    ReplaceFirstEffect(monthLabel, ' ', '_');
    var r := "Rekap_Kehadiran_" + ReplaceFirst(monthLabel, ' ', '_') + ext;
    assert r[|"Rekap_Kehadiran_"|..|r| - |ext|] == ReplaceFirst(monthLabel, ' ', '_');
    r
  }

  /** For a label `<month> <year>` with a one-word month, the name is `Rekap_Kehadiran_<month>_<year><ext>`. */
  lemma RecapFilenameOfLabel(monthName: string, year: string, ext: string)
    requires ' ' !in monthName
    ensures RecapFilename(monthName + " " + year, ext) == "Rekap_Kehadiran_" + monthName + "_" + year + ext
  {
    ReplaceFirstAt(monthName, year, ' ', '_');
  }

  /** The eleven rows above the student table: school, title, period, the four shares and the column titles. */
  function RecapHeader(school: SchoolInfo, monthLabel: string, year: string, ps: seq<Percent>): (h: seq<seq<Cell>>)
    requires |ps| == 4
    ensures |h| == 11
  {
    [
      [Str(school.name)],
      [Str(school.address)],
      [Str("NPSN: " + school.npsn)],
      [],
      [Str("REKAP LAPORAN KEHADIRAN SISWA")],
      [Str("BULAN " + Upper(monthLabel))],
      [Str("TAHUN " + year)],
      [],
      [Share("Hadir", ps[0]), Share("Sakit", ps[1]), Share("Izin", ps[2]), Share("Alpha", ps[3])],
      [],
      [Str("Nama Siswa"), Str("NISN"), Str("Kelas"), Str("Hadir"), Str("Sakit"), Str("Izin"), Str("Alpha"), Str("Total")]
    ]
  }

  /** The workbook's single sheet, "Rekap Kehadiran". */
  function RecapSheet(school: SchoolInfo, monthLabel: string, year: string, rows: seq<Row>): (sh: Sheet)
    ensures sh.name == "Rekap Kehadiran"
    ensures |sh.rows| == 11 + |rows| + 1
    ensures sh.rows[11..11 + |rows|] == StudentRows(rows)
    ensures sh.rows[11 + |rows|] == TotalRow(rows)
  {
    var header := RecapHeader(school, monthLabel, year, Shares(rows));
    var body := StudentRows(rows);
    SheetIndex(header, body, TotalRow(rows));
    Sheet("Rekap Kehadiran", header + body + [TotalRow(rows)])
  }

  /** One workbook row per student row, in order. */
  function StudentRows(rows: seq<Row>): (body: seq<seq<Cell>>)
    ensures |body| == |rows|
    ensures forall i :: 0 <= i < |rows| ==> body[i] == StudentRow(rows[i])
  {
    seq(|rows|, i requires 0 <= i < |rows| => StudentRow(rows[i]))
  }

  lemma SheetIndex(header: seq<seq<Cell>>, body: seq<seq<Cell>>, last: seq<Cell>)
    ensures (header + body + [last])[|header|..|header| + |body|] == body
    ensures (header + body + [last])[|header| + |body|] == last
  {
    assert (header + body + [last])[|header|..|header| + |body|] == (header + body)[|header|..];
  }

  /**
   * The TOTAL row's last cell adds up the four status sums and so can fall
   * short of the sum of the `total` column shown on the page: exactly by the
   * matched records with an unrecognised status.
   */
  lemma TotalCellBelowTotals(students: seq<Student>, rs: seq<AttendanceRecord>)
    ensures var rows := Apply(Fresh(students), Marks(rs));
      var m := Matched(students, rs);
      TotalRow(rows)[7] == Num(SumCounts(rows).Sum()) &&
      SumCounts(rows).Sum() + multiset(Classes(m))[None] == SumTotal(rows)
  {
    OverallSums(students, rs);
    TallyComplete(Matched(students, rs));
  }

  // ---------------------------------------------------------------------------
  // PDF pagination
  // ---------------------------------------------------------------------------

  /** Where a student row is drawn, and whether a new page follows it. */
  datatype Slot = Slot(y: int, breakAfter: bool)

  /** A4 height minus the 15 mm margin minus the 40 mm reserve. */
  const Limit: int := 297 - 15 - 40

  /**
   * The rows from index `i` on, the current one drawn at `y`: after a row
   * `yPos` grows by 7, and when it passes `Limit` and the row is not the last
   * one, a page is added and `yPos` goes back to the 15 mm margin.
   */
  function Layout(y: int, i: nat, n: nat): (ss: seq<Slot>)
    ensures |ss| == if i <= n then n - i else 0
    decreases n - i
  {
    if i >= n then []
    else
      var next := y + 7;
      var breaks := next > Limit && i < n - 1;
      [Slot(y, breaks)] + Layout(if breaks then 15 else next, i + 1, n)
  }

  /** `yPos` where the TOTAL row is drawn. */
  function EndY(y: int, i: nat, n: nat): int
    decreases n - i
  {
    if i >= n then y
    else
      var next := y + 7;
      if next > Limit && i < n - 1 then EndY(15, i + 1, n) else EndY(next, i + 1, n)
  }

  /** The first row is drawn below the 44 mm heading and the 8 mm header row. */
  const FirstY: int := 15 + 44 + 8

  /** The row height at index `j`: 26 rows fill the first page, 33 every later one. */
  function RowY(j: nat): int {
    if j <= 25 then FirstY + 7 * j else 15 + 7 * ((j - 26) % 33)
  }

  /** A page ends after row `j`: row 25, then every 33rd row, unless it is the last. */
  predicate BreakAfter(j: nat, n: nat) {
    j + 1 < n && (j == 25 || (j > 25 && (j - 26) % 33 == 32))
  }

  lemma ModStep(m: nat)
    ensures (m + 1) % 33 == if m % 33 == 32 then 0 else m % 33 + 1
  {
  }

  /** Moving down one row: past `Limit` exactly after a page's last row, and then back to the margin. */
  lemma RowStep(i: nat)
    ensures RowY(i) + 7 > Limit <==> i == 25 || (i > 25 && (i - 26) % 33 == 32)
    ensures (if RowY(i) + 7 > Limit then 15 else RowY(i) + 7) == RowY(i + 1)
  {
    if i > 25 {
      ModStep(i - 26);
      assert i + 1 - 26 == (i - 26) + 1;
    }
  }

  lemma {:induction false} LayoutAt(i: nat, n: nat, j: nat)
    requires i <= j < n
    ensures Layout(RowY(i), i, n)[j - i] == Slot(RowY(j), BreakAfter(j, n))
    decreases j - i
  {
    var next := RowY(i) + 7;
    var breaks := next > Limit && i < n - 1;
    RowStep(i);
    assert breaks <==> BreakAfter(i, n);
    assert Layout(RowY(i), i, n) == [Slot(RowY(i), breaks)] + Layout(if breaks then 15 else next, i + 1, n);
    if j > i {
      assert (if breaks then 15 else next) == RowY(i + 1);
      LayoutAt(i + 1, n, j);
    }
  }

  /** The layout of `n` student rows, in closed form. */
  lemma StudentRowsLayout(n: nat, j: nat)
    requires j < n
    ensures Layout(FirstY, 0, n)[j] == Slot(RowY(j), BreakAfter(j, n))
    ensures 15 <= RowY(j) <= Limit
  {
    LayoutAt(0, n, j);
  }

  lemma {:induction false} EndAt(i: nat, n: nat)
    requires i < n
    ensures EndY(RowY(i), i, n) == RowY(n - 1) + 7
    decreases n - i
  {
    if i < n - 1 {
      RowStep(i);
      EndAt(i + 1, n);
    }
  }

  /**
   * The last row never starts a page, so the TOTAL row can begin 7 mm past
   * `Limit`; the principal's NIP line, 50 mm further down, then lies below
   * the 297 mm page: with 26 students it is at 299.
   */
  lemma TotalsPlacement(n: nat)
    requires n > 0
    ensures EndY(FirstY, 0, n) <= Limit + 7
    ensures n == 26 ==> EndY(FirstY, 0, n) + 50 == 299
  {
    EndAt(0, n);
  }
}
