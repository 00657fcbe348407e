/**
 * `generateComprehensiveReport`: the monthly, weekly and per-student tables
 * of the comprehensive PDF, the three-sheet comprehensive workbook, the
 * student-name truncation and the per-row page break of the PDF's student
 * table. The caller's `monthlyData`, `weeklyData` and `studentData` are
 * untyped; absent fields are `None` (counts) or "" (text).
 */
module ComprehensiveReport {

  import opened Common
  import opened Text
  import opened Status
  import opened Percent
  import opened Calendar
  import opened ReportGenerator

  /** `monthlyData`: four counts, an optional total and the period label. */
  datatype MonthlyData = MonthlyData(hadir: Option<nat>, sakit: Option<nat>, izin: Option<nat>, alpha: Option<nat>,
                                     total: Option<nat>, month: string)
  {
    /** `data[status.toLowerCase()]` for the bucket's label. */
    function Get(b: Bucket): Option<nat> {
      match b
      case Present => hadir
      case Sick => sakit
      case Permitted => izin
      case Absent => alpha
    }
  }

  /** One element of `weeklyData`. */
  datatype WeekData = WeekData(week: string, hadir: Option<nat>, sakit: Option<nat>, izin: Option<nat>, alpha: Option<nat>)

  /** One element of `studentData`. */
  datatype StudentEntry = StudentEntry(name: string, className: string,
                                       hadir: Option<nat>, sakit: Option<nat>, izin: Option<nat>, alpha: Option<nat>)

  // ---------------------------------------------------------------------------
  // The PDF
  // ---------------------------------------------------------------------------

  /** `monthlyData || { hadir: 0, sakit: 0, izin: 0, alpha: 0, total: 0 }`. */
  const EmptyMonth := MonthlyData(Some(0), Some(0), Some(0), Some(0), Some(0), "")

  /** `data.total || 100`: the PDF's divisor and Total-row value. */
  function PdfDivisor(md: Option<MonthlyData>): (t: nat)
    ensures t >= 1
    ensures md.Some? && md.value.total.Some? && md.value.total.value > 0 ==> t == md.value.total.value
    ensures md.None? || md.value.total.None? || md.value.total.value == 0 ==> t == 100
  {
    OrElse(md.GetOr(EmptyMonth).total, 100)
  }

  function PdfMonthlyRow(md: Option<MonthlyData>, b: Bucket): seq<Cell> {
    var v := OrElse(md.GetOr(EmptyMonth).Get(b), 0);
    [Str(Label(b)), Num(v), Pct(Divide(v, PdfDivisor(md)))]
  }

  /**
   * The PDF's monthly table: Hadir/Sakit/Izin/Alpha with a missing count read
   * as 0, each over `total || 100`, and the Total row with that divisor.
   */
  function PdfMonthlyRows(md: Option<MonthlyData>): (rows: seq<seq<Cell>>)
    ensures |rows| == 5
    ensures forall i :: 0 <= i < 4 ==> rows[i] == PdfMonthlyRow(md, Order[i])
    ensures rows[4] == [Str("Total"), Num(PdfDivisor(md)), Str("100%")]
  {
    [PdfMonthlyRow(md, Present), PdfMonthlyRow(md, Sick), PdfMonthlyRow(md, Permitted), PdfMonthlyRow(md, Absent),
     [Str("Total"), Num(PdfDivisor(md)), Str("100%")]]
  }

  /**
   * The PDF's monthly percentages are always finite: each is the count (0 when
   * missing) over `total`, or over 100 when the total is missing or 0.
   */
  lemma PdfMonthlyFinite(md: Option<MonthlyData>, b: Bucket)
    ensures var cell := PdfMonthlyRow(md, b)[2];
      cell.Pct? && cell.p.Finite() && cell.p.den == PdfDivisor(md) &&
      cell.p.num == OrElse(md.GetOr(EmptyMonth).Get(b), 0)
  {
  }

  /** A week's label in the PDF: `week.week || "Minggu " + (index + 1)`. */
  function WeekLabel(w: WeekData, index: nat): (s: string)
    ensures s != ""
    ensures w.week != "" ==> s == w.week
  {
    StrOr(w.week, "Minggu " + NatToString(index + 1))
  }

  /** The PDF's weekly rows: one per week when `weeklyData` is a non-empty array, else none. */
  function PdfWeeklyRows(wd: Option<seq<WeekData>>): (rows: seq<seq<Cell>>)
    ensures wd.Some? ==> |rows| == |wd.value|
    ensures wd.None? ==> rows == []
    ensures forall i :: 0 <= i < |rows| ==> |rows[i]| == 5 && rows[i][0] == Str(WeekLabel(wd.value[i], i))
    ensures forall i :: 0 <= i < |rows| ==> rows[i][1] == Num(OrElse(wd.value[i].hadir, 0)) && rows[i][4] == Num(OrElse(wd.value[i].alpha, 0))
  {
    if wd.Some? && |wd.value| > 0 then
      var ws := wd.value;
      seq(|ws|, i requires 0 <= i < |ws| =>
        [Str(WeekLabel(ws[i], i)), Num(OrElse(ws[i].hadir, 0)), Num(OrElse(ws[i].sakit, 0)),
         Num(OrElse(ws[i].izin, 0)), Num(OrElse(ws[i].alpha, 0))])
    else []
  }

  /** A week with no label of its own is numbered by its position, from 1. */
  lemma UnlabelledWeekNumber(w: WeekData, index: nat)
    requires w.week == ""
    ensures |WeekLabel(w, index)| > 7 && WeekLabel(w, index)[..7] == "Minggu "
    ensures AllDigits(WeekLabel(w, index)[7..]) && ParseDigits(WeekLabel(w, index)[7..]) == index + 1
  {
    var s := WeekLabel(w, index);
    assert s == "Minggu " + NatToString(index + 1);
    assert s[7..] == NatToString(index + 1);
    ParseNatToString(index + 1);
  }

  /** `name.length > 18 ? name.substring(0, 16) + "..." : name`. */
  function Truncate(name: string): (r: string)
    ensures |name| <= 18 ==> r == name
    ensures |name| > 18 ==> |r| == 19 && r[..16] == name[..16] && r[16..] == "..."
  {
    if |name| > 18 then name[..16] + "..." else name
  }

  /** Truncating a shown name again changes nothing. */
  lemma TruncateIdempotent(name: string)
    ensures Truncate(Truncate(name)) == Truncate(name)
  {
    if |name| > 18 {
      var r := Truncate(name);
      assert r[..16] + "..." == r;
    }
  }

  /** A shown name is at most 19 characters and starts with the first 16 of the name. */
  lemma TruncatePrefix(name: string)
    ensures |Truncate(name)| <= 19
    ensures |name| <= 16 ==> Truncate(name) == name
    ensures |name| > 16 ==> Truncate(name)[..16] == name[..16]
  {
  }

  /**
   * The students listed: the locally collected `records` array is always
   * empty and `fetchStudentData` is never called, so the rows come from
   * `studentData` when it is a non-empty array, and there are none otherwise.
   */
  function StudentSource(sd: Option<seq<StudentEntry>>): (r: seq<StudentEntry>)
    ensures sd.Some? ==> r == sd.value
    ensures sd.None? ==> r == []
  {
    if sd.Some? && |sd.value| > 0 then sd.value else []
  }

  function StudentRow(s: StudentEntry): seq<Cell> {
    [Str(Truncate(s.name)), Str(StrOr(s.className, "-")),
     Num(OrElse(s.hadir, 0)), Num(OrElse(s.sakit, 0)), Num(OrElse(s.izin, 0)), Num(OrElse(s.alpha, 0))]
  }

  /** The PDF's per-student rows: one per given student, in order. */
  function PdfStudentRows(sd: Option<seq<StudentEntry>>): (rows: seq<seq<Cell>>)
    ensures |rows| == |StudentSource(sd)|
    ensures forall i :: 0 <= i < |rows| ==> rows[i] == StudentRow(StudentSource(sd)[i])
  {
    var ss := StudentSource(sd);
    seq(|ss|, i requires 0 <= i < |ss| => StudentRow(ss[i]))
  }

  /** Where a student row is drawn: whether a page is added first, and its y. */
  datatype Placement = Placement(newPage: bool, y: int)

  /**
   * The student loop from row `i` on with the current `tableY`: a row whose
   * `tableY + 10 + 8 * index` passes 270 first adds a page and resets
   * `tableY` to 20; the row is then drawn at `tableY + 10 + 8 * (index % 25)`.
   */
  function Paginate(tableY: int, i: nat, n: nat): (ps: seq<Placement>)
    ensures |ps| == if i <= n then n - i else 0
    decreases n - i
  {
    if i >= n then []
    else
      var breaks := tableY + 10 + 8 * i > 270;
      var ty := if breaks then 20 else tableY;
      [Placement(breaks, ty + 10 + 8 * (i % 25))] + Paginate(ty, i + 1, n)
  }

  /** The layout of `n` student rows; the table starts at `tableY = 50`. */
  function StudentLayout(n: nat): (ps: seq<Placement>)
    ensures |ps| == n
  {
    Paginate(50, 0, n)
  }

  lemma {:induction false} PaginateBreaks(ty: int, i: nat, n: nat, j: nat)
    requires i <= j < n
    requires ty == if i <= 27 then 50 else 20
    ensures Paginate(ty, i, n)[j - i].newPage <==> j == 27 || j >= 31
    decreases j - i
  {
    var breaks := ty + 10 + 8 * i > 270;
    var ty' := if breaks then 20 else ty;
    assert Paginate(ty, i, n) == [Placement(breaks, ty' + 10 + 8 * (i % 25))] + Paginate(ty', i + 1, n);
    if j == i {
      assert breaks <==> i == 27 || i >= 31;
    } else {
      assert ty' == if i + 1 <= 27 then 50 else 20;
      PaginateBreaks(ty', i + 1, n, j);
    }
  }

  /**
   * The page break fires on row 27 (the first page holds rows 0..26), and
   * then, because `tableY` is reset to 20 and the row offset keeps growing,
   * on every row from 31 on: rows 28..30 share the second page and each
   * later row gets a page of its own.
   */
  lemma StudentPageBreaks(n: nat, j: nat)
    requires j < n
    ensures StudentLayout(n)[j].newPage <==> j == 27 || j >= 31
  {
    PaginateBreaks(50, 0, n, j);
  }

  lemma {:induction false} PaginateFirstPage(i: nat, n: nat, j: nat)
    requires i <= j < n && j <= 26
    ensures Paginate(50, i, n)[j - i] == Placement(false, 60 + 8 * (j % 25))
    decreases j - i
  {
    assert Paginate(50, i, n) == [Placement(false, 60 + 8 * (i % 25))] + Paginate(50, i + 1, n);
    if j > i {
      PaginateFirstPage(i + 1, n, j);
    }
  }

  /**
   * With 26 or more students, rows 25 and 0 are drawn on the first page at
   * the same height (the row offset wraps at 25 while the page does not),
   * and so are rows 26 and 1.
   */
  lemma StudentRowsOverlap(n: nat)
    requires n >= 26
    ensures !StudentLayout(n)[25].newPage && StudentLayout(n)[25].y == StudentLayout(n)[0].y
    ensures n >= 27 ==> !StudentLayout(n)[26].newPage && StudentLayout(n)[26].y == StudentLayout(n)[1].y
  {
    PaginateFirstPage(0, n, 0);
    PaginateFirstPage(0, n, 25);
    if n >= 27 {
      PaginateFirstPage(0, n, 1);
      PaginateFirstPage(0, n, 26);
    }
  }

  /** The comprehensive PDF's three tables and its file name. */
  datatype ComprehensivePdf = ComprehensivePdf(
    monthly: seq<seq<Cell>>, weekly: seq<seq<Cell>>, students: seq<seq<Cell>>,
    layout: seq<Placement>, fileName: string)

  /**
   * `generateComprehensivePDF`: the monthly table, the weekly table, the
   * student table placed by the pagination rule, and the dated file name.
   */
  function GeneratePdf(md: Option<MonthlyData>, wd: Option<seq<WeekData>>, sd: Option<seq<StudentEntry>>, today: Date): (r: ComprehensivePdf)
    ensures |r.monthly| == 5 && |r.students| == |r.layout| == |StudentSource(sd)|
    ensures r.monthly == PdfMonthlyRows(md) && r.weekly == PdfWeeklyRows(wd)
    ensures r.students == PdfStudentRows(sd) && r.layout == StudentLayout(|r.students|)
    ensures Split(r.fileName, '_') == ["Laporan", "Komprehensif", DdMmYyyy(today) + ".pdf"]
  {
    var students := PdfStudentRows(sd);
    ComprehensivePdf(PdfMonthlyRows(md), PdfWeeklyRows(wd), students, StudentLayout(|students|),
                     Filename("Komprehensif", today, ".pdf"))
  }

  // ---------------------------------------------------------------------------
  // The workbook
  // ---------------------------------------------------------------------------

  function ExcelMonthlyRow(md: MonthlyData, b: Bucket): seq<Cell> {
    [Str(Label(b)), Num(OrElse(md.Get(b), 0)), Pct(DivideOpt(md.Get(b), md.total))]
  }

  /**
   * The "Bulanan" status table: counts with `|| 0`, but percentages of the raw
   * fields, so a missing count or total gives NaN and a zero total Infinity.
   */
  function ExcelMonthlyRows(md: MonthlyData): (rows: seq<seq<Cell>>)
    ensures |rows| == 6
    ensures rows[0] == [Str("Status"), Str("Jumlah"), Str("Persentase")]
    ensures forall i :: 0 <= i < 4 ==> rows[i + 1] == ExcelMonthlyRow(md, Order[i])
    ensures rows[5] == [Str("Total"), Num(OrElse(md.total, 0)), Str("100%")]
  {
    [[Str("Status"), Str("Jumlah"), Str("Persentase")],
     ExcelMonthlyRow(md, Present), ExcelMonthlyRow(md, Sick), ExcelMonthlyRow(md, Permitted), ExcelMonthlyRow(md, Absent),
     [Str("Total"), Num(OrElse(md.total, 0)), Str("100%")]]
  }

  /**
   * The two formats disagree on a month without a total: the PDF shows each
   * count over 100, the workbook shows NaN.
   */
  lemma FormatsDisagreeWithoutTotal(md: MonthlyData, b: Bucket)
    requires md.total.None?
    ensures PdfMonthlyRow(Some(md), b)[2] == Pct(Ratio(OrElse(md.Get(b), 0), 100))
    ensures ExcelMonthlyRow(md, b)[2] == Pct(NotANumber)
  {
  }

  /** With a positive total and every count present, both formats show the same fraction. */
  lemma FormatsAgreeWithTotal(md: MonthlyData, b: Bucket)
    requires md.total.Some? && md.total.value > 0 && md.Get(b).Some?
    ensures PdfMonthlyRow(Some(md), b)[2] == ExcelMonthlyRow(md, b)[2]
  {
  }

  /** A weekly row of the workbook: label, the four counts and their sum. */
  function ExcelWeekRow(w: WeekData): (row: seq<Cell>)
    ensures |row| == 6 && row[0] == Str(w.week)
    ensures row[1] == Num(OrElse(w.hadir, 0)) && row[2] == Num(OrElse(w.sakit, 0))
    ensures row[3] == Num(OrElse(w.izin, 0)) && row[4] == Num(OrElse(w.alpha, 0))
    ensures row[5].Num? && row[5].n == row[1].n + row[2].n + row[3].n + row[4].n
  {
    var h, s, i, a := OrElse(w.hadir, 0), OrElse(w.sakit, 0), OrElse(w.izin, 0), OrElse(w.alpha, 0);
    [Str(StrOr(w.week, "")), Num(h), Num(s), Num(i), Num(a), Num(h + s + i + a)]
  }

  /** The footer every sheet ends with. */
  function Footer(school: SchoolInfo): (rows: seq<seq<Cell>>)
    ensures |rows| == 8
  {
    [[Str("")], [Str("")], [Str("Nama Alamat Sekolah")], [Str("")],
     [Str("Mengetahui,"), Str(""), Str("Wali Kelas")],
     [Str("Kepala Sekolah"), Str(""), Str("")],
     [Str(""), Str(""), Str("")],
     [Str(school.principalName), Str(""), Str("___________________")]]
  }

  function MonthlySheet(school: SchoolInfo, md: MonthlyData, nowMonth: string): (sh: Sheet)
    ensures sh.name == "Bulanan" && |sh.rows| == 22
    ensures sh.rows[8..14] == ExcelMonthlyRows(md)
  {
    var header := [[Str(Upper(school.name))], [Str(school.address)], [Str("NPSN: " + school.npsn)], [Str("")],
                   [Str("LAPORAN REKAPITULASI KEHADIRAN BULANAN")], [Str("Periode: " + StrOr(md.month, nowMonth))],
                   [Str("")], [Str("Rekapitulasi Kehadiran:")]];
    var rows := header + ExcelMonthlyRows(md) + Footer(school);
    assert rows[8..14] == ExcelMonthlyRows(md);
    Sheet("Bulanan", rows)
  }

  /**
   * The "Mingguan" sheet: the weekly data collected from the database is
   * never filled in, so the rows are the caller's weeks, one each, in order.
   */
  function WeeklySheet(school: SchoolInfo, ws: seq<WeekData>): (sh: Sheet)
    ensures sh.name == "Mingguan" && |sh.rows| == 4 + |ws| + 8
    ensures forall i :: 0 <= i < |ws| ==> sh.rows[4 + i] == ExcelWeekRow(ws[i])
  {
    var header := [[Str(school.name)], [Str("LAPORAN KEHADIRAN MINGGUAN")], [Str("")],
                   [Str("Minggu"), Str("Hadir"), Str("Sakit"), Str("Izin"), Str("Alpha"), Str("Total")]];
    var body := seq(|ws|, i requires 0 <= i < |ws| => ExcelWeekRow(ws[i]));
    Sheet("Mingguan", header + body + Footer(school))
  }

  /**
   * The "Per Siswa" sheet: its row list is a local array that is never
   * filled, so the sheet holds only its header and the footer, whatever
   * students the caller passed.
   */
  function StudentSheet(school: SchoolInfo): (sh: Sheet)
    ensures sh.name == "Per Siswa" && |sh.rows| == 12
    ensures sh.rows[4..] == Footer(school)
  {
    var header := [[Str(school.name)], [Str("LAPORAN KEHADIRAN PER SISWA")], [Str("")],
                   [Str("Nama"), Str("Kelas"), Str("Hadir"), Str("Sakit"), Str("Izin"), Str("Alpha"), Str("Total")]];
    Sheet("Per Siswa", header + Footer(school))
  }

  datatype Workbook = Workbook(sheets: seq<Sheet>, fileName: string)

  /**
   * The comprehensive workbook. A null `monthlyData` (read for its month
   * label) or a `weeklyData` that is not an array (mapped over) throws;
   * `studentData` is not read at all.
   */
  function GenerateWorkbook(school: SchoolInfo, md: Option<MonthlyData>, wd: Option<seq<WeekData>>,
                            nowMonth: string, today: Date): (r: Result<Workbook>)
    ensures r.Success? <==> md.Some? && wd.Some?
    ensures r.Success? ==> (|r.value.sheets| == 3 &&
      r.value.sheets[0] == MonthlySheet(school, md.value, nowMonth) &&
      r.value.sheets[1] == WeeklySheet(school, wd.value) &&
      r.value.sheets[2] == StudentSheet(school))
    ensures r.Success? ==> Split(r.value.fileName, '_') == ["Laporan", "Komprehensif", DdMmYyyy(today) + ".xlsx"]
  {
    if md.None? || wd.None? then Failure
    else
      Success(Workbook([MonthlySheet(school, md.value, nowMonth), WeeklySheet(school, wd.value), StudentSheet(school)],
                       Filename("Komprehensif", today, ".xlsx")))
  }
}
