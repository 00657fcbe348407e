/**
 * `generatePDF` and `generateExcel` of the report library: the refetch that
 * replaces the caller's counts by a fresh tally (with the `|| 1` divisor
 * guard), the five-row summary table with its `total || sum` divisor, the
 * Excel header rows and sheet name chosen by report type, and the
 * `Laporan_<type>_<dd-MM-yyyy>` file names.
 */
module ReportGenerator {

  import opened Common
  import opened Text
  import opened Status
  import opened Percent
  import opened Calendar
  import opened JsNumber

  datatype ReportKind = Monthly | ClassReport | StudentReport | Custom

  /** The `reportType` string interpolated into file names. */
  function KindName(k: ReportKind): (s: string)
    ensures |s| >= 2 && '_' !in s
  {
    match k
    case Monthly => "monthly"
    case ClassReport => "class"
    case StudentReport => "student"
    case Custom => "custom"
  }

  /** The school letterhead; a missing NIP is "". */
  datatype SchoolInfo = SchoolInfo(name: string, address: string, npsn: string, principalName: string, principalNip: string)

  /** The counts handed to a generator; `total`, `month` and `className` are optional. */
  datatype AttendanceData = AttendanceData(
    present: nat, sick: nat, permitted: nat, absent: nat,
    total: Option<nat>, month: Option<string>, className: Option<string>)
  {
    function Tallied(): Counts {
      Counts(present, sick, permitted, absent)
    }
  }

  datatype AdditionalInfo = AdditionalInfo(
    className: Option<string>, studentName: Option<string>, teacherName: Option<string>,
    schoolId: Option<string>, studentId: Option<string>)

  /** The `class` and `name` fields of a student document; missing is "". */
  datatype StudentDoc = StudentDoc(className: string, name: string)

  /**
   * A table cell: text, a count, a percentage before `toFixed(1)`, or a
   * labelled percentage `${name}: ${value}%`.
   */
  datatype Cell = Str(s: string) | Num(n: nat) | Pct(p: Percent) | Share(name: string, p: Percent)

  datatype Sheet = Sheet(name: string, rows: seq<seq<Cell>>)

  // ---------------------------------------------------------------------------
  // File names
  // ---------------------------------------------------------------------------

  /**
   * `Laporan_${tag}_${format(today, "dd-MM-yyyy")}${ext}`: the name splits at
   * `_` into "Laporan", the tag and the stamped rest, so the tag (the report
   * type) can be read back from the name.
   */
  function Filename(tag: string, today: Date, ext: string): (r: string)
    ensures '_' !in tag && '_' !in ext ==> Split(r, '_') == ["Laporan", tag, DdMmYyyy(today) + ext]
  {
    var rest := DdMmYyyy(today) + ext;
    StampNoUnderscore(today);
    if '_' !in tag && '_' !in ext then
      NameParts(tag, rest);
      "Laporan_" + tag + "_" + rest
    else "Laporan_" + tag + "_" + rest
  }

  lemma StampNoUnderscore(t: Date)
    ensures '_' !in DdMmYyyy(t)
  {
    var dd, mm, yy := TwoDigits(t.day), TwoDigits(t.month), YearDigits(t.year);
    assert DdMmYyyy(t) == dd + "-" + mm + "-" + yy;
    assert forall i :: 0 <= i < |DdMmYyyy(t)| ==> IsDigit(DdMmYyyy(t)[i]) || DdMmYyyy(t)[i] == '-';
  }

  lemma NameParts(tag: string, rest: string)
    requires '_' !in tag && '_' !in rest
    ensures Split("Laporan_" + tag + "_" + rest, '_') == ["Laporan", tag, rest]
  {
    assert "Laporan_" + tag + "_" + rest == "Laporan" + ['_'] + (tag + ['_'] + rest);
    assert '_' !in "Laporan";
    SplitConcat("Laporan", tag + ['_'] + rest, '_');
    SplitConcat(tag, rest, '_');
    SplitNoSeparator(rest, '_');
  }

  /** Reports of different types never share a file name. */
  lemma FilenameDistinguishesKinds(k1: ReportKind, k2: ReportKind, t1: Date, t2: Date, ext: string)
    requires '_' !in ext && k1 != k2
    ensures Filename(KindName(k1), t1, ext) != Filename(KindName(k2), t2, ext)
  {
  }

  // ---------------------------------------------------------------------------
  // generatePDF: refetching the counts
  // ---------------------------------------------------------------------------

  /** `info.className = doc.class || info.className`, and the same for the name. */
  function MergeStudentDoc(info: AdditionalInfo, doc: StudentDoc): (r: AdditionalInfo)
    ensures doc.className != "" ==> r.className == Some(doc.className)
    ensures doc.name != "" ==> r.studentName == Some(doc.name)
    ensures r.(className := info.className, studentName := info.studentName) == info
    ensures doc.className == "" ==> r.className == info.className
    ensures doc.name == "" ==> r.studentName == info.studentName
  {
    info.(className := if doc.className != "" then Some(doc.className) else info.className,
          studentName := if doc.name != "" then Some(doc.name) else info.studentName)
  }

  /** Merging the same document twice changes nothing more. */
  lemma MergeStudentDocIdempotent(info: AdditionalInfo, doc: StudentDoc)
    ensures MergeStudentDoc(MergeStudentDoc(info, doc), doc) == MergeStudentDoc(info, doc)
  {
  }

  /**
   * Store a fresh tally: the four counts, and `total = sum || 1`, so the
   * divisor is never zero.
   */
  function WithCounts(data: AttendanceData, c: Counts): (r: AttendanceData)
    ensures r.Tallied() == c
    ensures r.total.Some? && r.total.value >= 1
    ensures c.Sum() > 0 ==> r.total.value == c.Sum()
    ensures c.Sum() == 0 ==> r.total.value == 1
    ensures r.month == data.month && r.className == data.className
  {
    data.(present := c.present, sick := c.sick, permitted := c.permitted, absent := c.absent,
          total := Some(NatOr(c.Sum(), 1)))
  }

  /** The records of several queries one after the other. */
  function Flatten(bs: seq<seq<AttendanceRecord>>): (rs: seq<AttendanceRecord>)
    ensures |bs| > 0 ==> rs == bs[0] + Flatten(bs[1..])
  {
    if |bs| == 0 then [] else bs[0] + Flatten(bs[1..])
  }

  lemma {:induction false} FlattenAppend(a: seq<seq<AttendanceRecord>>, b: seq<seq<AttendanceRecord>>)
    ensures Flatten(a + b) == Flatten(a) + Flatten(b)
  {
    if |a| > 0 {
      assert (a + b)[1..] == a[1..] + b;
      FlattenAppend(a[1..], b);
      calc {
        Flatten(a + b);
        a[0] + Flatten(a[1..] + b);
        a[0] + (Flatten(a[1..]) + Flatten(b));
        (a[0] + Flatten(a[1..])) + Flatten(b);
      }
    } else {
      assert a + b == b;
    }
  }

  /**
   * The class report: one attendance query per student, all counted into
   * shared counters; counting query by query is counting all the fetched
   * records at once.
   */
  function ClassTally(bs: seq<seq<AttendanceRecord>>): (c: Counts)
    ensures c == Tally(Flatten(bs))
  {
    if |bs| == 0 then Zero
    else
      var rest := ClassTally(bs[1..]);
      TallyAppend(bs[0], Flatten(bs[1..]));
      Tally(bs[0]).Add(rest)
  }

  /**
   * The order in which the `Promise.all` callbacks run does not matter: the
   * counters come out the same whichever batch of queries finishes first.
   */
  lemma ClassTallyOrder(a: seq<seq<AttendanceRecord>>, b: seq<seq<AttendanceRecord>>)
    ensures ClassTally(a + b) == ClassTally(b + a)
  {
    FlattenAppend(a, b);
    FlattenAppend(b, a);
    TallyAppend(Flatten(a), Flatten(b));
    TallyAppend(Flatten(b), Flatten(a));
  }

  /** The lower-case Indonesian month names the monthly refetch looks a word up in. */
  const MonthNames: seq<string> := [
    "januari", "februari", "maret", "april", "mei", "juni",
    "juli", "agustus", "september", "oktober", "november", "desember"]

  /** `names.findIndex(m => m === w)` from position `from` on. */
  function FindName(names: seq<string>, w: string, from: nat): (r: Option<nat>)
    ensures r.Some? ==> from <= r.value < |names| && names[r.value] == w
    ensures r.Some? ==> forall j :: from <= j < r.value ==> names[j] != w
    ensures r.None? ==> forall j :: from <= j < |names| ==> names[j] != w
    decreases |names| - from
  {
    if from >= |names| then None
    else if names[from] == w then Some(from)
    else FindName(names, w, from + 1)
  }

  /** The month a word names, compared without regard to case. */
  function MonthIndex(word: string): (r: Option<nat>)
    ensures r.Some? ==> r.value < 12 && MonthNames[r.value] == Lower(word)
    ensures r.None? <==> Lower(word) !in MonthNames
  {
    FindName(MonthNames, Lower(word), 0)
  }

  /**
   * The month the monthly refetch counts for a label `"<year> <month>"`, or
   * None when it is skipped: the label has no second word (the `TypeError`
   * is caught), the second word is not a month name, or `new Date` of the
   * first word's `parseInt` is invalid for that month's first or last day,
   * because the word reads as NaN or the year lies beyond the Date range
   * (`toISOString` throws a `RangeError`, and it is caught).
   */
  function MonthlyTarget(monthLabel: string): (r: Option<nat>)
    ensures r.Some? ==> r.value < 12
    ensures r.Some? ==> |Split(monthLabel, ' ')| >= 2 && r == MonthIndex(Split(monthLabel, ' ')[1])
    ensures r.Some? ==> (ParseInt(Split(monthLabel, ' ')[0]).Some? &&
                         MinYear <= JsYear(ParseInt(Split(monthLabel, ' ')[0]).value) <= MaxYear)
  {
    var parts := Split(monthLabel, ' ');
    if |parts| < 2 then None
    else match MonthIndex(parts[1])
      case None => None
      case Some(i) =>
        match ParseInt(parts[0])
        case None => None
        case Some(y) => MonthInTimeRangeYears(y, i); if MonthInTimeRange(y, i) then Some(i) else None
  }

  /**
   * The refetch fires exactly for a month name after a word that `parseInt`
   * reads as a year whose month lies in the Date range: any month of the
   * years strictly between -271821 and 275760, January to August of 275760,
   * May to December of -271821.
   */
  lemma MonthlyTargetYears(monthLabel: string)
    ensures var parts := Split(monthLabel, ' ');
      MonthlyTarget(monthLabel).Some? <==>
        |parts| >= 2 && MonthIndex(parts[1]).Some? && ParseInt(parts[0]).Some? &&
        var yr, i := JsYear(ParseInt(parts[0]).value), MonthIndex(parts[1]).value;
        (MinYear < yr < MaxYear) || (yr == MaxYear && i <= 7) || (yr == MinYear && i >= 4)
  {
    var parts := Split(monthLabel, ' ');
    if |parts| >= 2 && MonthIndex(parts[1]).Some? && ParseInt(parts[0]).Some? {
      MonthInTimeRangeYears(ParseInt(parts[0]).value, MonthIndex(parts[1]).value);
    }
  }

  /** A label of two space-free words splits into those words. */
  lemma LabelWords(first: string, second: string)
    requires ' ' !in first && ' ' !in second
    ensures Split(first + " " + second, ' ') == [first, second]
  {
    assert first + " " + second == first + [' '] + second;
    SplitConcat(first, second, ' ');
    SplitNoSeparator(second, ' ');
  }

  /**
   * White space before the year, such as a tab or a no-break space, is
   * skipped as `parseInt` skips it: "\t2025 mei" counts May 2025.
   */
  lemma LeadingSpaceIgnored(c: char, year: string, name: string)
    requires IsJsSpace(c) && c != ' ' && ' ' !in year && ' ' !in name
    ensures MonthlyTarget([c] + year + " " + name) == MonthlyTarget(year + " " + name)
  {
    LabelWords([c] + year, name);
    LabelWords(year, name);
    SkipsSpace(c, year);
  }

  /**
   * A decimal year past 275760 lies beyond the Date range: `toISOString`
   * throws and the refetch is skipped, as for "300000 mei".
   */
  lemma DistantYearSkipsRefetch(year: string, name: string)
    requires |year| > 0 && AllDigits(year) && ParseDigits(year) > MaxYear && ' ' !in name
    ensures MonthlyTarget(year + " " + name).None?
  {
    assert ' ' !in year;
    LabelWords(year, name);
    DecimalYear(year);
    if MonthIndex(name).Some? {
      MonthInTimeRangeYears(ParseDigits(year), MonthIndex(name).value);
    }
  }

  /** In 275760 the Date range ends on 13 September: January to August are counted, later months are not. */
  lemma LastYearOfRange(year: string, name: string, i: nat)
    requires |year| > 0 && AllDigits(year) && ParseDigits(year) == MaxYear && ' ' !in name
    requires i < 12 && Lower(name) == MonthNames[i]
    ensures MonthlyTarget(year + " " + name) == if i <= 7 then Some(i) else None
  {
    assert ' ' !in year;
    DecimalYear(year);
    MonthInTimeRangeYears(MaxYear, i);
    LabelTarget(year, name, MaxYear, i);
  }

  /** The target of a two-word label, from the year the first word reads as and the month the second names. */
  lemma LabelTarget(year: string, name: string, y: int, i: nat)
    requires ' ' !in year && ' ' !in name
    requires ParseInt(year) == Some(y) && i < 12 && MonthNames[i] == Lower(name)
    ensures MonthlyTarget(year + " " + name) == if MonthInTimeRange(y, i) then Some(i) else None
  {
    LabelWords(year, name);
    MonthNamesDistinct(i, MonthIndex(name));
  }

  /** The month names are distinct, so a name's index is the one it was found at. */
  lemma MonthNamesDistinct(i: nat, found: Option<nat>)
    requires i < 12 && found == FindName(MonthNames, MonthNames[i], 0)
    ensures found == Some(i)
  {
  }

  /** A word of decimal digits reads as its decimal value. */
  lemma DecimalYear(year: string)
    requires |year| > 0 && AllDigits(year)
    ensures ParseInt(year) == Some(ParseDigits(year))
  {
    assert year + "" == year;
    DecimalPrefix(year, "");
  }

  lemma MonthNamesStartWithLetters()
    ensures forall i :: 0 <= i < |MonthNames| ==> |MonthNames[i]| > 0 && !IsDigit(MonthNames[i][0])
  {
  }

  /**
   * The labels the pages pass, `format(month, "MMMM yyyy")` such as
   * "Mei 2025", never trigger the refetch: the second word is the year, and
   * no month name is made of digits.
   */
  lemma CallerLabelSkipsRefetch(name: string, year: string)
    requires ' ' !in name && AllDigits(year)
    ensures MonthlyTarget(name + " " + year).None?
  {
    assert ' ' !in year;
    SplitConcat(name, year, ' ');
    assert name + " " + year == name + [' '] + year;
    SplitNoSeparator(year, ' ');
    assert Split(name + " " + year, ' ') == [name, year];
    LowerIdentity(year);
    MonthNamesStartWithLetters();
  }

  /** A label written year first, "2025 Mei", does select that month. */
  lemma YearFirstLabelRefetches(year: string, name: string, i: nat)
    requires |year| > 0 && AllDigits(year) && ParseDigits(year) < MaxYear && ' ' !in name
    requires i < 12 && Lower(name) == MonthNames[i]
    ensures MonthlyTarget(year + " " + name).Some?
    ensures MonthNames[MonthlyTarget(year + " " + name).value] == MonthNames[i]
  {
    assert ' ' !in year;
    DecimalYear(year);
    MonthInTimeRangeYears(ParseDigits(year), i);
    LabelTarget(year, name, ParseDigits(year), i);
  }

  /**
   * Where the reads of `generatePDF` stopped. `EarlyFailure`: a read threw
   * before anything was stored (the school or student document, the class or
   * month queries). `RecordsFailure`: the student's attendance query threw
   * after the student document had already been merged into the details.
   */
  datatype ReadFailure = NoFailure | EarlyFailure | RecordsFailure

  /**
   * The reads `generatePDF` performs, as inputs: where they failed, if they
   * did, the student document (None when it does not exist), the student's
   * attendance, one result per class member's query, and the month's attendance.
   */
  datatype Snapshot = Snapshot(
    failure: ReadFailure,
    studentDoc: Option<StudentDoc>,
    studentRecords: seq<AttendanceRecord>,
    classBatches: seq<seq<AttendanceRecord>>,
    monthRecords: seq<AttendanceRecord>)

  datatype Prepared = Prepared(data: AttendanceData, info: AdditionalInfo)

  /** The student report found its student document: the details are merged before the attendance query. */
  predicate FoundStudent(kind: ReportKind, info: AdditionalInfo, snap: Snapshot) {
    kind == StudentReport && Truthy(info.studentId) && snap.studentDoc.Some?
  }

  /**
   * The data-refresh step of `generatePDF`: with a school id and no failed
   * read, a student, class or monthly report replaces the caller's counts by
   * the tally of the records it fetched. A failed read keeps the caller's
   * counts; the student document, once read, stays merged into the details.
   */
  function Refetch(kind: ReportKind, data: AttendanceData, info: AdditionalInfo, snap: Snapshot): (p: Prepared)
    ensures p.data.month == data.month && p.data.className == data.className
    ensures p.data == data || (p.data.total.Some? && p.data.total.value >= 1)
    ensures kind == Custom || !Truthy(info.schoolId) || snap.failure == EarlyFailure ==> p == Prepared(data, info)
  {
    if !Truthy(info.schoolId) || snap.failure == EarlyFailure then Prepared(data, info)
    else match kind
      case StudentReport =>
        if Truthy(info.studentId) && snap.studentDoc.Some? then
          var merged := MergeStudentDoc(info, snap.studentDoc.value);
          if snap.failure == RecordsFailure then Prepared(data, merged)
          else Prepared(WithCounts(data, Tally(snap.studentRecords)), merged)
        else Prepared(data, info)
      case ClassReport =>
        if Truthy(info.className) && snap.failure == NoFailure then
          Prepared(WithCounts(data, ClassTally(snap.classBatches)), info)
        else Prepared(data, info)
      case Monthly =>
        if Truthy(data.month) && MonthlyTarget(data.month.value).Some? && snap.failure == NoFailure then
          Prepared(WithCounts(data, Tally(snap.monthRecords)), info)
        else Prepared(data, info)
      case Custom => Prepared(data, info)
  }

  /**
   * A failed read keeps the caller's counts. The details change only when a
   * student report found its student document, and then they hold the merged
   * document even if the attendance query after it threw.
   */
  lemma RefetchOnFailure(kind: ReportKind, data: AttendanceData, info: AdditionalInfo, snap: Snapshot)
    ensures snap.failure != NoFailure ==> Refetch(kind, data, info, snap).data == data
    ensures Truthy(info.schoolId) && snap.failure != EarlyFailure && FoundStudent(kind, info, snap) ==>
      Refetch(kind, data, info, snap).info == MergeStudentDoc(info, snap.studentDoc.value)
    ensures !(Truthy(info.schoolId) && snap.failure != EarlyFailure && FoundStudent(kind, info, snap)) ==>
      Refetch(kind, data, info, snap).info == info
  {
  }

  /**
   * Without a failed read the counts still stay the caller's when the report
   * type's refetch does not fire: a student report without a student id or
   * without a student document, a class report without a class name, and a
   * monthly report whose label names no month.
   */
  lemma RefetchSkipped(kind: ReportKind, data: AttendanceData, info: AdditionalInfo, snap: Snapshot)
    requires snap.failure == NoFailure
    ensures kind == StudentReport && (!Truthy(info.studentId) || snap.studentDoc.None?) ==>
      Refetch(kind, data, info, snap) == Prepared(data, info)
    ensures kind == ClassReport && !Truthy(info.className) ==>
      Refetch(kind, data, info, snap) == Prepared(data, info)
    ensures kind == Monthly && (!Truthy(data.month) || MonthlyTarget(data.month.value).None?) ==>
      Refetch(kind, data, info, snap) == Prepared(data, info)
  {
  }

  /**
   * What the refetch counts for each report type, in terms of all the records
   * it read: the four counts are their tally, and `total` is the tally's sum,
   * or 1 when no record had a recognised status.
   */
  lemma RefetchTallies(kind: ReportKind, data: AttendanceData, info: AdditionalInfo, snap: Snapshot)
    requires Truthy(info.schoolId) && snap.failure == NoFailure
    ensures kind == StudentReport && Truthy(info.studentId) && snap.studentDoc.Some? ==>
      Refetch(kind, data, info, snap).data == WithCounts(data, Tally(snap.studentRecords)) &&
      Refetch(kind, data, info, snap).data.total == Some(NatOr(Tally(snap.studentRecords).Sum(), 1))
    ensures kind == ClassReport && Truthy(info.className) ==>
      Refetch(kind, data, info, snap).data == WithCounts(data, Tally(Flatten(snap.classBatches))) &&
      Refetch(kind, data, info, snap).data.total == Some(NatOr(Tally(Flatten(snap.classBatches)).Sum(), 1))
    ensures kind == Monthly && Truthy(data.month) && MonthlyTarget(data.month.value).Some? ==>
      Refetch(kind, data, info, snap).data == WithCounts(data, Tally(snap.monthRecords)) &&
      Refetch(kind, data, info, snap).data.total == Some(NatOr(Tally(snap.monthRecords).Sum(), 1))
  {
  }

  /** With the pages' own month labels a monthly report keeps the caller's counts. */
  lemma MonthlyRefetchSkipped(data: AttendanceData, info: AdditionalInfo, snap: Snapshot, name: string, year: string)
    requires data.month == Some(name + " " + year)
    requires ' ' !in name && AllDigits(year)
    ensures Refetch(Monthly, data, info, snap) == Prepared(data, info)
  {
    CallerLabelSkipsRefetch(name, year);
  }

  // ---------------------------------------------------------------------------
  // The summary table (PDF and Excel)
  // ---------------------------------------------------------------------------

  /** `attendanceData.total || (present + sick + permitted + absent)`. */
  function TableTotal(d: AttendanceData): (t: nat)
    ensures d.total.Some? && d.total.value > 0 ==> t == d.total.value
    ensures (d.total.None? || d.total.value == 0) ==> t == d.Tallied().Sum()
  {
    OrElse(d.total, d.Tallied().Sum())
  }

  /** The bucket order of every table: Hadir, Sakit, Izin, Alpha. */
  const Order: seq<Bucket> := [Present, Sick, Permitted, Absent]

  /** A status row: label, count, and the count over the table's divisor. */
  function BucketRow(b: Bucket, c: Counts, t: nat): seq<Cell> {
    [Str(Label(b)), Num(c.Get(b)), Pct(Divide(c.Get(b), t))]
  }

  /** The Hadir/Sakit/Izin/Alpha rows and the Total row, which always reads "100%". */
  function SummaryRows(d: AttendanceData): (rows: seq<seq<Cell>>)
    ensures |rows| == 5
    ensures forall i :: 0 <= i < 4 ==> |rows[i]| == 3 && rows[i][0] == Str(Label(Order[i])) && rows[i][1] == Num(d.Tallied().Get(Order[i]))
    ensures rows[4] == [Str("Total"), Num(TableTotal(d)), Str("100%")]
  {
    var t, c := TableTotal(d), d.Tallied();
    [BucketRow(Present, c, t), BucketRow(Sick, c, t), BucketRow(Permitted, c, t), BucketRow(Absent, c, t),
     [Str("Total"), Num(t), Str("100%")]]
  }

  /** The numerator a percentage cell shows over its denominator, 0 if none. */
  function PctNum(c: Cell): nat {
    if c.Pct? && c.p.Ratio? then c.p.num else 0
  }

  /** The four numerators of the percentage column. */
  function ShownSum(rows: seq<seq<Cell>>): nat
    requires |rows| >= 4 && forall i :: 0 <= i < 4 ==> |rows[i]| == 3
  {
    PctNum(rows[0][2]) + PctNum(rows[1][2]) + PctNum(rows[2][2]) + PctNum(rows[3][2])
  }

  /** The percentage cells of the four status rows, in bucket order. */
  lemma PercentCells(d: AttendanceData)
    ensures forall i :: 0 <= i < 4 ==> SummaryRows(d)[i][2] == Pct(Divide(d.Tallied().Get(Order[i]), TableTotal(d)))
  {
  }

  /** A table total of 0 shows NaN in every percentage cell. */
  lemma SummaryNotANumber(d: AttendanceData)
    requires TableTotal(d) == 0
    ensures forall i :: 0 <= i < 4 ==> SummaryRows(d)[i][2] == Pct(NotANumber)
  {
    var c := d.Tallied();
    assert c.present == 0 && c.sick == 0 && c.permitted == 0 && c.absent == 0 by {
      assert c.Sum() == 0;
    }
    PercentCells(d);
    forall i | 0 <= i < 4 ensures c.Get(Order[i]) == 0 { }
  }




  /**
   * Otherwise the four percentages are exact fractions over the table total,
   * and they add up to the "100%" of the Total row exactly when `total` was
   * absent, 0, or equal to the sum of the four counts.
   */
  lemma SummaryPercentages(d: AttendanceData)
    requires TableTotal(d) > 0
    ensures forall i :: 0 <= i < 4 ==> SummaryRows(d)[i][2] == Pct(Ratio(d.Tallied().Get(Order[i]), TableTotal(d)))
    ensures ShownSum(SummaryRows(d)) == TableTotal(d) <==>
      d.total.None? || d.total.value == 0 || d.total.value == d.Tallied().Sum()
  {
    PercentCells(d);
    var rows, c := SummaryRows(d), d.Tallied();
    assert ShownSum(rows) == c.Sum();
  }

  /**
   * After a refetch that replaced the counts the table is always finite, and
   * its percentages add up to the Total row's "100%" exactly when at least
   * one fetched record had a recognised status.
   */
  lemma RefetchedSummary(kind: ReportKind, data: AttendanceData, info: AdditionalInfo, snap: Snapshot)
    requires Refetch(kind, data, info, snap).data != data
    ensures var d := Refetch(kind, data, info, snap).data;
      TableTotal(d) >= 1 &&
      (ShownSum(SummaryRows(d)) == TableTotal(d) <==> d.Tallied().Sum() > 0)
  {
    var d := Refetch(kind, data, info, snap).data;
    SummaryPercentages(d);
  }

  // ---------------------------------------------------------------------------
  // generateExcel
  // ---------------------------------------------------------------------------

  /** How many title rows each report type adds to the Excel header. */
  function ExtraHeaderRows(kind: ReportKind): nat {
    match kind
    case Monthly => 1
    case ClassReport => 1
    case StudentReport => 3
    case Custom => 0
  }

  /**
   * The Excel header: five letterhead rows, the rows the report type selects,
   * a blank row and "Rekapitulasi Kehadiran:". `nowMonth` is the
   * `MMMM yyyy` label of the current month.
   */
  function ExcelHeader(kind: ReportKind, school: SchoolInfo, data: AttendanceData, info: AdditionalInfo, nowMonth: string): (rows: seq<seq<Cell>>)
    ensures |rows| == 7 + ExtraHeaderRows(kind)
  {
    var letterhead := [[Str(school.name)], [Str("Nama Alamat Sekolah")], [Str("NPSN: " + school.npsn)],
                       [Str("")], [Str("LAPORAN REKAPITULASI KEHADIRAN SISWA")]];
    var extra := match kind
      case Monthly => [[Str("BULAN " + StrOr(Upper(data.month.GetOr("")), Upper(nowMonth)))]]
      case ClassReport => [[Str("KELAS: " + Upper(info.className.GetOr("")))]]
      case StudentReport => [[Str("LAPORAN REKAPITULASI KEHADIRAN")], [Str("BULAN: " + Upper(nowMonth))],
                             [Str("NAMA SISWA: " + Upper(info.studentName.GetOr("")))]]
      case Custom => [];
    letterhead + extra + [[Str("")], [Str("Rekapitulasi Kehadiran:")]]
  }

  /**
   * The letterhead and closing rows are the same for every report type; the
   * title row the type selects names the month (the current one when the
   * data has none), the class, or the student.
   */
  lemma ExcelHeaderRows(kind: ReportKind, school: SchoolInfo, data: AttendanceData, info: AdditionalInfo, nowMonth: string)
    ensures var rows := ExcelHeader(kind, school, data, info, nowMonth);
      rows[0] == [Str(school.name)] && rows[4] == [Str("LAPORAN REKAPITULASI KEHADIRAN SISWA")] &&
      rows[|rows| - 1] == [Str("Rekapitulasi Kehadiran:")]
    ensures kind == Monthly && Truthy(data.month) ==>
      ExcelHeader(kind, school, data, info, nowMonth)[5] == [Str("BULAN " + Upper(data.month.value))]
    ensures kind == Monthly && !Truthy(data.month) ==>
      ExcelHeader(kind, school, data, info, nowMonth)[5] == [Str("BULAN " + Upper(nowMonth))]
    ensures kind == ClassReport ==>
      ExcelHeader(kind, school, data, info, nowMonth)[5] == [Str("KELAS: " + Upper(info.className.GetOr("")))]
    ensures kind == StudentReport ==>
      ExcelHeader(kind, school, data, info, nowMonth)[7] == [Str("NAMA SISWA: " + Upper(info.studentName.GetOr("")))]
  {
  }

  /**
   * The worksheet name: "Laporan Bulanan", "Laporan Kelas <class>" (the text
   * "undefined" when there is no class), and "Laporan Siswa" for the rest.
   */
  function SheetName(kind: ReportKind, className: Option<string>): (s: string)
    ensures |s| >= 13 && s[..8] == "Laporan "
  {
    match kind
    case Monthly => "Laporan Bulanan"
    case ClassReport => "Laporan Kelas " + (if className.Some? then className.value else "undefined")
    case _ => "Laporan Siswa"
  }

  /** Two report types share a sheet name exactly when they are the student and custom types. */
  lemma SheetNameShared(k1: ReportKind, k2: ReportKind, c1: Option<string>, c2: Option<string>)
    requires k1 != k2
    ensures SheetName(k1, c1) == SheetName(k2, c2) <==> (k1 == StudentReport && k2 == Custom) || (k1 == Custom && k2 == StudentReport)
  {
    var s1, s2 := SheetName(k1, c1), SheetName(k2, c2);
    if k1 == ClassReport || k2 == ClassReport || k1 == Monthly || k2 == Monthly {
      assert s1[8] != s2[8] || s1[9] != s2[9];
    }
  }

  /** The eleven rows of the signature block. */
  function SignatureRows(school: SchoolInfo, info: AdditionalInfo, downloadDate: string): (rows: seq<seq<Cell>>)
    ensures |rows| == 11 && |rows[8]| == 5 && |rows[9]| == 5
    ensures rows[8][4] == Str(StrOr(info.teacherName.GetOr(""), "___________________"))
    ensures rows[9][0] == Str("NIP: " + StrOr(school.principalNip, "-"))
  {
    var blank5 := [Str(""), Str(""), Str(""), Str(""), Str("")];
    [[Str("")], [Str("")], [Str("Di unduh pada: " + downloadDate)], [Str("")],
     [Str("Mengetahui,"), Str(""), Str(""), Str(""), Str("Administrator Sekolah")],
     [Str("Kepala Sekolah"), Str(""), Str(""), Str(""), Str(school.name)],
     blank5, blank5,
     [Str(school.principalName), Str(""), Str(""), Str(""), Str(StrOr(info.teacherName.GetOr(""), "___________________"))],
     [Str("NIP: " + StrOr(school.principalNip, "-")), Str(""), Str(""), Str(""), Str("NIP: -")],
     blank5]
  }

  /** The column titles above the status rows of the Excel table. */
  const TableHead: seq<Cell> := [Str("Status"), Str("Jumlah"), Str("Persentase")]

  /** `[...headerData, ...attendanceRows, ...signatureData]`. */
  function Assemble(header: seq<seq<Cell>>, data: AttendanceData, signature: seq<seq<Cell>>): (rows: seq<seq<Cell>>)
    ensures |rows| == |header| + 6 + |signature|
    ensures rows[..|header|] == header && rows[|header|] == TableHead
    ensures rows[|header| + 1..|header| + 6] == SummaryRows(data)
    ensures rows[|header| + 6..] == signature
  {
    var rows := header + [TableHead] + SummaryRows(data) + signature;
    assert rows == (header + [TableHead]) + SummaryRows(data) + signature;
    rows
  }

  /**
   * The student lookup at the start of `generateExcel`: only a student
   * report with a school and a student id merges the document (None when it
   * is missing or its read failed).
   */
  function ExcelInfo(kind: ReportKind, info: AdditionalInfo, doc: Option<StudentDoc>): (r: AdditionalInfo)
    ensures kind != StudentReport || !Truthy(info.schoolId) || !Truthy(info.studentId) || doc.None? ==> r == info
    ensures kind == StudentReport && Truthy(info.schoolId) && Truthy(info.studentId) && doc.Some? ==>
      r == MergeStudentDoc(info, doc.value)
  {
    if kind == StudentReport && Truthy(info.schoolId) && Truthy(info.studentId) && doc.Some?
    then MergeStudentDoc(info, doc.value) else info
  }

  datatype ExcelFile = ExcelFile(sheet: Sheet, fileName: string)

  /** The characters `XLSX.utils.book_append_sheet` refuses in a sheet name. */
  const SheetNameForbidden: set<char> := {':', '\\', '/', '?', '*', '[', ']'}

  /** A sheet name `book_append_sheet` accepts: at most 31 characters, none of them forbidden. */
  predicate ValidSheetName(name: string) {
    |name| <= 31 && forall i :: 0 <= i < |name| ==> name[i] !in SheetNameForbidden
  }

  /**
   * `generateExcel`: the header, summary and signature rows in one sheet, and
   * the dated file name. Appending a sheet whose name the library refuses
   * throws, and no file is written.
   */
  function GenerateExcel(kind: ReportKind, school: SchoolInfo, data: AttendanceData, info: AdditionalInfo,
                         doc: Option<StudentDoc>, nowMonth: string, downloadDate: string, today: Date): (r: Result<ExcelFile>)
    ensures r.Success? <==> ValidSheetName(SheetName(kind, ExcelInfo(kind, info, doc).className))
    ensures r.Success? ==> var h := 7 + ExtraHeaderRows(kind);
      |r.value.sheet.rows| == h + 17 && r.value.sheet.rows[h] == TableHead &&
      r.value.sheet.rows[h + 1..h + 6] == SummaryRows(data)
    ensures r.Success? && kind != StudentReport ==> r.value.sheet.name == SheetName(kind, info.className)
    ensures r.Success? ==> Split(r.value.fileName, '_') == ["Laporan", KindName(kind), DdMmYyyy(today) + ".xlsx"]
  {
    var info' := ExcelInfo(kind, info, doc);
    var name := SheetName(kind, info'.className);
    if !ValidSheetName(name) then Failure
    else
      var rows := Assemble(ExcelHeader(kind, school, data, info', nowMonth), data, SignatureRows(school, info', downloadDate));
      Success(ExcelFile(Sheet(name, rows), Filename(KindName(kind), today, ".xlsx")))
  }

  /**
   * Only a class report can fail on its sheet name: it does exactly when the
   * class name is longer than 17 characters or holds a forbidden character,
   * as "X/IPA 1" does.
   */
  lemma SheetNameAccepted(kind: ReportKind, className: Option<string>)
    ensures kind != ClassReport ==> ValidSheetName(SheetName(kind, className))
    ensures kind == ClassReport ==> var c := className.GetOr("undefined");
      ValidSheetName(SheetName(kind, className)) <==>
        |c| <= 17 && forall i :: 0 <= i < |c| ==> c[i] !in SheetNameForbidden
  {
    if kind == ClassReport {
      var c := className.GetOr("undefined");
      var name := SheetName(kind, className);
      assert name == "Laporan Kelas " + c;
      assert forall i :: 0 <= i < |c| ==> name[14 + i] == c[i];
      assert forall i :: 0 <= i < 14 ==> name[i] !in SheetNameForbidden;
    }
  }

  /** A class name with a slash, such as "X/IPA 1", makes `generateExcel` throw. */
  lemma SlashedClassFails(school: SchoolInfo, data: AttendanceData, info: AdditionalInfo, doc: Option<StudentDoc>,
                          nowMonth: string, downloadDate: string, today: Date)
    requires info.className == Some("X/IPA 1")
    ensures GenerateExcel(ClassReport, school, data, info, doc, nowMonth, downloadDate, today).Failure?
  {
    SheetNameAccepted(ClassReport, info.className);
    assert "X/IPA 1"[1] == '/';
  }

  /** The PDF's file name, as `GenerateExcel`'s but with ".pdf". */
  function PdfFilename(kind: ReportKind, today: Date): (name: string)
    ensures Split(name, '_') == ["Laporan", KindName(kind), DdMmYyyy(today) + ".pdf"]
  {
    Filename(KindName(kind), today, ".pdf")
  }
}
