/**
 * The admin dashboard: the students-per-class bar chart, the attendance
 * distribution pie derived from the attendance rate, and the per-row display
 * of the recent-attendance table (status label and badge, reversed date,
 * note fallback).
 */
module AdminDashboard {

  import opened Common
  import opened Text
  import opened Status
  import opened Calendar
  import AttendanceHistory
  import TeacherDashboard

  // ---------------------------------------------------------------------------
  // Students per class
  // ---------------------------------------------------------------------------

  /** A bar of the class chart: `{ name, students }`. */
  datatype ClassItem = ClassItem(name: string, students: nat)

  /** One bar per class document with a truthy name, in query order, each at 0. */
  function Bars(names: seq<string>): (items: seq<ClassItem>)
    ensures |items| == |AttendanceHistory.Named(names)|
    ensures forall i :: 0 <= i < |items| ==> items[i] == ClassItem(AttendanceHistory.Named(names)[i], 0)
  {
    var ns := AttendanceHistory.Named(names);
    seq(|ns|, i requires 0 <= i < |ns| => ClassItem(ns[i], 0))
  }

  /**
   * `classMap[name]`: the map is filled in list order, so a name shared by
   * several bars points at the last of them.
   */
  function LastIndex(items: seq<ClassItem>, name: string): (r: Option<nat>)
    ensures r.Some? ==> r.value < |items| && items[r.value].name == name
    ensures r.Some? ==> forall j :: r.value < j < |items| ==> items[j].name != name
    ensures r.None? <==> forall j :: 0 <= j < |items| ==> items[j].name != name
    decreases |items|
  {
    if |items| == 0 then None
    else if items[|items| - 1].name == name then Some(|items| - 1)
    else LastIndex(items[..|items| - 1], name)
  }

  /** No later bar has the same name: the bar the map points at. */
  predicate IsLast(items: seq<ClassItem>, i: nat)
    requires i < |items|
  {
    forall j :: i < j < |items| ==> items[j].name != items[i].name
  }

  /** The map points at bar `i` for `name` exactly when `i` is the last bar so named. */
  lemma LastIndexIs(items: seq<ClassItem>, name: string, i: nat)
    requires i < |items|
    ensures LastIndex(items, name) == Some(i) <==> items[i].name == name && IsLast(items, i)
  {
  }

  /** `if (data.class && classMap[data.class]) classMap[data.class].students++`. */
  function Bump(items: seq<ClassItem>, c: string): (r: seq<ClassItem>)
    ensures |r| == |items|
    ensures forall i :: 0 <= i < |r| ==> r[i].name == items[i].name
  {
    if c != "" then
      match LastIndex(items, c)
      case Some(j) => items[j := ClassItem(items[j].name, items[j].students + 1)]
      case None => items
    else items
  }

  /** The `forEach` over the student documents, each given by its `class` field. */
  function CountStudents(items: seq<ClassItem>, classes: seq<string>): (r: seq<ClassItem>)
    ensures |r| == |items|
    ensures forall i :: 0 <= i < |r| ==> r[i].name == items[i].name
    decreases |classes|
  {
    if |classes| == 0 then items
    else Bump(CountStudents(items, classes[..|classes| - 1]), classes[|classes| - 1])
  }

  /**
   * Each bar gains the number of students in its class when it is the last
   * bar of that name; an earlier bar of the same name gains nothing.
   */
  lemma {:induction false} CountPerClass(items: seq<ClassItem>, classes: seq<string>, i: nat)
    requires i < |items| && items[i].name != ""
    ensures CountStudents(items, classes)[i].students ==
      items[i].students + (if IsLast(items, i) then multiset(classes)[items[i].name] else 0)
    decreases |classes|
  {
    if |classes| > 0 {
      var init, c := classes[..|classes| - 1], classes[|classes| - 1];
      assert classes == init + [c];
      CountPerClass(items, init, i);
      var prev := CountStudents(items, init);
      LastIndexIs(prev, c, i);
      assert IsLast(prev, i) == IsLast(items, i);
    }
  }

  /**
   * The chart as fetched: one bar per truthy class name, in query order; the
   * last bar of a name counts the students of that class, an earlier bar of
   * the same name stays at 0.
   */
  function ClassData(names: seq<string>, classes: seq<string>): (r: seq<ClassItem>)
    ensures |r| == |AttendanceHistory.Named(names)|
    ensures forall i :: 0 <= i < |r| ==> r[i].name == AttendanceHistory.Named(names)[i]
    ensures forall i :: 0 <= i < |r| ==>
      r[i].students == if IsLast(Bars(names), i) then multiset(classes)[r[i].name] else 0
  {
    BarCounts(names, classes);
    CountStudents(Bars(names), classes)
  }

  lemma BarCounts(names: seq<string>, classes: seq<string>)
    ensures forall i :: 0 <= i < |Bars(names)| ==>
      CountStudents(Bars(names), classes)[i].students ==
        if IsLast(Bars(names), i) then multiset(classes)[Bars(names)[i].name] else 0
  {
    var items := Bars(names);
    forall i | 0 <= i < |items|
      ensures CountStudents(items, classes)[i].students ==
        if IsLast(items, i) then multiset(classes)[items[i].name] else 0
    {
      AttendanceHistory.NamedTruthy(names, i);
      CountPerClass(items, classes, i);
    }
  }

  /**
   * `setClassData` runs only when at least one class was fetched; a read that
   * throws (classes or students) is caught before it, so the chart stays.
   */
  function ShownClasses(prev: seq<ClassItem>, failed: bool, names: seq<string>, classes: seq<string>): (r: seq<ClassItem>)
    ensures failed || |AttendanceHistory.Named(names)| == 0 ==> r == prev
    ensures !failed && |AttendanceHistory.Named(names)| > 0 ==> r == ClassData(names, classes)
  {
    if !failed && |Bars(names)| > 0 then ClassData(names, classes) else prev
  }

  /** The bars' student counts added up: zero exactly when every bar is at zero. */
  function Total(items: seq<ClassItem>): (t: nat)
    ensures t == 0 <==> forall i :: 0 <= i < |items| ==> items[i].students == 0
  {
    if |items| == 0 then 0
    else
      var rest := Total(items[1..]);
      assert forall i :: 1 <= i < |items| ==> items[i] == items[1..][i - 1];
      items[0].students + rest
  }

  /** Adding one student to one bar adds one to the total. */
  lemma {:induction false} TotalBump(items: seq<ClassItem>, j: nat)
    requires j < |items|
    ensures Total(items[j := ClassItem(items[j].name, items[j].students + 1)]) == Total(items) + 1
  {
    var items' := items[j := ClassItem(items[j].name, items[j].students + 1)];
    if j == 0 {
      assert items'[1..] == items[1..];
    } else {
      assert items'[1..] == items[1..][j - 1 := ClassItem(items[j].name, items[j].students + 1)];
      TotalBump(items[1..], j - 1);
    }
  }

  /** A student's class has a bar. */
  predicate Known(items: seq<ClassItem>, c: string) {
    c != "" && exists j :: 0 <= j < |items| && items[j].name == c
  }

  /** How many students name a class with no bar (or none at all). */
  function Unknown(items: seq<ClassItem>, classes: seq<string>): nat
    decreases |classes|
  {
    if |classes| == 0 then 0
    else Unknown(items, classes[..|classes| - 1]) + (if Known(items, classes[|classes| - 1]) then 0 else 1)
  }

  /** A class is known to the counted bars exactly when the map finds a bar for it. */
  lemma KnownHasBar(items: seq<ClassItem>, prev: seq<ClassItem>, c: string)
    requires |prev| == |items| && forall i :: 0 <= i < |prev| ==> prev[i].name == items[i].name
    ensures Known(items, c) <==> c != "" && LastIndex(prev, c).Some?
  {
    if c != "" && LastIndex(prev, c).Some? {
      var j := LastIndex(prev, c).value;
      assert items[j].name == c;
    }
  }

  /** Every student is counted once on some bar unless its class is unknown. */
  lemma {:induction false} TotalOfCount(items: seq<ClassItem>, classes: seq<string>)
    ensures Total(CountStudents(items, classes)) + Unknown(items, classes) == Total(items) + |classes|
    decreases |classes|
  {
    if |classes| > 0 {
      var init, c := classes[..|classes| - 1], classes[|classes| - 1];
      TotalOfCount(items, init);
      var prev := CountStudents(items, init);
      assert CountStudents(items, classes) == Bump(prev, c);
      KnownHasBar(items, prev, c);
      assert Unknown(items, classes) == Unknown(items, init) + (if Known(items, c) then 0 else 1);
      if c != "" && LastIndex(prev, c).Some? {
        var j := LastIndex(prev, c).value;
        assert Bump(prev, c) == prev[j := ClassItem(prev[j].name, prev[j].students + 1)];
        TotalBump(prev, j);
      } else {
        assert Bump(prev, c) == prev;
      }
    }
  }

  /** No student is unknown exactly when every student's class has a bar. */
  lemma {:induction false} UnknownZero(items: seq<ClassItem>, classes: seq<string>)
    ensures Unknown(items, classes) == 0 <==> forall k :: 0 <= k < |classes| ==> Known(items, classes[k])
    decreases |classes|
  {
    if |classes| > 0 {
      var init := classes[..|classes| - 1];
      UnknownZero(items, init);
      assert forall k :: 0 <= k < |init| ==> init[k] == classes[k];
    }
  }

  /**
   * The bars add up to at most the number of students, and to exactly that
   * number when every student's class is among the fetched classes.
   */
  lemma ClassTotals(names: seq<string>, classes: seq<string>)
    ensures Total(ClassData(names, classes)) <= |classes|
    ensures Total(ClassData(names, classes)) == |classes| <==>
      forall k :: 0 <= k < |classes| ==> Known(Bars(names), classes[k])
  {
    assert Total(Bars(names)) == 0;
    TotalOfCount(Bars(names), classes);
    UnknownZero(Bars(names), classes);
  }

  // ---------------------------------------------------------------------------
  // Attendance distribution
  // ---------------------------------------------------------------------------

  /** The pie's four values, in the order Hadir, Sakit, Izin, Alpha. */
  datatype Slices = Slices(hadir: int, sakit: int, izin: int, alpha: int)

  /** The placeholder pie shown before any rate arrives. */
  const Placeholder := Slices(85, 7, 5, 3)

  /** `Math.round(remaining * 0.5)`: halving is exact, and halves round up. */
  function RoundHalf(remaining: int): (r: int)
    ensures remaining <= 2 * r <= remaining + 1
  {
    (remaining + 1) / 2
  }

  /** `Math.round(x)` for a value `x` within a tenth of `3 * remaining / 10`. */
  predicate RoundsThreeTenths(remaining: int, izin: int) {
    3 * remaining - 5 <= 10 * izin <= 3 * remaining + 5
  }

  /**
   * The effect on `stats`: with a non-zero rate, Hadir is the rate, Sakit and
   * Izin are rounded shares of the rest, and Alpha takes what is left. The
   * rounded three-tenths share is an input, as floating point decides it.
   */
  function Distribution(prev: Slices, rate: int, izin: int): (s: Slices)
    requires rate != 0 ==> RoundsThreeTenths(100 - rate, izin)
    ensures rate == 0 ==> s == prev
    ensures rate != 0 ==> s.hadir == rate && s.izin == izin
    ensures rate != 0 ==> s.sakit == RoundHalf(100 - rate) && s.alpha == 100 - rate - s.sakit - s.izin
  {
    if rate != 0 then
      var remaining := 100 - rate;
      var sick := RoundHalf(remaining);
      Slices(rate, sick, izin, remaining - sick - izin)
    else prev
  }

  /** With a non-zero rate the four slices always add up to 100. */
  lemma DistributionSums(prev: Slices, rate: int, izin: int)
    requires rate != 0 && RoundsThreeTenths(100 - rate, izin)
    ensures var s := Distribution(prev, rate, izin); s.hadir + s.sakit + s.izin + s.alpha == 100
  {
  }

  /** For a rate between 1 and 100 no slice is negative. */
  lemma DistributionNonNegative(prev: Slices, rate: int, izin: int)
    requires 0 < rate <= 100 && RoundsThreeTenths(100 - rate, izin)
    ensures var s := Distribution(prev, rate, izin); s.sakit >= 0 && s.izin >= 0 && s.alpha >= 0
  {
  }

  // ---------------------------------------------------------------------------
  // Recent-attendance rows
  // ---------------------------------------------------------------------------

  /**
   * The badge: the history page's colour of the status's bucket, with an
   * unrecognised status coloured as absent (red) rather than gray.
   */
  function BadgeClass(status: string): (c: string)
    ensures c == AttendanceHistory.BucketBadge(Some(Classify(status).GetOr(Absent)))
  {
    if status == "hadir" || status == "present" then "bg-green-100 text-green-800"
    else if status == "sakit" || status == "sick" then "bg-orange-100 text-orange-800"
    else if status == "izin" || status == "permitted" then "bg-blue-100 text-blue-800"
    else "bg-red-100 text-red-800"
  }

  /**
   * Badge and label agree: the label is the teacher table's (unknown statuses
   * read "Alpha"), and the badge is red exactly when the label is "Alpha".
   */
  lemma BadgeMatchesLabel(status: string)
    ensures BadgeClass(status) == "bg-red-100 text-red-800" <==> TeacherDashboard.TableLabel(status) == "Alpha"
    ensures Classify(status).Some? ==> BadgeClass(status) == AttendanceHistory.BadgeClass(status)
  {
  }

  /** `date ? date.split('-').reverse().join('-') : '-'`. */
  function ReversedDate(date: string): (r: string)
    ensures date == "" ==> r == "-"
  {
    if date != "" then Join(Reverse(Split(date, '-')), '-') else "-"
  }

  /** The parts of the reversed date are the parts of the date, back to front. */
  lemma ReversedParts(date: string)
    requires date != ""
    ensures Split(ReversedDate(date), '-') == Reverse(Split(date, '-'))
  {
    var parts := Split(date, '-');
    var rev := Reverse(parts);
    assert forall i :: 0 <= i < |rev| ==> '-' !in rev[i];
    SplitJoin(rev, '-');
  }

  /** Reversing the parts twice gives back the stored date. */
  lemma ReversedDateTwice(date: string)
    requires date != ""
    ensures ReversedDate(ReversedDate(date)) == date
  {
    ReversedParts(date);
    ReverseReverse(Split(date, '-'));
    JoinSplit(date, '-');
  }

  /** A stored ISO date is shown day first: `DD-MM-YYYY`. */
  lemma ReversedIsoDate(y: nat, m: nat, d: nat)
    ensures ReversedDate(IsoDate(y, m, d)) == TwoDigits(d) + "-" + TwoDigits(m) + "-" + NatToString(y)
  {
    IsoDateParts(y, m, d);
    assert Reverse([NatToString(y), TwoDigits(m), TwoDigits(d)]) == [TwoDigits(d), TwoDigits(m), NatToString(y)];
    JoinThree(TwoDigits(d), TwoDigits(m), NatToString(y), '-');
  }

  /** `notes || note || catatan || '-'`. */
  function NoteShown(r: AttendanceRecord): (t: string)
    ensures t != ""
    ensures r.notes != "" ==> t == r.notes
    ensures r.notes == "" && r.note != "" ==> t == r.note
    ensures r.notes == "" && r.note == "" && r.catatan != "" ==> t == r.catatan
    ensures r.notes == "" && r.note == "" && r.catatan == "" ==> t == "-"
  {
    StrOr(r.notes, StrOr(r.note, StrOr(r.catatan, "-")))
  }

  /** The note shown is always one of the three fields, unless all are empty. */
  lemma NoteFromFields(r: AttendanceRecord)
    ensures NoteShown(r) in {r.notes, r.note, r.catatan, "-"}
  {
  }
}
