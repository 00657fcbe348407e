/**
 * The attendance-history page: the sorted list of class names offered in
 * the class selector, the class/name filter over the fetched records, and
 * the per-row display helpers (status badge colour, status text, the
 * `DD/MM/YYYY` date and the note column).
 */
module AttendanceHistory {

  import opened Common
  import opened Text
  import opened Status
  import opened Calendar

  // ---------------------------------------------------------------------------
  // The class selector
  // ---------------------------------------------------------------------------

  /** Adjacent names are in default string order. */
  predicate Sorted(s: seq<string>) {
    forall i :: 0 < i < |s| ==> StrLe(s[i - 1], s[i])
  }

  /** Insertion of one name into a sorted list. */
  function Insert(x: string, s: seq<string>): (r: seq<string>)
    requires Sorted(s)
    ensures Sorted(r)
    ensures multiset(r) == multiset(s) + multiset{x}
    ensures r[0] == x || (|s| > 0 && r[0] == s[0])
    decreases |s|
  {
    if |s| == 0 then [x]
    else if StrLe(x, s[0]) then [x] + s
    else
      StrLeTotal(x, s[0]);
      var t := Insert(x, s[1..]);
      assert s == [s[0]] + s[1..];
      [s[0]] + t
  }

  /** `Array.prototype.sort()` with no comparator, on strings. */
  function SortNames(s: seq<string>): (r: seq<string>)
    ensures Sorted(r)
    ensures multiset(r) == multiset(s)
    decreases |s|
  {
    if |s| == 0 then []
    else
      assert s == [s[0]] + s[1..];
      Insert(s[0], SortNames(s[1..]))
  }

  /** The class documents whose `name` is truthy, in fetch order. */
  function Named(names: seq<string>): (r: seq<string>)
    decreases |names|
  {
    if |names| == 0 then []
    else Named(names[..|names| - 1]) + (if names[|names| - 1] != "" then [names[|names| - 1]] else [])
  }

  /** The selector lists every non-empty class name, as often as it occurs, in sorted order. */
  function ClassList(names: seq<string>): (r: seq<string>)
    ensures Sorted(r)
    ensures multiset(r) == multiset(Named(names))
  {
    SortNames(Named(names))
  }

  /** Every non-empty name is kept, once per occurrence, and the empty name is dropped. */
  lemma {:induction false} NamedCounts(names: seq<string>, n: string)
    ensures multiset(Named(names))[n] == if n == "" then 0 else multiset(names)[n]
    decreases |names|
  {
    if |names| > 0 {
      var init, last := names[..|names| - 1], names[|names| - 1];
      assert names == init + [last];
      NamedCounts(init, n);
    }
  }

  /** No kept name is empty. */
  lemma NamedTruthy(names: seq<string>, i: nat)
    requires i < |Named(names)|
    ensures Named(names)[i] != ""
  {
    var n := Named(names)[i];
    assert n in multiset(Named(names));
    NamedCounts(names, n);
  }

  /** Sorted adjacency extends to every pair of positions. */
  lemma {:induction false} SortedPairs(s: seq<string>, i: nat, j: nat)
    requires Sorted(s) && i <= j < |s|
    ensures StrLe(s[i], s[j])
    decreases j - i
  {
    if i == j {
      StrLeRefl(s[i]);
    } else {
      SortedPairs(s, i, j - 1);
      StrLeTrans(s[i], s[j - 1], s[j]);
    }
  }

  lemma {:induction false} StrLeRefl(a: string)
    ensures StrLe(a, a)
    decreases |a|
  {
    if |a| > 0 {
      StrLeRefl(a[1..]);
    }
  }

  // ---------------------------------------------------------------------------
  // The record filter
  // ---------------------------------------------------------------------------

  /** The class selection and search text of the page. */
  datatype Settings = Settings(selectedClass: string, searchQuery: string)

  /** What the filter demands of a record, stated as one condition. */
  predicate Shown(r: AttendanceRecord, s: Settings) {
    (s.selectedClass == "all" || r.className == s.selectedClass) &&
    (s.searchQuery == "" || Contains(Lower(r.studentName), Lower(s.searchQuery)))
  }

  /** The callback of `attendanceRecords.filter`: class test first, then the search. */
  predicate Passes(r: AttendanceRecord, s: Settings) {
    if s.selectedClass != "all" && r.className != s.selectedClass then false
    else if s.searchQuery != "" then Contains(Lower(r.studentName), Lower(s.searchQuery))
    else true
  }

  function Filter(rs: seq<AttendanceRecord>, s: Settings): (r: seq<AttendanceRecord>)
    ensures forall x :: x in r <==> x in rs && Shown(x, s)
    decreases |rs|
  {
    if |rs| == 0 then []
    else (if Passes(rs[0], s) then [rs[0]] else []) + Filter(rs[1..], s)
  }

  /** The filtered list keeps the fetched order. */
  lemma {:induction false} FilterSubsequence(rs: seq<AttendanceRecord>, s: Settings)
    ensures Subsequence(Filter(rs, s), rs)
    decreases |rs|
  {
    if |rs| > 0 {
      FilterSubsequence(rs[1..], s);
      var f := Filter(rs, s);
      if Passes(rs[0], s) {
        assert f[0] == rs[0] && f[1..] == Filter(rs[1..], s);
      } else {
        assert f == Filter(rs[1..], s);
        SubsequenceDrop(Filter(rs[1..], s), rs);
      }
    }
  }

  /** Filtering an already filtered list with the same settings changes nothing. */
  lemma {:induction false} FilterIdempotent(rs: seq<AttendanceRecord>, s: Settings)
    ensures Filter(Filter(rs, s), s) == Filter(rs, s)
    decreases |rs|
  {
    if |rs| > 0 {
      FilterIdempotent(rs[1..], s);
      if Passes(rs[0], s) {
        var f := Filter(rs, s);
        assert f[0] == rs[0] && f[1..] == Filter(rs[1..], s);
        assert Filter(f, s) == [rs[0]] + Filter(f[1..], s);
      } else {
        assert Filter(rs, s) == Filter(rs[1..], s);
      }
    }
  }

  /** With class "all" and an empty search every fetched record is listed. */
  lemma {:induction false} FilterEverything(rs: seq<AttendanceRecord>)
    ensures Filter(rs, Settings("all", "")) == rs
    decreases |rs|
  {
    if |rs| > 0 {
      FilterEverything(rs[1..]);
      assert rs == [rs[0]] + rs[1..];
    }
  }

  /** The search ignores letter case: the query and its lower-cased form select the same rows. */
  lemma SearchIgnoresCase(r: AttendanceRecord, c: string, q: string)
    ensures Shown(r, Settings(c, q)) <==> Shown(r, Settings(c, Lower(q)))
  {
    LowerIdempotent(q);
    if q != "" {
      assert |Lower(q)| == |q|;
    }
  }

  // ---------------------------------------------------------------------------
  // Row display
  // ---------------------------------------------------------------------------

  /** `getStatusText`: the eight known codes become their label, anything else is shown as is. */
  function StatusText(status: string): (t: string)
    ensures t == match Classify(status)
      case Some(b) => Label(b)
      case None => status
  {
    if status == "hadir" || status == "present" then "Hadir"
    else if status == "sakit" || status == "sick" then "Sakit"
    else if status == "izin" || status == "permitted" then "Izin"
    else if status == "alpha" || status == "absent" then "Alpha"
    else status
  }

  /** The badge colour of a bucket, gray for none. */
  function BucketBadge(k: Option<Bucket>): string {
    match k
    case Some(Present) => "bg-green-100 text-green-800"
    case Some(Sick) => "bg-orange-100 text-orange-800"
    case Some(Permitted) => "bg-blue-100 text-blue-800"
    case Some(Absent) => "bg-red-100 text-red-800"
    case None => "bg-gray-100 text-gray-800"
  }

  /** `getStatusBadgeClass`: one colour per bucket, gray for everything else. */
  function BadgeClass(status: string): (c: string)
    ensures c == BucketBadge(Classify(status))
  {
    if status == "hadir" || status == "present" then "bg-green-100 text-green-800"
    else if status == "sakit" || status == "sick" then "bg-orange-100 text-orange-800"
    else if status == "izin" || status == "permitted" then "bg-blue-100 text-blue-800"
    else if status == "alpha" || status == "absent" then "bg-red-100 text-red-800"
    else "bg-gray-100 text-gray-800"
  }

  /** Two statuses get the same badge exactly when they fall in the same bucket (or in none). */
  lemma BadgeGroupsLikeClassify(s: string, t: string)
    ensures BadgeClass(s) == BadgeClass(t) <==> Classify(s) == Classify(t)
  {
    BucketBadgeInjective(Classify(s), Classify(t));
  }

  /** The bucket a badge colour is read back as, from its colour name. */
  function BadgeBucket(badge: string): Option<Bucket> {
    if |badge| < 6 then None
    else if badge[3] == 'o' then Some(Sick)
    else if badge[3] == 'b' then Some(Permitted)
    else if badge[3] == 'r' then Some(Absent)
    else if badge[5] == 'e' then Some(Present)
    else None
  }

  lemma BucketBadgeInjective(j: Option<Bucket>, k: Option<Bucket>)
    ensures BucketBadge(j) == BucketBadge(k) ==> j == k
  {
    BadgeBucketInverse(j);
    BadgeBucketInverse(k);
  }

  lemma BadgeBucketInverse(k: Option<Bucket>)
    ensures BadgeBucket(BucketBadge(k)) == k
  {
    var b := BucketBadge(k);
    match k {
      case Some(Present) => assert b[3] == 'g' && b[5] == 'e';
      case Some(Sick) => assert b[3] == 'o';
      case Some(Permitted) => assert b[3] == 'b';
      case Some(Absent) => assert b[3] == 'r';
      case None => assert b[3] == 'g' && b[5] == 'a';
    }
  }

  /** Badge and text group the codes alike: a status with a coloured badge is shown by its label. */
  lemma BadgeAgreesWithText(status: string)
    ensures BadgeClass(status) != "bg-gray-100 text-gray-800" <==> Classify(status).Some?
    ensures Classify(status).Some? ==> StatusText(status) == Label(Classify(status).value)
  {
  }

  /** An unknown status spelled like a label reads as that label but keeps the gray badge. */
  lemma LabelSpelledStatus()
    ensures StatusText("Hadir") == StatusText("hadir")
    ensures BadgeClass("Hadir") != BadgeClass("hadir")
  {
  }

  /** The date column: `Y-M-D` with exactly three parts is shown as `D/M/Y`. */
  function DisplayDate(date: string): (r: string)
    ensures |Split(date, '-')| != 3 ==> r == date
  {
    var parts := Split(date, '-');
    if |parts| == 3 then parts[2] + "/" + parts[1] + "/" + parts[0] else date
  }

  /** A stored ISO date reads back as day, month and year separated by slashes. */
  lemma DisplayIsoDate(y: nat, m: nat, d: nat)
    ensures DisplayDate(IsoDate(y, m, d)) == TwoDigits(d) + "/" + TwoDigits(m) + "/" + NatToString(y)
  {
    IsoDateParts(y, m, d);
  }

  /** The displayed date splits on `/` into the reversed parts of the stored one. */
  lemma DisplayDateReverses(date: string)
    requires |Split(date, '-')| == 3
    requires '/' !in date
    ensures Split(DisplayDate(date), '/') == Reverse(Split(date, '-'))
  {
    var parts := Split(date, '-');
    PartsFree(parts, date);
    SlashSplit(parts[2], parts[1], parts[0]);
  }

  /** Three slash-free pieces joined by `/` split back into those pieces. */
  lemma SlashSplit(a: string, b: string, c: string)
    requires '/' !in a && '/' !in b && '/' !in c
    ensures Split(a + "/" + b + "/" + c, '/') == [a, b, c]
  {
    assert a + "/" + b + "/" + c == a + ['/'] + (b + ['/'] + c);
    SplitConcat(a, b + ['/'] + c, '/');
    SplitConcat(b, c, '/');
    SplitNoSeparator(c, '/');
  }

  /** No part of a three-part split holds a character its string lacks. */
  lemma PartsFree(parts: seq<string>, date: string)
    requires parts == Split(date, '-') && |parts| == 3 && '/' !in date
    ensures '/' !in parts[0] && '/' !in parts[1] && '/' !in parts[2]
  {
    JoinSplit(date, '-');
    var tail := parts[1..];
    assert Join(tail, '-') == tail[0] + ['-'] + Join(tail[1..], '-');
    assert Join(parts, '-') == parts[0] + ['-'] + Join(tail, '-');
    assert tail[1..] == [parts[2]];
  }

  /** The note column: `record.note || '-'`. */
  function NoteText(r: AttendanceRecord): (t: string)
    ensures t != ""
    ensures r.note != "" ==> t == r.note
  {
    StrOr(r.note, "-")
  }
}
