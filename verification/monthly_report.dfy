/**
 * The monthly report page: `fetchDailyData` buckets the month's attendance
 * by the day field of each record's date into a map keyed "01".."NN", lists
 * the map's entries and sorts them by day; `calculateSummary` adds the days up.
 */
module MonthlyReport {

  import opened Common
  import opened Text
  import opened Status
  import opened Calendar

  /** One element of the result: the day key and that day's four counts. */
  datatype DayEntry = DayEntry(date: string, stats: Counts)

  /** `where("date", ">=", start)` and `where("date", "<=", end)`: the month's records, in order. */
  function Query(all: seq<AttendanceRecord>, r: DateRange): (rs: seq<AttendanceRecord>)
    ensures |rs| <= |all|
    ensures forall i :: 0 <= i < |rs| ==> InRange(rs[i].date, r) && rs[i] in all
    ensures forall x :: x in rs <==> x in all && InRange(x.date, r)
    ensures Subsequence(rs, all)
  {
    if |all| == 0 then []
    else
      var init, last := all[..|all| - 1], all[|all| - 1];
      var q := Query(init, r);
      assert all == init + [last];
      SubsequenceSnoc(q, init, last);
      if InRange(last.date, r) then q + [last] else q
  }

  /** Each record in range is kept as often as it was fetched, and no other record is kept. */
  lemma {:induction false} QueryCounts(all: seq<AttendanceRecord>, r: DateRange)
    ensures forall x :: multiset(Query(all, r))[x] == if InRange(x.date, r) then multiset(all)[x] else 0
    decreases |all|
  {
    if |all| > 0 {
      var init, last := all[..|all| - 1], all[|all| - 1];
      assert all == init + [last];
      QueryCounts(init, r);
    }
  }

  /** `date.split('-')[2]`: the third `-`-separated field, if there is one. */
  function DayField(date: string): (r: Option<string>)
    ensures r.Some? <==> |Split(date, '-')| >= 3
  {
    var parts := Split(date, '-');
    if |parts| >= 3 then Some(parts[2]) else None
  }

  /**
   * `dailyStats[key]` is an entry exactly when the key is one of "01".."NN";
   * the day it stands for.
   */
  function DayOfKey(key: string, n: nat): (r: Option<nat>)
    requires n < 100
    ensures r.Some? ==> 1 <= r.value <= n && key == TwoDigits(r.value)
    ensures r.None? ==> forall d :: 1 <= d <= n ==> key != TwoDigits(d)
  {
    if |key| == 2 && AllDigits(key) && 1 <= ParseDigits(key) <= n then
      TwoDigitKey(key);
      Some(ParseDigits(key))
    else None
  }

  /** The day a record is counted on: it has a date, a third field, and that field is a key. */
  function RecordDay(r: AttendanceRecord, n: nat): (d: Option<nat>)
    requires n < 100
    ensures d.Some? ==> 1 <= d.value <= n
  {
    if r.date == "" then None
    else match DayField(r.date)
      case None => None
      case Some(k) => if k == "" then None else DayOfKey(k, n)
  }

  /** A date written `YYYY-MM-DD` is counted on its day when the month has that day. */
  lemma IsoDateDay(y: nat, m: nat, d: nat, n: nat)
    requires 1 <= d < 100 && n < 100
    ensures DayField(IsoDate(y, m, d)) == Some(TwoDigits(d))
    ensures DayOfKey(TwoDigits(d), n) == if d <= n then Some(d) else None
  {
    var Y, M, D := NatToString(y), TwoDigits(m), TwoDigits(d);
    assert '-' !in Y && '-' !in M && '-' !in D by {
      assert forall i :: 0 <= i < |Y| ==> IsDigit(Y[i]);
      assert forall i :: 0 <= i < |M| ==> IsDigit(M[i]);
      assert forall i :: 0 <= i < |D| ==> IsDigit(D[i]);
    }
    assert IsoDate(y, m, d) == Y + ['-'] + (M + ['-'] + D);
    SplitConcat(Y, M + ['-'] + D, '-');
    SplitConcat(M, D, '-');
    SplitNoSeparator(D, '-');
  }

  /** The day map right after initialisation: every day 1..n at zero. */
  function Initial(n: nat): (cs: seq<Counts>)
    ensures |cs| == n && forall i :: 0 <= i < n ==> cs[i] == Zero
  {
    seq(n, _ => Zero)
  }

  /** What the `forEach` looks at in one record: the day it falls on and its bucket. */
  datatype Tag = Tag(day: Option<nat>, kind: Option<Bucket>)

  function Tags(rs: seq<AttendanceRecord>, n: nat): (ts: seq<Tag>)
    requires n < 100
    ensures |ts| == |rs|
    ensures forall i :: 0 <= i < |rs| ==> ts[i] == Tag(RecordDay(rs[i], n), Classify(rs[i].status))
  {
    seq(|rs|, i requires 0 <= i < |rs| => Tag(RecordDay(rs[i], n), Classify(rs[i].status)))
  }

  /**
   * One iteration of the `forEach`: when the record's day is an entry of the
   * map, bump that entry's bucket (an unrecognised status bumps nothing).
   */
  function Bump(cs: seq<Counts>, t: Tag): (cs': seq<Counts>)
    ensures |cs'| == |cs|
  {
    match t.day
    case Some(d) => if 1 <= d <= |cs| then cs[d - 1 := cs[d - 1].Add(One(t.kind))] else cs
    case None => cs
  }

  /** A tag changes only the entry of its own day. */
  lemma BumpAt(cs: seq<Counts>, t: Tag, d: nat)
    requires 1 <= d <= |cs|
    ensures Bump(cs, t)[d - 1] == if t.day == Some(d) then cs[d - 1].Add(One(t.kind)) else cs[d - 1]
  {
  }

  /** The day map after the loop; entry `d - 1` is day `d`. */
  function Fold(ts: seq<Tag>, n: nat): (cs: seq<Counts>)
    ensures |cs| == n
  {
    if |ts| == 0 then Initial(n) else Bump(Fold(ts[..|ts| - 1], n), ts[|ts| - 1])
  }

  /** The day map `fetchDailyData` builds from the fetched records. */
  function DailyCounts(rs: seq<AttendanceRecord>, n: nat): (cs: seq<Counts>)
    requires n < 100
    ensures |cs| == n
  {
    Fold(Tags(rs, n), n)
  }

  /** The buckets of the tags that fall on day `d`, in order. */
  function KindsOn(ts: seq<Tag>, d: nat): seq<Option<Bucket>> {
    if |ts| == 0 then []
    else KindsOn(ts[..|ts| - 1], d) + (if ts[|ts| - 1].day == Some(d) then [ts[|ts| - 1].kind] else [])
  }

  /** The buckets of the tags that fall on one of the days `1..n`, in order. */
  function KindsCounted(ts: seq<Tag>, n: nat): seq<Option<Bucket>> {
    if |ts| == 0 then []
    else
      var t := ts[|ts| - 1];
      KindsCounted(ts[..|ts| - 1], n) + (if t.day.Some? && 1 <= t.day.value <= n then [t.kind] else [])
  }

  /** The records counted on day `d`, in order. */
  function OnDay(rs: seq<AttendanceRecord>, n: nat, d: nat): seq<AttendanceRecord>
    requires n < 100
  {
    if |rs| == 0 then []
    else OnDay(rs[..|rs| - 1], n, d) + (if RecordDay(rs[|rs| - 1], n) == Some(d) then [rs[|rs| - 1]] else [])
  }

  /** The records counted on some day of the map, in order. */
  function Counted(rs: seq<AttendanceRecord>, n: nat): seq<AttendanceRecord>
    requires n < 100
  {
    if |rs| == 0 then []
    else Counted(rs[..|rs| - 1], n) + (if RecordDay(rs[|rs| - 1], n).Some? then [rs[|rs| - 1]] else [])
  }

  lemma {:induction false} FoldOnDay(ts: seq<Tag>, n: nat, d: nat)
    requires 1 <= d <= n
    ensures Fold(ts, n)[d - 1] == CountKinds(KindsOn(ts, d))
  {
    if |ts| > 0 {
      var front, t := ts[..|ts| - 1], ts[|ts| - 1];
      FoldOnDay(front, n, d);
      BumpAt(Fold(front, n), t, d);
      if t.day == Some(d) {
        CountKindsSnoc(KindsOn(front, d), t.kind);
      } else {
        AppendNil(KindsOn(front, d));
      }
    }
  }

  /** The four sums of a list of day counts. */
  function Total(cs: seq<Counts>): Counts {
    if |cs| == 0 then Zero else cs[0].Add(Total(cs[1..]))
  }

  lemma {:induction false} TotalUpdate(cs: seq<Counts>, i: nat, x: Counts)
    requires i < |cs|
    ensures Total(cs[i := cs[i].Add(x)]) == Total(cs).Add(x)
  {
    var cs' := cs[i := cs[i].Add(x)];
    if i == 0 {
      assert cs'[1..] == cs[1..];
    } else {
      assert cs'[1..] == cs[1..][i - 1 := cs[i].Add(x)];
      TotalUpdate(cs[1..], i - 1, x);
    }
  }

  lemma {:induction false} TotalInitial(n: nat)
    ensures Total(Initial(n)) == Zero
  {
    if n > 0 {
      assert Initial(n)[1..] == Initial(n - 1);
      TotalInitial(n - 1);
    }
  }

  lemma {:induction false} FoldTotal(ts: seq<Tag>, n: nat)
    ensures Total(Fold(ts, n)) == CountKinds(KindsCounted(ts, n))
  {
    if |ts| == 0 {
      TotalInitial(n);
    } else {
      var front, t := ts[..|ts| - 1], ts[|ts| - 1];
      FoldTotal(front, n);
      var cs := Fold(front, n);
      if t.day.Some? && 1 <= t.day.value <= n {
        var i := t.day.value - 1;
        assert Fold(ts, n) == cs[i := cs[i].Add(One(t.kind))];
        CountKindsSnoc(KindsCounted(front, n), t.kind);
        TotalUpdate(cs, i, One(t.kind));
      } else {
        assert Fold(ts, n) == cs;
        AppendNil(KindsCounted(front, n));
      }
    }
  }

  lemma {:induction false} OnDayKinds(rs: seq<AttendanceRecord>, n: nat, d: nat)
    requires n < 100
    ensures Classes(OnDay(rs, n, d)) == KindsOn(Tags(rs, n), d)
  {
    if |rs| > 0 {
      var front, r := rs[..|rs| - 1], rs[|rs| - 1];
      OnDayKinds(front, n, d);
      assert Tags(rs, n)[..|rs| - 1] == Tags(front, n);
      ClassesAppend(OnDay(front, n, d), if RecordDay(r, n) == Some(d) then [r] else []);
    }
  }

  lemma {:induction false} CountedKinds(rs: seq<AttendanceRecord>, n: nat)
    requires n < 100
    ensures Classes(Counted(rs, n)) == KindsCounted(Tags(rs, n), n)
  {
    if |rs| > 0 {
      var front, r := rs[..|rs| - 1], rs[|rs| - 1];
      CountedKinds(front, n);
      assert Tags(rs, n)[..|rs| - 1] == Tags(front, n);
      ClassesAppend(Counted(front, n), if RecordDay(r, n).Some? then [r] else []);
    }
  }

  /** Each day's counts are the tally of exactly the records whose date falls on that day. */
  lemma DailyCountsOnDay(rs: seq<AttendanceRecord>, n: nat, d: nat)
    requires n < 100 && 1 <= d <= n
    ensures DailyCounts(rs, n)[d - 1] == Tally(OnDay(rs, n, d))
  {
    FoldOnDay(Tags(rs, n), n, d);
    OnDayKinds(rs, n, d);
  }

  /** All days together hold the tally of every record that landed on some day. */
  lemma DailyCountsTotal(rs: seq<AttendanceRecord>, n: nat)
    requires n < 100
    ensures Total(DailyCounts(rs, n)) == Tally(Counted(rs, n))
  {
    FoldTotal(Tags(rs, n), n);
    CountedKinds(rs, n);
  }

  // ---------------------------------------------------------------------------
  // Listing and sorting the entries
  // ---------------------------------------------------------------------------

  /** `parseInt(entry.date)`; the keys are always two digits, and each reads back as its day. */
  function Key(e: DayEntry): (k: nat)
    ensures forall d :: e.date == TwoDigits(d) ==> k == d
    ensures AllDigits(e.date) && |e.date| == 2 ==> k < 100 && TwoDigits(k) == e.date
    ensures !AllDigits(e.date) ==> k == 0
  {
    if AllDigits(e.date) then
      assert |e.date| == 2 ==> ParseDigits(e.date) < 100 && TwoDigits(ParseDigits(e.date)) == e.date by {
        if |e.date| == 2 { TwoDigitKey(e.date); }
      }
      ParseDigits(e.date)
    else 0
  }

  /** Insert before the first entry with a larger or equal key (keys never repeat here). */
  function Insert(x: DayEntry, s: seq<DayEntry>): (r: seq<DayEntry>)
    ensures |r| == |s| + 1
  {
    if |s| == 0 || Key(x) <= Key(s[0]) then [x] + s
    else [s[0]] + Insert(x, s[1..])
  }

  /** `sort((a, b) => parseInt(a.date) - parseInt(b.date))`: a stable sort by day. */
  function SortByDay(s: seq<DayEntry>): (r: seq<DayEntry>)
    ensures |r| == |s|
  {
    if |s| == 0 then [] else Insert(s[0], SortByDay(s[1..]))
  }

  predicate Ascending(s: seq<DayEntry>) {
    forall i, j :: 0 <= i < j < |s| ==> Key(s[i]) < Key(s[j])
  }

  /** Inserting between a block of smaller keys and a block of larger ones. */
  lemma {:induction false} InsertBetween(x: DayEntry, b: seq<DayEntry>, c: seq<DayEntry>)
    requires forall i :: 0 <= i < |b| ==> Key(b[i]) < Key(x)
    requires |c| == 0 || Key(x) <= Key(c[0])
    ensures Insert(x, b + c) == b + ([x] + c)
  {
    if |b| > 0 {
      assert (b + c)[0] == b[0];
      assert (b + c)[1..] == b[1..] + c;
      InsertBetween(x, b[1..], c);
    } else {
      assert b + c == c;
    }
  }

  /** An ascending list is left as it is. */
  lemma {:induction false} SortAscending(s: seq<DayEntry>)
    requires Ascending(s)
    ensures SortByDay(s) == s
  {
    if |s| > 0 {
      var t := s[1..];
      assert Ascending(t) by {
        forall i, j | 0 <= i < j < |t|
          ensures Key(t[i]) < Key(t[j])
        {
          assert t[i] == s[i + 1] && t[j] == s[j + 1];
        }
      }
      SortAscending(t);
      assert |t| == 0 || Key(s[0]) <= Key(t[0]) by {
        if |t| > 0 {
          assert t[0] == s[1];
        }
      }
      InsertBetween(s[0], [], t);
      assert [] + t == t && [s[0]] + t == s;
    }
  }

  /** The entry of day `d` in a day map. */
  function Entry(cs: seq<Counts>, d: nat): DayEntry
    requires 1 <= d <= |cs|
  {
    DayEntry(TwoDigits(d), cs[d - 1])
  }

  /** The key of a day's entry is that day. */
  lemma EntryKey(cs: seq<Counts>, d: nat)
    requires 1 <= d <= |cs| && d < 100
    ensures Key(Entry(cs, d)) == d
  {
  }

  /** The entries of days `a..b` in ascending order. */
  function Run(cs: seq<Counts>, a: nat, b: nat): (r: seq<DayEntry>)
    requires 1 <= a <= b + 1 && b <= |cs|
    ensures |r| == b - a + 1
    ensures forall i :: 0 <= i < |r| ==> r[i] == Entry(cs, a + i)
  {
    seq(b - a + 1, i requires 0 <= i < b - a + 1 => Entry(cs, a + i))
  }

  lemma RunCons(cs: seq<Counts>, a: nat, b: nat)
    requires 1 <= a <= b <= |cs|
    ensures Run(cs, a, b) == [Entry(cs, a)] + Run(cs, a + 1, b)
  {
  }

  lemma RunSplit(cs: seq<Counts>, a: nat, m: nat, b: nat)
    requires 1 <= a <= m + 1 && m <= b && b <= |cs|
    ensures Run(cs, a, m) + Run(cs, m + 1, b) == Run(cs, a, b)
  {
  }

  /** Every key of `Run(cs, a, b)` lies in `a..b`. */
  lemma RunKeys(cs: seq<Counts>, a: nat, b: nat)
    requires 1 <= a <= b + 1 && b <= |cs| && b < 100
    ensures forall i :: 0 <= i < b - a + 1 ==> Key(Run(cs, a, b)[i]) == a + i
  {
    forall i | 0 <= i < b - a + 1
      ensures Key(Run(cs, a, b)[i]) == a + i
    {
      EntryKey(cs, a + i);
    }
  }

  lemma RunAscending(cs: seq<Counts>, a: nat, b: nat)
    requires 1 <= a <= b + 1 && b <= |cs| && b < 100
    ensures Ascending(Run(cs, a, b))
  {
    RunKeys(cs, a, b);
  }

  /**
   * `Object.entries(dailyStats)`: the keys "10".."NN" are array indices and
   * come first, ascending; "01".."09" follow in the order they were added.
   */
  function EntriesOrder(cs: seq<Counts>): (es: seq<DayEntry>)
    requires 10 <= |cs|
    ensures |es| == |cs|
  {
    Run(cs, 10, |cs|) + Run(cs, 1, 9)
  }

  lemma {:induction false} SortTail(cs: seq<Counts>, k: nat)
    requires 10 <= k <= |cs| + 1 && |cs| < 100
    ensures SortByDay(Run(cs, k, |cs|) + Run(cs, 1, 9)) == Run(cs, 1, 9) + Run(cs, k, |cs|)
    decreases |cs| + 1 - k
  {
    var low := Run(cs, 1, 9);
    if k == |cs| + 1 {
      assert Run(cs, k, |cs|) + low == low;
      RunAscending(cs, 1, 9);
      SortAscending(low);
    } else {
      var rest := Run(cs, k + 1, |cs|);
      var x := Entry(cs, k);
      assert Run(cs, k, |cs|) == [x] + rest by {
        RunCons(cs, k, |cs|);
      }
      SortTail(cs, k + 1);
      assert forall i :: 0 <= i < |low| ==> Key(low[i]) < Key(x) by {
        RunKeys(cs, 1, 9);
        EntryKey(cs, k);
      }
      assert |rest| == 0 || Key(x) <= Key(rest[0]) by {
        EntryKey(cs, k);
        if |rest| > 0 {
          RunKeys(cs, k + 1, |cs|);
        }
      }
      SortStep(x, rest, low);
    }
  }

  lemma ConsTail<T>(x: T, a: seq<T>, b: seq<T>)
    ensures ([x] + a + b)[0] == x && ([x] + a + b)[1..] == a + b
  {
  }

  /** One step of `SortTail`: the next larger key moves behind the small ones. */
  lemma SortStep(x: DayEntry, rest: seq<DayEntry>, low: seq<DayEntry>)
    requires SortByDay(rest + low) == low + rest
    requires forall i :: 0 <= i < |low| ==> Key(low[i]) < Key(x)
    requires |rest| == 0 || Key(x) <= Key(rest[0])
    ensures SortByDay([x] + rest + low) == low + ([x] + rest)
  {
    var s := [x] + rest + low;
    ConsTail(x, rest, low);
    assert SortByDay(s) == Insert(x, low + rest);
    InsertBetween(x, low, rest);
  }

  /** The sorted entries are the days 1..N in order, each with its own counts. */
  lemma SortedEntries(cs: seq<Counts>)
    requires 10 <= |cs| < 100
    ensures SortByDay(EntriesOrder(cs)) == Run(cs, 1, |cs|)
  {
    SortTail(cs, 10);
    RunSplit(cs, 1, 9, |cs|);
  }

  /**
   * `fetchDailyData`: the month's records bucketed by day and listed in day
   * order; a failed read gives the empty list.
   */
  function FetchDailyData(all: seq<AttendanceRecord>, failed: bool, year: nat, month: nat): (r: seq<DayEntry>)
    requires 1 <= month <= 12
    ensures failed ==> r == []
    ensures !failed ==> |r| == DaysInMonth(year, month)
    ensures !failed ==> forall i :: 0 <= i < |r| ==>
      r[i].date == TwoDigits(i + 1) &&
      r[i].stats == Tally(OnDay(Query(all, MonthRange(year, month)), DaysInMonth(year, month), i + 1))
  {
    if failed then []
    else
      var n := DaysInMonth(year, month);
      var fetched := Query(all, MonthRange(year, month));
      var cs := DailyCounts(fetched, n);
      SortedEntries(cs);
      forall d | 1 <= d <= n
        ensures cs[d - 1] == Tally(OnDay(fetched, n, d))
      {
        DailyCountsOnDay(fetched, n, d);
      }
      SortByDay(EntriesOrder(cs))
  }

  /** `reduce((acc, day) => acc + day.stats, zero)`: the days added front to back onto `acc`. */
  function Reduce(acc: Counts, es: seq<DayEntry>): Counts
    decreases |es|
  {
    if |es| == 0 then acc else Reduce(acc.Add(es[0].stats), es[1..])
  }

  /** Folding onto `acc` is folding onto zero and adding `acc` afterwards. */
  lemma {:induction false} ReduceFrom(acc: Counts, es: seq<DayEntry>)
    ensures Reduce(acc, es) == acc.Add(Reduce(Zero, es))
    decreases |es|
  {
    if |es| > 0 {
      ReduceFrom(acc.Add(es[0].stats), es[1..]);
      ReduceFrom(es[0].stats, es[1..]);
      assert Zero.Add(es[0].stats) == es[0].stats;
    }
  }

  /**
   * `calculateSummary`'s four sums over the listed days, added back to front;
   * the result is the front-to-back `reduce` the page runs.
   */
  function Summary(es: seq<DayEntry>): (c: Counts)
    ensures c == Reduce(Zero, es)
  {
    if |es| == 0 then Zero
    else
      var rest := Summary(es[1..]);
      ReduceFrom(es[0].stats, es[1..]);
      assert Zero.Add(es[0].stats) == es[0].stats;
      es[0].stats.Add(rest)
  }

  lemma {:induction false} SummaryRun(cs: seq<Counts>, a: nat)
    requires 1 <= a <= |cs| + 1
    ensures Summary(Run(cs, a, |cs|)) == Total(cs[a - 1..])
    decreases |cs| + 1 - a
  {
    if a <= |cs| {
      assert Run(cs, a, |cs|)[1..] == Run(cs, a + 1, |cs|);
      assert cs[a - 1..][1..] == cs[a..];
      SummaryRun(cs, a + 1);
    }
  }

  /**
   * The summary adds up exactly the month's records whose day field names a
   * day of the month; a failed read sums to zero.
   */
  lemma SummaryOfMonth(all: seq<AttendanceRecord>, failed: bool, year: nat, month: nat)
    requires 1 <= month <= 12
    ensures var n := DaysInMonth(year, month);
      Summary(FetchDailyData(all, failed, year, month)) ==
      if failed then Zero else Tally(Counted(Query(all, MonthRange(year, month)), n))
  {
    if !failed {
      var n := DaysInMonth(year, month);
      var cs := DailyCounts(Query(all, MonthRange(year, month)), n);
      SortedEntries(cs);
      SummaryRun(cs, 1);
      assert cs[0..] == cs;
      DailyCountsTotal(Query(all, MonthRange(year, month)), n);
    }
  }

  /**
   * A stored record dated `YYYY-MM-DD` (four-digit year) is counted on day
   * `d` of the report for `year`/`month` exactly when it has that year and
   * month and the month has a day `d`.
   */
  lemma RecordCounted(r: AttendanceRecord, year: nat, month: nat, y: nat, m: nat, d: nat)
    requires 1000 <= year <= 9999 && 1 <= month <= 12
    requires 1000 <= y <= 9999 && 1 <= m <= 12 && 1 <= d <= 31
    requires r.date == IsoDate(y, m, d)
    ensures var n := DaysInMonth(year, month);
      (InRange(r.date, MonthRange(year, month)) && RecordDay(r, n) == Some(d)) <==>
      (y == year && m == month && d <= n)
  {
    MonthRangeSelectsMonth(year, month, y, m, d);
    IsoDateDay(y, m, d, DaysInMonth(year, month));
  }
}
