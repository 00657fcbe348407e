/**
 * The teacher dashboard: the "today" statistics computed from the recent
 * attendance list handed down by the dashboard page, the four percentage
 * cards, and the status label of the recent-attendance table.
 */
module TeacherDashboard {

  import opened Common
  import opened Status
  import opened Percent
  import AttendanceHistory

  /** The `attendanceStats` state: four bucket counts and `total`. */
  datatype Stats = Stats(counts: Counts, total: nat)

  /** The state before any recomputation: everything 0. */
  const Initial := Stats(Zero, 0)

  /** `recentAttendance.filter(record => record.date === today)`. */
  function OfDay(rs: seq<AttendanceRecord>, today: string): (r: seq<AttendanceRecord>)
    ensures |r| <= |rs|
    ensures forall x :: x in r <==> x in rs && x.date == today
    decreases |rs|
  {
    if |rs| == 0 then []
    else
      var init, last := rs[..|rs| - 1], rs[|rs| - 1];
      assert rs == init + [last];
      OfDay(init, today) + (if last.date == today then [last] else [])
  }

  /** What the statistics mean: the tally of today's records, and how many there are. */
  function TodayStats(rs: seq<AttendanceRecord>, today: string): Stats {
    var t := OfDay(rs, today);
    Stats(Tally(t), |t|)
  }

  /**
   * The `forEach` of the effect: `total` is set to the number of today's
   * records up front, then each record bumps at most one counter.
   */
  method CountToday(rs: seq<AttendanceRecord>, today: string) returns (s: Stats)
    ensures s == TodayStats(rs, today)
  {
    var todays := OfDay(rs, today);
    var c := Zero;
    var i := 0;
    while i < |todays|
      invariant i <= |todays|
      invariant c == Tally(todays[..i])
    {
      var r := todays[i];
      assert todays[..i + 1] == todays[..i] + [r];
      TallySnoc(todays[..i], r);
      LoopStep(c, r.status);
      if r.status == "present" || r.status == "hadir" {
        c := c.(present := c.present + 1);
      } else if r.status == "sick" || r.status == "sakit" {
        c := c.(sick := c.sick + 1);
      } else if r.status == "permitted" || r.status == "izin" {
        c := c.(permitted := c.permitted + 1);
      } else if r.status == "absent" || r.status == "alpha" {
        c := c.(absent := c.absent + 1);
      }
      i := i + 1;
    }
    assert todays[..i] == todays;
    s := Stats(c, |todays|);
  }

  /** One pass of the loop body adds the unit count of the record's bucket. */
  lemma LoopStep(c: Counts, status: string)
    ensures c.Add(One(Classify(status))) ==
      if status == "present" || status == "hadir" then c.(present := c.present + 1)
      else if status == "sick" || status == "sakit" then c.(sick := c.sick + 1)
      else if status == "permitted" || status == "izin" then c.(permitted := c.permitted + 1)
      else if status == "absent" || status == "alpha" then c.(absent := c.absent + 1)
      else c
  {
  }

  /** The effect on `recentAttendance`: an empty list leaves the previous statistics in place. */
  method Refresh(prev: Stats, rs: seq<AttendanceRecord>, today: string) returns (s: Stats)
    ensures |rs| == 0 ==> s == prev
    ensures |rs| > 0 ==> s == TodayStats(rs, today)
  {
    if |rs| > 0 {
      s := CountToday(rs, today);
    } else {
      s := prev;
    }
  }

  /** The four counters never exceed `total`; they reach it exactly when every status today is recognised. */
  lemma StatsWithinTotal(rs: seq<AttendanceRecord>, today: string)
    ensures TodayStats(rs, today).counts.Sum() <= TodayStats(rs, today).total
    ensures TodayStats(rs, today).counts.Sum() == TodayStats(rs, today).total <==>
      forall x :: x in rs && x.date == today ==> Classify(x.status).Some?
  {
    var t := OfDay(rs, today);
    TallyComplete(t);
    if forall i :: 0 <= i < |t| ==> Classify(t[i].status).Some? {
      forall x | x in rs && x.date == today
        ensures Classify(x.status).Some?
      {
        assert x in t;
      }
    }
  }

  /** A record dated another day changes nothing. */
  lemma OtherDayIgnored(rs: seq<AttendanceRecord>, r: AttendanceRecord, today: string)
    requires r.date != today
    ensures TodayStats(rs + [r], today) == TodayStats(rs, today)
  {
    assert (rs + [r])[..|rs|] == rs;
    AppendNil(OfDay(rs, today));
  }

  /** A record dated today bumps `total` and at most the one counter its status selects. */
  lemma TodayCounted(rs: seq<AttendanceRecord>, r: AttendanceRecord, today: string)
    requires r.date == today
    ensures TodayStats(rs + [r], today).total == TodayStats(rs, today).total + 1
    ensures TodayStats(rs + [r], today).counts == TodayStats(rs, today).counts.Add(One(Classify(r.status)))
  {
    assert (rs + [r])[..|rs|] == rs;
    TallySnoc(OfDay(rs, today), r);
  }

  /** A non-empty list with nothing dated today resets the cards to zero. */
  lemma NothingToday(rs: seq<AttendanceRecord>, today: string)
    requires forall i :: 0 <= i < |rs| ==> rs[i].date != today
    ensures TodayStats(rs, today) == Initial
  {
    assert forall x :: x in rs ==> x.date != today;
  }

  /** A percentage card: `total > 0 ? Math.round(part / total * 100) : 0`. */
  function CardPercent(part: nat, total: nat): (r: nat)
    ensures total == 0 ==> r == 0
    ensures part <= total ==> r <= 100
    ensures total > 0 ==> 2 * total * r <= 200 * part + total < 2 * total * (r + 1)
  {
    if total > 0 then RoundedPercent(part, total) else 0
  }

  /** Every card of the computed statistics shows a value between 0 and 100. */
  lemma CardsInRange(rs: seq<AttendanceRecord>, today: string, b: Bucket)
    ensures CardPercent(TodayStats(rs, today).counts.Get(b), TodayStats(rs, today).total) <= 100
  {
    StatsWithinTotal(rs, today);
  }

  /** The table's status label: three buckets by name, everything else "Alpha". */
  function TableLabel(status: string): (t: string)
    ensures t == Label(Classify(status).GetOr(Absent))
  {
    if status == "hadir" || status == "present" then "Hadir"
    else if status == "sakit" || status == "sick" then "Sakit"
    else if status == "izin" || status == "permitted" then "Izin"
    else "Alpha"
  }

  /**
   * The table and the attendance-history page agree on recognised statuses;
   * on any other status they agree only when it is spelled "Alpha".
   */
  lemma TableLabelVersusHistory(status: string)
    ensures TableLabel(status) == AttendanceHistory.StatusText(status) <==>
      Classify(status).Some? || status == "Alpha"
  {
  }
}
