/**
 * Attendance records and the bilingual status rule that every report and
 * dashboard repeats: `present`/`hadir`, `sick`/`sakit`, `permitted`/`izin`
 * and `absent`/`alpha` select one of four buckets, anything else none.
 * The fold that counts a sequence of records into the four buckets is the
 * shared core of every per-page aggregation.
 */
module Status {

  import opened Common

  /** An attendance document as fetched; a missing text field is "". */
  datatype AttendanceRecord = AttendanceRecord(
    id: string,
    studentId: string,
    studentName: string,
    className: string,
    date: string,
    time: string,
    status: string,
    notes: string,
    note: string,
    catatan: string)

  datatype Bucket = Present | Sick | Permitted | Absent

  /** The English status code for a bucket. */
  function EnglishCode(b: Bucket): string {
    match b
    case Present => "present"
    case Sick => "sick"
    case Permitted => "permitted"
    case Absent => "absent"
  }

  /** The Indonesian status code for a bucket. */
  function LocalCode(b: Bucket): string {
    match b
    case Present => "hadir"
    case Sick => "sakit"
    case Permitted => "izin"
    case Absent => "alpha"
  }

  /** The display label shared by every table for a recognised status. */
  function Label(b: Bucket): string {
    match b
    case Present => "Hadir"
    case Sick => "Sakit"
    case Permitted => "Izin"
    case Absent => "Alpha"
  }

  /**
   * The if/else-if chain every counting loop uses. A status selects bucket
   * `k` exactly when it is one of `k`'s two codes; other statuses select none.
   */
  function Classify(status: string): Option<Bucket> {
    if status == "present" || status == "hadir" then Some(Present)
    else if status == "sick" || status == "sakit" then Some(Sick)
    else if status == "permitted" || status == "izin" then Some(Permitted)
    else if status == "absent" || status == "alpha" then Some(Absent)
    else None
  }

  /** Both codes of every bucket, and nothing else, classify into that bucket. */
  lemma ClassifyCodes(status: string)
    ensures forall k :: Classify(status) == Some(k) <==> (status == EnglishCode(k) || status == LocalCode(k))
    ensures Classify(status).None? <==> forall k :: status != EnglishCode(k) && status != LocalCode(k)
  {
  }

  /** The four per-status counters (hadir/sakit/izin/alpha). */
  datatype Counts = Counts(present: nat, sick: nat, permitted: nat, absent: nat) {

    function Get(b: Bucket): nat {
      match b
      case Present => present
      case Sick => sick
      case Permitted => permitted
      case Absent => absent
    }

    /** present + sick + permitted + absent. */
    function Sum(): nat {
      present + sick + permitted + absent
    }

    function Add(o: Counts): Counts {
      Counts(present + o.present, sick + o.sick, permitted + o.permitted, absent + o.absent)
    }
  }

  const Zero := Counts(0, 0, 0, 0)

  /** What one record adds to the counters: one in its bucket, or nothing. */
  function One(k: Option<Bucket>): (c: Counts)
    ensures c.Sum() <= 1
  {
    match k
    case Some(Present) => Counts(1, 0, 0, 0)
    case Some(Sick) => Counts(0, 1, 0, 0)
    case Some(Permitted) => Counts(0, 0, 1, 0)
    case Some(Absent) => Counts(0, 0, 0, 1)
    case None => Zero
  }

  lemma OneGet(k: Option<Bucket>, b: Bucket)
    ensures One(k).Get(b) == if k == Some(b) then 1 else 0
  {
    match k {
      case None =>
        assert One(k) == Zero;
      case Some(Present) =>
        assert One(k) == Counts(1, 0, 0, 0);
      case Some(Sick) =>
        assert One(k) == Counts(0, 1, 0, 0);
      case Some(Permitted) =>
        assert One(k) == Counts(0, 0, 1, 0);
      case Some(Absent) =>
        assert One(k) == Counts(0, 0, 0, 1);
    }
  }

  lemma OneSum(k: Option<Bucket>)
    ensures One(k).Sum() == if k.Some? then 1 else 0
  {
  }

  lemma AddGet(x: Counts, y: Counts, b: Bucket)
    ensures x.Add(y).Get(b) == x.Get(b) + y.Get(b)
    ensures x.Add(y).Sum() == x.Sum() + y.Sum()
  {
  }

  lemma AddZero(c: Counts)
    ensures Zero.Add(c) == c
  {
  }

  lemma AddZeroRight(c: Counts)
    ensures c.Add(Zero) == c
  {
  }

  lemma AddAssoc(x: Counts, y: Counts, z: Counts)
    ensures x.Add(y).Add(z) == x.Add(y.Add(z))
  {
  }

  /** The classification of every record, in order. */
  function Classes(rs: seq<AttendanceRecord>): (cs: seq<Option<Bucket>>)
    ensures |cs| == |rs|
    ensures forall i :: 0 <= i < |rs| ==> cs[i] == Classify(rs[i].status)
  {
    seq(|rs|, i requires 0 <= i < |rs| => Classify(rs[i].status))
  }

  lemma ClassesAppend(a: seq<AttendanceRecord>, b: seq<AttendanceRecord>)
    ensures Classes(a + b) == Classes(a) + Classes(b)
  {
  }

  /** The counting loop over already-classified records. */
  function CountKinds(ks: seq<Option<Bucket>>): (c: Counts)
    ensures c.Sum() <= |ks|
  {
    if |ks| == 0 then Zero else One(ks[0]).Add(CountKinds(ks[1..]))
  }

  /** `forEach` over the records, adding one to the bucket each status selects. */
  function Tally(rs: seq<AttendanceRecord>): (c: Counts)
    ensures c.Sum() <= |rs|
  {
    CountKinds(Classes(rs))
  }

  lemma KindsCons(ks: seq<Option<Bucket>>)
    requires |ks| > 0
    ensures multiset(ks) == multiset{ks[0]} + multiset(ks[1..])
  {
    assert ks == [ks[0]] + ks[1..];
  }

  lemma {:induction false} CountKindsMultiset(ks: seq<Option<Bucket>>, b: Bucket)
    ensures CountKinds(ks).Get(b) == multiset(ks)[Some(b)]
  {
    if |ks| > 0 {
      CountKindsMultiset(ks[1..], b);
      KindsCons(ks);
      OneGet(ks[0], b);
      AddGet(One(ks[0]), CountKinds(ks[1..]), b);
    }
  }

  lemma SumStep(ks: seq<Option<Bucket>>)
    requires |ks| > 0
    ensures CountKinds(ks).Sum() == (if ks[0].Some? then 1 else 0) + CountKinds(ks[1..]).Sum()
  {
    var o, r := One(ks[0]), CountKinds(ks[1..]);
    assert CountKinds(ks) == o.Add(r);
    AddGet(o, r, Present);
    if ks[0].Some? {
      assert o.Sum() == 1;
    } else {
      assert o == Zero;
    }
  }

  lemma NoneStep(ks: seq<Option<Bucket>>)
    requires |ks| > 0
    ensures multiset(ks)[None] == (if ks[0].None? then 1 else 0) + multiset(ks[1..])[None]
  {
    KindsCons(ks);
  }

  lemma {:induction false} CountKindsUnrecognised(ks: seq<Option<Bucket>>)
    ensures CountKinds(ks).Sum() + multiset(ks)[None] == |ks|
  {
    if |ks| == 0 {
      assert multiset(ks) == multiset{};
    } else {
      CountKindsUnrecognised(ks[1..]);
      SumStep(ks);
      NoneStep(ks);
    }
  }

  lemma {:induction false} CountKindsAppend(a: seq<Option<Bucket>>, b: seq<Option<Bucket>>)
    ensures CountKinds(a + b) == CountKinds(a).Add(CountKinds(b))
  {
    if |a| == 0 {
      assert a + b == b;
      AddZero(CountKinds(b));
    } else {
      assert (a + b)[1..] == a[1..] + b;
      CountKindsAppend(a[1..], b);
      AddAssoc(One(a[0]), CountKinds(a[1..]), CountKinds(b));
    }
  }

  /** Each counter is the number of records whose status selects its bucket. */
  lemma CountKindsOne(k: Option<Bucket>)
    ensures CountKinds([k]) == One(k)
  {
    assert [k][1..] == [];
    assert CountKinds([k]) == One(k).Add(Zero);
    AddZeroRight(One(k));
  }

  /** Counting one more bucket adds its unit count. */
  lemma CountKindsSnoc(ks: seq<Option<Bucket>>, k: Option<Bucket>)
    ensures CountKinds(ks + [k]) == CountKinds(ks).Add(One(k))
  {
    CountKindsAppend(ks, [k]);
    CountKindsOne(k);
  }

  lemma TallyMultiset(rs: seq<AttendanceRecord>, b: Bucket)
    ensures Tally(rs).Get(b) == multiset(Classes(rs))[Some(b)]
  {
    CountKindsMultiset(Classes(rs), b);
  }

  /** The four counts add up to the record count exactly when every status is recognised. */
  lemma TallyComplete(rs: seq<AttendanceRecord>)
    ensures Tally(rs).Sum() + multiset(Classes(rs))[None] == |rs|
    ensures Tally(rs).Sum() == |rs| <==> forall i :: 0 <= i < |rs| ==> Classify(rs[i].status).Some?
  {
    var cs := Classes(rs);
    CountKindsUnrecognised(cs);
    if Tally(rs).Sum() == |rs| {
      assert None !in multiset(cs);
      forall i | 0 <= i < |rs| ensures Classify(rs[i].status).Some? {
        assert cs[i] in multiset(cs);
      }
    } else {
      assert None in multiset(cs);
      var i :| 0 <= i < |cs| && cs[i] == None;
    }
  }

  /** Counting two batches separately and adding agrees with counting them together. */
  lemma TallyAppend(a: seq<AttendanceRecord>, b: seq<AttendanceRecord>)
    ensures Tally(a + b) == Tally(a).Add(Tally(b))
  {
    ClassesAppend(a, b);
    CountKindsAppend(Classes(a), Classes(b));
  }

  /** Counting one more record adds the unit count of its bucket. */
  lemma TallySnoc(rs: seq<AttendanceRecord>, r: AttendanceRecord)
    ensures Tally(rs + [r]) == Tally(rs).Add(One(Classify(r.status)))
  {
    ClassesAppend(rs, [r]);
    assert Classes([r]) == [Classify(r.status)];
    CountKindsSnoc(Classes(rs), Classify(r.status));
  }

  /** Only the statuses matter to the count. */
  lemma TallySameStatuses(a: seq<AttendanceRecord>, b: seq<AttendanceRecord>)
    requires |a| == |b|
    requires forall i :: 0 <= i < |a| ==> a[i].status == b[i].status
    ensures Tally(a) == Tally(b)
  {
    assert Classes(a) == Classes(b);
  }
}

/** JavaScript's `count / total * 100` before `toFixed`, and `Math.round` of it. */
module Percent {

  import opened Common

  /** A percentage value: `num / den * 100` with `den > 0`, or JavaScript's NaN/Infinity. */
  datatype Percent = Ratio(num: nat, den: nat) | NotANumber | Infinite {
    predicate Finite() {
      Ratio? && den > 0
    }
  }

  /** `count / total * 100`: 0/0 is NaN, n/0 is Infinity, otherwise the exact ratio. */
  function Divide(count: nat, total: nat): (p: Percent)
    ensures total > 0 <==> p.Finite()
    ensures p.Finite() ==> p.num == count && p.den == total
    ensures total == 0 ==> (p == NotANumber <==> count == 0)
  {
    if total > 0 then Ratio(count, total) else if count == 0 then NotANumber else Infinite
  }

  /** As `Divide`, but either operand may be `undefined`, which yields NaN. */
  function DivideOpt(count: Option<nat>, total: Option<nat>): (p: Percent)
    ensures count.None? || total.None? ==> p == NotANumber
    ensures count.Some? && total.Some? ==> p == Divide(count.value, total.value)
  {
    if count.Some? && total.Some? then Divide(count.value, total.value) else NotANumber
  }

  /**
   * `Math.round(part / total * 100)` computed exactly: the integer nearest to
   * `100 * part / total`, halves rounded up.
   */
  function RoundedPercent(part: nat, total: nat): (r: nat)
    requires total > 0
    ensures 2 * total * r <= 200 * part + total < 2 * total * (r + 1)
    ensures part <= total ==> r <= 100
    ensures part == 0 ==> r == 0
    ensures part == total ==> r == 100
  {
    var r := (200 * part + total) / (2 * total);
    RoundBounds(part, total, r);
    r
  }

  lemma RoundBounds(part: nat, total: nat, r: nat)
    requires total > 0
    requires r == (200 * part + total) / (2 * total)
    ensures 2 * total * r <= 200 * part + total < 2 * total * (r + 1)
    ensures part <= total ==> r <= 100
    ensures part == 0 ==> r == 0
    ensures part == total ==> r == 100
  {
    var x, d := 200 * part + total, 2 * total;
    DivBounds(x, d);
    assert d * r <= x < d * (r + 1);
    if part == 0 && r > 0 {
      MulMono(d, 1, r);
    }
    if part <= total && r > 100 {
      MulMono(d, 101, r);
    }
    if part == total && r < 100 {
      MulMono(d, r + 1, 100);
    }
  }

  lemma DivBounds(x: nat, d: nat)
    requires d > 0
    ensures d * (x / d) <= x < d * (x / d + 1)
  {
  }

  lemma MulMono(d: nat, a: nat, b: nat)
    requires a <= b
    ensures d * a <= d * b
  {
  }
}
