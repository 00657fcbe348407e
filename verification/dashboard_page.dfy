/**
 * The dashboard landing page: the month-to-date attendance rate handed to
 * the admin and teacher dashboards, the role badge, which dashboard each
 * role sees, and the redirect of an admin who still has to set up a school.
 */
module DashboardPage {

  import opened Common
  import opened Text
  import opened Status
  import opened Percent
  import opened Calendar
  import Auth

  /** `today.substring(0, 8) + '01'`: the first of today's month. */
  function StartOfMonth(today: string): (s: string)
    ensures |today| >= 8 ==> s == today[..8] + "01"
  {
    (if |today| >= 8 then today[..8] else today) + "01"
  }

  /** For an ISO date with a four-digit year, the start of the month is day 01 of that month. */
  lemma StartOfIsoMonth(y: nat, m: nat, d: nat)
    requires 1000 <= y <= 9999 && m < 100
    ensures StartOfMonth(IsoDate(y, m, d)) == IsoDate(y, m, 1)
  {
    FourDigitYear(y);
    TwoDigitsChars(1);
    var p := NatToString(y) + "-" + TwoDigits(m) + "-";
    assert IsoDate(y, m, d) == p + TwoDigits(d);
    assert IsoDate(y, m, d)[..8] == p;
  }

  /** The month-to-date query range starts no later than today: today's own records are included. */
  lemma TodayInRange(y: nat, m: nat, d: nat)
    requires 1000 <= y <= 9999 && m < 100 && 1 <= d <= 31
    ensures StrLe(StartOfMonth(IsoDate(y, m, d)), IsoDate(y, m, d))
  {
    StartOfIsoMonth(y, m, d);
    var p := NatToString(y) + "-" + TwoDigits(m) + "-";
    assert IsoDate(y, m, 1) == p + "01";
    assert IsoDate(y, m, d) == p + TwoDigits(d);
    TwoDigitsChars(1);
    DayBounds(d);
    StrLeCommonPrefix(p, "01", TwoDigits(d));
  }

  /** The counts of the rate loop: `total` counts every record, `present` only hadir/present. */
  datatype RateCounts = RateCounts(present: nat, total: nat)

  /** The `forEach` of the rate computation. */
  method CountRate(rs: seq<AttendanceRecord>) returns (c: RateCounts)
    ensures c.total == |rs|
    ensures c.present == Tally(rs).present
  {
    var present, total := 0, 0;
    var i := 0;
    while i < |rs|
      invariant i <= |rs| && total == i
      invariant present == Tally(rs[..i]).present
    {
      assert rs[..i + 1] == rs[..i] + [rs[i]];
      TallyLast(rs[..i], rs[i]);
      total := total + 1;
      var status := rs[i].status;
      if status == "hadir" || status == "present" {
        present := present + 1;
      }
      i := i + 1;
    }
    assert rs[..i] == rs;
    c := RateCounts(present, total);
  }

  /** Counting one more record adds one to `present` exactly when it is present. */
  lemma TallyLast(rs: seq<AttendanceRecord>, r: AttendanceRecord)
    ensures Tally(rs + [r]).present == Tally(rs).present + (if r.status == "hadir" || r.status == "present" then 1 else 0)
  {
    TallySnoc(rs, r);
    AddGet(Tally(rs), One(Classify(r.status)), Present);
    OneGet(Classify(r.status), Present);
  }

  /** `total > 0 ? Math.round(present / total * 100) : 0`. */
  function Rate(c: RateCounts): (r: nat)
    ensures c.total == 0 ==> r == 0
    ensures c.present <= c.total ==> r <= 100
    ensures 0 < c.total && c.present == c.total ==> r == 100
    ensures c.present == 0 ==> r == 0
  {
    if c.total > 0 then RoundedPercent(c.present, c.total) else 0
  }

  /**
   * The page's attendance rate. Without a school id nothing is fetched, and a
   * read that throws before `setAttendanceRate` (school, students, classes,
   * teachers or the month's attendance) is caught, so the previous rate stays.
   * Otherwise the rate is the rounded share of hadir/present records: at most
   * 100, 0 when no record was fetched, and 100 when every record is present.
   */
  method AttendanceRate(prev: nat, schoolId: Option<string>, failed: bool, rs: seq<AttendanceRecord>) returns (rate: nat)
    ensures !Truthy(schoolId) || failed ==> rate == prev
    ensures Truthy(schoolId) && !failed ==> rate == Rate(RateCounts(Tally(rs).present, |rs|))
    ensures prev <= 100 ==> rate <= 100
    ensures Truthy(schoolId) && !failed ==> rate <= 100
    ensures Truthy(schoolId) && !failed && |rs| == 0 ==> rate == 0
    ensures Truthy(schoolId) && !failed && |rs| > 0 && (forall i :: 0 <= i < |rs| ==> rs[i].status in {"hadir", "present"}) ==>
      rate == 100
  {
    if !Truthy(schoolId) || failed {
      return prev;
    }
    var c := CountRate(rs);
    TallyBound(rs);
    if |rs| > 0 && forall i :: 0 <= i < |rs| ==> rs[i].status in {"hadir", "present"} {
      AllPresent(rs);
    }
    rate := Rate(c);
  }

  lemma TallyBound(rs: seq<AttendanceRecord>)
    ensures Tally(rs).present <= |rs|
  {
    AddGet(Tally(rs), Zero, Present);
  }

  /** When every status is hadir or present, `present` equals the record count. */
  lemma {:induction false} AllPresent(rs: seq<AttendanceRecord>)
    requires forall i :: 0 <= i < |rs| ==> rs[i].status in {"hadir", "present"}
    ensures Tally(rs).present == |rs|
    decreases |rs|
  {
    if |rs| > 0 {
      var init := rs[..|rs| - 1];
      assert rs == init + [rs[|rs| - 1]];
      assert forall i :: 0 <= i < |init| ==> init[i] == rs[i];
      AllPresent(init);
      TallyLast(init, rs[|rs| - 1]);
    }
  }

  /** The badge after the greeting: shown only for a truthy role. */
  function RoleBadge(role: Option<string>): (b: Option<string>)
    ensures b.Some? <==> Truthy(role)
  {
    if !Truthy(role) then None
    else if role.value == "admin" then Some("Administrator")
    else if role.value == "teacher" then Some("Guru")
    else Some("Siswa")
  }

  /** Every truthy role other than admin and teacher is badged as a student. */
  lemma RoleBadgeCases(role: string)
    requires role != ""
    ensures RoleBadge(Some(role)) == Some(if role == "admin" then "Administrator" else if role == "teacher" then "Guru" else "Siswa")
    ensures RoleBadge(Some(role)) == Some("Siswa") <==> role != "admin" && role != "teacher"
  {
  }

  /** The blocks the page can render below the header. */
  datatype View = AdminView | TeacherView | StudentView | NoRoleView

  /** The four conditional blocks, each rendered when its own condition holds. */
  function Views(role: Option<string>): (vs: set<View>)
    ensures NoRoleView in vs <==> !Truthy(role)
  {
    (if role == Some("admin") then {AdminView} else {}) +
    (if role == Some("teacher") then {TeacherView} else {}) +
    (if role == Some("student") then {StudentView} else {}) +
    (if !Truthy(role) then {NoRoleView} else {})
  }

  /** Each known role sees exactly its own dashboard. */
  lemma DispatchKnown(role: Option<string>)
    ensures role == Some("admin") ==> Views(role) == {AdminView}
    ensures role == Some("teacher") ==> Views(role) == {TeacherView}
    ensures role == Some("student") ==> Views(role) == {StudentView}
  {
  }

  /** No role sees only the fallback, and any other role string sees nothing at all. */
  lemma DispatchOther(role: Option<string>)
    ensures !Truthy(role) ==> Views(role) == {NoRoleView}
    ensures Truthy(role) && role.value !in {"admin", "teacher", "student"} ==> Views(role) == {}
  {
  }

  /**
   * The page sends an admin to school setup when the stored flag says so and
   * no school is known: only a page showing the admin dashboard redirects, and
   * never once a school is known or the flag is anything but "true".
   */
  function RedirectsToSetup(role: Option<string>, needsSetup: Option<string>, schoolId: Option<string>): (b: bool)
    ensures b ==> Views(role) == {AdminView}
    ensures Truthy(schoolId) || needsSetup != Some("true") ==> !b
    ensures role == Some("admin") && needsSetup == Some("true") && schoolId.None? ==> b
  {
    role == Some("admin") && needsSetup == Some("true") && !Truthy(schoolId)
  }

  /** The stored flag as the page reads it. */
  function Flag(st: Auth.Storage): Option<string> {
    if "needsSchoolSetup" in st then Some(st["needsSchoolSetup"]) else None
  }

  /**
   * Right after a sign-in that found the user's document, the page redirects
   * exactly when that document is an admin's without a school.
   */
  lemma RedirectAfterSignIn(s: Auth.Session, st: Auth.Storage, uid: string, d: Auth.UserDoc)
    ensures var (s', st') := Auth.OnAuthStateChanged(s, st, Auth.SignedIn(uid, Success(Some(d))));
      RedirectsToSetup(s'.role, Flag(st'), s'.schoolId) <==> d.role == Some("admin") && !Truthy(d.schoolId)
  {
    Auth.SetupFlag(s, st, uid, d);
  }
}
