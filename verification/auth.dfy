/**
 * The session kept by the authentication context: the signed-in user, the
 * role and school read from the user's document, the copies kept in browser
 * storage, and the rules that change them on an auth-state callback, on
 * sign-up, log-in and log-out, plus the role check used to guard pages.
 */
module Auth {

  import opened Common

  /** The fields of a `users/{uid}` document the context reads; a missing field is `None`. */
  datatype UserDoc = UserDoc(name: string, email: string, role: Option<string>, schoolId: Option<string>)

  /** A `schools/{id}` document as created at sign-up. */
  datatype SchoolDoc = SchoolDoc(name: string, npsn: string, address: string,
                                 principalName: string, principalNip: string, createdBy: string)

  /** The context's state. */
  datatype Session = Session(
    user: Option<string>,
    role: Option<string>,
    schoolId: Option<string>,
    userData: Option<UserDoc>,
    loading: bool)

  /** `localStorage`, key to value. */
  type Storage = map<string, string>

  /** The state on first render: nobody signed in yet, still loading. */
  const Start := Session(None, None, None, None, true)

  /** `localStorage.setItem(k, v)` stores the text of `v`; an absent value is written as "undefined". */
  function Stored(v: Option<string>): string {
    match v
    case Some(s) => s
    case None => "undefined"
  }

  /** What an auth-state callback reports: a user id and the fetched document, or nobody. */
  datatype AuthEvent =
    | SignedIn(uid: string, fetched: Result<Option<UserDoc>>)
    | SignedOut

  /** The storage writes made when a user document is found. */
  function StoreUser(st: Storage, d: UserDoc): (st': Storage)
    ensures "userRole" in st' && st'["userRole"] == Stored(d.role)
    ensures Truthy(d.schoolId) ==> "schoolId" in st' && st'["schoolId"] == d.schoolId.value
    ensures !Truthy(d.schoolId) ==> ("schoolId" in st' <==> "schoolId" in st)
  {
    var st1 := st["userRole" := Stored(d.role)];
    var st2 := if Truthy(d.schoolId) then st1["schoolId" := d.schoolId.value] else st1;
    if d.role == Some("admin") && !Truthy(d.schoolId) then st2["needsSchoolSetup" := "true"]
    else st2 - {"needsSchoolSetup"}
  }

  /**
   * The `onAuthStateChanged` handler. A found document sets role, school and
   * data; a missing document or a failed read leaves them; signing out clears
   * them. Loading ends in every case.
   */
  function OnAuthStateChanged(s: Session, st: Storage, ev: AuthEvent): (r: (Session, Storage))
    ensures !r.0.loading
  {
    match ev
    case SignedIn(uid, fetched) =>
      if fetched.Success? && fetched.value.Some? then
        var d := fetched.value.value;
        (Session(Some(uid), d.role, d.schoolId, Some(d), false), StoreUser(st, d))
      else
        (s.(user := Some(uid), loading := false), st)
    case SignedOut =>
      (Session(None, None, None, None, false), st - {"userRole", "schoolId", "needsSchoolSetup"})
  }

  /** The setup flag is stored exactly for an admin whose document has no school, and then reads "true". */
  lemma SetupFlag(s: Session, st: Storage, uid: string, d: UserDoc)
    ensures var st' := OnAuthStateChanged(s, st, SignedIn(uid, Success(Some(d)))).1;
      ("needsSchoolSetup" in st' <==> d.role == Some("admin") && !Truthy(d.schoolId)) &&
      ("needsSchoolSetup" in st' ==> st'["needsSchoolSetup"] == "true")
  {
  }

  /** Signing out forgets role, school and data, and removes the three stored keys. */
  lemma SignOutClears(s: Session, st: Storage)
    ensures var (s', st') := OnAuthStateChanged(s, st, SignedOut);
      s'.user.None? && s'.role.None? && s'.schoolId.None? && s'.userData.None? &&
      "userRole" !in st' && "schoolId" !in st' && "needsSchoolSetup" !in st'
    ensures forall k :: k in st && k !in {"userRole", "schoolId", "needsSchoolSetup"} ==>
      k in OnAuthStateChanged(s, st, SignedOut).1 && OnAuthStateChanged(s, st, SignedOut).1[k] == st[k]
  {
  }

  /** A read that fails or finds no document keeps the previous role and school. */
  lemma NoDocumentKeepsRole(s: Session, st: Storage, uid: string, fetched: Result<Option<UserDoc>>)
    requires fetched.Failure? || fetched.value.None?
    ensures var (s', st') := OnAuthStateChanged(s, st, SignedIn(uid, fetched));
      s'.role == s.role && s'.schoolId == s.schoolId && s'.user == Some(uid) && st' == st
  {
  }

  /**
   * `checkAuthorization(requiredRoles)`: no role is never authorised, a role
   * with no required list always is, otherwise the role must be listed.
   */
  function CheckAuthorization(role: Option<string>, required: Option<seq<string>>): (ok: bool)
    ensures ok ==> Truthy(role)
  {
    if !Truthy(role) then false
    else if required.None? then true
    else role.value in required.value
  }

  /** Authorisation for a list is membership of the role in it, so a longer list admits more. */
  lemma AuthorizationMonotone(role: Option<string>, a: seq<string>, b: seq<string>)
    requires forall x :: x in a ==> x in b
    ensures CheckAuthorization(role, Some(a)) ==> CheckAuthorization(role, Some(b))
    ensures CheckAuthorization(role, Some(a)) ==> CheckAuthorization(role, None)
  {
  }

  /** The three-way reading of the check. */
  lemma AuthorizationCases(role: Option<string>, required: Option<seq<string>>)
    ensures !Truthy(role) ==> !CheckAuthorization(role, required)
    ensures Truthy(role) && required.None? ==> CheckAuthorization(role, required)
    ensures Truthy(role) && required.Some? ==> (CheckAuthorization(role, required) <==> role.value in required.value)
  {
  }

  /** What `signup` writes: the user document and, for an admin, the school document. */
  datatype Signup = Signup(user: UserDoc, school: Option<SchoolDoc>)

  /** `signup(email, password, name, role)` for a created account with id `uid`. */
  function SignupDocs(uid: string, email: string, name: string, role: string): (r: Signup)
    ensures role == "admin" ==> r.user.schoolId == Some(uid) && r.school == Some(SchoolDoc("", "", "", "", "", uid))
    ensures role != "admin" ==> r.user.schoolId.None? && r.school.None?
    ensures r.user.role == Some(role)
  {
    var schoolId := if role == "admin" then Some(uid) else None;
    var school := if role == "admin" then Some(SchoolDoc("", "", "", "", "", uid)) else None;
    Signup(UserDoc(name, email, Some(role), schoolId), school)
  }

  /** After `signup` the context holds the new role and school id. */
  function AfterSignup(s: Session, uid: string, email: string, name: string, role: string): (s': Session)
    ensures s'.role == Some(role)
    ensures s'.schoolId == (if role == "admin" then Some(uid) else None)
  {
    var docs := SignupDocs(uid, email, name, role);
    s.(role := docs.user.role, schoolId := docs.user.schoolId)
  }

  /**
   * A freshly signed-up admin owns the school whose id is the user id, so the
   * callback that follows never asks for school setup.
   */
  lemma SignupAdminNeedsNoSetup(s: Session, st: Storage, uid: string, email: string, name: string)
    requires uid != ""
    ensures var d := SignupDocs(uid, email, name, "admin").user;
      "needsSchoolSetup" !in OnAuthStateChanged(s, st, SignedIn(uid, Success(Some(d)))).1
  {
  }

  /** `login`: a found document sets role and school id; otherwise nothing changes. */
  function Login(s: Session, fetched: Option<UserDoc>): (s': Session)
    ensures fetched.None? ==> s' == s
    ensures fetched.Some? ==> s'.role == fetched.value.role && s'.schoolId == fetched.value.schoolId
    ensures s'.user == s.user && s'.userData == s.userData
  {
    match fetched
    case Some(d) => s.(role := d.role, schoolId := d.schoolId)
    case None => s
  }

  /** `logout`: role and school id are cleared; user and data wait for the callback. */
  function Logout(s: Session): (s': Session)
    ensures s'.role.None? && s'.schoolId.None?
    ensures s'.user == s.user && s'.userData == s.userData && s'.loading == s.loading
  {
    s.(role := None, schoolId := None)
  }

  /** Log-out followed by its sign-out callback leaves nothing of the session behind. */
  lemma LogoutThenCallback(s: Session, st: Storage)
    ensures OnAuthStateChanged(Logout(s), st, SignedOut).0 == Session(None, None, None, None, false)
    ensures !CheckAuthorization(Logout(s).role, None)
  {
  }
}
