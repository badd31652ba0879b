/**
 * The student-record routes: which student a session may see
 * (`getStudentIdForRequest`), the `/me` profile with its newest fees and
 * attendance, the admin-only `/list`, and the `/:id` access rule.
 */
module StudentAccess {
  import opened Wrappers
  import opened Text
  import opened Store
  import opened Gate
  import opened Ordering

  const GuardianNotLinked := "No student linked to your account."
  const StudentNotLinked := "No student record linked to your account."
  const StudentNotFound := "Student not found."
  const InvalidStudentId := "Invalid student ID."
  const AccessDenied := "Access denied."

  /** How many fee rows and attendance rows `/me` returns. */
  const FeeLimit := 20
  const AttendanceLimit := 30

  /** The first student row linked to a user (`WHERE user_id = ?`); a NULL user id matches none. */
  function OwnStudent(rows: seq<Student>, userId: Option<int>): (r: Option<int>)
    ensures r.Some? <==> userId.Some? && exists i :: 0 <= i < |rows| && rows[i].userId == userId
    ensures r.Some? ==> exists i :: 0 <= i < |rows| && rows[i].userId == userId && rows[i].id == r.value
  {
    if userId.None? || |rows| == 0 then None
    else if rows[0].userId == userId then Some(rows[0].id)
    else
      var r := OwnStudent(rows[1..], userId);
      assert forall i :: 1 <= i < |rows| ==> rows[i] == rows[1..][i - 1];
      assert r.Some? ==> exists i :: 0 <= i < |rows| - 1 && rows[1..][i].userId == userId && rows[1..][i].id == r.value;
      r
  }

  /**
   * `getStudentIdForRequest`: a student resolves through the `user_id`
   * column, a guardian through the session's linked id (0 counts as none),
   * every other role to none.
   */
  function StudentIdForRequest(st: State, s: Session): (r: Option<int>)
    ensures s.role == Some(StudentRole) ==> r == OwnStudent(st.students, s.userId)
    ensures s.role == Some(GuardianRole) ==> r == OrNull(s.linkedStudentId)
    ensures s.role != Some(StudentRole) && s.role != Some(GuardianRole) ==> r.None?
  {
    if s.role == Some(StudentRole) then OwnStudent(st.students, s.userId)
    else if s.role == Some(GuardianRole) then OrNull(s.linkedStudentId)
    else None
  }

  // ------------------------------------------------------------------ /me

  /** The rows of one student (`WHERE student_id = ?`), in scan order. */
  function FeesOf(fees: seq<Fee>, sid: int): (r: seq<Fee>)
    ensures forall f :: f in r <==> f in fees && f.studentId == sid
    ensures |r| <= |fees|
  {
    if |fees| == 0 then []
    else (if fees[0].studentId == sid then [fees[0]] else []) + FeesOf(fees[1..], sid)
  }

  function AttendanceOf(rows: seq<Attendance>, sid: int): (r: seq<Attendance>)
    ensures forall a :: a in r <==> a in rows && a.studentId == sid
    ensures |r| <= |rows|
  {
    if |rows| == 0 then []
    else (if rows[0].studentId == sid then [rows[0]] else []) + AttendanceOf(rows[1..], sid)
  }

  function FeeKey(f: Fee): int { f.feeId }
  /**
   * The sort key of `ORDER BY date DESC`: MySQL ranks NULL below every value,
   * so a row without a date ranks below every dated row.
   */
  function DayKey(a: Attendance): (k: int)
    ensures k >= -1
    ensures a.date.None? <==> k < 0
    ensures a.date.Some? ==> k == a.date.value
  {
    if a.date.Some? then a.date.value else -1
  }

  /**
   * `shown` is a newest-first selection of `pool` of at most `n` rows: drawn
   * from the pool, ordered by descending key, as long as the limit or the
   * pool allows, and no row left out is newer than a row shown.
   */
  predicate NewestFirst<T(==)>(pool: seq<T>, shown: seq<T>, key: T -> int, n: nat) {
    && |shown| == (if |pool| < n then |pool| else n)
    && multiset(shown) <= multiset(pool)
    && (forall i, j :: 0 <= i < j < |shown| ==> key(shown[i]) >= key(shown[j]))
    && (forall x :: x in pool && x !in shown ==> forall k :: 0 <= k < |shown| ==> key(shown[k]) >= key(x))
  }

  /** `ORDER BY key DESC LIMIT n` over one student's rows. */
  function Newest<T(==)>(pool: seq<T>, key: T -> int, n: nat): (r: seq<T>)
    ensures NewestFirst(pool, r, key, n)
    ensures forall x :: x in r ==> x in pool
  {
    TopDesc(pool, key, n)
  }

  datatype Profile = Profile(
    student: Student,
    room: Option<Room>,
    fees: seq<Fee>,
    attendance: seq<Attendance>,
    readOnly: bool)

  /** The room joined through the student's `room_id`, if that names one. */
  function RoomOf(rooms: seq<Room>, s: Student): (r: Option<Room>)
    ensures r.Some? <==> s.roomId.Some? && HasRoom(rooms, s.roomId.value)
    ensures r.Some? ==> r.value in rooms && Some(r.value.id as int) == s.roomId
  {
    if s.roomId.None? then None else FindRoom(rooms, s.roomId.value)
  }

  /**
   * `GET /api/student/me`: students and guardians only; 404 when the session
   * resolves to no student (the message tells a guardian from a student) or
   * the row is missing; otherwise the record, its room, its 20 newest fees
   * and 30 latest attendance rows, and `readOnly` for guardians.
   */
  function Me(st: State, session: Option<Session>): (r: Result<Profile, HttpError>)
    ensures Guard([StudentRole, GuardianRole], session).Deny? ==>
      r == Failure(Guard([StudentRole, GuardianRole], session).error)
    ensures Guard([StudentRole, GuardianRole], session).Next? ==>
      var sid := StudentIdForRequest(st, session.value);
      && (!TruthyId(sid) ==>
            r == Failure(HttpError(404, if session.value.role == Some(GuardianRole) then GuardianNotLinked else StudentNotLinked)))
      && (TruthyId(sid) && FindStudent(st.students, sid.value).None? ==> r == Failure(HttpError(404, StudentNotFound)))
      && (TruthyId(sid) && FindStudent(st.students, sid.value).Some? ==>
            r.Success? && r.value.student == FindStudent(st.students, sid.value).value)
    ensures r.Success? ==>
      && session.value.role.value in [StudentRole, GuardianRole]
      && (r.value.readOnly <==> session.value.role == Some(GuardianRole))
      && Some(r.value.student.id as int) == StudentIdForRequest(st, session.value)
      && r.value.student in st.students
      && NewestFirst(FeesOf(st.fees, r.value.student.id), r.value.fees, FeeKey, FeeLimit)
      && NewestFirst(AttendanceOf(st.attendance, r.value.student.id), r.value.attendance, DayKey, AttendanceLimit)
      && (r.value.room.Some? <==> r.value.student.roomId.Some? && HasRoom(st.rooms, r.value.student.roomId.value))
      && (r.value.room.Some? ==> r.value.room.value in st.rooms && Some(r.value.room.value.id as int) == r.value.student.roomId)
  {
    match Guard([StudentRole, GuardianRole], session)
    case Deny(e) => Failure(e)
    case Next =>
      var s := session.value;
      var sid := StudentIdForRequest(st, s);
      if !TruthyId(sid) then
        Failure(HttpError(404, if s.role == Some(GuardianRole) then GuardianNotLinked else StudentNotLinked))
      else
        match FindStudent(st.students, sid.value)
        case None => Failure(HttpError(404, StudentNotFound))
        case Some(student) =>
          Success(Profile(
            student,
            RoomOf(st.rooms, student),
            Newest(FeesOf(st.fees, sid.value), FeeKey, FeeLimit),
            Newest(AttendanceOf(st.attendance, sid.value), DayKey, AttendanceLimit),
            s.role == Some(GuardianRole)))
  }

  /**
   * A fee whose id exceeds every other fee id of the student is the first
   * fee `/me` lists.
   */
  lemma NewestFeeListedFirst(fees: seq<Fee>, sid: int, shown: seq<Fee>, g: Fee)
    requires NewestFirst(FeesOf(fees, sid), shown, FeeKey, FeeLimit)
    requires g in fees && g.studentId == sid
    requires forall f :: f in fees && f.studentId == sid && f != g ==> f.feeId < g.feeId
    ensures |shown| > 0 && shown[0] == g
  {
    var pool := FeesOf(fees, sid);
    assert g in pool;
    assert |shown| > 0;
    assert shown[0] in multiset(shown);
    assert shown[0] in pool;
    if g !in shown {
      assert FeeKey(shown[0]) >= FeeKey(g);
    } else {
      var k :| 0 <= k < |shown| && shown[k] == g;
      assert FeeKey(shown[0]) >= FeeKey(shown[k]);
    }
  }

  /**
   * Attendance rows without a date come after every dated row `/me` lists, and
   * none is listed while a dated row of the student is left out.
   */
  lemma UndatedAttendanceListedLast(rows: seq<Attendance>, sid: int, shown: seq<Attendance>)
    requires NewestFirst(AttendanceOf(rows, sid), shown, DayKey, AttendanceLimit)
    ensures forall i, j :: 0 <= i < j < |shown| && shown[i].date.None? ==> shown[j].date.None?
    ensures forall a :: a in rows && a.studentId == sid && a.date.Some? && a !in shown ==>
      forall k :: 0 <= k < |shown| ==> shown[k].date.Some?
  {
    forall i, j | 0 <= i < j < |shown| && shown[i].date.None?
      ensures shown[j].date.None?
    {
      assert DayKey(shown[i]) >= DayKey(shown[j]);
    }
    forall a, k | a in rows && a.studentId == sid && a.date.Some? && a !in shown && 0 <= k < |shown|
      ensures shown[k].date.Some?
    {
      assert a in AttendanceOf(rows, sid);
      assert DayKey(shown[k]) >= DayKey(a);
    }
  }

  // ---------------------------------------------------------------- /list

  /** `GET /api/student/list`: administrators only; every student row. */
  function List(st: State, session: Option<Session>): (r: Result<seq<Student>, HttpError>)
    ensures r.Success? <==> Authenticated(session) && session.value.role == Some(AdminRole)
    ensures r.Failure? ==> r.error == RequireRole([AdminRole], session).error
    ensures r.Success? ==> multiset(r.value) == multiset(st.students)
    ensures r.Success? && Valid(st) ==> Increasing(StudentIds(r.value))
  {
    match Guard([AdminRole], session)
    case Deny(e) => Failure(e)
    case Next => Success(st.students)
  }

  // ---------------------------------------------------------------- /:id

  /**
   * `GET /api/student/:id`: any logged-in session; 400 for an id `parseInt`
   * rejects; the administrator reads any row; every other role gets 403
   * unless the requested id is the one its session resolves to.
   */
  function ById(st: State, session: Option<Session>, idText: string): (r: Result<Student, HttpError>)
    ensures !Authenticated(session) ==> r == Failure(HttpError(401, PleaseLogIn))
    ensures Authenticated(session) && ParseInt(idText).None? ==> r == Failure(HttpError(400, InvalidStudentId))
    ensures Authenticated(session) && ParseInt(idText).Some? ==>
      var id := ParseInt(idText).value;
      var allowed := session.value.role == Some(AdminRole) || StudentIdForRequest(st, session.value) == Some(id);
      && (!allowed ==> r == Failure(HttpError(403, AccessDenied)))
      && (allowed && FindStudent(st.students, id).None? ==> r == Failure(HttpError(404, StudentNotFound)))
      && (allowed && FindStudent(st.students, id).Some? ==> r == Success(FindStudent(st.students, id).value))
    ensures r.Success? ==> r.value in st.students && Some(r.value.id as int) == ParseInt(idText)
  {
    match RequireLogin(session)
    case Deny(e) => Failure(e)
    case Next =>
      var s := session.value;
      match ParseInt(idText)
      case None => Failure(HttpError(400, InvalidStudentId))
      case Some(id) =>
        if s.role != Some(AdminRole) && StudentIdForRequest(st, s) != Some(id) then
          Failure(HttpError(403, AccessDenied))
        else
          match FindStudent(st.students, id)
          case None => Failure(HttpError(404, StudentNotFound))
          case Some(row) => Success(row)
  }

  /**
   * The access rule: a session that is not the administrator's reads a
   * record only if it is its own (student) or its linked one (guardian).
   */
  lemma OnlyOwnRecordUnlessAdmin(st: State, session: Option<Session>, idText: string)
    requires ById(st, session, idText).Success?
    requires session.value.role != Some(AdminRole)
    ensures var row := ById(st, session, idText).value;
      || (session.value.role == Some(StudentRole) &&
            (exists i :: 0 <= i < |st.students| && st.students[i].userId == session.value.userId && st.students[i].id == row.id))
      || (session.value.role == Some(GuardianRole) && session.value.linkedStudentId == Some(row.id as int) && row.id != 0)
  {
  }

  /** A guardian whose session is linked to a student can read that record whenever it exists. */
  lemma GuardianReadsLinkedRecord(st: State, session: Option<Session>, id: nat, rest: string)
    requires Authenticated(session) && session.value.role == Some(GuardianRole)
    requires session.value.linkedStudentId == Some(id as int) && id != 0
    requires FindStudent(st.students, id).Some?
    requires |rest| == 0 || !IsDigit(rest[0])
    ensures ById(st, session, IntToString(id) + rest) == Success(FindStudent(st.students, id).value)
  {
    ParseIntOfIntToString(id, rest);
  }
}
