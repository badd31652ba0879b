/**
 * Properties that span several handlers and pages: what a new student sees
 * after signing up, where a paid fee appears, which `/me` errors the
 * dashboard treats as "no record yet", and that guardians are never asked
 * to pay.
 */
module Journeys {
  import opened Wrappers
  import opened Text
  import opened Store
  import opened Gate
  import opened Registration
  import opened RegistrationProperties
  import opened StudentAccess
  import opened Auth
  import opened DashboardView

  /** Every `student.user_id` is a key the `users` table has already issued. */
  predicate UserRefsIssued(st: State) {
    forall i :: 0 <= i < |st.students| && st.students[i].userId.Some? ==>
      st.students[i].userId.value < NextUserId(st.users)
  }

  /** Every fee and attendance row belongs to a student key already issued. */
  predicate RowRefsIssued(st: State) {
    && (forall i :: 0 <= i < |st.fees| ==> st.fees[i].studentId < NextStudentId(st.students))
    && (forall i :: 0 <= i < |st.attendance| ==> st.attendance[i].studentId < NextStudentId(st.students))
  }

  /** A row appended after rows that do not match the user is the one `OwnStudent` finds. */
  lemma {:induction false} OwnStudentFindsAppended(rows: seq<Student>, p: Student, userId: Option<int>)
    requires userId.Some? && p.userId == userId
    requires forall i :: 0 <= i < |rows| ==> rows[i].userId != userId
    ensures OwnStudent(rows + [p], userId) == Some(p.id as int)
  {
    if |rows| > 0 {
      assert (rows + [p])[1..] == rows[1..] + [p];
      OwnStudentFindsAppended(rows[1..], p, userId);
    }
  }

  /** A student key no fee row carries yet has no fees. */
  lemma {:induction false} FeesOfFreshStudent(fees: seq<Fee>, sid: int)
    requires forall i :: 0 <= i < |fees| ==> fees[i].studentId < sid
    ensures FeesOf(fees, sid) == []
  {
    if |fees| > 0 {
      FeesOfFreshStudent(fees[1..], sid);
    }
  }

  /** A student key no attendance row carries yet has no attendance. */
  lemma {:induction false} AttendanceOfFreshStudent(rows: seq<Attendance>, sid: int)
    requires forall i :: 0 <= i < |rows| ==> rows[i].studentId < sid
    ensures AttendanceOf(rows, sid) == []
  {
    if |rows| > 0 {
      AttendanceOfFreshStudent(rows[1..], sid);
    }
  }

  /**
   * `/me` for a student whose profile row is the last one and the only one
   * linked to their user id, with no fees or attendance yet.
   */
  lemma MeOfFreshProfile(st: State, s: Session, p: Student)
    requires s.role == Some(StudentRole) && s.userId.Some? && s.userId.value != 0
    requires |st.students| > 0 && st.students[|st.students| - 1] == p
    requires p.id != 0 && p.userId == s.userId && p.roomId.None?
    requires forall i :: 0 <= i < |st.students| - 1 ==> st.students[i].userId != s.userId && st.students[i].id < p.id
    requires forall i :: 0 <= i < |st.fees| ==> st.fees[i].studentId < p.id
    requires forall i :: 0 <= i < |st.attendance| ==> st.attendance[i].studentId < p.id
    ensures var me := StudentAccess.Me(st, Some(s));
      && me.Success? && me.value.student == p
      && me.value.room.None? && me.value.fees == [] && me.value.attendance == [] && !me.value.readOnly
  {
    var rows := st.students[..|st.students| - 1];
    assert st.students == rows + [p];
    OwnStudentFindsAppended(rows, p, s.userId);
    assert StudentIdForRequest(st, s) == Some(p.id as int);
    assert FindStudent(st.students, p.id) == Some(p) by {
      var r := FindStudent(st.students, p.id);
      assert r.Some? by { assert st.students[|st.students| - 1].id == p.id; }
      var k :| 0 <= k < |st.students| && st.students[k] == r.value;
      assert k == |st.students| - 1;
    }
    FeesOfFreshStudent(st.fees, p.id);
    AttendanceOfFreshStudent(st.attendance, p.id);
  }

  /**
   * A student who has just signed up finds a profile with no room, no
   * fees and no attendance on `/me`, and the dashboard asks them to pay and
   * register.
   */
  lemma SignedUpStudentSeesEmptyDashboard(st: State, sess: Session, body: SignupBody, hash: Hash)
    requires Signup(st, sess, body, hash, false).result.Success?
    requires SignupRole(body.role) == StudentRole
    requires UserRefsIssued(st) && RowRefsIssued(st)
    ensures var out := Signup(st, sess, body, hash, false);
      var me := StudentAccess.Me(out.state, Some(out.session));
      && me.Success?
      && me.value.student == NewProfile(st.students, NewUser(st.users, body, hash))
      && me.value.room.None? && me.value.fees == [] && me.value.attendance == []
      && !me.value.readOnly
      && ShowPayAndRegister(me.value.fees, None, me.value.readOnly)
  {
    var out := Signup(st, sess, body, hash, false);
    var u := NewUser(st.users, body, hash);
    var p := NewProfile(st.students, u);
    assert out.state.students == st.students + [p];
    assert out.session.userId == Some(u.id as int) && out.session.role == Some(StudentRole);
    forall i | 0 <= i < |st.students|
      ensures st.students[i].userId != Some(u.id as int)
    {
      if st.students[i].userId.Some? {
        assert st.students[i].userId.value < NextUserId(st.users);
      }
    }
    MeOfFreshProfile(out.state, out.session, p);
  }

  /** `PAID` is a paid status on the dashboard. */
  lemma PaidStatusKey()
    ensures Lower(Paid) == "paid"
  {
    assert |Lower(Paid)| == 4;
    assert Lower(Paid)[0] == LowerChar('P');
  }

  /** The fee a booking records is the first of its student's fees, marked paid. */
  lemma RecordedFeeListedFirst(fees: seq<Fee>, sid: int, price: real, today: Date, shown: seq<Fee>)
    requires NewestFirst(FeesOf(RecordPaidFee(fees, sid, price, today), sid), shown, FeeKey, FeeLimit)
    ensures var g := RecordPaidFee(fees, sid, price, today)[|fees|];
      |shown| > 0 && shown[0] == g && FeeStatusKey(shown[0]) == "paid"
  {
    var all := RecordPaidFee(fees, sid, price, today);
    var g := all[|fees|];
    assert all == fees + [g];
    forall f | f in all && f.studentId == sid && f != g
      ensures f.feeId < g.feeId
    {
      var i :| 0 <= i < |all| && all[i] == f;
      assert i < |fees|;
    }
    NewestFeeListedFirst(all, sid, shown, g);
    PaidStatusKey();
  }

  /** `/me` for the student a fee was just recorded for lists that fee first. */
  lemma MeListsRecordedFee(st: State, before: seq<Fee>, sid: int, price: real, today: Date, viewer: Option<Session>)
    requires st.fees == RecordPaidFee(before, sid, price, today)
    requires StudentAccess.Me(st, viewer).Success?
    requires StudentAccess.Me(st, viewer).value.student.id as int == sid
    ensures var fees := StudentAccess.Me(st, viewer).value.fees;
      |fees| > 0 && fees[0] == st.fees[|before|] && FeeStatusKey(fees[0]) == "paid" && fees[0].amount == Cents(price)
  {
    var me := StudentAccess.Me(st, viewer).value;
    RecordedFeeListedFirst(before, sid, price, today, me.fees);
  }

  /**
   * After a booking, the fee just recorded is the first fee the booked
   * student's `/me` lists, the dashboard marks it paid, and it shows the
   * amount charged as the fee column keeps it, rounded to cents.
   */
  lemma BookedFeeListedFirst(st: State, session: Option<Session>, body: BookingBody, env: Env, viewer: Option<Session>)
    requires PayAndBook(st, session, body, env).1.Success?
    requires StudentAccess.Me(PayAndBook(st, session, body, env).0, viewer).Success?
    requires StudentAccess.Me(PayAndBook(st, session, body, env).0, viewer).value.student.id as int == session.value.studentId.value
    ensures var out := PayAndBook(st, session, body, env);
      var fees := StudentAccess.Me(out.0, viewer).value.fees;
      && |out.0.fees| == |st.fees| + 1 && Price(body.amount).Finite?
      && |fees| > 0 && fees[0] == out.0.fees[|st.fees|]
      && FeeStatusKey(fees[0]) == "paid"
      && StorableAmount(Price(body.amount).value)
      && fees[0].amount == Cents(Price(body.amount).value)
  {
    BookedFees(st, session, body, env);
    var out := PayAndBook(st, session, body, env);
    MeListsRecordedFee(out.0, st.fees, session.value.studentId.value, Price(body.amount).value, env.today, viewer);
  }

  /** The fee table after a booking: one PAID fee for the session's student. */
  lemma BookedFees(st: State, session: Option<Session>, body: BookingBody, env: Env)
    requires PayAndBook(st, session, body, env).1.Success?
    ensures session.Some? && session.value.studentId.Some? && Price(body.amount).Finite?
    ensures StorableAmount(Price(body.amount).value)
    ensures PayAndBook(st, session, body, env).0.fees ==
      RecordPaidFee(st.fees, session.value.studentId.value, Price(body.amount).value, env.today)
  {
    BookingEffects(st, session, body, env);
  }

  /** Guardians see the dashboard read-only and are never asked to pay, whatever the room. */
  lemma GuardianNeverPrompted(st: State, session: Option<Session>, room: Option<RoomView>)
    requires StudentAccess.Me(st, session).Success?
    requires session.value.role == Some(GuardianRole)
    ensures StudentAccess.Me(st, session).value.readOnly
    ensures !ShowPayAndRegister(StudentAccess.Me(st, session).value.fees, room, StudentAccess.Me(st, session).value.readOnly)
  {
  }

  /** `Lower(e)` starts with `p` when `e` lowercases to it character by character. */
  lemma LowerStartsWith(e: string, p: string)
    requires |p| <= |e|
    requires forall k :: 0 <= k < |p| ==> LowerChar(e[k]) == p[k]
    ensures Contains(Lower(e), p)
  {
    assert Lower(e)[..|p|] == p;
    ContainsAt(Lower(e), p, 0);
  }

  /** A guardian with no linked student is shown the no-record state. */
  lemma GuardianNotLinkedRecognised()
    ensures NoStudentRecord(GuardianNotLinked)
  {
    LowerStartsWith(GuardianNotLinked, NotLinkedPhrase);
  }

  /** A student with no linked record is shown the no-record state. */
  lemma StudentNotLinkedRecognised()
    ensures NoStudentRecord(StudentNotLinked)
  {
    LowerStartsWith(StudentNotLinked, NoRecordPhrase);
  }

  /** A phrase one character shorter than `e` occurs in it only at 0 or 1. */
  lemma ShortNotContained(e: string, sub: string)
    requires |sub| > 0 && |e| == |sub| + 1
    requires e[0] != sub[0] && e[1] != sub[0]
    ensures !Contains(e, sub)
  {
    forall i ensures !OccursAt(e, sub, i) {
      if 0 <= i && i + |sub| <= |e| {
        assert e[i..i + |sub|][0] == e[i];
      }
    }
  }

  /** A dangling student id is reported as an error, not as a missing record. */
  lemma StudentNotFoundShownAsError()
    ensures !NoStudentRecord(StudentNotFound)
  {
    var e := Lower(StudentNotFound);
    assert e[0] == 's' && e[1] == 't';
    ShortNotContained(e, NoRecordPhrase);
    ShortNotContained(e, NotLinkedPhrase);
  }
}
