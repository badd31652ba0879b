/**
 * Two places where the code does not do what its own comments and data
 * promise, each modelled as written with an input that exhibits it, and
 * corrected with the intended property proved.
 *
 * 1. The booking route reads `session.studentId`, which neither sign-up
 *    nor login ever sets, so no student can book.
 * 2. Room selection compares occupancy with the requested type's capacity
 *    only; a room's own `capacity` column is never consulted, so a full
 *    room of another type can be overfilled.
 */
module Findings {
  import opened Wrappers
  import opened Text
  import opened Store
  import opened Gate
  import opened Registration
  import opened RegistrationProperties
  import opened StudentAccess
  import opened Auth
  import opened Journeys

  // --------------------------------------- 1. the unset session student id

  /**
   * As written: a student who has just signed up, on a session nothing has
   * put a student id into, is told to sign up first, whatever they send.
   */
  lemma SignupLeavesBookingClosed(st: State, sess: Session, body: SignupBody, hash: Hash, booking: BookingBody, env: Env)
    requires Signup(st, sess, body, hash, false).result.Success?
    requires SignupRole(body.role) == StudentRole
    requires !TruthyId(sess.studentId)
    ensures var out := Signup(st, sess, body, hash, false);
      PayAndBook(out.state, Some(out.session), booking, env) == (out.state, Failure(HttpError(400, NoStudentRecordMessage)))
  {
    var out := Signup(st, sess, body, hash, false);
    assert Authenticated(Some(out.session));
    RejectedBeforeTransaction(out.state, Some(out.session), booking, env);
  }

  /**
   * As written: after any successful login on such a session the booking
   * route refuses, and for a student account it is the same 400.
   */
  lemma LoginLeavesBookingClosed(st: State, sess: Session, body: LoginBody, hash: Hash, booking: BookingBody, env: Env)
    requires Login(st.users, sess, body, hash).1.Success?
    requires !TruthyId(sess.studentId)
    ensures var s := Login(st.users, sess, body, hash).0;
      && PayAndBook(st, Some(s), booking, env).0 == st
      && PayAndBook(st, Some(s), booking, env).1.Failure?
      && (Authenticated(Some(s)) && s.role == Some(StudentRole) ==>
            PayAndBook(st, Some(s), booking, env).1 == Failure(HttpError(400, NoStudentRecordMessage)))
  {
    var s := Login(st.users, sess, body, hash).0;
    if Authenticated(Some(s)) && s.role == Some(StudentRole) {
      RejectedBeforeTransaction(st, Some(s), booking, env);
    }
  }

  /**
   * Corrected: a student session carries the student row linked to its
   * user, resolved the way the student routes resolve it.
   */
  function LinkStudent(students: seq<Student>, s: Session): (r: Session)
    ensures r.(studentId := s.studentId) == s
  {
    if s.role == Some(StudentRole) then s.(studentId := OwnStudent(students, s.userId)) else s
  }

  /**
   * With the link in place the booking route and `/me` agree on the
   * student of every session that is not a guardian's.
   */
  lemma LinkedSessionAgrees(st: State, s: Session)
    requires s.role != Some(GuardianRole)
    ensures StudentIdForSession(LinkStudent(st.students, s)) == StudentIdForRequest(st, s)
  {
  }

  /** Corrected sign-up: the reply's session is linked to the profile row just inserted. */
  function SignupLinked(st: State, sess: Session, body: SignupBody, hash: Hash, studentInsertFails: bool): (out: Reply)
    ensures var plain := Signup(st, sess, body, hash, studentInsertFails);
      && out.state == plain.state && out.result == plain.result
      && (plain.result.Success? ==> out.session == LinkStudent(plain.state.students, plain.session))
      && (plain.result.Failure? ==> out.session == plain.session)
  {
    var out := Signup(st, sess, body, hash, studentInsertFails);
    if out.result.Success? then out.(session := LinkStudent(out.state.students, out.session)) else out
  }

  /** Corrected login: a successful login links the session to the user's student row. */
  function LoginLinked(st: State, sess: Session, body: LoginBody, hash: Hash): (out: (Session, Result<UserView, HttpError>))
    ensures var plain := Login(st.users, sess, body, hash);
      && out.1 == plain.1
      && (plain.1.Success? ==> out.0 == LinkStudent(st.students, plain.0))
      && (plain.1.Failure? ==> out.0 == sess)
  {
    var plain := Login(st.users, sess, body, hash);
    if plain.1.Success? then (LinkStudent(st.students, plain.0), plain.1) else plain
  }

  /** A booking body the handler accepts, with an amount the fee column can hold. */
  predicate WellFormed(booking: BookingBody) {
    TruthyText(booking.roomType) && PositivePrice(booking.amount) && StorableAmount(Price(booking.amount).value)
  }

  /** An admitted booking with no fault succeeds and moves the session's student. */
  lemma AdmittedBookingSucceeds(st: State, session: Option<Session>, booking: BookingBody, env: Env)
    requires Admitted(session, booking) && env.fault.None?
    requires StorableAmount(Price(booking.amount).value)
    ensures var booked := PayAndBook(st, session, booking, env);
      var sid := session.value.studentId.value;
      && booked.1.Success?
      && booked.0.students == SetRoom(st.students, sid, booked.1.value.roomId)
      && booked.0.fees == RecordPaidFee(st.fees, sid, Price(booking.amount).value, env.today)
  {
    var req := ValidateBooking(session.value, booking).value;
    assert !FailsAt(env, FeeInsert) && !FailsAt(env, RoomLookup) && !FailsAt(env, RoomInsert);
    assert !FailsAt(env, StudentUpdate) && !FailsAt(env, AllocationInsert) && !FailsAt(env, Commit);
    assert PayAndBook(st, session, booking, env) == Book(st, req, env, RequestedOnly);
  }

  /** Corrected sign-up of a student links the session to the profile row it inserted. */
  lemma SignupLinksNewProfile(st: State, sess: Session, body: SignupBody, hash: Hash)
    requires Signup(st, sess, body, hash, false).result.Success?
    requires SignupRole(body.role) == StudentRole
    requires UserRefsIssued(st)
    ensures var s := SignupLinked(st, sess, body, hash, false).session;
      && Authenticated(Some(s)) && s.role == Some(StudentRole)
      && s.studentId == Some(NextStudentId(st.students) as int)
  {
    var plain := Signup(st, sess, body, hash, false);
    var u := NewUser(st.users, body, hash);
    var p := NewProfile(st.students, u);
    assert plain.state.students == st.students + [p];
    forall i | 0 <= i < |st.students|
      ensures st.students[i].userId != Some(u.id as int)
    {
      if st.students[i].userId.Some? {
        assert st.students[i].userId.value < NextUserId(st.users);
      }
    }
    OwnStudentFindsAppended(st.students, p, Some(u.id as int));
  }

  /**
   * Corrected: a student who has just signed up can pay and book, and the
   * booking moves the profile row the sign-up created.
   */
  lemma SignupThenBookSucceeds(st: State, sess: Session, body: SignupBody, hash: Hash, booking: BookingBody, env: Env)
    requires Signup(st, sess, body, hash, false).result.Success?
    requires SignupRole(body.role) == StudentRole
    requires UserRefsIssued(st)
    requires WellFormed(booking) && env.fault.None?
    ensures var out := SignupLinked(st, sess, body, hash, false);
      var booked := PayAndBook(out.state, Some(out.session), booking, env);
      var sid := NextStudentId(st.students);
      && booked.1.Success?
      && booked.0.students == SetRoom(out.state.students, sid, booked.1.value.roomId)
      && booked.0.fees == RecordPaidFee(out.state.fees, sid, Price(booking.amount).value, env.today)
  {
    var out := SignupLinked(st, sess, body, hash, false);
    SignupLinksNewProfile(st, sess, body, hash);
    AdmittedBookingSucceeds(out.state, Some(out.session), booking, env);
  }

  /**
   * Corrected: a student whose account has a profile row can pay and book
   * after logging in, and the booking moves the row `/me` shows them.
   */
  lemma LoginThenBookSucceeds(st: State, sess: Session, body: LoginBody, hash: Hash, booking: BookingBody, env: Env)
    requires LoginLinked(st, sess, body, hash).1.Success?
    requires Authenticated(Some(Login(st.users, sess, body, hash).0))
    requires Login(st.users, sess, body, hash).0.role == Some(StudentRole)
    requires TruthyId(StudentIdForRequest(st, Login(st.users, sess, body, hash).0))
    requires WellFormed(booking) && env.fault.None?
    ensures var s := LoginLinked(st, sess, body, hash).0;
      var sid := StudentIdForRequest(st, Login(st.users, sess, body, hash).0).value;
      var booked := PayAndBook(st, Some(s), booking, env);
      && booked.1.Success?
      && booked.0.students == SetRoom(st.students, sid, booked.1.value.roomId)
  {
    var s := LoginLinked(st, sess, body, hash).0;
    AdmittedBookingSucceeds(st, Some(s), booking, env);
  }

  // ------------------------------------------ 2. the room's capacity column

  /** Every room with a `capacity` value holds no more students than it. */
  predicate WithinCapacity(rooms: seq<Room>, students: seq<Student>) {
    forall i :: 0 <= i < |rooms| && rooms[i].capacity.Some? ==>
      Occupancy(students, rooms[i].id) <= rooms[i].capacity.value
  }

  /** A small valid hostel: a full single room, and a student with no room. */
  const SingleRoom := Room(1, Some("101"), None, Some("1-Seater"), Some(1))
  const Occupant := Student(1, None, None, None, None, None, None, Some(1))
  const Newcomer := Student(2, None, None, None, None, None, None, None)
  const Hostel := State([Occupant, Newcomer], [SingleRoom], [], [], [], [])
  const NewcomerSession := Session(Some(7), Some(StudentRole), Some(2), None, None, None)
  const TripleRequest := BookingBody(Some("3-Seater"), Some(Finite(100.0)))
  const Quiet := Env(0, 0, None)

  lemma TripleLabelUntrimmed()
    ensures Trim("3-Seater") == "3-Seater"
  {
    var s := "3-Seater";
    assert !IsSpace(s[0]) && !IsSpace(s[1]) && !IsSpace(s[2]) && !IsSpace(s[3]);
    assert !IsSpace(s[4]) && !IsSpace(s[5]) && !IsSpace(s[6]) && !IsSpace(s[7]);
    assert forall k :: 0 <= k < |s| ==> !IsSpace(s[k]);
  }

  lemma SingleNotTriple()
    ensures !SqlEquals("1-Seater", "3-Seater")
  {
    assert Lower("1-Seater")[0] == '1';
    assert Lower("3-Seater")[0] == '3';
  }

  /** The request as the handler validates it. */
  lemma TripleRequestValidated()
    ensures ValidateBooking(NewcomerSession, TripleRequest) == Success(BookingRequest(2, "3-Seater", 3, 100.0))
  {
    TripleLabelUntrimmed();
    BookingPageLabels();
  }

  /** Occupancies of the example before and after the newcomer is moved into room 1. */
  lemma HostelOccupancy()
    ensures Occupancy(Hostel.students, 1) == 1
    ensures Occupancy(SetRoom(Hostel.students, 2, 1), 1) == 2
    ensures Occupancy(SetRoom(Hostel.students, 2, 2), 1) == 1
  {
    var other := SetRoom(Hostel.students, 2, 2);
    assert other == [Occupant, Newcomer.(roomId := Some(2))];
    assert other[1..] == [Newcomer.(roomId := Some(2))];
    var moved := SetRoom(Hostel.students, 2, 1);
    assert moved == [Occupant, Newcomer.(roomId := Some(1))];
    assert moved[1..] == [Newcomer.(roomId := Some(1))];
    assert Hostel.students[1..] == [Newcomer];
  }

  /** The validated example request. */
  const TripleBooking := BookingRequest(2, "3-Seater", 3, 100.0)

  /** The example request reaches the transaction unchanged, under either policy. */
  lemma ExampleAdmitted()
    ensures PayAndBook(Hostel, Some(NewcomerSession), TripleRequest, Quiet) == Book(Hostel, TripleBooking, Quiet, RequestedOnly)
    ensures PayAndBookHonouringRoomCapacity(Hostel, Some(NewcomerSession), TripleRequest, Quiet)
         == Book(Hostel, TripleBooking, Quiet, RoomCapacityToo)
  {
    TripleRequestValidated();
    assert Guard([StudentRole], Some(NewcomerSession)) == Next;
  }

  /** Without a fault the transaction commits: the student moves into the placed room. */
  lemma QuietBookCommits(st: State, req: BookingRequest, policy: CapacityPolicy)
    requires StorableAmount(req.price)
    ensures var c := SelectRoom(st.rooms, st.students, req.roomType, req.capacity, policy);
      var p := Place(st.rooms, c, req.roomType, req.capacity, Quiet.clockMillis);
      var out := Book(st, req, Quiet, policy);
      && out.1.Success? && out.1.value.roomId == p.roomId
      && out.0.rooms == p.rooms
      && out.0.students == SetRoom(st.students, req.studentId, p.roomId)
  {
    assert !FailsAt(Quiet, FeeInsert) && !FailsAt(Quiet, RoomLookup) && !FailsAt(Quiet, RoomInsert);
    assert !FailsAt(Quiet, StudentUpdate) && !FailsAt(Quiet, AllocationInsert) && !FailsAt(Quiet, Commit);
    var withFee := st.(fees := RecordPaidFee(st.fees, req.studentId, req.price, Quiet.today));
    assert withFee.rooms == st.rooms && withFee.students == st.students;
  }

  /** The example's tables satisfy every invariant, and its one room is within capacity. */
  lemma HostelValid()
    ensures Valid(Hostel) && WithinCapacity(Hostel.rooms, Hostel.students)
  {
    HostelOccupancy();
    assert StudentIds(Hostel.students) == [1, 2];
    assert RoomIds(Hostel.rooms) == [1];
    assert Hostel.rooms[0] == SingleRoom;
  }

  /** As written, the triple request falls through to the any-type query and gets the single room. */
  lemma HostelSelection()
    ensures SelectRoom(Hostel.rooms, Hostel.students, "3-Seater", 3, RequestedOnly) == Existing(0)
  {
    HostelOccupancy();
    SingleNotTriple();
    assert Hostel.rooms[0] == SingleRoom;
    assert Eligible(SingleRoom, Hostel.students, None, 3, RequestedOnly);
  }

  /**
   * As written: a request for a triple, when no triple has a free bed, puts
   * the student into the full single room, which ends with two occupants
   * against a capacity of one. The starting tables satisfy every invariant.
   */
  lemma OverbookingExample()
    ensures Valid(Hostel) && WithinCapacity(Hostel.rooms, Hostel.students)
    ensures var out := PayAndBook(Hostel, Some(NewcomerSession), TripleRequest, Quiet);
      && out.1.Success? && out.1.value.roomId == 1
      && Occupancy(out.0.students, 1) == 2
      && !WithinCapacity(out.0.rooms, out.0.students)
  {
    HostelValid();
    HostelOccupancy();
    ExampleAdmitted();
    HostelSelection();
    StoredAmounts();
    QuietBookCommits(Hostel, TripleBooking, RequestedOnly);
    assert Hostel.rooms[0] == SingleRoom;
  }

  /** Corrected: `POST /pay-and-book` with both capacities honoured. */
  function PayAndBookHonouringRoomCapacity(st: State, session: Option<Session>, body: BookingBody, env: Env): (out: (State, Result<Booking, HttpError>))
    ensures out.1.Failure? ==> out.0 == st
    ensures Guard([StudentRole], session).Deny? ==> out == PayAndBook(st, session, body, env)
    ensures Guard([StudentRole], session).Next? && ValidateBooking(session.value, body).Failure? ==>
      out == PayAndBook(st, session, body, env)
  {
    match Guard([StudentRole], session)
    case Deny(e) => (st, Failure(e))
    case Next =>
      match ValidateBooking(session.value, body)
      case Failure(e) => (st, Failure(e))
      case Success(req) => Book(st, req, env, RoomCapacityToo)
  }

  /** Moving one student into an existing room whose column admits one more keeps every room within capacity. */
  lemma MoveIntoAdmittingRoom(rooms: seq<Room>, students: seq<Student>, sid: int, k: nat)
    requires Increasing(RoomIds(rooms)) && Increasing(StudentIds(students))
    requires WithinCapacity(rooms, students)
    requires k < |rooms| && RoomColumnAdmits(rooms[k], students)
    ensures WithinCapacity(rooms, SetRoom(students, sid, rooms[k].id))
  {
    var rid := rooms[k].id;
    forall i | 0 <= i < |rooms| && rooms[i].capacity.Some?
      ensures Occupancy(SetRoom(students, sid, rid), rooms[i].id) <= rooms[i].capacity.value
    {
      if rooms[i].id == rid {
        assert RoomIds(rooms)[i] == RoomIds(rooms)[k];
        assert i == k;
        OccupancyAfterSetRoom(students, sid, rid);
        CountIdUnique(students, sid);
      } else {
        OccupancyOtherRoomAfterSetRoom(students, sid, rid, rooms[i].id);
      }
    }
  }

  /** Moving one student into a newly created room of positive capacity keeps every room within capacity. */
  lemma MoveIntoNewRoom(st: State, sid: int, added: Room)
    requires Valid(st) && WithinCapacity(st.rooms, st.students)
    requires added.id == NextRoomId(st.rooms) && added.capacity.Some? && added.capacity.value >= 1
    ensures WithinCapacity(st.rooms + [added], SetRoom(st.students, sid, added.id))
  {
    var rooms := st.rooms + [added];
    forall i | 0 <= i < |rooms| && rooms[i].capacity.Some?
      ensures Occupancy(SetRoom(st.students, sid, added.id), rooms[i].id) <= rooms[i].capacity.value
    {
      if i == |st.rooms| {
        forall j | 0 <= j < |st.students|
          ensures st.students[j].roomId != Some(added.id as int)
        {
          if st.students[j].roomId.Some? {
            assert HasRoom(st.rooms, st.students[j].roomId.value);
          }
        }
        assert Occupancy(st.students, added.id) == 0;
        OccupancyAfterSetRoom(st.students, sid, added.id);
        CountIdUnique(st.students, sid);
      } else {
        assert rooms[i] == st.rooms[i];
        OccupancyOtherRoomAfterSetRoom(st.students, sid, added.id, rooms[i].id);
      }
    }
  }

  /**
   * Corrected: from valid tables in which every room is within its
   * capacity, a booking leaves every room, old or new, within its capacity.
   */
  lemma HonouringBookingKeepsWithinCapacity(st: State, session: Option<Session>, body: BookingBody, env: Env)
    requires Valid(st) && WithinCapacity(st.rooms, st.students)
    ensures var out := PayAndBookHonouringRoomCapacity(st, session, body, env);
      WithinCapacity(out.0.rooms, out.0.students)
  {
    var out := PayAndBookHonouringRoomCapacity(st, session, body, env);
    if out.1.Success? {
      var req := ValidateBooking(session.value, body).value;
      var choice := SelectRoom(st.rooms, st.students, req.roomType, req.capacity, RoomCapacityToo);
      var p := Place(st.rooms, choice, req.roomType, req.capacity, env.clockMillis);
      assert out.0.rooms == p.rooms;
      assert out.0.students == SetRoom(st.students, req.studentId, p.roomId);
      if choice.Existing? {
        MoveIntoAdmittingRoom(st.rooms, st.students, req.studentId, choice.index);
      } else {
        MoveIntoNewRoom(st, req.studentId, p.rooms[|st.rooms|]);
      }
    }
  }

  /** With the column honoured, no existing room admits the newcomer, so a room is created. */
  lemma HonouringSelection()
    ensures SelectRoom(Hostel.rooms, Hostel.students, "3-Seater", 3, RoomCapacityToo) == Create
    ensures NextRoomId(Hostel.rooms) == 2
  {
    HostelOccupancy();
    assert Hostel.rooms[0] == SingleRoom;
    assert !RoomColumnAdmits(SingleRoom, Hostel.students);
    assert RoomIds(Hostel.rooms) == [1];
  }

  /** Corrected: the example request now opens a new triple instead of overfilling the single. */
  lemma HonouringExample()
    ensures var out := PayAndBookHonouringRoomCapacity(Hostel, Some(NewcomerSession), TripleRequest, Quiet);
      && out.1.Success? && out.1.value.roomId == 2
      && Occupancy(out.0.students, 1) == 1
  {
    ExampleAdmitted();
    HonouringSelection();
    HostelOccupancy();
    StoredAmounts();
    QuietBookCommits(Hostel, TripleBooking, RoomCapacityToo);
  }
}
