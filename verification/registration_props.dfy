/**
 * What `POST /pay-and-book` promises: rejections before any write, rollback
 * on any fault, the exact writes of a successful booking, the room-choice
 * rule, the occupancy bound, and the table invariants it keeps.
 */
module RegistrationProperties {
  import opened Wrappers
  import opened Text
  import opened Store
  import opened Gate
  import opened Registration

  /** The request passed both middlewares and the handler's own checks. */
  predicate Admitted(session: Option<Session>, body: BookingBody) {
    Guard([StudentRole], session).Next? && ValidateBooking(session.value, body).Success?
  }

  /**
   * A student session without a usable student id, or a body without a room
   * type or a positive amount, gets a 400 and no row changes.
   */
  lemma RejectedBeforeTransaction(st: State, session: Option<Session>, body: BookingBody, env: Env)
    requires Authenticated(session) && session.value.role == Some(StudentRole)
    ensures !TruthyId(session.value.studentId) ==>
      PayAndBook(st, session, body, env) == (st, Failure(HttpError(400, NoStudentRecordMessage)))
    ensures TruthyId(session.value.studentId) && (!TruthyText(body.roomType) || !PositivePrice(body.amount)) ==>
      PayAndBook(st, session, body, env) == (st, Failure(HttpError(400, MissingInputMessage)))
  {
  }

  /**
   * A fault in any statement after `beginTransaction` that the request
   * reaches gives a 500 and leaves every table as it was.
   */
  lemma FaultRollsBack(st: State, session: Option<Session>, body: BookingBody, env: Env)
    requires Admitted(session, body)
    requires env.fault.Some? && env.fault.value.step != RoomInsert
    ensures PayAndBook(st, session, body, env).0 == st
    ensures PayAndBook(st, session, body, env).1.Failure?
    ensures PayAndBook(st, session, body, env).1.error.status == 500
    ensures env.fault.value.step == FeeInsert ==>
      PayAndBook(st, session, body, env).1.error.message == FeeFailedMessage
  {
  }

  /**
   * An admitted amount that rounds to 10^8 or more does not fit the
   * `DECIMAL(10,2)` fee column: the fee insert fails whatever else happens,
   * and the handler rolls back and answers 500 "Failed to record fee.".
   */
  lemma OversizedAmountRefused(st: State, session: Option<Session>, body: BookingBody, env: Env)
    requires Admitted(session, body)
    requires Price(body.amount).value >= 99999999.995
    ensures PayAndBook(st, session, body, env) == (st, Failure(HttpError(500, FeeFailedMessage)))
  {
    var x := Price(body.amount).value;
    assert Cents(x) >= x - 0.005;
    assert !StorableAmount(x);
  }

  /**
   * A successful booking appends one PAID fee and one allocation, moves only
   * this student, keeps every other table, and echoes the chosen room.
   */
  lemma BookingEffects(st: State, session: Option<Session>, body: BookingBody, env: Env)
    requires PayAndBook(st, session, body, env).1.Success?
    ensures Admitted(session, body) && session.value.role == Some(StudentRole)
    ensures var out := PayAndBook(st, session, body, env);
      var b := out.1.value;
      var sid := session.value.studentId.value;
      && TruthyId(session.value.studentId)
      && StorableAmount(Price(body.amount).value)
      && out.0.fees == RecordPaidFee(st.fees, sid, Price(body.amount).value, env.today)
      && out.0.allocations == st.allocations + [Allocation(sid, b.roomId, env.today)]
      && out.0.students == SetRoom(st.students, sid, b.roomId)
      && out.0.users == st.users
      && out.0.attendance == st.attendance
      && HasRoom(out.0.rooms, b.roomId)
      && b.roomType == Trim(body.roomType.value)
      && b.feeStatus == Paid
      && (|| out.0.rooms == st.rooms
          || out.0.rooms == st.rooms + [Room(b.roomId, Some(b.roomNo), None, Some(b.roomType),
                                             Some(CapacityForRoomType(b.roomType)))])
  {
  }

  /**
   * The room-choice rule seen from outside: a matching-or-untyped room under
   * the requested capacity is preferred, then any room under it, each time
   * the least occupied; only when none is under it is a room created.
   */
  lemma BookingChoosesRoomByRule(st: State, session: Option<Session>, body: BookingBody, env: Env)
    requires PayAndBook(st, session, body, env).1.Success?
    ensures var out := PayAndBook(st, session, body, env);
      var b := out.1.value;
      var cap := CapacityForRoomType(b.roomType);
      && (SomeEligible(st.rooms, st.students, Some(b.roomType), cap, RequestedOnly) ==>
            exists i :: && 0 <= i < |st.rooms| && st.rooms[i].id == b.roomId
                        && TypeMatches(st.rooms[i], b.roomType)
                        && Occupancy(st.students, b.roomId) < cap
                        && forall j :: 0 <= j < |st.rooms| && Eligible(st.rooms[j], st.students, Some(b.roomType), cap, RequestedOnly) ==>
                             Occupancy(st.students, b.roomId) <= Occupancy(st.students, st.rooms[j].id))
      && (SomeEligible(st.rooms, st.students, None, cap, RequestedOnly) ==>
            && out.0.rooms == st.rooms
            && Occupancy(st.students, b.roomId) < cap)
      && (!SomeEligible(st.rooms, st.students, Some(b.roomType), cap, RequestedOnly) &&
          SomeEligible(st.rooms, st.students, None, cap, RequestedOnly) ==>
            forall j :: 0 <= j < |st.rooms| && Eligible(st.rooms[j], st.students, None, cap, RequestedOnly) ==>
              Occupancy(st.students, b.roomId) <= Occupancy(st.students, st.rooms[j].id))
      && (!SomeEligible(st.rooms, st.students, None, cap, RequestedOnly) ==>
            && b.roomId == NextRoomId(st.rooms)
            && b.roomNo == NewRoomLabel(env.clockMillis)
            && out.0.rooms == st.rooms + [Room(b.roomId, Some(b.roomNo), None, Some(b.roomType), Some(cap))])
  {
    var req := ValidateBooking(session.value, body).value;
    var choice := SelectRoom(st.rooms, st.students, req.roomType, req.capacity, RequestedOnly);
    BookedPlacement(st, session, body, env);
    if choice.Existing? {
      var i := choice.index;
      assert st.rooms[i].id == PayAndBook(st, session, body, env).1.value.roomId;
    }
  }

  /** A successful booking reports, and leaves the room table as, the placement of the selected room. */
  lemma BookedPlacement(st: State, session: Option<Session>, body: BookingBody, env: Env)
    requires PayAndBook(st, session, body, env).1.Success?
    ensures ValidateBooking(session.value, body).Success?
    ensures var req := ValidateBooking(session.value, body).value;
      var choice := SelectRoom(st.rooms, st.students, req.roomType, req.capacity, RequestedOnly);
      var p := Place(st.rooms, choice, req.roomType, req.capacity, env.clockMillis);
      var out := PayAndBook(st, session, body, env);
      && out.1.value == Booking(p.roomId, p.roomNo, req.roomType, Paid)
      && out.0.rooms == p.rooms
      && req.capacity == CapacityForRoomType(req.roomType)
  {
    var req := ValidateBooking(session.value, body).value;
    assert PayAndBook(st, session, body, env) == Book(st, req, env, RequestedOnly);
  }

  /**
   * After a booking the chosen room holds no more students than the
   * requested type's capacity (sequential execution, valid tables).
   */
  lemma BookingRespectsRequestedCapacity(st: State, session: Option<Session>, body: BookingBody, env: Env)
    requires Valid(st)
    requires PayAndBook(st, session, body, env).1.Success?
    ensures var out := PayAndBook(st, session, body, env);
      Occupancy(out.0.students, out.1.value.roomId) <= CapacityForRoomType(out.1.value.roomType)
  {
    var out := PayAndBook(st, session, body, env);
    var req := ValidateBooking(session.value, body).value;
    var choice := SelectRoom(st.rooms, st.students, req.roomType, req.capacity, RequestedOnly);
    var rid := out.1.value.roomId;
    OccupancyAfterSetRoom(st.students, req.studentId, rid);
    CountIdUnique(st.students, req.studentId);
    if choice.Create? {
      assert !HasRoom(st.rooms, rid);
      assert Occupancy(st.students, rid) == 0;
    }
  }

  /** A room already holding the requested capacity is never the one chosen. */
  lemma FullRoomNeverChosen(st: State, session: Option<Session>, body: BookingBody, env: Env, full: Room)
    requires full in st.rooms
    requires PayAndBook(st, session, body, env).1.Success?
    requires Occupancy(st.students, full.id) >= CapacityForRoomType(PayAndBook(st, session, body, env).1.value.roomType)
    ensures PayAndBook(st, session, body, env).1.value.roomId != full.id
  {
    var req := ValidateBooking(session.value, body).value;
    var choice := SelectRoom(st.rooms, st.students, req.roomType, req.capacity, RequestedOnly);
    if choice.Create? {
      var i :| 0 <= i < |st.rooms| && st.rooms[i] == full;
      assert st.rooms[i].id < NextRoomId(st.rooms);
    }
  }

  /** The writes of a booking keep the table invariants. */
  lemma BookingWritesKeepValid(st: State, st': State, sid: int, price: real, today: Date, rid: Id, added: Room)
    requires Valid(st)
    requires st'.fees == RecordPaidFee(st.fees, sid, price, today)
    requires st'.students == SetRoom(st.students, sid, rid)
    requires st'.users == st.users
    requires st'.rooms == st.rooms || (st'.rooms == st.rooms + [added] && added.id == NextRoomId(st.rooms))
    requires HasRoom(st'.rooms, rid)
    ensures Valid(st')
  {
    assert StudentIds(st'.students) == StudentIds(st.students);
    if st'.rooms != st.rooms {
      assert RoomIds(st'.rooms) == RoomIds(st.rooms) + [added.id];
      AppendKeepsIncreasing(RoomIds(st.rooms), added.id);
    }
    forall i | 0 <= i < |st'.students| && st'.students[i].roomId.Some?
      ensures HasRoom(st'.rooms, st'.students[i].roomId.value)
    {
      if st.students[i].id != sid {
        var k :| 0 <= k < |st.rooms| && st.rooms[k].id == st.students[i].roomId.value;
        assert st'.rooms[k] == st.rooms[k];
      }
    }
  }

  /** Booking keeps keys unique and every `student.room_id` pointing at a room. */
  lemma BookingPreservesValid(st: State, session: Option<Session>, body: BookingBody, env: Env)
    requires Valid(st)
    ensures Valid(PayAndBook(st, session, body, env).0)
  {
    var out := PayAndBook(st, session, body, env);
    if out.1.Success? {
      BookingEffects(st, session, body, env);
      BookingChoosesRoomByRule(st, session, body, env);
      var b := out.1.value;
      var added := Room(b.roomId, Some(b.roomNo), None, Some(b.roomType), Some(CapacityForRoomType(b.roomType)));
      BookingWritesKeepValid(st, out.0, session.value.studentId.value, Price(body.amount).value, env.today, b.roomId, added);
    }
  }

  /**
   * Booking twice is not an error: each call appends a fee and an allocation,
   * and the student's `room_id` is the second call's room.
   */
  lemma RebookingLastWriteWins(st: State, session: Option<Session>, body1: BookingBody, env1: Env,
                               body2: BookingBody, env2: Env)
    requires PayAndBook(st, session, body1, env1).1.Success?
    requires PayAndBook(PayAndBook(st, session, body1, env1).0, session, body2, env2).1.Success?
    ensures var mid := PayAndBook(st, session, body1, env1).0;
      var out := PayAndBook(mid, session, body2, env2);
      var sid := session.value.studentId.value;
      && |out.0.fees| == |st.fees| + 2
      && |out.0.allocations| == |st.allocations| + 2
      && |out.0.students| == |st.students|
      && (forall i :: 0 <= i < |st.students| && st.students[i].id == sid ==>
            out.0.students[i] == st.students[i].(roomId := Some(out.1.value.roomId)))
      && (forall i :: 0 <= i < |st.students| && st.students[i].id != sid ==>
            out.0.students[i] == st.students[i])
  {
    var first := PayAndBook(st, session, body1, env1);
    var mid := first.0;
    var second := PayAndBook(mid, session, body2, env2);
    var sid := session.value.studentId.value;
    BookingEffects(st, session, body1, env1);
    BookingEffects(mid, session, body2, env2);
    assert |mid.fees| == |st.fees| + 1 && |second.0.fees| == |mid.fees| + 1;
    SetRoomTwice(st.students, sid, first.1.value.roomId, second.1.value.roomId);
  }

  /** Moving a student twice leaves them in the second room and nobody else moved. */
  lemma SetRoomTwice(rows: seq<Student>, id: int, r1: int, r2: int)
    ensures var out := SetRoom(SetRoom(rows, id, r1), id, r2);
      && |out| == |rows|
      && (forall i :: 0 <= i < |rows| && rows[i].id == id ==> out[i] == rows[i].(roomId := Some(r2)))
      && (forall i :: 0 <= i < |rows| && rows[i].id != id ==> out[i] == rows[i])
  {
    var mid := SetRoom(rows, id, r1);
    assert forall i :: 0 <= i < |rows| ==> mid[i].id == rows[i].id;
  }
}
