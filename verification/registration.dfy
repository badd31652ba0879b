/**
 * The pay-and-book engine: request validation, the room-type capacity
 * table, fee-id allocation, least-occupied room selection, and the
 * all-or-nothing write sequence fee → `student.room_id` → allocation.
 */
module Registration {
  import opened Wrappers
  import opened Text
  import opened Store
  import opened Gate

  const NoStudentRecordMessage := "No student record. Please sign up first."
  const MissingInputMessage := "Room type and amount are required."
  const FeeFailedMessage := "Failed to record fee."
  const BookingFailedMessage := "Failed to pay and book room."
  const Paid := "PAID"
  const Yearly := "YEARLY"
  const YearPeriod := "year"

  // ------------------------------------------------------------ session

  /** `getStudentIdForSession`: the session's student id, for the student role only. */
  function StudentIdForSession(s: Session): Option<int> {
    if s.role != Some(StudentRole) then None
    else if s.studentId.Some? then s.studentId
    else None
  }

  lemma StudentIdOnlyForStudents(s: Session)
    ensures StudentIdForSession(s).Some? ==> s.role == Some(StudentRole)
    ensures s.role == Some(StudentRole) ==> StudentIdForSession(s) == s.studentId
  {
  }

  // ----------------------------------------------------------- capacity

  /** The lower-cased type names the capacity `d` (`<d>-seater` inside it, or exactly `d`). */
  predicate Names(roomType: string, d: string) {
    Contains(Lower(roomType), d + "-seater") || Lower(roomType) == d
  }

  /**
   * `capacityForRoomType`: 1, 2 or 3 seats; the 1-seater test wins over the
   * 2-seater test, which wins over the 3-seater test; anything else is 3.
   */
  function CapacityForRoomType(roomType: string): (c: int)
    ensures c == 1 || c == 2 || c == 3
    ensures c == 1 <==> Names(roomType, "1")
    ensures c == 2 <==> !Names(roomType, "1") && Names(roomType, "2")
    ensures c == 3 <==> !Names(roomType, "1") && !Names(roomType, "2")
  {
    if Names(roomType, "1") then 1
    else if Names(roomType, "2") then 2
    else if Names(roomType, "3") then 3
    else 3
  }

  /** The lookup ignores letter case. */
  lemma CapacityIgnoresCase(roomType: string)
    ensures CapacityForRoomType(Lower(roomType)) == CapacityForRoomType(roomType)
  {
    LowerIdempotent(roomType);
  }

  /** Helper: `s` is exactly `d + "-seater"` with `d` a single character, so only `d` names it. */
  lemma SeaterLabel(text: string, d: string)
    requires |d| == 1 && Lower(text) == d + "-seater"
    ensures Names(text, d)
    ensures forall e :: |e| == 1 && e != d ==> !Contains(Lower(text), e + "-seater") && Lower(text) != e
  {
    ContainsPrefix(Lower(text), d + "-seater", "");
    forall e | |e| == 1 && e != d
      ensures !Contains(Lower(text), e + "-seater")
    {
      forall i
        ensures !OccursAt(Lower(text), e + "-seater", i)
      {
        if i == 0 {
          assert Lower(text)[0] != (e + "-seater")[0];
        }
      }
    }
  }

  /** The three labels the booking page offers map to 1, 2 and 3 seats. */
  lemma BookingPageLabels()
    ensures CapacityForRoomType("1-Seater") == 1
    ensures CapacityForRoomType("2-Seater") == 2
    ensures CapacityForRoomType("3-Seater") == 3
  {
    LowerSeaterLabel("1");
    SeaterLabel("1-Seater", "1");
    LowerSeaterLabel("2");
    SeaterLabel("2-Seater", "2");
    LowerSeaterLabel("3");
    SeaterLabel("3-Seater", "3");
  }

  lemma LowerSeaterLabel(d: string)
    requires |d| == 1 && !IsUpper(d[0])
    ensures Lower(d + "-Seater") == d + "-seater"
  {
    var s := d + "-Seater";
    var t := d + "-seater";
    assert |Lower(s)| == |t|;
    forall i | 0 <= i < |t|
      ensures Lower(s)[i] == t[i]
    {
      if i == 2 {
        assert s[i] == 'S' && t[i] == 's';
      } else {
        assert s[i] == t[i] && !IsUpper(s[i]);
      }
    }
  }

  // --------------------------------------------------------- validation

  /** A JavaScript number after `Number(amount)`; infinities are not modelled. */
  datatype JsNumber = NaN | Finite(value: real)

  /** The JSON body of `POST /pay-and-book`; a missing or null field is `None`. */
  datatype BookingBody = BookingBody(roomType: Option<string>, amount: Option<JsNumber>)

  /** A request that passed validation. */
  datatype BookingRequest = BookingRequest(studentId: int, roomType: string, capacity: int, price: real)

  /** The amount as the handler reads it: an absent amount counts as 0. */
  function Price(amount: Option<JsNumber>): JsNumber {
    amount.GetOr(Finite(0.0))
  }

  predicate PositivePrice(amount: Option<JsNumber>) {
    Price(amount).Finite? && Price(amount).value > 0.0
  }

  /** The checks made before the transaction starts; every rejection is a 400. */
  function ValidateBooking(s: Session, body: BookingBody): (r: Result<BookingRequest, HttpError>)
    ensures r.Success? <==> TruthyId(StudentIdForSession(s)) && TruthyText(body.roomType) && PositivePrice(body.amount)
    ensures !TruthyId(StudentIdForSession(s)) ==> r == Failure(HttpError(400, NoStudentRecordMessage))
    ensures TruthyId(StudentIdForSession(s)) && r.Failure? ==> r == Failure(HttpError(400, MissingInputMessage))
    ensures r.Success? ==> && r.value.studentId == s.studentId.value
                           && r.value.roomType == Trim(body.roomType.value)
                           && r.value.capacity == CapacityForRoomType(Trim(body.roomType.value))
                           && r.value.price == body.amount.value.value > 0.0
  {
    var sid := StudentIdForSession(s);
    if sid.None? || sid.value == 0 then
      Failure(HttpError(400, NoStudentRecordMessage))
    else
      var price := if body.amount.Some? then body.amount.value else Finite(0.0);
      if body.roomType.None? || body.roomType.value == "" || price.NaN? || price.value <= 0.0 then
        Failure(HttpError(400, MissingInputMessage))
      else
        var t := Trim(body.roomType.value);
        Success(BookingRequest(sid.value, t, CapacityForRoomType(t), price.value))
  }

  // ---------------------------------------------------------------- fee

  /** `SELECT COALESCE(MAX(fee_id), 0) + 1 FROM fees`. */
  function NextFeeId(fees: seq<Fee>): (k: int)
    ensures forall i :: 0 <= i < |fees| ==> fees[i].feeId < k
    ensures |fees| == 0 ==> k == 1
    ensures |fees| > 0 ==> exists i :: 0 <= i < |fees| && fees[i].feeId == k - 1
  {
    if |fees| == 0 then 1
    else if |fees| == 1 then fees[0].feeId + 1
    else
      var rest := NextFeeId(fees[1..]);
      assert exists i :: 1 <= i < |fees| && fees[i].feeId == rest - 1 by {
        var j :| 0 <= j < |fees[1..]| && fees[1..][j].feeId == rest - 1;
        assert fees[j + 1].feeId == rest - 1;
      }
      if fees[0].feeId + 1 >= rest then fees[0].feeId + 1 else rest
  }

  /**
   * `fees.amount` is `DECIMAL(10,2)`: eight digits before the point and two
   * after, so every stored amount lies strictly between -10^8 and 10^8.
   */
  const AmountBound := 100000000.0

  /** The whole number nearest to `y`, halves rounded up. */
  function RoundHalfUp(y: real): (n: int)
    requires y >= 0.0
    ensures n >= 0 && n as real - 0.5 <= y < n as real + 0.5
  {
    (y + 0.5).Floor
  }

  /**
   * The value a `DECIMAL(10,2)` column keeps: the nearest whole number of
   * cents, halves rounded away from zero.
   */
  function Cents(x: real): (c: real)
    ensures (c * 100.0).Floor as real == c * 100.0
    ensures -0.005 <= c - x <= 0.005
    ensures x >= 0.0 ==> c >= 0.0 && -0.005 < c - x
    ensures x <= 0.0 ==> c <= 0.0 && c - x < 0.005
  {
    if x >= 0.0 then
      var n := RoundHalfUp(x * 100.0);
      WholeCents(n);
      n as real / 100.0
    else
      var n := RoundHalfUp(-x * 100.0);
      WholeCents(-n);
      (-n) as real / 100.0
  }

  lemma WholeCents(n: int)
    ensures ((n as real / 100.0) * 100.0).Floor == n
  {
    assert (n as real / 100.0) * 100.0 == n as real;
  }

  /** An amount already in whole cents is stored as given, so rounding twice changes nothing. */
  lemma {:induction false} CentsIdempotent(x: real)
    ensures Cents(Cents(x)) == Cents(x)
  {
    var c := Cents(x);
    var n := (c * 100.0).Floor;
    assert c == n as real / 100.0;
    if c >= 0.0 {
      assert RoundHalfUp(c * 100.0) == n;
    } else {
      assert RoundHalfUp(-c * 100.0) == -n;
    }
  }

  /** A tenth of a cent is stored as nothing; whole amounts are kept; the largest storable amount and the first refused one. */
  lemma StoredAmounts()
    ensures Cents(0.004) == 0.0 && Cents(0.005) == 0.01
    ensures Cents(100.0) == 100.0 && Cents(5000.0) == 5000.0
    ensures StorableAmount(99999999.99) && !StorableAmount(99999999.995) && !StorableAmount(AmountBound)
  {
    assert RoundHalfUp(0.4) == 0;
    assert RoundHalfUp(0.5) == 1;
    assert RoundHalfUp(10000.0) == 10000;
    assert RoundHalfUp(500000.0) == 500000;
    assert RoundHalfUp(9999999999.0) == 9999999999;
    assert RoundHalfUp(9999999999.5) == 10000000000;
    assert RoundHalfUp(10000000000.0) == 10000000000;
  }

  /** An amount whose rounded value fits the column; MySQL's strict mode refuses any other. */
  predicate StorableAmount(x: real) {
    -AmountBound < Cents(x) < AmountBound
  }

  /** `recordPaidFee`: append one PAID yearly fee under the next fee id, the amount rounded to cents. */
  function RecordPaidFee(fees: seq<Fee>, studentId: int, amount: real, today: Date): (r: seq<Fee>)
    ensures |r| == |fees| + 1 && r[..|fees|] == fees
    ensures forall i :: 0 <= i < |fees| ==> fees[i].feeId < r[|fees|].feeId
    ensures |fees| == 0 ==> r[0].feeId == 1
    ensures var f := r[|fees|];
      && f.studentId == studentId && f.amount == Cents(amount) && f.paymentDate == Some(today)
      && f.paymentStatus == Some(Paid) && f.status == Some(Paid)
      && f.feeType == Some(Yearly) && f.period == Some(YearPeriod)
    ensures FeeIdsUnique(fees) ==> FeeIdsUnique(r)
  {
    fees + [Fee(NextFeeId(fees), studentId, Cents(amount), Some(today), Some(Paid), Some(Yearly), Some(YearPeriod), Some(Paid))]
  }

  // ------------------------------------------------------ room selection

  /**
   * How the occupancy bound is taken. The handler compares occupancy with
   * the requested type's capacity only; `RoomCapacityToo` also honours the
   * room's own `capacity` column when it is set.
   */
  datatype CapacityPolicy = RequestedOnly | RoomCapacityToo

  /** The first query's type filter: same type (SQL collation) or NULL. */
  predicate TypeMatches(r: Room, roomType: string) {
    r.roomType.None? || SqlEquals(r.roomType.value, roomType)
  }

  /** A room's own `capacity` column admits one more student. */
  predicate RoomColumnAdmits(r: Room, students: seq<Student>) {
    r.capacity.None? || Occupancy(students, r.id) < r.capacity.value
  }

  /** A row a selection query may return. `filter` is the type filter, `None` for the second query. */
  predicate Eligible(r: Room, students: seq<Student>, filter: Option<string>, cap: int, policy: CapacityPolicy) {
    && (filter.None? || TypeMatches(r, filter.value))
    && Occupancy(students, r.id) < cap
    && (policy == RoomCapacityToo ==> RoomColumnAdmits(r, students))
  }

  /**
   * `... HAVING occupied < cap ORDER BY occupied ASC LIMIT 1` over the rows
   * from `from` on: an eligible row of least occupancy, the earliest on ties.
   */
  function LeastOccupied(rooms: seq<Room>, students: seq<Student>, filter: Option<string>, cap: int,
                         policy: CapacityPolicy, from: nat): (k: Option<nat>)
    requires from <= |rooms|
    ensures k.Some? ==> from <= k.value < |rooms| && Eligible(rooms[k.value], students, filter, cap, policy)
    ensures k.Some? ==> forall j :: from <= j < |rooms| && Eligible(rooms[j], students, filter, cap, policy) ==>
                          Occupancy(students, rooms[k.value].id) <= Occupancy(students, rooms[j].id)
    ensures k.None? <==> forall j :: from <= j < |rooms| ==> !Eligible(rooms[j], students, filter, cap, policy)
    decreases |rooms| - from
  {
    if from == |rooms| then None
    else
      var rest := LeastOccupied(rooms, students, filter, cap, policy, from + 1);
      if !Eligible(rooms[from], students, filter, cap, policy) then rest
      else if rest.None? || Occupancy(students, rooms[from].id) <= Occupancy(students, rooms[rest.value].id) then Some(from)
      else rest
  }

  /** Where the student goes: an existing row (by index) or a room to create. */
  datatype Choice = Existing(index: nat) | Create

  predicate SomeEligible(rooms: seq<Room>, students: seq<Student>, filter: Option<string>, cap: int, policy: CapacityPolicy) {
    exists j :: 0 <= j < |rooms| && Eligible(rooms[j], students, filter, cap, policy)
  }

  /**
   * The selection rule: the least-occupied eligible room of the requested
   * type (or of no type); failing that, the least-occupied eligible room of
   * any type; failing that, a new room.
   */
  function SelectRoom(rooms: seq<Room>, students: seq<Student>, roomType: string, cap: int, policy: CapacityPolicy): (c: Choice)
    ensures c.Existing? ==> c.index < |rooms| && Eligible(rooms[c.index], students, None, cap, policy)
    ensures SomeEligible(rooms, students, Some(roomType), cap, policy) ==>
      && c.Existing? && TypeMatches(rooms[c.index], roomType)
      && forall j :: 0 <= j < |rooms| && Eligible(rooms[j], students, Some(roomType), cap, policy) ==>
           Occupancy(students, rooms[c.index].id) <= Occupancy(students, rooms[j].id)
    ensures !SomeEligible(rooms, students, Some(roomType), cap, policy) && c.Existing? ==>
      forall j :: 0 <= j < |rooms| && Eligible(rooms[j], students, None, cap, policy) ==>
        Occupancy(students, rooms[c.index].id) <= Occupancy(students, rooms[j].id)
    ensures c.Create? <==> !SomeEligible(rooms, students, None, cap, policy)
  {
    var typed := LeastOccupied(rooms, students, Some(roomType), cap, policy, 0);
    if typed.Some? then
      Existing(typed.value)
    else
      var any := LeastOccupied(rooms, students, None, cap, policy, 0);
      if any.Some? then Existing(any.value) else Create
  }

  // ---------------------------------------------------------- transaction

  /** The statements after `beginTransaction` that can throw. */
  datatype Step = FeeInsert | RoomLookup | RoomInsert | StudentUpdate | AllocationInsert | Commit

  /** A database error raised by one statement, with its `message` text. */
  datatype Fault = Fault(step: Step, message: string)

  /** What the handler takes from its surroundings: today's date, `Date.now()`, and an injected fault. */
  datatype Env = Env(today: Date, clockMillis: nat, fault: Option<Fault>)

  predicate FailsAt(env: Env, step: Step) {
    env.fault.Some? && env.fault.value.step == step
  }

  /** The generic catch: `err.message || 'Failed to pay and book room.'`. */
  function CaughtMessage(env: Env): string {
    if env.fault.Some? && env.fault.value.message != "" then env.fault.value.message else BookingFailedMessage
  }

  /** The success reply: the chosen room and the fee status. */
  datatype Booking = Booking(roomId: Id, roomNo: string, roomType: string, feeStatus: string)

  /** The label reported for an existing room: its `room_no`, else `R-<room_id>`. */
  function RoomLabel(r: Room): string {
    match r.roomNo
    case Some(n) => n
    case None => "R-" + NatToString(r.id)
  }

  /** The label of a created room: `R-` and the last four digits of the clock. */
  function NewRoomLabel(clockMillis: nat): (text: string)
    ensures |text| >= 2 && text[..2] == "R-" && AllDigits(text[2..])
  {
    "R-" + LastChars(NatToString(clockMillis), 4)
  }

  /**
   * Which digits the label keeps: for a clock of at least 1000 ms its
   * thousands, hundreds, tens and units digits, otherwise all of them.
   */
  lemma NewRoomLabelFromClock(clockMillis: nat)
    ensures clockMillis >= 1000 ==>
      NewRoomLabel(clockMillis) ==
        "R-" + [DigitChar(clockMillis / 1000 % 10), DigitChar(clockMillis / 100 % 10),
                DigitChar(clockMillis / 10 % 10), DigitChar(clockMillis % 10)]
    ensures clockMillis < 1000 ==> NewRoomLabel(clockMillis) == "R-" + NatToString(clockMillis)
  {
    ClockSuffix(clockMillis);
  }

  /** The last character `String(n)` prints is the units digit. */
  lemma UnitsDigitLast(n: nat)
    ensures var s := NatToString(n); s[|s| - 1] == DigitChar(n % 10)
  {
  }

  /** A number of at least four digits ends in its thousands, hundreds, tens and units digits. */
  lemma LastFourDigits(n: nat)
    requires n >= 1000
    ensures LastChars(NatToString(n), 4) ==
      [DigitChar(n / 1000 % 10), DigitChar(n / 100 % 10), DigitChar(n / 10 % 10), DigitChar(n % 10)]
  {
    LowDigits(n);
    UnitsDigitLast(n / 1000);
    LastOfAppend(NatToString(n / 1000), [DigitChar(n / 100 % 10), DigitChar(n / 10 % 10), DigitChar(n % 10)]);
  }

  /** `String(n)` for `n >= 1000` is the text of `n / 1000` followed by the three low digits. */
  lemma LowDigits(n: nat)
    requires n >= 1000
    ensures NatToString(n) ==
      NatToString(n / 1000) + [DigitChar(n / 100 % 10), DigitChar(n / 10 % 10), DigitChar(n % 10)]
  {
    assert n / 10 / 10 == n / 100 && n / 100 / 10 == n / 1000;
    assert NatToString(n / 100) == NatToString(n / 1000) + [DigitChar(n / 100 % 10)];
    assert NatToString(n / 10) == NatToString(n / 100) + [DigitChar(n / 10 % 10)];
    assert NatToString(n) == NatToString(n / 10) + [DigitChar(n % 10)];
  }

  /** The last four characters of `p + q`, for `q` of length three. */
  lemma LastOfAppend(p: string, q: string)
    requires |p| >= 1 && |q| == 3
    ensures LastChars(p + q, 4) == [p[|p| - 1]] + q
  {
    assert (p + q)[|p + q| - 4..] == [p[|p| - 1]] + q;
  }

  /** The part of the clock's text that a label keeps. */
  lemma ClockSuffix(n: nat)
    ensures n >= 1000 ==>
      LastChars(NatToString(n), 4) ==
        [DigitChar(n / 1000 % 10), DigitChar(n / 100 % 10), DigitChar(n / 10 % 10), DigitChar(n % 10)]
    ensures n < 1000 ==> LastChars(NatToString(n), 4) == NatToString(n)
  {
    if n >= 1000 {
      LastFourDigits(n);
    } else {
      NatToStringShort(n);
    }
  }

  /** A number below 1000 prints in at most three digits. */
  lemma NatToStringShort(n: nat)
    requires n < 1000
    ensures |NatToString(n)| <= 3
  {
    if n >= 10 {
      NatToStringShort(n / 10);
    }
  }

  /**
   * Created labels repeat every ten seconds once the clock has four digits:
   * two rooms created 10000 ms apart get the same `room_no`, which the
   * `room` table does not forbid.
   */
  lemma NewRoomLabelRepeats(clockMillis: nat)
    requires clockMillis >= 1000
    ensures NewRoomLabel(clockMillis) == NewRoomLabel(clockMillis + 10000)
  {
    var c := clockMillis;
    NewRoomLabelFromClock(c);
    NewRoomLabelFromClock(c + 10000);
    assert (c + 10000) / 1000 == c / 1000 + 10;
    assert (c + 10000) / 100 == c / 100 + 100;
    assert (c + 10000) / 10 == c / 10 + 1000;
    DigitsShift(c / 1000, 10);
    DigitsShift(c / 100, 100);
    DigitsShift(c / 10, 1000);
    DigitsShift(c, 10000);
  }

  /** Adding a multiple of ten leaves the units digit alone. */
  lemma DigitsShift(x: nat, k: nat)
    requires k % 10 == 0
    ensures (x + k) % 10 == x % 10
  {
  }

  /** The room the student is put in and the room table after any insert. */
  datatype Placement = Placement(rooms: seq<Room>, roomId: Id, roomNo: string)

  function Place(rooms: seq<Room>, choice: Choice, roomType: string, cap: int, clockMillis: nat): (p: Placement)
    requires choice.Existing? ==> choice.index < |rooms|
    ensures choice.Existing? ==> p == Placement(rooms, rooms[choice.index].id, RoomLabel(rooms[choice.index]))
    ensures choice.Create? ==>
      && p.roomId == NextRoomId(rooms)
      && p.rooms == rooms + [Room(p.roomId, Some(p.roomNo), None, Some(roomType), Some(cap))]
    ensures HasRoom(p.rooms, p.roomId)
  {
    if choice.Existing? then
      Placement(rooms, rooms[choice.index].id, RoomLabel(rooms[choice.index]))
    else
      var id := NextRoomId(rooms);
      var text := NewRoomLabel(clockMillis);
      var rooms' := rooms + [Room(id, Some(text), None, Some(roomType), Some(cap))];
      assert rooms'[|rooms|].id == id;
      Placement(rooms', id, text)
  }

  /**
   * The transaction: record the fee, pick or create a room, point the
   * student at it, log the allocation, commit. A fault at any step rolls
   * back to the snapshot taken at `beginTransaction`; an amount the fee
   * column cannot hold makes the fee insert fail like any other fault.
   */
  function Book(st: State, req: BookingRequest, env: Env, policy: CapacityPolicy): (out: (State, Result<Booking, HttpError>))
    ensures out.1.Failure? ==> out.0 == st && out.1.error.status == 500
  {
    if FailsAt(env, FeeInsert) || !StorableAmount(req.price) then
      (st, Failure(HttpError(500, FeeFailedMessage)))
    else
      var withFee := st.(fees := RecordPaidFee(st.fees, req.studentId, req.price, env.today));
      var choice := SelectRoom(withFee.rooms, withFee.students, req.roomType, req.capacity, policy);
      if FailsAt(env, RoomLookup) || (choice.Create? && FailsAt(env, RoomInsert)) then
        (st, Failure(HttpError(500, CaughtMessage(env))))
      else
        var p := Place(withFee.rooms, choice, req.roomType, req.capacity, env.clockMillis);
        var withRoom := withFee.(rooms := p.rooms);
        if FailsAt(env, StudentUpdate) then
          (st, Failure(HttpError(500, CaughtMessage(env))))
        else
          var moved := withRoom.(students := SetRoom(withRoom.students, req.studentId, p.roomId));
          if FailsAt(env, AllocationInsert) then
            (st, Failure(HttpError(500, CaughtMessage(env))))
          else
            var logged := moved.(allocations := moved.allocations + [Allocation(req.studentId, p.roomId, env.today)]);
            if FailsAt(env, Commit) then
              (st, Failure(HttpError(500, CaughtMessage(env))))
            else
              (logged, Success(Booking(p.roomId, p.roomNo, req.roomType, Paid)))
  }

  /** `POST /pay-and-book` behind `requireLogin` and `requireRole('student')`. */
  function PayAndBook(st: State, session: Option<Session>, body: BookingBody, env: Env): (out: (State, Result<Booking, HttpError>))
    ensures out.1.Failure? ==> out.0 == st
    ensures !Authenticated(session) ==> out.1 == Failure(HttpError(401, PleaseLogIn))
    ensures Authenticated(session) && session.value.role.value != StudentRole ==>
              out.1 == Failure(HttpError(403, InsufficientPermissions))
  {
    match Guard([StudentRole], session)
    case Deny(e) => (st, Failure(e))
    case Next =>
      match ValidateBooking(session.value, body)
      case Failure(e) => (st, Failure(e))
      case Success(req) => Book(st, req, env, RequestedOnly)
  }
}
