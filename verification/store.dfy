/**
 * The relational state the handlers read and write: the `student`, `room`,
 * `fees`, `room_allocation`, `users` and `attendance` tables, each a
 * sequence of rows in primary-key scan order. Columns that may be NULL are
 * `Option`s. An AUTO_INCREMENT key is modelled as one more than the
 * largest key in the table.
 */
module Store {
  import opened Wrappers

  /** An AUTO_INCREMENT primary key. */
  type Id = nat

  /**
   * A calendar day (`CURDATE()`), as a day number counted from the earliest
   * day a `DATE` column holds, so no day comes before day 0.
   */
  type Date = nat

  datatype Student = Student(
    id: Id,
    userId: Option<int>,
    code: Option<string>,
    name: Option<string>,
    email: Option<string>,
    guardianName: Option<string>,
    guardianPhone: Option<string>,
    roomId: Option<int>)

  datatype Room = Room(
    id: Id,
    roomNo: Option<string>,
    roomNumber: Option<string>,
    roomType: Option<string>,
    capacity: Option<int>)

  /** A `fees` row; `fee_id` is supplied by the writer, not generated. */
  datatype Fee = Fee(
    feeId: int,
    studentId: int,
    amount: real,
    paymentDate: Option<Date>,
    paymentStatus: Option<string>,
    feeType: Option<string>,
    period: Option<string>,
    status: Option<string>)

  datatype Allocation = Allocation(studentId: int, roomId: int, date: Date)

  /**
   * A `users` row. The sign-up handler writes `email`, `password`, `name` and
   * `linkedStudentId`; the demo seeder writes `loginId` and `passwordHash`.
   */
  datatype User = User(
    id: Id,
    loginId: Option<string>,
    passwordHash: Option<string>,
    email: Option<string>,
    password: Option<string>,
    name: Option<string>,
    role: Option<string>,
    linkedStudentId: Option<int>)

  /** An `attendance` row; its `date` column may be NULL. */
  datatype Attendance = Attendance(studentId: int, date: Option<Date>, status: Option<string>)

  datatype State = State(
    students: seq<Student>,
    rooms: seq<Room>,
    fees: seq<Fee>,
    allocations: seq<Allocation>,
    users: seq<User>,
    attendance: seq<Attendance>)

  // ------------------------------------------------------------- keys

  /** One more than the largest key, 1 for an empty table: the next AUTO_INCREMENT key. */
  function NextKey(keys: seq<nat>): (k: nat)
    ensures k >= 1
    ensures forall i :: 0 <= i < |keys| ==> keys[i] < k
    ensures |keys| == 0 ==> k == 1
    ensures |keys| > 0 ==> exists i :: 0 <= i < |keys| && keys[i] == k - 1
  {
    if |keys| == 0 then 1
    else
      var rest := NextKey(keys[1..]);
      if keys[0] + 1 >= rest then keys[0] + 1
      else
        assert rest - 1 in keys[1..];
        rest
  }

  /** The key column of a table, in scan order. */
  function Keys<T>(rows: seq<T>, key: T -> nat): (ks: seq<nat>)
    ensures |ks| == |rows| && forall i :: 0 <= i < |rows| ==> ks[i] == key(rows[i])
  {
    seq(|rows|, i requires 0 <= i < |rows| => key(rows[i]))
  }

  function StudentIds(rows: seq<Student>): (ks: seq<nat>)
    ensures |ks| == |rows| && forall i :: 0 <= i < |rows| ==> ks[i] == rows[i].id
  {
    Keys(rows, (s: Student) => s.id)
  }

  function RoomIds(rows: seq<Room>): (ks: seq<nat>)
    ensures |ks| == |rows| && forall i :: 0 <= i < |rows| ==> ks[i] == rows[i].id
  {
    Keys(rows, (r: Room) => r.id)
  }

  function UserIds(rows: seq<User>): (ks: seq<nat>)
    ensures |ks| == |rows| && forall i :: 0 <= i < |rows| ==> ks[i] == rows[i].id
  {
    Keys(rows, (u: User) => u.id)
  }

  function NextStudentId(rows: seq<Student>): (k: Id)
    ensures k >= 1 && forall i :: 0 <= i < |rows| ==> rows[i].id < k
  {
    NextKey(StudentIds(rows))
  }

  function NextRoomId(rows: seq<Room>): (k: Id)
    ensures k >= 1 && forall i :: 0 <= i < |rows| ==> rows[i].id < k
  {
    NextKey(RoomIds(rows))
  }

  function NextUserId(rows: seq<User>): (k: Id)
    ensures k >= 1 && forall i :: 0 <= i < |rows| ==> rows[i].id < k
  {
    NextKey(UserIds(rows))
  }

  // ------------------------------------------------------- invariants

  /** Keys strictly increase along the scan order, hence are unique. */
  predicate Increasing(keys: seq<nat>) {
    forall i, j :: 0 <= i < j < |keys| ==> keys[i] < keys[j]
  }

  predicate FeeIdsUnique(fees: seq<Fee>) {
    forall i, j :: 0 <= i < j < |fees| ==> fees[i].feeId != fees[j].feeId
  }

  predicate HasRoom(rooms: seq<Room>, id: int) {
    exists i :: 0 <= i < |rooms| && rooms[i].id == id
  }

  /** Every student's `room_id` is NULL or names an existing room. */
  predicate RoomRefsValid(st: State) {
    forall i :: 0 <= i < |st.students| && st.students[i].roomId.Some? ==>
      HasRoom(st.rooms, st.students[i].roomId.value)
  }

  /** The integrity the handlers keep: unique keys and room references that resolve. */
  predicate Valid(st: State) {
    && Increasing(StudentIds(st.students))
    && Increasing(RoomIds(st.rooms))
    && Increasing(UserIds(st.users))
    && FeeIdsUnique(st.fees)
    && RoomRefsValid(st)
  }

  /** Appending a row whose key exceeds every key keeps the keys increasing. */
  lemma AppendKeepsIncreasing(keys: seq<nat>, k: nat)
    requires Increasing(keys)
    requires forall i :: 0 <= i < |keys| ==> keys[i] < k
    ensures Increasing(keys + [k])
  {
  }

  // ---------------------------------------------------------- queries

  /** The number of rows with `student_id = id`. */
  function CountId(rows: seq<Student>, id: int): (n: nat)
    ensures n <= |rows|
    ensures n == 0 <==> forall i :: 0 <= i < |rows| ==> rows[i].id != id
  {
    if |rows| == 0 then 0
    else (if rows[0].id == id then 1 else 0) + CountId(rows[1..], id)
  }

  lemma {:induction false} CountIdUnique(rows: seq<Student>, id: int)
    requires Increasing(StudentIds(rows))
    ensures CountId(rows, id) <= 1
  {
    if |rows| > 0 {
      assert Increasing(StudentIds(rows[1..])) by {
        assert forall i :: 0 <= i < |rows| - 1 ==> StudentIds(rows[1..])[i] == StudentIds(rows)[i + 1];
      }
      CountIdUnique(rows[1..], id);
      if rows[0].id == id {
        assert forall i :: 0 <= i < |rows| - 1 ==> rows[1..][i].id == rows[i + 1].id;
        assert forall i :: 0 <= i < |rows[1..]| ==> rows[1..][i].id != id by {
          forall i | 0 <= i < |rows[1..]|
            ensures rows[1..][i].id != id
          {
            assert StudentIds(rows)[0] < StudentIds(rows)[i + 1];
          }
        }
      }
    }
  }

  /** Occupancy of a room: the students whose `room_id` equals it. */
  function Occupancy(students: seq<Student>, roomId: int): (n: nat)
    ensures n <= |students|
    ensures n == 0 <==> forall i :: 0 <= i < |students| ==> students[i].roomId != Some(roomId)
  {
    if |students| == 0 then 0
    else (if students[0].roomId == Some(roomId) then 1 else 0) + Occupancy(students[1..], roomId)
  }

  /** The first student row with the given key (`SELECT ... WHERE student_id = ?`). */
  function FindStudent(rows: seq<Student>, id: int): (r: Option<Student>)
    ensures r.Some? ==> r.value in rows && r.value.id == id
    ensures r.None? <==> forall i :: 0 <= i < |rows| ==> rows[i].id != id
  {
    if |rows| == 0 then None
    else if rows[0].id == id then Some(rows[0])
    else FindStudent(rows[1..], id)
  }

  /** The first room row with the given key. */
  function FindRoom(rows: seq<Room>, id: int): (r: Option<Room>)
    ensures r.Some? ==> r.value in rows && r.value.id == id
    ensures r.None? <==> !HasRoom(rows, id)
  {
    if |rows| == 0 then None
    else if rows[0].id == id then Some(rows[0])
    else
      assert forall i :: 1 <= i < |rows| ==> rows[i] == rows[1..][i - 1];
      FindRoom(rows[1..], id)
  }

  // ---------------------------------------------------------- updates

  /** `UPDATE student SET room_id = roomId WHERE student_id = id`. */
  function SetRoom(rows: seq<Student>, id: int, roomId: int): (r: seq<Student>)
    ensures |r| == |rows|
    ensures forall i :: 0 <= i < |rows| && rows[i].id == id ==> r[i] == rows[i].(roomId := Some(roomId))
    ensures forall i :: 0 <= i < |rows| && rows[i].id != id ==> r[i] == rows[i]
  {
    if |rows| == 0 then []
    else
      [if rows[0].id == id then rows[0].(roomId := Some(roomId)) else rows[0]]
      + SetRoom(rows[1..], id, roomId)
  }

  /**
   * Moving one student into a room raises its occupancy by at most the
   * number of rows carrying that student's key.
   */
  lemma {:induction false} OccupancyAfterSetRoom(rows: seq<Student>, id: int, roomId: int)
    ensures Occupancy(SetRoom(rows, id, roomId), roomId) <= Occupancy(rows, roomId) + CountId(rows, id)
  {
    if |rows| > 0 {
      assert SetRoom(rows, id, roomId)[1..] == SetRoom(rows[1..], id, roomId);
      OccupancyAfterSetRoom(rows[1..], id, roomId);
    }
  }

  /** Other rooms never gain occupants when one student moves. */
  lemma {:induction false} OccupancyOtherRoomAfterSetRoom(rows: seq<Student>, id: int, roomId: int, other: int)
    requires other != roomId
    ensures Occupancy(SetRoom(rows, id, roomId), other) <= Occupancy(rows, other)
  {
    if |rows| > 0 {
      assert SetRoom(rows, id, roomId)[1..] == SetRoom(rows[1..], id, roomId);
      OccupancyOtherRoomAfterSetRoom(rows[1..], id, roomId, other);
    }
  }
}
