/**
 * The demo seeder: inserts each demo student whose e-mail is not yet
 * present, with a code `AH26-<n+1>` derived from the most recently inserted
 * code and a `users` login row for it; adds three rooms when the room table
 * is empty. It runs in one transaction: a duplicate key rolls every insert
 * back.
 */
module Seed {
  import opened Wrappers
  import opened Text
  import opened Store
  import opened Gate
  import Registration

  const CodePrefix := "AH26-"
  /** The number a code gets when no earlier code can be parsed. */
  const FirstNumber := 101
  const DemoPassword := "Student123!"
  const DemoGuardianName := "Guardian"
  const LoadedMessage := "Demo data loaded (STUDENT + USERS + ROOM). Admin login: ADMIN / ADMIN@10."

  datatype Demo = Demo(name: string, email: string)

  const DemoStudents := [
    Demo("Rahul Kumar", "rahul.student@hostel.demo"),
    Demo("Priya Sharma", "priya.student@hostel.demo"),
    Demo("Amit Singh", "amit.student@hostel.demo")]

  // ----------------------------------------------------- code generation

  /** `student_code LIKE 'AH26-%'`: the first five characters equal the prefix under the collation. */
  predicate LikeCode(code: Option<string>) {
    code.Some? && |code.value| >= |CodePrefix| && SqlEquals(code.value[..|CodePrefix|], CodePrefix)
  }

  /**
   * The row `ORDER BY student_id DESC LIMIT 1` returns among the coded rows:
   * the one with the largest key (the first such row on a tie).
   */
  function LatestCoded(rows: seq<Student>): (r: Option<nat>)
    ensures r.Some? ==> r.value < |rows| && LikeCode(rows[r.value].code)
    ensures r.Some? ==> forall j :: 0 <= j < |rows| && LikeCode(rows[j].code) ==> rows[j].id <= rows[r.value].id
    ensures r.None? <==> forall j :: 0 <= j < |rows| ==> !LikeCode(rows[j].code)
  {
    if |rows| == 0 then None
    else
      var rest := LatestCoded(rows[1..]);
      assert forall j :: 1 <= j < |rows| ==> rows[j] == rows[1..][j - 1];
      if LikeCode(rows[0].code) && (rest.None? || rows[0].id >= rows[1..][rest.value].id) then Some(0)
      else if rest.Some? then Some(rest.value + 1)
      else None
  }

  /** `/AH26-(\d+)/` matches at position `i`: the exact prefix followed by a digit. */
  predicate CodeAt(s: string, i: int) {
    0 <= i && i + |CodePrefix| < |s| && s[i..i + |CodePrefix|] == CodePrefix && IsDigit(s[i + |CodePrefix|])
  }

  /** Matches in `s[1..]` are the matches in `s` one position later. */
  lemma CodeAtShift(s: string)
    requires |s| > 0
    ensures forall i :: 0 <= i ==> (CodeAt(s[1..], i) <==> CodeAt(s, i + 1))
  {
    assert |CodePrefix| == 5;
    forall i | 0 <= i ensures CodeAt(s[1..], i) <==> CodeAt(s, i + 1) {
      if 0 <= i && i + |CodePrefix| < |s| - 1 {
        assert s[1..][i..i + 5] == s[i + 1..i + 6];
        assert s[1..][i + 5] == s[i + 6];
      }
    }
  }

  /** The digits after a match, read from `s` or from `s[1..]` one position earlier. */
  predicate CapturedAt(s: string, i: int, n: nat)
    requires CodeAt(s, i)
  {
    n == DigitsValue(DigitPrefix(s[i + |CodePrefix|..]))
  }

  predicate LeftmostAt(s: string, i: int) {
    CodeAt(s, i) && forall k :: 0 <= k < i ==> !CodeAt(s, k)
  }

  /**
   * The number the pattern captures at its leftmost match: the maximal run
   * of digits after the first exact `AH26-` that a digit follows.
   */
  function CodeNumber(s: string): (r: Option<nat>)
    ensures r.None? <==> forall i :: !CodeAt(s, i)
    ensures r.Some? ==> exists i :: LeftmostAt(s, i) && CapturedAt(s, i, r.value)
    decreases |s|
  {
    if |s| <= |CodePrefix| then None
    else if CodeAt(s, 0) then
      assert LeftmostAt(s, 0);
      Some(DigitsValue(DigitPrefix(s[|CodePrefix|..])))
    else
      var r := CodeNumber(s[1..]);
      CodeAtShift(s);
      if r.Some? then
        var i :| LeftmostAt(s[1..], i) && CapturedAt(s[1..], i, r.value);
        assert s[1..][i + |CodePrefix|..] == s[i + 1 + |CodePrefix|..];
        assert LeftmostAt(s, i + 1) by {
          forall k | 0 <= k < i + 1 ensures !CodeAt(s, k) {
            if k > 0 { assert !CodeAt(s[1..], k - 1); }
          }
        }
        assert CapturedAt(s, i + 1, r.value);
        r
      else
        assert forall i :: !CodeAt(s, i) by {
          forall i ensures !CodeAt(s, i) {
            if i > 0 { assert !CodeAt(s[1..], i - 1); }
          }
        }
        r
  }

  /** The number for the next code: one past the latest code's number, else 101. */
  function NextNumber(rows: seq<Student>): (n: nat)
    ensures n >= 1
    ensures LatestCoded(rows).None? ==> n == FirstNumber
    ensures LatestCoded(rows).Some? ==>
      var latest := rows[LatestCoded(rows).value].code.value;
      && (CodeNumber(latest).Some? ==> n == CodeNumber(latest).value + 1)
      && (CodeNumber(latest).None? ==> n == FirstNumber)
  {
    match LatestCoded(rows)
    case None => FirstNumber
    case Some(i) =>
      match CodeNumber(rows[i].code.value)
      case None => FirstNumber
      case Some(k) => k + 1
  }

  function CodeFor(n: nat): string {
    CodePrefix + NatToString(n)
  }

  /** A generated code parses back to its number: the pattern captures exactly the digits written. */
  lemma CodeForParsesBack(n: nat)
    ensures CodeNumber(CodeFor(n)) == Some(n)
    ensures LikeCode(Some(CodeFor(n)))
  {
    var s := CodeFor(n);
    var d := NatToString(n);
    assert s[..|CodePrefix|] == CodePrefix;
    assert s[|CodePrefix|..] == d;
    assert CodeAt(s, 0);
    DigitPrefixOfDigits(d, []);
    assert d + [] == d;
    DigitsValueOfNatToString(n);
  }

  // ------------------------------------------------------------- inserts

  predicate EmailPresent(rows: seq<Student>, email: string) {
    exists i :: 0 <= i < |rows| && rows[i].email.Some? && SqlEquals(rows[i].email.value, email)
  }

  predicate CodePresent(rows: seq<Student>, code: string) {
    exists i :: 0 <= i < |rows| && rows[i].code.Some? && SqlEquals(rows[i].code.value, code)
  }

  predicate LoginPresent(rows: seq<User>, login: string) {
    exists i :: 0 <= i < |rows| && rows[i].loginId.Some? && SqlEquals(rows[i].loginId.value, login)
  }

  function DemoProfile(rows: seq<Student>, d: Demo, code: string): Student {
    Student(NextStudentId(rows), None, Some(code), Some(d.name), Some(d.email), Some(DemoGuardianName), None, None)
  }

  function DemoLogin(rows: seq<User>, code: string, digest: string): User {
    User(NextUserId(rows), Some(code), Some(digest), None, None, None, Some(StudentRole), None)
  }

  /** Why the transaction was rolled back: a UNIQUE column already held the value. */
  datatype SeedError = DuplicateCode(code: string) | DuplicateLogin(login: string)

  /** What one pass keeps: the other tables, and every existing row as a prefix. */
  predicate Grows(st: State, st': State) {
    && st'.rooms == st.rooms && st'.fees == st.fees
    && st'.allocations == st.allocations && st'.attendance == st.attendance
    && |st.students| <= |st'.students| && st'.students[..|st.students|] == st.students
    && |st.users| <= |st'.users| && st'.users[..|st.users|] == st.users
    && |st'.students| - |st.students| == |st'.users| - |st.users|
  }

  lemma GrowsTransitive(a: State, b: State, c: State)
    requires Grows(a, b) && Grows(b, c)
    ensures Grows(a, c)
  {
    assert c.students[..|a.students|] == c.students[..|b.students|][..|a.students|];
    assert c.users[..|a.users|] == c.users[..|b.users|][..|a.users|];
  }

  /** One pass of the loop body for demo student `d`. */
  function SeedOne(st: State, d: Demo, digest: string): (r: Result<State, SeedError>)
    ensures r.Success? ==> Grows(st, r.value)
    ensures EmailPresent(st.students, d.email) ==> r == Success(st)
    ensures r.Success? && !EmailPresent(st.students, d.email) ==>
      var code := CodeFor(NextNumber(st.students));
      && !CodePresent(st.students, code) && !LoginPresent(st.users, code)
      && r.value == st.(students := st.students + [DemoProfile(st.students, d, code)],
                        users := st.users + [DemoLogin(st.users, code, digest)])
    ensures r.Failure? ==>
      && !EmailPresent(st.students, d.email)
      && var code := CodeFor(NextNumber(st.students));
         r.error == (if CodePresent(st.students, code) then DuplicateCode(code) else DuplicateLogin(code))
  {
    if EmailPresent(st.students, d.email) then Success(st)
    else
      var code := CodeFor(NextNumber(st.students));
      if CodePresent(st.students, code) then Failure(DuplicateCode(code))
      else if LoginPresent(st.users, code) then Failure(DuplicateLogin(code))
      else Success(st.(students := st.students + [DemoProfile(st.students, d, code)],
                       users := st.users + [DemoLogin(st.users, code, digest)]))
  }

  /** The loop over the demo list; the first failure aborts it. */
  function SeedAll(st: State, demos: seq<Demo>, digest: string): (r: Result<State, SeedError>)
    ensures r.Success? ==> Grows(st, r.value)
    decreases |demos|
  {
    if |demos| == 0 then Success(st)
    else
      var one := SeedOne(st, demos[0], digest);
      if one.Failure? then Failure(one.error)
      else
        var r := SeedAll(one.value, demos[1..], digest);
        if r.Success? then
          GrowsTransitive(st, one.value, r.value);
          r
        else r
  }

  /** The three bootstrap rooms, keyed from the next free room id. */
  function BootstrapRooms(rooms: seq<Room>): (added: seq<Room>)
    ensures |added| == 3
    ensures forall k :: 0 <= k < 3 ==> added[k].id == NextRoomId(rooms) + k
    ensures forall k :: 0 <= k < 3 ==> added[k].capacity == Some(k + 1) && added[k].roomNumber.None?
    ensures added[0].roomNo == Some("R-101") && added[0].roomType == Some("1-Seater")
    ensures added[1].roomNo == Some("R-102") && added[1].roomType == Some("2-Seater")
    ensures added[2].roomNo == Some("R-103") && added[2].roomType == Some("3-Seater")
  {
    var base := NextRoomId(rooms);
    [Room(base, Some("R-101"), None, Some("1-Seater"), Some(1)),
     Room(base + 1, Some("R-102"), None, Some("2-Seater"), Some(2)),
     Room(base + 2, Some("R-103"), None, Some("3-Seater"), Some(3))]
  }

  /**
   * Each bootstrap room holds exactly the number of students the booking
   * route derives from its type, so a booking for that type can fill it.
   */
  lemma BootstrapRoomsFitBookingRule(rooms: seq<Room>)
    ensures forall k :: 0 <= k < 3 ==>
      && BootstrapRooms(rooms)[k].roomType.Some?
      && BootstrapRooms(rooms)[k].capacity == Some(Registration.CapacityForRoomType(BootstrapRooms(rooms)[k].roomType.value))
  {
    var b := BootstrapRooms(rooms);
    Registration.BookingPageLabels();
    assert b[0].capacity == Some(Registration.CapacityForRoomType("1-Seater"));
    assert b[1].capacity == Some(Registration.CapacityForRoomType("2-Seater"));
    assert b[2].capacity == Some(Registration.CapacityForRoomType("3-Seater"));
  }

  /** The reply of the seeder. */
  datatype Outcome = Loaded | Denied(error: HttpError) | RolledBack(cause: SeedError)

  /**
   * `POST /api/seed/demo`: administrators only; seeds the demo students, then
   * the rooms if there are none; on a duplicate key nothing is kept.
   */
  function SeedDemo(st: State, session: Option<Session>, hash: string -> string): (out: (State, Outcome))
    ensures Guard([AdminRole], session).Deny? ==> out == (st, Denied(Guard([AdminRole], session).error))
    ensures out.1.RolledBack? ==> out.0 == st
    ensures out.1.Loaded? ==>
      && Guard([AdminRole], session).Next?
      && out.0.fees == st.fees && out.0.allocations == st.allocations && out.0.attendance == st.attendance
      && out.0.rooms == (if |st.rooms| == 0 then BootstrapRooms(st.rooms) else st.rooms)
      && (forall k :: 0 <= k < |DemoStudents| ==> EmailPresent(out.0.students, DemoStudents[k].email))
  {
    match Guard([AdminRole], session)
    case Deny(e) => (st, Denied(e))
    case Next =>
      match SeedAll(st, DemoStudents, hash(DemoPassword))
      case Failure(cause) => (st, RolledBack(cause))
      case Success(seeded) =>
        SeedAllCoversDemos(st, DemoStudents, hash(DemoPassword));
        var rooms := if |seeded.rooms| == 0 then BootstrapRooms(seeded.rooms) else seeded.rooms;
        (seeded.(rooms := rooms), Loaded)
  }

  /** Rows kept as a prefix keep their e-mails present. */
  lemma EmailPresentKept(rows: seq<Student>, rows': seq<Student>, email: string)
    requires |rows| <= |rows'| && rows'[..|rows|] == rows
    requires EmailPresent(rows, email)
    ensures EmailPresent(rows', email)
  {
    var i :| 0 <= i < |rows| && rows[i].email.Some? && SqlEquals(rows[i].email.value, email);
    assert rows'[i] == rows[i];
  }

  /** After one pass the demo student's e-mail is present, found or inserted. */
  lemma SeedOneCovers(st: State, d: Demo, digest: string)
    requires SeedOne(st, d, digest).Success?
    ensures EmailPresent(SeedOne(st, d, digest).value.students, d.email)
  {
    if !EmailPresent(st.students, d.email) {
      var rows := SeedOne(st, d, digest).value.students;
      assert rows[|st.students|].email == Some(d.email);
      LowerIdempotent(d.email);
    }
  }

  /** A successful loop is a successful first pass followed by the rest. */
  lemma SeedAllStep(st: State, demos: seq<Demo>, digest: string)
    requires |demos| > 0 && SeedAll(st, demos, digest).Success?
    ensures SeedOne(st, demos[0], digest).Success?
    ensures SeedAll(SeedOne(st, demos[0], digest).value, demos[1..], digest) == SeedAll(st, demos, digest)
  {
  }

  /** After a successful loop every demo e-mail is present, inserted or found. */
  lemma {:induction false} SeedAllCoversDemos(st: State, demos: seq<Demo>, digest: string)
    requires SeedAll(st, demos, digest).Success?
    ensures forall k :: 0 <= k < |demos| ==> EmailPresent(SeedAll(st, demos, digest).value.students, demos[k].email)
    decreases |demos|
  {
    if |demos| > 0 {
      SeedAllStep(st, demos, digest);
      var mid := SeedOne(st, demos[0], digest).value;
      var out := SeedAll(st, demos, digest).value;
      SeedAllCoversDemos(mid, demos[1..], digest);
      forall k | 0 <= k < |demos|
        ensures EmailPresent(out.students, demos[k].email)
      {
        if k == 0 {
          SeedOneCovers(st, demos[0], digest);
          EmailPresentKept(mid.students, out.students, demos[0].email);
        } else {
          assert demos[k] == demos[1..][k - 1];
        }
      }
    }
  }

  // ---------------------------------------------------------- properties

  /** A coded row whose key exceeds every other key is the latest coded row. */
  lemma StrictMaxIsLatest(rows: seq<Student>, m: nat)
    requires m < |rows| && LikeCode(rows[m].code)
    requires forall j :: 0 <= j < |rows| && j != m ==> rows[j].id < rows[m].id
    ensures LatestCoded(rows) == Some(m)
  {
    var r := LatestCoded(rows).value;
    assert rows[m].id <= rows[r].id;
  }

  /** A freshly keyed coded row is the latest coded row. */
  lemma LatestCodedAppend(rows: seq<Student>, p: Student)
    requires LikeCode(p.code)
    requires forall j :: 0 <= j < |rows| ==> rows[j].id < p.id
    ensures LatestCoded(rows + [p]) == Some(|rows|)
  {
    var all := rows + [p];
    assert all[|rows|] == p;
    assert forall j :: 0 <= j < |all| && j != |rows| ==> all[j].id < all[|rows|].id;
    StrictMaxIsLatest(all, |rows|);
  }

  /** Within one run, each inserted student's code is one past the previous one. */
  lemma ConsecutiveCodes(st: State, d: Demo, digest: string)
    requires SeedOne(st, d, digest).Success? && !EmailPresent(st.students, d.email)
    ensures NextNumber(SeedOne(st, d, digest).value.students) == NextNumber(st.students) + 1
  {
    var n := NextNumber(st.students);
    var p := DemoProfile(st.students, d, CodeFor(n));
    CodeForParsesBack(n);
    LatestCodedAppend(st.students, p);
    assert (st.students + [p])[|st.students|] == p;
  }

  /** With no coded row the first code is `AH26-101`. */
  lemma FirstCode(rows: seq<Student>)
    requires forall j :: 0 <= j < |rows| ==> !LikeCode(rows[j].code)
    ensures CodeFor(NextNumber(rows)) == "AH26-101"
  {
    assert NatToString(101) == "101" by {
      assert NatToString(10) == "10" by {
        assert NatToString(1) == "1";
      }
    }
  }

  /**
   * The latest code is the most recently keyed, not the numerically
   * largest: after `AH26-500` (key 1) and `AH26-102` (key 2) comes 103.
   */
  lemma LatestNotLargest()
    ensures NextNumber([Student(1, None, Some("AH26-500"), None, None, None, None, None),
                        Student(2, None, Some("AH26-102"), None, None, None, None, None)]) == 103
  {
    var rows := [Student(1, None, Some("AH26-500"), None, None, None, None, None),
                 Student(2, None, Some("AH26-102"), None, None, None, None, None)];
    var code := "AH26-102";
    assert code[..5] == CodePrefix;
    LowerIdempotent(CodePrefix);
    assert LikeCode(rows[1].code);
    assert "AH26-500"[..5] == CodePrefix;
    assert LikeCode(rows[0].code);
    assert LatestCoded(rows) == Some(1);
    assert CodeAt(code, 0);
    assert code[5..] == "102";
    DigitPrefixOfDigits("102", []);
    assert "102" + [] == "102";
    assert "102"[..2] == "10" && "10"[..1] == "1" && "1"[..0] == "";
    assert DigitsValue("102") == 102;
  }

  /**
   * The LIKE test follows the collation but the pattern is case-sensitive:
   * a latest code `ah26-500` is found, yet yields no number, so the next
   * code starts again at `AH26-101`.
   */
  lemma LowerCaseCodeRestarts()
    ensures var rows := [Student(1, None, Some("ah26-500"), None, None, None, None, None)];
      && LatestCoded(rows) == Some(0)
      && CodeNumber("ah26-500") == None
      && CodeFor(NextNumber(rows)) == "AH26-101"
  {
    var rows := [Student(1, None, Some("ah26-500"), None, None, None, None, None)];
    var code := "ah26-500";
    var head := code[..5];
    assert head == "ah26-";
    assert !IsUpper(head[0]) && !IsUpper(head[1]) && !IsUpper(head[2]) && !IsUpper(head[3]) && !IsUpper(head[4]);
    LowerOfLowerCase(head);
    var up := Lower(CodePrefix);
    assert up[0] == 'a' && up[1] == 'h' && up[2] == '2' && up[3] == '6' && up[4] == '-';
    assert up == head;
    assert LikeCode(rows[0].code);
    assert forall i :: !CodeAt(code, i) by {
      forall i ensures !CodeAt(code, i) {
        if 0 <= i && i + 5 < |code| {
          assert code[i] != 'A';
          assert code[i..i + 5][0] == code[i];
        }
      }
    }
    FirstCode([]);
  }

  /** A demo student and its login row: the login is named by the student's code. */
  predicate Paired(s: Student, u: User, digest: string) {
    s.code.Some? && u.loginId == s.code && u.role == Some(StudentRole) && u.passwordHash == Some(digest)
  }

  predicate AllPaired(added: seq<Student>, logins: seq<User>, digest: string) {
    |added| == |logins| && forall k :: 0 <= k < |added| ==> Paired(added[k], logins[k], digest)
  }

  lemma AllPairedConcat(a1: seq<Student>, l1: seq<User>, a2: seq<Student>, l2: seq<User>, digest: string)
    requires AllPaired(a1, l1, digest) && AllPaired(a2, l2, digest)
    ensures AllPaired(a1 + a2, l1 + l2, digest)
  {
    forall k | 0 <= k < |a1 + a2|
      ensures Paired((a1 + a2)[k], (l1 + l2)[k], digest)
    {
      if k >= |a1| {
        assert (a1 + a2)[k] == a2[k - |a1|] && (l1 + l2)[k] == l2[k - |a1|];
      }
    }
  }

  /** Every inserted student is paired, in order, with one `student` login named by its code. */
  predicate LoginsPaired(st: State, st': State, digest: string)
    requires Grows(st, st')
  {
    AllPaired(st'.students[|st.students|..], st'.users[|st.users|..], digest)
  }

  lemma SeedOnePairsLogin(st: State, d: Demo, digest: string)
    requires SeedOne(st, d, digest).Success?
    ensures LoginsPaired(st, SeedOne(st, d, digest).value, digest)
  {
    var out := SeedOne(st, d, digest).value;
    if out != st {
      var code := CodeFor(NextNumber(st.students));
      assert out.students[|st.students|..] == [DemoProfile(st.students, d, code)];
      assert out.users[|st.users|..] == [DemoLogin(st.users, code, digest)];
    }
  }

  lemma PairedTransitive(a: State, b: State, c: State, digest: string)
    requires Grows(a, b) && Grows(b, c)
    requires LoginsPaired(a, b, digest) && LoginsPaired(b, c, digest)
    ensures Grows(a, c) && LoginsPaired(a, c, digest)
  {
    GrowsTransitive(a, b, c);
    assert c.students[|a.students|..] == b.students[|a.students|..] + c.students[|b.students|..];
    assert c.users[|a.users|..] == b.users[|a.users|..] + c.users[|b.users|..];
    AllPairedConcat(b.students[|a.students|..], b.users[|a.users|..],
                    c.students[|b.students|..], c.users[|b.users|..], digest);
  }

  lemma {:induction false} SeedAllPairsLogins(st: State, demos: seq<Demo>, digest: string)
    requires SeedAll(st, demos, digest).Success?
    ensures LoginsPaired(st, SeedAll(st, demos, digest).value, digest)
    decreases |demos|
  {
    if |demos| > 0 {
      SeedAllStep(st, demos, digest);
      var mid := SeedOne(st, demos[0], digest).value;
      var out := SeedAll(st, demos, digest).value;
      SeedAllPairsLogins(mid, demos[1..], digest);
      SeedOnePairsLogin(st, demos[0], digest);
      PairedTransitive(st, mid, out, digest);
    }
  }

  /** Appending a room-less student and a user, each under the next key, keeps the invariants. */
  lemma AppendPairKeepsValid(st: State, p: Student, u: User)
    requires Valid(st)
    requires p.id == NextStudentId(st.students) && p.roomId.None?
    requires u.id == NextUserId(st.users)
    ensures Valid(st.(students := st.students + [p], users := st.users + [u]))
  {
    assert StudentIds(st.students + [p]) == StudentIds(st.students) + [p.id];
    assert UserIds(st.users + [u]) == UserIds(st.users) + [u.id];
    AppendKeepsIncreasing(StudentIds(st.students), p.id);
    AppendKeepsIncreasing(UserIds(st.users), u.id);
  }

  /** One pass keeps keys unique and room references resolving. */
  lemma SeedOneKeepsValid(st: State, d: Demo, digest: string)
    requires Valid(st)
    requires SeedOne(st, d, digest).Success?
    ensures Valid(SeedOne(st, d, digest).value)
  {
    if !EmailPresent(st.students, d.email) {
      var code := CodeFor(NextNumber(st.students));
      AppendPairKeepsValid(st, DemoProfile(st.students, d, code), DemoLogin(st.users, code, digest));
    }
  }

  lemma {:induction false} SeedAllKeepsValid(st: State, demos: seq<Demo>, digest: string)
    requires Valid(st)
    requires SeedAll(st, demos, digest).Success?
    ensures Valid(SeedAll(st, demos, digest).value)
    decreases |demos|
  {
    if |demos| > 0 {
      SeedAllStep(st, demos, digest);
      SeedOneKeepsValid(st, demos[0], digest);
      SeedAllKeepsValid(SeedOne(st, demos[0], digest).value, demos[1..], digest);
    }
  }

  /** Adding the bootstrap rooms to an empty room table keeps the invariants. */
  lemma BootstrapKeepsValid(st: State)
    requires Valid(st) && |st.rooms| == 0
    ensures Valid(st.(rooms := BootstrapRooms(st.rooms)))
  {
    assert forall i :: 0 <= i < |st.students| ==> st.students[i].roomId.None?;
    assert RoomIds(BootstrapRooms(st.rooms)) == [1, 2, 3];
  }

  /** The seeder keeps keys unique and every room reference resolving. */
  lemma SeedDemoPreservesValid(st: State, session: Option<Session>, hash: string -> string)
    requires Valid(st)
    ensures Valid(SeedDemo(st, session, hash).0)
  {
    var out := SeedDemo(st, session, hash);
    if out.1.Loaded? {
      var seeded := SeedAll(st, DemoStudents, hash(DemoPassword)).value;
      SeedAllKeepsValid(st, DemoStudents, hash(DemoPassword));
      if |st.rooms| == 0 {
        BootstrapKeepsValid(seeded);
      }
    }
  }

  /** A loop over demo students who are all present already changes nothing. */
  lemma {:induction false} SeedAllNoop(st: State, demos: seq<Demo>, digest: string)
    requires forall k :: 0 <= k < |demos| ==> EmailPresent(st.students, demos[k].email)
    ensures SeedAll(st, demos, digest) == Success(st)
    decreases |demos|
  {
    if |demos| > 0 {
      assert forall k :: 1 <= k < |demos| ==> demos[k] == demos[1..][k - 1];
      SeedAllNoop(st, demos[1..], digest);
    }
  }

  /** Seeding again after a successful seed inserts nothing and succeeds. */
  lemma SeedIdempotent(st: State, session: Option<Session>, hash: string -> string)
    requires SeedDemo(st, session, hash).1.Loaded?
    ensures SeedDemo(SeedDemo(st, session, hash).0, session, hash) == (SeedDemo(st, session, hash).0, Loaded)
  {
    var once := SeedDemo(st, session, hash).0;
    SeedAllNoop(once, DemoStudents, hash(DemoPassword));
  }
}
