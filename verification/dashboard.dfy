/**
 * The derived values of the shared student/guardian dashboard: fee status,
 * the "pay and register" prompt, the occupancy line, the missing-record
 * state and the status badge colours.
 */
module DashboardView {
  import opened Wrappers
  import opened Text
  import opened Store

  const Pending := "PENDING"

  /** `status || payment_status || 'PENDING'`. */
  function FeeStatusValue(f: Fee): (v: string)
    ensures TruthyText(f.status) ==> v == f.status.value
    ensures !TruthyText(f.status) && TruthyText(f.paymentStatus) ==> v == f.paymentStatus.value
    ensures !TruthyText(f.status) && !TruthyText(f.paymentStatus) ==> v == Pending
  {
    OrText(f.status, OrText(f.paymentStatus, Pending))
  }

  /**
   * The status as the dashboard compares it: the one lower-case text that
   * spells the status up to letter case.
   */
  function FeeStatusKey(f: Fee): (k: string)
    ensures forall i :: 0 <= i < |k| ==> !IsUpper(k[i])
    ensures |k| == |FeeStatusValue(f)| && SqlEquals(k, FeeStatusValue(f))
  {
    LowerIdempotent(FeeStatusValue(f));
    Lower(FeeStatusValue(f))
  }

  const PendingKey := "pending"

  /** Some fee's key is `pending`. */
  predicate HasPendingFees(fees: seq<Fee>) {
    exists i :: 0 <= i < |fees| && FeeStatusKey(fees[i]) == PendingKey
  }

  /** The spellings of the two statuses the handlers write, lowercased. */
  lemma StatusSpellings()
    ensures Lower(PendingKey) == PendingKey
    ensures Lower(Pending) == PendingKey
    ensures Lower("Pending") == PendingKey
    ensures Lower("PAID") != PendingKey
  {
    var p := PendingKey;
    assert !IsUpper(p[0]) && !IsUpper(p[1]) && !IsUpper(p[2]) && !IsUpper(p[3])
        && !IsUpper(p[4]) && !IsUpper(p[5]) && !IsUpper(p[6]);
    LowerOfLowerCase(p);
    var q := Lower(Pending);
    assert q[0] == 'p' && q[1] == 'e' && q[2] == 'n' && q[3] == 'd' && q[4] == 'i' && q[5] == 'n' && q[6] == 'g';
    var r := Lower("Pending");
    assert r[0] == 'p' && r[1] == 'e' && r[2] == 'n' && r[3] == 'd' && r[4] == 'i' && r[5] == 'n' && r[6] == 'g';
  }

  /**
   * A fee counts as pending exactly when the status the dashboard reads
   * spells "pending" in some letter case; a fee with neither status column
   * counts, and a `PAID` fee does not.
   */
  lemma PendingFeeRecognised(f: Fee)
    ensures HasPendingFees([f]) <==> SqlEquals(FeeStatusValue(f), PendingKey)
    ensures TruthyText(f.status) ==> (HasPendingFees([f]) <==> SqlEquals(f.status.value, PendingKey))
    ensures !TruthyText(f.status) && TruthyText(f.paymentStatus) ==>
      (HasPendingFees([f]) <==> SqlEquals(f.paymentStatus.value, PendingKey))
    ensures !TruthyText(f.status) && !TruthyText(f.paymentStatus) ==> HasPendingFees([f])
    ensures f.status == Some(Pending) || f.status == Some("Pending") || f.status == Some(PendingKey) ==>
      HasPendingFees([f])
    ensures f.status == Some("PAID") ==> !HasPendingFees([f])
  {
    StatusSpellings();
    var v := FeeStatusValue(f);
    LowerIdempotent(v);
    assert HasPendingFees([f]) <==> FeeStatusKey(f) == PendingKey by {
      assert [f][0] == f;
    }
  }

  /** A list has a pending fee exactly when one of its fees is pending on its own. */
  lemma PendingFeesOfList(fees: seq<Fee>)
    ensures HasPendingFees(fees) <==> exists i :: 0 <= i < |fees| && SqlEquals(FeeStatusValue(fees[i]), PendingKey)
  {
    StatusSpellings();
  }

  /** The room as the client receives it; `occupied` is read when present. */
  datatype RoomView = RoomView(roomNo: Option<string>, roomNumber: Option<string>, capacity: Option<int>, occupied: Option<int>)

  /** No room, or a room with neither label. */
  predicate HasNoRoom(room: Option<RoomView>) {
    room.None? || (!TruthyText(room.value.roomNo) && !TruthyText(room.value.roomNumber))
  }

  /** The prompt appears when something is pending or no room is held, and never read-only. */
  function ShowPayAndRegister(fees: seq<Fee>, room: Option<RoomView>, readOnly: bool): (show: bool)
    ensures readOnly ==> !show
    ensures !readOnly ==> (show <==> HasPendingFees(fees) || HasNoRoom(room))
  {
    (HasPendingFees(fees) || HasNoRoom(room)) && !readOnly
  }

  /** `room?.capacity ?? (room ? 1 : 0)`. */
  function Capacity(room: Option<RoomView>): (c: int)
    ensures room.None? ==> c == 0
    ensures room.Some? && room.value.capacity.None? ==> c == 1
    ensures room.Some? && room.value.capacity.Some? ==> c == room.value.capacity.value
  {
    match room
    case None => 0
    case Some(r) => r.capacity.GetOr(1)
  }

  /** `room?.occupied ?? 0`. */
  function Occupied(room: Option<RoomView>): int {
    if room.Some? && room.value.occupied.Some? then room.value.occupied.value else 0
  }

  /** The "n/c occupied" line, absent when the capacity is not positive. */
  function OccupancyText(room: Option<RoomView>): (t: Option<string>)
    ensures t.None? <==> Capacity(room) <= 0
    ensures room.None? ==> t.None?
    ensures t.Some? ==>
      var occ := IntToString(Occupied(room));
      && ParseInt(t.value) == Some(Occupied(room))
      && |occ| + 1 < |t.value| && t.value[..|occ| + 1] == occ + "/"
      && ParseInt(t.value[|occ| + 1..]) == Some(Capacity(room))
      && |t.value| > 9 && t.value[|t.value| - 9..] == " occupied"
  {
    var c := Capacity(room);
    if c > 0 then
      FractionReadsBack(Occupied(room), c);
      Some(IntToString(Occupied(room)) + "/" + IntToString(c) + " occupied")
    else None
  }

  /** Both numbers of "n/c occupied" read back with `parseInt`, before and after the slash. */
  lemma FractionReadsBack(n: int, c: int)
    ensures var occ := IntToString(n);
      var text := occ + "/" + IntToString(c) + " occupied";
      && ParseInt(text) == Some(n)
      && |occ| + 1 < |text| && text[..|occ| + 1] == occ + "/"
      && ParseInt(text[|occ| + 1..]) == Some(c)
      && |text| > 9 && text[|text| - 9..] == " occupied"
  {
    var occ := IntToString(n);
    var tail := IntToString(c) + " occupied";
    var text := occ + "/" + tail;
    assert occ + "/" + IntToString(c) + " occupied" == text;
    assert text == occ + ("/" + tail);
    ParseIntOfIntToString(n, "/" + tail);
    assert text[|occ| + 1..] == tail;
    ParseIntOfIntToString(c, " occupied");
    assert text[|text| - 9..] == " occupied";
  }

  const NoRecordPhrase := "no student record"
  const NotLinkedPhrase := "no student linked"

  /** The error means "no record yet": it mentions either phrase in any letter case. */
  predicate NoStudentRecord(error: string) {
    error != "" && (Contains(Lower(error), NoRecordPhrase) || Contains(Lower(error), NotLinkedPhrase))
  }

  datatype Badge = Neutral | Green | Amber | Red

  /** `StatusBadge`: the colour for a fee or attendance status, compared lowercased. */
  function BadgeColor(status: Option<string>): (b: Badge)
    ensures var st := Lower(OrText(status, ""));
      && (b == Green <==> st == "paid" || st == "present")
      && (b == Amber <==> st == "pending" || st == "absent")
      && (b == Red <==> st == "overdue")
  {
    var st := Lower(OrText(status, ""));
    if st == "overdue" then Red
    else if st == "pending" || st == "absent" then Amber
    else if st == "paid" || st == "present" then Green
    else Neutral
  }
}
