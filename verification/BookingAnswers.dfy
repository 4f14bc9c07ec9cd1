/**
 * Booking calls told from the table alone: what each answer means and what the call leaves behind
 * (BookingService.kt).
 */
module BookingAnswers {
  import opened Common
  import opened Booking

  // ---- rows, nights and rooms ------------------------------------------------------------------

  /** The booking is active and its guest sleeps at the property on the night that starts on `day`. */
  predicate HoldsNight(b: Row, propertyId: Uuid, day: int) {
    b.propertyId == propertyId && b.status != Cancelled && b.checkIn <= day < b.checkOut
  }

  ghost predicate HoldsSomeNight(b: Row, propertyId: Uuid, checkIn: int, checkOut: int) {
    exists day :: checkIn <= day < checkOut && HoldsNight(b, propertyId, day)
  }

  /** The positions of the bookings that hold a night of the window. */
  ghost function Holders(rows: seq<Row>, propertyId: Uuid, checkIn: int, checkOut: int): set<int> {
    set i | 0 <= i < |rows| && HoldsSomeNight(rows[i], propertyId, checkIn, checkOut)
  }

  /** As the table's own check has it. */
  predicate StaysAreNights(rows: seq<Row>) { forall i :: 0 <= i < |rows| ==> rows[i].checkIn < rows[i].checkOut }

  lemma OverlapIsASharedNight(b: Row, propertyId: Uuid, checkIn: int, checkOut: int)
    requires b.checkIn < b.checkOut && checkIn < checkOut
    ensures Overlaps(b, propertyId, checkIn, checkOut) <==> HoldsSomeNight(b, propertyId, checkIn, checkOut)
  {
    if Overlaps(b, propertyId, checkIn, checkOut) {
      assert HoldsNight(b, propertyId, Max(b.checkIn, checkIn));
    }
  }

  lemma OneMoreHolder(init: seq<Row>, b: Row, propertyId: Uuid, checkIn: int, checkOut: int)
    ensures |Holders(init + [b], propertyId, checkIn, checkOut)|
         == |Holders(init, propertyId, checkIn, checkOut)|
            + if HoldsSomeNight(b, propertyId, checkIn, checkOut) then 1 else 0
  {
    hide HoldsSomeNight;
    var was, now := Holders(init, propertyId, checkIn, checkOut), Holders(init + [b], propertyId, checkIn, checkOut);
    if HoldsSomeNight(b, propertyId, checkIn, checkOut) {
      assert now == was + {|init|};
    } else {
      assert now == was;
    }
  }

  /** What the overlap query counts. */
  lemma {:induction false} OverlapsAreHolders(rows: seq<Row>, propertyId: Uuid, checkIn: int, checkOut: int)
    requires StaysAreNights(rows) && checkIn < checkOut
    ensures |FindOverlapping(rows, propertyId, checkIn, checkOut)| == |Holders(rows, propertyId, checkIn, checkOut)|
  {
    hide HoldsSomeNight, Overlaps;
    if rows == [] {
      assert Holders(rows, propertyId, checkIn, checkOut) == {};
    } else {
      var n := |rows| - 1;
      OverlapsAreHolders(rows[..n], propertyId, checkIn, checkOut);
      OverlapIsASharedNight(rows[n], propertyId, checkIn, checkOut);
      OneMoreHolder(rows[..n], rows[n], propertyId, checkIn, checkOut);
      hide Holders;
      assert rows == rows[..n] + [rows[n]];
    }
  }

  /** A night is occupied by as many bookings as hold it. */
  lemma OccupiedCountsHolders(rows: seq<Row>, propertyId: Uuid, day: int)
    requires StaysAreNights(rows)
    ensures Occupied(rows, propertyId, day) == |set i | 0 <= i < |rows| && HoldsNight(rows[i], propertyId, day)|
  {
    OverlapsAreHolders(rows, propertyId, day, day + 1);
    forall i | 0 <= i < |rows|
      ensures HoldsSomeNight(rows[i], propertyId, day, day + 1) <==> HoldsNight(rows[i], propertyId, day)
    {
      if HoldsNight(rows[i], propertyId, day) {
        assert day <= day < day + 1;
      }
    }
    assert Holders(rows, propertyId, day, day + 1)
        == set i | 0 <= i < |rows| && HoldsNight(rows[i], propertyId, day);
  }

  // ---- cancelling --------------------------------------------------------------------------------

  /** The row that has the id; the first one, should several have it. */
  predicate IsRow(rows: seq<Row>, id: Uuid, k: int) {
    0 <= k < |rows| && rows[k].id == id && forall j :: 0 <= j < k ==> rows[j].id != id
  }

  lemma {:induction false} FoundFirst(rows: seq<Row>, id: Uuid)
    ensures match FindById(rows, id)
      case None => forall j :: 0 <= j < |rows| ==> rows[j].id != id
      case Some(k) => IsRow(rows, id, k)
  {
    if rows != [] && rows[0].id != id {
      FoundFirst(rows[1..], id);
      assert forall j :: 0 < j < |rows| ==> rows[j] == rows[1..][j - 1];
    }
  }

  /**
   * Cancelling an active booking stores it as cancelled, changes no other row and answers with the
   * cancelled booking; without a row of the id, or with a cancelled one, nothing changes.
   */
  lemma CancelAnswers(rows: seq<Row>, id: Uuid)
    ensures var (answer, after) := Cancel(rows, id);
      && (answer == NotFound(id) <==> forall j :: 0 <= j < |rows| ==> rows[j].id != id)
      && (answer == AlreadyCancelled(id) <==> exists k :: IsRow(rows, id, k) && rows[k].status == Cancelled)
      && (answer.CancelledView? <==> exists k :: IsRow(rows, id, k) && rows[k].status != Cancelled)
      && (!answer.CancelledView? ==> answer in {NotFound(id), AlreadyCancelled(id)} && after == rows)
      && (answer.CancelledView? ==> |after| == |rows| && forall k :: 0 <= k < |rows| ==>
            if IsRow(rows, id, k) then after[k] == answer.row == rows[k].(status := Cancelled)
            else after[k] == rows[k])
  {
    FoundFirst(rows, id);
    hide FindById;
    if k :| IsRow(rows, id, k) {
      assert forall j :: IsRow(rows, id, j) ==> j == k;
    }
  }

  /** A cancelled booking gives back exactly the nights it held. */
  lemma CancellingFreesItsNights(rows: seq<Row>, id: Uuid, propertyId: Uuid, day: int)
    requires Cancel(rows, id).0.CancelledView?
    ensures var (answer, after) := Cancel(rows, id);
      Occupied(after, propertyId, day) == Occupied(rows, propertyId, day)
        - if answer.row.propertyId == propertyId && answer.row.checkIn <= day < answer.row.checkOut then 1 else 0
  {
    FoundFirst(rows, id);
    hide FindById, FindOverlapping;
    var k := FindById(rows, id).value;
    CancellingFrees(rows, k, propertyId, day, day + 1);
  }

  /** Its user is free there again unless another booking is in the way. */
  lemma CancellingFreesItsUser(rows: seq<Row>, id: Uuid, checkIn: int, checkOut: int)
    requires Cancel(rows, id).0.CancelledView?
    ensures var (answer, after) := Cancel(rows, id);
      var userId, propertyId := answer.row.userId, answer.row.propertyId;
      FindOverlappingForUser(after, userId, propertyId, checkIn, checkOut) == [] <==>
        forall j :: 0 <= j < |rows| && !IsRow(rows, id, j) ==>
          !(rows[j].userId == userId && Overlaps(rows[j], propertyId, checkIn, checkOut))
  {
    var (answer, after) := Cancel(rows, id);
    CancelAnswers(rows, id);
    FoundForUser(after, answer.row.userId, answer.row.propertyId, checkIn, checkOut);
    hide Cancel, FindOverlappingForUser;
  }

  lemma SecondCancelIsRefused(rows: seq<Row>, id: Uuid)
    requires Cancel(rows, id).0.CancelledView?
    ensures var after := Cancel(rows, id).1; Cancel(after, id) == (AlreadyCancelled(id), after)
  {
    var after := Cancel(rows, id).1;
    CancelAnswers(rows, id);
    CancelAnswers(after, id);
    hide Cancel;
    var k :| IsRow(rows, id, k) && rows[k].status != Cancelled;
    assert IsRow(after, id, k);
  }

  // ---- creating ------------------------------------------------------------------------------------

  ghost predicate KeyIsTaken(rows: seq<Row>, key: string) { exists i :: 0 <= i < |rows| && rows[i].key == key }

  /** The user has an active booking at the property on a night of the stay. */
  ghost predicate Clashes(b: Row, req: CreateRequest) {
    b.userId == req.userId && HoldsSomeNight(b, req.propertyId, req.checkIn, req.checkOut)
  }

  ghost predicate IsFirstClash(rows: seq<Row>, req: CreateRequest, k: int) {
    0 <= k < |rows| && Clashes(rows[k], req) && forall j :: 0 <= j < k ==> !Clashes(rows[j], req)
  }

  ghost predicate UserIsThere(rows: seq<Row>, req: CreateRequest) {
    exists k :: 0 <= k < |rows| && Clashes(rows[k], req)
  }

  /** As many bookings hold a night of the stay as any room type has rooms. */
  ghost predicate HouseIsFull(inventory: seq<RoomDef>, rows: seq<Row>, req: CreateRequest) {
    forall t :: 0 <= t < |inventory| ==>
      inventory[t].total <= |Holders(rows, req.propertyId, req.checkIn, req.checkOut)|
  }

  predicate FitsTheColumns(req: CreateRequest) {
    0 <= req.totalAmount < 1_000_000_000_000 && |req.currency| <= 3 && |req.key| <= 128
  }

  lemma {:induction false} FirstClash(rows: seq<Row>, req: CreateRequest)
    requires StaysAreNights(rows) && req.checkIn < req.checkOut
    ensures var found := FindOverlappingForUser(rows, req.userId, req.propertyId, req.checkIn, req.checkOut);
      && (found != [] <==> UserIsThere(rows, req))
      && (found != [] ==> exists k :: IsFirstClash(rows, req, k) && found[0] == rows[k])
  {
    hide HoldsSomeNight, Overlaps;
    if rows != [] {
      var n := |rows| - 1;
      var init := rows[..n];
      assert forall j :: 0 <= j < n ==> init[j] == rows[j];
      FirstClash(init, req);
      OverlapIsASharedNight(rows[n], req.propertyId, req.checkIn, req.checkOut);
      if UserIsThere(init, req) {
        var k :| IsFirstClash(init, req, k)
          && FindOverlappingForUser(init, req.userId, req.propertyId, req.checkIn, req.checkOut)[0] == init[k];
        assert IsFirstClash(rows, req, k);
      } else if Clashes(rows[n], req) {
        assert IsFirstClash(rows, req, n);
      }
    }
  }

  lemma FullHouse(inventory: seq<RoomDef>, rows: seq<Row>, req: CreateRequest)
    requires StaysAreNights(rows) && req.checkIn < req.checkOut
    ensures HasRoom(inventory, rows, req) <==> !HouseIsFull(inventory, rows, req)
  {
    OverlapsAreHolders(rows, req.propertyId, req.checkIn, req.checkOut);
    hide FindOverlapping, Holders;
    var held := |FindOverlapping(rows, req.propertyId, req.checkIn, req.checkOut)|;
    SomeRoomIsLeft(inventory, held);
    if !HouseIsFull(inventory, rows, req) {
      var t :| 0 <= t < |inventory| && inventory[t].total > held;
      assert Max(0, inventory[t].total - held) > 0;
    }
  }

  /**
   * The answers to a create, in the order the checks are made. A booking is stored exactly when the
   * window has a night, the key is new, the user is not there yet, some room type has more rooms than
   * bookings hold the stay, and the row fits its columns; every other answer leaves the table as it is.
   */
  lemma CreateAnswers(inventory: seq<RoomDef>, rows: seq<Row>, req: CreateRequest, id: Uuid)
    requires StaysAreNights(rows)
    ensures var (answer, after) := Create(inventory, rows, req, id);
      if req.checkOut <= req.checkIn then (answer, after) == (BadWindow, rows)
      else if KeyIsTaken(rows, req.key) then
        answer.View? && answer.row in rows && answer.row.key == req.key && after == rows
      else if UserIsThere(rows, req) then
        (exists k :: IsFirstClash(rows, req, k) && answer == Conflict(rows[k].id)) && after == rows
      else if HouseIsFull(inventory, rows, req) then (answer, after) == (Unavailable(req.propertyId), rows)
      else if !FitsTheColumns(req) then (answer, after) == (Unreconciled(req.key), rows)
      else
        && answer == View(Row(id, req.propertyId, req.userId, req.checkIn, req.checkOut, Confirmed, req.totalAmount,
                              req.currency, req.key, req.now))
        && after == rows + [answer.row]
  {
    FoundByKey(rows, req.key);
    assert FindByKey(rows, req.key).Some? <==> KeyIsTaken(rows, req.key) by {
      hide FindByKey;
    }
    hide FindByKey, KeyIsTaken, UserIsThere, HouseIsFull, FindOverlapping, FindOverlappingForUser, HasRoom,
         StaysAreNights, IsFirstClash;
    if req.checkIn < req.checkOut {
      FirstClash(rows, req);
      FullHouse(inventory, rows, req);
    }
  }

  /** The window, the key, the user, the rooms and the columns are all in order. */
  ghost predicate Books(inventory: seq<RoomDef>, rows: seq<Row>, req: CreateRequest) {
    && req.checkIn < req.checkOut && !KeyIsTaken(rows, req.key) && !UserIsThere(rows, req)
    && !HouseIsFull(inventory, rows, req) && FitsTheColumns(req)
  }

  /** A retry under the key of a stored booking gets that booking, whatever else it asks for, and stores nothing. */
  lemma RetriesGetTheBooking(inventory: seq<RoomDef>, rows: seq<Row>, req: CreateRequest, id: Uuid,
                             retry: CreateRequest, retryId: Uuid)
    requires StaysAreNights(rows) && Books(inventory, rows, req)
    requires retry.key == req.key && retry.checkIn < retry.checkOut
    ensures var (answer, after) := Create(inventory, rows, req, id);
      Create(inventory, after, retry, retryId) == (answer, after)
  {
    var (answer, after) := Create(inventory, rows, req, id);
    CreateAnswers(inventory, rows, req, id);
    assert after[|rows|].key == req.key;
    assert KeyIsTaken(after, retry.key);
    CreateAnswers(inventory, after, retry, retryId);
    hide Create, UserIsThere, HouseIsFull;
    assert answer.row.checkIn < answer.row.checkOut;
    var again := Create(inventory, after, retry, retryId).0.row;
    assert again in after && again.key == req.key;
    assert again !in rows;
  }

  // ---- both ---------------------------------------------------------------------------------------------

  /** Cancelling a booking just made gives every night back. */
  lemma CancellingUndoesBooking(inventory: seq<RoomDef>, rows: seq<Row>, req: CreateRequest, id: Uuid,
                                propertyId: Uuid, day: int)
    requires StaysAreNights(rows) && Books(inventory, rows, req)
    requires forall i :: 0 <= i < |rows| ==> rows[i].id != id
    ensures var booked := Create(inventory, rows, req, id).1;
      && Cancel(booked, id).0.CancelledView?
      && Occupied(booked, propertyId, day) == Occupied(rows, propertyId, day)
         + (if req.propertyId == propertyId && req.checkIn <= day < req.checkOut then 1 else 0)
      && Occupied(Cancel(booked, id).1, propertyId, day) == Occupied(rows, propertyId, day)
  {
    CreateAnswers(inventory, rows, req, id);
    var (answer, booked) := Create(inventory, rows, req, id);
    FindOverlappingGrows(rows, answer.row, propertyId, day, day + 1);
    assert booked[|rows|] == answer.row;
    hide Create, FindOverlapping, UserIsThere, HouseIsFull, KeyIsTaken;
    assert IsRow(booked, id, |rows|);
    CancelAnswers(booked, id);
    CancellingFreesItsNights(booked, id, propertyId, day);
    hide Cancel;
  }

  lemma AloneInTheTable(b: Row, userId: Uuid, propertyId: Uuid, checkIn: int, checkOut: int)
    ensures FindOverlapping([b], propertyId, checkIn, checkOut)
         == if Overlaps(b, propertyId, checkIn, checkOut) then [b] else []
    ensures b.userId != userId ==> FindOverlappingForUser([b], userId, propertyId, checkIn, checkOut) == []
  {
    assert [b][..0] == [];
  }

  lemma OnlyOne(b: Row)
    ensures forall key :: FindByKey([b], key) == if b.key == key then Some(b) else None
    ensures forall id :: FindById([b], id) == if b.id == id then Some(0) else None
  {
    assert [b][1..] == [];
  }

  /** One room and its only booking: cancelled once, refused the second time, and booked by somebody else. */
  lemma CancelledRoomIsBookedAgain()
    ensures var inventory := [RoomDef("STD", "Standard", 2, 1)];
      var first := Row(1, 7, 1, 0, 2, Confirmed, 0, "USD", "a", 0);
      var req := CreateRequest(7, 2, 0, 2, 0, "USD", "b", 1);
      var gone, again := first.(status := Cancelled), Row(2, 7, 2, 0, 2, Confirmed, 0, "USD", "b", 1);
      && Create(inventory, [first], req, 2) == (Unavailable(7), [first])
      && Cancel([first], 1) == (CancelledView(gone), [gone]) && Cancel([gone], 1) == (AlreadyCancelled(1), [gone])
      && Create(inventory, [gone], req, 2) == (View(again), [gone] + [again])
  {
    var inventory := [RoomDef("STD", "Standard", 2, 1)];
    var first := Row(1, 7, 1, 0, 2, Confirmed, 0, "USD", "a", 0);
    var gone := first.(status := Cancelled);
    assert LargestTotal(inventory) == 1 by {
      assert inventory[..0] == [];
    }
    AloneInTheTable(first, 2, 7, 0, 2);
    AloneInTheTable(gone, 2, 7, 0, 2);
    OnlyOne(first);
    OnlyOne(gone);
    hide FindOverlapping, FindOverlappingForUser, FindByKey, FindById, LargestTotal;
    assert [first][0 := gone] == [gone];
  }
}
