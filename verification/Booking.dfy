/** The booking lifecycle, one call at a time (BookingService.kt, BookingRepository.kt). Dates are day numbers. */
module Booking {
  import opened Common

  type Uuid = nat

  datatype Status = Pending | Confirmed | Cancelled

  /** A row of the table; the amount is in hundredths. */
  datatype Row = Row(
    id: Uuid,
    propertyId: Uuid,
    userId: Uuid,
    checkIn: int,
    checkOut: int,
    status: Status,
    totalAmount: int,
    currency: string,
    key: string,
    createdAt: int)

  datatype RoomDef = RoomDef(code: string, name: string, capacity: int, total: int)

  datatype RoomType = RoomType(code: string, name: string, capacity: int, total: int, available: int)

  datatype CreateRequest = CreateRequest(
    propertyId: Uuid,
    userId: Uuid,
    checkIn: int,
    checkOut: int,
    totalAmount: int,
    currency: string,
    key: string,
    now: int)

  datatype CreatePayload =
    | View(row: Row)
    | Conflict(conflictingBookingId: Uuid)
    | Unavailable(propertyId: Uuid)
    | BadWindow
    | Unreconciled(key: string)

  datatype CancelPayload = CancelledView(row: Row) | NotFound(bookingId: Uuid) | AlreadyCancelled(bookingId: Uuid)

  // ---- the repository --------------------------------------------------------------------

  predicate Overlaps(b: Row, propertyId: Uuid, checkIn: int, checkOut: int) {
    b.propertyId == propertyId && b.status != Cancelled && b.checkOut > checkIn && b.checkIn < checkOut
  }

  function FindOverlapping(rows: seq<Row>, propertyId: Uuid, checkIn: int, checkOut: int): seq<Row> {
    if rows == [] then []
    else
      var before, last := FindOverlapping(rows[..|rows| - 1], propertyId, checkIn, checkOut), rows[|rows| - 1];
      if Overlaps(last, propertyId, checkIn, checkOut) then before + [last] else before
  }

  function FindOverlappingForUser(rows: seq<Row>, userId: Uuid, propertyId: Uuid, checkIn: int,
                                  checkOut: int): seq<Row> {
    if rows == [] then []
    else
      var before, last := FindOverlappingForUser(rows[..|rows| - 1], userId, propertyId, checkIn, checkOut),
          rows[|rows| - 1];
      if last.userId == userId && Overlaps(last, propertyId, checkIn, checkOut) then before + [last] else before
  }

  function FindByKey(rows: seq<Row>, key: string): Option<Row> {
    if rows == [] then None else if rows[0].key == key then Some(rows[0]) else FindByKey(rows[1..], key)
  }

  function FindById(rows: seq<Row>, id: Uuid): Option<nat> {
    if rows == [] then None
    else if rows[0].id == id then Some(0)
    else match FindById(rows[1..], id) case None => None case Some(i) => Some(i + 1)
  }

  /** What the table checks of a row on its own. */
  predicate RowConstraints(b: Row) {
    0 <= b.totalAmount < 1_000_000_000_000 && |b.currency| <= 3 && |b.key| <= 128 && b.checkOut > b.checkIn
  }

  /** An insert goes through when no constraint is violated; the id is freshly drawn. */
  predicate Insertable(rows: seq<Row>, b: Row) { RowConstraints(b) && FindByKey(rows, b.key).None? }

  function NewRow(req: CreateRequest, id: Uuid): Row {
    Row(id, req.propertyId, req.userId, req.checkIn, req.checkOut, Confirmed, req.totalAmount, req.currency, req.key,
        req.now)
  }

  lemma {:induction false} FoundByKey(rows: seq<Row>, key: string)
    ensures match FindByKey(rows, key)
      case None => forall i :: 0 <= i < |rows| ==> rows[i].key != key
      case Some(b) => b in rows && b.key == key
  {
    if rows != [] && rows[0].key != key {
      FoundByKey(rows[1..], key);
      forall i | 0 <= i < |rows| && FindByKey(rows, key).None? ensures rows[i].key != key {
        assert i > 0 ==> rows[i] == rows[1..][i - 1];
      }
    }
  }

  lemma {:induction false} FoundById(rows: seq<Row>, id: Uuid)
    ensures match FindById(rows, id)
      case None => forall i :: 0 <= i < |rows| ==> rows[i].id != id
      case Some(i) => i < |rows| && rows[i].id == id
  {
    if rows != [] && rows[0].id != id {
      FoundById(rows[1..], id);
      forall i | 0 <= i < |rows| && FindById(rows, id).None? ensures rows[i].id != id {
        assert i > 0 ==> rows[i] == rows[1..][i - 1];
      }
    }
  }

  lemma {:induction false} FoundForUser(rows: seq<Row>, userId: Uuid, propertyId: Uuid, checkIn: int, checkOut: int)
    ensures FindOverlappingForUser(rows, userId, propertyId, checkIn, checkOut) == []
       <==> forall i :: 0 <= i < |rows| ==>
         !(rows[i].userId == userId && Overlaps(rows[i], propertyId, checkIn, checkOut))
  {
    if rows != [] {
      var init := rows[..|rows| - 1];
      FoundForUser(init, userId, propertyId, checkIn, checkOut);
      assert forall i :: 0 <= i < |init| ==> init[i] == rows[i];
    }
  }

  // ---- create and cancel ---------------------------------------------------------------------

  function Max(a: int, b: int): int { if a < b then b else a }

  /** The largest configured room total; rooms of every type share one pool. */
  function LargestTotal(inventory: seq<RoomDef>): nat {
    if inventory == [] then 0 else Max(LargestTotal(inventory[..|inventory| - 1]), inventory[|inventory| - 1].total)
  }

  predicate HasRoom(inventory: seq<RoomDef>, rows: seq<Row>, req: CreateRequest) {
    |FindOverlapping(rows, req.propertyId, req.checkIn, req.checkOut)| < LargestTotal(inventory)
  }

  /** After a failed insert: whatever landed first under the key. */
  function Recover(rows: seq<Row>, key: string): CreatePayload {
    match FindByKey(rows, key)
    case Some(b) => View(b)
    case None => Unreconciled(key)
  }

  function Create(inventory: seq<RoomDef>, rows: seq<Row>, req: CreateRequest, id: Uuid): (CreatePayload, seq<Row>) {
    var clashes := FindOverlappingForUser(rows, req.userId, req.propertyId, req.checkIn, req.checkOut);
    if req.checkOut <= req.checkIn then (BadWindow, rows)
    else if FindByKey(rows, req.key).Some? then (View(FindByKey(rows, req.key).value), rows)
    else if clashes != [] then (Conflict(clashes[0].id), rows)
    else if !HasRoom(inventory, rows, req) then (Unavailable(req.propertyId), rows)
    else if !RowConstraints(NewRow(req, id)) then (Unreconciled(req.key), rows)
    else (View(NewRow(req, id)), rows + [NewRow(req, id)])
  }

  function Cancel(rows: seq<Row>, id: Uuid): (CancelPayload, seq<Row>) {
    match FindById(rows, id)
    case None => (NotFound(id), rows)
    case Some(i) =>
      FoundById(rows, id);
      if rows[i].status == Cancelled then (AlreadyCancelled(id), rows)
      else (CancelledView(rows[i].(status := Cancelled)), rows[i := rows[i].(status := Cancelled)])
  }

  class BookingService {
    const inventory: seq<RoomDef>
    var rows: seq<Row>

    constructor (inventory: seq<RoomDef>, rows: seq<Row>)
      ensures this.inventory == inventory && this.rows == rows
    {
      this.inventory, this.rows := inventory, rows;
    }

    /** Every overlapping booking takes one from every room type. */
    method RoomsFor(propertyId: Uuid, checkIn: int, checkOut: int) returns (rooms: seq<RoomType>)
      ensures |rooms| == |inventory|
      ensures forall i :: 0 <= i < |rooms| ==>
                && rooms[i].code == inventory[i].code && rooms[i].name == inventory[i].name
                && rooms[i].capacity == inventory[i].capacity && rooms[i].total == inventory[i].total
                && rooms[i].available
                == Max(0, inventory[i].total - |FindOverlapping(rows, propertyId, checkIn, checkOut)|)
    {
      var overlap := |FindOverlapping(rows, propertyId, checkIn, checkOut)|;
      rooms := [];
      for i := 0 to |inventory|
        invariant |rooms| == i
        invariant forall j :: 0 <= j < i ==>
                    rooms[j] == RoomType(inventory[j].code, inventory[j].name, inventory[j].capacity,
                                         inventory[j].total,
                                         Max(0, inventory[j].total - overlap))
      {
        var def := inventory[i];
        rooms := rooms + [RoomType(def.code, def.name, def.capacity, def.total, Max(0, def.total - overlap))];
      }
    }

    method AnyAvailable(rooms: seq<RoomType>) returns (any: bool)
      ensures any <==> exists i :: 0 <= i < |rooms| && rooms[i].available > 0
    {
      for i := 0 to |rooms|
        invariant forall j :: 0 <= j < i ==> rooms[j].available <= 0
      {
        if rooms[i].available > 0 {
          return true;
        }
      }
      return false;
    }

    method CreateBooking(req: CreateRequest, id: Uuid) returns (payload: CreatePayload)
      requires forall i :: 0 <= i < |rows| ==> rows[i].id != id
      modifies this
      ensures (payload, rows) == Create(inventory, old(rows), req, id)
    {
      if req.checkOut <= req.checkIn {
        return BadWindow;
      }
      var existing := FindByKey(rows, req.key);
      if existing.Some? {
        return View(existing.value);
      }
      var clashes := FindOverlappingForUser(rows, req.userId, req.propertyId, req.checkIn, req.checkOut);
      if clashes != [] {
        return Conflict(clashes[0].id);
      }
      var rooms := RoomsFor(req.propertyId, req.checkIn, req.checkOut);
      var any := AnyAvailable(rooms);
      SomeRoomIsLeft(inventory, |FindOverlapping(rows, req.propertyId, req.checkIn, req.checkOut)|);
      assert any <==> HasRoom(inventory, rows, req);
      if !any {
        return Unavailable(req.propertyId);
      }
      var booking := NewRow(req, id);
      if Insertable(rows, booking) {
        rows := rows + [booking];
        return View(booking);
      }
      return Recover(rows, req.key);
    }

    method CancelBooking(id: Uuid) returns (payload: CancelPayload)
      modifies this
      ensures (payload, rows) == Cancel(old(rows), id)
    {
      var found := FindById(rows, id);
      if found.None? {
        return NotFound(id);
      }
      FoundById(rows, id);
      if rows[found.value].status == Cancelled {
        return AlreadyCancelled(id);
      }
      rows := rows[found.value := rows[found.value].(status := Cancelled)];
      return CancelledView(rows[found.value]);
    }
  }

  lemma {:induction false} SomeRoomIsLeft(inventory: seq<RoomDef>, overlap: nat)
    ensures (exists i :: 0 <= i < |inventory| && Max(0, inventory[i].total - overlap) > 0)
       <==> overlap < LargestTotal(inventory)
  {
    if inventory != [] {
      var n := |inventory| - 1;
      var init := inventory[..n];
      SomeRoomIsLeft(init, overlap);
      assert forall i :: 0 <= i < n ==> init[i] == inventory[i];
      if Max(0, inventory[n].total - overlap) <= 0 && overlap < LargestTotal(init) {
        var i :| 0 <= i < n && Max(0, init[i].total - overlap) > 0;
        assert Max(0, inventory[i].total - overlap) > 0;
      }
    }
  }

  // ---- what every serial run keeps --------------------------------------------------------------

  /** How many bookings that are not cancelled hold the property on the night that starts on `day`. */
  function Occupied(rows: seq<Row>, propertyId: Uuid, day: int): nat {
    |FindOverlapping(rows, propertyId, day, day + 1)|
  }

  ghost predicate WithinCapacity(inventory: seq<RoomDef>, rows: seq<Row>) {
    forall p: Uuid, day: int :: Occupied(rows, p, day) <= LargestTotal(inventory)
  }

  /** Both are active, of one user, at one property, and share a night. */
  predicate DoubleBooked(a: Row, b: Row) {
    && a.userId == b.userId && a.propertyId == b.propertyId && a.status != Cancelled && b.status != Cancelled
    && a.checkIn < b.checkOut && b.checkIn < a.checkOut
  }

  ghost predicate NoDoubleBooking(rows: seq<Row>) {
    forall i, j :: 0 <= i < j < |rows| ==> !DoubleBooked(rows[i], rows[j])
  }

  ghost predicate Distinct(rows: seq<Row>) {
    forall i, j :: 0 <= i < j < |rows| ==> rows[i].key != rows[j].key && rows[i].id != rows[j].id
  }

  ghost predicate Good(inventory: seq<RoomDef>, rows: seq<Row>) {
    && WithinCapacity(inventory, rows) && NoDoubleBooking(rows) && Distinct(rows)
    && forall i :: 0 <= i < |rows| ==> RowConstraints(rows[i])
  }

  lemma FindOverlappingGrows(rows: seq<Row>, b: Row, propertyId: Uuid, checkIn: int, checkOut: int)
    ensures |FindOverlapping(rows + [b], propertyId, checkIn, checkOut)|
         == |FindOverlapping(rows, propertyId, checkIn, checkOut)|
            + if Overlaps(b, propertyId, checkIn, checkOut) then 1 else 0
  {
    assert (rows + [b])[..|rows|] == rows;
  }

  /** A booking that holds one night of a window overlaps the window. */
  lemma {:induction false} NightWithinWindow(rows: seq<Row>, propertyId: Uuid, day: int, checkIn: int, checkOut: int)
    requires checkIn <= day < checkOut
    ensures Occupied(rows, propertyId, day) <= |FindOverlapping(rows, propertyId, checkIn, checkOut)|
  {
    if rows != [] {
      NightWithinWindow(rows[..|rows| - 1], propertyId, day, checkIn, checkOut);
    }
  }

  /** Adding a booking keeps the table good exactly when its user is free and each of its nights has room left. */
  lemma AddingKeepsGood(inventory: seq<RoomDef>, rows: seq<Row>, b: Row)
    requires Good(inventory, rows) && b.status != Cancelled && Insertable(rows, b)
    requires forall i :: 0 <= i < |rows| ==> rows[i].id != b.id
    ensures Good(inventory, rows + [b]) <==>
            && FindOverlappingForUser(rows, b.userId, b.propertyId, b.checkIn, b.checkOut) == []
            && forall day :: b.checkIn <= day < b.checkOut ==>
                 Occupied(rows, b.propertyId, day) < LargestTotal(inventory)
  {
    CapacityAfterAdding(inventory, rows, b);
    UsersAfterAdding(rows, b);
    hide WithinCapacity, NoDoubleBooking, FindOverlapping, FindOverlappingForUser;
    FoundByKey(rows, b.key);
  }

  lemma CapacityAfterAdding(inventory: seq<RoomDef>, rows: seq<Row>, b: Row)
    requires WithinCapacity(inventory, rows) && b.status != Cancelled
    ensures WithinCapacity(inventory, rows + [b]) <==>
            forall day :: b.checkIn <= day < b.checkOut ==> Occupied(rows, b.propertyId, day) < LargestTotal(inventory)
  {
    forall p: Uuid, day: int
      ensures Occupied(rows + [b], p, day)
           == Occupied(rows, p, day) + if p == b.propertyId && b.checkIn <= day < b.checkOut then 1 else 0
    {
      FindOverlappingGrows(rows, b, p, day, day + 1);
    }
    hide Occupied;
    if WithinCapacity(inventory, rows + [b]) {
      forall day | b.checkIn <= day < b.checkOut ensures Occupied(rows, b.propertyId, day) < LargestTotal(inventory) {
        assert Occupied(rows + [b], b.propertyId, day) <= LargestTotal(inventory);
      }
    }
  }

  lemma UsersAfterAdding(rows: seq<Row>, b: Row)
    requires NoDoubleBooking(rows) && b.status != Cancelled
    ensures NoDoubleBooking(rows + [b])
       <==> FindOverlappingForUser(rows, b.userId, b.propertyId, b.checkIn, b.checkOut) == []
  {
    FoundForUser(rows, b.userId, b.propertyId, b.checkIn, b.checkOut);
    hide FindOverlappingForUser;
    var all := rows + [b];
    if NoDoubleBooking(all) {
      forall i | 0 <= i < |rows|
        ensures !(rows[i].userId == b.userId && Overlaps(rows[i], b.propertyId, b.checkIn, b.checkOut))
      {
        assert !DoubleBooked(all[i], all[|rows|]);
      }
    }
  }

  lemma CreateKeepsGood(inventory: seq<RoomDef>, rows: seq<Row>, req: CreateRequest, id: Uuid)
    requires Good(inventory, rows) && forall i :: 0 <= i < |rows| ==> rows[i].id != id
    ensures Good(inventory, Create(inventory, rows, req, id).1)
  {
    hide Good, FindOverlapping, FindOverlappingForUser;
    if Create(inventory, rows, req, id).1 != rows {
      var b := NewRow(req, id);
      forall day | b.checkIn <= day < b.checkOut ensures Occupied(rows, b.propertyId, day) < LargestTotal(inventory) {
        NightWithinWindow(rows, b.propertyId, day, b.checkIn, b.checkOut);
      }
      AddingKeepsGood(inventory, rows, b);
    }
  }

  lemma {:induction false} CancellingFrees(rows: seq<Row>, i: nat, propertyId: Uuid, checkIn: int, checkOut: int)
    requires i < |rows|
    ensures |FindOverlapping(rows[i := rows[i].(status := Cancelled)], propertyId, checkIn, checkOut)|
         == |FindOverlapping(rows, propertyId, checkIn, checkOut)|
            - if Overlaps(rows[i], propertyId, checkIn, checkOut) then 1 else 0
  {
    var n := |rows| - 1;
    var after := rows[i := rows[i].(status := Cancelled)];
    if i < n {
      CancellingFrees(rows[..n], i, propertyId, checkIn, checkOut);
      assert after[..n] == rows[..n][i := rows[i].(status := Cancelled)];
    } else {
      assert after[..n] == rows[..n];
    }
  }

  lemma CancelKeepsGood(inventory: seq<RoomDef>, rows: seq<Row>, id: Uuid)
    requires Good(inventory, rows)
    ensures Good(inventory, Cancel(rows, id).1)
  {
    FoundById(rows, id);
    if Cancel(rows, id).1 != rows {
      var i := FindById(rows, id).value;
      var after := rows[i := rows[i].(status := Cancelled)];
      forall p: Uuid, day: int ensures Occupied(after, p, day) <= LargestTotal(inventory) {
        CancellingFrees(rows, i, p, day, day + 1);
        assert Occupied(rows, p, day) <= LargestTotal(inventory);
      }
      forall j, k | 0 <= j < k < |after| ensures !DoubleBooked(after[j], after[k]) {
        assert !DoubleBooked(rows[j], rows[k]);
      }
    }
  }

  /** One call of a serial run. */
  datatype Call = CreateCall(req: CreateRequest, id: Uuid) | CancelCall(id: Uuid)

  function Serve(inventory: seq<RoomDef>, rows: seq<Row>, calls: seq<Call>): seq<Row> {
    if calls == [] then rows
    else
      var before := Serve(inventory, rows, calls[..|calls| - 1]);
      match calls[|calls| - 1]
      case CreateCall(req, id) => Create(inventory, before, req, id).1
      case CancelCall(id) => Cancel(before, id).1
  }

  /** Every create draws an id that no row has yet. */
  ghost predicate DrawsFreshIds(inventory: seq<RoomDef>, rows: seq<Row>, calls: seq<Call>) {
    forall k :: 0 <= k < |calls| && calls[k].CreateCall? ==>
      forall b :: b in Serve(inventory, rows, calls[..k]) ==> b.id != calls[k].id
  }

  /** Over every serial run from a good table: no night is oversold, nobody is booked twice, keys stay unique. */
  lemma {:induction false} SerialRunsStayGood(inventory: seq<RoomDef>, rows: seq<Row>, calls: seq<Call>)
    requires Good(inventory, rows) && DrawsFreshIds(inventory, rows, calls)
    ensures Good(inventory, Serve(inventory, rows, calls))
  {
    hide Good, Create, Cancel;
    if calls != [] {
      var n := |calls| - 1;
      var init, last := calls[..n], calls[n];
      forall k | 0 <= k < n ensures calls[..k] == init[..k] {
      }
      SerialRunsStayGood(inventory, rows, init);
      match last {
        case CreateCall(req, id) => CreateKeepsGood(inventory, Serve(inventory, rows, init), req, id);
        case CancelCall(id) => CancelKeepsGood(inventory, Serve(inventory, rows, init), id);
      }
    }
  }

  // ---- when the availability check is right --------------------------------------------------------

  /** Some night of the window is held by at least as many active bookings as there are rooms. */
  ghost predicate SomeNightIsFull(rows: seq<Row>, propertyId: Uuid, checkIn: int, checkOut: int, total: nat) {
    exists day :: checkIn <= day < checkOut && Occupied(rows, propertyId, day) >= total
  }

  /** On some night of the window every booking that overlaps the window is there. */
  ghost predicate AllMeet(rows: seq<Row>, propertyId: Uuid, checkIn: int, checkOut: int) {
    exists day :: checkIn <= day < checkOut
      && Occupied(rows, propertyId, day) == |FindOverlapping(rows, propertyId, checkIn, checkOut)|
  }

  /** A request that the window, key and clash checks let through. */
  predicate ReachesInventory(rows: seq<Row>, req: CreateRequest) {
    && req.checkIn < req.checkOut && FindByKey(rows, req.key).None?
    && FindOverlappingForUser(rows, req.userId, req.propertyId, req.checkIn, req.checkOut) == []
  }

  lemma OneTypeTotal(total: nat)
    ensures LargestTotal([RoomDef("", "", 0, total)]) == total
  {
    assert [RoomDef("", "", 0, total)][..0] == [] && LargestTotal([]) == 0;
  }

  lemma RefusedForLackOfRooms(inventory: seq<RoomDef>, rows: seq<Row>, req: CreateRequest, id: Uuid)
    requires ReachesInventory(rows, req)
    ensures Create(inventory, rows, req, id).0 == Unavailable(req.propertyId) <==>
            |FindOverlapping(rows, req.propertyId, req.checkIn, req.checkOut)| >= LargestTotal(inventory)
  {
    hide FindOverlapping, FindOverlappingForUser, FindByKey, LargestTotal, RowConstraints;
  }

  /** A full night is always refused. */
  lemma FullNightIsRefused(inventory: seq<RoomDef>, rows: seq<Row>, req: CreateRequest, id: Uuid)
    requires ReachesInventory(rows, req)
    requires SomeNightIsFull(rows, req.propertyId, req.checkIn, req.checkOut, LargestTotal(inventory))
    ensures Create(inventory, rows, req, id).0 == Unavailable(req.propertyId)
  {
    hide Create, FindOverlapping, ReachesInventory, LargestTotal;
    var day :| req.checkIn <= day < req.checkOut && Occupied(rows, req.propertyId, day) >= LargestTotal(inventory);
    NightWithinWindow(rows, req.propertyId, day, req.checkIn, req.checkOut);
    RefusedForLackOfRooms(inventory, rows, req, id);
  }

  /**
   * The check counts every booking that overlaps the window, not the busiest night. Whatever the
   * inventory, it refuses exactly the stays with a full night if and only if all these bookings
   * share a night of the window; otherwise some inventory has a stay refused with every night free.
   */
  lemma AvailabilityIsRightExactly(rows: seq<Row>, req: CreateRequest, id: Uuid)
    requires ReachesInventory(rows, req)
    ensures (forall inventory :: Create(inventory, rows, req, id).0 == Unavailable(req.propertyId) <==>
               SomeNightIsFull(rows, req.propertyId, req.checkIn, req.checkOut, LargestTotal(inventory)))
       <==> AllMeet(rows, req.propertyId, req.checkIn, req.checkOut)
  {
    hide Create, FindOverlapping, LargestTotal, ReachesInventory;
    var p, from, to := req.propertyId, req.checkIn, req.checkOut;
    var all := |FindOverlapping(rows, p, from, to)|;
    if AllMeet(rows, p, from, to) {
      forall inventory
        ensures Create(inventory, rows, req, id).0 == Unavailable(p)
           <==> SomeNightIsFull(rows, p, from, to, LargestTotal(inventory))
      {
        RefusedForLackOfRooms(inventory, rows, req, id);
        if SomeNightIsFull(rows, p, from, to, LargestTotal(inventory)) {
          FullNightIsRefused(inventory, rows, req, id);
        }
      }
    } else {
      var inventory := [RoomDef("", "", 0, all)];
      OneTypeTotal(all);
      RefusedForLackOfRooms(inventory, rows, req, id);
      forall day | from <= day < to ensures Occupied(rows, p, day) < all {
        NightWithinWindow(rows, p, day, from, to);
      }
      assert !SomeNightIsFull(rows, p, from, to, LargestTotal(inventory));
    }
  }

  /** An instance: one of two rooms is free on each of two nights, but by turns. */
  lemma RefusedWithEveryNightFree()
    ensures var inventory := [RoomDef("STD", "Standard", 2, 2)];
      var a, b := Row(1, 7, 1, 0, 1, Confirmed, 0, "USD", "a", 0), Row(2, 7, 2, 1, 2, Confirmed, 0, "USD", "b", 0);
      var req := CreateRequest(7, 3, 0, 2, 0, "USD", "c", 0);
      && Good(inventory, [a, b]) && ReachesInventory([a, b], req) && !AllMeet([a, b], 7, 0, 2)
      && Create(inventory, [a, b], req, 3).0 == Unavailable(7)
      && !SomeNightIsFull([a, b], 7, 0, 2, LargestTotal(inventory))
  {
    var inventory := [RoomDef("STD", "Standard", 2, 2)];
    var a, b := Row(1, 7, 1, 0, 1, Confirmed, 0, "USD", "a", 0), Row(2, 7, 2, 1, 2, Confirmed, 0, "USD", "b", 0);
    assert inventory[..0] == [] && LargestTotal(inventory) == 2;
    assert [a, b][..1] == [a] && [a][..0] == [];
    forall p: Uuid, from: int, to: int
      ensures |FindOverlapping([a, b], p, from, to)|
           == (if Overlaps(a, p, from, to) then 1 else 0) + if Overlaps(b, p, from, to) then 1 else 0
    {
      FindOverlappingGrows([], a, p, from, to);
      assert [] + [a] == [a];
      FindOverlappingGrows([a], b, p, from, to);
      assert [a] + [b] == [a, b];
    }
    FoundForUser([a, b], 3, 7, 0, 2);
    FoundByKey([a, b], "c");
  }
}
