/**
 * Create requests that interleave: every query and every insert of BookingService.create is a step
 * of its own, and cancels come in between. An insert commits at once or fails on a constraint.
 */
module BookingRace {
  import opened Booking

  /** How far a create request has come; each phase names what it has found out. */
  datatype Phase = Arrived | NoSuchKey | NoClash | RoomLeft | InsertFailed | Answered(payload: CreatePayload)

  datatype Client = Client(req: CreateRequest, id: Uuid, phase: Phase)

  /** Ids are drawn at random; here the next one has never been drawn before. */
  datatype State = State(rows: seq<Row>, clients: seq<Client>, nextId: Uuid)

  datatype Action = Arrive(req: CreateRequest) | Advance(i: nat) | CancelAny(id: Uuid)

  function AdvancePhase(inventory: seq<RoomDef>, rows: seq<Row>, c: Client): Phase {
    var req := c.req;
    match c.phase
    case Arrived =>
      if req.checkOut <= req.checkIn then Answered(BadWindow)
      else (match FindByKey(rows, req.key) case Some(b) => Answered(View(b)) case None => NoSuchKey)
    case NoSuchKey =>
      var clashes := FindOverlappingForUser(rows, req.userId, req.propertyId, req.checkIn, req.checkOut);
      if clashes != [] then Answered(Conflict(clashes[0].id)) else NoClash
    case NoClash => if HasRoom(inventory, rows, req) then RoomLeft else Answered(Unavailable(req.propertyId))
    case RoomLeft => if Insertable(rows, NewRow(req, c.id)) then Answered(View(NewRow(req, c.id))) else InsertFailed
    case InsertFailed => Answered(Recover(rows, req.key))
    case Answered(_) => c.phase
  }

  predicate Inserts(rows: seq<Row>, c: Client) { c.phase == RoomLeft && Insertable(rows, NewRow(c.req, c.id)) }

  function AdvanceRows(rows: seq<Row>, c: Client): seq<Row> {
    if Inserts(rows, c) then rows + [NewRow(c.req, c.id)] else rows
  }

  function Step(inventory: seq<RoomDef>, s: State, a: Action): State {
    match a
    case Arrive(req) => State(s.rows, s.clients + [Client(req, s.nextId, Arrived)], s.nextId + 1)
    case Advance(i) =>
      if i < |s.clients| then
        var c := s.clients[i];
        State(AdvanceRows(s.rows, c), s.clients[i := c.(phase := AdvancePhase(inventory, s.rows, c))], s.nextId)
      else s
    case CancelAny(id) => s.(rows := Cancel(s.rows, id).1)
  }

  function Steps(inventory: seq<RoomDef>, s: State, actions: seq<Action>): State {
    if actions == [] then s
    else Step(inventory, Steps(inventory, s, actions[..|actions| - 1]), actions[|actions| - 1])
  }

  // ---- what every interleaving keeps ---------------------------------------------------------

  /** The table still holds the row that a view was made from, under the same key. */
  predicate Holds(rows: seq<Row>, id: Uuid, key: string) {
    exists i :: 0 <= i < |rows| && rows[i].id == id && rows[i].key == key
  }

  predicate Viewed(c: Client) { c.phase.Answered? && c.phase.payload.View? }

  ghost predicate Waiting(c: Client) { !c.phase.Answered? }

  ghost predicate ClientInv(rows: seq<Row>, nextId: Uuid, c: Client) {
    && c.id < nextId
    && (Waiting(c) ==> forall i :: 0 <= i < |rows| ==> rows[i].id != c.id)
    && (c.phase.InsertFailed? ==> FindByKey(rows, c.req.key).Some? || !RowConstraints(NewRow(c.req, c.id)))
    && (Viewed(c) ==>
          c.phase.payload.row.key == c.req.key && Holds(rows, c.phase.payload.row.id, c.req.key))
    && (c.phase.Answered? && c.phase.payload.Unreconciled? ==> !RowConstraints(NewRow(c.req, c.id)))
  }

  ghost predicate Inv(s: State) {
    && Distinct(s.rows)
    && (forall i :: 0 <= i < |s.rows| ==> s.rows[i].id < s.nextId)
    && (forall i :: 0 <= i < |s.clients| ==> ClientInv(s.rows, s.nextId, s.clients[i]))
    && forall i, j :: 0 <= i < j < |s.clients| ==> s.clients[i].id != s.clients[j].id
  }

  /** Rows are only added, and keep their ids and keys. */
  predicate Extends(rows: seq<Row>, later: seq<Row>) {
    |rows| <= |later| && forall i :: 0 <= i < |rows| ==> later[i].id == rows[i].id && later[i].key == rows[i].key
  }

  lemma {:induction false} KeysStayFound(rows: seq<Row>, later: seq<Row>, key: string)
    requires Extends(rows, later)
    ensures FindByKey(rows, key).Some? ==> FindByKey(later, key).Some?
  {
    FoundByKey(later, key);
    FoundByKey(rows, key);
    if FindByKey(rows, key).Some? {
      var i :| 0 <= i < |rows| && rows[i] == FindByKey(rows, key).value;
      assert later[i].key == key;
    }
  }

  lemma ClientInvStays(rows: seq<Row>, later: seq<Row>, nextId: Uuid, c: Client)
    requires ClientInv(rows, nextId, c) && Extends(rows, later)
    requires forall i :: |rows| <= i < |later| ==> later[i].id != c.id
    ensures ClientInv(later, nextId, c)
  {
    hide FindByKey, RowConstraints;
    KeysStayFound(rows, later, c.req.key);
    if Viewed(c) {
      var i :| 0 <= i < |rows| && rows[i].id == c.phase.payload.row.id && rows[i].key == c.req.key;
      assert later[i].id == c.phase.payload.row.id && later[i].key == c.req.key;
    }
  }

  lemma CancelExtends(rows: seq<Row>, id: Uuid)
    ensures Extends(rows, Cancel(rows, id).1) && |Cancel(rows, id).1| == |rows|
    ensures Distinct(rows) ==> Distinct(Cancel(rows, id).1)
  {
    FoundById(rows, id);
  }

  /** What a client knows stays true of itself when it takes a step. */
  lemma AdvancedClient(inventory: seq<RoomDef>, rows: seq<Row>, nextId: Uuid, c: Client)
    requires ClientInv(rows, nextId, c)
    ensures ClientInv(AdvanceRows(rows, c), nextId, c.(phase := AdvancePhase(inventory, rows, c)))
  {
    hide FindByKey, RowConstraints, HasRoom, FindOverlappingForUser;
    var later := AdvanceRows(rows, c);
    FoundByKey(rows, c.req.key);
    if Inserts(rows, c) {
      assert later[|rows|] == NewRow(c.req, c.id);
    } else if FindByKey(rows, c.req.key).Some? {
      var b := FindByKey(rows, c.req.key).value;
      var i :| 0 <= i < |rows| && rows[i] == b;
      assert Holds(rows, b.id, c.req.key);
    }
  }

  lemma StepKeepsInv(inventory: seq<RoomDef>, s: State, a: Action)
    requires Inv(s)
    ensures Inv(Step(inventory, s, a)) && Extends(s.rows, Step(inventory, s, a).rows)
  {
    hide FindByKey, RowConstraints, HasRoom, FindOverlappingForUser, Cancel, ClientInv;
    var t := Step(inventory, s, a);
    match a {
      case Arrive(req) =>
        forall i | 0 <= i < |t.clients| ensures ClientInv(t.rows, t.nextId, t.clients[i]) {
          if i < |s.clients| {
            LargerNextId(s.rows, s.nextId, s.clients[i]);
          } else {
            NewClient(s.rows, s.nextId, req);
          }
        }
        forall i | 0 <= i < |s.clients| ensures s.clients[i].id < s.nextId {
          LargerNextId(s.rows, s.nextId, s.clients[i]);
        }
      case Advance(k) =>
        if k < |s.clients| {
          var c := s.clients[k];
          RowsStayDistinct(s.rows, s.nextId, c);
          forall i | 0 <= i < |t.clients| ensures ClientInv(t.rows, t.nextId, t.clients[i]) {
            if i == k {
              AdvancedClient(inventory, s.rows, s.nextId, c);
            } else {
              assert s.clients[i].id != c.id by { assert i < k || k < i; }
              ClientInvStays(s.rows, t.rows, s.nextId, s.clients[i]);
            }
          }
        }
      case CancelAny(id) =>
        CancelExtends(s.rows, id);
        forall i | 0 <= i < |t.clients| ensures ClientInv(t.rows, t.nextId, t.clients[i]) {
          ClientInvStays(s.rows, t.rows, s.nextId, s.clients[i]);
        }
    }
  }

  lemma LargerNextId(rows: seq<Row>, nextId: Uuid, c: Client)
    requires ClientInv(rows, nextId, c)
    ensures c.id < nextId && ClientInv(rows, nextId + 1, c)
  {
    hide FindByKey, RowConstraints;
  }

  lemma NewClient(rows: seq<Row>, nextId: Uuid, req: CreateRequest)
    requires forall i :: 0 <= i < |rows| ==> rows[i].id < nextId
    ensures ClientInv(rows, nextId + 1, Client(req, nextId, Arrived))
  {
  }

  lemma RowsStayDistinct(rows: seq<Row>, nextId: Uuid, c: Client)
    requires Distinct(rows) && ClientInv(rows, nextId, c) && forall i :: 0 <= i < |rows| ==> rows[i].id < nextId
    ensures Distinct(AdvanceRows(rows, c)) && Extends(rows, AdvanceRows(rows, c))
    ensures forall i :: 0 <= i < |AdvanceRows(rows, c)| ==> AdvanceRows(rows, c)[i].id < nextId
    ensures forall i :: |rows| <= i < |AdvanceRows(rows, c)| ==> AdvanceRows(rows, c)[i].id == c.id
  {
    hide FindByKey, RowConstraints;
    FoundByKey(rows, c.req.key);
  }

  /** A table with unique keys and ids, and nobody at work yet. */
  ghost predicate Initial(s: State) {
    Distinct(s.rows) && s.clients == [] && forall i :: 0 <= i < |s.rows| ==> s.rows[i].id < s.nextId
  }

  lemma {:induction false} StepsKeepInv(inventory: seq<RoomDef>, s: State, actions: seq<Action>)
    requires Initial(s)
    ensures Inv(Steps(inventory, s, actions))
  {
    if actions != [] {
      hide Inv, Step;
      StepsKeepInv(inventory, s, actions[..|actions| - 1]);
      StepKeepsInv(inventory, Steps(inventory, s, actions[..|actions| - 1]), actions[|actions| - 1]);
    }
  }

  /**
   * Whatever the interleaving: no two rows share a key; every view answered to a request for a key
   * names the one row that holds it, so any two of them name the same booking; and a request fails
   * to be reconciled only if its row violates a constraint other than the key's.
   */
  lemma OneBookingPerKey(inventory: seq<RoomDef>, s: State, actions: seq<Action>)
    requires Initial(s)
    ensures var t := Steps(inventory, s, actions);
      && (forall i, j :: 0 <= i < j < |t.rows| ==> t.rows[i].key != t.rows[j].key)
      && (forall c :: c in t.clients && Viewed(c) ==> Holds(t.rows, c.phase.payload.row.id, c.req.key))
      && (forall c, d :: c in t.clients && d in t.clients && Viewed(c) && Viewed(d) && c.req.key == d.req.key ==>
            c.phase.payload.row.id == d.phase.payload.row.id)
      && (forall c :: c in t.clients && c.phase.Answered? && c.phase.payload.Unreconciled? ==>
            !RowConstraints(NewRow(c.req, c.id)))
  {
    StepsKeepInv(inventory, s, actions);
    hide Steps, RowConstraints, FindByKey;
  }

  /** Rows are never lost: what is in the table at some point of a run stays there, under its id and key. */
  lemma {:induction false} RowsAreKept(inventory: seq<RoomDef>, s: State, actions: seq<Action>, n: nat)
    requires Initial(s) && n <= |actions|
    ensures Extends(Steps(inventory, s, actions[..n]).rows, Steps(inventory, s, actions).rows)
    decreases |actions|
  {
    if n == |actions| {
      assert actions[..n] == actions;
    } else {
      var init := actions[..|actions| - 1];
      assert init[..n] == actions[..n];
      RowsAreKept(inventory, s, init, n);
      StepsKeepInv(inventory, s, init);
      hide Inv, Step;
      StepKeepsInv(inventory, Steps(inventory, s, init), actions[|actions| - 1]);
    }
  }

  // ---- with and without interleaving -----------------------------------------------------------

  /** `n` steps of one client with nobody in between. */
  function Alone(inventory: seq<RoomDef>, rows: seq<Row>, c: Client, n: nat): (seq<Row>, Client)
    decreases n
  {
    if n == 0 then (rows, c)
    else Alone(inventory, AdvanceRows(rows, c), c.(phase := AdvancePhase(inventory, rows, c)), n - 1)
  }

  /** Five uninterrupted steps are one serial create: the same answer and the same table. */
  lemma UninterruptedIsSerial(inventory: seq<RoomDef>, rows: seq<Row>, req: CreateRequest, id: Uuid)
    ensures var (payload, after) := Create(inventory, rows, req, id);
      Alone(inventory, rows, Client(req, id, Arrived), 5) == (after, Client(req, id, Answered(payload)))
  {
    hide FindByKey, FindOverlappingForUser, HasRoom, RowConstraints;
    var c := Client(req, id, Arrived);
    AloneOnce(inventory, rows, c, 4);
    var c1 := c.(phase := AdvancePhase(inventory, rows, c));
    AloneOnce(inventory, rows, c1, 3);
    var c2 := c1.(phase := AdvancePhase(inventory, rows, c1));
    AloneOnce(inventory, rows, c2, 2);
    var c3 := c2.(phase := AdvancePhase(inventory, rows, c2));
    AloneOnce(inventory, rows, c3, 1);
    var rows4, c4 := AdvanceRows(rows, c3), c3.(phase := AdvancePhase(inventory, rows, c3));
    AloneOnce(inventory, rows4, c4, 0);
  }

  lemma AloneOnce(inventory: seq<RoomDef>, rows: seq<Row>, c: Client, n: nat)
    ensures Alone(inventory, rows, c, n + 1)
         == Alone(inventory, AdvanceRows(rows, c), c.(phase := AdvancePhase(inventory, rows, c)), n)
    ensures Alone(inventory, rows, c, 0) == (rows, c)
  {
  }

  /** What a request was told is true of the table: its user is free, and every night of its window has room. */
  ghost predicate StillFree(inventory: seq<RoomDef>, rows: seq<Row>, req: CreateRequest) {
    && FindOverlappingForUser(rows, req.userId, req.propertyId, req.checkIn, req.checkOut) == []
    && RoomEachNight(inventory, rows, req)
  }

  ghost predicate RoomEachNight(inventory: seq<RoomDef>, rows: seq<Row>, req: CreateRequest) {
    forall day :: req.checkIn <= day < req.checkOut ==> Occupied(rows, req.propertyId, day) < LargestTotal(inventory)
  }

  /** An insert by a request that was told there is room keeps the table good exactly when that is still true. */
  lemma InsertKeepsGoodExactly(inventory: seq<RoomDef>, rows: seq<Row>, nextId: Uuid, c: Client)
    requires Good(inventory, rows) && ClientInv(rows, nextId, c) && Inserts(rows, c)
    ensures Good(inventory, AdvanceRows(rows, c)) <==> StillFree(inventory, rows, c.req)
  {
    hide Good, FindByKey, RowConstraints, FindOverlapping, FindOverlappingForUser;
    AddingKeepsGood(inventory, rows, NewRow(c.req, c.id));
  }

  /** Alone, the request would be accepted. */
  predicate Acceptable(inventory: seq<RoomDef>, rows: seq<Row>, req: CreateRequest) {
    ReachesInventory(rows, req) && HasRoom(inventory, rows, req) && RowConstraints(NewRow(req, 0))
  }

  /** They share a night of one property. */
  predicate Meet(a: CreateRequest, b: CreateRequest) {
    a.propertyId == b.propertyId && a.checkIn < b.checkOut && b.checkIn < a.checkOut
  }

  /** A night of both that has one room left. */
  ghost predicate ShareLastRoom(inventory: seq<RoomDef>, rows: seq<Row>, a: CreateRequest, b: CreateRequest) {
    a.propertyId == b.propertyId
    && exists day ::
         a.checkIn <= day < a.checkOut && b.checkIn <= day < b.checkOut
         && Occupied(rows, a.propertyId, day) + 1 == LargestTotal(inventory)
  }

  /**
   * Any two requests, each acceptable alone, can both be accepted when their checks interleave: both
   * see the table free, then both insert. That breaks the table exactly when they share a night with
   * one room left, or are of one user and share a night.
   */
  lemma RacingCreatesCanOversell(inventory: seq<RoomDef>, rows: seq<Row>, nextId: Uuid, a: CreateRequest,
                                 b: CreateRequest) returns (actions: seq<Action>)
    requires Good(inventory, rows) && forall i :: 0 <= i < |rows| ==> rows[i].id < nextId
    requires Acceptable(inventory, rows, a) && Acceptable(inventory, rows, b) && a.key != b.key
    ensures var after := Steps(inventory, State(rows, [], nextId), actions).rows;
      && after == rows + [NewRow(a, nextId), NewRow(b, nextId + 1)]
      && (Good(inventory, after) <==> !ShareLastRoom(inventory, rows, a, b) && !(a.userId == b.userId && Meet(a, b)))
  {
    actions := [Arrive(a), Arrive(b), Advance(0), Advance(1), Advance(0), Advance(1), Advance(0), Advance(1),
                Advance(0), Advance(1)];
    BothAreGoodExactly(inventory, rows, nextId, a, b);
    hide Good, Acceptable, ShareLastRoom, Meet, AdvancePhase, AdvanceRows;
    var s := State(rows, [], nextId);
    BothArrive(inventory, s, actions, a, b);
    BothAdvance(inventory, s, actions, a, b, Arrived, NoSuchKey, 2);
    BothAdvance(inventory, s, actions, a, b, NoSuchKey, NoClash, 4);
    BothAdvance(inventory, s, actions, a, b, NoClash, RoomLeft, 6);
    BothInsert(inventory, s, actions, a, b, 8);
    assert actions[..10] == actions;
  }

  lemma BothAreGoodExactly(inventory: seq<RoomDef>, rows: seq<Row>, nextId: Uuid, a: CreateRequest, b: CreateRequest)
    requires Good(inventory, rows) && forall i :: 0 <= i < |rows| ==> rows[i].id < nextId
    requires Acceptable(inventory, rows, a) && Acceptable(inventory, rows, b) && a.key != b.key
    ensures Good(inventory, rows + [NewRow(a, nextId), NewRow(b, nextId + 1)])
       <==> !ShareLastRoom(inventory, rows, a, b) && !(a.userId == b.userId && Meet(a, b))
  {
    var rowA, rowB := NewRow(a, nextId), NewRow(b, nextId + 1);
    AcceptableIsFree(inventory, rows, a);
    AcceptableIsFree(inventory, rows, b);
    FreeAfterOne(inventory, rows, a, rowA, b);
    KeyAfterOne(rows, rowA, b);
    hide Good, StillFree, ShareLastRoom, Meet;
    AddedIsGood(inventory, rows, a, nextId);
    assert rows + [rowA] + [rowB] == rows + [rowA, rowB];
    AddedIsGood(inventory, rows + [rowA], b, nextId + 1);
  }

  lemma AddedIsGood(inventory: seq<RoomDef>, rows: seq<Row>, req: CreateRequest, id: Uuid)
    requires Good(inventory, rows) && FindByKey(rows, req.key).None? && RowConstraints(NewRow(req, 0))
    requires forall i :: 0 <= i < |rows| ==> rows[i].id < id
    ensures Good(inventory, rows + [NewRow(req, id)]) <==> StillFree(inventory, rows, req)
  {
    hide Good, FindByKey, FindOverlapping, FindOverlappingForUser;
    AddingKeepsGood(inventory, rows, NewRow(req, id));
  }

  lemma KeyAfterOne(rows: seq<Row>, rowA: Row, b: CreateRequest)
    requires FindByKey(rows, b.key).None? && rowA.key != b.key
    ensures FindByKey(rows + [rowA], b.key).None?
  {
    FoundByKey(rows, b.key);
    FoundByKey(rows + [rowA], b.key);
  }

  lemma AcceptableIsFree(inventory: seq<RoomDef>, rows: seq<Row>, req: CreateRequest)
    requires Acceptable(inventory, rows, req)
    ensures StillFree(inventory, rows, req)
  {
    hide FindOverlapping, FindOverlappingForUser;
    forall day | req.checkIn <= day < req.checkOut
      ensures Occupied(rows, req.propertyId, day) < LargestTotal(inventory)
    {
      NightWithinWindow(rows, req.propertyId, day, req.checkIn, req.checkOut);
    }
  }

  lemma FreeAfterOne(inventory: seq<RoomDef>, rows: seq<Row>, a: CreateRequest, rowA: Row, b: CreateRequest)
    requires StillFree(inventory, rows, a) && StillFree(inventory, rows, b)
    requires rowA == NewRow(a, rowA.id)
    ensures StillFree(inventory, rows + [rowA], b)
       <==> !ShareLastRoom(inventory, rows, a, b) && !(a.userId == b.userId && Meet(a, b))
  {
    UserAfterOne(rows, a, rowA, b);
    RoomAfterOne(inventory, rows, a, rowA, b);
    hide FindOverlappingForUser, RoomEachNight, ShareLastRoom, Meet;
  }

  lemma UserAfterOne(rows: seq<Row>, a: CreateRequest, rowA: Row, b: CreateRequest)
    requires FindOverlappingForUser(rows, b.userId, b.propertyId, b.checkIn, b.checkOut) == []
             && rowA == NewRow(a, rowA.id)
    ensures FindOverlappingForUser(rows + [rowA], b.userId, b.propertyId, b.checkIn, b.checkOut) == [] <==>
            !(a.userId == b.userId && Meet(a, b))
  {
    var after := rows + [rowA];
    assert after[..|rows|] == rows && after[|rows|] == rowA;
  }

  lemma RoomAfterOne(inventory: seq<RoomDef>, rows: seq<Row>, a: CreateRequest, rowA: Row, b: CreateRequest)
    requires RoomEachNight(inventory, rows, a) && RoomEachNight(inventory, rows, b) && rowA == NewRow(a, rowA.id)
    ensures RoomEachNight(inventory, rows + [rowA], b) <==> !ShareLastRoom(inventory, rows, a, b)
  {
    var after := rows + [rowA];
    forall day
      ensures Occupied(after, b.propertyId, day)
           == Occupied(rows, b.propertyId, day)
              + if a.propertyId == b.propertyId && a.checkIn <= day < a.checkOut then 1 else 0
    {
      FindOverlappingGrows(rows, rowA, b.propertyId, day, day + 1);
    }
    hide FindOverlapping, LargestTotal, Occupied;
    if ShareLastRoom(inventory, rows, a, b) {
      var day :| a.checkIn <= day < a.checkOut && b.checkIn <= day < b.checkOut
                 && Occupied(rows, a.propertyId, day) + 1 == LargestTotal(inventory);
      assert Occupied(after, b.propertyId, day) == LargestTotal(inventory);
    } else {
      forall day | b.checkIn <= day < b.checkOut ensures Occupied(after, b.propertyId, day) < LargestTotal(inventory) {
        assert Occupied(rows, b.propertyId, day) < LargestTotal(inventory);
      }
    }
  }

  lemma OneStep(inventory: seq<RoomDef>, s: State, actions: seq<Action>, n: nat)
    requires n < |actions|
    ensures Steps(inventory, s, actions[..0]) == s
    ensures Steps(inventory, s, actions[..n + 1]) == Step(inventory, Steps(inventory, s, actions[..n]), actions[n])
  {
    assert actions[..n + 1][..n] == actions[..n];
  }

  /** Both requests, in the same phase, over the unchanged table. */
  function Both(rows: seq<Row>, nextId: Uuid, a: CreateRequest, b: CreateRequest, phase: Phase): State {
    State(rows, [Client(a, nextId, phase), Client(b, nextId + 1, phase)], nextId + 2)
  }

  lemma BothArrive(inventory: seq<RoomDef>, s: State, actions: seq<Action>, a: CreateRequest, b: CreateRequest)
    requires s.clients == [] && |actions| > 1 && actions[0] == Arrive(a) && actions[1] == Arrive(b)
    ensures Steps(inventory, s, actions[..2]) == Both(s.rows, s.nextId, a, b, Arrived)
  {
    OneStep(inventory, s, actions, 0);
    OneStep(inventory, s, actions, 1);
    hide Steps, AdvancePhase, AdvanceRows, Cancel;
    assert [] + [Client(a, s.nextId, Arrived)] == [Client(a, s.nextId, Arrived)];
  }

  lemma BothAdvance(inventory: seq<RoomDef>, s: State, actions: seq<Action>, a: CreateRequest, b: CreateRequest,
                    from: Phase, to: Phase, n: nat)
    requires n + 1 < |actions| && actions[n] == Advance(0) && actions[n + 1] == Advance(1)
    requires Steps(inventory, s, actions[..n]) == Both(s.rows, s.nextId, a, b, from)
    requires Acceptable(inventory, s.rows, a) && Acceptable(inventory, s.rows, b)
    requires (from, to) in {(Arrived, NoSuchKey), (NoSuchKey, NoClash), (NoClash, RoomLeft)}
    ensures Steps(inventory, s, actions[..n + 2]) == Both(s.rows, s.nextId, a, b, to)
  {
    hide Steps, Acceptable, AdvancePhase, AdvanceRows, Insertable;
    var was := Both(s.rows, s.nextId, a, b, from);
    OneStep(inventory, s, actions, n);
    OneStep(inventory, s, actions, n + 1);
    OneAdvances(inventory, was, 0, to);
    OneAdvances(inventory, was.(clients := was.clients[0 := was.clients[0].(phase := to)]), 1, to);
    hide Step;
  }

  lemma OneAdvances(inventory: seq<RoomDef>, s: State, i: nat, to: Phase)
    requires i < |s.clients| && Acceptable(inventory, s.rows, s.clients[i].req)
    requires (s.clients[i].phase, to) in {(Arrived, NoSuchKey), (NoSuchKey, NoClash), (NoClash, RoomLeft)}
    ensures Step(inventory, s, Advance(i)) == s.(clients := s.clients[i := s.clients[i].(phase := to)])
  {
    AcceptableAdvances(inventory, s.rows, s.clients[i], to);
    hide Acceptable, AdvancePhase;
  }

  lemma AcceptableAdvances(inventory: seq<RoomDef>, rows: seq<Row>, c: Client, to: Phase)
    requires Acceptable(inventory, rows, c.req)
    requires (c.phase, to) in {(Arrived, NoSuchKey), (NoSuchKey, NoClash), (NoClash, RoomLeft)}
    ensures AdvancePhase(inventory, rows, c) == to && AdvanceRows(rows, c) == rows
  {
    hide FindByKey, FindOverlappingForUser, HasRoom, RowConstraints;
  }

  lemma BothInsert(inventory: seq<RoomDef>, s: State, actions: seq<Action>, a: CreateRequest, b: CreateRequest, n: nat)
    requires n + 1 < |actions| && actions[n] == Advance(0) && actions[n + 1] == Advance(1)
    requires Steps(inventory, s, actions[..n]) == Both(s.rows, s.nextId, a, b, RoomLeft)
    requires Acceptable(inventory, s.rows, a) && Acceptable(inventory, s.rows, b) && a.key != b.key
    ensures Steps(inventory, s, actions[..n + 2]).rows == s.rows + [NewRow(a, s.nextId), NewRow(b, s.nextId + 1)]
  {
    OneStep(inventory, s, actions, n);
    OneStep(inventory, s, actions, n + 1);
    var rows, rowA, rowB := s.rows, NewRow(a, s.nextId), NewRow(b, s.nextId + 1);
    FoundByKey(rows, b.key);
    FoundByKey(rows + [rowA], b.key);
    hide Steps, FindByKey, FindOverlappingForUser, HasRoom;
    assert Insertable(rows, rowA);
    assert Steps(inventory, s, actions[..n + 1]).rows == rows + [rowA];
    assert Steps(inventory, s, actions[..n + 1]).clients[1] == Client(b, s.nextId + 1, RoomLeft);
    assert Insertable(rows + [rowA], rowB);
    assert rows + [rowA] + [rowB] == rows + [rowA, rowB];
  }
}
