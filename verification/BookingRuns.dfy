/**
 * Whole runs of interleaved create requests: exactly when the table stays good, and what must
 * happen when it does not.
 */
module BookingRuns {
  import opened Booking
  import opened BookingRace

  /** The state after the first `n` actions. */
  function At(inventory: seq<RoomDef>, s: State, actions: seq<Action>, n: nat): State
    requires n <= |actions|
  {
    Steps(inventory, s, actions[..n])
  }

  predicate InsertsNext(t: State, a: Action) {
    a.Advance? && a.i < |t.clients| && Inserts(t.rows, t.clients[a.i])
  }

  /** The n-th action is an insert. */
  predicate InsertsAt(inventory: seq<RoomDef>, s: State, actions: seq<Action>, n: nat)
    requires n < |actions|
  {
    InsertsNext(At(inventory, s, actions, n), actions[n])
  }

  /** The client that the n-th action advances. */
  function ClientAt(inventory: seq<RoomDef>, s: State, actions: seq<Action>, n: nat): Client
    requires n < |actions| && actions[n].Advance? && actions[n].i < |At(inventory, s, actions, n).clients|
  {
    At(inventory, s, actions, n).clients[actions[n].i]
  }

  lemma AtNext(inventory: seq<RoomDef>, s: State, actions: seq<Action>, n: nat)
    requires n < |actions|
    ensures At(inventory, s, actions, 0) == s
    ensures At(inventory, s, actions, n + 1) == Step(inventory, At(inventory, s, actions, n), actions[n])
  {
    OneStep(inventory, s, actions, n);
  }

  lemma InvAt(inventory: seq<RoomDef>, s: State, actions: seq<Action>, n: nat)
    requires Initial(s) && n <= |actions|
    ensures Inv(At(inventory, s, actions, n))
  {
    StepsKeepInv(inventory, s, actions[..n]);
  }

  // ---- exactly when a run stays good -----------------------------------------------------------

  lemma StepStaysGoodExactly(inventory: seq<RoomDef>, t: State, a: Action)
    requires Inv(t) && Good(inventory, t.rows)
    ensures Good(inventory, Step(inventory, t, a).rows)
       <==> (InsertsNext(t, a) ==> StillFree(inventory, t.rows, t.clients[a.i].req))
  {
    hide Good, ClientInv, StillFree, Inserts, Cancel, AdvancePhase;
    match a
    case Arrive(_) =>
    case CancelAny(id) => CancelKeepsGood(inventory, t.rows, id);
    case Advance(i) =>
      if InsertsNext(t, a) {
        InsertKeepsGoodExactly(inventory, t.rows, t.nextId, t.clients[i]);
      }
  }

  ghost predicate StaysGood(inventory: seq<RoomDef>, s: State, actions: seq<Action>) {
    forall n :: 0 <= n <= |actions| ==> Good(inventory, At(inventory, s, actions, n).rows)
  }

  /** What every inserting request was told is true when it inserts. */
  ghost predicate InsertsAreFree(inventory: seq<RoomDef>, s: State, actions: seq<Action>) {
    forall n :: 0 <= n < |actions| && InsertsAt(inventory, s, actions, n) ==>
      StillFree(inventory, At(inventory, s, actions, n).rows, ClientAt(inventory, s, actions, n).req)
  }

  /** A run stays good throughout exactly when every insert in it comes while its user and its nights are free. */
  lemma RunStaysGoodExactly(inventory: seq<RoomDef>, s: State, actions: seq<Action>)
    requires Initial(s) && Good(inventory, s.rows)
    ensures StaysGood(inventory, s, actions) <==> InsertsAreFree(inventory, s, actions)
  {
    hide Good, Steps, StillFree, Inserts, Step;
    if StaysGood(inventory, s, actions) {
      forall n | 0 <= n < |actions| && InsertsAt(inventory, s, actions, n)
        ensures StillFree(inventory, At(inventory, s, actions, n).rows, ClientAt(inventory, s, actions, n).req)
      {
        InvAt(inventory, s, actions, n);
        AtNext(inventory, s, actions, n);
        assert Good(inventory, At(inventory, s, actions, n + 1).rows);
        StepStaysGoodExactly(inventory, At(inventory, s, actions, n), actions[n]);
      }
    }
    if InsertsAreFree(inventory, s, actions) {
      forall n | 0 <= n <= |actions| ensures Good(inventory, At(inventory, s, actions, n).rows) {
        FreeInsertsKeepGood(inventory, s, actions, n);
      }
    }
  }

  lemma {:induction false} FreeInsertsKeepGood(inventory: seq<RoomDef>, s: State, actions: seq<Action>, n: nat)
    requires Initial(s) && Good(inventory, s.rows) && InsertsAreFree(inventory, s, actions) && n <= |actions|
    ensures Good(inventory, At(inventory, s, actions, n).rows)
  {
    hide Good, Steps, StillFree, Inserts, Step;
    if n == 0 {
      if actions != [] {
        AtNext(inventory, s, actions, 0);
      } else {
        NothingDone(inventory, s);
      }
    } else {
      FreeInsertsKeepGood(inventory, s, actions, n - 1);
      InvAt(inventory, s, actions, n - 1);
      AtNext(inventory, s, actions, n - 1);
      assert InsertsAt(inventory, s, actions, n - 1) ==>
          StillFree(inventory, At(inventory, s, actions, n - 1).rows, ClientAt(inventory, s, actions, n - 1).req);
      StepStaysGoodExactly(inventory, At(inventory, s, actions, n - 1), actions[n - 1]);
    }
  }

  lemma NothingDone(inventory: seq<RoomDef>, s: State)
    ensures Steps(inventory, s, [][..0]) == s
  {
  }

  // ---- a request's own checks --------------------------------------------------------------------

  /** At the u-th action the i-th client, with this request, goes on from the phase. */
  predicate ChecksAt(inventory: seq<RoomDef>, s: State, actions: seq<Action>, i: nat, req: CreateRequest,
                     phase: Phase, u: nat) {
    && u < |actions| && actions[u] == Advance(i)
    && var t := At(inventory, s, actions, u); i < |t.clients| && t.clients[i].req == req && t.clients[i].phase == phase
  }

  /** A request that is past its user check found no row of its user. */
  lemma {:induction false} UserWasFree(inventory: seq<RoomDef>, s: State, actions: seq<Action>, n: nat,
                                       i: nat) returns (u: nat)
    requires s.clients == [] && n <= |actions| && i < |At(inventory, s, actions, n).clients|
    requires At(inventory, s, actions, n).clients[i].phase in {NoClash, RoomLeft}
    ensures u < n
    ensures var req := At(inventory, s, actions, n).clients[i].req;
      && ChecksAt(inventory, s, actions, i, req, NoSuchKey, u)
      && FindOverlappingForUser(At(inventory, s, actions, u).rows, req.userId, req.propertyId, req.checkIn,
                                req.checkOut)
         == []
  {
    hide Steps, FindByKey, FindOverlappingForUser, HasRoom, Insertable;
    if n == 0 {
      StartsEmpty(inventory, s, actions);
    } else {
      AtNext(inventory, s, actions, n - 1);
      var t := At(inventory, s, actions, n - 1);
      if i < |t.clients| && t.clients[i].phase in {NoClash, RoomLeft} {
        u := UserWasFree(inventory, s, actions, n - 1, i);
      } else {
        u := n - 1;
      }
    }
  }

  lemma StartsEmpty(inventory: seq<RoomDef>, s: State, actions: seq<Action>)
    ensures At(inventory, s, actions, 0) == s
  {
  }

  /** A request that is past its room check found room, after its user check. */
  lemma {:induction false} RoomWasLeft(inventory: seq<RoomDef>, s: State, actions: seq<Action>, n: nat, i: nat)
    returns (u: nat, r: nat)
    requires s.clients == [] && n <= |actions| && i < |At(inventory, s, actions, n).clients|
    requires At(inventory, s, actions, n).clients[i].phase == RoomLeft
    ensures u < r < n
    ensures var req := At(inventory, s, actions, n).clients[i].req;
      && ChecksAt(inventory, s, actions, i, req, NoSuchKey, u) && ChecksAt(inventory, s, actions, i, req, NoClash, r)
      && HasRoom(inventory, At(inventory, s, actions, r).rows, req)
      && FindOverlappingForUser(At(inventory, s, actions, u).rows, req.userId, req.propertyId, req.checkIn,
                                req.checkOut)
         == []
  {
    hide Steps, FindByKey, FindOverlappingForUser, HasRoom, Insertable;
    if n == 0 {
      StartsEmpty(inventory, s, actions);
    } else {
      AtNext(inventory, s, actions, n - 1);
      var t := At(inventory, s, actions, n - 1);
      if i < |t.clients| && t.clients[i].phase == RoomLeft {
        u, r := RoomWasLeft(inventory, s, actions, n - 1, i);
      } else {
        u := UserWasFree(inventory, s, actions, n - 1, i);
        r := n - 1;
      }
    }
  }

  // ---- where rows come from -----------------------------------------------------------------------

  /** Rows are only added, and change only by being cancelled. */
  ghost predicate Descends(was: seq<Row>, now: seq<Row>) {
    |was| <= |now| && forall k :: 0 <= k < |was| ==> now[k] == was[k] || now[k] == was[k].(status := Cancelled)
  }

  lemma StepDescends(inventory: seq<RoomDef>, t: State, a: Action)
    ensures Descends(t.rows, Step(inventory, t, a).rows)
  {
    hide Insertable, AdvancePhase, FindById;
    if a.CancelAny? {
      FoundById(t.rows, a.id);
    }
  }

  lemma {:induction false} RowsDescend(inventory: seq<RoomDef>, s: State, actions: seq<Action>, m: nat, n: nat)
    requires m <= n <= |actions|
    ensures Descends(At(inventory, s, actions, m).rows, At(inventory, s, actions, n).rows)
    decreases n
  {
    hide Steps, Step;
    if m < n {
      RowsDescend(inventory, s, actions, m, n - 1);
      AtNext(inventory, s, actions, n - 1);
      StepDescends(inventory, At(inventory, s, actions, n - 1), actions[n - 1]);
    }
  }

  /** A row that was not there before was inserted in between, by the client whose id it bears. */
  lemma {:induction false} RowWasInserted(inventory: seq<RoomDef>, s: State, actions: seq<Action>, m: nat, n: nat,
                                          k: nat)
    returns (q: nat)
    requires m <= n <= |actions|
    requires |At(inventory, s, actions, m).rows| <= k < |At(inventory, s, actions, n).rows|
    ensures m <= q < n && InsertsAt(inventory, s, actions, q)
    ensures var c, row := ClientAt(inventory, s, actions, q), At(inventory, s, actions, n).rows[k];
      row == NewRow(c.req, c.id) || row == NewRow(c.req, c.id).(status := Cancelled)
    decreases n
  {
    hide Steps, Insertable, AdvancePhase, FindById;
    assert m < n;
    AtNext(inventory, s, actions, n - 1);
    var t := At(inventory, s, actions, n - 1);
    StepDescends(inventory, t, actions[n - 1]);
    if k < |t.rows| {
      q := RowWasInserted(inventory, s, actions, m, n - 1, k);
    } else {
      q := n - 1;
      CancelKeepsLength(t.rows, actions[n - 1]);
    }
  }

  lemma CancelKeepsLength(rows: seq<Row>, a: Action)
    ensures a.CancelAny? ==> |Cancel(rows, a.id).1| == |rows|
  {
    if a.CancelAny? {
      FoundById(rows, a.id);
    }
  }

  /** If more rows overlap a window than before, one that overlaps it is new. */
  lemma {:induction false} NewOverlap(was: seq<Row>, now: seq<Row>, p: Uuid, from: int, to: int) returns (k: nat)
    requires Descends(was, now) && |FindOverlapping(now, p, from, to)| > |FindOverlapping(was, p, from, to)|
    ensures |was| <= k < |now| && Overlaps(now[k], p, from, to)
    decreases |now|
  {
    if |now| == |was| {
      FewerOverlap(was, now, p, from, to);
    } else {
      var last := |now| - 1;
      if Overlaps(now[last], p, from, to) {
        k := last;
      } else {
        k := NewOverlap(was, now[..last], p, from, to);
      }
    }
  }

  lemma {:induction false} FewerOverlap(was: seq<Row>, now: seq<Row>, p: Uuid, from: int, to: int)
    requires Descends(was, now) && |now| == |was|
    ensures |FindOverlapping(now, p, from, to)| <= |FindOverlapping(was, p, from, to)|
  {
    if was != [] {
      var n := |was| - 1;
      FewerOverlap(was[..n], now[..n], p, from, to);
      assert now[n] == was[n] || now[n] == was[n].(status := Cancelled);
    }
  }

  // ---- what breaks a run ---------------------------------------------------------------------------

  lemma UserIsTaken(was: seq<Row>, now: seq<Row>, req: CreateRequest) returns (k: nat)
    requires Descends(was, now)
    requires FindOverlappingForUser(was, req.userId, req.propertyId, req.checkIn, req.checkOut) == []
    requires FindOverlappingForUser(now, req.userId, req.propertyId, req.checkIn, req.checkOut) != []
    ensures |was| <= k < |now| && now[k].userId == req.userId
            && Overlaps(now[k], req.propertyId, req.checkIn, req.checkOut)
  {
    FoundForUser(was, req.userId, req.propertyId, req.checkIn, req.checkOut);
    FoundForUser(now, req.userId, req.propertyId, req.checkIn, req.checkOut);
    assert forall i :: 0 <= i < |was| && now[i].status != Cancelled ==> now[i] == was[i];
    k :| 0 <= k < |now| && now[k].userId == req.userId && Overlaps(now[k], req.propertyId, req.checkIn, req.checkOut);
  }

  lemma RoomIsTaken(inventory: seq<RoomDef>, was: seq<Row>, now: seq<Row>, req: CreateRequest) returns (k: nat)
    requires Descends(was, now) && HasRoom(inventory, was, req) && !RoomEachNight(inventory, now, req)
    ensures |was| <= k < |now| && Overlaps(now[k], req.propertyId, req.checkIn, req.checkOut)
  {
    var day :| req.checkIn <= day < req.checkOut && Occupied(now, req.propertyId, day) >= LargestTotal(inventory);
    NightWithinWindow(now, req.propertyId, day, req.checkIn, req.checkOut);
    k := NewOverlap(was, now, req.propertyId, req.checkIn, req.checkOut);
  }

  /** Another request inserts at the q-th action, for a window that shares a night with this one's. */
  predicate RivalAt(inventory: seq<RoomDef>, s: State, actions: seq<Action>, c: Client, q: nat) {
    && q < |actions| && InsertsAt(inventory, s, actions, q)
    && var d := ClientAt(inventory, s, actions, q); d.id != c.id && Meet(c.req, d.req)
  }

  /**
   * An insert that breaks the table was overtaken: between one of the request's own checks and the
   * insert, another request inserted a booking that shares a night with it.
   */
  lemma BreakingInsertIsOvertaken(inventory: seq<RoomDef>, s: State, actions: seq<Action>, n: nat)
    returns (u: nat, r: nat, q: nat)
    requires Initial(s) && n < |actions| && InsertsAt(inventory, s, actions, n)
    requires !StillFree(inventory, At(inventory, s, actions, n).rows, ClientAt(inventory, s, actions, n).req)
    ensures u < r < n && u < q < n
    ensures var c := ClientAt(inventory, s, actions, n);
      && ChecksAt(inventory, s, actions, actions[n].i, c.req, NoSuchKey, u)
      && ChecksAt(inventory, s, actions, actions[n].i, c.req, NoClash, r)
      && RivalAt(inventory, s, actions, c, q)
      && (r < q || ClientAt(inventory, s, actions, q).req.userId == c.req.userId)
  {
    var c, now := ClientAt(inventory, s, actions, n), At(inventory, s, actions, n).rows;
    u, r := RoomWasLeft(inventory, s, actions, n, actions[n].i);
    RowsDescend(inventory, s, actions, u, n);
    RowsDescend(inventory, s, actions, r, n);
    InvAt(inventory, s, actions, n);
    assert ClientInv(now, At(inventory, s, actions, n).nextId, c);
    hide Steps, FindOverlapping, FindOverlappingForUser, HasRoom, RoomEachNight, Descends, Insertable, FindByKey,
         RowConstraints;
    var userTaken := FindOverlappingForUser(now, c.req.userId, c.req.propertyId, c.req.checkIn, c.req.checkOut) != [];
    var from := if userTaken then u else r;
    var k;
    if userTaken {
      k := UserIsTaken(At(inventory, s, actions, u).rows, now, c.req);
    } else {
      k := RoomIsTaken(inventory, At(inventory, s, actions, r).rows, now, c.req);
    }
    q := RowWasInserted(inventory, s, actions, from, n, k);
    var d := ClientAt(inventory, s, actions, q);
    assert now[k] == NewRow(d.req, d.id) && now[k].id != c.id;
    assert q != from;
  }

  /** No request inserts between another's checks and its insert for a window that shares a night. */
  ghost predicate NoneOvertakes(inventory: seq<RoomDef>, s: State, actions: seq<Action>) {
    forall n, u, q ::
      && 0 <= u < q < n < |actions| && InsertsAt(inventory, s, actions, n)
      && ChecksAt(inventory, s, actions, actions[n].i, ClientAt(inventory, s, actions, n).req, NoSuchKey, u)
      ==> !RivalAt(inventory, s, actions, ClientAt(inventory, s, actions, n), q)
  }

  /** So a run in which nobody is overtaken stays good, however its steps interleave. */
  lemma UnovertakenRunsStayGood(inventory: seq<RoomDef>, s: State, actions: seq<Action>)
    requires Initial(s) && Good(inventory, s.rows) && NoneOvertakes(inventory, s, actions)
    ensures StaysGood(inventory, s, actions)
  {
    RunStaysGoodExactly(inventory, s, actions);
    hide Good, StaysGood, Steps, StillFree, Inserts, ChecksAt, RivalAt;
    forall n | 0 <= n < |actions| && InsertsAt(inventory, s, actions, n)
      ensures StillFree(inventory, At(inventory, s, actions, n).rows, ClientAt(inventory, s, actions, n).req)
    {
      if !StillFree(inventory, At(inventory, s, actions, n).rows, ClientAt(inventory, s, actions, n).req) {
        var u, r, q := BreakingInsertIsOvertaken(inventory, s, actions, n);
      }
    }
  }
}
