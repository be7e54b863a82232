/**
 * `createBooking` of the booking flow: a session of a given number of
 * minutes, checked against capacity, opening hours and the user's other
 * bookings, then created in one transaction together with a reservation of
 * every selected machine for the whole session.
 */
module SessionBooking {
  import opened Common
  import opened Tables
  import opened Schema
  import opened Storage

  /** The request body. `dayOfWeek` and `midnight` are the local weekday and
      local midnight of the start instant, which the handler derives with
      `getDay` and `setHours`. */
  datatype SessionRequest = SessionRequest(
    userId: Option<string>,
    gymId: Option<int>,
    startTime: Option<Instant>,
    duration: Option<int>,
    selectedMachines: seq<int>,
    dayOfWeek: int,
    midnight: Instant)

  /** What the validations before the transaction establish. */
  datatype Window = Window(userId: string, gymId: int, start: Instant, end: Instant, minutes: int)

  /** The validations before the transaction, in the handler's order: required
      fields, the gym, a positive duration, capacity, the weekday's opening
      hours and the user's overlapping bookings in any gym. */
  function Admit(db: Db, req: SessionRequest): Result<Window> {
    if !TruthyString(req.userId) || !TruthyInt(req.gymId) || req.startTime.None? || !TruthyInt(req.duration) then
      Err(BadRequest)
    else if req.gymId.value !in db.gyms then Err(NotFound)
    else if req.duration.value <= 0 then Err(BadRequest)
    else
      var gym := db.gyms[req.gymId.value];
      var s := req.startTime.value;
      var e := s + req.duration.value * MsPerMinute;
      if gym.currentUsers >= gym.maxCapacity then Err(BadRequest)
      else
        match FirstOpening(gym.openingHours, req.dayOfWeek)
        case None => Err(BadRequest)
        case Some(oh) =>
          if s < req.midnight + oh.openMin * MsPerMinute || e > req.midnight + oh.closeMin * MsPerMinute then
            Err(BadRequest)
          else if UserConflict(db, req.userId.value, s, e) then Err(BadRequest)
          else Ok(Window(req.userId.value, req.gymId.value, s, e, req.duration.value))
  }

  /** The booking row the transaction creates. */
  function NewBooking(w: Window): Booking {
    Booking(w.userId, w.gymId, w.start, w.end, Confirmed)
  }

  /** The `findUnique` of a selected machine: it exists, is active and does
      not need service. */
  predicate Selectable(db: Db, m: int) {
    m in db.machines && db.machines[m].status == Active && !db.machines[m].needService
  }

  /** A selected machine passes both per-machine checks. */
  predicate Bookable(db: Db, m: int, s: Instant, e: Instant) {
    Selectable(db, m) && !MachineTaken(db, m, s, e)
  }

  /** The machine loop of the transaction: each selected machine is checked
      against the transaction's own state, which already holds the new
      booking and the reservations made so far, and then reserved for the
      whole session. */
  function BookMachines(tx: Db, b: int, s: Instant, e: Instant, d: int, ms: seq<int>): Result<Db>
    decreases |ms|
  {
    if ms == [] then Ok(tx)
    else if !Selectable(tx, ms[0]) then Err(BadRequest)
    else if MachineTaken(tx, ms[0], s, e) then Err(BadRequest)
    else BookMachines(InsertMachineBooking(tx, MachineBooking(b, ms[0], d)), b, s, e, d, ms[1..])
  }

  /** The reservation rows for machines `ms` of booking `b`. */
  function Reservations(b: int, ms: seq<int>, d: int): seq<MachineBooking> {
    seq(|ms|, i requires 0 <= i < |ms| => MachineBooking(b, ms[i], d))
  }

  /** The whole handler on a store snapshot: the new state, or the error. */
  function CreateSession(db: Db, req: SessionRequest): Result<Db> {
    match Admit(db, req)
    case Err(x) => Err(x)
    case Ok(w) =>
      match BookMachines(InsertBooking(db, NewBooking(w)), db.nextBooking, w.start, w.end, w.minutes, req.selectedMachines)
      case Err(x) => Err(x)
      case Ok(tx) => AdjustUsers(tx, w.gymId, 1)
  }

  /** The handler: the snapshot is changed in a working copy that is
      committed only when every step succeeded; the result is the new
      booking's id. */
  method CreateBooking(st: Store, req: SessionRequest) returns (r: Result<int>)
    modifies st
    ensures r.Ok? ==> CreateSession(old(st.Snapshot()), req) == Ok(st.Snapshot()) && r.value == old(st.nextBooking)
    ensures r.Err? ==> CreateSession(old(st.Snapshot()), req) == Err(r.error) && st.Snapshot() == old(st.Snapshot())
  {
    var db := st.Snapshot();
    var a := Admit(db, req);
    if a.Err? {
      return Err(a.error);
    }
    var w := a.value;
    var b := db.nextBooking;
    var tx := InsertBooking(db, NewBooking(w));
    ghost var tx0 := tx;
    var ms := req.selectedMachines;
    var i := 0;
    while i < |ms|
      invariant 0 <= i <= |ms|
      invariant BookMachines(tx0, b, w.start, w.end, w.minutes, ms) == BookMachines(tx, b, w.start, w.end, w.minutes, ms[i..])
    {
      var m := ms[i];
      assert ms[i..][0] == m && ms[i..][1..] == ms[i + 1..];
      if !Selectable(tx, m) {
        return Err(BadRequest);
      }
      if MachineTaken(tx, m, w.start, w.end) {
        return Err(BadRequest);
      }
      tx := InsertMachineBooking(tx, MachineBooking(b, m, w.minutes));
      i := i + 1;
    }
    assert ms[i..] == [];
    var fin := AdjustUsers(tx, w.gymId, 1);
    if fin.Err? {
      return Err(fin.error);
    }
    st.Commit(fin.value);
    return Ok(b);
  }

  // ---------------------------------------------------------------------
  // The machine loop
  // ---------------------------------------------------------------------

  /** A new reservation of machine `mb.machineId` for a booking overlapping
      [s, e) makes exactly that machine taken in addition. */
  lemma TakenAfterInsert(tx: Db, mb: MachineBooking, m: int, s: Instant, e: Instant)
    requires MachineBookingKeysBelow(tx)
    requires mb.bookingId in tx.bookings && HeldDuring(tx, mb.bookingId, s, e)
    ensures MachineTaken(InsertMachineBooking(tx, mb), m, s, e) <==> MachineTaken(tx, m, s, e) || m == mb.machineId
  {
    var t := InsertMachineBooking(tx, mb);
    var n := tx.nextMachineBooking;
    assert n !in tx.machineBookings;
    if MachineTaken(tx, m, s, e) {
      var k :| k in tx.machineBookings && tx.machineBookings[k].machineId == m && ReservesDuring(tx, k, s, e);
      assert k in t.machineBookings && t.machineBookings[k] == tx.machineBookings[k];
      assert ReservesDuring(t, k, s, e);
    }
    if m == mb.machineId {
      assert n in t.machineBookings && ReservesDuring(t, n, s, e);
    }
    if MachineTaken(t, m, s, e) {
      var k :| k in t.machineBookings && t.machineBookings[k].machineId == m && ReservesDuring(t, k, s, e);
      if k != n {
        assert ReservesDuring(tx, k, s, e);
      }
    }
  }

  /** One step of the loop keeps the conditions the loop relies on. */
  lemma ReserveStep(tx: Db, b: int, s: Instant, e: Instant, d: int, m: int)
    requires MachineBookingKeysBelow(tx) && b in tx.bookings && HeldDuring(tx, b, s, e)
    ensures var t := InsertMachineBooking(tx, MachineBooking(b, m, d));
      MachineBookingKeysBelow(t) && b in t.bookings && HeldDuring(t, b, s, e)
      && (forall x :: Selectable(t, x) == Selectable(tx, x))
  {
  }

  /** The loop succeeds exactly when every selected machine is bookable in
      the state it started from and no machine is selected twice; it then
      has inserted one reservation per selected machine, in order. */
  lemma {:induction false} BookMachinesOutcome(tx: Db, b: int, s: Instant, e: Instant, d: int, ms: seq<int>)
    requires MachineBookingKeysBelow(tx) && b in tx.bookings && HeldDuring(tx, b, s, e)
    ensures BookMachines(tx, b, s, e, d, ms).Ok? <==>
      (forall i :: 0 <= i < |ms| ==> Bookable(tx, ms[i], s, e)) && (forall i, j :: 0 <= i < j < |ms| ==> ms[i] != ms[j])
    ensures BookMachines(tx, b, s, e, d, ms).Ok? ==> BookMachines(tx, b, s, e, d, ms).value == InsertAll(tx, Reservations(b, ms, d))
    ensures BookMachines(tx, b, s, e, d, ms).Err? ==> BookMachines(tx, b, s, e, d, ms).error == BadRequest
    decreases |ms|
  {
    if ms != [] {
      var mb := MachineBooking(b, ms[0], d);
      var t := InsertMachineBooking(tx, mb);
      var rest := ms[1..];
      ReserveStep(tx, b, s, e, d, ms[0]);
      BookMachinesOutcome(t, b, s, e, d, rest);
      assert Reservations(b, ms, d) == [mb] + Reservations(b, rest, d);
      assert ([mb] + Reservations(b, rest, d))[1..] == Reservations(b, rest, d);
      forall x
        ensures Bookable(t, x, s, e) <==> Bookable(tx, x, s, e) && x != ms[0]
      {
        TakenAfterInsert(tx, mb, x, s, e);
      }
      if Bookable(tx, ms[0], s, e) {
        HeadBookable(tx, t, s, e, ms);
      }
    }
  }

  /** With the first machine reserved, the rest can be booked exactly when
      the whole selection could be booked before. */
  lemma HeadBookable(tx: Db, t: Db, s: Instant, e: Instant, ms: seq<int>)
    requires ms != [] && Bookable(tx, ms[0], s, e)
    requires forall x :: Bookable(t, x, s, e) <==> Bookable(tx, x, s, e) && x != ms[0]
    ensures ((forall i :: 0 <= i < |ms| ==> Bookable(tx, ms[i], s, e)) && (forall i, j :: 0 <= i < j < |ms| ==> ms[i] != ms[j]))
        <==> ((forall i :: 0 <= i < |ms[1..]| ==> Bookable(t, ms[1..][i], s, e))
              && (forall i, j :: 0 <= i < j < |ms[1..]| ==> ms[1..][i] != ms[1..][j]))
  {
    var rest := ms[1..];
    if (forall i :: 0 <= i < |ms| ==> Bookable(tx, ms[i], s, e)) && (forall i, j :: 0 <= i < j < |ms| ==> ms[i] != ms[j]) {
      forall i | 0 <= i < |rest| ensures Bookable(t, rest[i], s, e) {
        assert rest[i] == ms[i + 1];
      }
      forall i, j | 0 <= i < j < |rest| ensures rest[i] != rest[j] {
        assert rest[i] == ms[i + 1] && rest[j] == ms[j + 1];
      }
    }
    if (forall i :: 0 <= i < |rest| ==> Bookable(t, rest[i], s, e)) && (forall i, j :: 0 <= i < j < |rest| ==> rest[i] != rest[j]) {
      forall i | 0 <= i < |ms| ensures Bookable(tx, ms[i], s, e) {
        if i > 0 {
          assert ms[i] == rest[i - 1];
        }
      }
      forall i, j | 0 <= i < j < |ms| ensures ms[i] != ms[j] {
        if i > 0 {
          assert ms[i] == rest[i - 1] && ms[j] == rest[j - 1];
        } else {
          assert ms[j] == rest[j - 1];
        }
      }
    }
  }

  /** The new booking has no reservations yet, so it does not change which
      machines are taken. */
  lemma TakenIgnoresNewBooking(db: Db, bk: Booking, m: int, s: Instant, e: Instant)
    requires Linked(db)
    ensures MachineTaken(InsertBooking(db, bk), m, s, e) == MachineTaken(db, m, s, e)
    ensures Selectable(InsertBooking(db, bk), m) == Selectable(db, m)
  {
    var t := InsertBooking(db, bk);
    assert db.nextBooking !in db.bookings;
    if MachineTaken(t, m, s, e) {
      var k :| k in t.machineBookings && t.machineBookings[k].machineId == m && ReservesDuring(t, k, s, e);
      assert db.machineBookings[k].bookingId != db.nextBooking;
      assert ReservesDuring(db, k, s, e);
    }
    if MachineTaken(db, m, s, e) {
      var k :| k in db.machineBookings && db.machineBookings[k].machineId == m && ReservesDuring(db, k, s, e);
      assert db.machineBookings[k].bookingId != db.nextBooking;
      assert ReservesDuring(t, k, s, e);
    }
  }

  // ---------------------------------------------------------------------
  // The whole handler
  // ---------------------------------------------------------------------

  /** A request that passes the validations describes a positive number of
      minutes inside the opening hours of its weekday, in a gym that is
      below capacity, with no overlapping booking of the same user. */
  lemma AdmitMeans(db: Db, req: SessionRequest)
    requires Admit(db, req).Ok?
    ensures var w := Admit(db, req).value;
      && w.gymId in db.gyms && Some(w.userId) == req.userId && Some(w.gymId) == req.gymId
      && w.minutes > 0 && w.start == req.startTime.value && w.end == w.start + w.minutes * MsPerMinute
      && db.gyms[w.gymId].currentUsers < db.gyms[w.gymId].maxCapacity
      && FirstOpening(db.gyms[w.gymId].openingHours, req.dayOfWeek).Some?
      && req.midnight + FirstOpening(db.gyms[w.gymId].openingHours, req.dayOfWeek).value.openMin * MsPerMinute <= w.start
      && w.end <= req.midnight + FirstOpening(db.gyms[w.gymId].openingHours, req.dayOfWeek).value.closeMin * MsPerMinute
      && !UserConflict(db, w.userId, w.start, w.end)
  {
  }

  /** The handler succeeds exactly when the validations pass, every selected
      machine is bookable and none is selected twice; every failure of the
      machine loop is a bad request. */
  lemma CreateSessionOutcome(db: Db, req: SessionRequest)
    requires Linked(db)
    ensures CreateSession(db, req).Ok? <==>
      Admit(db, req).Ok?
      && (forall i :: 0 <= i < |req.selectedMachines| ==>
            Bookable(db, req.selectedMachines[i], Admit(db, req).value.start, Admit(db, req).value.end))
      && (forall i, j :: 0 <= i < j < |req.selectedMachines| ==> req.selectedMachines[i] != req.selectedMachines[j])
    ensures Admit(db, req).Ok? && CreateSession(db, req).Err? ==> CreateSession(db, req).error == BadRequest
  {
    if Admit(db, req).Ok? {
      var w := Admit(db, req).value;
      AdmitMeans(db, req);
      var tx := InsertBooking(db, NewBooking(w));
      assert HeldDuring(tx, db.nextBooking, w.start, w.end);
      BookMachinesOutcome(tx, db.nextBooking, w.start, w.end, w.minutes, req.selectedMachines);
      InsertAllShape(tx, Reservations(db.nextBooking, req.selectedMachines, w.minutes));
      forall x
        ensures Bookable(tx, x, w.start, w.end) == Bookable(db, x, w.start, w.end)
      {
        TakenIgnoresNewBooking(db, NewBooking(w), x, w.start, w.end);
      }
    }
  }

  /** Selecting the same machine twice fails the request: the second check
      sees the reservation the first one made. */
  lemma DuplicateSelectionRejected(db: Db, req: SessionRequest, i: int, j: int)
    requires Linked(db)
    requires 0 <= i < j < |req.selectedMachines| && req.selectedMachines[i] == req.selectedMachines[j]
    ensures CreateSession(db, req).Err?
  {
    CreateSessionOutcome(db, req);
  }

  /** The new state: the booking under the next booking id, one reservation
      per selected machine for the whole session under the next
      machine-booking ids, and one more user in the gym. */
  lemma CreateSessionResult(db: Db, req: SessionRequest, w: Window, r: Db)
    requires Linked(db) && Admit(db, req) == Ok(w) && CreateSession(db, req) == Ok(r)
    ensures r.bookings == db.bookings[db.nextBooking := NewBooking(w)] && r.nextBooking == db.nextBooking + 1
    ensures r.nextMachineBooking == db.nextMachineBooking + |req.selectedMachines|
    ensures forall i :: 0 <= i < |req.selectedMachines| ==>
      db.nextMachineBooking + i in r.machineBookings
      && r.machineBookings[db.nextMachineBooking + i] == MachineBooking(db.nextBooking, req.selectedMachines[i], w.minutes)
    ensures forall k :: k in r.machineBookings <==>
      k in db.machineBookings || db.nextMachineBooking <= k < db.nextMachineBooking + |req.selectedMachines|
    ensures forall k :: k in db.machineBookings ==> r.machineBookings[k] == db.machineBookings[k]
    ensures r.gyms == db.gyms[w.gymId := db.gyms[w.gymId].(currentUsers := db.gyms[w.gymId].currentUsers + 1)]
    ensures r.machines == db.machines && r.services == db.services && r.tickets == db.tickets
  {
    AdmitMeans(db, req);
    var nb := db.nextBooking;
    var ms := req.selectedMachines;
    var tx := InsertBooking(db, NewBooking(w));
    assert HeldDuring(tx, nb, w.start, w.end);
    BookMachinesOutcome(tx, nb, w.start, w.end, w.minutes, ms);
    var rows := Reservations(nb, ms, w.minutes);
    InsertAllShape(tx, rows);
    InsertAllKeysBelow(tx, rows);
    var t := InsertAll(tx, rows);
    assert r == AdjustUsers(t, w.gymId, 1).value;
    assert r.machineBookings == t.machineBookings;
    forall i | 0 <= i < |ms|
      ensures db.nextMachineBooking + i in r.machineBookings
      ensures r.machineBookings[db.nextMachineBooking + i] == MachineBooking(nb, ms[i], w.minutes)
    {
      assert rows[i] == MachineBooking(nb, ms[i], w.minutes);
    }
  }

  /** A successful session never takes a gym past its capacity. */
  lemma CreateSessionWithinCapacity(db: Db, req: SessionRequest)
    requires Linked(db) && WithinCapacity(db) && CreateSession(db, req).Ok?
    ensures WithinCapacity(CreateSession(db, req).value)
  {
    CreateSessionOutcome(db, req);
    CreateSessionResult(db, req, Admit(db, req).value, CreateSession(db, req).value);
    AdmitMeans(db, req);
  }

  /** The machine loop keeps the reservations exclusive: every reservation it
      makes is for a machine not taken during the session. */
  lemma {:induction false} BookMachinesExclusive(tx: Db, b: int, d: int, ms: seq<int>)
    requires Linked(tx) && Exclusive(tx) && b in tx.bookings
    requires BookMachines(tx, b, tx.bookings[b].start, tx.bookings[b].end, d, ms).Ok?
    ensures Linked(BookMachines(tx, b, tx.bookings[b].start, tx.bookings[b].end, d, ms).value)
    ensures Exclusive(BookMachines(tx, b, tx.bookings[b].start, tx.bookings[b].end, d, ms).value)
    decreases |ms|
  {
    if ms != [] {
      var mb := MachineBooking(b, ms[0], d);
      Storage.ReserveKeeps(tx, mb);
      BookMachinesExclusive(InsertMachineBooking(tx, mb), b, d, ms[1..]);
    }
  }

  /** A successful session keeps the store linked and never reserves a
      machine twice for intersecting holding bookings. */
  lemma CreateSessionExclusive(db: Db, req: SessionRequest)
    requires Linked(db) && Exclusive(db) && CreateSession(db, req).Ok?
    ensures Linked(CreateSession(db, req).value) && Exclusive(CreateSession(db, req).value)
  {
    CreateSessionOutcome(db, req);
    var w := Admit(db, req).value;
    AdmitMeans(db, req);
    var tx := InsertBooking(db, NewBooking(w));
    InsertBookingKeeps(db, NewBooking(w));
    BookMachinesExclusive(tx, db.nextBooking, w.minutes, req.selectedMachines);
    var t := BookMachines(tx, db.nextBooking, w.start, w.end, w.minutes, req.selectedMachines).value;
    var r := CreateSession(db, req).value;
    assert r.bookings == t.bookings && r.machineBookings == t.machineBookings;
    assert forall k1, k2 :: k1 in r.machineBookings && k2 in r.machineBookings ==> Clash(r, k1, k2) == Clash(t, k1, k2);
  }
}
