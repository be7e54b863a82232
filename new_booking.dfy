/**
 * The third booking-creation path: the same request and checks as the
 * gym-schedule path, but a listed machine must also be active. A machine
 * close to its service interval is only reported in the log.
 */
module NewBooking {
  import opened Common
  import opened Tables
  import opened Schema
  import opened Storage
  import opened GymSchedule

  /** The machine loop of `createNewBooking`: a missing machine is not
      found, a machine that needs service or is not active is refused, and
      otherwise the machine is reserved. */
  function BookChecked(tx: Db, b: int, s: Instant, e: Instant, ms: seq<MachineRequest>): Result<Db>
    decreases |ms|
  {
    if ms == [] then Ok(tx)
    else if ms[0].machineId !in tx.machines then Err(NotFound)
    else if tx.machines[ms[0].machineId].needService || tx.machines[ms[0].machineId].status != Active then Err(BadRequest)
    else BookChecked(InsertMachineBooking(tx, MachineBooking(b, ms[0].machineId, MachineMinutes(ms[0], s, e))), b, s, e, ms[1..])
  }

  /** `createNewBooking` on a snapshot. */
  function NewBookingSpec(db: Db, req: IntervalRequest): Result<Db> {
    match AdmitInterval(db, req)
    case Err(x) => Err(x)
    case Ok(bk) =>
      match BookChecked(InsertBooking(db, bk), db.nextBooking, bk.start, bk.end, req.machines)
      case Err(x) => Err(x)
      case Ok(tx) => AdjustUsers(tx, bk.gymId, 1)
  }

  /** The handler: all writes go to a working copy committed at the end;
      the result is the new booking's id. */
  method CreateNewBooking(st: Store, req: IntervalRequest) returns (r: Result<int>)
    modifies st
    ensures r.Ok? ==> NewBookingSpec(old(st.Snapshot()), req) == Ok(st.Snapshot()) && r.value == old(st.nextBooking)
    ensures r.Err? ==> NewBookingSpec(old(st.Snapshot()), req) == Err(r.error) && st.Snapshot() == old(st.Snapshot())
  {
    var db := st.Snapshot();
    var a := AdmitInterval(db, req);
    if a.Err? {
      return Err(a.error);
    }
    var bk := a.value;
    var b := db.nextBooking;
    var tx := InsertBooking(db, bk);
    ghost var tx0 := tx;
    var ms := req.machines;
    var i := 0;
    while i < |ms|
      invariant 0 <= i <= |ms|
      invariant BookChecked(tx0, b, bk.start, bk.end, ms) == BookChecked(tx, b, bk.start, bk.end, ms[i..])
    {
      var mr := ms[i];
      assert ms[i..][0] == mr && ms[i..][1..] == ms[i + 1..];
      if mr.machineId !in tx.machines {
        return Err(NotFound);
      }
      var mc := tx.machines[mr.machineId];
      if mc.needService || mc.status != Active {
        return Err(BadRequest);
      }
      tx := InsertMachineBooking(tx, MachineBooking(b, mr.machineId, MachineMinutes(mr, bk.start, bk.end)));
      i := i + 1;
    }
    assert ms[i..] == [];
    var fin := AdjustUsers(tx, bk.gymId, 1);
    if fin.Err? {
      return Err(fin.error);
    }
    st.Commit(fin.value);
    return Ok(b);
  }

  /** A listed machine is usable by this path: it exists, is active and does
      not need service. */
  predicate Usable(db: Db, m: int) {
    m in db.machines && !db.machines[m].needService && db.machines[m].status == Active
  }

  /** The loop succeeds exactly when every listed machine is usable, and then
      has inserted the same rows as the gym-schedule loop; when every listed
      machine exists a failure is a refusal. */
  lemma {:induction false} BookCheckedOutcome(tx: Db, b: int, s: Instant, e: Instant, ms: seq<MachineRequest>)
    ensures BookChecked(tx, b, s, e, ms).Ok? <==> forall i :: 0 <= i < |ms| ==> Usable(tx, ms[i].machineId)
    ensures BookChecked(tx, b, s, e, ms).Ok? ==> BookChecked(tx, b, s, e, ms).value == InsertAll(tx, ListedRows(b, ms, s, e))
    ensures (forall i :: 0 <= i < |ms| ==> ms[i].machineId in tx.machines) && BookChecked(tx, b, s, e, ms).Err? ==>
      BookChecked(tx, b, s, e, ms).error == BadRequest
    decreases |ms|
  {
    if ms != [] {
      var mr := ms[0];
      var t := InsertMachineBooking(tx, MachineBooking(b, mr.machineId, MachineMinutes(mr, s, e)));
      assert t.machines == tx.machines;
      BookCheckedOutcome(t, b, s, e, ms[1..]);
      assert ListedRows(b, ms, s, e)[1..] == ListedRows(b, ms[1..], s, e);
      assert forall i :: 1 <= i < |ms| ==> ms[i] == ms[1..][i - 1];
    }
  }

  /** The handler succeeds exactly when the validations pass and every listed
      machine exists, is active and needs no service. Service records play
      no part: the near-service warning changes nothing. */
  lemma NewBookingOutcome(db: Db, req: IntervalRequest)
    ensures NewBookingSpec(db, req).Ok? <==>
      AdmitInterval(db, req).Ok? && forall i :: 0 <= i < |req.machines| ==> Usable(db, req.machines[i].machineId)
    ensures (AdmitInterval(db, req).Ok? && NewBookingSpec(db, req).Err?
             && forall i :: 0 <= i < |req.machines| ==> req.machines[i].machineId in db.machines)
        ==> NewBookingSpec(db, req) == Err(BadRequest)
  {
    if AdmitInterval(db, req).Ok? {
      var bk := AdmitInterval(db, req).value;
      var tx := InsertBooking(db, bk);
      BookCheckedOutcome(tx, db.nextBooking, bk.start, bk.end, req.machines);
      InsertAllShape(tx, ListedRows(db.nextBooking, req.machines, bk.start, bk.end));
    }
  }

  /** Whenever this path succeeds, the gym-schedule path on the same store
      and request succeeds with the same new store. */
  lemma NewBookingIsGymBooking(db: Db, req: IntervalRequest)
    requires NewBookingSpec(db, req).Ok?
    ensures CreateGymBookingSpec(db, req) == NewBookingSpec(db, req)
  {
    var bk := AdmitInterval(db, req).value;
    var tx := InsertBooking(db, bk);
    var ms := req.machines;
    BookCheckedOutcome(tx, db.nextBooking, bk.start, bk.end, ms);
    BookListedOutcome(tx, db.nextBooking, bk.start, bk.end, ms);
  }

  /** Creating a booking on this path keeps the store linked. */
  lemma NewBookingKeepsLinked(db: Db, req: IntervalRequest)
    requires Linked(db) && NewBookingSpec(db, req).Ok?
    ensures Linked(NewBookingSpec(db, req).value)
  {
    NewBookingIsGymBooking(db, req);
    CreateGymBookingKeepsLinked(db, req);
  }

  /** A listed machine that is out of use but not flagged for service is
      refused here but reserved by the gym-schedule path. */
  lemma NewBookingRefusesInactive(db: Db, req: IntervalRequest, i: int)
    requires AdmitInterval(db, req).Ok?
    requires forall j :: 0 <= j < |req.machines| ==> Listable(db, req.machines[j].machineId)
    requires 0 <= i < |req.machines| && req.machines[i].machineId in db.machines
    requires db.machines[req.machines[i].machineId].status == Inactive
    ensures NewBookingSpec(db, req) == Err(BadRequest)
    ensures CreateGymBookingSpec(db, req).Ok?
  {
    NewBookingOutcome(db, req);
    CreateGymBookingOutcome(db, req);
  }

  /** The service records do not decide the outcome. */
  lemma NewBookingIgnoresService(db: Db, req: IntervalRequest, sv: map<int, Service>)
    ensures NewBookingSpec(db.(services := sv), req).Ok? <==> NewBookingSpec(db, req).Ok?
  {
    var d := db.(services := sv);
    assert AdmitInterval(d, req) == AdmitInterval(db, req);
    NewBookingOutcome(db, req);
    NewBookingOutcome(d, req);
  }

  /** Like the gym-schedule path, a full gym still accepts the booking. */
  lemma NewBookingIgnoresCapacity(db: Db, req: IntervalRequest)
    requires MachineBookingKeysBelow(db) && NewBookingSpec(db, req).Ok?
    requires db.gyms[req.gymId.value].currentUsers >= db.gyms[req.gymId.value].maxCapacity
    ensures !WithinCapacity(NewBookingSpec(db, req).value)
  {
    NewBookingIsGymBooking(db, req);
    CreateGymBookingIgnoresCapacity(db, req);
  }

  /** Like the gym-schedule path, a machine already reserved by another
      live booking that intersects the session is reserved again. */
  lemma NewBookingCanDoubleBook(db: Db, req: IntervalRequest, k: int, i: int)
    requires Linked(db) && NewBookingSpec(db, req).Ok?
    requires 0 <= i < |req.machines| && k in db.machineBookings && Live(db, k)
    requires db.machineBookings[k].machineId == req.machines[i].machineId
    requires Intersect(db.bookings[db.machineBookings[k].bookingId].start, db.bookings[db.machineBookings[k].bookingId].end,
                       req.startTime.value, req.endTime.value)
    ensures !Exclusive(NewBookingSpec(db, req).value)
  {
    NewBookingIsGymBooking(db, req);
    CreateGymBookingCanDoubleBook(db, req, k, i);
  }
}
