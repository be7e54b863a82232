/**
 * The gym-schedule controller: a second booking-creation path that takes an
 * explicit end time and per-machine durations, the booking queries, the
 * cancel and complete transitions (completion also does the machine
 * usage and service bookkeeping), the machine-availability query, and
 * adding and removing a machine of a confirmed booking.
 */
module GymSchedule {
  import opened Common
  import opened Tables
  import opened Schema
  import opened Storage

  // ---------------------------------------------------------------------
  // createGymBooking
  // ---------------------------------------------------------------------

  /** One entry of the `machines` list of the request. */
  datatype MachineRequest = MachineRequest(machineId: int, duration: Option<int>)

  /** The request body of the explicit-interval create paths. */
  datatype IntervalRequest = IntervalRequest(
    userId: Option<string>,
    gymId: Option<int>,
    startTime: Option<Instant>,
    endTime: Option<Instant>,
    machines: seq<MachineRequest>)

  /** The validations before the transaction: required fields, the gym, a
      nonempty interval and the user's overlapping bookings in any gym. The
      result is the booking row to create. */
  function AdmitInterval(db: Db, req: IntervalRequest): Result<Booking> {
    if !TruthyString(req.userId) || !TruthyInt(req.gymId) || req.startTime.None? || req.endTime.None? then
      Err(BadRequest)
    else if req.gymId.value !in db.gyms then Err(NotFound)
    else if req.startTime.value >= req.endTime.value then Err(BadRequest)
    else if UserConflict(db, req.userId.value, req.startTime.value, req.endTime.value) then Err(BadRequest)
    else Ok(Booking(req.userId.value, req.gymId.value, req.startTime.value, req.endTime.value, Confirmed))
  }

  /** `machine.duration || Math.floor((end - start) / 60000)`. */
  function MachineMinutes(mr: MachineRequest, s: Instant, e: Instant): int {
    if TruthyInt(mr.duration) then mr.duration.value else (e - s) / MsPerMinute
  }

  /** Without a usable duration of its own a machine is reserved for the
      whole minutes of the session. */
  lemma MachineMinutesDefault(mr: MachineRequest, s: Instant, e: Instant)
    requires s < e && !TruthyInt(mr.duration)
    ensures MachineMinutes(mr, s, e) >= 0
    ensures MachineMinutes(mr, s, e) * MsPerMinute <= e - s < (MachineMinutes(mr, s, e) + 1) * MsPerMinute
  {
  }

  /** The machine loop of `createGymBooking`: a missing machine is not found,
      a machine that needs service is refused, and otherwise the machine is
      reserved. The machine's status and other reservations are not looked at. */
  function BookListed(tx: Db, b: int, s: Instant, e: Instant, ms: seq<MachineRequest>): Result<Db>
    decreases |ms|
  {
    if ms == [] then Ok(tx)
    else if ms[0].machineId !in tx.machines then Err(NotFound)
    else if tx.machines[ms[0].machineId].needService then Err(BadRequest)
    else BookListed(InsertMachineBooking(tx, MachineBooking(b, ms[0].machineId, MachineMinutes(ms[0], s, e))), b, s, e, ms[1..])
  }

  /** The reservation rows that the loop makes for booking `b`. */
  function ListedRows(b: int, ms: seq<MachineRequest>, s: Instant, e: Instant): seq<MachineBooking> {
    seq(|ms|, i requires 0 <= i < |ms| => MachineBooking(b, ms[i].machineId, MachineMinutes(ms[i], s, e)))
  }

  /** `createGymBooking` on a snapshot. */
  function CreateGymBookingSpec(db: Db, req: IntervalRequest): Result<Db> {
    match AdmitInterval(db, req)
    case Err(x) => Err(x)
    case Ok(bk) =>
      match BookListed(InsertBooking(db, bk), db.nextBooking, bk.start, bk.end, req.machines)
      case Err(x) => Err(x)
      case Ok(tx) => AdjustUsers(tx, bk.gymId, 1)
  }

  /** The handler: all writes go to a working copy committed at the end;
      the result is the new booking's id. */
  method CreateGymBooking(st: Store, req: IntervalRequest) returns (r: Result<int>)
    modifies st
    ensures r.Ok? ==> CreateGymBookingSpec(old(st.Snapshot()), req) == Ok(st.Snapshot()) && r.value == old(st.nextBooking)
    ensures r.Err? ==> CreateGymBookingSpec(old(st.Snapshot()), req) == Err(r.error) && st.Snapshot() == old(st.Snapshot())
  {
    var db := st.Snapshot();
    var a := AdmitInterval(db, req);
    if a.Err? {
      return Err(a.error);
    }
    var bk := a.value;
    var b := db.nextBooking;
    var tx := InsertBooking(db, bk);
    ghost var tx0 := tx;
    var ms := req.machines;
    var i := 0;
    while i < |ms|
      invariant 0 <= i <= |ms|
      invariant BookListed(tx0, b, bk.start, bk.end, ms) == BookListed(tx, b, bk.start, bk.end, ms[i..])
    {
      var mr := ms[i];
      assert ms[i..][0] == mr && ms[i..][1..] == ms[i + 1..];
      if mr.machineId !in tx.machines {
        return Err(NotFound);
      }
      if tx.machines[mr.machineId].needService {
        return Err(BadRequest);
      }
      tx := InsertMachineBooking(tx, MachineBooking(b, mr.machineId, MachineMinutes(mr, bk.start, bk.end)));
      i := i + 1;
    }
    assert ms[i..] == [];
    var fin := AdjustUsers(tx, bk.gymId, 1);
    if fin.Err? {
      return Err(fin.error);
    }
    st.Commit(fin.value);
    return Ok(b);
  }

  /** A listed machine is usable by this path: it exists and does not need
      service. */
  predicate Listable(db: Db, m: int) {
    m in db.machines && !db.machines[m].needService
  }

  /** The loop succeeds exactly when every listed machine is listable, and
      then has inserted the listed rows in order. */
  lemma {:induction false} BookListedOutcome(tx: Db, b: int, s: Instant, e: Instant, ms: seq<MachineRequest>)
    ensures BookListed(tx, b, s, e, ms).Ok? <==> forall i :: 0 <= i < |ms| ==> Listable(tx, ms[i].machineId)
    ensures BookListed(tx, b, s, e, ms).Ok? ==> BookListed(tx, b, s, e, ms).value == InsertAll(tx, ListedRows(b, ms, s, e))
    decreases |ms|
  {
    if ms != [] {
      var mr := ms[0];
      var t := InsertMachineBooking(tx, MachineBooking(b, mr.machineId, MachineMinutes(mr, s, e)));
      assert t.machines == tx.machines;
      BookListedOutcome(t, b, s, e, ms[1..]);
      assert ListedRows(b, ms, s, e) == [MachineBooking(b, mr.machineId, MachineMinutes(mr, s, e))] + ListedRows(b, ms[1..], s, e);
      assert ListedRows(b, ms, s, e)[1..] == ListedRows(b, ms[1..], s, e);
      if forall i :: 0 <= i < |ms| ==> Listable(tx, ms[i].machineId) {
        forall i | 0 <= i < |ms[1..]| ensures Listable(t, ms[1..][i].machineId) {
          assert ms[1..][i] == ms[i + 1];
        }
      }
      if Listable(tx, mr.machineId) && forall i :: 0 <= i < |ms[1..]| ==> Listable(t, ms[1..][i].machineId) {
        forall i | 0 <= i < |ms| ensures Listable(tx, ms[i].machineId) {
          if i > 0 {
            assert ms[i] == ms[1..][i - 1];
          }
        }
      }
    }
  }

  /** The handler succeeds exactly when the validations pass and every listed
      machine exists and needs no service. No capacity, opening-hours,
      status or reservation check is made. */
  lemma CreateGymBookingOutcome(db: Db, req: IntervalRequest)
    ensures CreateGymBookingSpec(db, req).Ok? <==>
      AdmitInterval(db, req).Ok? && forall i :: 0 <= i < |req.machines| ==> Listable(db, req.machines[i].machineId)
  {
    if AdmitInterval(db, req).Ok? {
      var bk := AdmitInterval(db, req).value;
      var tx := InsertBooking(db, bk);
      BookListedOutcome(tx, db.nextBooking, bk.start, bk.end, req.machines);
      InsertAllShape(tx, ListedRows(db.nextBooking, req.machines, bk.start, bk.end));
    }
  }

  /** On success the new booking is stored confirmed under the next id, one
      reservation per listed machine follows under the next machine-booking
      ids with the duration rule, and the gym has one more user. */
  lemma CreateGymBookingResult(db: Db, req: IntervalRequest, bk: Booking, r: Db)
    requires MachineBookingKeysBelow(db) && AdmitInterval(db, req) == Ok(bk) && CreateGymBookingSpec(db, req) == Ok(r)
    ensures bk.status == Confirmed && bk.start < bk.end && Some(bk.userId) == req.userId && Some(bk.gymId) == req.gymId
    ensures r.bookings == db.bookings[db.nextBooking := bk] && r.nextBooking == db.nextBooking + 1
    ensures r.nextMachineBooking == db.nextMachineBooking + |req.machines|
    ensures forall i :: 0 <= i < |req.machines| ==>
      db.nextMachineBooking + i in r.machineBookings
      && r.machineBookings[db.nextMachineBooking + i]
         == MachineBooking(db.nextBooking, req.machines[i].machineId, MachineMinutes(req.machines[i], bk.start, bk.end))
    ensures forall k :: k in r.machineBookings <==>
      k in db.machineBookings || db.nextMachineBooking <= k < db.nextMachineBooking + |req.machines|
    ensures forall k :: k in db.machineBookings ==> r.machineBookings[k] == db.machineBookings[k]
    ensures r.gyms == db.gyms[bk.gymId := db.gyms[bk.gymId].(currentUsers := db.gyms[bk.gymId].currentUsers + 1)]
    ensures r.machines == db.machines && r.services == db.services && r.tickets == db.tickets
  {
    var nb := db.nextBooking;
    var ms := req.machines;
    var tx := InsertBooking(db, bk);
    BookListedOutcome(tx, nb, bk.start, bk.end, ms);
    var rows := ListedRows(nb, ms, bk.start, bk.end);
    InsertAllShape(tx, rows);
    InsertAllKeysBelow(tx, rows);
    var t := InsertAll(tx, rows);
    assert r == AdjustUsers(t, bk.gymId, 1).value;
    assert r.machineBookings == t.machineBookings;
    forall i | 0 <= i < |ms|
      ensures db.nextMachineBooking + i in r.machineBookings
      ensures r.machineBookings[db.nextMachineBooking + i] == MachineBooking(nb, ms[i].machineId, MachineMinutes(ms[i], bk.start, bk.end))
    {
      assert rows[i] == MachineBooking(nb, ms[i].machineId, MachineMinutes(ms[i], bk.start, bk.end));
    }
  }

  /** Creating a booking keeps the store linked: the new booking is a
      nonempty interval under the next id, and its reservations name it. */
  lemma CreateGymBookingKeepsLinked(db: Db, req: IntervalRequest)
    requires Linked(db) && CreateGymBookingSpec(db, req).Ok?
    ensures Linked(CreateGymBookingSpec(db, req).value)
  {
    var bk := AdmitInterval(db, req).value;
    var r := CreateGymBookingSpec(db, req).value;
    CreateGymBookingResult(db, req, bk, r);
    forall k | k in r.machineBookings ensures r.machineBookings[k].bookingId in r.bookings {
      if k !in db.machineBookings {
        var i := k - db.nextMachineBooking;
        assert 0 <= i < |req.machines|;
        assert r.machineBookings[k] == MachineBooking(db.nextBooking, req.machines[i].machineId,
                                                      MachineMinutes(req.machines[i], bk.start, bk.end));
      }
    }
  }

  /** Without a capacity check a full gym still accepts the booking, and its
      occupancy then exceeds its capacity. */
  lemma CreateGymBookingIgnoresCapacity(db: Db, req: IntervalRequest)
    requires MachineBookingKeysBelow(db) && CreateGymBookingSpec(db, req).Ok?
    requires db.gyms[req.gymId.value].currentUsers >= db.gyms[req.gymId.value].maxCapacity
    ensures !WithinCapacity(CreateGymBookingSpec(db, req).value)
  {
    CreateGymBookingOutcome(db, req);
    var bk := AdmitInterval(db, req).value;
    var r := CreateGymBookingSpec(db, req).value;
    CreateGymBookingResult(db, req, bk, r);
    assert r.gyms[bk.gymId].currentUsers > r.gyms[bk.gymId].maxCapacity;
  }

  /** Without a reservation check a machine already reserved by another live
      booking that intersects the session is reserved again: the
      reservations stop being exclusive. */
  lemma CreateGymBookingCanDoubleBook(db: Db, req: IntervalRequest, k: int, i: int)
    requires Linked(db) && CreateGymBookingSpec(db, req).Ok?
    requires 0 <= i < |req.machines| && k in db.machineBookings && Live(db, k)
    requires db.machineBookings[k].machineId == req.machines[i].machineId
    requires Intersect(db.bookings[db.machineBookings[k].bookingId].start, db.bookings[db.machineBookings[k].bookingId].end,
                       req.startTime.value, req.endTime.value)
    ensures !Exclusive(CreateGymBookingSpec(db, req).value)
  {
    CreateGymBookingOutcome(db, req);
    var bk := AdmitInterval(db, req).value;
    var r := CreateGymBookingSpec(db, req).value;
    CreateGymBookingResult(db, req, bk, r);
    var n := db.nextMachineBooking + i;
    assert db.nextBooking !in db.bookings;
    assert r.machineBookings[k] == db.machineBookings[k];
    assert k != n;
    assert Clash(r, n, k);
  }

  // ---------------------------------------------------------------------
  // getUserBookings, getBookingDetails
  // ---------------------------------------------------------------------

  /** A booking together with its id. */
  datatype BookingRow = BookingRow(id: int, booking: Booking)

  /** The filter of `getUserBookings`: the user's bookings, with the status
      given when the query names one. */
  function Wanted(userId: string, status: Option<Status>): BookingRow -> bool {
    (x: BookingRow) => x.booking.userId == userId && (status.None? || x.booking.status == status.value)
  }

  /** The key of `orderBy: { startTime: "desc" }`. */
  function StartDesc(x: BookingRow): int {
    -x.booking.start
  }

  /** All bookings with their ids, in id order. */
  function AllRows(db: Db): seq<BookingRow> {
    var ks := KeysBelow(db.bookings, db.nextBooking);
    seq(|ks|, i requires 0 <= i < |ks| => BookingRow(ks[i], db.bookings[ks[i]]))
  }

  /** `getUserBookings`. */
  function UserBookings(db: Db, userId: string, status: Option<Status>): (r: seq<BookingRow>)
    ensures forall i, j :: 0 <= i < j < |r| ==> r[i].booking.start >= r[j].booking.start
  {
    var r := Sort(Filter(AllRows(db), Wanted(userId, status)), StartDesc);
    assert SortedBy(r, StartDesc);
    assert forall i, j :: 0 <= i < j < |r| ==> StartDesc(r[i]) <= StartDesc(r[j]);
    r
  }

  /** Every stored booking appears once among all rows, with its own id. */
  lemma AllRowsExact(db: Db, x: BookingRow)
    requires Linked(db)
    ensures x in AllRows(db) <==> x.id in db.bookings && x.booking == db.bookings[x.id]
  {
    var ks := KeysBelow(db.bookings, db.nextBooking);
    var rows := AllRows(db);
    if x.id in db.bookings && x.booking == db.bookings[x.id] {
      assert x.id in ks;
      var i :| 0 <= i < |ks| && ks[i] == x.id;
      assert rows[i] == x;
    }
    if x in rows {
      var j :| 0 <= j < |rows| && rows[j] == x;
      assert x.id == ks[j];
    }
  }

  /** The result holds exactly the user's bookings with the requested status,
      each with its own id. */
  lemma UserBookingsExact(db: Db, userId: string, status: Option<Status>, x: BookingRow)
    requires Linked(db)
    ensures x in UserBookings(db, userId, status) <==>
      x.id in db.bookings && x.booking == db.bookings[x.id]
      && x.booking.userId == userId && (status.None? || x.booking.status == status.value)
  {
    var f := Filter(AllRows(db), Wanted(userId, status));
    SortMember(f, StartDesc, x);
    FilterMember(AllRows(db), Wanted(userId, status), x);
    AllRowsExact(db, x);
  }

  /** What `getBookingDetails` returns with the booking: its machine bookings. */
  datatype Details = Details(booking: Booking, machines: seq<MachineBooking>)

  /** `getBookingDetails`: the booking and its reservations, or not found. */
  function BookingDetails(db: Db, b: int): (r: Result<Details>)
    ensures r.Ok? <==> b in db.bookings
    ensures r.Err? ==> r.error == NotFound
    ensures r.Ok? ==> r.value.booking == db.bookings[b]
    ensures r.Ok? ==> forall i :: 0 <= i < |r.value.machines| ==> r.value.machines[i].bookingId == b
  {
    if b !in db.bookings then Err(NotFound) else Ok(Details(db.bookings[b], BookingRows(db, b)))
  }

  // ---------------------------------------------------------------------
  // checkMachineAvailability
  // ---------------------------------------------------------------------

  /** The `machine.findMany` of the query: the gym's machines that need no
      service, whatever their status. */
  function InGymUnflagged(db: Db, g: int): int -> bool {
    m => m in db.machines && db.machines[m].gymId == g && !db.machines[m].needService
  }

  function NotIn(booked: set<int>): int -> bool {
    m => m !in booked
  }

  /** `checkMachineAvailability`: the listed machines minus those held by the
      gym's overlapping holding bookings. */
  function CheckMachineAvailability(db: Db, gymId: Option<int>, startTime: Option<Instant>, endTime: Option<Instant>)
    : Result<seq<int>>
  {
    if gymId.None? || startTime.None? || endTime.None? then Err(BadRequest)
    else if startTime.value >= endTime.value then Err(BadRequest)
    else
      var booked := BookedMachines(db, gymId.value, startTime.value, endTime.value);
      Ok(Filter(Filter(KeysBelow(db.machines, db.nextMachine), InGymUnflagged(db, gymId.value)), NotIn(booked)))
  }

  /** The query fails exactly on a missing parameter or an empty interval;
      otherwise it lists exactly the gym's machines that need no service and
      are not held during the interval. An inactive machine is listed. */
  lemma CheckMachineAvailabilityExact(db: Db, gymId: Option<int>, startTime: Option<Instant>, endTime: Option<Instant>, m: int)
    requires MachineKeysBelow(db)
    ensures CheckMachineAvailability(db, gymId, startTime, endTime).Ok? <==>
      gymId.Some? && startTime.Some? && endTime.Some? && startTime.value < endTime.value
    ensures CheckMachineAvailability(db, gymId, startTime, endTime).Err? ==>
      CheckMachineAvailability(db, gymId, startTime, endTime).error == BadRequest
    ensures CheckMachineAvailability(db, gymId, startTime, endTime).Ok? ==>
      (m in CheckMachineAvailability(db, gymId, startTime, endTime).value <==>
         m in db.machines && db.machines[m].gymId == gymId.value && !db.machines[m].needService
         && m !in BookedMachines(db, gymId.value, startTime.value, endTime.value))
  {
    if CheckMachineAvailability(db, gymId, startTime, endTime).Ok? {
      var ks := KeysBelow(db.machines, db.nextMachine);
      var f := Filter(ks, InGymUnflagged(db, gymId.value));
      var booked := BookedMachines(db, gymId.value, startTime.value, endTime.value);
      var r := Filter(f, NotIn(booked));
      if m in db.machines && InGymUnflagged(db, gymId.value)(m) && m !in booked {
        assert m in ks;
        var i :| 0 <= i < |ks| && ks[i] == m;
        assert m in f;
        var j :| 0 <= j < |f| && f[j] == m;
        assert m in r;
      }
      if m in r {
        var j :| 0 <= j < |r| && r[j] == m;
        assert m in f;
      }
    }
  }

  /** The `overlappingBookings` query: the gym's holding bookings that meet
      [s, e) by the three-clause test. */
  function Overlapping(db: Db, g: int, s: Instant, e: Instant): int -> bool {
    b => b in db.bookings && db.bookings[b].gymId == g && HeldDuring(db, b, s, e)
  }

  /** The machines named by `rows`. */
  function MachinesOf(rows: seq<MachineBooking>): set<int> {
    set mb | mb in rows :: mb.machineId
  }

  /** The machines of the reservations of the bookings in `bs`. */
  function HeldBy(db: Db, bs: seq<int>): set<int> {
    set b, mb | b in bs && mb in BookingRows(db, b) :: mb.machineId
  }

  lemma MachinesOfSnoc(rows: seq<MachineBooking>, j: int)
    requires 0 <= j < |rows|
    ensures MachinesOf(rows[..j + 1]) == MachinesOf(rows[..j]) + {rows[j].machineId}
  {
    assert rows[..j + 1] == rows[..j] + [rows[j]];
  }

  lemma HeldBySnoc(db: Db, bs: seq<int>, i: int)
    requires 0 <= i < |bs|
    ensures HeldBy(db, bs[..i + 1]) == HeldBy(db, bs[..i]) + MachinesOf(BookingRows(db, bs[i]))
  {
    assert bs[..i + 1] == bs[..i] + [bs[i]];
  }

  /** Over the overlapping bookings in id order, the held machines are
      exactly the booked set. */
  lemma HeldByAll(db: Db, g: int, s: Instant, e: Instant)
    requires MachineBookingKeysBelow(db) && BookingKeysBelow(db)
    ensures HeldBy(db, Filter(KeysBelow(db.bookings, db.nextBooking), Overlapping(db, g, s, e))) == BookedMachines(db, g, s, e)
  {
    var bs := Filter(KeysBelow(db.bookings, db.nextBooking), Overlapping(db, g, s, e));
    forall m | m in BookedMachines(db, g, s, e) ensures m in HeldBy(db, bs) {
      BookedIsHeld(db, g, s, e, m);
    }
    forall m | m in HeldBy(db, bs) ensures m in BookedMachines(db, g, s, e) {
      HeldIsBooked(db, g, s, e, m);
    }
  }

  lemma BookedIsHeld(db: Db, g: int, s: Instant, e: Instant, m: int)
    requires MachineBookingKeysBelow(db) && BookingKeysBelow(db) && m in BookedMachines(db, g, s, e)
    ensures m in HeldBy(db, Filter(KeysBelow(db.bookings, db.nextBooking), Overlapping(db, g, s, e)))
  {
    var ks := KeysBelow(db.bookings, db.nextBooking);
    var bs := Filter(ks, Overlapping(db, g, s, e));
    var k :| k in db.machineBookings && db.machineBookings[k].machineId == m && ReservesDuring(db, k, s, e)
             && db.bookings[db.machineBookings[k].bookingId].gymId == g;
    var mb := db.machineBookings[k];
    var b := mb.bookingId;
    assert b in ks;
    var i :| 0 <= i < |ks| && ks[i] == b;
    assert Overlapping(db, g, s, e)(ks[i]);
    BookingRowsExact(db, b, mb);
    assert b in bs && mb in BookingRows(db, b);
  }

  lemma HeldIsBooked(db: Db, g: int, s: Instant, e: Instant, m: int)
    requires MachineBookingKeysBelow(db)
    requires m in HeldBy(db, Filter(KeysBelow(db.bookings, db.nextBooking), Overlapping(db, g, s, e)))
    ensures m in BookedMachines(db, g, s, e)
  {
    var bs := Filter(KeysBelow(db.bookings, db.nextBooking), Overlapping(db, g, s, e));
    var b, mb :| b in bs && mb in BookingRows(db, b) && mb.machineId == m;
    var i :| 0 <= i < |bs| && bs[i] == b;
    assert Overlapping(db, g, s, e)(bs[i]);
    BookingRowsExact(db, b, mb);
    var k :| k in db.machineBookings && db.machineBookings[k] == mb;
    assert ReservesDuring(db, k, s, e);
  }

  /** The inner loop: each reservation of one booking adds its machine. */
  method AddMachinesOf(booked: set<int>, rows: seq<MachineBooking>) returns (r: set<int>)
    ensures r == booked + MachinesOf(rows)
  {
    r := booked;
    for j := 0 to |rows|
      invariant r == booked + MachinesOf(rows[..j])
    {
      MachinesOfSnoc(rows, j);
      r := r + {rows[j].machineId};
    }
    assert rows[..|rows|] == rows;
  }

  /** The `bookedMachineIds` loops: every reservation of every overlapping
      booking adds its machine. */
  method CollectHeld(db: Db, g: int, s: Instant, e: Instant) returns (booked: set<int>)
    requires MachineBookingKeysBelow(db) && BookingKeysBelow(db)
    ensures booked == BookedMachines(db, g, s, e)
  {
    var bs := Filter(KeysBelow(db.bookings, db.nextBooking), Overlapping(db, g, s, e));
    booked := {};
    for i := 0 to |bs|
      invariant booked == HeldBy(db, bs[..i])
    {
      booked := AddMachinesOf(booked, BookingRows(db, bs[i]));
      HeldBySnoc(db, bs, i);
    }
    assert bs[..|bs|] == bs;
    HeldByAll(db, g, s, e);
  }

  /** The `checkMachineAvailability` handler: the guards, the gym's
      machines that need no service, and the loops' booked set taken out. */
  method CheckMachines(db: Db, gymId: Option<int>, startTime: Option<Instant>, endTime: Option<Instant>)
    returns (r: Result<seq<int>>)
    requires MachineBookingKeysBelow(db) && BookingKeysBelow(db)
    ensures r == CheckMachineAvailability(db, gymId, startTime, endTime)
  {
    if gymId.None? || startTime.None? || endTime.None? || startTime.value >= endTime.value {
      return Err(BadRequest);
    }
    var booked := CollectHeld(db, gymId.value, startTime.value, endTime.value);
    var gymMachines := Filter(KeysBelow(db.machines, db.nextMachine), InGymUnflagged(db, gymId.value));
    return Ok(Filter(gymMachines, NotIn(booked)));
  }

  // ---------------------------------------------------------------------
  // cancelBooking
  // ---------------------------------------------------------------------

  /** `cancelBooking` on a snapshot: the booking must exist, belong to the
      caller and not be completed; the transaction sets it cancelled and
      takes one user off its gym. */
  function CancelSpec(db: Db, b: int, userId: Option<string>): Result<Db> {
    if b !in db.bookings then Err(NotFound)
    else if userId != Some(db.bookings[b].userId) then Err(Unauthenticated)
    else if db.bookings[b].status == Completed then Err(BadRequest)
    else
      match SetStatus(db, b, Cancelled)
      case Err(x) => Err(x)
      case Ok(tx) => AdjustUsers(tx, db.bookings[b].gymId, -1)
  }

  method CancelBooking(st: Store, b: int, userId: Option<string>) returns (r: Result<()>)
    modifies st
    ensures r.Ok? ==> CancelSpec(old(st.Snapshot()), b, userId) == Ok(st.Snapshot())
    ensures r.Err? ==> CancelSpec(old(st.Snapshot()), b, userId) == Err(r.error) && st.Snapshot() == old(st.Snapshot())
  {
    var db := st.Snapshot();
    if b !in db.bookings {
      return Err(NotFound);
    }
    var bk := db.bookings[b];
    if userId != Some(bk.userId) {
      return Err(Unauthenticated);
    }
    if bk.status == Completed {
      return Err(BadRequest);
    }
    var tx := SetStatus(db, b, Cancelled).value;
    var fin := AdjustUsers(tx, bk.gymId, -1);
    if fin.Err? {
      return Err(fin.error);
    }
    st.Commit(fin.value);
    return Ok(());
  }

  /** Cancelling succeeds exactly for an existing booking of the caller that
      is not completed and whose gym exists; a pending, confirmed or already
      cancelled booking all qualify. Only the booking's status and its gym's
      occupancy change. */
  lemma CancelOutcome(db: Db, b: int, userId: Option<string>)
    ensures CancelSpec(db, b, userId).Ok? <==>
      b in db.bookings && userId == Some(db.bookings[b].userId) && db.bookings[b].status != Completed
      && db.bookings[b].gymId in db.gyms
    ensures b !in db.bookings ==> CancelSpec(db, b, userId) == Err(NotFound)
    ensures b in db.bookings && userId != Some(db.bookings[b].userId) ==> CancelSpec(db, b, userId) == Err(Unauthenticated)
    ensures b in db.bookings && userId == Some(db.bookings[b].userId) && db.bookings[b].status == Completed ==>
      CancelSpec(db, b, userId) == Err(BadRequest)
    ensures CancelSpec(db, b, userId).Ok? ==>
      var r := CancelSpec(db, b, userId).value;
      var g := db.bookings[b].gymId;
      && r.bookings == db.bookings[b := db.bookings[b].(status := Cancelled)]
      && r.gyms == db.gyms[g := db.gyms[g].(currentUsers := db.gyms[g].currentUsers - 1)]
      && r.(bookings := db.bookings, gyms := db.gyms) == db
  {
  }

  /** An already cancelled booking is cancelled again: the second
      cancellation succeeds and takes a second user off the gym. */
  lemma DoubleCancelDecrementsTwice(db: Db, b: int, userId: Option<string>)
    requires CancelSpec(db, b, userId).Ok?
    ensures CancelSpec(CancelSpec(db, b, userId).value, b, userId).Ok?
    ensures var g := db.bookings[b].gymId;
      CancelSpec(CancelSpec(db, b, userId).value, b, userId).value.gyms[g].currentUsers == db.gyms[g].currentUsers - 2
  {
    CancelOutcome(db, b, userId);
    CancelOutcome(CancelSpec(db, b, userId).value, b, userId);
  }

  /** A booking that stops holding its slot cannot create a clash. */
  lemma ReleaseKeepsExclusive(db: Db, b: int, s: Status, r: Db)
    requires Linked(db) && Exclusive(db) && !Holding(s) && b in db.bookings
    requires r.bookings == db.bookings[b := db.bookings[b].(status := s)] && r.machineBookings == db.machineBookings
    requires r.nextBooking == db.nextBooking && r.nextMachineBooking == db.nextMachineBooking
    ensures Linked(r) && Exclusive(r)
  {
    forall k1, k2 | k1 in r.machineBookings && k2 in r.machineBookings && k1 != k2
      ensures !Clash(r, k1, k2)
    {
      assert !Clash(db, k1, k2);
    }
  }

  /** Cancelling keeps the reservations exclusive. */
  lemma CancelKeepsExclusive(db: Db, b: int, userId: Option<string>)
    requires Linked(db) && Exclusive(db) && CancelSpec(db, b, userId).Ok?
    ensures Linked(CancelSpec(db, b, userId).value) && Exclusive(CancelSpec(db, b, userId).value)
  {
    CancelOutcome(db, b, userId);
    ReleaseKeepsExclusive(db, b, Cancelled, CancelSpec(db, b, userId).value);
  }

  // ---------------------------------------------------------------------
  // addMachineToBooking, removeMachineFromBooking
  // ---------------------------------------------------------------------

  /** The booking already has a reservation of machine `m`. */
  predicate InBooking(db: Db, b: int, m: int) {
    exists k :: k in db.machineBookings && db.machineBookings[k].bookingId == b && db.machineBookings[k].machineId == m
  }

  /** `addMachineToBooking` on a snapshot. */
  function AddMachineSpec(db: Db, b: int, machineId: Option<int>, duration: Option<int>): Result<Db> {
    if !TruthyInt(machineId) || !TruthyInt(duration) then Err(BadRequest)
    else if b !in db.bookings then Err(NotFound)
    else if db.bookings[b].status != Confirmed then Err(BadRequest)
    else if machineId.value !in db.machines then Err(NotFound)
    else if db.machines[machineId.value].needService then Err(BadRequest)
    else if MachineTaken(db, machineId.value, db.bookings[b].start, db.bookings[b].end) then Err(BadRequest)
    else if InBooking(db, b, machineId.value) then Err(BadRequest)
    else Ok(InsertMachineBooking(db, MachineBooking(b, machineId.value, duration.value)))
  }

  /** The handler; it writes one row and so needs no transaction. The result
      is the new machine booking's id. */
  method AddMachineToBooking(st: Store, b: int, machineId: Option<int>, duration: Option<int>) returns (r: Result<int>)
    modifies st
    ensures r.Ok? ==> AddMachineSpec(old(st.Snapshot()), b, machineId, duration) == Ok(st.Snapshot())
                      && r.value == old(st.nextMachineBooking)
    ensures r.Err? ==> AddMachineSpec(old(st.Snapshot()), b, machineId, duration) == Err(r.error)
                       && st.Snapshot() == old(st.Snapshot())
  {
    var db := st.Snapshot();
    if !TruthyInt(machineId) || !TruthyInt(duration) {
      return Err(BadRequest);
    }
    if b !in db.bookings {
      return Err(NotFound);
    }
    var bk := db.bookings[b];
    if bk.status != Confirmed {
      return Err(BadRequest);
    }
    var m := machineId.value;
    if m !in db.machines {
      return Err(NotFound);
    }
    if db.machines[m].needService {
      return Err(BadRequest);
    }
    if MachineTaken(db, m, bk.start, bk.end) {
      return Err(BadRequest);
    }
    if InBooking(db, b, m) {
      return Err(BadRequest);
    }
    var id := db.nextMachineBooking;
    st.Commit(InsertMachineBooking(db, MachineBooking(b, m, duration.value)));
    return Ok(id);
  }

  /** A confirmed booking holds its own slot, so a machine it already has is
      refused by the reservation check: the duplicate check never decides. */
  lemma OwnMachineIsTaken(db: Db, b: int, m: int)
    requires Linked(db) && b in db.bookings && db.bookings[b].status == Confirmed && InBooking(db, b, m)
    ensures MachineTaken(db, m, db.bookings[b].start, db.bookings[b].end)
  {
    var k :| k in db.machineBookings && db.machineBookings[k].bookingId == b && db.machineBookings[k].machineId == m;
    assert ReservesDuring(db, k, db.bookings[b].start, db.bookings[b].end);
  }

  /** Adding succeeds exactly when both fields are given, the booking exists
      and is confirmed, and the machine exists, needs no service and is not
      held during the booking; it then adds exactly one reservation. */
  lemma AddMachineOutcome(db: Db, b: int, machineId: Option<int>, duration: Option<int>)
    requires Linked(db)
    ensures AddMachineSpec(db, b, machineId, duration).Ok? <==>
      TruthyInt(machineId) && TruthyInt(duration) && b in db.bookings && db.bookings[b].status == Confirmed
      && machineId.value in db.machines && !db.machines[machineId.value].needService
      && !MachineTaken(db, machineId.value, db.bookings[b].start, db.bookings[b].end)
    ensures AddMachineSpec(db, b, machineId, duration).Ok? ==>
      var r := AddMachineSpec(db, b, machineId, duration).value;
      && db.nextMachineBooking !in db.machineBookings
      && r.machineBookings == db.machineBookings[db.nextMachineBooking := MachineBooking(b, machineId.value, duration.value)]
      && r.nextMachineBooking == db.nextMachineBooking + 1
      && r.(machineBookings := db.machineBookings, nextMachineBooking := db.nextMachineBooking) == db
  {
    if TruthyInt(machineId) && b in db.bookings && db.bookings[b].status == Confirmed && InBooking(db, b, machineId.value) {
      OwnMachineIsTaken(db, b, machineId.value);
    }
  }

  /** Adding keeps the reservations exclusive. */
  lemma AddMachineKeepsExclusive(db: Db, b: int, machineId: Option<int>, duration: Option<int>)
    requires Linked(db) && Exclusive(db) && AddMachineSpec(db, b, machineId, duration).Ok?
    ensures Linked(AddMachineSpec(db, b, machineId, duration).value)
    ensures Exclusive(AddMachineSpec(db, b, machineId, duration).value)
  {
    ReserveKeeps(db, MachineBooking(b, machineId.value, duration.value));
  }

  /** `removeMachineFromBooking` on a snapshot: the booking must exist and
      be confirmed, and the machine booking must belong to it. */
  function RemoveMachineSpec(db: Db, b: int, k: int): Result<Db> {
    if b !in db.bookings then Err(NotFound)
    else if db.bookings[b].status != Confirmed then Err(BadRequest)
    else if k !in db.machineBookings || db.machineBookings[k].bookingId != b then Err(NotFound)
    else Ok(db.(machineBookings := db.machineBookings - {k}))
  }

  method RemoveMachineFromBooking(st: Store, b: int, k: int) returns (r: Result<()>)
    modifies st
    ensures r.Ok? ==> RemoveMachineSpec(old(st.Snapshot()), b, k) == Ok(st.Snapshot())
    ensures r.Err? ==> RemoveMachineSpec(old(st.Snapshot()), b, k) == Err(r.error) && st.Snapshot() == old(st.Snapshot())
  {
    var db := st.Snapshot();
    if b !in db.bookings {
      return Err(NotFound);
    }
    if db.bookings[b].status != Confirmed {
      return Err(BadRequest);
    }
    if k !in db.machineBookings || db.machineBookings[k].bookingId != b {
      return Err(NotFound);
    }
    st.Commit(db.(machineBookings := db.machineBookings - {k}));
    return Ok(());
  }

  /** Removing deletes exactly the named row and keeps the reservations
      exclusive. */
  lemma RemoveMachineOutcome(db: Db, b: int, k: int)
    ensures RemoveMachineSpec(db, b, k).Ok? <==>
      b in db.bookings && db.bookings[b].status == Confirmed && k in db.machineBookings && db.machineBookings[k].bookingId == b
    ensures RemoveMachineSpec(db, b, k).Ok? ==>
      var r := RemoveMachineSpec(db, b, k).value;
      k !in r.machineBookings
      && (forall j :: j != k ==> (j in r.machineBookings <==> j in db.machineBookings))
      && (forall j :: j in r.machineBookings ==> r.machineBookings[j] == db.machineBookings[j])
      && r.(machineBookings := db.machineBookings) == db
    ensures Linked(db) && Exclusive(db) && RemoveMachineSpec(db, b, k).Ok? ==>
      Linked(RemoveMachineSpec(db, b, k).value) && Exclusive(RemoveMachineSpec(db, b, k).value)
  {
    if Linked(db) && Exclusive(db) && RemoveMachineSpec(db, b, k).Ok? {
      var r := RemoveMachineSpec(db, b, k).value;
      forall k1, k2 | k1 in r.machineBookings && k2 in r.machineBookings && k1 != k2
        ensures !Clash(r, k1, k2)
      {
        assert !Clash(db, k1, k2);
      }
    }
  }

  /** Removing the machine just added restores the store, except that the
      machine-booking counter has moved on. */
  lemma AddThenRemove(db: Db, b: int, machineId: Option<int>, duration: Option<int>)
    requires Linked(db) && AddMachineSpec(db, b, machineId, duration).Ok?
    ensures RemoveMachineSpec(AddMachineSpec(db, b, machineId, duration).value, b, db.nextMachineBooking)
            == Ok(db.(nextMachineBooking := db.nextMachineBooking + 1))
  {
    var n := db.nextMachineBooking;
    var r := AddMachineSpec(db, b, machineId, duration).value;
    assert n !in db.machineBookings;
    assert r.machineBookings - {n} == db.machineBookings;
  }

  // ---------------------------------------------------------------------
  // completeBooking
  // ---------------------------------------------------------------------

  /** The title of an automatic service ticket. */
  function ServiceTitle(name: string): string {
    "Service Required: " + name
  }

  /** One iteration of the completion loop, for reservation `mb` of a booking
      of `userId`: one more use of the machine (a missing machine makes the
      update fail); if the machine has a service record, the reserved
      minutes are added to its hours, and when the hours reach the interval
      while the machine is still active, it is taken out of use and a
      service ticket is opened for the booking's user. */
  function UseMachine(tx: Db, userId: string, mb: MachineBooking, now: Instant): Result<Db> {
    var m := mb.machineId;
    if m !in tx.machines then Err(Internal)
    else
      var t1 := CountUse(tx, m);
      if m !in t1.services then Ok(t1)
      else
        var t2 := Accrue(t1, m, mb.duration as real / 60.0);
        if t2.services[m].totalHours >= t2.services[m].intervalHours && t2.machines[m].status == Active then
          Ok(TakeOut(t2, userId, m, now))
        else Ok(t2)
  }

  /** One more use of machine `m`. */
  function CountUse(db: Db, m: int): (r: Db)
    requires m in db.machines
    ensures r.(machines := db.machines) == db && r.machines.Keys == db.machines.Keys
    ensures r.machines[m] == db.machines[m].(uses := db.machines[m].uses + 1)
    ensures forall x :: x in db.machines && x != m ==> r.machines[x] == db.machines[x]
  {
    db.(machines := db.machines[m := db.machines[m].(uses := db.machines[m].uses + 1)])
  }

  /** `hours` more on the service record of machine `m`. */
  function Accrue(db: Db, m: int, hours: real): (r: Db)
    requires m in db.services
    ensures r.(services := db.services) == db && r.services.Keys == db.services.Keys
    ensures r.services[m] == db.services[m].(totalHours := db.services[m].totalHours + hours)
    ensures forall x :: x in db.services && x != m ==> r.services[x] == db.services[x]
  {
    db.(services := db.services[m := db.services[m].(totalHours := db.services[m].totalHours + hours)])
  }

  /** Machine `m` flagged and out of use, with a service ticket opened for
      user `u`. */
  function TakeOut(db: Db, u: string, m: int, now: Instant): (r: Db)
    requires m in db.machines
    ensures r.(machines := db.machines, tickets := db.tickets, nextTicket := db.nextTicket) == db
    ensures r.machines.Keys == db.machines.Keys
    ensures r.machines[m] == db.machines[m].(needService := true, status := Inactive)
    ensures forall x :: x in db.machines && x != m ==> r.machines[x] == db.machines[x]
    ensures r.tickets == db.tickets[db.nextTicket := Ticket(u, ServiceTitle(db.machines[m].name), Open, "service", Some(m), now)]
    ensures r.nextTicket == db.nextTicket + 1
  {
    var mc := db.machines[m];
    InsertTicket(db.(machines := db.machines[m := mc.(needService := true, status := Inactive)]),
                 Ticket(u, ServiceTitle(mc.name), Open, "service", Some(m), now))
  }

  /** The completion loop over the booking's reservations, in order. */
  function UseAll(tx: Db, userId: string, rows: seq<MachineBooking>, now: Instant): Result<Db>
    decreases |rows|
  {
    if rows == [] then Ok(tx)
    else
      match UseMachine(tx, userId, rows[0], now)
      case Err(x) => Err(x)
      case Ok(t) => UseAll(t, userId, rows[1..], now)
  }

  /** `completeBooking` on a snapshot: only a confirmed booking completes;
      the transaction runs the loop, marks the booking completed and takes
      one user off its gym. */
  function CompleteSpec(db: Db, b: int, now: Instant): Result<Db> {
    if b !in db.bookings then Err(NotFound)
    else if db.bookings[b].status != Confirmed then Err(BadRequest)
    else
      match UseAll(db, db.bookings[b].userId, BookingRows(db, b), now)
      case Err(x) => Err(x)
      case Ok(tx) =>
        match SetStatus(tx, b, Completed)
        case Err(x) => Err(x)
        case Ok(t2) => AdjustUsers(t2, db.bookings[b].gymId, -1)
  }

  /** The body of the completion loop, on the working copy. */
  method UseStep(tx: Db, userId: string, mb: MachineBooking, now: Instant) returns (r: Result<Db>)
    ensures r == UseMachine(tx, userId, mb, now)
  {
    var m := mb.machineId;
    if m !in tx.machines {
      return Err(Internal);
    }
    var t := tx.(machines := tx.machines[m := tx.machines[m].(uses := tx.machines[m].uses + 1)]);
    if m in t.services {
      var svc := t.services[m];
      var total := svc.totalHours + mb.duration as real / 60.0;
      var needs := total >= svc.intervalHours;
      t := t.(services := t.services[m := svc.(totalHours := total)]);
      var mc := t.machines[m];
      if needs && mc.status == Active {
        t := t.(machines := t.machines[m := mc.(needService := true, status := Inactive)]);
        t := InsertTicket(t, Ticket(userId, ServiceTitle(mc.name), Open, "service", Some(m), now));
      }
    }
    return Ok(t);
  }

  method CompleteBooking(st: Store, b: int, now: Instant) returns (r: Result<()>)
    modifies st
    ensures r.Ok? ==> CompleteSpec(old(st.Snapshot()), b, now) == Ok(st.Snapshot())
    ensures r.Err? ==> CompleteSpec(old(st.Snapshot()), b, now) == Err(r.error) && st.Snapshot() == old(st.Snapshot())
  {
    var db := st.Snapshot();
    if b !in db.bookings {
      return Err(NotFound);
    }
    var bk := db.bookings[b];
    if bk.status != Confirmed {
      return Err(BadRequest);
    }
    var rows := BookingRows(db, b);
    var tx := db;
    var i := 0;
    while i < |rows|
      invariant 0 <= i <= |rows|
      invariant UseAll(db, bk.userId, rows, now) == UseAll(tx, bk.userId, rows[i..], now)
      invariant st.Snapshot() == db
    {
      assert rows[i..][0] == rows[i] && rows[i..][1..] == rows[i + 1..];
      var step := UseStep(tx, bk.userId, rows[i], now);
      if step.Err? {
        assert UseAll(tx, bk.userId, rows[i..], now) == Err(step.error);
        return Err(step.error);
      }
      tx := step.value;
      i := i + 1;
    }
    assert rows[i..] == [];
    var t2 := SetStatus(tx, b, Completed);
    if t2.Err? {
      return Err(t2.error);
    }
    var fin := AdjustUsers(t2.value, bk.gymId, -1);
    if fin.Err? {
      return Err(fin.error);
    }
    st.Commit(fin.value);
    return Ok(());
  }

  /** How many of `rows` reserve machine `m`. */
  function UsesOf(rows: seq<MachineBooking>, m: int): nat {
    if rows == [] then 0 else (if rows[0].machineId == m then 1 else 0) + UsesOf(rows[1..], m)
  }

  /** The hours that `rows` reserve machine `m` for. */
  function HoursOf(rows: seq<MachineBooking>, m: int): real {
    if rows == [] then 0.0 else (if rows[0].machineId == m then rows[0].duration as real / 60.0 else 0.0) + HoursOf(rows[1..], m)
  }

  lemma {:induction false} NoUsesNoHours(rows: seq<MachineBooking>, m: int)
    requires UsesOf(rows, m) == 0
    ensures HoursOf(rows, m) == 0.0
    decreases |rows|
  {
    if rows != [] {
      NoUsesNoHours(rows[1..], m);
    }
  }

  /** A ticket opened by a step of the loop. */
  predicate Fresh(tx: Db, r: Db, k: int) {
    k in r.tickets && tx.nextTicket <= k
  }

  /** One step of the loop touches only the machine, its service record
      and the tickets. */
  lemma StepFrame(tx: Db, u: string, mb: MachineBooking, now: Instant)
    requires UseMachine(tx, u, mb, now).Ok?
    ensures var t := UseMachine(tx, u, mb, now).value;
      && mb.machineId in tx.machines
      && t.(machines := tx.machines, services := tx.services, tickets := tx.tickets, nextTicket := tx.nextTicket) == tx
      && t.machines.Keys == tx.machines.Keys && t.services.Keys == tx.services.Keys
      && (forall x :: x in tx.machines && x != mb.machineId ==> t.machines[x] == tx.machines[x])
      && (forall x :: x in tx.services && x != mb.machineId ==> t.services[x] == tx.services[x])
  {
    StepKeys(tx, u, mb, now);
    StepOtherMachines(tx, u, mb, now);
    StepOtherServices(tx, u, mb, now);
  }

  /** A step keeps the other tables and which machines and service records
      exist. */
  lemma StepKeys(tx: Db, u: string, mb: MachineBooking, now: Instant)
    requires UseMachine(tx, u, mb, now).Ok?
    ensures var t := UseMachine(tx, u, mb, now).value;
      && mb.machineId in tx.machines
      && t.(machines := tx.machines, services := tx.services, tickets := tx.tickets, nextTicket := tx.nextTicket) == tx
      && t.machines.Keys == tx.machines.Keys && t.services.Keys == tx.services.Keys
  {
    StepRest(tx, u, mb, now);
  }

  /** A step changes no table but machines, services and tickets. */
  lemma StepRest(tx: Db, u: string, mb: MachineBooking, now: Instant)
    requires UseMachine(tx, u, mb, now).Ok?
    ensures var t := UseMachine(tx, u, mb, now).value;
      t.(machines := tx.machines, services := tx.services, tickets := tx.tickets, nextTicket := tx.nextTicket) == tx
  {
  }

  /** A step leaves the machines other than the reserved one alone. */
  lemma StepOtherMachines(tx: Db, u: string, mb: MachineBooking, now: Instant)
    requires UseMachine(tx, u, mb, now).Ok?
    ensures var t := UseMachine(tx, u, mb, now).value;
      forall x :: x in tx.machines && x != mb.machineId ==> x in t.machines && t.machines[x] == tx.machines[x]
  {
  }

  /** A step leaves the service records of other machines alone. */
  lemma StepOtherServices(tx: Db, u: string, mb: MachineBooking, now: Instant)
    requires UseMachine(tx, u, mb, now).Ok?
    ensures var t := UseMachine(tx, u, mb, now).value;
      forall x :: x in tx.services && x != mb.machineId ==> x in t.services && t.services[x] == tx.services[x]
  {
  }

  /** One step of the loop on the machine and its service record: one more
      use, the reserved hours added, and out of use once the hours reach the
      interval. */
  lemma StepMachine(tx: Db, u: string, mb: MachineBooking, now: Instant)
    requires UseMachine(tx, u, mb, now).Ok?
    ensures var t := UseMachine(tx, u, mb, now).value;
      var m := mb.machineId;
      && m in tx.machines && m in t.machines
      && t.machines[m].uses == tx.machines[m].uses + 1 && t.machines[m].name == tx.machines[m].name
      && t.machines[m].gymId == tx.machines[m].gymId
      && (t.machines[m].status == tx.machines[m].status || t.machines[m].status == Inactive)
      && (tx.machines[m].needService ==> t.machines[m].needService)
      && (m in tx.services ==>
            m in t.services
            && t.services[m] == tx.services[m].(totalHours := tx.services[m].totalHours + mb.duration as real / 60.0))
      && (m in t.services && t.services[m].totalHours >= t.services[m].intervalHours ==> t.machines[m].status == Inactive)
  {
  }

  /** One step of the loop opens at most one ticket, for a machine it takes
      out of use, and keeps the others. */
  lemma StepTickets(tx: Db, u: string, mb: MachineBooking, now: Instant)
    requires TicketKeysBelow(tx) && UseMachine(tx, u, mb, now).Ok?
    ensures var t := UseMachine(tx, u, mb, now).value;
      var m := mb.machineId;
      && TicketKeysBelow(t) && tx.nextTicket <= t.nextTicket <= tx.nextTicket + 1
      && (tx.nextTicket < t.nextTicket ==> tx.nextTicket in t.tickets)
      && (forall k :: k in tx.tickets ==> k in t.tickets && t.tickets[k] == tx.tickets[k])
      && (forall k :: Fresh(tx, t, k) ==>
            k == tx.nextTicket && m in tx.machines && m in t.machines && tx.machines[m].status == Active
            && t.machines[m].status == Inactive && t.machines[m].needService
            && t.tickets[k] == Ticket(u, ServiceTitle(tx.machines[m].name), Open, "service", Some(m), now))
  {
    assert tx.nextTicket !in tx.tickets;
  }

  /** The completion rule for one reservation: machine `m` has a service
      record, the reserved hours bring its total to the interval or past
      it, and it is in use. */
  predicate StepTakesOut(tx: Db, mb: MachineBooking) {
    var m := mb.machineId;
    && m in tx.machines && m in tx.services
    && tx.services[m].totalHours + mb.duration as real / 60.0 >= tx.services[m].intervalHours
    && tx.machines[m].status == Active
  }

  /** Unless the completion rule holds, a step only adds a use: the machine
      keeps its status and flag, and no ticket is opened. */
  lemma StepOnlyAtInterval(tx: Db, u: string, mb: MachineBooking, now: Instant)
    requires UseMachine(tx, u, mb, now).Ok?
    ensures var t := UseMachine(tx, u, mb, now).value;
      var m := mb.machineId;
      !StepTakesOut(tx, mb) ==>
        && m in tx.machines && m in t.machines
        && t.machines[m] == tx.machines[m].(uses := tx.machines[m].uses + 1)
        && t.tickets == tx.tickets && t.nextTicket == tx.nextTicket
  {
  }

  /** When the completion rule holds, the step flags the machine, takes it
      out of use and opens one service ticket for it under the next id. */
  lemma StepAtInterval(tx: Db, u: string, mb: MachineBooking, now: Instant)
    requires UseMachine(tx, u, mb, now).Ok?
    ensures var t := UseMachine(tx, u, mb, now).value;
      var m := mb.machineId;
      StepTakesOut(tx, mb) ==>
        && m in t.machines
        && t.machines[m] == tx.machines[m].(uses := tx.machines[m].uses + 1, needService := true, status := Inactive)
        && t.nextTicket == tx.nextTicket + 1
        && t.tickets == tx.tickets[tx.nextTicket := Ticket(u, ServiceTitle(tx.machines[m].name), Open, "service", Some(m), now)]
  {
  }

  /** What the whole loop keeps: the other tables, the machines and service
      records present, old tickets, and a machine's being out of use or
      flagged for service. */
  lemma UseAllFrame(tx: Db, u: string, rows: seq<MachineBooking>, now: Instant)
    requires TicketKeysBelow(tx) && UseAll(tx, u, rows, now).Ok?
    ensures var r := UseAll(tx, u, rows, now).value;
      && r.(machines := tx.machines, services := tx.services, tickets := tx.tickets, nextTicket := tx.nextTicket) == tx
      && r.machines.Keys == tx.machines.Keys && r.services.Keys == tx.services.Keys
      && (forall x :: x in tx.machines ==>
            r.machines[x].name == tx.machines[x].name && r.machines[x].gymId == tx.machines[x].gymId
            && (tx.machines[x].status == Inactive ==> r.machines[x].status == Inactive)
            && (tx.machines[x].needService ==> r.machines[x].needService))
      && (forall x :: x in tx.services ==> r.services[x].intervalHours == tx.services[x].intervalHours)
      && TicketKeysBelow(r) && tx.nextTicket <= r.nextTicket
      && (forall k :: k in tx.tickets ==> k in r.tickets && r.tickets[k] == tx.tickets[k])
  {
    UseAllRest(tx, u, rows, now);
    UseAllMachinesKept(tx, u, rows, now);
    UseAllIntervalsKept(tx, u, rows, now);
    UseAllTicketsKept(tx, u, rows, now);
  }

  /** The loop keeps the other tables and which machines and service
      records exist. */
  lemma {:induction false} UseAllRest(tx: Db, u: string, rows: seq<MachineBooking>, now: Instant)
    requires UseAll(tx, u, rows, now).Ok?
    ensures var r := UseAll(tx, u, rows, now).value;
      && r.(machines := tx.machines, services := tx.services, tickets := tx.tickets, nextTicket := tx.nextTicket) == tx
      && r.machines.Keys == tx.machines.Keys && r.services.Keys == tx.services.Keys
    decreases |rows|
  {
    if rows != [] {
      StepKeys(tx, u, rows[0], now);
      UseAllRest(UseMachine(tx, u, rows[0], now).value, u, rows[1..], now);
    }
  }

  /** The loop keeps each machine's name and gym, and never puts a machine
      back in use or clears its flag. */
  lemma {:induction false} UseAllMachinesKept(tx: Db, u: string, rows: seq<MachineBooking>, now: Instant)
    requires UseAll(tx, u, rows, now).Ok?
    ensures var r := UseAll(tx, u, rows, now).value;
      forall x :: x in tx.machines ==>
        x in r.machines && r.machines[x].name == tx.machines[x].name && r.machines[x].gymId == tx.machines[x].gymId
        && (tx.machines[x].status == Inactive ==> r.machines[x].status == Inactive)
        && (tx.machines[x].needService ==> r.machines[x].needService)
    decreases |rows|
  {
    if rows != [] {
      StepKeys(tx, u, rows[0], now);
      StepOtherMachines(tx, u, rows[0], now);
      StepMachine(tx, u, rows[0], now);
      UseAllMachinesKept(UseMachine(tx, u, rows[0], now).value, u, rows[1..], now);
    }
  }

  /** The loop keeps every service interval. */
  lemma {:induction false} UseAllIntervalsKept(tx: Db, u: string, rows: seq<MachineBooking>, now: Instant)
    requires UseAll(tx, u, rows, now).Ok?
    ensures var r := UseAll(tx, u, rows, now).value;
      forall x :: x in tx.services ==> x in r.services && r.services[x].intervalHours == tx.services[x].intervalHours
    decreases |rows|
  {
    if rows != [] {
      StepKeys(tx, u, rows[0], now);
      StepOtherServices(tx, u, rows[0], now);
      StepMachine(tx, u, rows[0], now);
      UseAllIntervalsKept(UseMachine(tx, u, rows[0], now).value, u, rows[1..], now);
    }
  }

  /** The loop keeps the old tickets and the ticket ids below the counter. */
  lemma {:induction false} UseAllTicketsKept(tx: Db, u: string, rows: seq<MachineBooking>, now: Instant)
    requires TicketKeysBelow(tx) && UseAll(tx, u, rows, now).Ok?
    ensures var r := UseAll(tx, u, rows, now).value;
      && TicketKeysBelow(r) && tx.nextTicket <= r.nextTicket
      && (forall k :: k in tx.tickets ==> k in r.tickets && r.tickets[k] == tx.tickets[k])
    decreases |rows|
  {
    if rows != [] {
      StepTickets(tx, u, rows[0], now);
      UseAllTicketsKept(UseMachine(tx, u, rows[0], now).value, u, rows[1..], now);
    }
  }

  /** The loop succeeds exactly when every reserved machine exists. */
  lemma {:induction false} UseAllOk(tx: Db, u: string, rows: seq<MachineBooking>, now: Instant)
    requires TicketKeysBelow(tx)
    ensures UseAll(tx, u, rows, now).Ok? <==> forall i :: 0 <= i < |rows| ==> rows[i].machineId in tx.machines
    ensures UseAll(tx, u, rows, now).Err? ==> UseAll(tx, u, rows, now).error == Internal
    decreases |rows|
  {
    if rows != [] {
      if UseMachine(tx, u, rows[0], now).Ok? {
        var t := UseMachine(tx, u, rows[0], now).value;
        StepKeys(tx, u, rows[0], now);
        UseAllOk(t, u, rows[1..], now);
        assert forall i :: 1 <= i < |rows| ==> rows[i] == rows[1..][i - 1];
      }
    }
  }

  /** The loop adds one use per reservation, and the reserved hours to each
      service record. */
  lemma UseAllCounts(tx: Db, u: string, rows: seq<MachineBooking>, now: Instant)
    requires TicketKeysBelow(tx) && UseAll(tx, u, rows, now).Ok?
    ensures var r := UseAll(tx, u, rows, now).value;
      && (forall x :: x in tx.machines ==> x in r.machines && r.machines[x].uses == tx.machines[x].uses + UsesOf(rows, x))
      && (forall x :: x in tx.services ==>
            x in r.services && r.services[x].totalHours == tx.services[x].totalHours + HoursOf(rows, x))
  {
    UseAllUses(tx, u, rows, now);
    UseAllHours(tx, u, rows, now);
  }

  /** The loop adds one use per reservation. */
  lemma {:induction false} UseAllUses(tx: Db, u: string, rows: seq<MachineBooking>, now: Instant)
    requires UseAll(tx, u, rows, now).Ok?
    ensures var r := UseAll(tx, u, rows, now).value;
      forall x :: x in tx.machines ==> x in r.machines && r.machines[x].uses == tx.machines[x].uses + UsesOf(rows, x)
    decreases |rows|
  {
    if rows != [] {
      StepKeys(tx, u, rows[0], now);
      StepOtherMachines(tx, u, rows[0], now);
      StepMachine(tx, u, rows[0], now);
      UseAllUses(UseMachine(tx, u, rows[0], now).value, u, rows[1..], now);
    }
  }

  /** The loop adds the reserved hours to each service record. */
  lemma {:induction false} UseAllHours(tx: Db, u: string, rows: seq<MachineBooking>, now: Instant)
    requires UseAll(tx, u, rows, now).Ok?
    ensures var r := UseAll(tx, u, rows, now).value;
      forall x :: x in tx.services ==>
        x in r.services && r.services[x].totalHours == tx.services[x].totalHours + HoursOf(rows, x)
    decreases |rows|
  {
    if rows != [] {
      StepKeys(tx, u, rows[0], now);
      StepOtherServices(tx, u, rows[0], now);
      StepMachine(tx, u, rows[0], now);
      UseAllHours(UseMachine(tx, u, rows[0], now).value, u, rows[1..], now);
    }
  }

  /** Ticket `k` of `r` is an open service ticket for user `u` about a
      machine reserved in `rows` that was active in `tx` and is out of use
      and flagged in `r`. */
  predicate ServiceTicket(tx: Db, r: Db, u: string, rows: seq<MachineBooking>, now: Instant, k: int) {
    && k in r.tickets && r.tickets[k].machineId.Some?
    && var x := r.tickets[k].machineId.value;
    && x in tx.machines && x in r.machines && UsesOf(rows, x) > 0
    && tx.machines[x].status == Active && r.machines[x].status == Inactive && r.machines[x].needService
    && r.tickets[k] == Ticket(u, ServiceTitle(tx.machines[x].name), Open, "service", Some(x), now)
  }

  /** A service ticket opened by the rest of the loop is one for the whole
      loop. */
  lemma TicketFromTail(tx: Db, u: string, rows: seq<MachineBooking>, now: Instant, r: Db, k: int)
    requires rows != [] && UseMachine(tx, u, rows[0], now).Ok?
    requires ServiceTicket(UseMachine(tx, u, rows[0], now).value, r, u, rows[1..], now, k)
    ensures ServiceTicket(tx, r, u, rows, now, k)
  {
    StepFrame(tx, u, rows[0], now);
    StepMachine(tx, u, rows[0], now);
    var t := UseMachine(tx, u, rows[0], now).value;
    var x := r.tickets[k].machineId.value;
    if x == rows[0].machineId {
      assert tx.machines[x].status == Active && tx.machines[x].name == t.machines[x].name;
    } else {
      assert tx.machines[x] == t.machines[x];
    }
  }

  /** The ticket opened by the first step is a service ticket for the whole
      loop. */
  lemma TicketFromHead(tx: Db, u: string, rows: seq<MachineBooking>, now: Instant, k: int)
    requires TicketKeysBelow(tx) && rows != [] && UseAll(tx, u, rows, now).Ok?
    requires var r := UseAll(tx, u, rows, now).value;
      Fresh(tx, r, k) && !Fresh(UseMachine(tx, u, rows[0], now).value, r, k)
    ensures ServiceTicket(tx, UseAll(tx, u, rows, now).value, u, rows, now, k)
  {
    var t := UseMachine(tx, u, rows[0], now).value;
    StepTickets(tx, u, rows[0], now);
    assert Fresh(tx, t, k);
    UseAllFrame(t, u, rows[1..], now);
  }

  /** Every ticket the loop opens is a service ticket. */
  lemma {:induction false} UseAllTickets(tx: Db, u: string, rows: seq<MachineBooking>, now: Instant)
    requires TicketKeysBelow(tx) && UseAll(tx, u, rows, now).Ok?
    ensures forall k :: Fresh(tx, UseAll(tx, u, rows, now).value, k) ==>
      ServiceTicket(tx, UseAll(tx, u, rows, now).value, u, rows, now, k)
    decreases |rows|
  {
    if rows != [] {
      var t := UseMachine(tx, u, rows[0], now).value;
      var r := UseAll(tx, u, rows, now).value;
      StepTickets(tx, u, rows[0], now);
      UseAllTickets(t, u, rows[1..], now);
      forall k | Fresh(tx, r, k) ensures ServiceTicket(tx, r, u, rows, now, k) {
        if Fresh(t, r, k) {
          TicketFromTail(tx, u, rows, now, r, k);
        } else {
          TicketFromHead(tx, u, rows, now, k);
        }
      }
    }
  }

  /** No machine gets two tickets from one completion: a ticket takes its
      machine out of use, and only machines in use get one. */
  lemma {:induction false} UseAllTicketsDistinct(tx: Db, u: string, rows: seq<MachineBooking>, now: Instant)
    requires TicketKeysBelow(tx) && UseAll(tx, u, rows, now).Ok?
    ensures var r := UseAll(tx, u, rows, now).value;
      forall k1, k2 :: Fresh(tx, r, k1) && Fresh(tx, r, k2) && k1 != k2 ==> r.tickets[k1].machineId != r.tickets[k2].machineId
    decreases |rows|
  {
    if rows != [] {
      var t := UseMachine(tx, u, rows[0], now).value;
      var r := UseAll(tx, u, rows, now).value;
      StepTickets(tx, u, rows[0], now);
      UseAllTicketsDistinct(t, u, rows[1..], now);
      forall k1, k2 | Fresh(tx, r, k1) && Fresh(tx, r, k2) && k1 != k2
        ensures r.tickets[k1].machineId != r.tickets[k2].machineId
      {
        if !Fresh(t, r, k1) {
          FirstAndLater(tx, u, rows, now, k1, k2);
        } else if !Fresh(t, r, k2) {
          FirstAndLater(tx, u, rows, now, k2, k1);
        }
      }
    }
  }

  /** The ticket of the first step and one of the rest of the loop are
      about different machines: the first takes its machine out of use, the
      later one is for a machine still in use. */
  lemma FirstAndLater(tx: Db, u: string, rows: seq<MachineBooking>, now: Instant, k1: int, k2: int)
    requires TicketKeysBelow(tx) && rows != [] && UseAll(tx, u, rows, now).Ok?
    requires var t := UseMachine(tx, u, rows[0], now).value;
      var r := UseAll(tx, u, rows, now).value;
      Fresh(tx, r, k1) && !Fresh(t, r, k1) && Fresh(tx, r, k2) && k1 != k2
    ensures var r := UseAll(tx, u, rows, now).value;
      r.tickets[k1].machineId != r.tickets[k2].machineId
  {
    var t := UseMachine(tx, u, rows[0], now).value;
    var r := UseAll(tx, u, rows, now).value;
    StepTickets(tx, u, rows[0], now);
    assert k1 == tx.nextTicket && Fresh(t, r, k2);
    UseAllTickets(t, u, rows[1..], now);
    UseAllFrame(t, u, rows[1..], now);
    assert Fresh(tx, t, k1) && ServiceTicket(t, r, u, rows[1..], now, k2);
  }

  /** A reserved machine whose service hours end up at or past the interval
      ends up out of use. */
  lemma {:induction false} UseAllOutOfUse(tx: Db, u: string, rows: seq<MachineBooking>, now: Instant, x: int)
    requires TicketKeysBelow(tx) && UseAll(tx, u, rows, now).Ok?
    requires x in tx.services && UsesOf(rows, x) > 0
    ensures var r := UseAll(tx, u, rows, now).value;
      x in r.services && x in r.machines &&
      (r.services[x].totalHours >= r.services[x].intervalHours ==> r.machines[x].status == Inactive)
    decreases |rows|
  {
    var t := UseMachine(tx, u, rows[0], now).value;
    StepFrame(tx, u, rows[0], now);
    StepMachine(tx, u, rows[0], now);
    StepTickets(tx, u, rows[0], now);
    UseAllFrame(t, u, rows[1..], now);
    if UsesOf(rows[1..], x) > 0 {
      UseAllOutOfUse(t, u, rows[1..], now, x);
    } else {
      NoUsesNoHours(rows[1..], x);
      UseAllCounts(t, u, rows[1..], now);
    }
  }

  /** Some reservation of machine `x` in `rows` brings a total that starts
      at `total` to `interval` or past it, counting the hours of that
      reservation and of the earlier ones. */
  predicate Reaches(total: real, interval: real, rows: seq<MachineBooking>, x: int) {
    exists j :: 0 <= j < |rows| && rows[j].machineId == x && total + HoursOf(rows[..j + 1], x) >= interval
  }

  /** `Reaches` on a nonempty list: the first reservation reaches the
      interval, or a later one does from the total after the first. */
  lemma ReachesCons(total: real, interval: real, rows: seq<MachineBooking>, x: int)
    requires rows != []
    ensures var h := if rows[0].machineId == x then rows[0].duration as real / 60.0 else 0.0;
      Reaches(total, interval, rows, x) <==>
        (rows[0].machineId == x && total + h >= interval) || Reaches(total + h, interval, rows[1..], x)
  {
    var h := if rows[0].machineId == x then rows[0].duration as real / 60.0 else 0.0;
    forall j | 0 <= j < |rows| ensures HoursOf(rows[..j + 1], x) == h + HoursOf(rows[1..][..j], x) {
      assert rows[..j + 1][1..] == rows[1..][..j];
    }
    assert rows[1..][..0] == [];
    assert HoursOf(rows[..1], x) == h;
    if Reaches(total, interval, rows, x) && !(rows[0].machineId == x && total + h >= interval) {
      var j :| 0 <= j < |rows| && rows[j].machineId == x && total + HoursOf(rows[..j + 1], x) >= interval;
      assert j > 0;
      assert rows[1..][j - 1] == rows[j];
      assert total + h + HoursOf(rows[1..][..j], x) >= interval;
    }
    if Reaches(total + h, interval, rows[1..], x) {
      var j :| 0 <= j < |rows[1..]| && rows[1..][j].machineId == x && total + h + HoursOf(rows[1..][..j + 1], x) >= interval;
      assert rows[j + 1] == rows[1..][j];
    }
  }

  /** A reserved machine whose total ends at the interval or past it
      reached the interval at one of its reservations. */
  lemma {:induction false} FinalReaches(total: real, interval: real, rows: seq<MachineBooking>, x: int)
    requires UsesOf(rows, x) > 0 && total + HoursOf(rows, x) >= interval
    ensures Reaches(total, interval, rows, x)
    decreases |rows|
  {
    var h := if rows[0].machineId == x then rows[0].duration as real / 60.0 else 0.0;
    ReachesCons(total, interval, rows, x);
    if UsesOf(rows[1..], x) > 0 {
      FinalReaches(total + h, interval, rows[1..], x);
    } else {
      NoUsesNoHours(rows[1..], x);
    }
  }

  /** The loop takes machine `x` out of use: it was in use, has a service
      record, and one of its reservations brings the total to the
      interval. */
  predicate TakenOut(db: Db, rows: seq<MachineBooking>, x: int) {
    && x in db.machines && db.machines[x].status == Active && x in db.services
    && Reaches(db.services[x].totalHours, db.services[x].intervalHours, rows, x)
  }

  /** Machine `x` after the loop: one more use per reservation, and flagged
      and out of use exactly when the loop takes it out. */
  function MachineAfter(db: Db, rows: seq<MachineBooking>, x: int): Machine
    requires x in db.machines
  {
    var used := db.machines[x].(uses := db.machines[x].uses + UsesOf(rows, x));
    if TakenOut(db, rows, x) then used.(needService := true, status := Inactive) else used
  }

  /** The loop leaves each machine as `MachineAfter` says. */
  lemma {:induction false} UseAllMachineAt(tx: Db, u: string, rows: seq<MachineBooking>, now: Instant, x: int)
    requires UseAll(tx, u, rows, now).Ok? && x in tx.machines
    ensures x in UseAll(tx, u, rows, now).value.machines
    ensures UseAll(tx, u, rows, now).value.machines[x] == MachineAfter(tx, rows, x)
    decreases |rows|
  {
    if rows != [] {
      var t := UseMachine(tx, u, rows[0], now).value;
      MachineAfterCons(tx, u, rows, now, x);
      UseAllMachineAt(t, u, rows[1..], now, x);
    }
  }

  /** `MachineAfter` seen from the state after the first step. */
  lemma MachineAfterCons(tx: Db, u: string, rows: seq<MachineBooking>, now: Instant, x: int)
    requires rows != [] && UseMachine(tx, u, rows[0], now).Ok? && x in tx.machines
    ensures var t := UseMachine(tx, u, rows[0], now).value;
      x in t.machines && MachineAfter(t, rows[1..], x) == MachineAfter(tx, rows, x)
  {
    StepKeys(tx, u, rows[0], now);
    if rows[0].machineId != x {
      MachineAfterOther(tx, u, rows, now, x);
    } else if StepTakesOut(tx, rows[0]) {
      MachineAfterTaken(tx, u, rows, now);
    } else {
      MachineAfterKept(tx, u, rows, now);
    }
  }

  /** A first step about another machine leaves `MachineAfter` of `x` as
      it was. */
  lemma MachineAfterOther(tx: Db, u: string, rows: seq<MachineBooking>, now: Instant, x: int)
    requires rows != [] && UseMachine(tx, u, rows[0], now).Ok? && x in tx.machines && rows[0].machineId != x
    ensures var t := UseMachine(tx, u, rows[0], now).value;
      x in t.machines && MachineAfter(t, rows[1..], x) == MachineAfter(tx, rows, x)
  {
    StepOtherMachines(tx, u, rows[0], now);
    StepOtherServices(tx, u, rows[0], now);
    if x in tx.services {
      ReachesCons(tx.services[x].totalHours, tx.services[x].intervalHours, rows, x);
    }
  }

  /** A first step that takes the machine out decides `MachineAfter`. */
  lemma MachineAfterTaken(tx: Db, u: string, rows: seq<MachineBooking>, now: Instant)
    requires rows != [] && UseMachine(tx, u, rows[0], now).Ok? && StepTakesOut(tx, rows[0])
    ensures var t := UseMachine(tx, u, rows[0], now).value;
      var x := rows[0].machineId;
      x in t.machines && MachineAfter(t, rows[1..], x) == MachineAfter(tx, rows, x)
  {
    var x := rows[0].machineId;
    StepAtInterval(tx, u, rows[0], now);
    ReachesCons(tx.services[x].totalHours, tx.services[x].intervalHours, rows, x);
    assert TakenOut(tx, rows, x);
  }

  /** A first step on the machine below its interval only adds a use. */
  lemma MachineAfterKept(tx: Db, u: string, rows: seq<MachineBooking>, now: Instant)
    requires rows != [] && UseMachine(tx, u, rows[0], now).Ok? && !StepTakesOut(tx, rows[0])
    ensures var t := UseMachine(tx, u, rows[0], now).value;
      var x := rows[0].machineId;
      x in tx.machines && x in t.machines && MachineAfter(t, rows[1..], x) == MachineAfter(tx, rows, x)
  {
    var x := rows[0].machineId;
    StepMachine(tx, u, rows[0], now);
    StepOnlyAtInterval(tx, u, rows[0], now);
    if x in tx.services {
      ReachesCons(tx.services[x].totalHours, tx.services[x].intervalHours, rows, x);
    }
  }

  /** Every machine the loop takes out of use gets a ticket from it. */
  lemma {:induction false} UseAllTicketFor(tx: Db, u: string, rows: seq<MachineBooking>, now: Instant, x: int)
    requires TicketKeysBelow(tx) && UseAll(tx, u, rows, now).Ok? && TakenOut(tx, rows, x)
    ensures var r := UseAll(tx, u, rows, now).value;
      exists k :: Fresh(tx, r, k) && r.tickets[k].machineId == Some(x)
    decreases |rows|
  {
    var t := UseMachine(tx, u, rows[0], now).value;
    var r := UseAll(tx, u, rows, now).value;
    StepKeys(tx, u, rows[0], now);
    StepOtherMachines(tx, u, rows[0], now);
    StepOtherServices(tx, u, rows[0], now);
    StepMachine(tx, u, rows[0], now);
    StepTickets(tx, u, rows[0], now);
    StepOnlyAtInterval(tx, u, rows[0], now);
    StepAtInterval(tx, u, rows[0], now);
    ReachesCons(tx.services[x].totalHours, tx.services[x].intervalHours, rows, x);
    if rows[0].machineId == x && StepTakesOut(tx, rows[0]) {
      UseAllFrame(t, u, rows[1..], now);
      assert Fresh(tx, r, tx.nextTicket) && r.tickets[tx.nextTicket].machineId == Some(x);
    } else {
      assert TakenOut(t, rows[1..], x);
      UseAllTicketFor(t, u, rows[1..], now, x);
      var k :| Fresh(t, r, k) && r.tickets[k].machineId == Some(x);
      assert Fresh(tx, r, k);
    }
  }

  /** Completion fails on a missing booking (not found) and on one that is
      not confirmed (bad request); a confirmed booking completes exactly when
      its reserved machines and its gym exist. */
  lemma CompleteOutcome(db: Db, b: int, now: Instant)
    requires TicketKeysBelow(db)
    ensures b !in db.bookings ==> CompleteSpec(db, b, now) == Err(NotFound)
    ensures b in db.bookings && db.bookings[b].status != Confirmed ==> CompleteSpec(db, b, now) == Err(BadRequest)
    ensures CompleteSpec(db, b, now).Ok? <==>
      && b in db.bookings && db.bookings[b].status == Confirmed && db.bookings[b].gymId in db.gyms
      && forall i :: 0 <= i < |BookingRows(db, b)| ==> BookingRows(db, b)[i].machineId in db.machines
    ensures b in db.bookings && db.bookings[b].status == Confirmed && CompleteSpec(db, b, now).Err? ==>
      CompleteSpec(db, b, now) == Err(Internal)
  {
    if b in db.bookings && db.bookings[b].status == Confirmed {
      var rows := BookingRows(db, b);
      UseAllOk(db, db.bookings[b].userId, rows, now);
      if UseAll(db, db.bookings[b].userId, rows, now).Ok? {
        UseAllFrame(db, db.bookings[b].userId, rows, now);
      }
    }
  }

  /** A completion that succeeds ran the loop to the end and then changed
      only the booking and the gym. */
  lemma CompleteRunsLoop(db: Db, b: int, now: Instant, r: Db)
    requires CompleteSpec(db, b, now) == Ok(r)
    ensures b in db.bookings && db.bookings[b].status == Confirmed
    ensures UseAll(db, db.bookings[b].userId, BookingRows(db, b), now).Ok?
    ensures var tx := UseAll(db, db.bookings[b].userId, BookingRows(db, b), now).value;
      && r.machines == tx.machines && r.services == tx.services
      && r.tickets == tx.tickets && r.nextTicket == tx.nextTicket
  {
  }

  /** Completing marks the booking completed, takes one user off its gym and
      leaves the reservations and the other bookings alone. */
  lemma CompleteBookings(db: Db, b: int, now: Instant, r: Db)
    requires TicketKeysBelow(db) && CompleteSpec(db, b, now) == Ok(r)
    ensures b in db.bookings && db.bookings[b].gymId in db.gyms
    ensures r.bookings == db.bookings[b := db.bookings[b].(status := Completed)]
    ensures r.gyms == db.gyms[db.bookings[b].gymId :=
      db.gyms[db.bookings[b].gymId].(currentUsers := db.gyms[db.bookings[b].gymId].currentUsers - 1)]
    ensures r.machineBookings == db.machineBookings
    ensures r.nextBooking == db.nextBooking && r.nextMachineBooking == db.nextMachineBooking
    ensures r.nextMachine == db.nextMachine
  {
    UseAllFrame(db, db.bookings[b].userId, BookingRows(db, b), now);
  }

  /** Completing adds one use to each reserved machine per reservation and
      the reserved hours to its service record, and a reserved machine whose
      hours reach the interval ends up out of use. */
  lemma CompleteMachines(db: Db, b: int, now: Instant, r: Db)
    requires TicketKeysBelow(db) && CompleteSpec(db, b, now) == Ok(r)
    ensures b in db.bookings
    ensures r.machines.Keys == db.machines.Keys && r.services.Keys == db.services.Keys
    ensures forall x :: x in db.machines ==>
      r.machines[x].uses == db.machines[x].uses + UsesOf(BookingRows(db, b), x)
      && r.machines[x].name == db.machines[x].name && r.machines[x].gymId == db.machines[x].gymId
      && (db.machines[x].status == Inactive ==> r.machines[x].status == Inactive)
      && (db.machines[x].needService ==> r.machines[x].needService)
    ensures forall x :: x in db.services ==>
      r.services[x].totalHours == db.services[x].totalHours + HoursOf(BookingRows(db, b), x)
      && r.services[x].intervalHours == db.services[x].intervalHours
    ensures forall x :: x in db.services && x in db.machines && UsesOf(BookingRows(db, b), x) > 0 ==>
      (r.services[x].totalHours >= r.services[x].intervalHours ==> r.machines[x].status == Inactive)
    ensures forall x :: x in db.machines ==> r.machines[x] == MachineAfter(db, BookingRows(db, b), x)
    ensures forall x :: x in db.machines ==>
      (r.machines[x].status != db.machines[x].status || r.machines[x].needService != db.machines[x].needService) ==>
      TakenOut(db, BookingRows(db, b), x)
    ensures forall x :: TakenOut(db, BookingRows(db, b), x) ==>
      x in r.machines && r.machines[x].needService && r.machines[x].status == Inactive
  {
    var u := db.bookings[b].userId;
    var rows := BookingRows(db, b);
    CompleteRunsLoop(db, b, now, r);
    UseAllFrame(db, u, rows, now);
    UseAllCounts(db, u, rows, now);
    forall x | x in db.services && x in db.machines && UsesOf(rows, x) > 0
      ensures r.services[x].totalHours >= r.services[x].intervalHours ==> r.machines[x].status == Inactive
    {
      UseAllOutOfUse(db, u, rows, now, x);
    }
    CompleteMachineAfter(db, b, now, r);
  }

  /** After completing, each machine is as `MachineAfter` says. */
  lemma CompleteMachineAfter(db: Db, b: int, now: Instant, r: Db)
    requires CompleteSpec(db, b, now) == Ok(r)
    ensures b in db.bookings
    ensures forall x :: x in db.machines ==> x in r.machines && r.machines[x] == MachineAfter(db, BookingRows(db, b), x)
  {
    CompleteRunsLoop(db, b, now, r);
    forall x | x in db.machines ensures x in r.machines && r.machines[x] == MachineAfter(db, BookingRows(db, b), x) {
      UseAllMachineAt(db, db.bookings[b].userId, BookingRows(db, b), now, x);
    }
  }

  /** Completing keeps the old tickets; each new one is an open service
      ticket for the booking's user about a different reserved machine that
      was active before and is out of use after. */
  lemma CompleteTickets(db: Db, b: int, now: Instant, r: Db)
    requires TicketKeysBelow(db) && CompleteSpec(db, b, now) == Ok(r)
    ensures b in db.bookings
    ensures TicketKeysBelow(r) && db.nextTicket <= r.nextTicket
    ensures forall k :: k in db.tickets ==> k in r.tickets && r.tickets[k] == db.tickets[k]
    ensures forall k :: Fresh(db, r, k) ==> ServiceTicket(db, r, db.bookings[b].userId, BookingRows(db, b), now, k)
    ensures forall k1, k2 :: Fresh(db, r, k1) && Fresh(db, r, k2) && k1 != k2 ==>
      r.tickets[k1].machineId != r.tickets[k2].machineId
    ensures forall k :: Fresh(db, r, k) ==>
      r.tickets[k].machineId.Some? && TakenOut(db, BookingRows(db, b), r.tickets[k].machineId.value)
    ensures forall x :: TakenOut(db, BookingRows(db, b), x) ==>
      exists k :: Fresh(db, r, k) && r.tickets[k].machineId == Some(x)
  {
    var u := db.bookings[b].userId;
    var rows := BookingRows(db, b);
    CompleteRunsLoop(db, b, now, r);
    UseAllFrame(db, u, rows, now);
    UseAllTickets(db, u, rows, now);
    var tx := UseAll(db, u, rows, now).value;
    forall k | Fresh(db, r, k) ensures ServiceTicket(db, r, u, rows, now, k) {
      assert Fresh(db, tx, k) && ServiceTicket(db, tx, u, rows, now, k);
    }
    UseAllTicketsDistinct(db, u, rows, now);
    CompleteTicketsFired(db, b, now, r);
    CompleteTicketsCover(db, b, now, r);
  }

  /** Every new ticket is about a machine the completion rule fired on. */
  lemma CompleteTicketsFired(db: Db, b: int, now: Instant, r: Db)
    requires TicketKeysBelow(db) && CompleteSpec(db, b, now) == Ok(r)
    ensures b in db.bookings
    ensures forall k :: Fresh(db, r, k) ==>
      r.tickets[k].machineId.Some? && TakenOut(db, BookingRows(db, b), r.tickets[k].machineId.value)
  {
    var u := db.bookings[b].userId;
    var rows := BookingRows(db, b);
    CompleteRunsLoop(db, b, now, r);
    UseAllTickets(db, u, rows, now);
    var tx := UseAll(db, u, rows, now).value;
    CompleteMachineAfter(db, b, now, r);
    forall k | Fresh(db, r, k)
      ensures r.tickets[k].machineId.Some? && TakenOut(db, rows, r.tickets[k].machineId.value)
    {
      assert Fresh(db, tx, k) && ServiceTicket(db, tx, u, rows, now, k);
    }
  }

  /** Every machine the completion rule fired on has a new ticket. */
  lemma CompleteTicketsCover(db: Db, b: int, now: Instant, r: Db)
    requires TicketKeysBelow(db) && CompleteSpec(db, b, now) == Ok(r)
    ensures b in db.bookings
    ensures forall x :: TakenOut(db, BookingRows(db, b), x) ==>
      exists k :: Fresh(db, r, k) && r.tickets[k].machineId == Some(x)
  {
    var u := db.bookings[b].userId;
    var rows := BookingRows(db, b);
    CompleteRunsLoop(db, b, now, r);
    var tx := UseAll(db, u, rows, now).value;
    forall x | TakenOut(db, rows, x) ensures exists k :: Fresh(db, r, k) && r.tickets[k].machineId == Some(x) {
      UseAllTicketFor(db, u, rows, now, x);
      var k :| Fresh(db, tx, k) && tx.tickets[k].machineId == Some(x);
      assert Fresh(db, r, k);
    }
  }

  /** A reserved machine that was in use and whose service hours end at the
      interval or past it is flagged, out of use, and has exactly one of the
      new tickets. */
  lemma CompleteServicesDue(db: Db, b: int, now: Instant, r: Db, x: int)
    requires TicketKeysBelow(db) && CompleteSpec(db, b, now) == Ok(r)
    requires x in db.machines && db.machines[x].status == Active && x in db.services
    requires b in db.bookings && UsesOf(BookingRows(db, b), x) > 0
    requires x in r.services && r.services[x].totalHours >= r.services[x].intervalHours
    ensures x in r.machines && r.machines[x].needService && r.machines[x].status == Inactive
    ensures exists k :: Fresh(db, r, k) && r.tickets[k].machineId == Some(x)
    ensures forall k1, k2 :: Fresh(db, r, k1) && Fresh(db, r, k2) ==>
      (r.tickets[k1].machineId == Some(x) && r.tickets[k2].machineId == Some(x)) ==> k1 == k2
  {
    var rows := BookingRows(db, b);
    CompleteMachines(db, b, now, r);
    FinalReaches(db.services[x].totalHours, db.services[x].intervalHours, rows, x);
    assert TakenOut(db, rows, x);
    CompleteTickets(db, b, now, r);
  }

  /** Completing keeps the store linked and the reservations exclusive. */
  lemma CompleteKeepsExclusive(db: Db, b: int, now: Instant)
    requires TicketKeysBelow(db) && Linked(db) && Exclusive(db) && CompleteSpec(db, b, now).Ok?
    ensures Linked(CompleteSpec(db, b, now).value) && Exclusive(CompleteSpec(db, b, now).value)
  {
    CompleteBookings(db, b, now, CompleteSpec(db, b, now).value);
    ReleaseKeepsExclusive(db, b, Completed, CompleteSpec(db, b, now).value);
  }
}
