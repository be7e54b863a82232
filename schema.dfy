/**
 * The persistent entities of the gym-booking engine and the queries that
 * several controllers share: the two forms of the interval-overlap test, the
 * user-conflict test, the set of machines held by overlapping bookings and
 * the opening-hours lookup.
 */
module Schema {
  import opened Common
  import opened Tables

  /** Booking status; "confirmed" and "pending" bookings hold their slot. */
  datatype Status = Pending | Confirmed | Cancelled | Completed

  predicate Holding(s: Status) {
    s == Confirmed || s == Pending
  }

  datatype MachineStatus = Active | Inactive

  /** Opening hours of one weekday, as minutes after local midnight. */
  datatype OpeningHours = OpeningHours(dayOfWeek: int, openMin: int, closeMin: int)

  datatype Gym = Gym(maxCapacity: int, currentUsers: int, openingHours: seq<OpeningHours>)

  datatype Machine = Machine(gymId: int, name: string, status: MachineStatus, needService: bool, uses: int)

  /** The service record of a machine (at most one per machine). */
  datatype Service = Service(intervalHours: real, totalHours: real, serviceDate: Instant, notes: Option<string>)

  datatype Booking = Booking(userId: string, gymId: int, start: Instant, end: Instant, status: Status)

  /** A machine reserved within a booking, for `duration` minutes. */
  datatype MachineBooking = MachineBooking(bookingId: int, machineId: int, duration: int)

  datatype TicketStatus = Open | Closed

  datatype Ticket = Ticket(userId: string, title: string, status: TicketStatus, ticketType: string,
                           machineId: Option<int>, createdAt: Instant)

  /** A snapshot of the store. Services are keyed by machine id; the `next`
      counters are the autoincrement sequences of the id-keyed tables. */
  datatype Db = Db(
    gyms: map<int, Gym>,
    machines: map<int, Machine>,
    services: map<int, Service>,
    bookings: map<int, Booking>,
    machineBookings: map<int, MachineBooking>,
    tickets: map<int, Ticket>,
    nextMachine: int,
    nextBooking: int,
    nextMachineBooking: int,
    nextTicket: int)

  /** Every gym has a positive capacity, so occupancy percentages are finite. */
  predicate CapacitiesPositive(db: Db) {
    forall g :: g in db.gyms ==> db.gyms[g].maxCapacity > 0
  }

  /** Machine-booking ids are below their counter, which starts at 0. */
  predicate MachineBookingKeysBelow(db: Db) {
    0 <= db.nextMachineBooking && forall k :: k in db.machineBookings ==> 0 <= k < db.nextMachineBooking
  }

  /** Booking ids are below their counter. */
  predicate BookingKeysBelow(db: Db) {
    forall k :: k in db.bookings ==> 0 <= k < db.nextBooking
  }

  /** Machine ids are below their counter. */
  predicate MachineKeysBelow(db: Db) {
    forall m :: m in db.machines ==> 0 <= m < db.nextMachine
  }

  /** Ticket ids are below their counter, which starts at 0. */
  predicate TicketKeysBelow(db: Db) {
    0 <= db.nextTicket && forall k :: k in db.tickets ==> 0 <= k < db.nextTicket
  }

  /** The part of the store invariant that the reservation proofs use:
      booking and machine-booking ids are below their counters, every booking
      is a nonempty interval and every machine booking names a booking. */
  predicate Linked(db: Db) {
    MachineBookingKeysBelow(db)
    && 0 <= db.nextBooking
    && (forall k :: k in db.bookings ==> 0 <= k < db.nextBooking && db.bookings[k].start < db.bookings[k].end)
    && (forall k :: k in db.machineBookings ==> db.machineBookings[k].bookingId in db.bookings)
  }

  /** Ids are below their counters; rows refer to existing rows; every
      booking is a nonempty interval. */
  predicate Valid(db: Db) {
    CapacitiesPositive(db)
    && Linked(db)
    && MachineKeysBelow(db)
    && TicketKeysBelow(db)
    && (forall m :: m in db.machines ==> db.machines[m].gymId in db.gyms)
    && (forall m :: m in db.services ==> m in db.machines)
    && (forall k :: k in db.bookings ==> db.bookings[k].gymId in db.gyms)
    && (forall k :: k in db.machineBookings ==> db.machineBookings[k].machineId in db.machines)
  }

  /** Machine booking `k` belongs to a booking that still holds its slot. */
  predicate Live(db: Db, k: int)
    requires k in db.machineBookings
  {
    db.machineBookings[k].bookingId in db.bookings && Holding(db.bookings[db.machineBookings[k].bookingId].status)
  }

  /** Two live machine bookings of the same machine whose bookings intersect. */
  predicate Clash(db: Db, k1: int, k2: int)
    requires k1 in db.machineBookings && k2 in db.machineBookings
  {
    db.machineBookings[k1].machineId == db.machineBookings[k2].machineId
    && Live(db, k1) && Live(db, k2)
    && Intersect(db.bookings[db.machineBookings[k1].bookingId].start, db.bookings[db.machineBookings[k1].bookingId].end,
                 db.bookings[db.machineBookings[k2].bookingId].start, db.bookings[db.machineBookings[k2].bookingId].end)
  }

  /** No machine is reserved twice for intersecting holding bookings: the
      property the per-machine availability queries exist to keep. */
  predicate Exclusive(db: Db) {
    forall k1, k2 :: k1 in db.machineBookings && k2 in db.machineBookings && k1 != k2 ==> !Clash(db, k1, k2)
  }

  /** Occupancy never exceeds capacity. */
  predicate WithinCapacity(db: Db) {
    forall g :: g in db.gyms ==> db.gyms[g].currentUsers <= db.gyms[g].maxCapacity
  }

  // ---------------------------------------------------------------------
  // The two overlap tests
  // ---------------------------------------------------------------------

  /** The three-clause OR that the create, availability and add-machine
      queries use for a booking [bs, be) against a request [s, e). */
  predicate ThreeClause(bs: Instant, be: Instant, s: Instant, e: Instant) {
    (bs <= s && be > s) || (bs < e && be >= e) || (bs >= s && be <= e)
  }

  /** The two-clause test of the slot counts: `startTime ≤ end ∧ endTime > start`. */
  predicate TwoClause(bs: Instant, be: Instant, s: Instant, e: Instant) {
    bs <= e && be > s
  }

  /** Half-open intervals that share an instant. */
  predicate Intersect(bs: Instant, be: Instant, s: Instant, e: Instant) {
    bs < e && s < be
  }

  /** For a nonempty request and a nonempty booking the three clauses are
      exactly interval intersection. */
  lemma ThreeClauseIsIntersection(bs: Instant, be: Instant, s: Instant, e: Instant)
    requires s < e && bs < be
    ensures ThreeClause(bs, be, s, e) <==> Intersect(bs, be, s, e)
  {
  }

  /** Without a nonempty booking the equivalence fails: an empty booking
      inside the request is caught by the third clause. */
  lemma ThreeClauseCatchesEmptyBooking(s: Instant, e: Instant, t: Instant)
    requires s <= t <= e
    ensures ThreeClause(t, t, s, e)
  {
  }

  /** The two-clause test is intersection plus bookings that begin exactly
      when the request ends. */
  lemma TwoClauseIsIntersectionOrTouch(bs: Instant, be: Instant, s: Instant, e: Instant)
    ensures TwoClause(bs, be, s, e) <==> Intersect(bs, be, s, e) || (bs == e && be > s)
  {
  }

  /** So the two tests differ on a booking that starts at the request's end:
      the slot count includes it, the machine query does not. */
  lemma TwoAndThreeClauseDiffer(s: Instant, e: Instant, be: Instant)
    requires s < e < be
    ensures TwoClause(e, be, s, e) && !ThreeClause(e, be, s, e)
  {
  }

  /** On nonempty intervals the three-clause test is symmetric: the
      holder and the requester may swap roles. */
  lemma ThreeClauseSymmetric(bs: Instant, be: Instant, s: Instant, e: Instant)
    requires s < e && bs < be
    ensures ThreeClause(bs, be, s, e) <==> ThreeClause(s, e, bs, be)
  {
    ThreeClauseIsIntersection(bs, be, s, e);
    ThreeClauseIsIntersection(s, e, bs, be);
  }

  // ---------------------------------------------------------------------
  // Shared queries
  // ---------------------------------------------------------------------

  /** Entry `i` is the first of `hours` for the weekday. */
  predicate FirstFor(hours: seq<OpeningHours>, dayOfWeek: int, i: int) {
    0 <= i < |hours| && hours[i].dayOfWeek == dayOfWeek
    && forall j :: 0 <= j < i ==> hours[j].dayOfWeek != dayOfWeek
  }

  /** `openingHours.find` / `findFirst` by weekday: the first matching entry. */
  function FirstOpening(hours: seq<OpeningHours>, dayOfWeek: int): (r: Option<OpeningHours>)
    ensures r.Some? ==> r.value in hours && r.value.dayOfWeek == dayOfWeek
    ensures r.None? <==> forall i :: 0 <= i < |hours| ==> hours[i].dayOfWeek != dayOfWeek
  {
    if hours == [] then None
    else if hours[0].dayOfWeek == dayOfWeek then Some(hours[0])
    else FirstOpening(hours[1..], dayOfWeek)
  }

  /** The entry found is the first one for the weekday, and there is one
      exactly when some entry has that weekday. */
  lemma {:induction false} FirstOpeningIsFirst(hours: seq<OpeningHours>, dayOfWeek: int)
    ensures FirstOpening(hours, dayOfWeek).Some? <==> exists i :: FirstFor(hours, dayOfWeek, i)
    ensures forall i :: FirstFor(hours, dayOfWeek, i) ==> FirstOpening(hours, dayOfWeek) == Some(hours[i])
    decreases |hours|
  {
    if hours != [] {
      FirstOpeningIsFirst(hours[1..], dayOfWeek);
      if hours[0].dayOfWeek == dayOfWeek {
        assert FirstFor(hours, dayOfWeek, 0);
      } else {
        forall i | FirstFor(hours, dayOfWeek, i) ensures FirstFor(hours[1..], dayOfWeek, i - 1) {
          assert i > 0;
        }
        if exists i :: FirstFor(hours[1..], dayOfWeek, i) {
          var i :| FirstFor(hours[1..], dayOfWeek, i);
          assert FirstFor(hours, dayOfWeek, i + 1);
        }
      }
    }
  }

  /** The booking holding row `k` overlaps [s, e) by the three-clause test. */
  predicate HeldDuring(db: Db, k: int, s: Instant, e: Instant)
    requires k in db.bookings
  {
    Holding(db.bookings[k].status) && ThreeClause(db.bookings[k].start, db.bookings[k].end, s, e)
  }

  /** The conflict query of the create paths: a holding booking of the same
      user, in any gym, that overlaps by the three-clause test. */
  predicate UserConflict(db: Db, userId: string, s: Instant, e: Instant) {
    exists k :: k in db.bookings && db.bookings[k].userId == userId && HeldDuring(db, k, s, e)
  }

  /** Machine booking `k` belongs to a holding booking that overlaps [s, e). */
  predicate ReservesDuring(db: Db, k: int, s: Instant, e: Instant)
    requires k in db.machineBookings
  {
    db.machineBookings[k].bookingId in db.bookings && HeldDuring(db, db.machineBookings[k].bookingId, s, e)
  }

  /** The `machineBooking.findFirst` of the create and add paths: machine `m`
      is reserved by some overlapping holding booking, in any gym. */
  predicate MachineTaken(db: Db, m: int, s: Instant, e: Instant) {
    exists k :: k in db.machineBookings && db.machineBookings[k].machineId == m && ReservesDuring(db, k, s, e)
  }

  /** The `bookedMachineIds` set: machines of the machine bookings of the
      gym's holding bookings that overlap [s, e). */
  function BookedMachines(db: Db, gymId: int, s: Instant, e: Instant): (r: set<int>)
    ensures forall m :: m in r <==> exists k :: k in db.machineBookings && db.machineBookings[k].machineId == m
                                      && ReservesDuring(db, k, s, e)
                                      && db.bookings[db.machineBookings[k].bookingId].gymId == gymId
  {
    set k | k in db.machineBookings && ReservesDuring(db, k, s, e)
                && db.bookings[db.machineBookings[k].bookingId].gymId == gymId
          :: db.machineBookings[k].machineId
  }

  /** For a nonempty request on a store of nonempty bookings, a machine is
      booked exactly when a live reservation of a booking of the gym whose
      interval intersects the request names it. */
  lemma BookedMachinesIntersect(db: Db, gymId: int, s: Instant, e: Instant, m: int)
    requires Linked(db) && s < e
    ensures m in BookedMachines(db, gymId, s, e) <==>
      exists k :: k in db.machineBookings && db.machineBookings[k].machineId == m && Live(db, k)
        && db.bookings[db.machineBookings[k].bookingId].gymId == gymId
        && Intersect(db.bookings[db.machineBookings[k].bookingId].start, db.bookings[db.machineBookings[k].bookingId].end, s, e)
  {
    if m in BookedMachines(db, gymId, s, e) {
      var k :| k in db.machineBookings && db.machineBookings[k].machineId == m && ReservesDuring(db, k, s, e)
               && db.bookings[db.machineBookings[k].bookingId].gymId == gymId;
      var bk := db.bookings[db.machineBookings[k].bookingId];
      ThreeClauseIsIntersection(bk.start, bk.end, s, e);
    }
    if exists k :: k in db.machineBookings && db.machineBookings[k].machineId == m && Live(db, k)
        && db.bookings[db.machineBookings[k].bookingId].gymId == gymId
        && Intersect(db.bookings[db.machineBookings[k].bookingId].start, db.bookings[db.machineBookings[k].bookingId].end, s, e)
    {
      var k :| k in db.machineBookings && db.machineBookings[k].machineId == m && Live(db, k)
               && db.bookings[db.machineBookings[k].bookingId].gymId == gymId
               && Intersect(db.bookings[db.machineBookings[k].bookingId].start, db.bookings[db.machineBookings[k].bookingId].end, s, e);
      var bk := db.bookings[db.machineBookings[k].bookingId];
      ThreeClauseIsIntersection(bk.start, bk.end, s, e);
      assert ReservesDuring(db, k, s, e);
    }
  }

  /** A machine held in the gym by an overlapping booking is taken. */
  lemma BookedMachineIsTaken(db: Db, gymId: int, s: Instant, e: Instant, m: int)
    requires m in BookedMachines(db, gymId, s, e)
    ensures MachineTaken(db, m, s, e)
  {
    var k :| k in db.machineBookings && db.machineBookings[k].machineId == m && ReservesDuring(db, k, s, e)
             && db.bookings[db.machineBookings[k].bookingId].gymId == gymId;
  }

  /** The slot count: holding bookings of the gym meeting the two-clause test. */
  function CountTouching(db: Db, gymId: int, s: Instant, e: Instant): nat {
    var ks := set k | k in db.bookings && db.bookings[k].gymId == gymId && Holding(db.bookings[k].status)
                      && TwoClause(db.bookings[k].start, db.bookings[k].end, s, e);
    |ks|
  }

  /** Under Valid, an id-ordered query sees every booking row. */
  lemma RowsComplete(db: Db, k: int)
    requires Valid(db) && k in db.bookings
    ensures k in KeysBelow(db.bookings, db.nextBooking)
  {
  }

  /** The machine-booking rows of booking `b`, in id order (the `include` of
      a booking's machine bookings). */
  function MachineBookingsOf(db: Db, b: int): (ks: seq<int>)
    ensures forall i :: 0 <= i < |ks| ==> ks[i] in db.machineBookings && db.machineBookings[ks[i]].bookingId == b
    ensures forall k :: k in db.machineBookings && 0 <= k < db.nextMachineBooking && db.machineBookings[k].bookingId == b
                        ==> k in ks
    ensures forall i, j :: 0 <= i < j < |ks| ==> ks[i] < ks[j]
  {
    var all := KeysBelow(db.machineBookings, db.nextMachineBooking);
    var names: int -> bool := k => k in db.machineBookings && db.machineBookings[k].bookingId == b;
    FilterOrdered(all, names);
    Filter(all, names)
  }

  /** The machine-booking rows of booking `b`, in id order. */
  function BookingRows(db: Db, b: int): seq<MachineBooking> {
    var ks := MachineBookingsOf(db, b);
    seq(|ks|, i requires 0 <= i < |ks| => db.machineBookings[ks[i]])
  }

  /** The rows of a booking are exactly the stored machine bookings that
      name it. */
  lemma BookingRowsExact(db: Db, b: int, mb: MachineBooking)
    requires MachineBookingKeysBelow(db)
    ensures mb in BookingRows(db, b) <==>
      mb.bookingId == b && exists k :: k in db.machineBookings && db.machineBookings[k] == mb
  {
    var ks := MachineBookingsOf(db, b);
    var rows := BookingRows(db, b);
    if mb.bookingId == b && exists k :: k in db.machineBookings && db.machineBookings[k] == mb {
      var k :| k in db.machineBookings && db.machineBookings[k] == mb;
      assert k in ks;
      var i :| 0 <= i < |ks| && ks[i] == k;
      assert rows[i] == mb;
    }
    if mb in rows {
      var i :| 0 <= i < |rows| && rows[i] == mb;
      assert db.machineBookings[ks[i]] == mb;
    }
  }
}
