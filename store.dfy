/**
 * The persistence store as a mutable object, and the row writes that the
 * booking transactions are made of. A transaction works on a snapshot and
 * commits it only when every step succeeded.
 */
module Storage {
  import opened Common
  import opened Tables
  import opened Schema

  class Store {
    var gyms: map<int, Gym>
    var machines: map<int, Machine>
    var services: map<int, Service>
    var bookings: map<int, Booking>
    var machineBookings: map<int, MachineBooking>
    var tickets: map<int, Ticket>
    var nextMachine: int
    var nextBooking: int
    var nextMachineBooking: int
    var nextTicket: int

    /** The tables as a value. */
    function Snapshot(): Db
      reads this
    {
      Db(gyms, machines, services, bookings, machineBookings, tickets,
         nextMachine, nextBooking, nextMachineBooking, nextTicket)
    }

    /** Make `d` the contents of the store. */
    method Commit(d: Db)
      modifies this
      ensures Snapshot() == d
    {
      gyms := d.gyms;
      machines := d.machines;
      services := d.services;
      bookings := d.bookings;
      machineBookings := d.machineBookings;
      tickets := d.tickets;
      nextMachine := d.nextMachine;
      nextBooking := d.nextBooking;
      nextMachineBooking := d.nextMachineBooking;
      nextTicket := d.nextTicket;
    }
  }

  /** `gymBooking.create`: the row gets the next booking id. */
  function InsertBooking(db: Db, b: Booking): Db {
    db.(bookings := db.bookings[db.nextBooking := b], nextBooking := db.nextBooking + 1)
  }

  /** `machineBooking.create`: the row gets the next machine-booking id. */
  function InsertMachineBooking(db: Db, mb: MachineBooking): Db {
    db.(machineBookings := db.machineBookings[db.nextMachineBooking := mb],
        nextMachineBooking := db.nextMachineBooking + 1)
  }

  /** `tickets.create`: the row gets the next ticket id. */
  function InsertTicket(db: Db, t: Ticket): Db {
    db.(tickets := db.tickets[db.nextTicket := t], nextTicket := db.nextTicket + 1)
  }

  /** `gym.update` of `currnt_users` by `delta`; updating a missing row fails. */
  function AdjustUsers(db: Db, g: int, delta: int): Result<Db> {
    if g !in db.gyms then Err(Internal)
    else Ok(db.(gyms := db.gyms[g := db.gyms[g].(currentUsers := db.gyms[g].currentUsers + delta)]))
  }

  /** `gymBooking.update` of the status; updating a missing row fails. */
  function SetStatus(db: Db, k: int, s: Status): Result<Db> {
    if k !in db.bookings then Err(Internal)
    else Ok(db.(bookings := db.bookings[k := db.bookings[k].(status := s)]))
  }

  /** Inserting `rs` one after the other. */
  function InsertAll(db: Db, rs: seq<MachineBooking>): Db
    decreases |rs|
  {
    if rs == [] then db else InsertAll(InsertMachineBooking(db, rs[0]), rs[1..])
  }

  /** Inserting rows one by one keys them consecutively from the counter,
      keeps every other row and touches no other table. */
  lemma {:induction false} InsertAllShape(db: Db, rs: seq<MachineBooking>)
    ensures var r := InsertAll(db, rs);
      && r.nextMachineBooking == db.nextMachineBooking + |rs|
      && r.(machineBookings := db.machineBookings, nextMachineBooking := db.nextMachineBooking) == db
      && (forall i :: 0 <= i < |rs| ==>
            db.nextMachineBooking + i in r.machineBookings && r.machineBookings[db.nextMachineBooking + i] == rs[i])
      && (forall k :: k in r.machineBookings <==>
                        k in db.machineBookings || db.nextMachineBooking <= k < db.nextMachineBooking + |rs|)
      && (forall k :: k in db.machineBookings && !(db.nextMachineBooking <= k < db.nextMachineBooking + |rs|) ==>
                        r.machineBookings[k] == db.machineBookings[k])
    decreases |rs|
  {
    if rs != [] {
      var n := db.nextMachineBooking;
      var db1 := InsertMachineBooking(db, rs[0]);
      InsertAllShape(db1, rs[1..]);
      var r := InsertAll(db, rs);
      assert r == InsertAll(db1, rs[1..]);
      forall i | 0 <= i < |rs|
        ensures n + i in r.machineBookings && r.machineBookings[n + i] == rs[i]
      {
        if i > 0 {
          assert rs[1..][i - 1] == rs[i];
        }
      }
    }
  }

  /** InsertAll keeps the machine-booking ids below their counter and the
      rows that were there. */
  lemma InsertAllKeysBelow(db: Db, rs: seq<MachineBooking>)
    requires MachineBookingKeysBelow(db)
    ensures MachineBookingKeysBelow(InsertAll(db, rs))
    ensures forall k :: k in db.machineBookings ==>
      k in InsertAll(db, rs).machineBookings && InsertAll(db, rs).machineBookings[k] == db.machineBookings[k]
  {
    InsertAllShape(db, rs);
    var r := InsertAll(db, rs);
    assert r.nextMachineBooking == db.nextMachineBooking + |rs|;
    forall k | k in r.machineBookings ensures 0 <= k < r.nextMachineBooking {
      assert k in db.machineBookings || db.nextMachineBooking <= k < db.nextMachineBooking + |rs|;
      if k in db.machineBookings {
        assert 0 <= k < db.nextMachineBooking;
      }
    }
  }

  /** Adding a nonempty booking keeps the store linked and adds no clash:
      the new booking has no reservations yet. */
  lemma InsertBookingKeeps(db: Db, bk: Booking)
    requires Linked(db) && bk.start < bk.end
    ensures Linked(InsertBooking(db, bk))
    ensures Exclusive(db) ==> Exclusive(InsertBooking(db, bk))
  {
    var t := InsertBooking(db, bk);
    assert db.nextBooking !in db.bookings;
    if Exclusive(db) {
      forall k1, k2 | k1 in t.machineBookings && k2 in t.machineBookings && k1 != k2
        ensures !Clash(t, k1, k2)
      {
        assert t.machineBookings[k1].bookingId != db.nextBooking;
        assert t.machineBookings[k2].bookingId != db.nextBooking;
        assert !Clash(db, k1, k2);
      }
    }
  }

  /** A reservation of a machine that is not taken during its booking
      clashes with no existing reservation. */
  lemma NoClashWithNew(tx: Db, mb: MachineBooking, k: int)
    requires Linked(tx) && mb.bookingId in tx.bookings && k in tx.machineBookings
    requires !MachineTaken(tx, mb.machineId, tx.bookings[mb.bookingId].start, tx.bookings[mb.bookingId].end)
    ensures var t := InsertMachineBooking(tx, mb);
      k in t.machineBookings && tx.nextMachineBooking in t.machineBookings
      && !Clash(t, tx.nextMachineBooking, k) && !Clash(t, k, tx.nextMachineBooking)
  {
    var t := InsertMachineBooking(tx, mb);
    var n := tx.nextMachineBooking;
    assert k != n;
    if Clash(t, n, k) || Clash(t, k, n) {
      assert false;
    }
  }

  /** Reserving a machine that is not taken during its booking keeps the
      store linked and the reservations exclusive. */
  lemma ReserveKeeps(tx: Db, mb: MachineBooking)
    requires Linked(tx) && Exclusive(tx) && mb.bookingId in tx.bookings
    requires !MachineTaken(tx, mb.machineId, tx.bookings[mb.bookingId].start, tx.bookings[mb.bookingId].end)
    ensures Linked(InsertMachineBooking(tx, mb)) && Exclusive(InsertMachineBooking(tx, mb))
  {
    var t := InsertMachineBooking(tx, mb);
    var n := tx.nextMachineBooking;
    forall k1, k2 | k1 in t.machineBookings && k2 in t.machineBookings && k1 != k2
      ensures !Clash(t, k1, k2)
    {
      if k1 == n {
        NoClashWithNew(tx, mb, k2);
      } else if k2 == n {
        NoClashWithNew(tx, mb, k1);
      } else {
        assert !Clash(tx, k1, k2);
      }
    }
  }
}
