/**
 * The machine usage tracker: recording one use of a machine (use count,
 * service hours, the switch to out-of-service with an automatic ticket)
 * and listing the machines of a gym that are close to their service
 * interval.
 */
module Tracker {
  import opened Common
  import opened Tables
  import opened Schema
  import opened Storage
  import opened GymSchedule

  // ---------------------------------------------------------------------
  // updateMachineUsage
  // ---------------------------------------------------------------------

  /** The interval given to a service record the tracker creates. */
  const DefaultIntervalHours: real := 100.0

  /** The note of a service record the tracker creates. */
  const InitialNote: string := "Initial service record created automatically"

  /** The user that tracker tickets are opened for. */
  const SystemUser: string := "system"

  /** What `updateMachineUsage` reports about the machine. */
  datatype Usage = Usage(machineId: int, name: string, needsService: bool, updatedUsage: real)

  /** `updateMachineUsage` on a snapshot: the report (none for a missing
      machine) and the new snapshot. */
  function TrackSpec(db: Db, m: int, minutes: int, now: Instant): (Option<Usage>, Db) {
    if m !in db.machines then (None, db)
    else
      var mc := db.machines[m];
      var d1 := db.(machines := db.machines[m := mc.(uses := mc.uses + 1)]);
      var hours := minutes as real / 60.0;
      if m !in db.services then
        (Some(Usage(m, mc.name, false, hours)),
         d1.(services := d1.services[m := Service(DefaultIntervalHours, hours, now, Some(InitialNote))]))
      else
        var svc := db.services[m];
        var total := svc.totalHours + hours;
        var needs := total >= svc.intervalHours;
        var d2 := d1.(services := d1.services[m := svc.(totalHours := total)]);
        if needs && !mc.needService then
          var d3 := d2.(machines := d2.machines[m := d2.machines[m].(needService := true, status := Inactive)]);
          (Some(Usage(m, mc.name, needs, total)),
           InsertTicket(d3, Ticket(SystemUser, ServiceTitle(mc.name), Open, "service", Some(m), now)))
        else (Some(Usage(m, mc.name, needs, total)), d2)
  }

  /** The tracker on the store: each write is applied as it is made. */
  method UpdateMachineUsage(st: Store, m: int, minutes: int, now: Instant) returns (r: Option<Usage>)
    modifies st
    ensures (r, st.Snapshot()) == TrackSpec(old(st.Snapshot()), m, minutes, now)
  {
    if m !in st.machines {
      return None;
    }
    var mc := st.machines[m];
    st.machines := st.machines[m := mc.(uses := mc.uses + 1)];
    var hours := minutes as real / 60.0;
    if m !in st.services {
      st.services := st.services[m := Service(DefaultIntervalHours, hours, now, Some(InitialNote))];
      return Some(Usage(m, mc.name, false, hours));
    }
    var svc := st.services[m];
    var total := svc.totalHours + hours;
    var needs := total >= svc.intervalHours;
    st.services := st.services[m := svc.(totalHours := total)];
    if needs && !mc.needService {
      st.machines := st.machines[m := st.machines[m].(needService := true, status := Inactive)];
      st.tickets := st.tickets[st.nextTicket := Ticket(SystemUser, ServiceTitle(mc.name), Open, "service", Some(m), now)];
      st.nextTicket := st.nextTicket + 1;
    }
    return Some(Usage(m, mc.name, needs, total));
  }

  /** A missing machine is reported as none and nothing is written. */
  lemma TrackMissing(db: Db, m: int, minutes: int, now: Instant)
    ensures TrackSpec(db, m, minutes, now).0.None? <==> m !in db.machines
    ensures m !in db.machines ==> TrackSpec(db, m, minutes, now).1 == db
  {
  }

  /** A call on an existing machine adds exactly one use and keeps its name
      and gym. */
  lemma TrackUses(db: Db, m: int, minutes: int, now: Instant)
    requires m in db.machines
    ensures var r := TrackSpec(db, m, minutes, now).1;
      && m in r.machines && r.machines[m].uses == db.machines[m].uses + 1
      && r.machines[m].name == db.machines[m].name && r.machines[m].gymId == db.machines[m].gymId
  {
  }

  /** A call leaves the booking tables and the other counters alone. */
  lemma TrackFrame(db: Db, m: int, minutes: int, now: Instant)
    ensures var r := TrackSpec(db, m, minutes, now).1;
      && r.gyms == db.gyms && r.bookings == db.bookings && r.machineBookings == db.machineBookings
      && r.nextMachine == db.nextMachine && r.nextBooking == db.nextBooking
      && r.nextMachineBooking == db.nextMachineBooking
  {
  }

  /** A call leaves the other machines and service records alone. */
  lemma TrackOthers(db: Db, m: int, minutes: int, now: Instant)
    ensures var r := TrackSpec(db, m, minutes, now).1;
      && r.machines.Keys == db.machines.Keys
      && (forall x :: x in db.machines && x != m ==> r.machines[x] == db.machines[x])
      && (m in db.machines ==> r.services.Keys == db.services.Keys + {m})
      && (forall x :: x in db.services && x != m ==> x in r.services && r.services[x] == db.services[x])
  {
    TrackOtherMachines(db, m, minutes, now);
    TrackOtherServices(db, m, minutes, now);
  }

  /** A call leaves the other machines alone. */
  lemma TrackOtherMachines(db: Db, m: int, minutes: int, now: Instant)
    ensures var r := TrackSpec(db, m, minutes, now).1;
      && r.machines.Keys == db.machines.Keys
      && (forall x :: x in db.machines && x != m ==> r.machines[x] == db.machines[x])
  {
    if m in db.machines && m in db.services {
      var r := TrackSpec(db, m, minutes, now).1;
      assert r.machines == db.machines[m := r.machines[m]];
    }
  }

  /** A call leaves the other service records alone and adds the machine's
      if it had none. */
  lemma TrackOtherServices(db: Db, m: int, minutes: int, now: Instant)
    ensures var r := TrackSpec(db, m, minutes, now).1;
      && (m in db.machines ==> r.services.Keys == db.services.Keys + {m})
      && (forall x :: x in db.services && x != m ==> x in r.services && r.services[x] == db.services[x])
  {
    if m in db.machines && m in db.services {
      var r := TrackSpec(db, m, minutes, now).1;
      var svc := db.services[m];
      assert r.services == db.services[m := svc.(totalHours := svc.totalHours + minutes as real / 60.0)];
    }
  }

  /** Without a service record the call creates one with the default
      interval and the hours of this use, reports no service need and never
      takes the machine out of use or opens a ticket, whatever the hours. */
  lemma TrackCreatesRecord(db: Db, m: int, minutes: int, now: Instant)
    requires m in db.machines && m !in db.services
    ensures var (u, r) := TrackSpec(db, m, minutes, now);
      && u == Some(Usage(m, db.machines[m].name, false, minutes as real / 60.0))
      && m in r.services && r.services[m] == Service(DefaultIntervalHours, minutes as real / 60.0, now, Some(InitialNote))
      && m in r.machines && r.machines[m].status == db.machines[m].status
      && r.machines[m].needService == db.machines[m].needService
      && r.tickets == db.tickets && r.nextTicket == db.nextTicket
  {
  }

  /** With a service record the hours grow by exactly the hours of this use
      (so never shrink for a nonnegative use), the rest of the record stays,
      and the report gives the new total and whether it reached the interval. */
  lemma TrackAccumulates(db: Db, m: int, minutes: int, now: Instant)
    requires m in db.machines && m in db.services
    ensures var (u, r) := TrackSpec(db, m, minutes, now);
      var total := db.services[m].totalHours + minutes as real / 60.0;
      && m in r.services && r.services[m] == db.services[m].(totalHours := total)
      && (minutes >= 0 ==> r.services[m].totalHours >= db.services[m].totalHours)
      && u == Some(Usage(m, db.machines[m].name, total >= db.services[m].intervalHours, total))
  {
  }

  /** The machine is flagged and taken out of use, with one open service
      ticket for the system user, exactly when it has a service record whose
      new total reaches the interval and it was not flagged already;
      otherwise its flag, status and the tickets stay as they were. */
  lemma TrackFlips(db: Db, m: int, minutes: int, now: Instant)
    requires m in db.machines && TicketKeysBelow(db)
    ensures var r := TrackSpec(db, m, minutes, now).1;
      var flips := m in db.services
        && db.services[m].totalHours + minutes as real / 60.0 >= db.services[m].intervalHours
        && !db.machines[m].needService;
      && m in r.machines && TicketKeysBelow(r)
      && (flips ==>
            r.machines[m].needService && r.machines[m].status == Inactive
            && r.nextTicket == db.nextTicket + 1
            && r.tickets == db.tickets[db.nextTicket := Ticket(SystemUser, ServiceTitle(db.machines[m].name), Open, "service", Some(m), now)])
      && (!flips ==>
            r.machines[m].needService == db.machines[m].needService && r.machines[m].status == db.machines[m].status
            && r.tickets == db.tickets && r.nextTicket == db.nextTicket)
  {
    assert db.nextTicket !in db.tickets;
  }

  /** A reported service need leaves the machine flagged, so the next call
      on it opens no further ticket. */
  lemma TrackTicketsOnce(db: Db, m: int, minutes: int, now: Instant, minutes2: int, now2: Instant)
    requires m in db.machines && TicketKeysBelow(db)
    ensures var (u, r) := TrackSpec(db, m, minutes, now);
      var r2 := TrackSpec(r, m, minutes2, now2).1;
      u.Some? && u.value.needsService ==> r2.tickets == r.tickets && r2.nextTicket == r.nextTicket
  {
    TrackFlips(db, m, minutes, now);
    var r := TrackSpec(db, m, minutes, now).1;
    TrackFlips(r, m, minutes2, now2);
  }

  /** Where completing a booking and the tracker disagree on the same
      machine and use: completion opens a ticket when the machine is active,
      the tracker when it is not flagged; both when both hold. */
  lemma TrackVersusComplete(db: Db, u: string, mb: MachineBooking, now: Instant)
    requires mb.machineId in db.machines && mb.machineId in db.services
    requires db.services[mb.machineId].totalHours + mb.duration as real / 60.0 >= db.services[mb.machineId].intervalHours
    ensures UseMachine(db, u, mb, now).Ok?
    ensures UseMachine(db, u, mb, now).value.nextTicket == db.nextTicket + 1 <==> db.machines[mb.machineId].status == Active
    ensures TrackSpec(db, mb.machineId, mb.duration, now).1.nextTicket == db.nextTicket + 1 <==> !db.machines[mb.machineId].needService
  {
  }

  /** Completion opens its ticket for the booking's user, the tracker for
      the system user. */
  lemma TrackTicketUser(db: Db, u: string, mb: MachineBooking, now: Instant)
    requires mb.machineId in db.machines && mb.machineId in db.services && TicketKeysBelow(db)
    requires db.services[mb.machineId].totalHours + mb.duration as real / 60.0 >= db.services[mb.machineId].intervalHours
    requires db.machines[mb.machineId].status == Active && !db.machines[mb.machineId].needService
    ensures db.nextTicket in UseMachine(db, u, mb, now).value.tickets
    ensures UseMachine(db, u, mb, now).value.tickets[db.nextTicket].userId == u
    ensures db.nextTicket in TrackSpec(db, mb.machineId, mb.duration, now).1.tickets
    ensures TrackSpec(db, mb.machineId, mb.duration, now).1.tickets[db.nextTicket].userId == SystemUser
  {
  }

  /** Without a service record completion creates none, the tracker one. */
  lemma TrackVersusCompleteNoRecord(db: Db, u: string, mb: MachineBooking, now: Instant)
    requires mb.machineId in db.machines && mb.machineId !in db.services
    ensures UseMachine(db, u, mb, now).Ok? && mb.machineId !in UseMachine(db, u, mb, now).value.services
    ensures mb.machineId in TrackSpec(db, mb.machineId, mb.duration, now).1.services
  {
  }

  // ---------------------------------------------------------------------
  // checkMachinesForUpcomingService
  // ---------------------------------------------------------------------

  /** The rounded percentage of the interval used. A zero interval makes the
      JavaScript quotient infinite (positive hours) or not a number. */
  datatype Percent = Finite(value: int) | Infinite

  /** One entry of the result. */
  datatype Upcoming = Upcoming(machineId: int, name: string, percentageUsed: Percent, estimatedHoursRemaining: real)

  /** The machines the query looks at: in the gym, unflagged and active. */
  function Watched(db: Db, gymId: int): int -> bool {
    (m: int) => m in db.machines && db.machines[m].gymId == gymId
      && !db.machines[m].needService && db.machines[m].status == Active
  }

  /** `percentageUsed >= 80`, with the JavaScript outcome for a zero interval. */
  predicate Near(svc: Service) {
    if svc.intervalHours == 0.0 then svc.totalHours > 0.0
    else svc.totalHours / svc.intervalHours * 100.0 >= 80.0
  }

  /** `Math.round(percentageUsed)`. */
  function RoundedPercent(svc: Service): Percent {
    if svc.intervalHours == 0.0 then Infinite else Finite(Round(svc.totalHours / svc.intervalHours * 100.0))
  }

  /** The entry for a machine that has a service record. */
  function EntryOf(db: Db, m: int): Upcoming
    requires m in db.machines && m in db.services
  {
    var svc := db.services[m];
    Upcoming(m, db.machines[m].name, RoundedPercent(svc), svc.intervalHours - svc.totalHours)
  }

  /** The machine has a service record past 80% of its interval. */
  predicate Flagged(db: Db, m: int) {
    m in db.machines && m in db.services && Near(db.services[m])
  }

  /** The entries for the machines `ks`, in their order. */
  function EntriesFor(db: Db, ks: seq<int>): seq<Upcoming>
    decreases |ks|
  {
    if ks == [] then []
    else
      var k := ks[|ks| - 1];
      EntriesFor(db, ks[..|ks| - 1]) + (if Flagged(db, k) then [EntryOf(db, k)] else [])
  }

  /** The machines the query returns, in id order. */
  function Candidates(db: Db, gymId: int): seq<int> {
    Filter(KeysBelow(db.machines, db.nextMachine), Watched(db, gymId))
  }

  /** The query: reads the store and writes nothing. */
  method CheckMachinesForUpcomingService(st: Store, gymId: int) returns (r: seq<Upcoming>)
    ensures r == EntriesFor(st.Snapshot(), Candidates(st.Snapshot(), gymId))
  {
    var db := st.Snapshot();
    var ks := Candidates(db, gymId);
    r := [];
    var i := 0;
    while i < |ks|
      invariant 0 <= i <= |ks|
      invariant r == EntriesFor(db, ks[..i])
    {
      var m := ks[i];
      EntriesForSnoc(db, ks, i);
      if m in db.services && m in db.machines {
        var svc := db.services[m];
        if Near(svc) {
          var e := Upcoming(m, db.machines[m].name, RoundedPercent(svc), svc.intervalHours - svc.totalHours);
          assert Flagged(db, m) && e == EntryOf(db, m);
          r := r + [e];
        } else {
          assert !Flagged(db, m);
        }
      } else {
        assert !Flagged(db, m);
      }
      i := i + 1;
    }
    assert ks[..i] == ks;
  }

  /** Extending the machines by one extends the entries by that machine's. */
  lemma EntriesForSnoc(db: Db, ks: seq<int>, i: int)
    requires 0 <= i < |ks|
    ensures EntriesFor(db, ks[..i + 1]) == EntriesFor(db, ks[..i]) + (if Flagged(db, ks[i]) then [EntryOf(db, ks[i])] else [])
  {
    assert ks[..i + 1][..i] == ks[..i];
  }

  /** The entries are exactly those of the listed machines that are near
      their interval, each built from its own machine. */
  lemma {:induction false} EntriesForExact(db: Db, ks: seq<int>, e: Upcoming)
    ensures e in EntriesFor(db, ks) <==> exists i :: 0 <= i < |ks| && Flagged(db, ks[i]) && e == EntryOf(db, ks[i])
    decreases |ks|
  {
    if ks != [] {
      var n := |ks| - 1;
      EntriesForExact(db, ks[..n], e);
      if e in EntriesFor(db, ks) && e !in EntriesFor(db, ks[..n]) {
        assert Flagged(db, ks[n]) && e == EntryOf(db, ks[n]);
      }
      if e !in EntriesFor(db, ks) {
        forall i | 0 <= i < |ks| && Flagged(db, ks[i]) ensures e != EntryOf(db, ks[i]) {
          if i < n {
            assert ks[..n][i] == ks[i];
          }
        }
      } else if e in EntriesFor(db, ks[..n]) {
        var i :| 0 <= i < n && Flagged(db, ks[..n][i]) && e == EntryOf(db, ks[..n][i]);
        assert ks[i] == ks[..n][i];
      }
    }
  }

  /** The result lists exactly the gym's active, unflagged machines whose
      service record is at 80% of its interval or more; each entry gives the
      hours left before the interval. */
  lemma UpcomingExact(db: Db, gymId: int, e: Upcoming)
    requires MachineKeysBelow(db)
    ensures e in EntriesFor(db, Candidates(db, gymId)) <==>
      e.machineId in db.machines && Watched(db, gymId)(e.machineId) && Flagged(db, e.machineId)
      && e == EntryOf(db, e.machineId)
    ensures e in EntriesFor(db, Candidates(db, gymId)) ==>
      e.estimatedHoursRemaining == db.services[e.machineId].intervalHours - db.services[e.machineId].totalHours
  {
    var ks := Candidates(db, gymId);
    EntriesForExact(db, ks, e);
    FilterMember(KeysBelow(db.machines, db.nextMachine), Watched(db, gymId), e.machineId);
    if e in EntriesFor(db, ks) {
      var i :| 0 <= i < |ks| && Flagged(db, ks[i]) && e == EntryOf(db, ks[i]);
    }
    if e.machineId in db.machines && Watched(db, gymId)(e.machineId) && Flagged(db, e.machineId) && e == EntryOf(db, e.machineId) {
      assert e.machineId in ks;
      var i :| 0 <= i < |ks| && ks[i] == e.machineId;
    }
  }

  /** With a positive interval, "near" is "at least four fifths of the
      interval used", and the reported percentage is that share rounded. */
  lemma NearMeans(svc: Service)
    requires svc.intervalHours > 0.0
    ensures Near(svc) <==> 5.0 * svc.totalHours >= 4.0 * svc.intervalHours
    ensures Near(svc) ==> RoundedPercent(svc).Finite? && RoundedPercent(svc).value >= 80
  {
    var q := svc.totalHours / svc.intervalHours;
    assert q * svc.intervalHours == svc.totalHours;
    ScaleBy(q, 0.8, svc.intervalHours);
  }

  lemma ScaleBy(a: real, b: real, c: real)
    requires c > 0.0
    ensures a >= b <==> a * c >= b * c
  {
    if a >= b {
      assert (a - b) * c >= 0.0;
    } else {
      assert (b - a) * c > 0.0;
    }
  }
}
