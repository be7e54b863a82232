/**
 * The machine-service controller: the machines waiting for service,
 * marking a machine serviced, changing its service interval, the usage
 * statistics and the service tickets.
 */
module ServiceOps {
  import opened Common
  import opened Tables
  import opened Schema
  import opened Storage

  /** The interval of a service record created when a machine is serviced. */
  const DefaultIntervalHours: real := 100.0

  /** The note of a service record created when a machine is serviced. */
  const InitialServiceNote: string := "Initial service"

  /** The filter of an optional `gymId` query parameter. */
  predicate InGym(db: Db, gymId: Option<int>, m: int)
    requires m in db.machines
  {
    gymId.None? || db.machines[m].gymId == gymId.value
  }

  // ---------------------------------------------------------------------
  // getMachinesToService
  // ---------------------------------------------------------------------

  function Waiting(db: Db, gymId: Option<int>): int -> bool {
    (m: int) => m in db.machines && db.machines[m].needService && InGym(db, gymId, m)
  }

  /** `getMachinesToService`: the ids of the flagged machines, in id order. */
  function MachinesToService(db: Db, gymId: Option<int>): (r: seq<int>)
    ensures forall i, j :: 0 <= i < j < |r| ==> r[i] < r[j]
  {
    var ks := KeysBelow(db.machines, db.nextMachine);
    FilterOrdered(ks, Waiting(db, gymId));
    Filter(ks, Waiting(db, gymId))
  }

  /** The result holds exactly the flagged machines of the gym asked for (of
      every gym without one). */
  lemma MachinesToServiceExact(db: Db, gymId: Option<int>, m: int)
    requires MachineKeysBelow(db)
    ensures m in MachinesToService(db, gymId) <==>
      m in db.machines && db.machines[m].needService && (gymId.None? || db.machines[m].gymId == gymId.value)
  {
    FilterMember(KeysBelow(db.machines, db.nextMachine), Waiting(db, gymId), m);
  }

  // ---------------------------------------------------------------------
  // serviceMachine
  // ---------------------------------------------------------------------

  /** A ticket that servicing machine `m` closes when no ticket id is given. */
  predicate OpenServiceTicketOf(t: Ticket, m: int) {
    t.machineId == Some(m) && t.status == Open && t.ticketType == "service"
  }

  /** `tickets.updateMany` closing the open service tickets of machine `m`. */
  function CloseServiceTickets(ts: map<int, Ticket>, m: int): map<int, Ticket> {
    map k | k in ts :: if OpenServiceTicketOf(ts[k], m) then ts[k].(status := Closed) else ts[k]
  }

  /** The service record after servicing: reset hours and date, the notes
      given or the old ones; a new record if there was none. */
  function Serviced(old_: Option<Service>, notes: Option<string>, now: Instant): Service {
    match old_
    case Some(svc) => svc.(totalHours := 0.0, serviceDate := now, notes := if TruthyString(notes) then notes else svc.notes)
    case None => Service(DefaultIntervalHours, 0.0, now, if TruthyString(notes) then notes else Some(InitialServiceNote))
  }

  /** The service record of machine `m`, if any. */
  function RecordOf(db: Db, m: int): Option<Service> {
    if m in db.services then Some(db.services[m]) else None
  }

  /** `serviceMachine` on a snapshot. Closing a ticket id that does not exist
      fails inside the transaction, which then writes nothing. */
  function ServiceSpec(db: Db, machineId: Option<int>, notes: Option<string>, ticketId: Option<int>, now: Instant): Result<Db> {
    if machineId.None? then Err(BadRequest)
    else
      var m := machineId.value;
      if m !in db.machines then Err(NotFound)
      else if TruthyInt(ticketId) && ticketId.value !in db.tickets then Err(Internal)
      else
        var t1 := db.(machines := db.machines[m := db.machines[m].(needService := false, status := Active)],
                      services := db.services[m := Serviced(RecordOf(db, m), notes, now)]);
        if TruthyInt(ticketId) then
          Ok(t1.(tickets := t1.tickets[ticketId.value := t1.tickets[ticketId.value].(status := Closed)]))
        else Ok(t1.(tickets := CloseServiceTickets(t1.tickets, m)))
  }

  /** The handler: the writes go to a working copy committed at the end. */
  method ServiceMachine(st: Store, machineId: Option<int>, notes: Option<string>, ticketId: Option<int>, now: Instant)
    returns (r: Result<()>)
    modifies st
    ensures r.Ok? ==> ServiceSpec(old(st.Snapshot()), machineId, notes, ticketId, now) == Ok(st.Snapshot())
    ensures r.Err? ==>
      ServiceSpec(old(st.Snapshot()), machineId, notes, ticketId, now) == Err(r.error) && st.Snapshot() == old(st.Snapshot())
  {
    if machineId.None? {
      return Err(BadRequest);
    }
    var m := machineId.value;
    if m !in st.machines {
      return Err(NotFound);
    }
    var tx := st.Snapshot();
    var record := RecordOf(tx, m);
    tx := tx.(machines := tx.machines[m := tx.machines[m].(needService := false, status := Active)]);
    tx := tx.(services := tx.services[m := Serviced(record, notes, now)]);
    if TruthyInt(ticketId) {
      if ticketId.value !in tx.tickets {
        return Err(Internal);
      }
      tx := tx.(tickets := tx.tickets[ticketId.value := tx.tickets[ticketId.value].(status := Closed)]);
    } else {
      tx := tx.(tickets := CloseServiceTickets(tx.tickets, m));
    }
    st.Commit(tx);
    return Ok(());
  }

  /** Servicing fails only on a missing id (bad request), a missing machine
      (not found) or a ticket id that does not exist. */
  lemma ServiceOutcome(db: Db, machineId: Option<int>, notes: Option<string>, ticketId: Option<int>, now: Instant)
    ensures machineId.None? ==> ServiceSpec(db, machineId, notes, ticketId, now) == Err(BadRequest)
    ensures machineId.Some? && machineId.value !in db.machines ==> ServiceSpec(db, machineId, notes, ticketId, now) == Err(NotFound)
    ensures ServiceSpec(db, machineId, notes, ticketId, now).Ok? <==>
      machineId.Some? && machineId.value in db.machines && (TruthyInt(ticketId) ==> ticketId.value in db.tickets)
  {
  }

  /** A serviced machine is unflagged and active with its hours reset; an
      existing record keeps its interval, and its notes unless new ones are
      given; a missing record is created with the default interval. Other
      machines and records and the booking tables stay. */
  lemma ServiceResult(db: Db, machineId: Option<int>, notes: Option<string>, ticketId: Option<int>, now: Instant, r: Db)
    requires ServiceSpec(db, machineId, notes, ticketId, now) == Ok(r)
    ensures machineId.Some? && machineId.value in db.machines
    ensures var m := machineId.value;
      && r.machines == db.machines[m := db.machines[m].(needService := false, status := Active)]
      && m in r.services && r.services[m].totalHours == 0.0 && r.services[m].serviceDate == now
      && (m in db.services ==>
            r.services[m].intervalHours == db.services[m].intervalHours
            && r.services[m].notes == (if TruthyString(notes) then notes else db.services[m].notes))
      && (m !in db.services ==>
            r.services[m].intervalHours == DefaultIntervalHours
            && r.services[m].notes == (if TruthyString(notes) then notes else Some(InitialServiceNote)))
      && (forall x :: x in db.services && x != m ==> x in r.services && r.services[x] == db.services[x])
      && r.services.Keys == db.services.Keys + {m}
    ensures r.(machines := db.machines, services := db.services, tickets := db.tickets) == db
  {
  }

  /** Given a ticket id exactly that ticket is closed, whatever machine it is
      about; otherwise exactly the open service tickets of the machine are
      closed and every other ticket stays. */
  lemma ServiceTickets(db: Db, machineId: Option<int>, notes: Option<string>, ticketId: Option<int>, now: Instant, r: Db)
    requires ServiceSpec(db, machineId, notes, ticketId, now) == Ok(r)
    ensures TruthyInt(ticketId) ==>
      ticketId.value in db.tickets
      && r.tickets == db.tickets[ticketId.value := db.tickets[ticketId.value].(status := Closed)]
    ensures !TruthyInt(ticketId) ==>
      machineId.Some? && r.tickets.Keys == db.tickets.Keys
      && forall k :: k in db.tickets ==>
           r.tickets[k].status == (if OpenServiceTicketOf(db.tickets[k], machineId.value) then Closed else db.tickets[k].status)
           && r.tickets[k].(status := db.tickets[k].status) == db.tickets[k]
    ensures r.nextTicket == db.nextTicket
  {
  }

  /** After servicing, the machine has no open service ticket left unless a
      ticket id was given. */
  lemma ServiceClosesAll(db: Db, machineId: Option<int>, notes: Option<string>, now: Instant, r: Db)
    requires ServiceSpec(db, machineId, notes, None, now) == Ok(r)
    ensures machineId.Some? && forall k :: k in r.tickets ==> !OpenServiceTicketOf(r.tickets[k], machineId.value)
  {
  }

  /** Servicing again at the same moment, with no ticket id, changes nothing. */
  lemma ServiceIdempotent(db: Db, machineId: Option<int>, notes: Option<string>, now: Instant)
    requires ServiceSpec(db, machineId, notes, None, now).Ok?
    ensures var r := ServiceSpec(db, machineId, notes, None, now).value;
      ServiceSpec(r, machineId, notes, None, now) == Ok(r)
  {
    var r := ServiceSpec(db, machineId, notes, None, now).value;
    var m := machineId.value;
    var r2 := ServiceSpec(r, machineId, notes, None, now).value;
    assert r2.machines == r.machines;
    assert r2.services == r.services;
    assert r2.tickets == r.tickets;
  }

  // ---------------------------------------------------------------------
  // updateServiceInterval
  // ---------------------------------------------------------------------

  /** `updateServiceInterval` on a snapshot: a zero or missing interval is
      refused; a missing record is created with no hours and no notes. */
  function IntervalSpec(db: Db, machineId: Option<int>, hours: Option<real>, now: Instant): Result<Db> {
    if machineId.None? || !TruthyReal(hours) then Err(BadRequest)
    else if machineId.value !in db.machines then Err(NotFound)
    else
      var m := machineId.value;
      if m !in db.services then Ok(db.(services := db.services[m := Service(hours.value, 0.0, now, None)]))
      else Ok(db.(services := db.services[m := db.services[m].(intervalHours := hours.value)]))
  }

  /** The handler: a single write. */
  method UpdateServiceInterval(st: Store, machineId: Option<int>, hours: Option<real>, now: Instant) returns (r: Result<()>)
    modifies st
    ensures r.Ok? ==> IntervalSpec(old(st.Snapshot()), machineId, hours, now) == Ok(st.Snapshot())
    ensures r.Err? ==>
      IntervalSpec(old(st.Snapshot()), machineId, hours, now) == Err(r.error) && st.Snapshot() == old(st.Snapshot())
  {
    if machineId.None? || !TruthyReal(hours) {
      return Err(BadRequest);
    }
    var m := machineId.value;
    if m !in st.machines {
      return Err(NotFound);
    }
    if m !in st.services {
      st.services := st.services[m := Service(hours.value, 0.0, now, None)];
    } else {
      st.services := st.services[m := st.services[m].(intervalHours := hours.value)];
    }
    return Ok(());
  }

  /** Only the interval of the machine's record changes (a new record starts
      with no hours); the error cases are the missing arguments, a zero
      interval and a missing machine. */
  lemma IntervalOutcome(db: Db, machineId: Option<int>, hours: Option<real>, now: Instant)
    ensures IntervalSpec(db, machineId, hours, now).Ok? <==>
      machineId.Some? && hours.Some? && hours.value != 0.0 && machineId.value in db.machines
    ensures (machineId.None? || hours.None? || hours == Some(0.0)) ==> IntervalSpec(db, machineId, hours, now) == Err(BadRequest)
    ensures machineId.Some? && hours.Some? && hours.value != 0.0 && machineId.value !in db.machines ==>
      IntervalSpec(db, machineId, hours, now) == Err(NotFound)
    ensures IntervalSpec(db, machineId, hours, now).Ok? ==>
      var r := IntervalSpec(db, machineId, hours, now).value;
      var m := machineId.value;
      && r == db.(services := r.services)
      && m in r.services && r.services[m].intervalHours == hours.value
      && (m in db.services ==> r.services[m] == db.services[m].(intervalHours := hours.value))
      && (m !in db.services ==> r.services[m].totalHours == 0.0 && r.services[m].notes.None?)
      && (forall x :: x in db.services && x != m ==> x in r.services && r.services[x] == db.services[x])
  {
  }

  /** Servicing keeps the interval that was set. */
  lemma ServiceKeepsInterval(db: Db, m: int, hours: real, notes: Option<string>, ticketId: Option<int>, now: Instant, later: Instant)
    requires IntervalSpec(db, Some(m), Some(hours), now).Ok?
    requires ServiceSpec(IntervalSpec(db, Some(m), Some(hours), now).value, Some(m), notes, ticketId, later).Ok?
    ensures var r := ServiceSpec(IntervalSpec(db, Some(m), Some(hours), now).value, Some(m), notes, ticketId, later).value;
      m in r.services && r.services[m].intervalHours == hours && r.services[m].totalHours == 0.0
  {
    var d := IntervalSpec(db, Some(m), Some(hours), now).value;
    IntervalOutcome(db, Some(m), Some(hours), now);
    ServiceResult(d, Some(m), notes, ticketId, later, ServiceSpec(d, Some(m), notes, ticketId, later).value);
  }

  // ---------------------------------------------------------------------
  // getMachineUsageStats
  // ---------------------------------------------------------------------

  /** `Math.min(100, Math.round(total / interval * 100))` as JavaScript
      computes it: a zero interval gives 100 for positive hours, NaN for
      none and minus infinity for negative hours. */
  datatype Percentage = Number(value: int) | NaN | MinusInfinity

  /** One row of the statistics. */
  datatype Stat = Stat(id: int, name: string, totalUses: int, needsService: bool, lastServiceDate: Option<Instant>,
                       usageHoursSinceService: real, serviceIntervalHours: real, usagePercentage: Percentage)

  function Min(a: int, b: int): int {
    if a <= b then a else b
  }

  /** The usage percentage of a machine. */
  function UsagePercentage(svc: Option<Service>): (p: Percentage)
    ensures svc.None? ==> p == Number(0)
    ensures svc.Some? && svc.value.intervalHours != 0.0 ==>
      p.Number? && p.value <= 100 && (p.value < 100 ==> p.value == Round(svc.value.totalHours / svc.value.intervalHours * 100.0))
  {
    match svc
    case None => Number(0)
    case Some(s) =>
      if s.intervalHours != 0.0 then Number(Min(100, Round(s.totalHours / s.intervalHours * 100.0)))
      else if s.totalHours > 0.0 then Number(100)
      else if s.totalHours == 0.0 then NaN
      else MinusInfinity
  }

  /** The row of machine `m`. */
  function StatOf(db: Db, m: int): Stat
    requires m in db.machines
  {
    var mc := db.machines[m];
    var svc := RecordOf(db, m);
    Stat(m, mc.name, mc.uses, mc.needService,
         if svc.Some? then Some(svc.value.serviceDate) else None,
         if svc.Some? then svc.value.totalHours else 0.0,
         if svc.Some? then svc.value.intervalHours else 0.0,
         UsagePercentage(svc))
  }

  function ListedIn(db: Db, gymId: Option<int>): int -> bool {
    (m: int) => m in db.machines && InGym(db, gymId, m)
  }

  function ByUsesDesc(db: Db): int -> int {
    (m: int) => if m in db.machines then -db.machines[m].uses else 0
  }

  /** The machines of the statistics, most used first. */
  function StatMachines(db: Db, gymId: Option<int>): seq<int> {
    Sort(Filter(KeysBelow(db.machines, db.nextMachine), ListedIn(db, gymId)), ByUsesDesc(db))
  }

  /** `getMachineUsageStats`. */
  function UsageStats(db: Db, gymId: Option<int>): (r: seq<Stat>)
    ensures |r| == |StatMachines(db, gymId)|
    ensures forall i, j :: 0 <= i < j < |r| ==> r[i].totalUses >= r[j].totalUses
  {
    var ms := StatMachines(db, gymId);
    StatMachinesFacts(db, gymId);
    seq(|ms|, i requires 0 <= i < |ms| => StatOf(db, ms[i]))
  }

  /** The statistics machines exist and are in descending order of uses. */
  lemma StatMachinesFacts(db: Db, gymId: Option<int>)
    ensures var ms := StatMachines(db, gymId);
      && (forall i :: 0 <= i < |ms| ==> ms[i] in db.machines)
      && (forall i, j :: 0 <= i < j < |ms| ==> db.machines[ms[i]].uses >= db.machines[ms[j]].uses)
  {
    var f := Filter(KeysBelow(db.machines, db.nextMachine), ListedIn(db, gymId));
    var ms := StatMachines(db, gymId);
    forall i | 0 <= i < |ms| ensures ms[i] in db.machines {
      SortMember(f, ByUsesDesc(db), ms[i]);
    }
    assert SortedBy(ms, ByUsesDesc(db));
    forall i, j | 0 <= i < j < |ms| ensures db.machines[ms[i]].uses >= db.machines[ms[j]].uses {
      assert ByUsesDesc(db)(ms[i]) <= ByUsesDesc(db)(ms[j]);
    }
  }

  /** The statistics list every machine of the gym asked for (of every gym
      without one) once each. */
  lemma UsageStatsExact(db: Db, gymId: Option<int>, m: int)
    requires MachineKeysBelow(db)
    ensures m in StatMachines(db, gymId) <==> m in db.machines && (gymId.None? || db.machines[m].gymId == gymId.value)
    ensures multiset(StatMachines(db, gymId))[m] <= 1
  {
    var ks := KeysBelow(db.machines, db.nextMachine);
    var f := Filter(ks, ListedIn(db, gymId));
    SortMember(f, ByUsesDesc(db), m);
    FilterMember(ks, ListedIn(db, gymId), m);
    FilterOrdered(ks, ListedIn(db, gymId));
    DistinctCount(f, m);
  }

  /** A machine with a record below its interval is reported at the rounded
      share of its interval used; one at or past it at 100. */
  lemma UsagePercentageCapped(svc: Service)
    requires svc.intervalHours > 0.0
    ensures svc.totalHours >= svc.intervalHours ==> UsagePercentage(Some(svc)) == Number(100)
    ensures 0.0 <= svc.totalHours ==> UsagePercentage(Some(svc)).value >= 0
  {
    var q := svc.totalHours / svc.intervalHours;
    assert q * svc.intervalHours == svc.totalHours;
    if svc.totalHours >= svc.intervalHours {
      assert q >= 1.0;
    }
    if 0.0 <= svc.totalHours {
      assert q >= 0.0;
    }
  }

  // ---------------------------------------------------------------------
  // getServiceTickets
  // ---------------------------------------------------------------------

  /** The filter of `getServiceTickets`: service tickets, of the status asked
      for, about a machine of the gym asked for. */
  function Listed(db: Db, status: Option<TicketStatus>, gymId: Option<int>): int -> bool {
    (k: int) => k in db.tickets && db.tickets[k].ticketType == "service"
      && (status.None? || db.tickets[k].status == status.value)
      && (gymId.None? ||
            (db.tickets[k].machineId.Some? && db.tickets[k].machineId.value in db.machines
             && db.machines[db.tickets[k].machineId.value].gymId == gymId.value))
  }

  function NewestFirst(db: Db): int -> int {
    (k: int) => if k in db.tickets then -db.tickets[k].createdAt else 0
  }

  /** `getServiceTickets`: ticket ids, newest first. */
  function ServiceTicketIds(db: Db, status: Option<TicketStatus>, gymId: Option<int>): (r: seq<int>)
    ensures forall i :: 0 <= i < |r| ==> r[i] in db.tickets
    ensures forall i, j :: 0 <= i < j < |r| ==> db.tickets[r[i]].createdAt >= db.tickets[r[j]].createdAt
  {
    var f := Filter(KeysBelow(db.tickets, db.nextTicket), Listed(db, status, gymId));
    var r := Sort(f, NewestFirst(db));
    assert forall i :: 0 <= i < |f| ==> f[i] in db.tickets by {
      forall i | 0 <= i < |f| ensures f[i] in db.tickets {
        assert Listed(db, status, gymId)(f[i]);
      }
    }
    TicketsNewestFirst(db, f, r);
    r
  }

  /** Tickets sorted by the negated creation time are tickets, newest
      first. */
  lemma TicketsNewestFirst(db: Db, f: seq<int>, r: seq<int>)
    requires forall i :: 0 <= i < |f| ==> f[i] in db.tickets
    requires multiset(r) == multiset(f)
    requires forall i, j :: 0 <= i < j < |r| ==> NewestFirst(db)(r[i]) <= NewestFirst(db)(r[j])
    ensures forall i :: 0 <= i < |r| ==> r[i] in db.tickets
    ensures forall i, j :: 0 <= i < j < |r| ==> db.tickets[r[i]].createdAt >= db.tickets[r[j]].createdAt
  {
    forall i | 0 <= i < |r| ensures r[i] in db.tickets {
      assert r[i] in multiset(f);
      var m :| 0 <= m < |f| && f[m] == r[i];
    }
    forall i, j | 0 <= i < j < |r| ensures db.tickets[r[i]].createdAt >= db.tickets[r[j]].createdAt {
      assert NewestFirst(db)(r[i]) <= NewestFirst(db)(r[j]);
    }
  }

  /** The result holds exactly the service tickets with the status asked for
      whose machine is in the gym asked for. */
  lemma ServiceTicketIdsExact(db: Db, status: Option<TicketStatus>, gymId: Option<int>, k: int)
    requires TicketKeysBelow(db)
    ensures k in ServiceTicketIds(db, status, gymId) <==>
      k in db.tickets && db.tickets[k].ticketType == "service"
      && (status.None? || db.tickets[k].status == status.value)
      && (gymId.None? ||
            (db.tickets[k].machineId.Some? && db.tickets[k].machineId.value in db.machines
             && db.machines[db.tickets[k].machineId.value].gymId == gymId.value))
  {
    var ks := KeysBelow(db.tickets, db.nextTicket);
    var f := Filter(ks, Listed(db, status, gymId));
    SortMember(f, NewestFirst(db), k);
    FilterMember(ks, Listed(db, status, gymId), k);
  }
}
