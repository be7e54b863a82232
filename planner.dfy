/**
 * The availability planner of the booking flow: with no date it lists the
 * open days of the next month; with a date it cuts that day's opening hours
 * into slots of at most an hour; with a start time and a duration it lists
 * the gym's free machines, grouped by category.
 */
module Planner {
  import opened Common
  import opened Tables
  import opened Traffic
  import opened Schema

  const MsPerHour: int := 3600000
  /** Slots shorter than 30 minutes are not offered. */
  const MinSlotMs: int := 1800000
  /** How many days ahead the date listing looks. */
  const DaysAhead: nat := 30

  /** The clock, as today's local day number and weekday (0 = Sunday). */
  datatype Calendar = Calendar(today: int, todayDayOfWeek: int)

  /** A requested date, as its local weekday and local midnight. */
  datatype SelectedDate = SelectedDate(dayOfWeek: int, midnight: Instant)

  datatype GymDetails = GymDetails(maxCapacity: int, currentUsers: int, capacityPercentage: int, traffic: Level)
  datatype DayInfo = DayInfo(dayOfWeek: int, openMin: int, closeMin: int, predicted: Level)
  datatype DateEntry = DateEntry(day: int, info: DayInfo)
  datatype Slot = Slot(start: Instant, end: Instant, availableCapacity: int, capacityPercentage: int,
                       isAvailable: bool, traffic: Level, possibleDurations: seq<int>)
  datatype SelectedSlot = SelectedSlot(start: Instant, end: Instant, duration: int, availableCapacity: int,
                                       capacityPercentage: int, traffic: Level)
  datatype MachineEntry = MachineEntry(id: int, name: string, category: Category, popularity: Popularity)
  /** `percentage` is None where the source computes 0/0 (a gym without
      eligible machines), which serialises as null. */
  datatype MachineSummary = MachineSummary(total: int, available: int, percentage: Option<int>, status: Availability)

  datatype Response =
    | OpenDates(gym: GymDetails, dates: seq<DateEntry>)
    | TimeSlots(gym: GymDetails, day: DayInfo, slots: seq<Slot>)
    | DayOnly(gym: GymDetails, day: DayInfo)
    | FreeMachines(gym: GymDetails, day: DayInfo, selected: SelectedSlot, machines: seq<MachineEntry>,
                   byType: map<Category, seq<MachineEntry>>, summary: MachineSummary)

  function Details(gym: Gym): GymDetails
    requires gym.maxCapacity > 0
  {
    var pct := CapacityPercentage(gym.currentUsers, gym.maxCapacity);
    GymDetails(gym.maxCapacity, gym.currentUsers, Round(pct), TrafficStatus(pct))
  }

  function DayOf(dayOfWeek: int, oh: OpeningHours): DayInfo {
    DayInfo(dayOfWeek, oh.openMin, oh.closeMin, PredictForDay(dayOfWeek))
  }

  // ---------------------------------------------------------------------
  // Open dates
  // ---------------------------------------------------------------------

  /** Day `i` from today, if the gym opens on its weekday. */
  function DateFor(gym: Gym, cal: Calendar, i: int): Option<DateEntry> {
    var dow := (cal.todayDayOfWeek + i) % 7;
    match FirstOpening(gym.openingHours, dow)
    case None => None
    case Some(oh) => Some(DateEntry(cal.today + i, DayOf(dow, oh)))
  }

  /** The open days among the first `n` days from today, in date order. */
  function DatesUpTo(gym: Gym, cal: Calendar, n: nat): seq<DateEntry> {
    if n == 0 then []
    else DatesUpTo(gym, cal, n - 1) + (match DateFor(gym, cal, n - 1) case None => [] case Some(d) => [d])
  }

  method AvailableDates(gym: Gym, cal: Calendar) returns (dates: seq<DateEntry>)
    ensures dates == DatesUpTo(gym, cal, DaysAhead)
  {
    dates := [];
    for i := 0 to DaysAhead
      invariant dates == DatesUpTo(gym, cal, i)
    {
      var dow := (cal.todayDayOfWeek + i) % 7;
      var oh := FirstOpening(gym.openingHours, dow);
      if oh.Some? {
        dates := dates + [DateEntry(cal.today + i, DayOf(dow, oh.value))];
      }
    }
  }

  /** Every listed date is one of the first `n` days, falls on an open
      weekday and carries that weekday's hours and predicted traffic. */
  lemma {:induction false} DatesSound(gym: Gym, cal: Calendar, n: nat, j: int)
    requires 0 <= j < |DatesUpTo(gym, cal, n)|
    ensures var d := DatesUpTo(gym, cal, n)[j];
      cal.today <= d.day < cal.today + n && DateFor(gym, cal, d.day - cal.today) == Some(d)
  {
    if j < |DatesUpTo(gym, cal, n - 1)| {
      DatesSound(gym, cal, n - 1, j);
    }
  }

  /** Every open day among the first `n` is listed. */
  lemma {:induction false} DatesComplete(gym: Gym, cal: Calendar, n: nat, i: int)
    requires 0 <= i < n && DateFor(gym, cal, i).Some?
    ensures DateFor(gym, cal, i).value in DatesUpTo(gym, cal, n)
  {
    if i < n - 1 {
      DatesComplete(gym, cal, n - 1, i);
    }
  }

  /** Dates are listed in strictly increasing order. */
  lemma {:induction false} DatesAscending(gym: Gym, cal: Calendar, n: nat)
    ensures forall a, b :: 0 <= a < b < |DatesUpTo(gym, cal, n)| ==>
      DatesUpTo(gym, cal, n)[a].day < DatesUpTo(gym, cal, n)[b].day
  {
    if n > 0 {
      DatesAscending(gym, cal, n - 1);
      var prev := DatesUpTo(gym, cal, n - 1);
      forall j | 0 <= j < |prev| ensures prev[j].day < cal.today + n - 1 {
        DatesSound(gym, cal, n - 1, j);
      }
    }
  }

  /** A gym open on every weekday lists every one of the days. */
  lemma {:induction false} OpenEveryDayListsAll(gym: Gym, cal: Calendar, n: nat)
    requires forall d :: 0 <= d < 7 ==> FirstOpening(gym.openingHours, d).Some?
    ensures |DatesUpTo(gym, cal, n)| == n
  {
    if n > 0 {
      OpenEveryDayListsAll(gym, cal, n - 1);
      assert DateFor(gym, cal, n - 1).Some?;
    }
  }

  // ---------------------------------------------------------------------
  // Time slots
  // ---------------------------------------------------------------------

  /** Everything a slot's figures depend on: the store, the gym, the
      selected weekday, its local midnight and the closing instant. */
  datatype SlotContext = SlotContext(db: Db, gymId: int, maxCapacity: int, dayOfWeek: int, midnight: Instant, close: Instant)

  /** One hour after `cur`, cut back to closing time. */
  function SlotEnd(cur: Instant, close: Instant): Instant {
    if cur + MsPerHour > close then close else cur + MsPerHour
  }

  /** The local hour of an instant of the selected day (`getHours`). */
  function HourOf(t: Instant, midnight: Instant): int {
    ((t - midnight) / MsPerHour) % 24
  }

  /** A slot's figures: the two-clause count of holding bookings, the spare
      capacity, and the observed tier combined with the hour's prediction. */
  function MakeSlot(ctx: SlotContext, s: Instant, e: Instant): Slot
    requires ctx.maxCapacity > 0
  {
    var n := CountTouching(ctx.db, ctx.gymId, s, e);
    var pct := CapacityPercentage(n, ctx.maxCapacity);
    Slot(s, e, ctx.maxCapacity - n, Round(pct), ctx.maxCapacity - n > 0,
         Combine(TrafficStatus(pct), PredictForTimeOfDay(HourOf(s, ctx.midnight), ctx.dayOfWeek)),
         PossibleDurations(s, ctx.close))
  }

  /** The slot [s, e), unless it is shorter than 30 minutes. */
  function Emit(ctx: SlotContext, s: Instant, e: Instant): seq<Slot>
    requires ctx.maxCapacity > 0
  {
    if e - s >= MinSlotMs then [MakeSlot(ctx, s, e)] else []
  }

  /** The slots from `cur` to closing: hour steps, the last one cut at
      closing and dropped when shorter than 30 minutes. */
  function SlotsFrom(ctx: SlotContext, cur: Instant): seq<Slot>
    requires ctx.maxCapacity > 0
    decreases ctx.close - cur
  {
    if cur >= ctx.close then []
    else Emit(ctx, cur, SlotEnd(cur, ctx.close)) + SlotsFrom(ctx, SlotEnd(cur, ctx.close))
  }

  method DaySlots(ctx: SlotContext, open: Instant) returns (slots: seq<Slot>)
    requires ctx.maxCapacity > 0
    ensures slots == SlotsFrom(ctx, open)
  {
    slots := [];
    var cur := open;
    while cur < ctx.close
      invariant SlotsFrom(ctx, open) == slots + SlotsFrom(ctx, cur)
      decreases ctx.close - cur
    {
      var e := cur + MsPerHour;
      if e > ctx.close {
        e := ctx.close;
      }
      ghost var before := slots;
      if e - cur >= MinSlotMs {
        slots := slots + [MakeSlot(ctx, cur, e)];
      }
      assert slots == before + Emit(ctx, cur, e);
      AppendAssoc(before, Emit(ctx, cur, e), SlotsFrom(ctx, e));
      cur := e;
    }
  }

  /** Slot i starts i hours after `cur`, lasts between 30 and 60 minutes,
      and ends one hour after its start or at closing, whichever is first. */
  lemma {:induction false} SlotShape(ctx: SlotContext, cur: Instant, i: int)
    requires ctx.maxCapacity > 0 && 0 <= i < |SlotsFrom(ctx, cur)|
    ensures var sl := SlotsFrom(ctx, cur)[i];
      sl.start == cur + i * MsPerHour && sl.end == SlotEnd(sl.start, ctx.close)
      && MinSlotMs <= sl.end - sl.start <= MsPerHour && sl.end <= ctx.close
    decreases ctx.close - cur
  {
    var e := SlotEnd(cur, ctx.close);
    if e < ctx.close && i > 0 {
      SlotShape(ctx, e, i - 1);
      assert SlotsFrom(ctx, cur)[i] == SlotsFrom(ctx, e)[i - 1];
    } else if e == ctx.close {
      assert SlotsFrom(ctx, e) == [];
    }
  }

  /** Every slot carries the spare capacity left by the two-clause count,
      is available exactly when some capacity is left, and offers the
      durations that fit before closing. */
  lemma {:induction false} SlotFigures(ctx: SlotContext, cur: Instant, i: int)
    requires ctx.maxCapacity > 0 && 0 <= i < |SlotsFrom(ctx, cur)|
    ensures var sl := SlotsFrom(ctx, cur)[i];
      && sl.availableCapacity == ctx.maxCapacity - CountTouching(ctx.db, ctx.gymId, sl.start, sl.end)
      && (sl.isAvailable <==> sl.availableCapacity > 0)
      && sl.possibleDurations == PossibleDurations(sl.start, ctx.close)
    decreases ctx.close - cur
  {
    var e := SlotEnd(cur, ctx.close);
    var head := Emit(ctx, cur, e);
    if i >= |head| {
      SlotFigures(ctx, e, i - |head|);
      assert SlotsFrom(ctx, cur)[i] == SlotsFrom(ctx, e)[i - |head|];
    }
  }

  /** Each slot starts where the previous one ended. */
  lemma SlotsConsecutive(ctx: SlotContext, cur: Instant, i: int)
    requires ctx.maxCapacity > 0 && 0 <= i && i + 1 < |SlotsFrom(ctx, cur)|
    ensures SlotsFrom(ctx, cur)[i + 1].start == SlotsFrom(ctx, cur)[i].end
  {
    SlotShape(ctx, cur, i);
    SlotShape(ctx, cur, i + 1);
  }

  /** The number of slots: one per whole hour of opening, plus one for a
      remainder of at least 30 minutes. */
  lemma {:induction false} SlotCount(ctx: SlotContext, cur: Instant)
    requires ctx.maxCapacity > 0
    ensures |SlotsFrom(ctx, cur)| ==
      if ctx.close <= cur then 0
      else (ctx.close - cur) / MsPerHour + (if (ctx.close - cur) % MsPerHour >= MinSlotMs then 1 else 0)
    decreases ctx.close - cur
  {
    if cur < ctx.close {
      var d := ctx.close - cur;
      var e := SlotEnd(cur, ctx.close);
      SlotCount(ctx, e);
      if d >= MsPerHour {
        assert (d - MsPerHour) / MsPerHour == d / MsPerHour - 1;
        assert (d - MsPerHour) % MsPerHour == d % MsPerHour;
      } else {
        assert d / MsPerHour == 0 && d % MsPerHour == d;
      }
    }
  }

  /** The session lengths a slot may offer, in minutes. */
  const StandardDurations: seq<int> := [30, 60, 90, 120]

  /** The standard durations that fit into the minutes left before closing,
      in ascending order; each is shown with its DurationLabel. */
  function PossibleDurations(start: Instant, close: Instant): seq<int> {
    FitDurations(StandardDurations, (close - start) / MsPerMinute)
  }

  function FitDurations(ds: seq<int>, maxMinutes: int): seq<int> {
    if ds == [] then []
    else (if ds[0] <= maxMinutes then [ds[0]] else []) + FitDurations(ds[1..], maxMinutes)
  }

  /** The offered durations are 30, 60, … minutes, as many of the four as
      fit before closing. */
  lemma PossibleDurationsFit(start: Instant, close: Instant)
    ensures var r := PossibleDurations(start, close);
      var k := (close - start) / MsPerMinute / 30;
      |r| == (if k < 0 then 0 else if k > 4 then 4 else k)
      && forall i :: 0 <= i < |r| ==> r[i] == 30 * (i + 1)
  {
    var m := (close - start) / MsPerMinute;
    var ds := StandardDurations;
    assert FitDurations(ds[4..], m) == [];
    assert FitDurations(ds[3..], m) == (if 120 <= m then [120] else []);
    assert FitDurations(ds[2..], m) == (if 90 <= m then [90] else []) + FitDurations(ds[3..], m);
    assert FitDurations(ds[1..], m) == (if 60 <= m then [60] else []) + FitDurations(ds[2..], m);
    assert FitDurations(ds, m) == (if 30 <= m then [30] else []) + FitDurations(ds[1..], m);
  }

  /** The label of a duration: "Xh" for whole hours and "Ymin" for the rest,
      joined by a space, an empty part left out and the result trimmed. */
  function DurationLabel(d: nat): string {
    Trim(HoursPart(d) + " " + MinutesPart(d))
  }

  function HoursPart(d: nat): string {
    if d >= 60 then NatToString(d / 60) + "h" else ""
  }

  function MinutesPart(d: nat): string {
    if d % 60 > 0 then NatToString(d % 60) + "min" else ""
  }

  lemma PartsPlain(d: nat)
    ensures NoWhitespace(HoursPart(d)) && NoWhitespace(MinutesPart(d))
  {
  }

  /** Trimming only removes the separator when a part is empty. */
  lemma LabelShape(d: nat)
    ensures DurationLabel(d) ==
      if HoursPart(d) == "" then MinutesPart(d)
      else if MinutesPart(d) == "" then HoursPart(d)
      else HoursPart(d) + " " + MinutesPart(d)
  {
    PartsPlain(d);
    TrimAroundSpace(HoursPart(d), MinutesPart(d));
  }

  /** Under an hour the label is the minutes alone ("30min"). */
  lemma LabelMinutes(d: nat)
    requires 0 < d < 60
    ensures DurationLabel(d) == NatToString(d) + "min"
  {
    LabelShape(d);
    MinutesOnly(d);
  }

  lemma MinutesOnly(d: nat)
    requires 0 < d < 60
    ensures HoursPart(d) == "" && MinutesPart(d) == NatToString(d) + "min"
  {
    assert d % 60 == d;
  }

  /** On whole hours the label is the hours alone ("1h", "2h"). */
  lemma LabelHours(d: nat)
    requires d > 0 && d % 60 == 0
    ensures DurationLabel(d) == NatToString(d / 60) + "h"
  {
    LabelShape(d);
    assert MinutesPart(d) == "";
  }

  /** Otherwise both parts, separated by one space ("1h 30min"). */
  lemma LabelBoth(d: nat)
    requires d > 60 && d % 60 > 0
    ensures DurationLabel(d) == NatToString(d / 60) + "h " + NatToString(d % 60) + "min"
  {
    LabelShape(d);
    BothParts(d);
  }

  lemma BothParts(d: nat)
    requires d > 60 && d % 60 > 0
    ensures HoursPart(d) + " " + MinutesPart(d) == NatToString(d / 60) + "h " + NatToString(d % 60) + "min"
    ensures HoursPart(d) != "" && MinutesPart(d) != ""
  {
  }

  // ---------------------------------------------------------------------
  // Free machines
  // ---------------------------------------------------------------------

  /** The gym's bookable machines (active, no service due), in id order. */
  function EligibleMachines(db: Db, gymId: int): (ids: seq<int>)
    ensures forall i :: 0 <= i < |ids| ==> ids[i] in db.machines
  {
    Filter(KeysBelow(db.machines, db.nextMachine),
           m => m in db.machines && db.machines[m].gymId == gymId
                && db.machines[m].status == Active && !db.machines[m].needService)
  }

  /** Machine booking `k` holds a machine of the gym's bookings during [s, e). */
  predicate Counts(db: Db, gymId: int, s: Instant, e: Instant, k: int) {
    k in db.machineBookings && ReservesDuring(db, k, s, e)
    && db.bookings[db.machineBookings[k].bookingId].gymId == gymId
  }

  /** The machines held by the machine bookings among `ks`. */
  function BookedAmong(db: Db, gymId: int, s: Instant, e: Instant, ks: seq<int>): set<int> {
    if ks == [] then {}
    else
      BookedAmong(db, gymId, s, e, ks[..|ks| - 1])
      + (if Counts(db, gymId, s, e, ks[|ks| - 1]) then {db.machineBookings[ks[|ks| - 1]].machineId} else {})
  }

  lemma {:induction false} BookedAmongMembers(db: Db, gymId: int, s: Instant, e: Instant, ks: seq<int>, m: int)
    ensures m in BookedAmong(db, gymId, s, e, ks) <==>
      exists j :: 0 <= j < |ks| && Counts(db, gymId, s, e, ks[j]) && db.machineBookings[ks[j]].machineId == m
  {
    if ks != [] {
      var init := ks[..|ks| - 1];
      BookedAmongMembers(db, gymId, s, e, init, m);
      if m in BookedAmong(db, gymId, s, e, init) {
        var j :| 0 <= j < |init| && Counts(db, gymId, s, e, init[j]) && db.machineBookings[init[j]].machineId == m;
        assert ks[j] == init[j];
      }
      if exists j :: 0 <= j < |ks| && Counts(db, gymId, s, e, ks[j]) && db.machineBookings[ks[j]].machineId == m {
        var j :| 0 <= j < |ks| && Counts(db, gymId, s, e, ks[j]) && db.machineBookings[ks[j]].machineId == m;
        if j < |init| {
          assert init[j] == ks[j];
        }
      }
    }
  }

  /** Walking all machine-booking rows collects exactly the booked set. */
  lemma BookedAmongAll(db: Db, gymId: int, s: Instant, e: Instant)
    requires MachineBookingKeysBelow(db)
    ensures BookedAmong(db, gymId, s, e, KeysBelow(db.machineBookings, db.nextMachineBooking)) == BookedMachines(db, gymId, s, e)
  {
    forall m
      ensures m in BookedAmong(db, gymId, s, e, KeysBelow(db.machineBookings, db.nextMachineBooking))
              <==> m in BookedMachines(db, gymId, s, e)
    {
      BookedAmongOne(db, gymId, s, e, m);
    }
  }

  lemma BookedAmongOne(db: Db, gymId: int, s: Instant, e: Instant, m: int)
    requires MachineBookingKeysBelow(db)
    ensures m in BookedAmong(db, gymId, s, e, KeysBelow(db.machineBookings, db.nextMachineBooking))
            <==> m in BookedMachines(db, gymId, s, e)
  {
    var ks := KeysBelow(db.machineBookings, db.nextMachineBooking);
    BookedAmongMembers(db, gymId, s, e, ks, m);
    if m in BookedMachines(db, gymId, s, e) {
      var k :| k in db.machineBookings && db.machineBookings[k].machineId == m && ReservesDuring(db, k, s, e)
               && db.bookings[db.machineBookings[k].bookingId].gymId == gymId;
      assert k in ks;
      var j :| 0 <= j < |ks| && ks[j] == k;
      assert Counts(db, gymId, s, e, ks[j]);
    }
  }

  lemma BookedAmongPrefix(db: Db, gymId: int, s: Instant, e: Instant, ks: seq<int>, i: int)
    requires 0 <= i < |ks|
    ensures BookedAmong(db, gymId, s, e, ks[..i + 1]) == BookedAmong(db, gymId, s, e, ks[..i])
      + (if Counts(db, gymId, s, e, ks[i]) then {db.machineBookings[ks[i]].machineId} else {})
  {
    assert ks[..i + 1][..i] == ks[..i];
  }

  /** The `bookedMachineIds` loop over the overlapping bookings' machines. */
  method CollectBooked(db: Db, gymId: int, s: Instant, e: Instant) returns (booked: set<int>)
    requires MachineBookingKeysBelow(db)
    ensures booked == BookedMachines(db, gymId, s, e)
  {
    var ks := KeysBelow(db.machineBookings, db.nextMachineBooking);
    booked := {};
    for i := 0 to |ks|
      invariant booked == BookedAmong(db, gymId, s, e, ks[..i])
    {
      BookedAmongPrefix(db, gymId, s, e, ks, i);
      var mb := db.machineBookings[ks[i]];
      if mb.bookingId in db.bookings {
        var b := db.bookings[mb.bookingId];
        if b.gymId == gymId && Holding(b.status) && ThreeClause(b.start, b.end, s, e) {
          booked := booked + {mb.machineId};
        }
      }
    }
    assert ks[..|ks|] == ks;
    BookedAmongAll(db, gymId, s, e);
  }

  function Entry(db: Db, m: int): MachineEntry
    requires m in db.machines
  {
    MachineEntry(m, db.machines[m].name, Categorize(db.machines[m].name), EquipmentPopularity(db.machines[m].uses))
  }

  /** The eligible machines that are not booked, with category and
      popularity, in id order. */
  function FreeEntries(db: Db, ids: seq<int>, booked: set<int>): (r: seq<MachineEntry>)
    requires forall i :: 0 <= i < |ids| ==> ids[i] in db.machines
    ensures |r| <= |ids|
  {
    if ids == [] then []
    else (if ids[0] !in booked then [Entry(db, ids[0])] else []) + FreeEntries(db, ids[1..], booked)
  }

  /** A machine is offered exactly when it is eligible and not booked. */
  lemma {:induction false} FreeEntriesExact(db: Db, ids: seq<int>, booked: set<int>, x: MachineEntry)
    requires forall i :: 0 <= i < |ids| ==> ids[i] in db.machines
    ensures x in FreeEntries(db, ids, booked) <==> x.id in ids && x.id !in booked && x == Entry(db, x.id)
  {
    if ids != [] {
      FreeEntriesExact(db, ids[1..], booked, x);
      if x.id in ids && x.id != ids[0] {
        var j :| 0 <= j < |ids| && ids[j] == x.id;
        assert ids[1..][j - 1] == x.id;
      }
    }
  }

  /** Ids already booked do not reduce the list twice: at least
      `|ids| - |booked|` machines are offered. The percentage of the summary
      uses `|booked|` itself, so it can understate what is offered when a
      booked machine is not eligible. */
  lemma {:induction false} FreeEntriesAtLeast(db: Db, ids: seq<int>, booked: set<int>)
    requires forall i :: 0 <= i < |ids| ==> ids[i] in db.machines
    requires forall i, j :: 0 <= i < j < |ids| ==> ids[i] != ids[j]
    ensures |FreeEntries(db, ids, booked)| >= |ids| - |booked|
  {
    if ids != [] {
      var x := ids[0];
      var tail := ids[1..];
      var rest := booked - {x};
      FreeEntriesAtLeast(db, tail, rest);
      FreeEntriesIgnoresAbsent(db, tail, booked, x);
    }
  }

  /** An id that does not occur among `ids` does not affect their entries. */
  lemma {:induction false} FreeEntriesIgnoresAbsent(db: Db, ids: seq<int>, booked: set<int>, x: int)
    requires forall i :: 0 <= i < |ids| ==> ids[i] in db.machines
    requires x !in ids
    ensures FreeEntries(db, ids, booked) == FreeEntries(db, ids, booked - {x})
  {
    if ids != [] {
      FreeEntriesIgnoresAbsent(db, ids[1..], booked, x);
    }
  }

  /** `machinesByType` built in list order: a group per category present. */
  function GroupByCategory(es: seq<MachineEntry>): map<Category, seq<MachineEntry>> {
    if es == [] then map[]
    else
      var g := GroupByCategory(es[..|es| - 1]);
      var x := es[|es| - 1];
      g[x.category := (if x.category in g then g[x.category] else []) + [x]]
  }

  method GroupMachines(es: seq<MachineEntry>) returns (byType: map<Category, seq<MachineEntry>>)
    ensures byType == GroupByCategory(es)
  {
    byType := map[];
    for i := 0 to |es|
      invariant byType == GroupByCategory(es[..i])
    {
      assert es[..i + 1][..i] == es[..i];
      var x := es[i];
      if x.category !in byType {
        byType := byType[x.category := []];
      }
      byType := byType[x.category := byType[x.category] + [x]];
    }
    assert es[..|es|] == es;
  }

  /** The filter "is in category c", as one function value. */
  function InCat(c: Category): MachineEntry -> bool {
    (x: MachineEntry) => x.category == c
  }

  /** There is a group for exactly the categories that occur. */
  lemma {:induction false} GroupKeys(es: seq<MachineEntry>, c: Category)
    ensures c in GroupByCategory(es) <==> exists i :: 0 <= i < |es| && es[i].category == c
  {
    if es != [] {
      var init := es[..|es| - 1];
      GroupKeys(init, c);
      if exists i :: 0 <= i < |init| && init[i].category == c {
        var i :| 0 <= i < |init| && init[i].category == c;
        assert es[i] == init[i];
      }
      if exists i :: 0 <= i < |es| && es[i].category == c {
        var i :| 0 <= i < |es| && es[i].category == c;
        if i < |init| {
          assert init[i] == es[i];
        }
      }
    }
  }

  /** Each group is its category's machines, in list order. */
  lemma {:induction false} GroupsAreFilters(es: seq<MachineEntry>, c: Category)
    requires c in GroupByCategory(es)
    ensures GroupByCategory(es)[c] == Filter(es, InCat(c))
  {
    var init := es[..|es| - 1];
    var x := es[|es| - 1];
    assert es == init + [x];
    FilterAppend(init, [x], InCat(c));
    assert Filter([x], InCat(c)) == if x.category == c then [x] else [];
    if c in GroupByCategory(init) {
      GroupsAreFilters(init, c);
    } else {
      GroupKeys(init, c);
      EmptyFilter(init, c);
    }
  }

  lemma {:induction false} EmptyFilter(es: seq<MachineEntry>, c: Category)
    requires forall i :: 0 <= i < |es| ==> es[i].category != c
    ensures Filter(es, InCat(c)) == []
  {
    if es != [] {
      EmptyFilter(es[1..], c);
    }
  }

  /** `(total - |booked|) / total · 100`; None for the 0/0 of a gym
      without eligible machines. */
  function MachinePercentage(total: int, bookedCount: int): Option<real> {
    if total == 0 then None else Some((total - bookedCount) as real / total as real * 100.0)
  }

  function Summary(total: int, available: int, bookedCount: int): MachineSummary {
    var pct := MachinePercentage(total, bookedCount);
    MachineSummary(total, available,
                   if pct.Some? then Some(Round(pct.value)) else None,
                   if pct.Some? then AvailabilityStatus(pct.value) else Scarce)
  }

  /** The selected slot, counted by the two-clause test. */
  function Selected(db: Db, gymId: int, gym: Gym, start: Instant, minutes: int): SelectedSlot
    requires gym.maxCapacity > 0
  {
    var end := start + minutes * MsPerMinute;
    var n := CountTouching(db, gymId, start, end);
    var pct := CapacityPercentage(n, gym.maxCapacity);
    SelectedSlot(start, end, minutes, gym.maxCapacity - n, Round(pct), TrafficStatus(pct))
  }

  /** The offered machines during [start, end). */
  function FreeList(db: Db, gymId: int, start: Instant, end: Instant): seq<MachineEntry> {
    FreeEntries(db, EligibleMachines(db, gymId), BookedMachines(db, gymId, start, end))
  }

  /** The machine step: the selected slot, the free machines by the
      three-clause test, their grouping and the summary. */
  function MachineView(db: Db, gymId: int, gym: Gym, details: GymDetails, day: DayInfo, start: Instant, minutes: int): Response
    requires gym.maxCapacity > 0
  {
    var end := start + minutes * MsPerMinute;
    var free := FreeList(db, gymId, start, end);
    FreeMachines(details, day, Selected(db, gymId, gym, start, minutes), free, GroupByCategory(free),
                 Summary(|EligibleMachines(db, gymId)|, |free|, |BookedMachines(db, gymId, start, end)|))
  }

  method MachineStep(db: Db, gymId: int, gym: Gym, details: GymDetails, day: DayInfo, start: Instant, minutes: int)
    returns (v: Response)
    requires MachineBookingKeysBelow(db) && gym.maxCapacity > 0
    ensures v == MachineView(db, gymId, gym, details, day, start, minutes)
  {
    var end := start + minutes * MsPerMinute;
    var eligible := EligibleMachines(db, gymId);
    var booked := CollectBooked(db, gymId, start, end);
    var free := FreeEntries(db, eligible, booked);
    assert free == FreeList(db, gymId, start, end);
    var byType := GroupMachines(free);
    assert byType == GroupByCategory(free);
    assert booked == BookedMachines(db, gymId, start, end);
    var sel := Selected(db, gymId, gym, start, minutes);
    var sum := Summary(|eligible|, |free|, |booked|);
    assert sum == Summary(|EligibleMachines(db, gymId)|, |FreeList(db, gymId, start, end)|, |BookedMachines(db, gymId, start, end)|);
    v := FreeMachines(details, day, sel, free, byType, sum);
  }

  /** `getAvailability`: route by which of date, start time and duration
      the request carries. */
  function Availability(db: Db, gymId: Option<int>, date: Option<SelectedDate>, startTime: Option<Instant>,
                        duration: Option<int>, cal: Calendar): Result<Response>
    requires CapacitiesPositive(db)
  {
    if !TruthyInt(gymId) then Err(BadRequest)
    else if gymId.value !in db.gyms then Err(NotFound)
    else
      var gym := db.gyms[gymId.value];
      var details := Details(gym);
      if date.None? then Ok(OpenDates(details, DatesUpTo(gym, cal, DaysAhead)))
      else
        var dow := date.value.dayOfWeek;
        match FirstOpening(gym.openingHours, dow)
        case None => Err(BadRequest)
        case Some(oh) =>
          var day := DayOf(dow, oh);
          var open := date.value.midnight + oh.openMin * MsPerMinute;
          var close := date.value.midnight + oh.closeMin * MsPerMinute;
          var ctx := SlotContext(db, gymId.value, gym.maxCapacity, dow, date.value.midnight, close);
          if startTime.None? then Ok(TimeSlots(details, day, SlotsFrom(ctx, open)))
          else if !TruthyInt(duration) then Ok(DayOnly(details, day))
          else if duration.value <= 0 then Err(BadRequest)
          else Ok(MachineView(db, gymId.value, gym, details, day, startTime.value, duration.value))
  }

  /** The request is refused for a missing gym id, an unknown gym, a
      closed weekday and a non-positive duration; otherwise the answer is
      the open dates, the day's slots, the day alone or the free machines,
      by which of date, start time and duration are given. */
  lemma AvailabilityOutcome(db: Db, gymId: Option<int>, date: Option<SelectedDate>, startTime: Option<Instant>,
                            duration: Option<int>, cal: Calendar)
    requires CapacitiesPositive(db)
    ensures var r := Availability(db, gymId, date, startTime, duration, cal);
      && (r == Err(BadRequest) <==>
            || !TruthyInt(gymId)
            || (gymId.value in db.gyms && date.Some? &&
                (|| FirstOpening(db.gyms[gymId.value].openingHours, date.value.dayOfWeek).None?
                 || (startTime.Some? && TruthyInt(duration) && duration.value < 0))))
      && (r == Err(NotFound) <==> TruthyInt(gymId) && gymId.value !in db.gyms)
      && (r.Ok? ==>
            && (date.None? <==> r.value.OpenDates?)
            && (date.Some? && startTime.None? <==> r.value.TimeSlots?)
            && (r.value.DayOnly? <==> date.Some? && startTime.Some? && !TruthyInt(duration))
            && (r.value.FreeMachines? <==> date.Some? && startTime.Some? && TruthyInt(duration)))
  {
  }

  method GetAvailability(db: Db, gymId: Option<int>, date: Option<SelectedDate>, startTime: Option<Instant>,
                         duration: Option<int>, cal: Calendar) returns (r: Result<Response>)
    requires CapacitiesPositive(db) && MachineBookingKeysBelow(db)
    ensures r == Availability(db, gymId, date, startTime, duration, cal)
  {
    if !TruthyInt(gymId) {
      return Err(BadRequest);
    }
    var g := gymId.value;
    if g !in db.gyms {
      return Err(NotFound);
    }
    var gym := db.gyms[g];
    var details := Details(gym);
    if date.None? {
      var dates := AvailableDates(gym, cal);
      return Ok(OpenDates(details, dates));
    }
    var dow := date.value.dayOfWeek;
    var oh := FirstOpening(gym.openingHours, dow);
    if oh.None? {
      return Err(BadRequest);
    }
    var day := DayOf(dow, oh.value);
    var open := date.value.midnight + oh.value.openMin * MsPerMinute;
    var close := date.value.midnight + oh.value.closeMin * MsPerMinute;
    if startTime.None? {
      var slots := DaySlots(SlotContext(db, g, gym.maxCapacity, dow, date.value.midnight, close), open);
      return Ok(TimeSlots(details, day, slots));
    }
    if !TruthyInt(duration) {
      return Ok(DayOnly(details, day));
    }
    var minutes := duration.value;
    if minutes <= 0 {
      return Err(BadRequest);
    }
    var v := MachineStep(db, g, gym, details, day, startTime.value, minutes);
    r := Ok(v);
  }

  /** The free-machine list names exactly the gym's active machines with no
      service due that no overlapping holding booking of the gym reserves. */
  lemma FreeListExact(db: Db, gymId: int, start: Instant, end: Instant, m: int)
    requires Valid(db) && m in db.machines
    ensures Entry(db, m) in FreeList(db, gymId, start, end) <==>
      db.machines[m].gymId == gymId && db.machines[m].status == Active && !db.machines[m].needService
      && m !in BookedMachines(db, gymId, start, end)
  {
    FreeEntriesExact(db, EligibleMachines(db, gymId), BookedMachines(db, gymId, start, end), Entry(db, m));
  }
}
