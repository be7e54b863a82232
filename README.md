# Gym booking engine and social layer, in Dafny

This project models the core of a fitness-app backend:

- the gym-booking engine: availability, sessions, bookings, machine reservations, completion with usage tracking, and machine service;
- the social rules: challenges, follows, likes and comments;
- two small pure helpers: the profile's fitness totals and date gaps, and the profile-update check.

Each HTTP handler becomes a transition on a snapshot of the tables. The snapshot is a `Db` or a `Net` value, and each transition is a function returning `Result<...>`.

Where the source changes rows, a method on a mutable store carries the handler:

- `Storage.Store` holds the booking tables.
- `Community.Hub` holds the social tables.

Each such method is proved to commit exactly the state its function gives. On an error it leaves the store unchanged, which is how a rolled-back `$transaction` behaves. Loops in the source stay loops, and each is proved against its function:

- the 30-day date loop, the slot `while` loop, the grouping map, and the `bookedMachineIds` loops of both availability queries;
- the completion and reservation loops;
- the upcoming-service scan and `findDateGaps`.

Lemmas then state what the source promises about those functions:

- the guards, in order;
- the exact new state, with nothing else changed;
- inverses: follow then unfollow, like twice, send then withdraw, add then remove;
- the lists' membership, order and counts;
- the traffic ladders and combination;
- the slot geometry;
- the store invariants.

The store invariants are that every reservation points at a booking, and that no machine is reserved twice by intersecting live bookings. The session path (`createBooking`) keeps both. The other two booking paths keep the first but provably break the second: they can reserve a machine twice for intersecting bookings, and they can fill a gym past its capacity.

Modules, one per file:

- `Common`: results, errors, JavaScript truthiness, `Math.round`, `%`, `trim`, ASCII `toLowerCase`, `includes` and `String(n)`.
- `Tables`: id-ordered keys, filter, stable sort, skip/take, ceiling division.
- `Schema`: the booking tables, the overlap clauses, opening hours and booked machines.
- `Storage`: the `Store` class and row inserts.
- `Traffic`: the tier, label and category helpers.
- `Planner`: `getAvailability`.
- `SessionBooking`: `createBooking`.
- `GymSchedule`: `gymSchedule.controller.js`.
- `NewBooking`: `createNewBooking`.
- `Tracker`: `machineTracking.js`.
- `ServiceOps`: `machineService.controller.js`.
- `Summary`: `getBookingSummary`.
- `Community`: the `Hub` class, paging and newest-first ordering.
- `Challenges`, `Follows`, `Likes` and `Comments`: one module per social controller.
- `Profile`: fitness totals and date gaps.
- `UserService`: the profile-update check.

Where the intended design and the code differ, the model follows the code.

- Cancelling an already cancelled booking is not refused. It takes a second user off the gym (`GymSchedule.DoubleCancelDecrementsTwice`). The occupancy counter can therefore fall below the number of live bookings.
- Only `createBooking` checks capacity. `createGymBooking` and `createNewBooking` accept a full gym and can reserve a machine that is already held (`GymSchedule.CreateGymBookingIgnoresCapacity`, `GymSchedule.CreateGymBookingCanDoubleBook`, and the `NewBooking` counterparts).
- Slot occupancy uses a two-clause overlap test, so a booking that starts exactly at a slot's end is counted. Machine availability uses a three-clause test, which for nonempty intervals is plain intersection (`Schema.TwoAndThreeClauseDiffer`).
- Completion opens a service ticket when the machine is still active. The tracker opens one when the machine is not yet flagged, and for the user `"system"` (`Tracker.TrackVersusComplete`).

## Model

| member | source | states |
|---|---|---|
| Traffic.Ordinal | controllers/Gym_Schedule/bookingFlow.controller.js:665-670 | the weights of the four tiers lie in 1..4 |
| Traffic.TrafficStatusMonotone | controllers/Gym_Schedule/bookingFlow.controller.js:592-602 | a higher occupancy percentage never gives a lower traffic tier |
| Traffic.TrafficStatusBoundaries | controllers/Gym_Schedule/bookingFlow.controller.js:592-602 | 75, 50 and 25 per cent land on the higher tier; just under 25 is low |
| Traffic.TrafficOfOccupancy | controllers/Gym_Schedule/bookingFlow.controller.js:29-30 | the tier of `users / MaxCapacity · 100` is the tier decided on the integers by cross-multiplying |
| Traffic.PredictForDayTable | controllers/Gym_Schedule/bookingFlow.controller.js:625-641 | weekend high, Monday and Friday medium-high, Wednesday low, Tuesday and Thursday medium; no day above the weekend or below Wednesday |
| Traffic.PredictForTimeOfDayIgnoresDay | controllers/Gym_Schedule/bookingFlow.controller.js:646-659 | the hour prediction does not depend on the day argument |
| Traffic.PredictForTimeOfDayTable | controllers/Gym_Schedule/bookingFlow.controller.js:646-659 | high exactly at 6–8 and 17–19, medium-high exactly at 12–13, low exactly from 20 and before 6, medium otherwise |
| Traffic.CombineIsWeighted | controllers/Gym_Schedule/bookingFlow.controller.js:664-689 | the integer test `7a + 3p` against 35/25/15 gives the tier of the 0.7/0.3 weighted sum against 3.5/2.5/1.5 |
| Traffic.CombineIdempotent | controllers/Gym_Schedule/bookingFlow.controller.js:664-689 | combining a tier with itself gives that tier |
| Traffic.CombineMonotone | controllers/Gym_Schedule/bookingFlow.controller.js:664-689 | the combination is non-decreasing in both arguments |
| Traffic.CombineBetween | controllers/Gym_Schedule/bookingFlow.controller.js:664-689 | the combined tier lies between the two inputs and at most one tier from the observed one |
| Traffic.AvailabilityStatusMonotone | controllers/Gym_Schedule/bookingFlow.controller.js:694-704 | a higher free-machine percentage never gives a lower availability tier |
| Traffic.EquipmentPopularityMonotone | controllers/Gym_Schedule/bookingFlow.controller.js:709-719 | more uses never give a lower popularity tier |
| Traffic.CategorizeIgnoresCase | controllers/Gym_Schedule/bookingFlow.controller.js:563-565 | the category of a name equals the category of its lower-cased form |
| Traffic.CategorizeLegPress | controllers/Gym_Schedule/bookingFlow.controller.js:563-587 | "Leg Press" is strength: the first matching rule wins |
| Traffic.StrengthRuleFirst | controllers/Gym_Schedule/bookingFlow.controller.js:566-567 | any name mentioning "bench" or "press" is strength, whatever else it mentions |
| Traffic.CardioBeforeBack | controllers/Gym_Schedule/bookingFlow.controller.js:568-575 | a name mentioning "bike" and "row" but no strength keyword is cardio |
| Traffic.CategorizeOther | controllers/Gym_Schedule/bookingFlow.controller.js:584-586 | a name mentioning no keyword is "other" |
| Traffic.TrafficIndicatorInjective | controllers/Gym_Schedule/bookingFlow.controller.js:607-620 | different tiers get different indicators |
| Schema.ThreeClauseIsIntersection | controllers/Gym_Schedule/bookingFlow.controller.js:252-265 | for nonempty intervals the three-clause OR holds exactly when the intervals share an instant |
| Schema.ThreeClauseCatchesEmptyBooking | controllers/Gym_Schedule/bookingFlow.controller.js:262-263 | an empty booking inside the request still matches the third clause |
| Schema.TwoClauseIsIntersectionOrTouch | controllers/Gym_Schedule/bookingFlow.controller.js:141-148 | the two-clause count test is intersection or a booking that starts exactly at the slot's end |
| Schema.TwoAndThreeClauseDiffer | controllers/Gym_Schedule/bookingFlow.controller.js:145-146 | a booking starting at the request's end meets the two-clause test and not the three-clause one |
| Schema.ThreeClauseSymmetric | controllers/Gym_Schedule/bookingFlow.controller.js:252-265 | on nonempty intervals the three-clause test is symmetric in the two intervals |
| Schema.FirstOpeningIsFirst | controllers/Gym_Schedule/bookingFlow.controller.js:91-93 | an entry is found exactly when some entry has that weekday, and it is the first such entry of the gym's list |
| Schema.BookedMachinesIntersect | controllers/Gym_Schedule/bookingFlow.controller.js:273-278 | for a nonempty request on a store of nonempty bookings, a machine is booked exactly when a live reservation of a gym booking whose interval intersects the request names it |
| Schema.BookedMachineIsTaken | controllers/Gym_Schedule/bookingFlow.controller.js:453-472 | a machine booked in the gym during the interval is one the create path's `findFirst` rejects |
| Planner.AvailabilityOutcome | controllers/Gym_Schedule/bookingFlow.controller.js:13-15 | a missing gym id, a closed weekday and a negative duration are bad requests, an unknown gym is not found; otherwise the answer's shape follows which of date, start time and duration are given |
| Planner.GetAvailability | controllers/Gym_Schedule/bookingFlow.controller.js:10-320 | the handler answers exactly what the availability function specifies |
| Planner.AvailableDates | controllers/Gym_Schedule/bookingFlow.controller.js:49-84 | the 30-day loop lists exactly the open days its specification lists |
| Planner.DatesSound | controllers/Gym_Schedule/bookingFlow.controller.js:54-79 | every listed date is one of the next 30 days, on an open weekday, with that weekday's hours and predicted traffic |
| Planner.DatesComplete | controllers/Gym_Schedule/bookingFlow.controller.js:54-79 | every open day among the next 30 is listed |
| Planner.DatesAscending | controllers/Gym_Schedule/bookingFlow.controller.js:54-79 | the dates are listed in strictly increasing order |
| Planner.OpenEveryDayListsAll | controllers/Gym_Schedule/bookingFlow.controller.js:54-79 | a gym open on every weekday lists all 30 days |
| Planner.DaySlots | controllers/Gym_Schedule/bookingFlow.controller.js:117-187 | the slot loop terminates and emits exactly the slots its specification lists |
| Planner.SlotShape | controllers/Gym_Schedule/bookingFlow.controller.js:126-139 | slot i starts i hours after opening, lasts 30 to 60 minutes, ends one hour after its start or at closing, never after closing |
| Planner.SlotsConsecutive | controllers/Gym_Schedule/bookingFlow.controller.js:186 | each slot starts where the previous one ends |
| Planner.SlotCount | controllers/Gym_Schedule/bookingFlow.controller.js:128-139 | one slot per whole hour of opening plus one for a remainder of at least 30 minutes |
| Planner.SlotFigures | controllers/Gym_Schedule/bookingFlow.controller.js:141-182 | each slot's spare capacity is MaxCapacity less the two-clause count, it is available exactly when capacity is left, and it offers the durations that fit before closing |
| Planner.PossibleDurationsFit | controllers/Gym_Schedule/bookingFlow.controller.js:542-551 | the offered durations are 30, 60, 90, 120 in ascending order, as many as fit in the whole minutes left |
| Planner.LabelShape | controllers/Gym_Schedule/bookingFlow.controller.js:552-556 | the trimmed label is the hours part, the minutes part, or both joined by one space |
| Planner.LabelMinutes | controllers/Gym_Schedule/bookingFlow.controller.js:552-556 | under an hour the label is the minutes alone ("30min") |
| Planner.LabelHours | controllers/Gym_Schedule/bookingFlow.controller.js:552-556 | on whole hours the label is the hours alone ("1h", "2h") |
| Planner.LabelBoth | controllers/Gym_Schedule/bookingFlow.controller.js:552-556 | otherwise both parts, as in "1h 30min" |
| Planner.CollectBooked | controllers/Gym_Schedule/bookingFlow.controller.js:273-278 | the loop over the overlapping bookings' machine bookings collects exactly the booked set |
| Planner.BookedAmongAll | controllers/Gym_Schedule/bookingFlow.controller.js:273-278 | walking every machine-booking row in id order collects the booked set |
| Planner.FreeEntriesExact | controllers/Gym_Schedule/bookingFlow.controller.js:286-295 | a machine is offered exactly when it is eligible, not booked, and shown with its category and popularity |
| Planner.FreeEntriesAtLeast | controllers/Gym_Schedule/bookingFlow.controller.js:281-287 | at least as many machines are offered as the eligible count less the booked count |
| Planner.FreeEntriesIgnoresAbsent | controllers/Gym_Schedule/bookingFlow.controller.js:286-287 | a booked id that is not among the gym's eligible machines changes nothing in the list |
| Planner.GroupMachines | controllers/Gym_Schedule/bookingFlow.controller.js:298-304 | the grouping loop builds exactly the specified category map |
| Planner.GroupKeys | controllers/Gym_Schedule/bookingFlow.controller.js:298-304 | there is a group for exactly the categories that occur |
| Planner.GroupsAreFilters | controllers/Gym_Schedule/bookingFlow.controller.js:298-304 | each group holds its category's machines in list order |
| Planner.MachineStep | controllers/Gym_Schedule/bookingFlow.controller.js:194-314 | the machine step answers exactly its specification: the selected slot, the free machines, their groups and the summary |
| Planner.FreeListExact | controllers/Gym_Schedule/bookingFlow.controller.js:239-295 | the free list names exactly the gym's active machines with no service due that no overlapping holding booking of the gym reserves |
| SessionBooking.CreateBooking | controllers/Gym_Schedule/bookingFlow.controller.js:326-500 | the handler commits exactly the state the session specification gives and answers the new booking's id; on any error the store is unchanged |
| SessionBooking.AdmitMeans | controllers/Gym_Schedule/bookingFlow.controller.js:329-421 | an admitted request has all fields, an existing gym below capacity, a positive duration, a session inside the weekday's opening hours and no overlapping confirmed or pending booking of the user |
| SessionBooking.BookMachinesOutcome | controllers/Gym_Schedule/bookingFlow.controller.js:437-490 | the machine loop succeeds exactly when every selected machine exists, is active, needs no service and is not reserved by an overlapping holding booking, and no machine is selected twice; it then inserts one reservation per machine in order, and every failure is a bad request |
| SessionBooking.TakenAfterInsert | controllers/Gym_Schedule/bookingFlow.controller.js:453-489 | after reserving a machine for the session that machine counts as taken, and no other machine changes |
| SessionBooking.ReserveStep | controllers/Gym_Schedule/bookingFlow.controller.js:483-489 | one reservation keeps the loop's conditions and which machines are selectable |
| SessionBooking.TakenIgnoresNewBooking | controllers/Gym_Schedule/bookingFlow.controller.js:426-434 | the freshly created booking has no reservations yet and changes neither taken nor selectable machines |
| SessionBooking.CreateSessionOutcome | controllers/Gym_Schedule/bookingFlow.controller.js:329-500 | the request succeeds exactly when the validations pass, every selected machine is bookable and none is selected twice; after the validations every failure is a bad request |
| SessionBooking.DuplicateSelectionRejected | controllers/Gym_Schedule/bookingFlow.controller.js:438-480 | selecting the same machine twice fails, because the second check sees the first reservation |
| SessionBooking.CreateSessionResult | controllers/Gym_Schedule/bookingFlow.controller.js:424-497 | the new state holds the confirmed booking under the next id, one reservation per selected machine for the whole session, one more current user in the gym, and nothing else changed |
| SessionBooking.CreateSessionWithinCapacity | controllers/Gym_Schedule/bookingFlow.controller.js:360-364 | a successful booking never takes a gym past its maximum capacity |
| SessionBooking.BookMachinesExclusive | controllers/Gym_Schedule/bookingFlow.controller.js:437-490 | the machine loop never reserves a machine that an intersecting holding booking already reserves |
| SessionBooking.CreateSessionExclusive | controllers/Gym_Schedule/bookingFlow.controller.js:424-500 | a successful booking keeps the store linked and every machine reserved at most once by intersecting holding bookings |
| Storage.InsertAllShape | controllers/Gym_Schedule/bookingFlow.controller.js:483-489 | inserting reservation rows one by one keys them consecutively from the counter, keeps every earlier row and touches no other table |
| Storage.InsertAllKeysBelow | controllers/Gym_Schedule/bookingFlow.controller.js:483-489 | inserting rows keeps every machine-booking id below its counter and every earlier row |
| Storage.InsertBookingKeeps | controllers/Gym_Schedule/bookingFlow.controller.js:426-434 | creating a booking with a nonempty interval keeps the store linked and adds no clash, since it has no reservations yet |
| Storage.NoClashWithNew | controllers/Gym_Schedule/bookingFlow.controller.js:453-489 | a reservation of a machine not taken during its booking clashes with no existing reservation |
| Storage.ReserveKeeps | controllers/Gym_Schedule/bookingFlow.controller.js:453-489 | reserving a machine not taken during its booking keeps the store linked and the reservations exclusive |
| GymSchedule.CreateGymBooking | controllers/Gym_Schedule/gymSchedule.controller.js:11-113 | the handler commits exactly the state the specification gives and answers the new booking's id; on any error the store is unchanged |
| GymSchedule.MachineMinutesDefault | controllers/Gym_Schedule/gymSchedule.controller.js:99-100 | without its own duration a machine is reserved for the whole minutes of the session, rounded down |
| GymSchedule.BookListedOutcome | controllers/Gym_Schedule/gymSchedule.controller.js:75-104 | the machine loop succeeds exactly when every listed machine exists and needs no service, and then inserts the listed rows in order |
| GymSchedule.CreateGymBookingOutcome | controllers/Gym_Schedule/gymSchedule.controller.js:14-113 | the booking succeeds exactly when the fields are present, the gym exists, the interval is nonempty, the user has no overlapping booking and every listed machine exists and needs no service |
| GymSchedule.CreateGymBookingResult | controllers/Gym_Schedule/gymSchedule.controller.js:62-113 | the new state holds the confirmed booking under the next id, one reservation per listed machine with the duration rule, one more user in the gym, nothing else changed |
| GymSchedule.CreateGymBookingKeepsLinked | controllers/Gym_Schedule/gymSchedule.controller.js:62-113 | creating a booking keeps every reservation pointing at a stored booking and every booking a nonempty interval |
| GymSchedule.CreateGymBookingIgnoresCapacity | controllers/Gym_Schedule/gymSchedule.controller.js:11-113 | this path makes no capacity check: a full gym accepts the booking and goes over its capacity |
| GymSchedule.CreateGymBookingCanDoubleBook | controllers/Gym_Schedule/gymSchedule.controller.js:75-104 | this path does not check reservations: a machine held by an intersecting live booking is reserved again and exclusivity is lost |
| GymSchedule.UserBookings | controllers/Gym_Schedule/gymSchedule.controller.js:136-160 | the user's bookings come newest start first |
| GymSchedule.AllRowsExact | controllers/Gym_Schedule/gymSchedule.controller.js:146-160 | every stored booking appears once among all rows, with its own id |
| GymSchedule.UserBookingsExact | controllers/Gym_Schedule/gymSchedule.controller.js:139-160 | the result holds exactly the user's bookings, with the queried status when one is given |
| GymSchedule.BookingDetails | controllers/Gym_Schedule/gymSchedule.controller.js:165-186 | the details exist exactly for a stored booking, otherwise not found, and list only that booking's reservations |
| GymSchedule.CheckMachineAvailabilityExact | controllers/Gym_Schedule/gymSchedule.controller.js:337-396 | the query fails exactly on a missing parameter or an empty interval, and otherwise lists exactly the gym's machines that need no service and are not held during the interval, inactive ones included |
| GymSchedule.CheckMachines | controllers/Gym_Schedule/gymSchedule.controller.js:337-396 | the handler, with its nested loop for the booked set, returns exactly what the query specification gives |
| GymSchedule.CollectHeld | controllers/Gym_Schedule/gymSchedule.controller.js:385-389 | the nested loop over the overlapping bookings and their reservations collects exactly the booked set |
| GymSchedule.AddMachinesOf | controllers/Gym_Schedule/gymSchedule.controller.js:386-388 | the inner loop adds exactly the machines of one booking's reservations |
| GymSchedule.HeldByAll | controllers/Gym_Schedule/gymSchedule.controller.js:359-389 | the machines of the reservations of the overlapping bookings, found by id, are exactly the booked set |
| GymSchedule.BookedIsHeld | controllers/Gym_Schedule/gymSchedule.controller.js:359-389 | every booked machine belongs to a reservation of one of the overlapping bookings |
| GymSchedule.HeldIsBooked | controllers/Gym_Schedule/gymSchedule.controller.js:359-389 | every machine of a reservation of an overlapping booking is booked |
| GymSchedule.CancelBooking | controllers/Gym_Schedule/gymSchedule.controller.js:189-228 | the handler commits exactly the state the cancel specification gives; on any error the store is unchanged |
| GymSchedule.CancelOutcome | controllers/Gym_Schedule/gymSchedule.controller.js:193-225 | cancelling succeeds exactly for the caller's own booking that is not completed, and changes only its status and its gym's occupancy; the errors are not found, unauthenticated and bad request in that order |
| GymSchedule.DoubleCancelDecrementsTwice | controllers/Gym_Schedule/gymSchedule.controller.js:207-225 | an already cancelled booking can be cancelled again, which takes a second user off the gym |
| GymSchedule.ReleaseKeepsExclusive | controllers/Gym_Schedule/gymSchedule.controller.js:212-218 | a booking that stops holding its slot cannot create a clash |
| GymSchedule.CancelKeepsExclusive | controllers/Gym_Schedule/gymSchedule.controller.js:212-225 | cancelling keeps the reservations exclusive |
| GymSchedule.AddMachineToBooking | controllers/Gym_Schedule/gymSchedule.controller.js:404-500 | the handler writes exactly the state the add specification gives and answers the new row's id; on any error the store is unchanged |
| GymSchedule.OwnMachineIsTaken | controllers/Gym_Schedule/gymSchedule.controller.js:445-483 | a machine a confirmed booking already has counts as taken, so the duplicate check never decides |
| GymSchedule.AddMachineOutcome | controllers/Gym_Schedule/gymSchedule.controller.js:408-494 | adding succeeds exactly when both fields are given, the booking is confirmed and the machine exists, needs no service and is not held during the booking; it adds exactly one row |
| GymSchedule.AddMachineKeepsExclusive | controllers/Gym_Schedule/gymSchedule.controller.js:445-494 | adding keeps the reservations exclusive |
| GymSchedule.RemoveMachineFromBooking | controllers/Gym_Schedule/gymSchedule.controller.js:504-541 | the handler writes exactly the state the remove specification gives; on any error the store is unchanged |
| GymSchedule.RemoveMachineOutcome | controllers/Gym_Schedule/gymSchedule.controller.js:507-536 | removing succeeds exactly for a row of a confirmed booking, deletes that row only and keeps exclusivity |
| GymSchedule.AddThenRemove | controllers/Gym_Schedule/gymSchedule.controller.js:404-536 | removing the machine just added restores the store except for the counter |
| GymSchedule.UseStep | controllers/Gym_Schedule/gymSchedule.controller.js:254-316 | one loop iteration computes exactly the step function |
| GymSchedule.CompleteBooking | controllers/Gym_Schedule/gymSchedule.controller.js:231-334 | the handler commits exactly the state the completion specification gives; on any error the store is unchanged |
| GymSchedule.NoUsesNoHours | controllers/Gym_Schedule/gymSchedule.controller.js:254-281 | a machine with no reservations gets no hours |
| GymSchedule.StepFrame | controllers/Gym_Schedule/gymSchedule.controller.js:254-316 | one iteration touches only the machine, its service record and the tickets |
| GymSchedule.StepMachine | controllers/Gym_Schedule/gymSchedule.controller.js:256-298 | one iteration adds a use and the reserved hours, and takes the machine out of use once the hours reach the interval |
| GymSchedule.StepOnlyAtInterval | controllers/Gym_Schedule/gymSchedule.controller.js:256-298 | unless the machine has a record, its new total reaches the interval and it is active, the iteration only adds a use and opens no ticket |
| GymSchedule.StepAtInterval | controllers/Gym_Schedule/gymSchedule.controller.js:269-314 | when all three hold, the machine is flagged and made inactive, and one service ticket for it is opened under the next id |
| GymSchedule.StepTickets | controllers/Gym_Schedule/gymSchedule.controller.js:289-314 | one iteration opens at most one ticket, for an active machine it takes out of use, titled after the machine, for the booking's user |
| GymSchedule.UseAllFrame | controllers/Gym_Schedule/gymSchedule.controller.js:254-316 | the loop keeps the other tables, the machines and service records present, old tickets, and a machine's being out of use or flagged |
| GymSchedule.UseAllOk | controllers/Gym_Schedule/gymSchedule.controller.js:254-262 | the loop succeeds exactly when every reserved machine exists |
| GymSchedule.UseAllCounts | controllers/Gym_Schedule/gymSchedule.controller.js:254-281 | the loop adds one use per reservation and the reserved hours to each service record |
| GymSchedule.TicketFromTail | controllers/Gym_Schedule/gymSchedule.controller.js:289-314 | a service ticket of the rest of the loop is one of the whole loop |
| GymSchedule.TicketFromHead | controllers/Gym_Schedule/gymSchedule.controller.js:289-314 | the first iteration's ticket is a service ticket of the whole loop |
| GymSchedule.UseAllTickets | controllers/Gym_Schedule/gymSchedule.controller.js:289-314 | every ticket the loop opens is an open service ticket about a reserved machine that was active and ends out of use and flagged |
| GymSchedule.UseAllTicketsDistinct | controllers/Gym_Schedule/gymSchedule.controller.js:289-314 | no machine gets two tickets from one completion |
| GymSchedule.UseAllOutOfUse | controllers/Gym_Schedule/gymSchedule.controller.js:269-298 | a reserved machine whose hours reach the interval ends up out of use |
| GymSchedule.ReachesCons | controllers/Gym_Schedule/gymSchedule.controller.js:254-276 | some reservation brings the running total to the interval exactly when the first one does or a later one does from the total after the first |
| GymSchedule.FinalReaches | controllers/Gym_Schedule/gymSchedule.controller.js:254-276 | a reserved machine whose total ends at or past its interval reached it at one of its reservations |
| GymSchedule.UseAllMachineAt | controllers/Gym_Schedule/gymSchedule.controller.js:254-298 | after the loop each machine has one more use per reservation, and is flagged and inactive exactly when it was active, has a record, and a reservation brought its total to the interval; otherwise its status and flag are unchanged |
| GymSchedule.UseAllTicketFor | controllers/Gym_Schedule/gymSchedule.controller.js:289-314 | every machine the loop takes out of use gets a new ticket naming it |
| GymSchedule.CompleteOutcome | controllers/Gym_Schedule/gymSchedule.controller.js:234-328 | a missing booking is not found, an unconfirmed one a bad request, and a confirmed one completes exactly when its machines and gym exist |
| GymSchedule.CompleteRunsLoop | controllers/Gym_Schedule/gymSchedule.controller.js:252-328 | a successful completion ran the loop to the end and then only changed the booking and the gym |
| GymSchedule.CompleteBookings | controllers/Gym_Schedule/gymSchedule.controller.js:319-328 | completing marks the booking completed, takes one user off the gym and leaves the reservations alone |
| GymSchedule.CompleteMachines | controllers/Gym_Schedule/gymSchedule.controller.js:254-298 | completing adds the uses and hours of the reservations; a machine's status or flag changes only if it was active with a record that a reservation brought to its interval, and every such machine ends flagged and inactive |
| GymSchedule.CompleteMachineAfter | controllers/Gym_Schedule/gymSchedule.controller.js:252-298 | after completing, every machine is exactly its old self with the added uses, flagged and inactive exactly when the completion rule fired |
| GymSchedule.CompleteTickets | controllers/Gym_Schedule/gymSchedule.controller.js:289-314 | completing keeps old tickets; each new one is an open service ticket for the booking's user about a different reserved machine taken out of use, only for a machine the rule fired on, and every machine the rule fired on has one |
| GymSchedule.CompleteTicketsFired | controllers/Gym_Schedule/gymSchedule.controller.js:289-314 | every new ticket is about a machine the completion rule fired on |
| GymSchedule.CompleteTicketsCover | controllers/Gym_Schedule/gymSchedule.controller.js:289-314 | every machine the completion rule fired on has a new ticket |
| GymSchedule.CompleteServicesDue | controllers/Gym_Schedule/gymSchedule.controller.js:254-314 | a reserved machine that was active and whose total ends at or past its interval ends flagged and inactive with exactly one new ticket |
| GymSchedule.CompleteKeepsExclusive | controllers/Gym_Schedule/gymSchedule.controller.js:252-328 | completing keeps the store linked and the reservations exclusive |
| NewBooking.CreateNewBooking | controllers/Gym_Schedule/createBooking.js:9-119 | the handler commits exactly the state the specification gives and answers the new booking's id; on any error the store is unchanged |
| NewBooking.BookCheckedOutcome | controllers/Gym_Schedule/createBooking.js:64-110 | the machine loop succeeds exactly when every listed machine exists, is active and needs no service, inserts the same rows as the gym-schedule loop, and refuses an existing unusable machine as a bad request |
| NewBooking.NewBookingOutcome | controllers/Gym_Schedule/createBooking.js:12-119 | the booking succeeds exactly when the interval checks pass and every listed machine is usable; with every machine present a failure is a bad request |
| NewBooking.NewBookingIsGymBooking | controllers/Gym_Schedule/createBooking.js:9-119 | whenever this path succeeds the gym-schedule path gives the same new store |
| NewBooking.NewBookingKeepsLinked | controllers/Gym_Schedule/createBooking.js:9-119 | this path, too, keeps the store linked |
| NewBooking.NewBookingRefusesInactive | controllers/Gym_Schedule/createBooking.js:79-84 | a machine out of use but not flagged is refused here while the gym-schedule path reserves it |
| NewBooking.NewBookingIgnoresService | controllers/Gym_Schedule/createBooking.js:86-99 | the service records do not decide the outcome: the near-service warning only logs |
| NewBooking.NewBookingIgnoresCapacity | controllers/Gym_Schedule/createBooking.js:9-119 | no capacity check: a full gym accepts the booking and goes over capacity |
| NewBooking.NewBookingCanDoubleBook | controllers/Gym_Schedule/createBooking.js:64-110 | no reservation check: a machine held by an intersecting live booking is reserved again |
| Tracker.UpdateMachineUsage | controllers/Gym_Schedule/machineTracking.js:8-92 | the tracker's writes and report are exactly those of its specification on the store snapshot |
| Tracker.TrackMissing | controllers/Gym_Schedule/machineTracking.js:18-21 | a missing machine gives no report and writes nothing |
| Tracker.TrackUses | controllers/Gym_Schedule/machineTracking.js:23-27 | an existing machine gets exactly one more use and keeps its name and gym |
| Tracker.TrackFrame | controllers/Gym_Schedule/machineTracking.js:8-92 | the booking tables and the other counters are untouched |
| Tracker.TrackOthers | controllers/Gym_Schedule/machineTracking.js:8-92 | the other machines and service records are untouched; the machine gains a service record if it had none |
| Tracker.TrackCreatesRecord | controllers/Gym_Schedule/machineTracking.js:29-48 | without a record one is created with a 100-hour interval and this use's hours, and no service need is reported or acted on whatever the hours |
| Tracker.TrackAccumulates | controllers/Gym_Schedule/machineTracking.js:50-61 | with a record the hours grow by exactly this use's hours, and the report gives the new total and whether it reached the interval |
| Tracker.TrackFlips | controllers/Gym_Schedule/machineTracking.js:63-84 | the machine is flagged, taken out of use and given one open ticket for the system user exactly when the new total reaches the interval and it was not flagged; otherwise nothing of that changes |
| Tracker.TrackTicketsOnce | controllers/Gym_Schedule/machineTracking.js:64 | after a reported service need the next call on the machine opens no ticket |
| Tracker.TrackVersusComplete | controllers/Gym_Schedule/machineTracking.js:63-84 | on the same use past the interval, completion opens a ticket when the machine is active, the tracker when it is not flagged |
| Tracker.TrackTicketUser | controllers/Gym_Schedule/machineTracking.js:74-83 | the tracker's ticket is for the system user, completion's for the booking's user |
| Tracker.TrackVersusCompleteNoRecord | controllers/Gym_Schedule/machineTracking.js:29-39 | without a service record the tracker creates one and completion does not |
| Tracker.CheckMachinesForUpcomingService | controllers/Gym_Schedule/machineTracking.js:98-128 | the query writes nothing and returns exactly the entries its specification lists, in id order |
| Tracker.EntriesForSnoc | controllers/Gym_Schedule/machineTracking.js:110-125 | one more machine adds its entry exactly when it is near its interval |
| Tracker.EntriesForExact | controllers/Gym_Schedule/machineTracking.js:110-125 | the entries are exactly those of the listed machines near their interval |
| Tracker.UpcomingExact | controllers/Gym_Schedule/machineTracking.js:98-127 | the result lists exactly the gym's active, unflagged machines at 80% of their interval or more, with the hours left |
| Tracker.NearMeans | controllers/Gym_Schedule/machineTracking.js:113-120 | with a positive interval, near means four fifths of the interval used, and the rounded percentage is at least 80 |
| ServiceOps.MachinesToService | controllers/Gym_Schedule/machineService.controller.js:11-38 | the flagged machines are listed in ascending id order |
| ServiceOps.MachinesToServiceExact | controllers/Gym_Schedule/machineService.controller.js:15-31 | the list holds exactly the machines flagged for service, of the gym asked for or of every gym |
| ServiceOps.ServiceMachine | controllers/Gym_Schedule/machineService.controller.js:44-130 | the handler commits exactly the state the service specification gives; on any error the store is unchanged |
| ServiceOps.ServiceOutcome | controllers/Gym_Schedule/machineService.controller.js:48-112 | servicing fails only on a missing id (bad request), a missing machine (not found) or a ticket id that does not exist |
| ServiceOps.ServiceResult | controllers/Gym_Schedule/machineService.controller.js:63-95 | the machine is unflagged and active with its hours reset; an existing record keeps its interval and its notes unless new ones are given; a missing one is created with the default interval; nothing else changes |
| ServiceOps.ServiceTickets | controllers/Gym_Schedule/machineService.controller.js:97-112 | a given ticket id closes that ticket alone; otherwise exactly the machine's open service tickets are closed |
| ServiceOps.ServiceClosesAll | controllers/Gym_Schedule/machineService.controller.js:105-112 | without a ticket id no open service ticket of the machine remains |
| ServiceOps.ServiceIdempotent | controllers/Gym_Schedule/machineService.controller.js:63-112 | servicing again at the same moment changes nothing |
| ServiceOps.UpdateServiceInterval | controllers/Gym_Schedule/machineService.controller.js:137-178 | the handler writes exactly the state the interval specification gives; on any error the store is unchanged |
| ServiceOps.IntervalOutcome | controllers/Gym_Schedule/machineService.controller.js:141-175 | missing arguments or a zero interval are bad requests, a missing machine not found; otherwise only the interval of the machine's record changes, and a new record starts with no hours |
| ServiceOps.ServiceKeepsInterval | controllers/Gym_Schedule/machineService.controller.js:63-95 | servicing after setting an interval keeps that interval and resets the hours |
| ServiceOps.UsagePercentage | controllers/Gym_Schedule/machineService.controller.js:213-222 | no record gives 0; otherwise the rounded share of the interval used, capped at 100 |
| ServiceOps.UsagePercentageCapped | controllers/Gym_Schedule/machineService.controller.js:213-222 | a machine at or past its interval is reported at 100 and never below 0 with nonnegative hours |
| ServiceOps.UsageStats | controllers/Gym_Schedule/machineService.controller.js:192-223 | one row per listed machine, most used first |
| ServiceOps.StatMachinesFacts | controllers/Gym_Schedule/machineService.controller.js:192-202 | the listed machines exist and come in descending order of uses |
| ServiceOps.UsageStatsExact | controllers/Gym_Schedule/machineService.controller.js:186-202 | every machine of the gym asked for (or of every gym) is listed exactly once |
| ServiceOps.ServiceTicketIds | controllers/Gym_Schedule/machineService.controller.js:254-270 | the tickets exist and come newest first |
| ServiceOps.ServiceTicketIdsExact | controllers/Gym_Schedule/machineService.controller.js:240-270 | the list holds exactly the service tickets of the status asked for, about a machine of the gym asked for |
| Summary.SummaryGuards | controllers/Gym_Schedule/bookingsummry.js:13-58 | missing fields are a bad request, a missing booking not found and another user's booking unauthenticated, in that order; a summary is only given to the booking's own user |
| Summary.SummaryContents | controllers/Gym_Schedule/bookingsummry.js:60-131 | the summary is the booking's: its status, its length rounded to whole minutes, one entry per reservation in order with machine, duration and duration in words, and the two flags at the given moment |
| Summary.SplitMinutes | controllers/Gym_Schedule/bookingsummry.js:63-65 | a nonnegative number of minutes splits into whole hours and the minutes left over |
| Summary.FormattedEmpty | controllers/Gym_Schedule/bookingsummry.js:66-70 | the words are empty exactly for zero minutes |
| Summary.WordsShape | controllers/Gym_Schedule/bookingsummry.js:66-70 | the words are the hours part, the minutes part, both joined by " and ", or nothing, each number followed by its unit and an "s" above one |
| Summary.WordsBoth | controllers/Gym_Schedule/bookingsummry.js:66-70 | with hours and minutes the words are the hours, " and ", then the minutes |
| Summary.WordsHours | controllers/Gym_Schedule/bookingsummry.js:66-70 | with hours and no minutes the words are the hours alone |
| Summary.WordsMinutes | controllers/Gym_Schedule/bookingsummry.js:66-70 | with minutes and no hours the words are the minutes alone |
| Summary.DigitsPrefix | controllers/Gym_Schedule/bookingsummry.js:66-70 | a number written out followed by a text starting with a space can be read back |
| Summary.WordsInjective | controllers/Gym_Schedule/bookingsummry.js:66-70 | words that agree come from the same hours and minutes |
| Summary.HoursAgainstMinutes | controllers/Gym_Schedule/bookingsummry.js:66-70 | words with hours never read as minutes only |
| Summary.AndMinutesInjective | controllers/Gym_Schedule/bookingsummry.js:68-70 | the text after the hours' unit determines the minutes |
| Summary.HoursFirst | controllers/Gym_Schedule/bookingsummry.js:66-70 | with hours the words start with the hours and their unit |
| Summary.HoursWords | controllers/Gym_Schedule/bookingsummry.js:66-70 | with hours on both sides equal words mean equal hours and minutes |
| Summary.FormattedInjective | controllers/Gym_Schedule/bookingsummry.js:63-70 | durations in words can be read back: different nonnegative minutes give different words |
| Summary.ThirtyMinutes | controllers/Gym_Schedule/bookingsummry.js:69 | thirty minutes read "30 minutes" |
| Summary.FormattedHourAndHalf | controllers/Gym_Schedule/bookingsummry.js:63-70 | ninety minutes read "1 hour and 30 minutes" |
| Summary.FormattedTwoHours | controllers/Gym_Schedule/bookingsummry.js:63-70 | two hours read "2 hours" |
| Summary.FlagsOverTime | controllers/Gym_Schedule/bookingsummry.js:125-131 | an ended booking can be neither cancelled nor checked into; one that can be cancelled can be checked into exactly from a quarter of an hour before its start |
| Community.NewestFirst | controllers/community/commentController.js:86 | the ordering keeps exactly the given ids and puts them newest first |
| Community.PaginateMeans | controllers/community/commentController.js:62-102 | a page below 1 fails; otherwise the page holds at most limit consecutive ids from the skip, the total counts all ids, and the page count covers the total exactly |
| Community.PagesCover | controllers/community/commentController.js:96 | a page starts inside the list exactly when its number is at most `Math.ceil(total / limit)` |
| Community.PaginateOrdered | controllers/community/commentController.js:86-88 | a page of an ordered list is ordered, and the first page of a list that fits is the whole list |
| Community.ListingFacts | controllers/community/commentController.js:75-102 | a page of a ranked list holds only its members, in rank order, with the total counting them, and the first page of a list that fits holds all of them |
| Community.FilteredKeys | controllers/community/commentController.js:75-76 | the filtered ids are exactly the table's rows that match |
| Community.FilterCount | controllers/community/commentController.js:92-94 | the filtered ids are as many as the matching rows |
| Comments.CreateComment | controllers/community/commentController.js:10-56 | the handler writes exactly the state the create specification gives and answers the new id; on any error nothing changes |
| Comments.CreateOutcome | controllers/community/commentController.js:16-46 | writing succeeds exactly for a present post id and content on an existing post by an existing user, and adds that one comment under a fresh id; the errors are bad request and not found in that order |
| Comments.DeleteComment | controllers/community/commentController.js:114-146 | the handler writes exactly the state the delete specification gives; on any error nothing changes |
| Comments.DeleteOutcome | controllers/community/commentController.js:120-136 | deleting succeeds exactly for the author of an existing comment and removes that comment only; another user is unauthenticated |
| Comments.CreateThenDelete | controllers/community/commentController.js:31-136 | a comment just written can be deleted by its author, which restores the comments table |
| Comments.RankedMembers | controllers/community/commentController.js:75-89 | the ranked list holds exactly the post's comments, newest first |
| Comments.RankedLength | controllers/community/commentController.js:75-89 | ranking keeps the number of filtered comments |
| Comments.OnPostCount | controllers/community/commentController.js:92-94 | the filtered ids count the post's comments |
| Comments.OnPostSet | controllers/community/commentController.js:75-76 | the filter selects exactly the comments of the post |
| Comments.RankedCount | controllers/community/commentController.js:75-94 | the ranked list holds each of the post's comments once |
| Comments.ListMeans | controllers/community/commentController.js:59-103 | an unknown post is not found and a page below 1 fails; otherwise the total counts all of the post's comments and the page holds at most limit of them |
| Comments.ListMembers | controllers/community/commentController.js:59-103 | every comment listed belongs to the post |
| Comments.ListNewestFirst | controllers/community/commentController.js:59-103 | the comments listed are ordered newest first |
| Comments.ListWhole | controllers/community/commentController.js:59-103 | the first page of a post whose comments fit on it lists exactly those comments |
| Likes.Or | controllers/community/likeController.js:14-18 | the first truthy of two optional ids, absent when both are falsy |
| Likes.ToggleUserMeans | controllers/community/likeController.js:14-22 | the user is the first truthy spelling of the four, and the request is refused exactly when there is none |
| Likes.ToggleLike | controllers/community/likeController.js:10-83 | the handler writes exactly the state the toggle specification gives and answers its flag; on any error nothing changes |
| Likes.ToggleFlips | controllers/community/likeController.js:35-78 | toggling answers the opposite of whether the user had liked the post, leaves exactly that answer as the new state, and changes no other pair or table |
| Likes.ToggleErrors | controllers/community/likeController.js:20-72 | no user is a bad request, a missing post not found, and a like by an unknown user fails the insert |
| Likes.ToggleKeepsInvariants | controllers/community/likeController.js:35-72 | toggling keeps ids below the counter and at most one like per user and post |
| Likes.ToggleTwice | controllers/community/likeController.js:35-72 | liking and then unliking restores the likes table |
| Likes.StatusBeforeToggle | controllers/community/likeController.js:124-155 | the status asked with the same user is the opposite of the next toggle's flag |
| Likes.StatusMeans | controllers/community/likeController.js:124-155 | the status fails exactly without a user or for a missing post, and is true exactly when a like of the user on the post exists |
| Likes.LikesListed | controllers/community/likeController.js:86-116 | an unknown post is not found; otherwise the list holds exactly the post's likes |
| Likes.LikesCounted | controllers/community/likeController.js:113-116 | the count is the number of the post's likes |
| Follows.FollowUser | controllers/community/followController.js:6-66 | the handler writes exactly the state the follow specification gives; on any error nothing changes |
| Follows.FollowOutcome | controllers/community/followController.js:11-52 | following succeeds exactly for another, existing, not yet followed user when the current user exists, and adds exactly that pair; following oneself or again is a bad request, an unknown user not found |
| Follows.FollowKeepsInvariants | controllers/community/followController.js:6-104 | following and unfollowing keep ids below the counter, no self-follows and no duplicate pairs |
| Follows.UnfollowUser | controllers/community/followController.js:69-104 | the handler writes exactly the state the unfollow specification gives; on any error nothing changes |
| Follows.UnfollowOutcome | controllers/community/followController.js:75-91 | unfollowing succeeds exactly when the pair is present and deletes one row of it; with unique pairs the pair is then gone |
| Follows.NewPairFirst | controllers/community/followController.js:26-52 | right after a follow the first row of the pair is the new one |
| Follows.FollowThenUnfollow | controllers/community/followController.js:38-91 | following and then unfollowing leaves the pairs as they were |
| Follows.FollowerEntries | controllers/community/followController.js:111-125 | each entry of the followers list is the follower of its row |
| Follows.FollowersSound | controllers/community/followController.js:111-125 | every listed follower follows the user |
| Follows.FollowersComplete | controllers/community/followController.js:111-125 | every follower of the user is listed |
| Follows.FollowersMember | controllers/community/followController.js:111-125 | a user is listed exactly when they follow the user |
| Follows.FollowersCount | controllers/community/followController.js:125-130 | the count is the number of rows whose followed user is the user |
| Follows.FollowingEntries | controllers/community/followController.js:143-157 | each entry of the following list is the followed user of its row |
| Follows.FollowingSound | controllers/community/followController.js:143-157 | every listed user is followed by the user |
| Follows.FollowingComplete | controllers/community/followController.js:143-157 | every user the user follows is listed |
| Follows.FollowingMember | controllers/community/followController.js:143-157 | a user is listed exactly when the user follows them |
| Follows.FollowingCount | controllers/community/followController.js:157-162 | the count is the number of rows whose follower is the user |
| Challenges.SendChallenge | controllers/challenges/challengeController.js:10-76 | the handler writes exactly the state the send specification gives and answers the new id; on any error nothing changes |
| Challenges.SendOutcome | controllers/challenges/challengeController.js:17-49 | sending succeeds exactly when receiver, type and description are present, the kind's own parameter is given and both users exist; missing fields are a bad request, an unknown receiver not found |
| Challenges.SendResult | controllers/challenges/challengeController.js:40-49 | a sent challenge is a new pending row from the sender to the receiver under a fresh id, with a count only when count-based and a duration only when time-based; nothing else changes |
| Challenges.SendThenDelete | controllers/challenges/challengeController.js:40-298 | a challenge just sent can be withdrawn by its sender, restoring the challenges |
| Challenges.GetOutcome | controllers/challenges/challengeController.js:169-210 | a challenge is shown exactly to its sender and receiver; a missing one is not found |
| Challenges.UpdateChallengeStatus | controllers/challenges/challengeController.js:214-270 | the handler writes exactly the state the status specification gives and answers the updated row; on any error nothing changes |
| Challenges.StatusOutcome | controllers/challenges/challengeController.js:219-243 | an update succeeds exactly for a present status by the receiver, or by the sender setting COMPLETED, and changes that row's status and update time only |
| Challenges.SenderOnlyCompletes | controllers/challenges/challengeController.js:233-236 | a sender who is not the receiver can only complete |
| Challenges.ReopenThenDelete | controllers/challenges/challengeController.js:219-298 | no transition is checked: a completed challenge can be set back to pending and then withdrawn |
| Challenges.DeleteChallenge | controllers/challenges/challengeController.js:273-308 | the handler writes exactly the state the delete specification gives; on any error nothing changes |
| Challenges.DeleteOutcome | controllers/challenges/challengeController.js:282-298 | withdrawal succeeds exactly for the sender of a pending challenge and removes that challenge only; anyone else is unauthenticated |
| Challenges.AnsweredIsKept | controllers/challenges/challengeController.js:238-298 | once the receiver has set any other status, the sender can no longer withdraw |
| Challenges.RankedMembers | controllers/challenges/challengeController.js:84-105 | the ranked list holds exactly the matching challenges, newest first |
| Challenges.RankedLength | controllers/challenges/challengeController.js:91-105 | ranking keeps the length of the filtered list |
| Challenges.MatchingCount | controllers/challenges/challengeController.js:84-108 | the filtered ids count the matching rows |
| Challenges.MatchingSet | controllers/challenges/challengeController.js:84-90 | the filter selects exactly the matching challenges |
| Challenges.RankedCount | controllers/challenges/challengeController.js:84-108 | the ranked list holds each matching challenge once |
| Challenges.ListMeans | controllers/challenges/challengeController.js:79-164 | a page below 1 fails; otherwise the total counts all of the user's challenges on that side, with that status if one is given, and the page holds at most limit of them |
| Challenges.ListMembers | controllers/challenges/challengeController.js:79-164 | every challenge listed has the user on the asked side and the asked status, if one is given |
| Challenges.ListNewestFirst | controllers/challenges/challengeController.js:79-164 | the challenges listed are ordered newest first |
| Challenges.ListWhole | controllers/challenges/challengeController.js:79-164 | the first page of a list that fits on it holds exactly the matching challenges |
| Profile.ActiveDays | controllers/Profile/profile.js:167-169 | the active days are at most the days given |
| Profile.ToFixed2 | controllers/Profile/profile.js:182-186 | the result is a whole number of hundredths within half a hundredth of the value (halves rounded up, which is what `toFixed(2)` does on the nonnegative distances passed to it) |
| Profile.MissingListsAreZero | controllers/Profile/profile.js:153-187 | a missing or empty list leaves its totals at 0 |
| Profile.StepsAppend | controllers/Profile/profile.js:163-169 | one more day adds its steps to the total, and an active day exactly when it has more than 100 steps |
| Profile.TotalsOfSteps | controllers/Profile/profile.js:162-170 | the steps total is the sum of the days' steps and the active days are the days above 100 steps |
| Profile.ActiveIsFilter | controllers/Profile/profile.js:167-169 | counting active days is filtering the days above 100 steps |
| Profile.ActiveStepsBound | controllers/Profile/profile.js:163-169 | with no negative counts the total is at least 101 steps per active day |
| Profile.AverageIsRound | controllers/Profile/profile.js:190-194 | the average is the total over the active days, rounded |
| Profile.RoundDivAbove | controllers/Profile/profile.js:190-194 | a rounded quotient of at least 101 per unit stays above 100 |
| Profile.AverageAboveThreshold | controllers/Profile/profile.js:162-194 | with no negative counts the average is above 100 whenever a day is active, and 0 exactly when none is |
| Profile.Ascending | controllers/Profile/profile.js:120-122 | the sorted copy has the same length and is ascending |
| Profile.AscendingPermutes | controllers/Profile/profile.js:120-122 | the sorted copy holds the same dates |
| Profile.FindDateGaps | controllers/Profile/profile.js:115-144 | a missing or one-date list has no gaps; otherwise the result is exactly the gaps of the dates sorted ascending, and the input is only read |
| Profile.ScanGaps | controllers/Profile/profile.js:125-141 | the loop over adjacent dates collects exactly the gaps between pairs not one day apart, in order |
| Profile.GapsStep | controllers/Profile/profile.js:126-141 | one more date adds the gap before it, if it is not the next day |
| Profile.GapShape | controllers/Profile/profile.js:126-141 | each gap joins two listed dates in order that are not one day apart and counts the days strictly between; a repeated date shows as -1 days; at most one gap per adjacent pair |
| Profile.NoGapsIffConsecutive | controllers/Profile/profile.js:126-141 | there are no gaps exactly when each date is the day after the one before |
| Profile.MissingTotalAppend | controllers/Profile/profile.js:135-139 | the missing days of two runs of gaps add up |
| Profile.MissingSpan | controllers/Profile/profile.js:126-141 | the missing days add up to the span of the sorted dates less the days present |
| Profile.DateGapsMeans | controllers/Profile/profile.js:116-144 | for two or more dates the gaps are those of the ascending dates, their missing days make up the span less the dates present, and each gap joins two given dates |
| UserService.UpdateMeans | services/user.service.js:7-18 | the update is refused with a bad request exactly for a missing name or one made only of whitespace; an accepted name is a nonempty piece of the given one with no whitespace at either end |
| UserService.UpdateIdempotent | services/user.service.js:10-16 | submitting an accepted name again gives the same name |
| Common.Round | controllers/Profile/profile.js:191-193 | the rounded value is the integer within half of x, halves going up |
| Common.RoundUnique | controllers/Profile/profile.js:191-193 | that integer is unique |
| Common.RoundDiv | controllers/Profile/profile.js:191-193 | rounding a quotient of integers stays within half a unit of it |
| Common.RoundDivIsRound | controllers/Profile/profile.js:191-193 | the integer rounding of a quotient is the rounding of the real quotient |
| Common.JsRem | controllers/Gym_Schedule/bookingsummry.js:65 | the remainder of a nonnegative dividend is the ordinary one, and always lies strictly between -b and b |
| Common.TrimStart | services/user.service.js:10 | leading trimming removes exactly a whitespace prefix and leaves no leading whitespace |
| Common.TrimEnd | services/user.service.js:10 | trailing trimming removes exactly a whitespace suffix and leaves no trailing whitespace |
| Common.TrimIdempotent | services/user.service.js:16 | trimming twice is trimming once |
| Common.TrimEmptyIffBlank | services/user.service.js:10 | a string trims to the empty string exactly when it is all whitespace |
| Common.TrimAroundSpace | controllers/Gym_Schedule/bookingFlow.controller.js:554-556 | trimming two words joined by a space drops the space exactly when one word is empty |
| Common.ToLower | controllers/Gym_Schedule/bookingFlow.controller.js:564 | lower-casing keeps the length and maps each character |
| Common.ToLowerIdempotent | controllers/Gym_Schedule/bookingFlow.controller.js:564 | lower-casing twice is lower-casing once |
| Common.ContainsAt | controllers/Gym_Schedule/bookingFlow.controller.js:566-583 | includes holds exactly when the word occurs at some position |
| Common.MissingCharNotContained | controllers/Gym_Schedule/bookingFlow.controller.js:566-583 | a name lacking a character of a word does not include the word |
| Common.NatToString | controllers/Gym_Schedule/bookingsummry.js:66-70 | a number is printed as one or more decimal digits |
| Common.NatToStringRoundTrip | controllers/Gym_Schedule/bookingsummry.js:66-70 | reading a printed number back gives the number |
| Common.NatToStringInjective | controllers/Gym_Schedule/bookingsummry.js:66-70 | different numbers print differently |
| Tables.KeysBelow | controllers/Gym_Schedule/gymSchedule.controller.js:146-160 | an unordered query lists exactly the stored ids below the counter, in ascending order |
| Tables.SortStable | controllers/Profile/profile.js:120-122 | for every key, the sorted rows with that key come in their original order, as a stable `sort` keeps them |
| Tables.InsertStable | controllers/Profile/profile.js:120-122 | inserting a row puts it first among the rows with its key and leaves the rows of every other key as they were |
| Schema.RowsComplete | controllers/Gym_Schedule/gymSchedule.controller.js:146-160 | every booking row is seen |
| Schema.MachineBookingsOf | controllers/Gym_Schedule/gymSchedule.controller.js:171-177 | a booking's included reservations are exactly the stored ones that name it, in id order |
| Schema.BookingRowsExact | controllers/Gym_Schedule/gymSchedule.controller.js:171-177 | the rows of a booking are exactly the stored reservations that name it |

## Left out

- HTTP plumbing, routing, authentication (OAuth, JWT, cookies), Google Fit and the post controller are not part of this model. Response bodies are reduced to the fields the contracts talk about; the `include`d user, gym and machine details are left out.
- The clock is the parameter `now`. Local-time conversions (`getDay`, `setHours`, `setDate`) are given as inputs: the weekday and the local midnight of a start instant, opening hours as minutes of the day, dates in `findDateGaps` as day numbers. Time zones and daylight saving are not modelled.
- Date and time formatting (`toISOString`, `toLocaleDateString`, `toLocaleTimeString`) and the emoji indicator strings are left out; the indicators are an enumeration.
- Profile.ToFixed2: rounds a half toward +∞ for every input; JavaScript's `toFixed` rounds a negative half away from zero, so -0.125 gives -0.13 there and -0.12 here. The only values passed to it are distances, which are never negative.
- Floating point is Dafny `real`: hours, percentages, calories and distances are exact, and `toFixed(2)` and `Math.round` are exact decimal rounding, not IEEE-754 doubles.
- Prisma is modelled as maps keyed by integer ids with one counter per table; string ids (UUIDs, Google ids) are those integers or plain strings. An unordered `findMany` or `findFirst` returns rows in ascending id order. Enum validation of status strings and `parseInt` of malformed ids are not modelled.
- An uncaught persistence error (updating a missing row, connecting to a missing user) is the error `Internal`; real transaction isolation and concurrent requests are not modelled: each transaction is one atomic step.
- The warning `createNewBooking` logs for a machine with less than five hours before service only logs, so it is not modelled (`NewBooking.NewBookingIgnoresService` states that service records do not change the outcome).
- The start-before-end check of the selected slot in `getAvailability` is not modelled separately: with a positive duration it cannot fail.
- `getFollowing` of the challenge controller duplicates the follow controller's and is not part of this model.
- Community.Paginate: requires `limit >= 1`; a zero, negative or non-numeric limit or page string, which JavaScript turns into `Infinity` or `NaN` page counts, is not modelled. The same holds for `Comments.GetComments` and `Challenges.ChallengeList`, which use it.
- GymSchedule.CheckMachines: requires booking and machine-booking ids to be below their counters, so the id-ordered walks see every row; the autoincrement ids guarantee it, and the source demands nothing of its callers.
- Planner.GetAvailability: requires every gym's `maxCapacity` to be positive, so the occupancy percentage is never `NaN` or `Infinity`, and machine-booking ids to be below their counter, so the id-ordered walk sees every reservation. Both are part of `Schema.Valid`; the model does not prove that every handler preserves `Valid`.
- Common.ToLower: folds only the ASCII letters `A`–`Z`. JavaScript's `toLowerCase` also folds non-ASCII letters, and a few of them change length (U+0130 `İ` becomes two code units) or land on ASCII (U+212A KELVIN SIGN becomes `k`). So `Traffic.Categorize` can differ from the source on names with such characters.
