# webbarber availability and booking engine, in Dafny

This project models the scheduling core of webbarber, a barber-shop booking
back end. Each barber has a weekly template: for each day of the week, a
morning window, an afternoon window and an interval between start times
(20 to 60 minutes). A per-date override can replace the template and can close
the date outright or close single slots.

The availability service produces the offered start times. It walks each
window in steps of the interval, drops closed slots and drops the times at
which a booking already starts. For a service that lasts several slots, it
keeps only the starts whose whole run of consecutive slots is free. The
booking service accepts a request only if the user exists, the barber offers
the service and the start time is available, checked in that order. It then
saves a booking whose end is one interval per slot after its start. A booking
can be cancelled by its id.

Modules, in dependency order:

- `Common`: Option, Result, Outcome, the error kinds, dates and times as
  integers, the ISO day of week, `validateDate`, and `ArrayList.removeAll`
  (`RemoveAll`). It also defines `Subseq` ("is an order-preserving
  subsequence of").
- `Entities`: the DTO, record and booking shapes, the external user and
  service catalog, a snapshot `Db` of the three stores with its invariant, and
  the class `Repositories` that holds the stores as mutable state.
- `SlotGenerator`: `getAmTimeSlots`, `getPmTimeSlots` and `getTimeSlots`.
  Each is a loop method proved against a recursive specification function.
- `BookingRepository`: the custom queries of the booking repository, as
  functions over the booking sequence, plus `findById`, `delete` and the
  `ORDER BY startTime` sort.
- `Availability`: the two-layer schedule lookup, `getAvailableTimeSlots`,
  `isBookingAvailable`, `getInterval`, `getAvailableSequence` (the nested loop
  with its break flag), `getAvailableTimeSlotsByService` and `isBkAvailable`.
- `OverrideEntity`: the `TimeSlotOverride` entity as a class with its two
  constructors, its setters, its closed-slot list operations and
  `getParsedClosedSlots`.
- `TimeSlotService`: the validators, and the operations that change the
  stores. Each operation is a function from the stores before the call to an
  `Effect` (what was raised, and what the stores hold afterwards). A method
  carries out the operation on `Repositories` and the entity, and is proved
  equal to that function.
- `BookingService`: the ordered validation, `createBooking`,
  `bookAppointment` and `cancelAppointment`, in the same style.

Modelling decisions:

- **Barber id threaded everywhere.** In this revision of
  `TimeSlotAvailabilityService.java`, queries such as `findByDate(date)` and
  `getDurationById(serviceId)` take no barber. Its callers and the repositories
  it reads key everything by barber (`BookingService.java:81`,
  `BookingRepository.java:53`, `TimeSlotOverrideRepository.java:27`). The model
  passes the barber to every availability operation.
- **Time.** A date is a day count from 1970-01-01, and a time of day is a
  number of minutes. `LocalDate.now()` is a `today` parameter.
- **Stores.**
  - Templates: a map keyed by (barber, day of week).
  - Overrides: a map keyed by (barber or null, date).
  - Bookings: a sequence in insertion order.
  - Users, barbers and services: a `Catalog` value. It holds the user ids,
    the barber ids, and the stored duration of each (barber, service) pair,
    counted in slots. Nothing checks that a stored duration is positive.
- **"Not available".** A `null` from the day lookup (a closed override, or no
  template) becomes `None`. `isBookingAvailable` answers false in that case.
- **Runtime exceptions.** A required row that is missing becomes
  `NullReference`. The duration query returns a primitive `int`, so it
  raises when no service row matches. The other cases dereference a lookup
  that returned null: `getInterval` with no schedule, `setDataAvailability`
  with no template, and the closed-slot list operations on a null list. `delete(null)` in
  `removeTimeSlotOverride` becomes `IllegalArgument`. A read past the end of
  a list becomes `IndexOutOfBounds`: `getAvailableSequence` does this for a
  stored duration below 1. Two rows for a query declared to return one
  become `IncorrectResultSize`.
- **The inner availability check.** The loop in `getAvailableSequence` calls
  `isBookingAvailable` for each slot of a run. The date check has already
  passed at that point, so the model calls the date-independent part,
  `SlotFree`.

## Model

Source paths are relative to the repository root.

| member | source | states |
|---|---|---|
| `Common.ValidateDate` | webbarber/src/main/java/com/webbarber/webbarber/service/TimeSlotAvailabilityService.java:193-195 | fails exactly for a date before today, with InvalidDate; today is accepted |
| `Common.DayOfWeek` | webbarber/src/main/java/com/webbarber/webbarber/service/TimeSlotAvailabilityService.java:112 | the ISO day of week of a date always lies in 1..7 |
| `Common.DayOfWeekOfEpoch` | webbarber/src/main/java/com/webbarber/webbarber/service/TimeSlotAvailabilityService.java:112 | 1970-01-01 is a Thursday (day 4) |
| `Common.DayOfWeekSucc` | webbarber/src/main/java/com/webbarber/webbarber/service/TimeSlotAvailabilityService.java:112 | the next date has the next day of week, with Sunday followed by Monday |
| `Common.RemoveAll` | webbarber/src/main/java/com/webbarber/webbarber/service/TimeSlotAvailabilityService.java:116 | removeAll keeps exactly the elements not in the removal list, and never lengthens the list |
| `Common.RemoveAllSubseq` | webbarber/src/main/java/com/webbarber/webbarber/service/TimeSlotAvailabilityService.java:69 | removeAll keeps the remaining elements in their original order |
| `Common.RemoveAllNothing` | webbarber/src/main/java/com/webbarber/webbarber/service/TimeSlotAvailabilityService.java:69 | removing an empty list changes nothing |
| `Entities.Persisted` | webbarber/src/main/java/com/webbarber/webbarber/entity/TimeSlotOverride.java:33-34 | a saved override reads back with a closed-slot list, empty if it was null, and every other field unchanged |
| `SlotGenerator.WindowShape` | webbarber/src/main/java/com/webbarber/webbarber/service/TimeSlotAvailabilityService.java:87-98 | the k-th slot of a window is start + k·interval and lies before the end, and one more step would reach the end |
| `SlotGenerator.WindowSteps` | webbarber/src/main/java/com/webbarber/webbarber/service/TimeSlotAvailabilityService.java:73-85 | consecutive slots differ by exactly the interval; the window is strictly increasing; it is empty exactly when start >= end; every slot lies in [start, end) |
| `SlotGenerator.WindowTimeSlots` | webbarber/src/main/java/com/webbarber/webbarber/service/TimeSlotAvailabilityService.java:87-98 | the while loop that adds the current time and advances by the interval returns exactly the window |
| `SlotGenerator.GetTimeSlots` | webbarber/src/main/java/com/webbarber/webbarber/service/TimeSlotAvailabilityService.java:64-71 | the morning list, then the afternoon list, then the closed slots removed, is the base list |
| `SlotGenerator.TimeSlotsSpec` | webbarber/src/main/java/com/webbarber/webbarber/service/TimeSlotAvailabilityService.java:64-71 | a time is in the base list exactly when a window offers it and it is not closed; the list is an ordered subsequence of morning + afternoon; with a null or empty closed list it is exactly morning + afternoon |
| `SlotGenerator.TimeSlotsIncreasing` | webbarber/src/main/java/com/webbarber/webbarber/service/TimeSlotAvailabilityService.java:64-71 | when the morning window ends no later than the afternoon one starts, the base list is strictly increasing |
| `SlotGenerator.WindowsIncreasing` | webbarber/src/main/java/com/webbarber/webbarber/service/TimeSlotAvailabilityService.java:66-67 | with ordered windows, every morning slot precedes every afternoon slot |
| `SlotGenerator.ExampleDay` | webbarber/src/main/java/com/webbarber/webbarber/service/TimeSlotAvailabilityService.java:73-98 | 09:00-12:00 and 13:00-17:00 at 30 minutes give 6 + 8 slots, from 09:00 to 16:30 |
| `BookingRepository.FindById` | webbarber/src/main/java/com/webbarber/webbarber/service/BookingService.java:130 | returns a stored booking with that id, and is empty exactly when no booking has it |
| `BookingRepository.FindByBarberIdAndDateAndStartTime` | webbarber/src/main/java/com/webbarber/webbarber/repository/BookingRepository.java:42-43 | returns only a booking equal on barber, date and start time, and is empty exactly when there is none |
| `BookingRepository.FindStartTimesByBarberIdAndDate` | webbarber/src/main/java/com/webbarber/webbarber/repository/BookingRepository.java:52-53 | holds exactly the start times of that barber's bookings on that date |
| `BookingRepository.FindConflictingBooking` | webbarber/src/main/java/com/webbarber/webbarber/repository/BookingRepository.java:63-65 | returns only a booking of that barber and date with start <= t < end, and is empty exactly when none covers t |
| `BookingRepository.Conflicts` | webbarber/src/main/java/com/webbarber/webbarber/repository/BookingRepository.java:63-65 | holds exactly the stored bookings of that barber and date with start <= t < end, and never more than the store |
| `BookingRepository.FirstConflict` | webbarber/src/main/java/com/webbarber/webbarber/repository/BookingRepository.java:63-65 | the lenient lookup answers the first row of the query's match list, or empty when nothing matches |
| `BookingRepository.FindConflictingBookingQuery` | webbarber/src/main/java/com/webbarber/webbarber/repository/BookingRepository.java:63-65 | the Optional query raises IncorrectResultSize exactly when two or more bookings cover t; otherwise it answers what the lenient lookup answers |
| `BookingRepository.OverlapRaises` | webbarber/src/main/java/com/webbarber/webbarber/repository/BookingRepository.java:63-65 | any two stored bookings of the day that both cover t make the query raise |
| `BookingRepository.OverlapExample` | webbarber/src/main/java/com/webbarber/webbarber/repository/BookingRepository.java:63-65 | bookings [10:15, 10:45) and [10:00, 10:30): the query at 10:20 raises, the query at 10:40 returns the first |
| `BookingRepository.DayBookings` | webbarber/src/main/java/com/webbarber/webbarber/repository/BookingRepository.java:80 | holds exactly the bookings of that barber on that date |
| `BookingRepository.FindAllByBarberIdAndUserId` | webbarber/src/main/java/com/webbarber/webbarber/repository/BookingRepository.java:91-92 | holds exactly that user's bookings with that barber |
| `BookingRepository.InsertPerm` | webbarber/src/main/java/com/webbarber/webbarber/repository/BookingRepository.java:81 | insertion adds exactly one booking, as a multiset |
| `BookingRepository.InsertSorted` | webbarber/src/main/java/com/webbarber/webbarber/repository/BookingRepository.java:81 | inserting into a list sorted by start time keeps it sorted |
| `BookingRepository.SortByStartSpec` | webbarber/src/main/java/com/webbarber/webbarber/repository/BookingRepository.java:81 | the sort returns a permutation of its input that is sorted by start time |
| `BookingRepository.JoinedBookings` | webbarber/src/main/java/com/webbarber/webbarber/repository/BookingRepository.java:77-79 | keeps exactly the bookings whose user, service and barber rows exist |
| `BookingRepository.JoinedAll` | webbarber/src/main/java/com/webbarber/webbarber/repository/BookingRepository.java:77-79 | when every booking's user, service and barber exist, the joins drop nothing |
| `BookingRepository.FindAllByBarberIdAndDate` | webbarber/src/main/java/com/webbarber/webbarber/repository/BookingRepository.java:75-82 | sorted by start time; as a multiset exactly the day's bookings that survive the three inner joins; a booking is listed exactly when it is the barber's, on that date, and its user, service and barber exist |
| `BookingRepository.RemoveById` | webbarber/src/main/java/com/webbarber/webbarber/service/BookingService.java:132 | after the delete, the store holds exactly the bookings with another id |
| `BookingRepository.RemoveByIdSubseq` | webbarber/src/main/java/com/webbarber/webbarber/service/BookingService.java:132 | the delete keeps the other bookings in their order |
| `BookingRepository.RemoveByIdAbsent` | webbarber/src/main/java/com/webbarber/webbarber/service/BookingService.java:132 | deleting an id nobody carries leaves the store as it was |
| `BookingRepository.RemoveByIdPresent` | webbarber/src/main/java/com/webbarber/webbarber/service/BookingService.java:132 | with unique ids, exactly the booking that findById returns goes |
| `BookingRepository.SubseqUniqueIds` | webbarber/src/main/java/com/webbarber/webbarber/service/BookingService.java:132 | what remains after a delete still has unique ids |
| `Availability.Resolve` | webbarber/src/main/java/com/webbarber/webbarber/service/TimeSlotAvailabilityService.java:105-115 | an override wins outright over the template; every schedule it yields has valid windows and an interval of 20 to 60 |
| `Availability.DaySlots` | webbarber/src/main/java/com/webbarber/webbarber/service/TimeSlotAvailabilityService.java:103-118 | the day's list is null exactly when there is no open schedule |
| `Availability.AvailableTimeSlots` | webbarber/src/main/java/com/webbarber/webbarber/service/TimeSlotAvailabilityService.java:100-119 | fails exactly for a past date, with InvalidDate; otherwise returns the day's list |
| `Availability.GetAvailableTimeSlots` | webbarber/src/main/java/com/webbarber/webbarber/service/TimeSlotAvailabilityService.java:100-119 | builds the base list, then removes the booked start times in place, and returns what AvailableTimeSlots specifies |
| `Availability.PastDateRejected` | webbarber/src/main/java/com/webbarber/webbarber/service/TimeSlotAvailabilityService.java:132-133 | both availability queries raise InvalidDate for a date before today |
| `Availability.DaySlotsNone` | webbarber/src/main/java/com/webbarber/webbarber/service/TimeSlotAvailabilityService.java:107-113 | the list is null exactly for a closed override, or for no override and no template |
| `Availability.DaySlotsSpec` | webbarber/src/main/java/com/webbarber/webbarber/service/TimeSlotAvailabilityService.java:105-116 | the list holds exactly the base-list times at which no booking starts, in order. The override supplies windows, interval and closed slots; without one, the template's windows are used with nothing closed |
| `Availability.OverrideWins` | webbarber/src/main/java/com/webbarber/webbarber/service/TimeSlotAvailabilityService.java:105-110 | with an override present, no change to the template store alters the schedule, the list or the interval |
| `Availability.IsBookingAvailable` | webbarber/src/main/java/com/webbarber/webbarber/service/TimeSlotAvailabilityService.java:34-43 | fails for a past date; otherwise answers exactly whether the slot is free, branch by branch as the source checks |
| `Availability.SlotFreeSpec` | webbarber/src/main/java/com/webbarber/webbarber/service/TimeSlotAvailabilityService.java:34-43 | free exactly when the time is in the day's list and no booking covers it. Equivalently: the schedule offers it, it is not closed, and no booking starts at it or covers it on [start, end) |
| `Availability.ClosedSlotNeverFree` | webbarber/src/main/java/com/webbarber/webbarber/service/TimeSlotAvailabilityService.java:38-41 | a closed slot of an override is never free, so the early "true" branch never fires |
| `Availability.GetInterval` | webbarber/src/main/java/com/webbarber/webbarber/service/TimeSlotAvailabilityService.java:187-191 | when present, the interval lies in 20..60 |
| `Availability.IntervalOfSchedule` | webbarber/src/main/java/com/webbarber/webbarber/service/TimeSlotAvailabilityService.java:187-191 | the stepping interval is the override's whenever an override exists, closed or not, otherwise the template's; it is missing exactly when there is no schedule |
| `Availability.SequenceSpec` | webbarber/src/main/java/com/webbarber/webbarber/service/TimeSlotAvailabilityService.java:170-182 | a slot is kept exactly when its index i satisfies i + duration - 1 < the list length and all duration slots of its run are free; the kept slots are an ordered subsequence |
| `Availability.RunInWindow` | webbarber/src/main/java/com/webbarber/webbarber/service/TimeSlotAvailabilityService.java:152-155 | every slot of a kept run belongs to the same window, so no run crosses from morning into afternoon |
| `Availability.WindowRun` | webbarber/src/main/java/com/webbarber/webbarber/service/TimeSlotAvailabilityService.java:170-180 | a run that fits in the window's list consists of window slots and ends before the window does |
| `Availability.ServiceDuration` | webbarber/src/main/java/com/webbarber/webbarber/service/TimeSlotAvailabilityService.java:162-164 | 1 with no service; with a service, it succeeds exactly when the barber offers it and then answers the stored duration, which may be below 1; a missing row raises NullReference |
| `Availability.AvailableSequence` | webbarber/src/main/java/com/webbarber/webbarber/service/TimeSlotAvailabilityService.java:160-185 | the result is an ordered subsequence of the given slots; it fails exactly when the duration or the interval lookup fails (NullReference) or the duration is below 1, where the loop reads past the list's end (IndexOutOfBounds) |
| `Availability.GetAvailableSequence` | webbarber/src/main/java/com/webbarber/webbarber/service/TimeSlotAvailabilityService.java:160-185 | the duration and interval lookups, the read past the end for a duration below 1, and the two loops compute AvailableSequence |
| `Availability.CollectFreeRuns` | webbarber/src/main/java/com/webbarber/webbarber/service/TimeSlotAvailabilityService.java:170-182 | for each candidate index, the outer loop keeps the slot exactly when its run is free |
| `Availability.CheckRun` | webbarber/src/main/java/com/webbarber/webbarber/service/TimeSlotAvailabilityService.java:171-180 | the inner loop, with its flag and break, leaves the flag set exactly when every slot of the run is free |
| `Availability.AvailableByService` | webbarber/src/main/java/com/webbarber/webbarber/service/TimeSlotAvailabilityService.java:132-158 | a past date gives InvalidDate; the result is null exactly for a valid date without an open schedule |
| `Availability.ByServiceFailure` | webbarber/src/main/java/com/webbarber/webbarber/service/TimeSlotAvailabilityService.java:132-164 | the by-service query fails exactly for a past date (InvalidDate), or for an open day whose service is unknown (NullReference) or has a duration below 1 (IndexOutOfBounds) |
| `Availability.GetAvailableTimeSlotsByService` | webbarber/src/main/java/com/webbarber/webbarber/service/TimeSlotAvailabilityService.java:132-158 | the imperative query computes AvailableByService |
| `Availability.ServiceStartsSpec` | webbarber/src/main/java/com/webbarber/webbarber/service/TimeSlotAvailabilityService.java:152-156 | each start lies in one window with its whole run inside it, has its run free and is not closed; the starts keep morning-then-afternoon order |
| `Availability.ByServiceSpec` | webbarber/src/main/java/com/webbarber/webbarber/service/TimeSlotAvailabilityService.java:132-158 | the by-service list has those properties for the resolved schedule and the service's duration, and is strictly increasing when the windows are ordered |
| `Availability.IsBkAvailable` | webbarber/src/main/java/com/webbarber/webbarber/service/TimeSlotAvailabilityService.java:45-48 | fails exactly when the by-service query fails |
| `Availability.IsBkAvailableSpec` | webbarber/src/main/java/com/webbarber/webbarber/service/TimeSlotAvailabilityService.java:45-48 | true exactly when the by-service list offers t; then no booking of the day starts at or covers any slot of the run from t |
| `OverrideEntity.AddedClosed` | webbarber/src/main/java/com/webbarber/webbarber/entity/TimeSlotOverride.java:258-260 | the slots are appended at the end, with the old list as prefix (order and duplicates kept) and the other fields unchanged |
| `OverrideEntity.RemovedClosed` | webbarber/src/main/java/com/webbarber/webbarber/entity/TimeSlotOverride.java:267-269 | every occurrence of each listed slot is gone, the rest keep their order, and the other fields are unchanged |
| `OverrideEntity.RemoveThenAdd` | webbarber/src/main/java/com/webbarber/webbarber/entity/TimeSlotOverride.java:258-269 | removing and then adding a list closes exactly the old slots plus the listed ones |
| `OverrideEntity.AddThenRemove` | webbarber/src/main/java/com/webbarber/webbarber/entity/TimeSlotOverride.java:258-269 | adding and then removing a list equals removing it alone |
| `OverrideEntity.TimeSlotOverride.FromEdited` | webbarber/src/main/java/com/webbarber/webbarber/entity/TimeSlotOverride.java:49-59 | the barber and all eight request fields are copied verbatim |
| `OverrideEntity.TimeSlotOverride.FromTemplate` | webbarber/src/main/java/com/webbarber/webbarber/entity/TimeSlotOverride.java:69-78 | windows and interval come from the template, isClosed = !isOpen, the closed list is null, and the barber is left null |
| `OverrideEntity.TimeSlotOverride.FromTemplateFor` | webbarber/src/main/java/com/webbarber/webbarber/entity/TimeSlotOverride.java:69-78 | the same, with the barber recorded |
| `OverrideEntity.TimeSlotOverride.SetDate` | webbarber/src/main/java/com/webbarber/webbarber/entity/TimeSlotOverride.java:166-168 | changes the date and nothing else |
| `OverrideEntity.TimeSlotOverride.SetAmStartTime` | webbarber/src/main/java/com/webbarber/webbarber/entity/TimeSlotOverride.java:175-177 | changes the morning start and nothing else |
| `OverrideEntity.TimeSlotOverride.SetAmEndTime` | webbarber/src/main/java/com/webbarber/webbarber/entity/TimeSlotOverride.java:184-186 | changes the morning end and nothing else |
| `OverrideEntity.TimeSlotOverride.SetPmStartTime` | webbarber/src/main/java/com/webbarber/webbarber/entity/TimeSlotOverride.java:193-195 | changes the afternoon start and nothing else |
| `OverrideEntity.TimeSlotOverride.SetPmEndTime` | webbarber/src/main/java/com/webbarber/webbarber/entity/TimeSlotOverride.java:202-204 | changes the afternoon end and nothing else |
| `OverrideEntity.TimeSlotOverride.SetInterval` | webbarber/src/main/java/com/webbarber/webbarber/entity/TimeSlotOverride.java:211-213 | changes the interval and nothing else |
| `OverrideEntity.TimeSlotOverride.SetClosed` | webbarber/src/main/java/com/webbarber/webbarber/entity/TimeSlotOverride.java:220-222 | changes isClosed and nothing else |
| `OverrideEntity.TimeSlotOverride.SetClosedSlots` | webbarber/src/main/java/com/webbarber/webbarber/entity/TimeSlotOverride.java:238-240 | changes the closed-slot list and nothing else |
| `OverrideEntity.TimeSlotOverride.ParsedClosedSlots` | webbarber/src/main/java/com/webbarber/webbarber/entity/TimeSlotOverride.java:247-251 | fails exactly on a null list; otherwise it has the same length and elements, in order |
| `OverrideEntity.TimeSlotOverride.AddClosedSlots` | webbarber/src/main/java/com/webbarber/webbarber/entity/TimeSlotOverride.java:258-260 | raises exactly on a null list and then changes nothing; otherwise the entity becomes AddedClosed of its old state |
| `OverrideEntity.TimeSlotOverride.RemoveClosedSlots` | webbarber/src/main/java/com/webbarber/webbarber/entity/TimeSlotOverride.java:267-269 | raises exactly on a null list and then changes nothing; otherwise the entity becomes RemovedClosed of its old state |
| `OverrideEntity.TimeSlotOverride.ClearClosedSlots` | webbarber/src/main/java/com/webbarber/webbarber/entity/TimeSlotOverride.java:274-276 | raises exactly on a null list; otherwise the list becomes empty and every other field is unchanged |
| `TimeSlotService.ValidateDayOfWeek` | webbarber/src/main/java/com/webbarber/webbarber/service/TimeSlotService.java:108-110 | InvalidDayOfWeek exactly for a day < 1 or > 7 |
| `TimeSlotService.ValidateTimeStarts` | webbarber/src/main/java/com/webbarber/webbarber/service/TimeSlotService.java:119-122 | InvalidStartTime exactly when the start is after the end |
| `TimeSlotService.ValidateInterval` | webbarber/src/main/java/com/webbarber/webbarber/service/TimeSlotService.java:130-133 | InvalidTimeInterval exactly for an interval < 20 or > 60 |
| `TimeSlotService.ValidatorBounds` | webbarber/src/main/java/com/webbarber/webbarber/service/TimeSlotService.java:108-133 | a window whose start equals its end, and the intervals 20 and 60, pass; a start one minute after its end, the intervals 19 and 61, and the days 0 and 8 fail |
| `TimeSlotService.ValidateTimeSlot` | webbarber/src/main/java/com/webbarber/webbarber/service/TimeSlotService.java:70-75 | passes exactly for a day in 1..7 with valid windows and interval; otherwise the error of the first failing check (day, then windows, then interval) |
| `TimeSlotService.ValidateEditedTimeSlot` | webbarber/src/main/java/com/webbarber/webbarber/service/TimeSlotService.java:85-90 | passes exactly for a date not before today with valid windows and interval; otherwise the first failing check's error (date, then windows, then interval) |
| `TimeSlotService.SetTimeSlotEffect` | webbarber/src/main/java/com/webbarber/webbarber/service/TimeSlotService.java:46-59 | nothing is saved when validation fails. Otherwise the update of the five fields and the insert both leave the request as the (barber, day) template, and no other key changes |
| `TimeSlotService.EditTimeSlotEffect` | webbarber/src/main/java/com/webbarber/webbarber/service/TimeSlotService.java:182-194 | nothing is saved when validation fails. Otherwise the (barber, date) override becomes the request under that barber, with all seven editable fields replaced whether it existed or not |
| `TimeSlotService.EditedDateResolves` | webbarber/src/main/java/com/webbarber/webbarber/service/TimeSlotService.java:182-194 | after an edit, the date resolves to the request: closed if it says closed, otherwise its windows with its closed slots |
| `TimeSlotService.SetDataAvailabilityEffect` | webbarber/src/main/java/com/webbarber/webbarber/service/TimeSlotService.java:203-219 | rejects a past date. On an existing override, only isClosed changes, to !isOpen. Otherwise it creates one under the barber that copies the weekday template's windows and interval, with an empty closed list, and fails with no template. Nothing changes on failure |
| `TimeSlotService.SetDataAvailabilityAsWrittenEffect` | webbarber/src/main/java/com/webbarber/webbarber/service/TimeSlotService.java:216-218 | as written, the override created from the template is stored under (null, date) |
| `TimeSlotService.ClosingIgnoredAsWritten` | webbarber/src/main/java/com/webbarber/webbarber/service/TimeSlotService.java:216-218 | as written, closing a date that has no override succeeds but leaves its schedule and its available list as they were |
| `TimeSlotService.ClosingCloses` | webbarber/src/main/java/com/webbarber/webbarber/service/TimeSlotService.java:203-219 | once closing succeeds, the date is ClosedDay: no list, a null by-service result, and no free slot |
| `TimeSlotService.OpeningKeepsTemplate` | webbarber/src/main/java/com/webbarber/webbarber/service/TimeSlotService.java:216-218 | opening a date without an override offers exactly what the template offered |
| `TimeSlotService.ClosedSlotsEffect` | webbarber/src/main/java/com/webbarber/webbarber/service/TimeSlotService.java:228-269 | rejects a past date, then raises TimeSlotNotFound with no override, leaving the stores unchanged in both cases; otherwise only that override's closed list is edited |
| `TimeSlotService.AddedSlotsNotFree` | webbarber/src/main/java/com/webbarber/webbarber/service/TimeSlotService.java:228-236 | after adding closed slots, none of them is free |
| `TimeSlotService.RemovedSlotsReopen` | webbarber/src/main/java/com/webbarber/webbarber/service/TimeSlotService.java:245-253 | after removing a slot from the closed list, it is offered exactly when a window offers it and no booking starts there |
| `TimeSlotService.ClearReopensAll` | webbarber/src/main/java/com/webbarber/webbarber/service/TimeSlotService.java:261-269 | after clearing, the list is the whole morning + afternoon list minus the booked starts |
| `TimeSlotService.RemoveTimeSlotOverrideEffect` | webbarber/src/main/java/com/webbarber/webbarber/service/TimeSlotService.java:171-174 | deletes the (barber, date) override. If there is none, it raises IllegalArgument and changes nothing. No date check is made |
| `TimeSlotService.RemovedOverrideFallsBack` | webbarber/src/main/java/com/webbarber/webbarber/service/TimeSlotService.java:171-174 | after the delete, the date resolves to the weekly template again, or to no schedule |
| `TimeSlotService.SetTimeSlot` | webbarber/src/main/java/com/webbarber/webbarber/service/TimeSlotService.java:46-59 | on the repositories: raises and stores exactly what SetTimeSlotEffect says, and keeps the store invariant |
| `TimeSlotService.EditTimeSlot` | webbarber/src/main/java/com/webbarber/webbarber/service/TimeSlotService.java:182-194 | the setter calls on the loaded entity, or the constructor, followed by the save, do what EditTimeSlotEffect says |
| `TimeSlotService.SetDataAvailability` | webbarber/src/main/java/com/webbarber/webbarber/service/TimeSlotService.java:203-219 | the toggle on the repositories, with the barber recorded, does what SetDataAvailabilityEffect says |
| `TimeSlotService.SetDataAvailabilityAsWritten` | webbarber/src/main/java/com/webbarber/webbarber/service/TimeSlotService.java:203-219 | the toggle as written, through the template constructor, does what SetDataAvailabilityAsWrittenEffect says |
| `TimeSlotService.EditClosedSlots` | webbarber/src/main/java/com/webbarber/webbarber/service/TimeSlotService.java:228-269 | the shared date check, lookup and entity operation do what ClosedSlotsEffect says |
| `TimeSlotService.AddClosedSlots` | webbarber/src/main/java/com/webbarber/webbarber/service/TimeSlotService.java:228-236 | addClosedSlots on the repositories does ClosedSlotsEffect with Add |
| `TimeSlotService.RemoveClosedSlots` | webbarber/src/main/java/com/webbarber/webbarber/service/TimeSlotService.java:245-253 | removeClosedSlots on the repositories does ClosedSlotsEffect with Remove |
| `TimeSlotService.ClearClosedSlots` | webbarber/src/main/java/com/webbarber/webbarber/service/TimeSlotService.java:261-269 | clearClosedSlots on the repositories does ClosedSlotsEffect with Clear |
| `TimeSlotService.RemoveTimeSlotOverride` | webbarber/src/main/java/com/webbarber/webbarber/service/TimeSlotService.java:171-174 | removeTimeSlotOverride on the repositories does what RemoveTimeSlotOverrideEffect says |
| `BookingService.ValidateUser` | webbarber/src/main/java/com/webbarber/webbarber/service/BookingService.java:92-96 | UserNotFound exactly when the user id does not exist |
| `BookingService.ValidateService` | webbarber/src/main/java/com/webbarber/webbarber/service/BookingService.java:104-108 | ServiceNotFound exactly when the barber has no service with that id; the active flag is not consulted |
| `BookingService.ValidateAvailability` | webbarber/src/main/java/com/webbarber/webbarber/service/BookingService.java:118-122 | passes exactly when isBkAvailable is true; a false answer gives TimeSlotNotAvailable, and an error isBkAvailable raises passes through unchanged |
| `BookingService.Validate` | webbarber/src/main/java/com/webbarber/webbarber/service/BookingService.java:53-56 | passes exactly when all three checks pass; the first failing check, in the order user, service, availability, decides the error |
| `BookingService.ValidationErrors` | webbarber/src/main/java/com/webbarber/webbarber/service/BookingService.java:53-56 | only five errors are possible; for a valid date, a known user and a known service with a positive duration, refusal is always TimeSlotNotAvailable; with a duration below 1 an open day raises IndexOutOfBounds |
| `BookingService.DurationLookup` | webbarber/src/main/java/com/webbarber/webbarber/repository/ServiceRepository.java:65-66 | the duration row for (barber, id); a null barber matches no row, and a missing row raises |
| `BookingService.NewBooking` | webbarber/src/main/java/com/webbarber/webbarber/entity/Booking.java:40-47 | barber, service, date and start are copied from the request, the user is recorded, and with a positive duration and interval the end is after the start |
| `BookingService.CreateBookingWith` | webbarber/src/main/java/com/webbarber/webbarber/service/BookingService.java:79-85 | succeeds exactly when both the duration and the interval lookups succeed |
| `BookingService.CreateBooking` | webbarber/src/main/java/com/webbarber/webbarber/service/BookingService.java:79-85 | with the duration looked up under the barber, it succeeds exactly when the service and a schedule exist; end - start = interval · duration |
| `BookingService.CreateBookingAsWritten` | webbarber/src/main/java/com/webbarber/webbarber/service/BookingService.java:80 | as written, any failure is NullReference |
| `BookingService.CreateBookingAsWrittenFails` | webbarber/src/main/java/com/webbarber/webbarber/service/BookingService.java:80 | as written, createBooking fails for every request |
| `BookingService.ValidatedRequestCreates` | webbarber/src/main/java/com/webbarber/webbarber/service/BookingService.java:53-57 | a request that passed the checks always yields a booking, on an open day, for a service with a positive duration |
| `BookingService.BookWith` | webbarber/src/main/java/com/webbarber/webbarber/service/BookingService.java:53-59 | a failed check is raised unchanged and nothing is saved; the store invariant is kept |
| `BookingService.BookAppointmentEffect` | webbarber/src/main/java/com/webbarber/webbarber/service/BookingService.java:53-59 | raises exactly what Validate raises. On success, exactly the created booking is appended; on failure, the stores are unchanged. The store grows by one exactly on success |
| `BookingService.BookAppointmentAsWrittenEffect` | webbarber/src/main/java/com/webbarber/webbarber/service/BookingService.java:53-59 | as written, the stores are unchanged on failure and keep their invariant |
| `BookingService.NothingBookedAsWritten` | webbarber/src/main/java/com/webbarber/webbarber/service/BookingService.java:53-59 | as written, no request ever changes the store; an accepted request raises NullReference |
| `BookingService.FreshIdKeepsUnique` | webbarber/src/main/java/com/webbarber/webbarber/entity/Booking.java:16-18 | appending a booking with a newly generated id keeps ids unique |
| `BookingService.BookedRunTaken` | webbarber/src/main/java/com/webbarber/webbarber/service/BookingService.java:53-59 | after a booking, no slot of its run is free |
| `BookingService.CoveredNotFree` | webbarber/src/main/java/com/webbarber/webbarber/service/TimeSlotAvailabilityService.java:42 | a time that a booking of the day covers is not free |
| `BookingService.SecondBookingRefused` | webbarber/src/main/java/com/webbarber/webbarber/service/BookingService.java:118-122 | an identical second request is refused with TimeSlotNotAvailable |
| `BookingService.NoOverlapOnGrid` | webbarber/src/main/java/com/webbarber/webbarber/service/BookingService.java:118-122 | if a booking starts on the run's grid, and no slot of the run starts at it or falls inside it, the two half-open intervals are disjoint |
| `BookingService.BookingDoesNotOverlap` | webbarber/src/main/java/com/webbarber/webbarber/service/BookingService.java:53-59 | a new booking does not overlap any existing booking of that barber and date that starts on its grid |
| `BookingService.CancelAppointmentEffect` | webbarber/src/main/java/com/webbarber/webbarber/service/BookingService.java:129-133 | raises BookingNotFound exactly for an unknown id, changing nothing. Otherwise exactly that booking goes, the others keep their order, and nothing else changes |
| `BookingService.CancelUndoesBooking` | webbarber/src/main/java/com/webbarber/webbarber/service/BookingService.java:129-133 | cancelling the booking just made restores the stores exactly |
| `BookingService.CancelKeepsFreeSlots` | webbarber/src/main/java/com/webbarber/webbarber/service/BookingService.java:129-133 | a cancel never makes a free slot taken |
| `BookingService.BookAppointment` | webbarber/src/main/java/com/webbarber/webbarber/service/BookingService.java:53-59 | the three checks, the creation and the save on the repositories do what BookAppointmentEffect says |
| `BookingService.CancelAppointment` | webbarber/src/main/java/com/webbarber/webbarber/service/BookingService.java:129-133 | the lookup and delete on the repositories do what CancelAppointmentEffect says |

## Left out

- HTTP controllers, security, authentication, and the user, barber and
  service services: outside the engine. Users and services are the `Catalog`
  parameter.
- `getAllSchedules` and `getAllSchedulesByUser` (BookingService.java:67-69,
  141-143): they pass a null barber, so they always return an empty list. The
  queries they call are modelled: `FindAllByBarberIdAndDate` and
  `FindAllByBarberIdAndUserId`.
- `getUserIdByPhone` and the phone-prefix normaliser: these delegate to the
  account services.
- Booking ids: the store generates them. `BookAppointment` takes the new id as
  a parameter, and requires that no stored booking has it.
- Closed slots: these are strings parsed with `LocalTime.parse`. The model
  uses their minute values, and does not model the `toString` comparison in
  `isBookingAvailable`.
- The midnight wrap of `LocalTime.plusMinutes`: times are unbounded integers,
  so a window near 24:00 does not wrap.
- `isBookingAvailable` on a date without an open schedule: the source calls
  `.contains` on null and raises a NullPointerException. The model answers
  "not available".
- Unsaved entities. The source edits entities without saving them: the
  existing-override branch of `setDataAvailability`, and the closed-slot
  operations. The model stores the edited entity, that is, it assumes the
  persistence context writes it back. Transactions, flushing and concurrent
  requests are not modelled.
- `BookingService.NoOverlapOnGrid` and `BookingService.BookingDoesNotOverlap`
  are stated only for existing bookings whose start lies on the new run's
  grid. The source checks only the run's own slots, so a booking that starts
  between two slots (for example one saved before the interval was changed)
  can overlap a new run.
- `findByBarberIdAndDateAndStartTime` builds its result with userId and
  barberId swapped in the constructor call (BookingRepository.java:42). The
  only caller tests whether a result is present, so the model returns the
  stored booking itself.
- A query that finds several rows where one is expected, for overrides and
  templates: the model has at most one override per (barber, date) and one
  template per (barber, day). Its stores are maps.
- BookingRepository.FindConflictingBooking: the availability checks (`SlotFree`,
  `IsBookingAvailable`, `AvailableSequence`, `IsBkAvailable`) use this lenient
  lookup, which takes the first booking that covers t. Where two stored
  bookings of the day cover t, the source's Optional query raises
  IncorrectResultSizeDataAccessException, and the model answers "not
  available". The strict query is `FindConflictingBookingQuery`, with
  `OverlapRaises` and `OverlapExample`. It is not threaded through the
  availability functions.
- BookingRepository.FindAllByBarberIdAndDate: returns the bookings themselves, not the
  BookingInfoDTO projection of user, barber and service names. The names are
  outside the `Catalog`.
- Availability.AvailableSequence: Java's `int` arithmetic is not modelled.
  For a duration near -2^31, the bound `slots.size() - (duration - 1)` can
  wrap to a negative value. The loop then does not run, and the source
  returns an empty list. The model raises IndexOutOfBounds for every
  duration below 1.
- `TimeSlotOverride.Load`: stands for the JPA load of a stored override. It
  has no source counterpart.

## Findings

| source | as written | input that shows it | evidently intended | confidence | as-written member | corrected member |
|---|---|---|---|---|---|---|
| webbarber/src/main/java/com/webbarber/webbarber/service/TimeSlotService.java:216-218 | `setDataAvailability` builds the new override with the (date, template, isOpen) constructor, which never sets barberId, so it is saved under barber null | a barber with a Monday template closes a Monday that has no override: the call succeeds, yet the date still offers every slot and can be booked | the new override belongs to the barber, so closing the date closes it | not executed | `TimeSlotService.ClosingIgnoredAsWritten` (over `TimeSlotService.SetDataAvailabilityAsWrittenEffect`) | `TimeSlotService.ClosingCloses` (over `TimeSlotService.SetDataAvailabilityEffect`, built with `OverrideEntity.TimeSlotOverride.FromTemplateFor`) |
| webbarber/src/main/java/com/webbarber/webbarber/service/BookingService.java:80 | `createBooking` looks the service duration up with `getDurationById(null, serviceId)`; no service row has a null barber, so the primitive-int query raises | any request that passes all three checks: it raises instead of saving a booking | the duration of the requested barber's service (the barberId parameter) | not executed | `BookingService.NothingBookedAsWritten` (over `BookingService.CreateBookingAsWrittenFails`) | `BookingService.BookAppointmentEffect` (over `BookingService.CreateBooking`) |
