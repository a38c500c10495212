/** The availability service: which start times a barber offers on a date,
    whether one start time is free, and which start times can hold a service
    of several consecutive slots. Every query reads a snapshot of the stores,
    takes the barber explicitly and takes today's date as a parameter. */
module Availability {
  import opened Common
  import opened Entities
  import opened SlotGenerator
  import opened BookingRepository

  /** findByBarberIdAndDate on the override store. */
  function FindOverride(db: Db, b: BarberId, d: Date): Option<OverrideRecord>
  {
    if (Some(b), d) in db.overrides then Some(db.overrides[(Some(b), d)]) else None
  }

  /** findByBarberIdAndDayOfWeek on the template store (null when absent). */
  function FindTemplate(db: Db, b: BarberId, day: int): Option<StandardTimeSlot>
  {
    if (b, day) in db.templates then Some(db.templates[(b, day)]) else None
  }

  /** toEditedTimeSlotDTO followed by toStandardTimeSlotDTO: the override's
      windows and interval, labelled with its date's day of week. */
  function ToStandard(o: OverrideRecord): StandardTimeSlot
  {
    StandardTimeSlot(DayOfWeek(o.date), o.amStartTime, o.amEndTime, o.pmStartTime, o.pmEndTime, o.interval)
  }

  /** What the two-layer lookup yields for a date: a closed override, no
      schedule at all, or the windows to use with the closed slots to drop
      (None when the windows come from the weekly template). */
  datatype Schedule =
    | ClosedDay
    | NoSchedule
    | Open(slot: StandardTimeSlot, closed: Option<seq<Minute>>)

  /** The schedule for (barber, date): an override for the date wins
      outright; otherwise the template for the date's day of week. Every
      schedule it yields passed the validators. */
  function Resolve(db: Db, b: BarberId, d: Date): (s: Schedule)
    requires db.Valid()
    ensures s.Open? ==> ValidWindows(s.slot.amStartTime, s.slot.amEndTime,
                                     s.slot.pmStartTime, s.slot.pmEndTime, s.slot.interval)
  {
    match FindOverride(db, b, d)
    case Some(o) =>
      assert OverrideStored((Some(b), d), o);
      if o.isClosed then ClosedDay else Open(ToStandard(o), o.closedSlots)
    case None =>
      match FindTemplate(db, b, DayOfWeek(d))
      case Some(ts) =>
        assert TemplateStored((b, DayOfWeek(d)), ts);
        Open(ts, None)
      case None => NoSchedule
  }

  /** The available list of a date whose date check passed: the base list of
      the resolved schedule minus the start times of that barber's bookings
      on the date; None (null) for a closed or missing schedule. */
  function DaySlots(db: Db, b: BarberId, d: Date): (r: Option<seq<Minute>>)
    requires db.Valid()
    ensures r.None? <==> !Resolve(db, b, d).Open?
  {
    match Resolve(db, b, d)
    case Open(ts, c) => Some(RemoveAll(TimeSlots(ts, c), FindStartTimesByBarberIdAndDate(db.bookings, b, d)))
    case _ => None
  }

  /** getAvailableTimeSlots. */
  function AvailableTimeSlots(db: Db, b: BarberId, d: Date, today: Date): (r: Result<Option<seq<Minute>>, Error>)
    requires db.Valid()
    ensures r.Failure? <==> d < today
    ensures r.Failure? ==> r.error == InvalidDate
    ensures r.Success? ==> r.value == DaySlots(db, b, d)
  {
    if ValidateDate(d, today).Fail? then Failure(InvalidDate) else Success(DaySlots(db, b, d))
  }

  /** getAvailableTimeSlots as the service runs it: build the base list, then
      remove the booked start times from it. */
  method GetAvailableTimeSlots(db: Db, b: BarberId, d: Date, today: Date) returns (r: Result<Option<seq<Minute>>, Error>)
    requires db.Valid()
    ensures r == AvailableTimeSlots(db, b, d, today)
  {
    if d < today {
      return Failure(InvalidDate);
    }
    var all: seq<Minute>;
    var o := FindOverride(db, b, d);
    if o.Some? {
      assert OverrideStored((Some(b), d), o.value);
      if o.value.isClosed {
        return Success(None);
      }
      all := GetTimeSlots(ToStandard(o.value), o.value.closedSlots);
    } else {
      var t := FindTemplate(db, b, DayOfWeek(d));
      if t.None? {
        return Success(None);
      }
      assert TemplateStored((b, DayOfWeek(d)), t.value);
      all := GetTimeSlots(t.value, None);
    }
    all := RemoveAll(all, FindStartTimesByBarberIdAndDate(db.bookings, b, d));
    return Success(Some(all));
  }

  /** No booking of that barber on that date starts at t. */
  predicate NoStartAt(db: Db, b: BarberId, d: Date, t: Minute)
  {
    FindByBarberIdAndDateAndStartTime(db.bookings, b, d, t).None?
  }

  /** A date before today is rejected by both availability queries. */
  lemma PastDateRejected(db: Db, cat: Catalog, b: BarberId, d: Date, sid: Option<ServiceId>, today: Date)
    requires db.Valid() && d < today
    ensures AvailableTimeSlots(db, b, d, today) == Failure(InvalidDate)
    ensures AvailableByService(db, cat, b, d, sid, today) == Failure(InvalidDate)
  {
  }

  /** The available list is null exactly for a closed override, or for no
      override and no template for the day of week. */
  lemma DaySlotsNone(db: Db, b: BarberId, d: Date)
    requires db.Valid()
    ensures DaySlots(db, b, d).None? <==>
      (FindOverride(db, b, d).Some? && FindOverride(db, b, d).value.isClosed)
      || (FindOverride(db, b, d).None? && FindTemplate(db, b, DayOfWeek(d)).None?)
  {
  }

  /** The available list holds exactly the base-list times at which no
      booking starts, in base-list order. An override supplies the windows,
      interval and closed slots; without one the template's windows are
      used with nothing closed. */
  lemma DaySlotsSpec(db: Db, b: BarberId, d: Date)
    requires db.Valid() && Resolve(db, b, d).Open?
    ensures var ts, c := Resolve(db, b, d).slot, Resolve(db, b, d).closed;
      && DaySlots(db, b, d).Some?
      && (forall t :: t in DaySlots(db, b, d).value <==> t in TimeSlots(ts, c) && NoStartAt(db, b, d, t))
      && Subseq(DaySlots(db, b, d).value, TimeSlots(ts, c))
      && Subseq(DaySlots(db, b, d).value, AmSlots(ts) + PmSlots(ts))
    ensures FindOverride(db, b, d).Some? ==>
      var o := FindOverride(db, b, d).value;
      forall t :: t in DaySlots(db, b, d).value <==>
        (t in Window(o.amStartTime, o.amEndTime, o.interval) || t in Window(o.pmStartTime, o.pmEndTime, o.interval))
        && t !in ClosedList(o) && NoStartAt(db, b, d, t)
    ensures FindOverride(db, b, d).None? ==>
      var ts := FindTemplate(db, b, DayOfWeek(d)).value;
      forall t :: t in DaySlots(db, b, d).value <==>
        (t in AmSlots(ts) || t in PmSlots(ts)) && NoStartAt(db, b, d, t)
  {
    var ts, c := Resolve(db, b, d).slot, Resolve(db, b, d).closed;
    var starts := FindStartTimesByBarberIdAndDate(db.bookings, b, d);
    var s := DaySlots(db, b, d).value;
    TimeSlotsSpec(ts, c);
    RemoveAllSubseq(TimeSlots(ts, c), starts);
    SubseqTrans(s, TimeSlots(ts, c), AmSlots(ts) + PmSlots(ts));
    forall t ensures t in s <==> t in TimeSlots(ts, c) && NoStartAt(db, b, d, t) {
      if t in starts {
        var k :| k in db.bookings && OfDay(k, b, d) && k.startTime == t;
      }
    }
    if FindOverride(db, b, d).Some? {
      var o := FindOverride(db, b, d).value;
      assert OverrideStored((Some(b), d), o);
    }
  }

  /** The override for a date decides the schedule, the available list and
      the interval whatever the template store holds. */
  lemma OverrideWins(db: Db, templates: map<(BarberId, int), StandardTimeSlot>, b: BarberId, d: Date)
    requires db.Valid() && db.(templates := templates).Valid()
    requires FindOverride(db, b, d).Some?
    ensures Resolve(db.(templates := templates), b, d) == Resolve(db, b, d)
    ensures DaySlots(db.(templates := templates), b, d) == DaySlots(db, b, d)
    ensures GetInterval(db.(templates := templates), b, d) == GetInterval(db, b, d)
  {
    var db' := db.(templates := templates);
    assert FindOverride(db', b, d) == FindOverride(db, b, d);
  }

  /** isBookingAvailable once the date check has passed, branch by branch:
      not in the available list, a booking starting at t, t among the
      override's closed slots, otherwise no booking covering t. */
  function SlotFree(db: Db, b: BarberId, d: Date, t: Minute): bool
    requires db.Valid()
  {
    match DaySlots(db, b, d)
    case None => false
    case Some(available) =>
      if t !in available then false
      else if FindByBarberIdAndDateAndStartTime(db.bookings, b, d, t).Some? then false
      else if FindOverride(db, b, d).Some? && t in ClosedList(FindOverride(db, b, d).value) then true
      else FindConflictingBooking(db.bookings, b, d, t).None?
  }

  /** isBookingAvailable: the date check, then the branches above. */
  function IsBookingAvailable(db: Db, b: BarberId, d: Date, t: Minute, today: Date): (r: Result<bool, Error>)
    requires db.Valid()
    ensures r.Failure? <==> d < today
    ensures r.Failure? ==> r.error == InvalidDate
    ensures r.Success? ==> (r.value <==> SlotFree(db, b, d, t))
  {
    if ValidateDate(d, today).Fail? then Failure(InvalidDate) else Success(SlotFree(db, b, d, t))
  }

  /** A start time is free exactly when it is in the available list and no
      booking of that barber on that date covers it on [start, end); in
      schedule terms: the resolved windows offer it, it is not closed, and
      no booking starts at it or covers it. The closed-slot branch never
      decides anything, since the available list holds no closed slot. */
  lemma SlotFreeSpec(db: Db, b: BarberId, d: Date, t: Minute)
    requires db.Valid()
    ensures SlotFree(db, b, d, t) <==>
      DaySlots(db, b, d).Some? && t in DaySlots(db, b, d).value
      && FindConflictingBooking(db.bookings, b, d, t).None?
    ensures SlotFree(db, b, d, t) <==>
      Resolve(db, b, d).Open? && t in TimeSlots(Resolve(db, b, d).slot, Resolve(db, b, d).closed)
      && (forall k :: k in db.bookings && OfDay(k, b, d) ==> k.startTime != t && !Covers(k, t))
  {
    if Resolve(db, b, d).Open? {
      DaySlotsSpec(db, b, d);
      var ts, c := Resolve(db, b, d).slot, Resolve(db, b, d).closed;
      TimeSlotsSpec(ts, c);
      if FindOverride(db, b, d).Some? {
        assert c == FindOverride(db, b, d).value.closedSlots;
        assert OverrideStored((Some(b), d), FindOverride(db, b, d).value);
      }
    }
  }

  /** A closed slot of an open override is never free. */
  lemma ClosedSlotNeverFree(db: Db, b: BarberId, d: Date, t: Minute)
    requires db.Valid() && FindOverride(db, b, d).Some?
    requires t in ClosedList(FindOverride(db, b, d).value)
    ensures !SlotFree(db, b, d, t)
  {
    SlotFreeSpec(db, b, d, t);
    if Resolve(db, b, d).Open? {
      var o := FindOverride(db, b, d).value;
      assert OverrideStored((Some(b), d), o);
      TimeSlotsSpec(Resolve(db, b, d).slot, Resolve(db, b, d).closed);
    }
  }

  /** getInterval: the override's interval when an override exists (closed
      or not), otherwise the template's; None stands for the null template
      the source dereferences. */
  function GetInterval(db: Db, b: BarberId, d: Date): (r: Option<int>)
    requires db.Valid()
    ensures r.Some? ==> 20 <= r.value <= 60
  {
    match FindOverride(db, b, d)
    case Some(o) =>
      assert OverrideStored((Some(b), d), o);
      Some(o.interval)
    case None =>
      match FindTemplate(db, b, DayOfWeek(d))
      case Some(ts) =>
        assert TemplateStored((b, DayOfWeek(d)), ts);
        Some(ts.interval)
      case None => None
  }

  /** The stepping interval is the one of the schedule the slots come from,
      and it is missing exactly when there is no schedule at all. */
  lemma IntervalOfSchedule(db: Db, b: BarberId, d: Date)
    requires db.Valid()
    ensures Resolve(db, b, d).Open? ==> GetInterval(db, b, d) == Some(Resolve(db, b, d).slot.interval)
    ensures GetInterval(db, b, d).None? <==> Resolve(db, b, d) == NoSchedule
    ensures FindOverride(db, b, d).Some? ==> GetInterval(db, b, d) == Some(FindOverride(db, b, d).value.interval)
  {
  }

  /** The j-th slot of a run that starts at start. */
  function Step(start: Minute, j: int, interval: int): Minute
  {
    start + j * interval
  }

  /** All duration slots of the run starting at start are free. */
  predicate RunFree(db: Db, b: BarberId, d: Date, start: Minute, duration: Duration, interval: int)
    requires db.Valid()
  {
    forall j :: 0 <= j < duration ==> SlotFree(db, b, d, Step(start, j, interval))
  }

  /** The outer loop of getAvailableSequence from index i on: slot i is kept
      when the run of duration slots from it is free, for every i below
      |slots| - (duration - 1). */
  function Sequence(db: Db, b: BarberId, d: Date, slots: seq<Minute>, duration: Duration, interval: int, i: nat): seq<Minute>
    requires db.Valid()
    decreases |slots| - i
  {
    if i < |slots| - (duration - 1) then
      (if RunFree(db, b, d, slots[i], duration, interval) then [slots[i]] else [])
      + Sequence(db, b, d, slots, duration, interval, i + 1)
    else []
  }

  lemma SequenceUnfold(db: Db, b: BarberId, d: Date, slots: seq<Minute>, duration: Duration, interval: int, i: nat)
    requires db.Valid() && i < |slots| - (duration - 1)
    ensures Sequence(db, b, d, slots, duration, interval, i)
         == (if RunFree(db, b, d, slots[i], duration, interval) then [slots[i]] else [])
            + Sequence(db, b, d, slots, duration, interval, i + 1)
  {
  }

  /** A start is kept exactly when it sits at an index that leaves room for
      the whole run and the run is free; the kept starts keep their order. */
  lemma {:induction false} SequenceSpec(db: Db, b: BarberId, d: Date, slots: seq<Minute>, duration: Duration, interval: int, i: nat)
    requires db.Valid() && i <= |slots|
    ensures forall x :: x in Sequence(db, b, d, slots, duration, interval, i) <==>
      exists m :: i <= m < |slots| - (duration - 1) && slots[m] == x && RunFree(db, b, d, x, duration, interval)
    ensures Subseq(Sequence(db, b, d, slots, duration, interval, i), slots[i..])
    decreases |slots| - i
  {
    var r := Sequence(db, b, d, slots, duration, interval, i);
    if i < |slots| - (duration - 1) {
      SequenceSpec(db, b, d, slots, duration, interval, i + 1);
      var rest := Sequence(db, b, d, slots, duration, interval, i + 1);
      assert slots[i..][1..] == slots[i + 1..];
      if RunFree(db, b, d, slots[i], duration, interval) {
        assert r == [slots[i]] + rest;
        assert r[1..] == rest;
      } else {
        assert r == rest;
      }
    } else {
      assert r == [];
      EmptySubseq(slots[i..]);
    }
  }

  /** A start kept from a window leaves room for the whole run inside that
      window: every slot of the run is a slot of the window, so no run
      crosses from the morning window into the afternoon one. */
  lemma RunInWindow(db: Db, b: BarberId, d: Date, start: Minute, end: Minute, duration: Duration, interval: int, x: Minute)
    requires db.Valid() && interval > 0
    requires x in Sequence(db, b, d, Window(start, end, interval), duration, interval, 0)
    ensures forall j :: 0 <= j < duration ==> Step(x, j, interval) in Window(start, end, interval)
    ensures start <= x && Step(x, duration as int - 1, interval) < end
  {
    var w := Window(start, end, interval);
    SequenceSpec(db, b, d, w, duration, interval, 0);
    var m :| 0 <= m < |w| - (duration - 1) && w[m] == x;
    WindowRun(start, end, interval, m, duration);
  }

  /** The run of duration slots from index m of a window, when it fits,
      consists of window slots and ends before the window does. */
  lemma WindowRun(start: Minute, end: Minute, interval: int, m: nat, duration: Duration)
    requires interval > 0 && m + duration - 1 < |Window(start, end, interval)|
    ensures var w := Window(start, end, interval);
      && (forall j :: 0 <= j < duration ==> Step(w[m], j, interval) in w)
      && start <= w[m] && Step(w[m], duration as int - 1, interval) < end
  {
    var w := Window(start, end, interval);
    WindowShape(start, end, interval);
    forall j | 0 <= j < duration ensures Step(w[m], j, interval) in w {
      assert (m + j) * interval == m * interval + j * interval;
      assert w[m + j] == Step(w[m], j, interval);
    }
    assert m * interval >= 0;
    assert Step(w[m], duration as int - 1, interval) == w[m + duration - 1];
  }

  /** The service length in slots: 1 when no service is given, otherwise
      the stored duration, which may be below 1; a service missing from the
      catalog makes the duration query fail. */
  function ServiceDuration(cat: Catalog, b: BarberId, sid: Option<ServiceId>): (r: Result<int, Error>)
    ensures sid.None? ==> r == Success(1)
    ensures sid.Some? ==> (r.Success? <==> (b, sid.value) in cat.services)
    ensures sid.Some? && r.Success? ==> r.value == cat.services[(b, sid.value)]
    ensures r.Failure? ==> r.error == NullReference
  {
    match sid
    case None => Success(1)
    case Some(s) => if (b, s) in cat.services then Success(cat.services[(b, s)]) else Failure(NullReference)
  }

  /** getAvailableSequence: the duration first, then the interval, then the
      starts of the given run whose whole sequence of slots is free. With a
      duration below 1 the outer loop's bound exceeds the list's length, so
      the loop reads past the end of the list and raises. */
  function AvailableSequence(db: Db, cat: Catalog, slots: seq<Minute>, b: BarberId, d: Date, sid: Option<ServiceId>): (r: Result<seq<Minute>, Error>)
    requires db.Valid()
    ensures r.Success? ==> Subseq(r.value, slots)
    ensures r.Failure? <==> (ServiceDuration(cat, b, sid).Failure? || GetInterval(db, b, d).None?
                             || ServiceDuration(cat, b, sid).value < 1)
    ensures r.Failure? ==> (r.error ==
      if ServiceDuration(cat, b, sid).Failure? || GetInterval(db, b, d).None? then NullReference
      else IndexOutOfBounds)
  {
    match ServiceDuration(cat, b, sid)
    case Failure(e) => Failure(e)
    case Success(duration) =>
      match GetInterval(db, b, d)
      case None => Failure(NullReference)
      case Some(interval) =>
        if duration < 1 then Failure(IndexOutOfBounds)
        else
          SequenceSpec(db, b, d, slots, duration, interval, 0);
          assert slots[0..] == slots;
          Success(Sequence(db, b, d, slots, duration, interval, 0))
  }

  lemma AvailableSequenceValue(db: Db, cat: Catalog, slots: seq<Minute>, b: BarberId, d: Date, sid: Option<ServiceId>,
                               duration: Duration, interval: int)
    requires db.Valid()
    requires ServiceDuration(cat, b, sid) == Success(duration as int) && GetInterval(db, b, d) == Some(interval)
    ensures AvailableSequence(db, cat, slots, b, d, sid) == Success(Sequence(db, b, d, slots, duration, interval, 0))
  {
  }

  /** getAvailableSequence as the service runs it: look up the duration,
      then the interval, then collect the starts whose runs are free. */
  method GetAvailableSequence(db: Db, cat: Catalog, slots: seq<Minute>, b: BarberId, d: Date, sid: Option<ServiceId>)
    returns (r: Result<seq<Minute>, Error>)
    requires db.Valid()
    ensures r == AvailableSequence(db, cat, slots, b, d, sid)
  {
    var duration: int;
    if sid.None? {
      duration := 1;
    } else {
      if (b, sid.value) !in cat.services {
        return Failure(NullReference);
      }
      duration := cat.services[(b, sid.value)];
    }
    var iv := GetInterval(db, b, d);
    if iv.None? {
      return Failure(NullReference);
    }
    if duration < 1 {
      // the outer loop runs up to index |slots| and reads past the end
      return Failure(IndexOutOfBounds);
    }
    var available := CollectFreeRuns(db, b, d, slots, duration, iv.value);
    AvailableSequenceValue(db, cat, slots, b, d, sid, duration, iv.value);
    return Success(available);
  }

  /** The outer loop of getAvailableSequence: each candidate index whose
      run leaves room in the list is checked, and its slot kept when the
      whole run is free. */
  method CollectFreeRuns(db: Db, b: BarberId, d: Date, slots: seq<Minute>, duration: Duration, interval: int)
    returns (available: seq<Minute>)
    requires db.Valid()
    ensures available == Sequence(db, b, d, slots, duration, interval, 0)
  {
    available := [];
    var i := 0;
    while i < |slots| - (duration - 1)
      invariant i <= |slots| - (duration - 1) || i == 0
      invariant available + Sequence(db, b, d, slots, duration, interval, i)
             == Sequence(db, b, d, slots, duration, interval, 0)
      decreases |slots| - i
    {
      var slot := slots[i];
      var isSequenceAvailable := CheckRun(db, b, d, slot, duration, interval);
      SequenceUnfold(db, b, d, slots, duration, interval, i);
      if isSequenceAvailable {
        available := available + [slot];
      }
      i := i + 1;
    }
    assert Sequence(db, b, d, slots, duration, interval, i) == [];
  }

  /** The inner loop of getAvailableSequence: step from the run's first slot
      by the interval, and stop at the first slot that is not free. */
  method CheckRun(db: Db, b: BarberId, d: Date, slot: Minute, duration: Duration, interval: int)
    returns (isSequenceAvailable: bool)
    requires db.Valid()
    ensures isSequenceAvailable <==> RunFree(db, b, d, slot, duration, interval)
  {
    isSequenceAvailable := true;
    var nextSlot := slot;
    var j := 0;
    while j < duration
      invariant 0 <= j <= duration
      invariant nextSlot == Step(slot, j, interval)
      invariant forall k :: 0 <= k < j ==> SlotFree(db, b, d, Step(slot, k, interval))
    {
      if !SlotFree(db, b, d, nextSlot) {
        isSequenceAvailable := false;
        break;
      }
      nextSlot := nextSlot + interval;
      j := j + 1;
      assert Step(slot, j, interval) == Step(slot, j - 1, interval) + interval;
    }
  }

  /** getAvailableTimeSlotsByService: the date check, the two-layer lookup,
      the free runs of the morning window followed by those of the
      afternoon window, and then the override's closed slots removed. */
  function AvailableByService(db: Db, cat: Catalog, b: BarberId, d: Date, sid: Option<ServiceId>, today: Date)
    : (r: Result<Option<seq<Minute>>, Error>)
    requires db.Valid()
    ensures d < today ==> r == Failure(InvalidDate)
    ensures r == Success(None) <==> d >= today && !Resolve(db, b, d).Open?
  {
    if ValidateDate(d, today).Fail? then Failure(InvalidDate)
    else
      match Resolve(db, b, d)
      case Open(ts, c) =>
        (match AvailableSequence(db, cat, AmSlots(ts), b, d, sid)
         case Failure(e) => Failure(e)
         case Success(am) =>
           match AvailableSequence(db, cat, PmSlots(ts), b, d, sid)
           case Failure(e) => Failure(e)
           case Success(pm) =>
             Success(Some(if c.Some? then RemoveAll(am + pm, c.value) else am + pm)))
      case _ => Success(None)
  }

  /** The by-service query fails only for a past date, or for an open day
      whose service has no duration row or a stored duration below 1. */
  lemma ByServiceFailure(db: Db, cat: Catalog, b: BarberId, d: Date, sid: Option<ServiceId>, today: Date)
    requires db.Valid()
    ensures AvailableByService(db, cat, b, d, sid, today).Failure? <==>
      d < today || (Resolve(db, b, d).Open? && (ServiceDuration(cat, b, sid).Failure? || ServiceDuration(cat, b, sid).value < 1))
    ensures d >= today && AvailableByService(db, cat, b, d, sid, today).Failure? ==>
      AvailableByService(db, cat, b, d, sid, today).error ==
        if ServiceDuration(cat, b, sid).Failure? then NullReference else IndexOutOfBounds
  {
    IntervalOfSchedule(db, b, d);
  }

  /** getAvailableTimeSlotsByService as the service runs it. */
  method GetAvailableTimeSlotsByService(db: Db, cat: Catalog, b: BarberId, d: Date, sid: Option<ServiceId>, today: Date)
    returns (r: Result<Option<seq<Minute>>, Error>)
    requires db.Valid()
    ensures r == AvailableByService(db, cat, b, d, sid, today)
  {
    if d < today {
      return Failure(InvalidDate);
    }
    var closed: Option<seq<Minute>> := None;
    var ts: StandardTimeSlot;
    var o := FindOverride(db, b, d);
    if o.Some? {
      assert OverrideStored((Some(b), d), o.value);
      if o.value.isClosed {
        return Success(None);
      }
      ts := ToStandard(o.value);
      closed := o.value.closedSlots;
    } else {
      var t := FindTemplate(db, b, DayOfWeek(d));
      if t.None? {
        return Success(None);
      }
      assert TemplateStored((b, DayOfWeek(d)), t.value);
      ts := t.value;
    }
    var amSlots := WindowTimeSlots(ts.amStartTime, ts.amEndTime, ts.interval);
    var pmSlots := WindowTimeSlots(ts.pmStartTime, ts.pmEndTime, ts.interval);
    var am := GetAvailableSequence(db, cat, amSlots, b, d, sid);
    if am.Failure? {
      return Failure(am.error);
    }
    // the second call looks up the same duration and interval, so it
    // cannot fail once the first one succeeded
    var pm := GetAvailableSequence(db, cat, pmSlots, b, d, sid);
    assert pm.Success?;
    var available := am.value + pm.value;
    if closed.Some? {
      available := RemoveAll(available, closed.value);
    }
    return Success(Some(available));
  }

  /** The list the by-service query builds once the schedule is open and
      the duration known: the kept starts of the morning window, then those
      of the afternoon window, minus the closed slots. */
  function ServiceStarts(db: Db, ts: StandardTimeSlot, c: Option<seq<Minute>>, b: BarberId, d: Date, duration: Duration): seq<Minute>
    requires db.Valid() && ts.interval > 0
  {
    var am := Sequence(db, b, d, AmSlots(ts), duration, ts.interval, 0);
    var pm := Sequence(db, b, d, PmSlots(ts), duration, ts.interval, 0);
    if c.Some? then RemoveAll(am + pm, c.value) else am + pm
  }

  lemma ByServiceShape(db: Db, cat: Catalog, b: BarberId, d: Date, sid: Option<ServiceId>, today: Date)
    requires db.Valid()
    requires AvailableByService(db, cat, b, d, sid, today).Success?
    requires AvailableByService(db, cat, b, d, sid, today).value.Some?
    ensures Resolve(db, b, d).Open? && ServiceDuration(cat, b, sid).Success? && ServiceDuration(cat, b, sid).value >= 1
    ensures AvailableByService(db, cat, b, d, sid, today).value.value
         == ServiceStarts(db, Resolve(db, b, d).slot, Resolve(db, b, d).closed, b, d, ServiceDuration(cat, b, sid).value)
  {
    IntervalOfSchedule(db, b, d);
  }

  /** Every start in s lies in one window with its whole run inside it, has
      its run free and is not closed, and s keeps morning-then-afternoon
      order. */
  ghost predicate WellPlacedStarts(db: Db, ts: StandardTimeSlot, c: Option<seq<Minute>>, b: BarberId, d: Date,
                                   duration: Duration, s: seq<Minute>)
    requires db.Valid() && ts.interval > 0
  {
    && (forall x :: x in s ==>
          && ((x in AmSlots(ts) && Step(x, duration as int - 1, ts.interval) < ts.amEndTime)
              || (x in PmSlots(ts) && Step(x, duration as int - 1, ts.interval) < ts.pmEndTime))
          && RunFree(db, b, d, x, duration, ts.interval)
          && (c.Some? ==> x !in c.value))
    && Subseq(s, AmSlots(ts) + PmSlots(ts))
  }

  lemma ServiceStartsSpec(db: Db, ts: StandardTimeSlot, c: Option<seq<Minute>>, b: BarberId, d: Date, duration: Duration)
    requires db.Valid() && ts.interval > 0
    ensures WellPlacedStarts(db, ts, c, b, d, duration, ServiceStarts(db, ts, c, b, d, duration))
  {
    var s := ServiceStarts(db, ts, c, b, d, duration);
    var iv := ts.interval;
    var am := Sequence(db, b, d, AmSlots(ts), duration, iv, 0);
    var pm := Sequence(db, b, d, PmSlots(ts), duration, iv, 0);
    var base := am + pm;
    SequenceSpec(db, b, d, AmSlots(ts), duration, iv, 0);
    SequenceSpec(db, b, d, PmSlots(ts), duration, iv, 0);
    assert AmSlots(ts)[0..] == AmSlots(ts) && PmSlots(ts)[0..] == PmSlots(ts);
    SubseqConcat(am, AmSlots(ts), pm, PmSlots(ts));
    if c.Some? {
      RemoveAllSubseq(base, c.value);
      SubseqTrans(s, base, AmSlots(ts) + PmSlots(ts));
    }
    forall x | x in s
      ensures (x in AmSlots(ts) && Step(x, duration as int - 1, iv) < ts.amEndTime)
              || (x in PmSlots(ts) && Step(x, duration as int - 1, iv) < ts.pmEndTime)
      ensures RunFree(db, b, d, x, duration, iv)
    {
      assert x in base;
      if x in am {
        RunInWindow(db, b, d, ts.amStartTime, ts.amEndTime, duration, iv, x);
      } else {
        RunInWindow(db, b, d, ts.pmStartTime, ts.pmEndTime, duration, iv, x);
      }
    }
  }

  /** Every start the by-service query offers lies in the morning or the
      afternoon window with its whole run inside that window, has all its
      run's slots free, and is not a closed slot; the starts keep
      morning-then-afternoon order, increasing when the morning window ends
      before the afternoon one starts. */
  lemma ByServiceSpec(db: Db, cat: Catalog, b: BarberId, d: Date, sid: Option<ServiceId>, today: Date)
    requires db.Valid()
    requires AvailableByService(db, cat, b, d, sid, today).Success?
    requires AvailableByService(db, cat, b, d, sid, today).value.Some?
    ensures Resolve(db, b, d).Open? && ServiceDuration(cat, b, sid).Success? && ServiceDuration(cat, b, sid).value >= 1
    ensures var s := AvailableByService(db, cat, b, d, sid, today).value.value;
      var ts := Resolve(db, b, d).slot;
      && WellPlacedStarts(db, ts, Resolve(db, b, d).closed, b, d, ServiceDuration(cat, b, sid).value, s)
      && (ts.amEndTime <= ts.pmStartTime ==> Increasing(s))
  {
    ByServiceShape(db, cat, b, d, sid, today);
    var ts, c := Resolve(db, b, d).slot, Resolve(db, b, d).closed;
    var duration := ServiceDuration(cat, b, sid).value;
    var s := ServiceStarts(db, ts, c, b, d, duration);
    ServiceStartsSpec(db, ts, c, b, d, duration);
    if ts.amEndTime <= ts.pmStartTime {
      WindowsIncreasing(ts);
      SubseqIncreasing(s, AmSlots(ts) + PmSlots(ts));
    }
  }

  /** isBkAvailable: isBookingAvailable for t, and t among the starts the
      by-service query offers. */
  function IsBkAvailable(db: Db, cat: Catalog, b: BarberId, d: Date, t: Minute, sid: Option<ServiceId>, today: Date)
    : (r: Result<bool, Error>)
    requires db.Valid()
    ensures r.Failure? <==> AvailableByService(db, cat, b, d, sid, today).Failure?
  {
    match AvailableByService(db, cat, b, d, sid, today)
    case Failure(e) => Failure(e)
    case Success(list) =>
      Success(IsBookingAvailable(db, b, d, t, today).value && list.Some? && t in list.value)
  }

  /** A start time passes isBkAvailable exactly when the by-service query
      offers it (the single-slot check adds nothing, since the run's first
      slot is t itself); then every slot of the run from t is free, and no
      booking of that barber on that date starts at or covers any of them. */
  lemma IsBkAvailableSpec(db: Db, cat: Catalog, b: BarberId, d: Date, t: Minute, sid: Option<ServiceId>, today: Date)
    requires db.Valid()
    ensures IsBkAvailable(db, cat, b, d, t, sid, today) == Success(true) <==>
      AvailableByService(db, cat, b, d, sid, today).Success?
      && AvailableByService(db, cat, b, d, sid, today).value.Some?
      && t in AvailableByService(db, cat, b, d, sid, today).value.value
    ensures IsBkAvailable(db, cat, b, d, t, sid, today) == Success(true) ==>
      && Resolve(db, b, d).Open? && ServiceDuration(cat, b, sid).Success? && ServiceDuration(cat, b, sid).value >= 1
      && forall j, k :: 0 <= j < ServiceDuration(cat, b, sid).value && k in db.bookings && OfDay(k, b, d) ==>
           k.startTime != Step(t, j, Resolve(db, b, d).slot.interval)
           && !Covers(k, Step(t, j, Resolve(db, b, d).slot.interval))
  {
    var r := AvailableByService(db, cat, b, d, sid, today);
    if r.Success? && r.value.Some? && t in r.value.value {
      ByServiceSpec(db, cat, b, d, sid, today);
      var duration := ServiceDuration(cat, b, sid).value;
      var iv := Resolve(db, b, d).slot.interval;
      assert RunFree(db, b, d, t, duration, iv);
      assert Step(t, 0, iv) == t;
      forall j | 0 <= j < duration
        ensures forall k :: k in db.bookings && OfDay(k, b, d) ==> k.startTime != Step(t, j, iv) && !Covers(k, Step(t, j, iv))
      {
        SlotFreeSpec(db, b, d, Step(t, j, iv));
      }
    }
  }
}
