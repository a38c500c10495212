/** The schedule-configuration service: validators for a weekly template
    and for a date override, upserts of both, the open/closed toggle of a
    date, the closed-slot edits and the removal of an override. Each
    operation is specified by a function from the stores before the call to
    its outcome and the stores after it; the methods run the operation on
    the repositories and the entity class. */
module TimeSlotService {
  import opened Common
  import opened Entities
  import opened SlotGenerator
  import opened BookingRepository
  import opened Availability
  import opened OverrideEntity

  /** validateDayOfWeek: 1 (Monday) to 7 (Sunday). */
  function ValidateDayOfWeek(day: int): (o: Outcome<Error>)
    ensures o.Fail? <==> day < 1 || day > 7
    ensures o.Fail? ==> o.error == InvalidDayOfWeek
  {
    if day > 7 || day < 1 then Fail(InvalidDayOfWeek) else Pass
  }

  /** validateTimeStarts: a window may be empty but not reversed. */
  function ValidateTimeStarts(start: Minute, end: Minute): (o: Outcome<Error>)
    ensures o.Fail? <==> start > end
    ensures o.Fail? ==> o.error == InvalidStartTime
  {
    if start > end then Fail(InvalidStartTime) else Pass
  }

  /** validateInterval: 20 to 60 minutes, both bounds included. */
  function ValidateInterval(interval: int): (o: Outcome<Error>)
    ensures o.Fail? <==> interval < 20 || interval > 60
    ensures o.Fail? ==> o.error == InvalidTimeInterval
  {
    if interval < 20 || interval > 60 then Fail(InvalidTimeInterval) else Pass
  }

  /** validateTimeSlot: day of week, then the morning window, then the
      afternoon window, then the interval; the first failing check decides
      the error. */
  function ValidateTimeSlot(dto: StandardTimeSlot): (o: Outcome<Error>)
    ensures o.Pass? <==> (1 <= dto.dayOfWeek <= 7
      && ValidWindows(dto.amStartTime, dto.amEndTime, dto.pmStartTime, dto.pmEndTime, dto.interval))
    ensures o.Fail? ==> (o.error ==
      if dto.dayOfWeek < 1 || dto.dayOfWeek > 7 then InvalidDayOfWeek
      else if dto.amStartTime > dto.amEndTime || dto.pmStartTime > dto.pmEndTime then InvalidStartTime
      else InvalidTimeInterval)
  {
    Then(ValidateDayOfWeek(dto.dayOfWeek),
      Then(ValidateTimeStarts(dto.amStartTime, dto.amEndTime),
        Then(ValidateTimeStarts(dto.pmStartTime, dto.pmEndTime),
          ValidateInterval(dto.interval))))
  }

  /** validateEditedTimeSlot: the date, then the morning window, then the
      afternoon window, then the interval. */
  function ValidateEditedTimeSlot(dto: EditedTimeSlot, today: Date): (o: Outcome<Error>)
    ensures o.Pass? <==> (dto.date >= today
      && ValidWindows(dto.amStartTime, dto.amEndTime, dto.pmStartTime, dto.pmEndTime, dto.interval))
    ensures o.Fail? ==> (o.error ==
      if dto.date < today then InvalidDate
      else if dto.amStartTime > dto.amEndTime || dto.pmStartTime > dto.pmEndTime then InvalidStartTime
      else InvalidTimeInterval)
  {
    Then(ValidateDate(dto.date, today),
      Then(ValidateTimeStarts(dto.amStartTime, dto.amEndTime),
        Then(ValidateTimeStarts(dto.pmStartTime, dto.pmEndTime),
          ValidateInterval(dto.interval))))
  }

  /** The bounds of the validators: an empty window and the intervals 20
      and 60 are accepted; 19, 61 and a reversed window are not. */
  lemma ValidatorBounds(t: Minute)
    ensures ValidateTimeStarts(t, t) == Pass && ValidateTimeStarts(t + 1, t) == Fail(InvalidStartTime)
    ensures ValidateInterval(20) == Pass && ValidateInterval(60) == Pass
    ensures ValidateInterval(19) == Fail(InvalidTimeInterval) && ValidateInterval(61) == Fail(InvalidTimeInterval)
    ensures ValidateDayOfWeek(0) == Fail(InvalidDayOfWeek) && ValidateDayOfWeek(8) == Fail(InvalidDayOfWeek)
  {
  }

  /** updateTimeSlotFromDTO: the four window bounds and the interval. */
  function UpdatedTemplate(t: StandardTimeSlot, dto: StandardTimeSlot): StandardTimeSlot
  {
    t.(amStartTime := dto.amStartTime, amEndTime := dto.amEndTime,
       pmStartTime := dto.pmStartTime, pmEndTime := dto.pmEndTime, interval := dto.interval)
  }

  /** setTimeSlot: validate, then update the (barber, day) template in place
      or create it. Either way the stored template is the request; nothing
      is saved when a check fails, and no other key changes. */
  function SetTimeSlotEffect(db: Db, b: BarberId, dto: StandardTimeSlot): (e: Effect)
    requires db.Valid()
    ensures e.outcome == ValidateTimeSlot(dto)
    ensures e.db.Valid()
    ensures e.outcome.Fail? ==> e.db == db
    ensures e.outcome.Pass? ==> e.db == db.(templates := db.templates[(b, dto.dayOfWeek) := dto])
  {
    var v := ValidateTimeSlot(dto);
    if v.Fail? then Effect(v, db)
    else
      var key := (b, dto.dayOfWeek);
      var saved := if key in db.templates then UpdatedTemplate(db.templates[key], dto) else dto;
      assert key in db.templates ==> TemplateStored(key, db.templates[key]);
      Effect(Pass, db.(templates := db.templates[key := saved]))
  }

  /** updateTimeSlotOverrideFromDTO: the windows, the interval, the flag and
      the closed slots; barber and date stay. */
  function UpdatedOverride(o: OverrideRecord, dto: EditedTimeSlot): OverrideRecord
  {
    o.(amStartTime := dto.amStartTime, amEndTime := dto.amEndTime,
       pmStartTime := dto.pmStartTime, pmEndTime := dto.pmEndTime, interval := dto.interval,
       isClosed := dto.isClosed, closedSlots := dto.closedSlots)
  }

  /** editTimeSlot: validate, then update the (barber, date) override in
      place or create it. Either way the stored override is the request
      under that barber; nothing is saved when a check fails. */
  function EditTimeSlotEffect(db: Db, b: BarberId, dto: EditedTimeSlot, today: Date): (e: Effect)
    requires db.Valid()
    ensures e.outcome == ValidateEditedTimeSlot(dto, today)
    ensures e.db.Valid()
    ensures e.outcome.Fail? ==> e.db == db
    ensures e.outcome.Pass? ==>
      e.db == db.(overrides := db.overrides[(Some(b), dto.date) := Persisted(EditedRecord(b, dto))])
  {
    var v := ValidateEditedTimeSlot(dto, today);
    if v.Fail? then Effect(v, db)
    else
      var key := (Some(b), dto.date);
      var saved := if key in db.overrides then UpdatedOverride(db.overrides[key], dto) else EditedRecord(b, dto);
      assert key in db.overrides ==> OverrideStored(key, db.overrides[key]);
      Effect(Pass, db.(overrides := db.overrides[key := Persisted(saved)]))
  }

  /** After a successful edit the date resolves to the request: closed when
      it says closed, otherwise its windows with its closed slots. */
  lemma EditedDateResolves(db: Db, b: BarberId, dto: EditedTimeSlot, today: Date)
    requires db.Valid() && EditTimeSlotEffect(db, b, dto, today).outcome.Pass?
    ensures var after := EditTimeSlotEffect(db, b, dto, today).db;
      Resolve(after, b, dto.date) ==
        if dto.isClosed then ClosedDay
        else Open(StandardTimeSlot(DayOfWeek(dto.date), dto.amStartTime, dto.amEndTime,
                                   dto.pmStartTime, dto.pmEndTime, dto.interval),
                  Some(ClosedList(EditedRecord(b, dto))))
  {
  }

  /** setDataAvailability with the override it creates recorded under the
      barber: reject a past date; on an existing override change only
      isClosed, to !isOpen; otherwise copy the weekday's template into a new
      override, which fails when there is no template. */
  function SetDataAvailabilityEffect(db: Db, b: BarberId, d: Date, isOpen: bool, today: Date): (e: Effect)
    requires db.Valid()
    ensures e.db.Valid()
    ensures e.outcome.Fail? <==> d < today || (FindOverride(db, b, d).None? && FindTemplate(db, b, DayOfWeek(d)).None?)
    ensures e.outcome.Fail? ==> e.db == db && e.outcome.error == if d < today then InvalidDate else NullReference
    ensures e.outcome.Pass? ==>
      && e.db.templates == db.templates && e.db.bookings == db.bookings
      && FindOverride(e.db, b, d).Some?
      && e.db.overrides == db.overrides[(Some(b), d) := FindOverride(e.db, b, d).value]
      && FindOverride(e.db, b, d).value.isClosed == !isOpen
    ensures e.outcome.Pass? && FindOverride(db, b, d).Some? ==>
      FindOverride(e.db, b, d).value == FindOverride(db, b, d).value.(isClosed := !isOpen)
    ensures e.outcome.Pass? && FindOverride(db, b, d).None? ==>
      FindOverride(e.db, b, d).value == Persisted(TemplateRecord(Some(b), d, FindTemplate(db, b, DayOfWeek(d)).value, isOpen))
  {
    if d < today then Effect(Fail(InvalidDate), db)
    else
      var key := (Some(b), d);
      if key in db.overrides then
        assert OverrideStored(key, db.overrides[key]);
        Effect(Pass, db.(overrides := db.overrides[key := db.overrides[key].(isClosed := !isOpen)]))
      else match FindTemplate(db, b, DayOfWeek(d))
        case None => Effect(Fail(NullReference), db)
        case Some(ts) =>
          assert TemplateStored((b, DayOfWeek(d)), ts);
          Effect(Pass, db.(overrides := db.overrides[key := Persisted(TemplateRecord(Some(b), d, ts, isOpen))]))
  }

  /** setDataAvailability as written: the override made from the template
      leaves its barber unset, so it is saved under (null, date). */
  function SetDataAvailabilityAsWrittenEffect(db: Db, b: BarberId, d: Date, isOpen: bool, today: Date): (e: Effect)
    requires db.Valid()
    ensures e.db.Valid()
    ensures e.outcome.Fail? <==> d < today || (FindOverride(db, b, d).None? && FindTemplate(db, b, DayOfWeek(d)).None?)
    ensures e.outcome.Fail? ==> e.db == db
    ensures e.outcome.Pass? && FindOverride(db, b, d).None? ==>
      e.db == db.(overrides := db.overrides[(None, d) := Persisted(TemplateRecord(None, d, FindTemplate(db, b, DayOfWeek(d)).value, isOpen))])
  {
    if d < today then Effect(Fail(InvalidDate), db)
    else
      var key := (Some(b), d);
      if key in db.overrides then
        assert OverrideStored(key, db.overrides[key]);
        Effect(Pass, db.(overrides := db.overrides[key := db.overrides[key].(isClosed := !isOpen)]))
      else match FindTemplate(db, b, DayOfWeek(d))
        case None => Effect(Fail(NullReference), db)
        case Some(ts) =>
          assert TemplateStored((b, DayOfWeek(d)), ts);
          Effect(Pass, db.(overrides := db.overrides[(None, d) := Persisted(TemplateRecord(None, d, ts, isOpen))]))
  }

  /** As written, closing a date that has no override yet succeeds but
      changes nothing that any (barber, date) query sees: the date keeps its
      template slots and stays bookable. */
  lemma ClosingIgnoredAsWritten(db: Db, b: BarberId, d: Date, today: Date)
    requires db.Valid() && d >= today
    requires FindOverride(db, b, d).None? && FindTemplate(db, b, DayOfWeek(d)).Some?
    ensures SetDataAvailabilityAsWrittenEffect(db, b, d, false, today).outcome == Pass
    ensures var after := SetDataAvailabilityAsWrittenEffect(db, b, d, false, today).db;
      && Resolve(after, b, d) == Resolve(db, b, d)
      && DaySlots(after, b, d) == DaySlots(db, b, d)
      && DaySlots(after, b, d).Some?
  {
    var after := SetDataAvailabilityAsWrittenEffect(db, b, d, false, today).db;
    assert FindOverride(after, b, d) == None;
    assert FindTemplate(after, b, DayOfWeek(d)) == FindTemplate(db, b, DayOfWeek(d));
  }

  /** With the barber recorded, closing a date always takes effect: the
      date offers no slot to any query. */
  lemma ClosingCloses(db: Db, cat: Catalog, b: BarberId, d: Date, sid: Option<ServiceId>, t: Minute, today: Date)
    requires db.Valid() && SetDataAvailabilityEffect(db, b, d, false, today).outcome == Pass
    ensures var after := SetDataAvailabilityEffect(db, b, d, false, today).db;
      && Resolve(after, b, d) == ClosedDay
      && DaySlots(after, b, d) == None
      && AvailableByService(after, cat, b, d, sid, today) == Success(None)
      && !SlotFree(after, b, d, t)
  {
  }

  /** Opening a date that has no override yet creates one that offers
      exactly what the template offered. */
  lemma OpeningKeepsTemplate(db: Db, b: BarberId, d: Date, today: Date)
    requires db.Valid() && d >= today
    requires FindOverride(db, b, d).None? && FindTemplate(db, b, DayOfWeek(d)).Some?
    ensures SetDataAvailabilityEffect(db, b, d, true, today).outcome == Pass
    ensures DaySlots(SetDataAvailabilityEffect(db, b, d, true, today).db, b, d) == DaySlots(db, b, d)
  {
    var after := SetDataAvailabilityEffect(db, b, d, true, today).db;
    var ts := FindTemplate(db, b, DayOfWeek(d)).value;
    assert TemplateStored((b, DayOfWeek(d)), ts);
    var o := FindOverride(after, b, d).value;
    assert o == Persisted(TemplateRecord(Some(b), d, ts, true));
    var ts' := ToStandard(o);
    assert AmSlots(ts') == AmSlots(ts) && PmSlots(ts') == PmSlots(ts);
    RemoveAllNothing(AmSlots(ts) + PmSlots(ts));
    assert TimeSlots(ts', Some([])) == TimeSlots(ts, None);
    assert Resolve(after, b, d) == Open(ts', Some([]));
    assert Resolve(db, b, d) == Open(ts, None);
  }

  /** The three closed-slot edits. */
  datatype ClosedEdit = Add(slots: seq<Minute>) | Remove(slots: seq<Minute>) | Clear

  function Applied(o: OverrideRecord, edit: ClosedEdit): OverrideRecord
    requires o.closedSlots.Some?
  {
    match edit
    case Add(slots) => AddedClosed(o, slots)
    case Remove(slots) => RemovedClosed(o, slots)
    case Clear => o.(closedSlots := Some([]))
  }

  /** addClosedSlots, removeClosedSlots and clearClosedSlots: reject a past
      date, then fail with TimeSlotNotFound when the barber has no override
      for the date, leaving the stores as they were; otherwise apply the
      edit to that override's closed slots and change nothing else. */
  function ClosedSlotsEffect(db: Db, b: BarberId, d: Date, edit: ClosedEdit, today: Date): (e: Effect)
    requires db.Valid()
    ensures e.db.Valid()
    ensures e.outcome.Fail? <==> d < today || FindOverride(db, b, d).None?
    ensures e.outcome.Fail? ==> e.db == db && e.outcome.error == if d < today then InvalidDate else TimeSlotNotFound
    ensures e.outcome.Pass? ==>
      e.db == db.(overrides := db.overrides[(Some(b), d) := Applied(FindOverride(db, b, d).value, edit)])
  {
    if d < today then Effect(Fail(InvalidDate), db)
    else
      var key := (Some(b), d);
      if key !in db.overrides then Effect(Fail(TimeSlotNotFound), db)
      else
        assert OverrideStored(key, db.overrides[key]);
        Effect(Pass, db.(overrides := db.overrides[key := Applied(db.overrides[key], edit)]))
  }

  /** Once slots are added to a date's closed list, none of them is free. */
  lemma AddedSlotsNotFree(db: Db, b: BarberId, d: Date, slots: seq<Minute>, today: Date, t: Minute)
    requires db.Valid() && ClosedSlotsEffect(db, b, d, Add(slots), today).outcome == Pass
    requires t in slots
    ensures !SlotFree(ClosedSlotsEffect(db, b, d, Add(slots), today).db, b, d, t)
  {
    var after := ClosedSlotsEffect(db, b, d, Add(slots), today).db;
    var o := FindOverride(after, b, d).value;
    assert t in ClosedList(o) by {
      assert ClosedList(o)[|FindOverride(db, b, d).value.closedSlots.value|..] == slots;
    }
    ClosedSlotNeverFree(after, b, d, t);
  }

  /** After removing slots from an open date's closed list, each of them is
      available again exactly when a window offers it and no booking starts
      there. */
  lemma RemovedSlotsReopen(db: Db, b: BarberId, d: Date, slots: seq<Minute>, today: Date, t: Minute)
    requires db.Valid() && ClosedSlotsEffect(db, b, d, Remove(slots), today).outcome == Pass
    requires !FindOverride(db, b, d).value.isClosed && t in slots
    ensures var after := ClosedSlotsEffect(db, b, d, Remove(slots), today).db;
      var o := FindOverride(db, b, d).value;
      && DaySlots(after, b, d).Some?
      && (t in DaySlots(after, b, d).value <==>
            (t in Window(o.amStartTime, o.amEndTime, o.interval) || t in Window(o.pmStartTime, o.pmEndTime, o.interval))
            && NoStartAt(db, b, d, t))
  {
    var after := ClosedSlotsEffect(db, b, d, Remove(slots), today).db;
    assert FindOverride(after, b, d).Some?;
    DaySlotsSpec(after, b, d);
  }

  /** Clearing an open date's closed list gives back the whole base list of
      its windows, minus the booked start times. */
  lemma ClearReopensAll(db: Db, b: BarberId, d: Date, today: Date)
    requires db.Valid() && ClosedSlotsEffect(db, b, d, Clear, today).outcome == Pass
    requires !FindOverride(db, b, d).value.isClosed
    ensures var after := ClosedSlotsEffect(db, b, d, Clear, today).db;
      var ts := ToStandard(FindOverride(db, b, d).value);
      DaySlots(after, b, d) == Some(RemoveAll(AmSlots(ts) + PmSlots(ts), FindStartTimesByBarberIdAndDate(db.bookings, b, d)))
  {
    var ts := ToStandard(FindOverride(db, b, d).value);
    assert OverrideStored((Some(b), d), FindOverride(db, b, d).value);
    RemoveAllNothing(AmSlots(ts) + PmSlots(ts));
  }

  /** removeTimeSlotOverride: delete the (barber, date) override; with none
      the lookup returns null and deleting null is rejected. The date check
      is not made. */
  function RemoveTimeSlotOverrideEffect(db: Db, b: BarberId, d: Date): (e: Effect)
    requires db.Valid()
    ensures e.db.Valid()
    ensures e.outcome.Fail? <==> FindOverride(db, b, d).None?
    ensures e.outcome.Fail? ==> e.db == db && e.outcome.error == IllegalArgument
    ensures e.outcome.Pass? ==> e.db == db.(overrides := db.overrides - {(Some(b), d)})
  {
    var key := (Some(b), d);
    if key !in db.overrides then Effect(Fail(IllegalArgument), db)
    else Effect(Pass, db.(overrides := db.overrides - {key}))
  }

  /** Removing a date's override hands the date back to the weekly template. */
  lemma RemovedOverrideFallsBack(db: Db, b: BarberId, d: Date)
    requires db.Valid() && RemoveTimeSlotOverrideEffect(db, b, d).outcome == Pass
    ensures var after := RemoveTimeSlotOverrideEffect(db, b, d).db;
      && FindOverride(after, b, d).None?
      && Resolve(after, b, d) ==
           match FindTemplate(db, b, DayOfWeek(d))
           case Some(ts) => Open(ts, None)
           case None => NoSchedule
  {
  }

  /** setTimeSlot on the repositories. */
  method SetTimeSlot(repo: Repositories, b: BarberId, dto: StandardTimeSlot) returns (o: Outcome<Error>)
    requires repo.Valid()
    modifies repo
    ensures repo.Valid()
    ensures o == SetTimeSlotEffect(old(repo.Snapshot()), b, dto).outcome
    ensures repo.Snapshot() == SetTimeSlotEffect(old(repo.Snapshot()), b, dto).db
  {
    o := ValidateTimeSlot(dto);
    if o.Fail? {
      return;
    }
    var key := (b, dto.dayOfWeek);
    var saved := dto;
    if key in repo.templates {
      saved := UpdatedTemplate(repo.templates[key], dto);
    }
    repo.templates := repo.templates[key := saved];
  }

  /** editTimeSlot on the repositories: the existing override is updated
      through its setters, or a new one is built from the request. */
  method EditTimeSlot(repo: Repositories, b: BarberId, dto: EditedTimeSlot, today: Date) returns (o: Outcome<Error>)
    requires repo.Valid()
    modifies repo
    ensures repo.Valid()
    ensures o == EditTimeSlotEffect(old(repo.Snapshot()), b, dto, today).outcome
    ensures repo.Snapshot() == EditTimeSlotEffect(old(repo.Snapshot()), b, dto, today).db
  {
    o := ValidateEditedTimeSlot(dto, today);
    if o.Fail? {
      return;
    }
    var key := (Some(b), dto.date);
    var entity: TimeSlotOverride;
    if key in repo.overrides {
      entity := new TimeSlotOverride.Load(repo.overrides[key]);
      entity.SetAmStartTime(dto.amStartTime);
      entity.SetAmEndTime(dto.amEndTime);
      entity.SetPmStartTime(dto.pmStartTime);
      entity.SetPmEndTime(dto.pmEndTime);
      entity.SetInterval(dto.interval);
      entity.SetClosed(dto.isClosed);
      entity.SetClosedSlots(dto.closedSlots);
    } else {
      entity := new TimeSlotOverride.FromEdited(b, dto);
    }
    repo.overrides := repo.overrides[key := Persisted(entity.State())];
  }

  /** setDataAvailability on the repositories, with the new override
      recorded under the barber. */
  method SetDataAvailability(repo: Repositories, b: BarberId, d: Date, isOpen: bool, today: Date) returns (o: Outcome<Error>)
    requires repo.Valid()
    modifies repo
    ensures repo.Valid()
    ensures o == SetDataAvailabilityEffect(old(repo.Snapshot()), b, d, isOpen, today).outcome
    ensures repo.Snapshot() == SetDataAvailabilityEffect(old(repo.Snapshot()), b, d, isOpen, today).db
  {
    o := ValidateDate(d, today);
    if o.Fail? {
      return;
    }
    var key := (Some(b), d);
    if key in repo.overrides {
      var entity := new TimeSlotOverride.Load(repo.overrides[key]);
      entity.SetClosed(!isOpen);
      repo.overrides := repo.overrides[key := entity.State()];
      return;
    }
    var template := FindTemplate(repo.Snapshot(), b, DayOfWeek(d));
    if template.None? {
      return Fail(NullReference);
    }
    var entity := new TimeSlotOverride.FromTemplateFor(b, d, template.value, isOpen);
    repo.overrides := repo.overrides[KeyOf(entity.State()) := Persisted(entity.State())];
  }

  /** setDataAvailability on the repositories as written: the new override
      is built without a barber and saved under its own (null, date) key. */
  method SetDataAvailabilityAsWritten(repo: Repositories, b: BarberId, d: Date, isOpen: bool, today: Date) returns (o: Outcome<Error>)
    requires repo.Valid()
    modifies repo
    ensures repo.Valid()
    ensures o == SetDataAvailabilityAsWrittenEffect(old(repo.Snapshot()), b, d, isOpen, today).outcome
    ensures repo.Snapshot() == SetDataAvailabilityAsWrittenEffect(old(repo.Snapshot()), b, d, isOpen, today).db
  {
    o := ValidateDate(d, today);
    if o.Fail? {
      return;
    }
    var key := (Some(b), d);
    if key in repo.overrides {
      var entity := new TimeSlotOverride.Load(repo.overrides[key]);
      entity.SetClosed(!isOpen);
      repo.overrides := repo.overrides[key := entity.State()];
      return;
    }
    var template := FindTemplate(repo.Snapshot(), b, DayOfWeek(d));
    if template.None? {
      return Fail(NullReference);
    }
    var entity := new TimeSlotOverride.FromTemplate(d, template.value, isOpen);
    repo.overrides := repo.overrides[KeyOf(entity.State()) := Persisted(entity.State())];
  }

  /** The shared steps of the closed-slot edits: date check, lookup, then
      the entity's list operation on the override found. */
  method EditClosedSlots(repo: Repositories, b: BarberId, d: Date, edit: ClosedEdit, today: Date) returns (o: Outcome<Error>)
    requires repo.Valid()
    modifies repo
    ensures repo.Valid()
    ensures o == ClosedSlotsEffect(old(repo.Snapshot()), b, d, edit, today).outcome
    ensures repo.Snapshot() == ClosedSlotsEffect(old(repo.Snapshot()), b, d, edit, today).db
  {
    o := ValidateDate(d, today);
    if o.Fail? {
      return;
    }
    var key := (Some(b), d);
    if key !in repo.overrides {
      return Fail(TimeSlotNotFound);
    }
    assert OverrideStored(key, repo.overrides[key]);
    var entity := new TimeSlotOverride.Load(repo.overrides[key]);
    var r: Outcome<Error>;
    match edit {
      case Add(slots) => r := entity.AddClosedSlots(slots);
      case Remove(slots) => r := entity.RemoveClosedSlots(slots);
      case Clear => r := entity.ClearClosedSlots();
    }
    repo.overrides := repo.overrides[key := entity.State()];
  }

  /** addClosedSlots on the repositories. */
  method AddClosedSlots(repo: Repositories, b: BarberId, d: Date, slots: seq<Minute>, today: Date) returns (o: Outcome<Error>)
    requires repo.Valid()
    modifies repo
    ensures repo.Valid()
    ensures o == ClosedSlotsEffect(old(repo.Snapshot()), b, d, Add(slots), today).outcome
    ensures repo.Snapshot() == ClosedSlotsEffect(old(repo.Snapshot()), b, d, Add(slots), today).db
  {
    o := EditClosedSlots(repo, b, d, Add(slots), today);
  }

  /** removeClosedSlots on the repositories. */
  method RemoveClosedSlots(repo: Repositories, b: BarberId, d: Date, slots: seq<Minute>, today: Date) returns (o: Outcome<Error>)
    requires repo.Valid()
    modifies repo
    ensures repo.Valid()
    ensures o == ClosedSlotsEffect(old(repo.Snapshot()), b, d, Remove(slots), today).outcome
    ensures repo.Snapshot() == ClosedSlotsEffect(old(repo.Snapshot()), b, d, Remove(slots), today).db
  {
    o := EditClosedSlots(repo, b, d, Remove(slots), today);
  }

  /** clearClosedSlots on the repositories. */
  method ClearClosedSlots(repo: Repositories, b: BarberId, d: Date, today: Date) returns (o: Outcome<Error>)
    requires repo.Valid()
    modifies repo
    ensures repo.Valid()
    ensures o == ClosedSlotsEffect(old(repo.Snapshot()), b, d, Clear, today).outcome
    ensures repo.Snapshot() == ClosedSlotsEffect(old(repo.Snapshot()), b, d, Clear, today).db
  {
    o := EditClosedSlots(repo, b, d, Clear, today);
  }

  /** removeTimeSlotOverride on the repositories. */
  method RemoveTimeSlotOverride(repo: Repositories, b: BarberId, d: Date) returns (o: Outcome<Error>)
    requires repo.Valid()
    modifies repo
    ensures repo.Valid()
    ensures o == RemoveTimeSlotOverrideEffect(old(repo.Snapshot()), b, d).outcome
    ensures repo.Snapshot() == RemoveTimeSlotOverrideEffect(old(repo.Snapshot()), b, d).db
  {
    var key := (Some(b), d);
    if key !in repo.overrides {
      return Fail(IllegalArgument);
    }
    repo.overrides := repo.overrides - {key};
    return Pass;
  }
}
