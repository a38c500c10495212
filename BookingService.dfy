/** The booking engine: the ordered validation of a request (user, then
    service, then availability), the end-time computation, the save of the
    new booking and the cancellation of a booking by id. */
module BookingService {
  import opened Common
  import opened Entities
  import opened BookingRepository
  import opened Availability

  /** RequestBookingDTO; its endTime is carried but never read. */
  datatype Request = Request(
    barberId: BarberId,
    serviceId: ServiceId,
    date: Date,
    startTime: Minute,
    endTime: Minute)

  /** validateUser: UserNotFound exactly when the user id does not exist. */
  function ValidateUser(cat: Catalog, u: UserId): (o: Outcome<Error>)
    ensures o.Fail? <==> u !in cat.users
    ensures o.Fail? ==> o.error == UserNotFound
  {
    if u in cat.users then Pass else Fail(UserNotFound)
  }

  /** validateService: ServiceNotFound exactly when the barber offers no
      service with that id; whether it is active is not looked at. */
  function ValidateService(cat: Catalog, b: BarberId, s: ServiceId): (o: Outcome<Error>)
    ensures o.Fail? <==> (b, s) !in cat.services
    ensures o.Fail? ==> o.error == ServiceNotFound
  {
    if (b, s) in cat.services then Pass else Fail(ServiceNotFound)
  }

  /** validateAvailability: TimeSlotNotAvailable when isBkAvailable says no;
      what isBkAvailable raises passes through. */
  function ValidateAvailability(db: Db, cat: Catalog, req: Request, today: Date): (o: Outcome<Error>)
    requires db.Valid()
    ensures o.Pass? <==> IsBkAvailable(db, cat, req.barberId, req.date, req.startTime, Some(req.serviceId), today) == Success(true)
    ensures o.Fail? && IsBkAvailable(db, cat, req.barberId, req.date, req.startTime, Some(req.serviceId), today).Success? ==>
      o.error == TimeSlotNotAvailable
    ensures IsBkAvailable(db, cat, req.barberId, req.date, req.startTime, Some(req.serviceId), today).Failure? ==>
      o == Fail(IsBkAvailable(db, cat, req.barberId, req.date, req.startTime, Some(req.serviceId), today).error)
  {
    match IsBkAvailable(db, cat, req.barberId, req.date, req.startTime, Some(req.serviceId), today)
    case Failure(e) => Fail(e)
    case Success(ok) => if ok then Pass else Fail(TimeSlotNotAvailable)
  }

  /** The checks of bookAppointment in their order: the first one that
      fails decides the error, and the later ones are not consulted. */
  function Validate(db: Db, cat: Catalog, u: UserId, req: Request, today: Date): (o: Outcome<Error>)
    requires db.Valid()
    ensures o.Pass? <==> (u in cat.users && (req.barberId, req.serviceId) in cat.services
      && IsBkAvailable(db, cat, req.barberId, req.date, req.startTime, Some(req.serviceId), today) == Success(true))
    ensures u !in cat.users ==> o == Fail(UserNotFound)
    ensures u in cat.users && (req.barberId, req.serviceId) !in cat.services ==> o == Fail(ServiceNotFound)
    ensures u in cat.users && (req.barberId, req.serviceId) in cat.services ==> o == ValidateAvailability(db, cat, req, today)
  {
    Then(ValidateUser(cat, u), Then(ValidateService(cat, req.barberId, req.serviceId), ValidateAvailability(db, cat, req, today)))
  }

  /** The errors validation can raise. For a current date, a known user and
      a known service with a usable duration, a refusal always means the slot
      is taken; a stored duration below 1 makes the availability check raise
      on every open day. */
  lemma ValidationErrors(db: Db, cat: Catalog, u: UserId, req: Request, today: Date)
    requires db.Valid() && Validate(db, cat, u, req, today).Fail?
    ensures Validate(db, cat, u, req, today).error
              in {UserNotFound, ServiceNotFound, InvalidDate, TimeSlotNotAvailable, IndexOutOfBounds}
    ensures req.date >= today && u in cat.users && (req.barberId, req.serviceId) in cat.services
            && cat.services[(req.barberId, req.serviceId)] >= 1 ==>
      Validate(db, cat, u, req, today) == Fail(TimeSlotNotAvailable)
    ensures req.date >= today && u in cat.users && (req.barberId, req.serviceId) in cat.services
            && cat.services[(req.barberId, req.serviceId)] < 1 ==>
      Validate(db, cat, u, req, today)
        == if Resolve(db, req.barberId, req.date).Open? then Fail(IndexOutOfBounds) else Fail(TimeSlotNotAvailable)
  {
    ByServiceFailure(db, cat, req.barberId, req.date, Some(req.serviceId), today);
  }

  /** The duration lookup of the service directory by (barber, id); a null
      barber matches no row, and a missing row raises. */
  function DurationLookup(cat: Catalog, b: Option<BarberId>, s: ServiceId): (r: Result<int, Error>)
    ensures r.Success? <==> b.Some? && (b.value, s) in cat.services
    ensures r.Success? ==> r.value == cat.services[(b.value, s)]
    ensures r.Failure? ==> r.error == NullReference
  {
    if b.Some? && (b.value, s) in cat.services then Success(cat.services[(b.value, s)]) else Failure(NullReference)
  }

  /** The booking built from a request, a duration and an interval: the
      request's barber, service, date and start, and an end one interval
      per slot of the service later. */
  function NewBooking(id: BookingId, u: UserId, req: Request, duration: int, interval: int): (k: Booking)
    ensures k.id == id && k.userId == u && k.barberId == req.barberId && k.serviceId == req.serviceId
    ensures k.date == req.date && k.startTime == req.startTime
    ensures interval > 0 && duration > 0 ==> k.startTime < k.endTime
  {
    Booking(id, req.barberId, u, req.serviceId, req.date, req.startTime, Step(req.startTime, duration, interval))
  }

  /** The steps of createBooking: the service duration, looked up under
      durationBarber, then the barber's interval for the date, then the
      booking itself. */
  function CreateBookingWith(db: Db, cat: Catalog, id: BookingId, u: UserId, durationBarber: Option<BarberId>, b: BarberId, req: Request)
    : (r: Result<Booking, Error>)
    requires db.Valid()
    ensures r.Success? <==> DurationLookup(cat, durationBarber, req.serviceId).Success? && GetInterval(db, b, req.date).Some?
    ensures r.Failure? ==> r.error == NullReference
  {
    match DurationLookup(cat, durationBarber, req.serviceId)
    case Failure(e) => Failure(e)
    case Success(duration) =>
      match GetInterval(db, b, req.date)
      case None => Failure(NullReference)
      case Some(interval) => Success(NewBooking(id, u, req, duration, interval))
  }

  /** createBooking with the duration looked up under the barber: it fails
      when the barber has no such service or no schedule for the date. */
  function CreateBooking(db: Db, cat: Catalog, id: BookingId, u: UserId, b: BarberId, req: Request): (r: Result<Booking, Error>)
    requires db.Valid()
    ensures r.Success? <==> (b, req.serviceId) in cat.services && GetInterval(db, b, req.date).Some?
    ensures r.Failure? ==> r.error == NullReference
    ensures r.Success? ==> r.value == NewBooking(id, u, req, cat.services[(b, req.serviceId)], GetInterval(db, b, req.date).value)
    ensures r.Success? ==> (r.value.endTime - r.value.startTime
      == GetInterval(db, b, req.date).value * cat.services[(b, req.serviceId)])
  {
    CreateBookingWith(db, cat, id, u, Some(b), b, req)
  }

  /** createBooking as written: the duration is looked up with a null
      barber. */
  function CreateBookingAsWritten(db: Db, cat: Catalog, id: BookingId, u: UserId, b: BarberId, req: Request): (r: Result<Booking, Error>)
    requires db.Valid()
    ensures r.Failure? ==> r.error == NullReference
  {
    CreateBookingWith(db, cat, id, u, None, b, req)
  }

  /** As written, createBooking fails for every request. */
  lemma CreateBookingAsWrittenFails(db: Db, cat: Catalog, id: BookingId, u: UserId, b: BarberId, req: Request)
    requires db.Valid()
    ensures CreateBookingAsWritten(db, cat, id, u, b, req) == Failure(NullReference)
  {
  }

  /** A request that passed the checks always yields a booking: the service
      exists with a usable duration and the day is open, so it has an
      interval. */
  lemma ValidatedRequestCreates(db: Db, cat: Catalog, id: BookingId, u: UserId, req: Request, today: Date)
    requires db.Valid() && Validate(db, cat, u, req, today).Pass?
    ensures CreateBooking(db, cat, id, u, req.barberId, req).Success?
    ensures Resolve(db, req.barberId, req.date).Open?
    ensures cat.services[(req.barberId, req.serviceId)] >= 1
  {
    IsBkAvailableSpec(db, cat, req.barberId, req.date, req.startTime, Some(req.serviceId), today);
    IntervalOfSchedule(db, req.barberId, req.date);
  }

  /** The steps of bookAppointment, with createBooking's duration looked up
      under durationBarber: validate, create, save at the end of the
      store. */
  function BookWith(db: Db, cat: Catalog, id: BookingId, u: UserId, req: Request, today: Date, durationBarber: Option<BarberId>)
    : (e: Effect)
    requires db.Valid() && FindById(db.bookings, id).None?
    ensures e.db.Valid()
    ensures e.outcome.Fail? ==> e.db == db
    ensures Validate(db, cat, u, req, today).Fail? ==> e.outcome == Validate(db, cat, u, req, today)
  {
    var v := Validate(db, cat, u, req, today);
    if v.Fail? then Effect(v, db)
    else
      match CreateBookingWith(db, cat, id, u, durationBarber, req.barberId, req)
      case Failure(e) => Effect(Fail(e), db)
      case Success(k) =>
        FreshIdKeepsUnique(db.bookings, k);
        Effect(Pass, db.(bookings := db.bookings + [k]))
  }

  /** bookAppointment: validate, create, save. The id stands for the one
      the store generates, so it is new. On success exactly the created
      booking is added at the end of the store; on failure the store is as
      it was. */
  function BookAppointmentEffect(db: Db, cat: Catalog, id: BookingId, u: UserId, req: Request, today: Date): (e: Effect)
    requires db.Valid() && FindById(db.bookings, id).None?
    ensures e.outcome == Validate(db, cat, u, req, today)
    ensures e.db.Valid()
    ensures e.outcome.Fail? ==> e.db == db
    ensures e.outcome.Pass? ==>
      && CreateBooking(db, cat, id, u, req.barberId, req).Success?
      && e.db == db.(bookings := db.bookings + [CreateBooking(db, cat, id, u, req.barberId, req).value])
    ensures |e.db.bookings| == |db.bookings| + (if e.outcome.Pass? then 1 else 0)
  {
    if Validate(db, cat, u, req, today).Pass? then
      ValidatedRequestCreates(db, cat, id, u, req, today);
      BookWith(db, cat, id, u, req, today, Some(req.barberId))
    else BookWith(db, cat, id, u, req, today, Some(req.barberId))
  }

  /** bookAppointment as written: createBooking looks the duration up with
      a null barber. */
  function BookAppointmentAsWrittenEffect(db: Db, cat: Catalog, id: BookingId, u: UserId, req: Request, today: Date): (e: Effect)
    requires db.Valid() && FindById(db.bookings, id).None?
    ensures e.db.Valid()
    ensures e.outcome.Fail? ==> e.db == db
  {
    BookWith(db, cat, id, u, req, today, None)
  }

  /** As written, no appointment is ever booked: a request that passes the
      checks raises NullReference, and the store never changes. */
  lemma NothingBookedAsWritten(db: Db, cat: Catalog, id: BookingId, u: UserId, req: Request, today: Date)
    requires db.Valid() && FindById(db.bookings, id).None?
    ensures BookAppointmentAsWrittenEffect(db, cat, id, u, req, today).db == db
    ensures Validate(db, cat, u, req, today).Pass? ==>
      BookAppointmentAsWrittenEffect(db, cat, id, u, req, today).outcome == Fail(NullReference)
  {
    CreateBookingAsWrittenFails(db, cat, id, u, req.barberId, req);
  }

  /** Appending a booking with a new id keeps the ids unique. */
  lemma FreshIdKeepsUnique(bs: seq<Booking>, k: Booking)
    requires UniqueIds(bs) && FindById(bs, k.id).None?
    ensures UniqueIds(bs + [k])
  {
    forall i, j | 0 <= i < j < |bs + [k]| ensures (bs + [k])[i].id != (bs + [k])[j].id {
      if j == |bs| {
        assert (bs + [k])[i] == bs[i] && bs[i] in bs;
      } else {
        assert (bs + [k])[i] == bs[i] && (bs + [k])[j] == bs[j];
      }
    }
  }

  /** After a booking, every slot of its run is taken: its start, and every
      later slot of the run, which the new booking covers. */
  lemma BookedRunTaken(db: Db, cat: Catalog, id: BookingId, u: UserId, req: Request, today: Date, j: int)
    requires db.Valid() && FindById(db.bookings, id).None?
    requires BookAppointmentEffect(db, cat, id, u, req, today).outcome.Pass?
    requires 0 <= j < cat.services[(req.barberId, req.serviceId)]
    ensures var after := BookAppointmentEffect(db, cat, id, u, req, today).db;
      !SlotFree(after, req.barberId, req.date, Step(req.startTime, j, GetInterval(db, req.barberId, req.date).value))
  {
    var after := BookAppointmentEffect(db, cat, id, u, req, today).db;
    var k := CreateBooking(db, cat, id, u, req.barberId, req).value;
    var iv := GetInterval(db, req.barberId, req.date).value;
    ValidatedRequestCreates(db, cat, id, u, req, today);
    var duration := cat.services[(req.barberId, req.serviceId)];
    assert k in after.bookings;
    RunCovered(req.startTime, j, iv, duration);
    CoveredNotFree(after, req.barberId, req.date, k, Step(req.startTime, j, iv));
  }

  /** The j-th slot of a run of duration slots lies inside the run. */
  lemma RunCovered(t: Minute, j: int, interval: int, duration: Duration)
    requires interval > 0 && 0 <= j < duration
    ensures t <= Step(t, j, interval) < Step(t, duration, interval)
  {
    assert (duration - j) * interval > 0;
    assert j * interval >= 0;
  }

  /** A time that a booking of the day covers is not free. */
  lemma CoveredNotFree(db: Db, b: BarberId, d: Date, k: Booking, t: Minute)
    requires db.Valid() && k in db.bookings && OfDay(k, b, d) && Covers(k, t)
    ensures !SlotFree(db, b, d, t)
  {
    SlotFreeSpec(db, b, d, t);
  }

  /** An identical second request is refused with TimeSlotNotAvailable: the
      first booking now starts at the requested time. */
  lemma SecondBookingRefused(db: Db, cat: Catalog, id: BookingId, id2: BookingId, u: UserId, req: Request, today: Date)
    requires db.Valid() && FindById(db.bookings, id).None?
    requires BookAppointmentEffect(db, cat, id, u, req, today).outcome.Pass?
    ensures var after := BookAppointmentEffect(db, cat, id, u, req, today).db;
      Validate(after, cat, u, req, today) == Fail(TimeSlotNotAvailable)
  {
    var after := BookAppointmentEffect(db, cat, id, u, req, today).db;
    var k := CreateBooking(db, cat, id, u, req.barberId, req).value;
    assert k in after.bookings && OfDay(k, req.barberId, req.date);
    IsBkAvailableSpec(after, cat, req.barberId, req.date, req.startTime, Some(req.serviceId), today);
    assert Step(req.startTime, 0, Resolve(after, req.barberId, req.date).slot.interval) == req.startTime;
    IsBkAvailableSpec(db, cat, req.barberId, req.date, req.startTime, Some(req.serviceId), today);
    ValidationErrors(after, cat, u, req, today);
  }

  /** A booking whose start lies on the run's grid cannot overlap the run: if
      no slot of the run starts inside it or at its start, the two half-open
      intervals are disjoint. */
  lemma NoOverlapOnGrid(t: Minute, interval: int, duration: Duration, k: Booking)
    requires interval > 0 && (k.startTime - t) % interval == 0
    requires forall j :: 0 <= j < duration ==> k.startTime != Step(t, j, interval) && !Covers(k, Step(t, j, interval))
    ensures k.endTime <= t || Step(t, duration, interval) <= k.startTime
  {
    assert Step(t, 0, interval) == t;
    var j := (k.startTime - t) / interval;
    assert k.startTime == Step(t, j, interval);
    if j < 0 {
      assert j * interval <= -interval by {
        assert (j + 1) * interval <= 0;
      }
    } else {
      assert j >= duration;
      assert (j - duration) * interval >= 0;
    }
  }

  /** A new booking does not overlap any booking of that barber on that date
      whose start lies on its grid of slots. */
  lemma BookingDoesNotOverlap(db: Db, cat: Catalog, id: BookingId, u: UserId, req: Request, today: Date, other: Booking)
    requires db.Valid() && FindById(db.bookings, id).None?
    requires BookAppointmentEffect(db, cat, id, u, req, today).outcome.Pass?
    requires other in db.bookings && OfDay(other, req.barberId, req.date)
    requires (other.startTime - req.startTime) % GetInterval(db, req.barberId, req.date).value == 0
    ensures var k := CreateBooking(db, cat, id, u, req.barberId, req).value;
      other.endTime <= k.startTime || k.endTime <= other.startTime
  {
    IsBkAvailableSpec(db, cat, req.barberId, req.date, req.startTime, Some(req.serviceId), today);
    IntervalOfSchedule(db, req.barberId, req.date);
    var iv := GetInterval(db, req.barberId, req.date).value;
    NoOverlapOnGrid(req.startTime, iv, cat.services[(req.barberId, req.serviceId)], other);
  }

  /** cancelAppointment: BookingNotFound when no booking has the id;
      otherwise exactly that booking leaves the store, the others keep
      their order, and the templates and overrides do not change. */
  function CancelAppointmentEffect(db: Db, id: BookingId): (e: Effect)
    requires db.Valid()
    ensures e.db.Valid()
    ensures e.outcome.Fail? <==> FindById(db.bookings, id).None?
    ensures e.outcome.Fail? ==> e.db == db && e.outcome.error == BookingNotFound
    ensures e.outcome.Pass? ==>
      && e.db == db.(bookings := RemoveById(db.bookings, id))
      && multiset(e.db.bookings) == multiset(db.bookings) - multiset{FindById(db.bookings, id).value}
      && Subseq(e.db.bookings, db.bookings)
  {
    if FindById(db.bookings, id).None? then Effect(Fail(BookingNotFound), db)
    else
      RemoveByIdPresent(db.bookings, id);
      RemoveByIdSubseq(db.bookings, id);
      SubseqUniqueIds(RemoveById(db.bookings, id), db.bookings);
      Effect(Pass, db.(bookings := RemoveById(db.bookings, id)))
  }

  /** Deleting by id distributes over concatenation. */
  lemma {:induction false} RemoveByIdAppend(a: seq<Booking>, c: seq<Booking>, id: BookingId)
    ensures RemoveById(a + c, id) == RemoveById(a, id) + RemoveById(c, id)
    decreases |a|
  {
    if a == [] {
      assert a + c == c;
    } else {
      var h := if a[0].id == id then [] else [a[0]];
      calc {
        RemoveById(a + c, id);
        { assert (a + c)[0] == a[0] && (a + c)[1..] == a[1..] + c; }
        h + RemoveById(a[1..] + c, id);
        { RemoveByIdAppend(a[1..], c, id); }
        h + (RemoveById(a[1..], id) + RemoveById(c, id));
        (h + RemoveById(a[1..], id)) + RemoveById(c, id);
        RemoveById(a, id) + RemoveById(c, id);
      }
    }
  }

  /** Cancelling the booking just made restores the store exactly. */
  lemma CancelUndoesBooking(db: Db, cat: Catalog, id: BookingId, u: UserId, req: Request, today: Date)
    requires db.Valid() && FindById(db.bookings, id).None?
    requires BookAppointmentEffect(db, cat, id, u, req, today).outcome.Pass?
    ensures var booked := BookAppointmentEffect(db, cat, id, u, req, today).db;
      CancelAppointmentEffect(booked, id) == Effect(Pass, db)
  {
    var k := CreateBooking(db, cat, id, u, req.barberId, req).value;
    var booked := BookAppointmentEffect(db, cat, id, u, req, today).db;
    assert k in booked.bookings;
    RemoveByIdAppend(db.bookings, [k], id);
    RemoveByIdAbsent(db.bookings, id);
    assert RemoveById([k], id) == [];
  }

  /** Cancelling never takes a slot away: what was free stays free. */
  lemma CancelKeepsFreeSlots(db: Db, id: BookingId, b: BarberId, d: Date, t: Minute)
    requires db.Valid() && SlotFree(db, b, d, t)
    ensures SlotFree(CancelAppointmentEffect(db, id).db, b, d, t)
  {
    var after := CancelAppointmentEffect(db, id).db;
    SlotFreeSpec(db, b, d, t);
    SlotFreeSpec(after, b, d, t);
    assert Resolve(after, b, d) == Resolve(db, b, d);
  }

  /** bookAppointment on the repositories. */
  method BookAppointment(repo: Repositories, cat: Catalog, id: BookingId, u: UserId, req: Request, today: Date)
    returns (o: Outcome<Error>)
    requires repo.Valid() && FindById(repo.bookings, id).None?
    modifies repo
    ensures repo.Valid()
    ensures o == BookAppointmentEffect(old(repo.Snapshot()), cat, id, u, req, today).outcome
    ensures repo.Snapshot() == BookAppointmentEffect(old(repo.Snapshot()), cat, id, u, req, today).db
  {
    var db := repo.Snapshot();
    o := ValidateUser(cat, u);
    if o.Fail? {
      return;
    }
    o := ValidateService(cat, req.barberId, req.serviceId);
    if o.Fail? {
      return;
    }
    o := ValidateAvailability(db, cat, req, today);
    if o.Fail? {
      return;
    }
    ValidatedRequestCreates(db, cat, id, u, req, today);
    var booking := CreateBooking(db, cat, id, u, req.barberId, req).value;
    FreshIdKeepsUnique(repo.bookings, booking);
    repo.bookings := repo.bookings + [booking];
  }

  /** cancelAppointment on the repositories. */
  method CancelAppointment(repo: Repositories, id: BookingId) returns (o: Outcome<Error>)
    requires repo.Valid()
    modifies repo
    ensures repo.Valid()
    ensures o == CancelAppointmentEffect(old(repo.Snapshot()), id).outcome
    ensures repo.Snapshot() == CancelAppointmentEffect(old(repo.Snapshot()), id).db
  {
    var found := FindById(repo.bookings, id);
    if found.None? {
      return Fail(BookingNotFound);
    }
    RemoveByIdPresent(repo.bookings, id);
    RemoveByIdSubseq(repo.bookings, id);
    SubseqUniqueIds(RemoveById(repo.bookings, id), repo.bookings);
    repo.bookings := RemoveById(repo.bookings, found.value.id);
    return Pass;
  }
}
