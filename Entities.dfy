/** The data the engine works on: the request and schedule records, the
    booking record, the external service catalog, and the three stores
    (weekly templates, per-date overrides, bookings). */
module Entities {
  import opened Common

  /** StandardTimeSlotDTO: one day of the weekly template, a morning window
      [amStartTime, amEndTime), an afternoon window [pmStartTime, pmEndTime)
      and the interval between start times, in minutes. It is also the shape
      in which the template store returns a TimeSlot row. */
  datatype StandardTimeSlot = StandardTimeSlot(
    dayOfWeek: int,
    amStartTime: Minute,
    amEndTime: Minute,
    pmStartTime: Minute,
    pmEndTime: Minute,
    interval: int)

  /** EditedTimeSlotDTO: what a barber submits to override one date. */
  datatype EditedTimeSlot = EditedTimeSlot(
    date: Date,
    amStartTime: Minute,
    amEndTime: Minute,
    pmStartTime: Minute,
    pmEndTime: Minute,
    interval: int,
    closedSlots: Option<seq<Minute>>,
    isClosed: bool)

  /** The fields of a TimeSlotOverride entity (its generated id aside).
      barberId and closedSlots may be null (None). */
  datatype OverrideRecord = OverrideRecord(
    barberId: Option<BarberId>,
    date: Date,
    amStartTime: Minute,
    amEndTime: Minute,
    pmStartTime: Minute,
    pmEndTime: Minute,
    interval: int,
    closedSlots: Option<seq<Minute>>,
    isClosed: bool)

  /** The columns the override store is searched by: (barberId, date). */
  type OverrideKey = (Option<BarberId>, Date)

  function KeyOf(o: OverrideRecord): OverrideKey
  {
    (o.barberId, o.date)
  }

  /** The closed slots of an override; a null list has none. */
  function ClosedList(o: OverrideRecord): seq<Minute>
  {
    match o.closedSlots
    case None => []
    case Some(c) => c
  }

  /** What saving an override stores: an element collection is empty, never
      null, once persisted, and it is read back as an empty list. */
  function Persisted(o: OverrideRecord): (p: OverrideRecord)
    ensures p.closedSlots == Some(ClosedList(o))
    ensures p.(closedSlots := o.closedSlots) == o
  {
    o.(closedSlots := Some(ClosedList(o)))
  }

  /** A confirmed appointment; it occupies [startTime, endTime). */
  datatype Booking = Booking(
    id: BookingId,
    barberId: BarberId,
    userId: UserId,
    serviceId: ServiceId,
    date: Date,
    startTime: Minute,
    endTime: Minute)

  /** A usable service length, counted in slots of the day's interval. */
  type Duration = d: int | d >= 1 witness 1

  /** The external user, barber and service directories: which users and
      barbers exist, and for each (barber, service) that exists its stored
      duration, which nothing validates. */
  datatype Catalog = Catalog(
    users: set<UserId>,
    barbers: set<BarberId>,
    services: map<(BarberId, ServiceId), int>)

  /** The ids that some service row carries, whichever barber owns it. */
  function ServiceIds(cat: Catalog): (r: set<ServiceId>)
    ensures forall b, s :: (b, s) in cat.services ==> s in r
    ensures forall s :: s in r ==> exists b :: (b, s) in cat.services
  {
    set p | p in cat.services :: p.1
  }

  /** What the validators accept for a day's windows and interval. */
  predicate ValidWindows(amStart: Minute, amEnd: Minute, pmStart: Minute, pmEnd: Minute, interval: int)
  {
    amStart <= amEnd && pmStart <= pmEnd && 20 <= interval <= 60
  }

  predicate TemplateStored(k: (BarberId, int), t: StandardTimeSlot)
  {
    1 <= k.1 <= 7 && t.dayOfWeek == k.1
    && ValidWindows(t.amStartTime, t.amEndTime, t.pmStartTime, t.pmEndTime, t.interval)
  }

  predicate OverrideStored(k: OverrideKey, o: OverrideRecord)
  {
    k == KeyOf(o) && o.closedSlots.Some?
    && ValidWindows(o.amStartTime, o.amEndTime, o.pmStartTime, o.pmEndTime, o.interval)
  }

  predicate UniqueIds(bs: seq<Booking>)
  {
    forall i, j :: 0 <= i < j < |bs| ==> bs[i].id != bs[j].id
  }

  /** A snapshot of the three stores. */
  datatype Db = Db(
    templates: map<(BarberId, int), StandardTimeSlot>,
    overrides: map<OverrideKey, OverrideRecord>,
    bookings: seq<Booking>)
  {
    /** Every stored schedule passed the validators and sits under its own
        key, every stored override has a closed-slot list, and booking ids
        are unique. */
    ghost predicate Valid()
    {
      && (forall k | k in templates :: TemplateStored(k, templates[k]))
      && (forall k | k in overrides :: OverrideStored(k, overrides[k]))
      && UniqueIds(bookings)
    }
  }

  /** What a service operation raised and what the stores hold afterwards. */
  datatype Effect = Effect(outcome: Outcome<Error>, db: Db)

  /** The repositories: TimeSlotRepository, TimeSlotOverrideRepository and
      BookingRepository, as state that the services update. */
  class Repositories {
    var templates: map<(BarberId, int), StandardTimeSlot>
    var overrides: map<OverrideKey, OverrideRecord>
    var bookings: seq<Booking>

    function Snapshot(): Db
      reads this
    {
      Db(templates, overrides, bookings)
    }

    ghost predicate Valid()
      reads this
    {
      Snapshot().Valid()
    }

    constructor ()
      ensures Valid()
      ensures templates == map[] && overrides == map[] && bookings == []
    {
      templates, overrides, bookings := map[], map[], [];
    }
  }
}
