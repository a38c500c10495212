/** The per-date override entity: a barber's windows, interval, closed
    slots and open/closed flag for one date, updated in place through its
    setters and its closed-slot list operations. Closed slots are minute
    values. */
module OverrideEntity {
  import opened Common
  import opened Entities

  /** The record TimeSlotOverride(barberId, dto) builds: every field of
      the request, under that barber. */
  function EditedRecord(b: BarberId, dto: EditedTimeSlot): OverrideRecord
  {
    OverrideRecord(Some(b), dto.date, dto.amStartTime, dto.amEndTime, dto.pmStartTime, dto.pmEndTime,
                   dto.interval, dto.closedSlots, dto.isClosed)
  }

  /** The record TimeSlotOverride(date, template, isOpen) builds: the
      template's windows and interval, closed exactly when not open, a null
      closed-slot list, and the given barber field. */
  function TemplateRecord(b: Option<BarberId>, d: Date, ts: StandardTimeSlot, isOpen: bool): OverrideRecord
  {
    OverrideRecord(b, d, ts.amStartTime, ts.amEndTime, ts.pmStartTime, ts.pmEndTime, ts.interval, None, !isOpen)
  }

  /** The record after addClosedSlots: slots appended at the end, existing
      order and duplicates kept, every other field as it was. */
  function AddedClosed(o: OverrideRecord, slots: seq<Minute>): (r: OverrideRecord)
    requires o.closedSlots.Some?
    ensures r.closedSlots.Some? && |r.closedSlots.value| == |o.closedSlots.value| + |slots|
    ensures r.closedSlots.value[..|o.closedSlots.value|] == o.closedSlots.value
    ensures r.closedSlots.value[|o.closedSlots.value|..] == slots
    ensures r.(closedSlots := o.closedSlots) == o
  {
    o.(closedSlots := Some(o.closedSlots.value + slots))
  }

  /** The record after removeClosedSlots: every occurrence of every listed
      slot gone, the others kept in their order, every other field as it was. */
  function RemovedClosed(o: OverrideRecord, slots: seq<Minute>): (r: OverrideRecord)
    requires o.closedSlots.Some?
    ensures r.closedSlots.Some?
    ensures forall x :: x in r.closedSlots.value <==> x in o.closedSlots.value && x !in slots
    ensures Subseq(r.closedSlots.value, o.closedSlots.value)
    ensures r.(closedSlots := o.closedSlots) == o
  {
    RemoveAllSubseq(o.closedSlots.value, slots);
    o.(closedSlots := Some(RemoveAll(o.closedSlots.value, slots)))
  }

  /** Removing a slot list and then adding it back leaves every listed slot
      closed, whatever the list held before. */
  lemma RemoveThenAdd(o: OverrideRecord, slots: seq<Minute>)
    requires o.closedSlots.Some?
    ensures var r := AddedClosed(RemovedClosed(o, slots), slots);
      forall x :: x in r.closedSlots.value <==> x in o.closedSlots.value || x in slots
  {
  }

  /** Adding a slot list and then removing it leaves none of them closed
      and the other closed slots as they were, in order. */
  lemma AddThenRemove(o: OverrideRecord, slots: seq<Minute>)
    requires o.closedSlots.Some?
    ensures RemovedClosed(AddedClosed(o, slots), slots) == RemovedClosed(o, slots)
  {
    var c := o.closedSlots.value;
    RemoveAllAppend(c, slots, slots);
    RemoveAllCovered(slots, slots);
    assert RemoveAll(c + slots, slots) == RemoveAll(c, slots);
  }

  /** Removing a list that covers every element leaves nothing. */
  lemma {:induction false} RemoveAllCovered(s: seq<Minute>, xs: seq<Minute>)
    requires forall i :: 0 <= i < |s| ==> s[i] in xs
    ensures RemoveAll(s, xs) == []
    decreases |s|
  {
    if s != [] {
      assert forall i :: 0 <= i < |s[1..]| ==> s[1..][i] == s[i + 1];
      RemoveAllCovered(s[1..], xs);
      assert RemoveAll(s, xs) == RemoveAll(s[1..], xs);
    }
  }

  /** removeAll distributes over concatenation. */
  lemma {:induction false} RemoveAllAppend(a: seq<Minute>, b: seq<Minute>, xs: seq<Minute>)
    ensures RemoveAll(a + b, xs) == RemoveAll(a, xs) + RemoveAll(b, xs)
    decreases |a|
  {
    if a == [] {
      assert a + b == b;
    } else {
      var h := if a[0] in xs then [] else [a[0]];
      calc {
        RemoveAll(a + b, xs);
        { assert (a + b)[0] == a[0] && (a + b)[1..] == a[1..] + b; }
        h + RemoveAll(a[1..] + b, xs);
        { RemoveAllAppend(a[1..], b, xs); }
        h + (RemoveAll(a[1..], xs) + RemoveAll(b, xs));
        (h + RemoveAll(a[1..], xs)) + RemoveAll(b, xs);
        RemoveAll(a, xs) + RemoveAll(b, xs);
      }
    }
  }

  class TimeSlotOverride {
    var barberId: Option<BarberId>
    var date: Date
    var amStartTime: Minute
    var amEndTime: Minute
    var pmStartTime: Minute
    var pmEndTime: Minute
    var interval: int
    var closedSlots: Option<seq<Minute>>
    var isClosed: bool

    /** The entity's fields as a record. */
    function State(): OverrideRecord
      reads this
    {
      OverrideRecord(barberId, date, amStartTime, amEndTime, pmStartTime, pmEndTime, interval, closedSlots, isClosed)
    }

    /** TimeSlotOverride(barberId, dto): all eight fields copied verbatim. */
    constructor FromEdited(b: BarberId, dto: EditedTimeSlot)
      ensures State() == EditedRecord(b, dto)
    {
      barberId := Some(b);
      date := dto.date;
      amStartTime := dto.amStartTime;
      amEndTime := dto.amEndTime;
      pmStartTime := dto.pmStartTime;
      pmEndTime := dto.pmEndTime;
      interval := dto.interval;
      isClosed := dto.isClosed;
      closedSlots := dto.closedSlots;
    }

    /** TimeSlotOverride(date, template, isOpen): the template's windows and
        interval for that date, closed exactly when not open, with a null
        closed-slot list; the barber is left unset. */
    constructor FromTemplate(d: Date, ts: StandardTimeSlot, isOpen: bool)
      ensures State() == TemplateRecord(None, d, ts, isOpen)
    {
      barberId := None;
      date := d;
      amStartTime := ts.amStartTime;
      amEndTime := ts.amEndTime;
      pmStartTime := ts.pmStartTime;
      pmEndTime := ts.pmEndTime;
      interval := ts.interval;
      isClosed := !isOpen;
      closedSlots := None;
    }

    /** The same construction with the barber recorded, as the lookups by
        (barber, date) need. */
    constructor FromTemplateFor(b: BarberId, d: Date, ts: StandardTimeSlot, isOpen: bool)
      ensures State() == TemplateRecord(Some(b), d, ts, isOpen)
    {
      barberId := Some(b);
      date := d;
      amStartTime := ts.amStartTime;
      amEndTime := ts.amEndTime;
      pmStartTime := ts.pmStartTime;
      pmEndTime := ts.pmEndTime;
      interval := ts.interval;
      isClosed := !isOpen;
      closedSlots := None;
    }

    /** The entity a repository lookup returns for a stored record. */
    constructor Load(rec: OverrideRecord)
      ensures State() == rec
    {
      barberId := rec.barberId;
      date := rec.date;
      amStartTime := rec.amStartTime;
      amEndTime := rec.amEndTime;
      pmStartTime := rec.pmStartTime;
      pmEndTime := rec.pmEndTime;
      interval := rec.interval;
      isClosed := rec.isClosed;
      closedSlots := rec.closedSlots;
    }

    method SetDate(v: Date)
      modifies this
      ensures State() == old(State()).(date := v)
    {
      date := v;
    }

    method SetAmStartTime(v: Minute)
      modifies this
      ensures State() == old(State()).(amStartTime := v)
    {
      amStartTime := v;
    }

    method SetAmEndTime(v: Minute)
      modifies this
      ensures State() == old(State()).(amEndTime := v)
    {
      amEndTime := v;
    }

    method SetPmStartTime(v: Minute)
      modifies this
      ensures State() == old(State()).(pmStartTime := v)
    {
      pmStartTime := v;
    }

    method SetPmEndTime(v: Minute)
      modifies this
      ensures State() == old(State()).(pmEndTime := v)
    {
      pmEndTime := v;
    }

    method SetInterval(v: int)
      modifies this
      ensures State() == old(State()).(interval := v)
    {
      interval := v;
    }

    method SetClosed(v: bool)
      modifies this
      ensures State() == old(State()).(isClosed := v)
    {
      isClosed := v;
    }

    method SetClosedSlots(v: Option<seq<Minute>>)
      modifies this
      ensures State() == old(State()).(closedSlots := v)
    {
      closedSlots := v;
    }

    /** getParsedClosedSlots: the closed slots as times, one for one and in
        order; a null list cannot be streamed. */
    function ParsedClosedSlots(): (r: Result<seq<Minute>, Error>)
      reads this
      ensures r.Failure? <==> closedSlots.None?
      ensures r.Failure? ==> r.error == NullReference
      ensures r.Success? ==> |r.value| == |closedSlots.value|
                             && forall i :: 0 <= i < |r.value| ==> r.value[i] == closedSlots.value[i]
    {
      match closedSlots
      case None => Failure(NullReference)
      case Some(c) => Success(c)
    }

    /** addClosedSlots; on a null list the call raises and nothing changes. */
    method AddClosedSlots(slots: seq<Minute>) returns (o: Outcome<Error>)
      modifies this
      ensures o.Fail? <==> old(closedSlots).None?
      ensures o.Fail? ==> o.error == NullReference && State() == old(State())
      ensures o.Pass? ==> State() == AddedClosed(old(State()), slots)
    {
      if closedSlots.None? {
        return Fail(NullReference);
      }
      closedSlots := Some(closedSlots.value + slots);
      return Pass;
    }

    /** removeClosedSlots; on a null list the call raises and nothing changes. */
    method RemoveClosedSlots(slots: seq<Minute>) returns (o: Outcome<Error>)
      modifies this
      ensures o.Fail? <==> old(closedSlots).None?
      ensures o.Fail? ==> o.error == NullReference && State() == old(State())
      ensures o.Pass? ==> State() == RemovedClosed(old(State()), slots)
    {
      if closedSlots.None? {
        return Fail(NullReference);
      }
      closedSlots := Some(RemoveAll(closedSlots.value, slots));
      return Pass;
    }

    /** clearClosedSlots: the list becomes empty, every other field as it
        was; on a null list the call raises and nothing changes. */
    method ClearClosedSlots() returns (o: Outcome<Error>)
      modifies this
      ensures o.Fail? <==> old(closedSlots).None?
      ensures o.Fail? ==> o.error == NullReference && State() == old(State())
      ensures o.Pass? ==> State() == old(State()).(closedSlots := Some([]))
    {
      if closedSlots.None? {
        return Fail(NullReference);
      }
      closedSlots := Some([]);
      return Pass;
    }
  }
}
