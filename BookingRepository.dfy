/** The custom queries of the booking repository, as functions over the
    booking store (a sequence in insertion order). */
module BookingRepository {
  import opened Common
  import opened Entities

  /** The booking belongs to that barber's agenda on that date. */
  predicate OfDay(k: Booking, b: BarberId, d: Date)
  {
    k.barberId == b && k.date == d
  }

  /** t falls inside the booking's half-open interval [startTime, endTime). */
  predicate Covers(k: Booking, t: Minute)
  {
    k.startTime <= t < k.endTime
  }

  /** findById: the booking with that id. */
  function FindById(bs: seq<Booking>, id: BookingId): (r: Option<Booking>)
    ensures r.Some? ==> r.value in bs && r.value.id == id
    ensures r.None? <==> forall k :: k in bs ==> k.id != id
  {
    if bs == [] then None
    else if bs[0].id == id then Some(bs[0])
    else FindById(bs[1..], id)
  }

  /** findByBarberIdAndDateAndStartTime: a booking equal on all three keys. */
  function FindByBarberIdAndDateAndStartTime(bs: seq<Booking>, b: BarberId, d: Date, t: Minute): (r: Option<Booking>)
    ensures r.Some? ==> r.value in bs && OfDay(r.value, b, d) && r.value.startTime == t
    ensures r.None? <==> forall k :: k in bs && OfDay(k, b, d) ==> k.startTime != t
  {
    if bs == [] then None
    else if OfDay(bs[0], b, d) && bs[0].startTime == t then Some(bs[0])
    else FindByBarberIdAndDateAndStartTime(bs[1..], b, d, t)
  }

  /** findStartTimesByBarberIdAndDate: the start times of that barber's
      bookings on that date, in store order. */
  function FindStartTimesByBarberIdAndDate(bs: seq<Booking>, b: BarberId, d: Date): (r: seq<Minute>)
    ensures forall t :: t in r <==> exists k :: k in bs && OfDay(k, b, d) && k.startTime == t
    ensures |r| <= |bs|
  {
    if bs == [] then []
    else
      var rest := FindStartTimesByBarberIdAndDate(bs[1..], b, d);
      assert forall k :: k in bs[1..] ==> k in bs;
      assert forall k :: k in bs ==> k == bs[0] || k in bs[1..];
      (if OfDay(bs[0], b, d) then [bs[0].startTime] else []) + rest
  }

  /** findConflictingBooking: a booking of that barber on that date whose
      interval [startTime, endTime) contains t. */
  function FindConflictingBooking(bs: seq<Booking>, b: BarberId, d: Date, t: Minute): (r: Option<Booking>)
    ensures r.Some? ==> r.value in bs && OfDay(r.value, b, d) && Covers(r.value, t)
    ensures r.None? <==> forall k :: k in bs && OfDay(k, b, d) ==> !Covers(k, t)
  {
    if bs == [] then None
    else if OfDay(bs[0], b, d) && Covers(bs[0], t) then Some(bs[0])
    else FindConflictingBooking(bs[1..], b, d, t)
  }

  /** The bookings of that barber on that date that cover t, in store
      order: the rows the query of findConflictingBooking matches. */
  function Conflicts(bs: seq<Booking>, b: BarberId, d: Date, t: Minute): (r: seq<Booking>)
    ensures forall k :: k in r <==> k in bs && OfDay(k, b, d) && Covers(k, t)
    ensures |r| <= |bs|
  {
    if bs == [] then []
    else (if OfDay(bs[0], b, d) && Covers(bs[0], t) then [bs[0]] else []) + Conflicts(bs[1..], b, d, t)
  }

  /** The lenient reading above returns the first matching row. */
  lemma {:induction false} FirstConflict(bs: seq<Booking>, b: BarberId, d: Date, t: Minute)
    ensures FindConflictingBooking(bs, b, d, t)
         == if Conflicts(bs, b, d, t) == [] then None else Some(Conflicts(bs, b, d, t)[0])
    decreases |bs|
  {
    if bs != [] {
      FirstConflict(bs[1..], b, d, t);
    }
  }

  /** findConflictingBooking as the data layer runs it: the query is
      declared to return an Optional, so two or more matching rows raise
      instead of returning one of them. */
  function FindConflictingBookingQuery(bs: seq<Booking>, b: BarberId, d: Date, t: Minute): (r: Result<Option<Booking>, Error>)
    ensures r.Failure? <==> |Conflicts(bs, b, d, t)| >= 2
    ensures r.Failure? ==> r.error == IncorrectResultSize
    ensures r.Success? ==> r.value == FindConflictingBooking(bs, b, d, t)
  {
    FirstConflict(bs, b, d, t);
    var c := Conflicts(bs, b, d, t);
    if |c| >= 2 then Failure(IncorrectResultSize)
    else Success(if c == [] then None else Some(c[0]))
  }

  /** Two stored bookings that both cover t make the query raise. */
  lemma {:induction false} OverlapRaises(bs: seq<Booking>, b: BarberId, d: Date, t: Minute, i: nat, j: nat)
    requires i < j < |bs|
    requires OfDay(bs[i], b, d) && Covers(bs[i], t) && OfDay(bs[j], b, d) && Covers(bs[j], t)
    ensures FindConflictingBookingQuery(bs, b, d, t) == Failure(IncorrectResultSize)
    decreases |bs|
  {
    var rest := Conflicts(bs[1..], b, d, t);
    if i == 0 {
      assert bs[j] == bs[1..][j - 1];
      assert bs[j] in rest;
    } else {
      assert bs[1..][i - 1] == bs[i] && bs[1..][j - 1] == bs[j];
      OverlapRaises(bs[1..], b, d, t, i - 1, j - 1);
    }
  }

  /** Two overlapping bookings, at 10:15-10:45 and 10:00-10:30: once the
      interval places a slot at 10:20, the query for that slot raises. */
  lemma OverlapExample(b: BarberId, d: Date)
    ensures var bs := [Booking("k1", b, "u1", "s1", d, 615, 645), Booking("k2", b, "u2", "s1", d, 600, 630)];
      FindConflictingBookingQuery(bs, b, d, 620) == Failure(IncorrectResultSize)
      && FindConflictingBookingQuery(bs, b, d, 640) == Success(Some(bs[0]))
  {
    var bs := [Booking("k1", b, "u1", "s1", d, 615, 645), Booking("k2", b, "u2", "s1", d, 600, 630)];
    OverlapRaises(bs, b, d, 620, 0, 1);
    assert Conflicts(bs, b, d, 640) == [bs[0]];
  }

  /** The bookings of that barber on that date, in store order. */
  function DayBookings(bs: seq<Booking>, b: BarberId, d: Date): (r: seq<Booking>)
    ensures forall k :: k in r <==> k in bs && OfDay(k, b, d)
  {
    if bs == [] then []
    else (if OfDay(bs[0], b, d) then [bs[0]] else []) + DayBookings(bs[1..], b, d)
  }

  /** findAllByBarberIdAndUserId: that user's bookings with that barber. */
  function FindAllByBarberIdAndUserId(bs: seq<Booking>, b: BarberId, u: UserId): (r: seq<Booking>)
    ensures forall k :: k in r <==> k in bs && k.barberId == b && k.userId == u
  {
    if bs == [] then []
    else (if bs[0].barberId == b && bs[0].userId == u then [bs[0]] else [])
         + FindAllByBarberIdAndUserId(bs[1..], b, u)
  }

  predicate SortedByStart(s: seq<Booking>)
  {
    forall i, j :: 0 <= i < j < |s| ==> s[i].startTime <= s[j].startTime
  }

  /** Insert k into a list sorted by start time, before the first booking
      that does not start earlier. */
  function Insert(k: Booking, s: seq<Booking>): seq<Booking>
  {
    if s == [] then [k]
    else if k.startTime <= s[0].startTime then [k] + s
    else [s[0]] + Insert(k, s[1..])
  }

  /** Insertion adds exactly k. */
  lemma {:induction false} InsertPerm(k: Booking, s: seq<Booking>)
    ensures multiset(Insert(k, s)) == multiset(s) + multiset{k}
    decreases |s|
  {
    if s != [] && k.startTime > s[0].startTime {
      InsertPerm(k, s[1..]);
      assert s == [s[0]] + s[1..];
    }
  }

  /** Insertion into a sorted list keeps it sorted. */
  lemma {:induction false} InsertSorted(k: Booking, s: seq<Booking>)
    requires SortedByStart(s)
    ensures SortedByStart(Insert(k, s))
    decreases |s|
  {
    if s != [] && k.startTime > s[0].startTime {
      var rest := Insert(k, s[1..]);
      InsertSorted(k, s[1..]);
      InsertPerm(k, s[1..]);
      forall i | 0 <= i < |rest| ensures s[0].startTime <= rest[i].startTime {
        assert rest[i] in multiset(rest);
        if rest[i] != k {
          assert rest[i] in multiset(s[1..]);
          var j :| 0 <= j < |s[1..]| && s[1..][j] == rest[i];
          assert s[j + 1] == rest[i];
        }
      }
      assert Insert(k, s) == [s[0]] + rest;
    }
  }

  /** ORDER BY startTime (ties in store order). */
  function SortByStart(s: seq<Booking>): seq<Booking>
  {
    if s == [] then [] else Insert(s[0], SortByStart(s[1..]))
  }

  /** The sort yields a sorted permutation of its input. */
  lemma {:induction false} SortByStartSpec(s: seq<Booking>)
    ensures SortedByStart(SortByStart(s))
    ensures multiset(SortByStart(s)) == multiset(s)
    decreases |s|
  {
    if s != [] {
      SortByStartSpec(s[1..]);
      InsertSorted(s[0], SortByStart(s[1..]));
      InsertPerm(s[0], SortByStart(s[1..]));
      assert s == [s[0]] + s[1..];
    }
  }

  /** The inner joins of findAllByBarberIdAndDate keep a booking only when
      its user, its barber and a service with its service id exist. */
  predicate Joined(cat: Catalog, k: Booking)
  {
    k.userId in cat.users && k.barberId in cat.barbers && k.serviceId in ServiceIds(cat)
  }

  /** The bookings the joins keep, in store order. */
  function JoinedBookings(cat: Catalog, s: seq<Booking>): (r: seq<Booking>)
    ensures forall k :: k in r <==> k in s && Joined(cat, k)
  {
    if s == [] then []
    else (if Joined(cat, s[0]) then [s[0]] else []) + JoinedBookings(cat, s[1..])
  }

  /** When every booking still has its user, barber and service, the joins
      drop nothing. */
  lemma {:induction false} JoinedAll(cat: Catalog, s: seq<Booking>)
    requires forall i :: 0 <= i < |s| ==> Joined(cat, s[i])
    ensures JoinedBookings(cat, s) == s
    decreases |s|
  {
    if s != [] {
      JoinedAll(cat, s[1..]);
      assert s == [s[0]] + s[1..];
    }
  }

  /** findAllByBarberIdAndDate: that barber's bookings on that date whose
      user, barber and service rows exist, ordered by (date, startTime);
      with a single date the order is by start time. */
  function FindAllByBarberIdAndDate(bs: seq<Booking>, cat: Catalog, b: BarberId, d: Date): (r: seq<Booking>)
    ensures SortedByStart(r)
    ensures multiset(r) == multiset(JoinedBookings(cat, DayBookings(bs, b, d)))
    ensures forall k :: k in r <==> k in bs && OfDay(k, b, d) && Joined(cat, k)
  {
    var s := JoinedBookings(cat, DayBookings(bs, b, d));
    SortByStartSpec(s);
    var r := SortByStart(s);
    assert forall k :: k in r <==> k in multiset(r);
    r
  }

  /** delete(booking): the store without the booking carrying that id. */
  function RemoveById(bs: seq<Booking>, id: BookingId): (r: seq<Booking>)
    ensures forall k :: k in r <==> k in bs && k.id != id
  {
    if bs == [] then []
    else (if bs[0].id == id then [] else [bs[0]]) + RemoveById(bs[1..], id)
  }

  /** Deleting by id keeps the other bookings in their order. */
  lemma {:induction false} RemoveByIdSubseq(bs: seq<Booking>, id: BookingId)
    ensures Subseq(RemoveById(bs, id), bs)
    decreases |bs|
  {
    if bs != [] {
      RemoveByIdSubseq(bs[1..], id);
      var rest := RemoveById(bs[1..], id);
      if bs[0].id == id {
        assert RemoveById(bs, id) == rest;
      } else {
        assert RemoveById(bs, id) == [bs[0]] + rest;
        assert ([bs[0]] + rest)[1..] == rest;
      }
    }
  }

  /** With unique ids, no later booking shares the first one's id. */
  lemma HeadIdUnique(bs: seq<Booking>)
    requires UniqueIds(bs) && bs != []
    ensures UniqueIds(bs[1..])
    ensures forall k :: k in bs[1..] ==> k.id != bs[0].id
  {
    forall k | k in bs[1..] ensures k.id != bs[0].id {
      var j :| 0 <= j < |bs[1..]| && bs[1..][j] == k;
      assert bs[j + 1] == k;
    }
  }

  /** Dropping the first booking keeps ids unique. */
  lemma TailUnique(bs: seq<Booking>)
    requires UniqueIds(bs) && bs != []
    ensures UniqueIds(bs[1..])
  {
    forall i, j | 0 <= i < j < |bs[1..]| ensures bs[1..][i].id != bs[1..][j].id {
      assert bs[1..][i] == bs[i + 1] && bs[1..][j] == bs[j + 1];
    }
  }

  /** Deleting an id nobody carries leaves the store as it was. */
  lemma {:induction false} RemoveByIdAbsent(bs: seq<Booking>, id: BookingId)
    requires FindById(bs, id).None?
    ensures RemoveById(bs, id) == bs
    decreases |bs|
  {
    if bs != [] {
      var h, t := bs[0], bs[1..];
      assert h.id != id && FindById(t, id) == FindById(bs, id);
      RemoveByIdAbsent(t, id);
      assert RemoveById(bs, id) == [h] + RemoveById(t, id);
      assert [h] + t == bs;
    }
  }

  /** With unique ids, deleting the first booking's id removes exactly
      that booking. */
  lemma RemoveByIdHead(bs: seq<Booking>, id: BookingId)
    requires UniqueIds(bs) && bs != [] && bs[0].id == id
    ensures multiset(RemoveById(bs, id)) == multiset(bs) - multiset{bs[0]}
  {
    var h, t := bs[0], bs[1..];
    assert bs == [h] + t;
    HeadIdUnique(bs);
    RemoveByIdAbsent(t, id);
    assert RemoveById(bs, id) == t;
    assert multiset(bs) == multiset{h} + multiset(t);
  }

  /** Removing x from a tail that holds it commutes with putting h in
      front. */
  lemma ConsRemove(h: Booking, t: seq<Booking>, r: seq<Booking>, x: Booking)
    requires x in t && multiset(r) == multiset(t) - multiset{x}
    ensures multiset([h] + r) == multiset([h] + t) - multiset{x}
  {
    assert multiset([h] + r) == multiset{h} + multiset(r);
    assert multiset([h] + t) == multiset{h} + multiset(t);
  }

  /** With unique ids, when the id is present exactly one booking goes: the
      one findById returns. */
  lemma {:induction false} RemoveByIdPresent(bs: seq<Booking>, id: BookingId)
    requires UniqueIds(bs) && FindById(bs, id).Some?
    ensures multiset(RemoveById(bs, id)) == multiset(bs) - multiset{FindById(bs, id).value}
    decreases |bs|
  {
    if bs[0].id == id {
      RemoveByIdHead(bs, id);
    } else {
      var h, t := bs[0], bs[1..];
      assert FindById(bs, id) == FindById(t, id);
      var x := FindById(t, id).value;
      TailUnique(bs);
      RemoveByIdPresent(t, id);
      var r := RemoveById(t, id);
      assert RemoveById(bs, id) == [h] + r;
      assert bs == [h] + t;
      ConsRemove(h, t, r, x);
    }
  }

  /** A subsequence of a store with unique ids has unique ids. */
  lemma {:induction false} SubseqUniqueIds(r: seq<Booking>, s: seq<Booking>)
    requires Subseq(r, s) && UniqueIds(s)
    ensures UniqueIds(r)
    decreases |s|
  {
    if s != [] {
      HeadIdUnique(s);
      if r != [] && r[0] == s[0] && Subseq(r[1..], s[1..]) {
        SubseqUniqueIds(r[1..], s[1..]);
        SubseqIn(r[1..], s[1..]);
        forall i, j | 0 <= i < j < |r| ensures r[i].id != r[j].id {
          assert r[j] in r[1..];
          if i > 0 {
            assert r[i] == r[1..][i - 1] && r[j] == r[1..][j - 1];
          }
        }
      } else {
        SubseqUniqueIds(r, s[1..]);
      }
    }
  }
}
