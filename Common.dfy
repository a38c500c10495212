/** Shared vocabulary of the scheduler: failure-compatible wrappers, the
    error kinds the services raise, identifiers, time of day, calendar dates,
    and the two list operations the services lean on (ArrayList.removeAll and
    "is an order-preserving subsequence of"). */
module Common {

  datatype Option<+T> = None | Some(value: T)

  datatype Result<+R, +E> = Success(value: R) | Failure(error: E)

  /** The result of an operation that either completes or raises an error. */
  datatype Outcome<+E> = Pass | Fail(error: E)

  /** The exceptions the core raises. The first nine are the application's
      own exception classes; the last four stand for the runtime exceptions
      the code and its data layer raise on unguarded paths. */
  datatype Error =
    | InvalidDate
    | InvalidDayOfWeek
    | InvalidStartTime
    | InvalidTimeInterval
    | TimeSlotNotFound
    | TimeSlotNotAvailable
    | ServiceNotFound
    | UserNotFound
    | BookingNotFound
      /** a required row is missing: a repository lookup returned null and
          the code dereferenced it, or a query declared to return a
          primitive value matched no row */
    | NullReference
      /** an IllegalArgumentException: delete(null) on a repository */
    | IllegalArgument
      /** an IndexOutOfBoundsException: a list read past its end */
    | IndexOutOfBounds
      /** an IncorrectResultSizeDataAccessException: a query declared to
          return at most one row matched several */
    | IncorrectResultSize

  /** The first failure of two checks run in order; the second runs only
      when the first passes. */
  function Then<E>(first: Outcome<E>, second: Outcome<E>): (o: Outcome<E>)
    ensures o.Pass? <==> first.Pass? && second.Pass?
  {
    if first.Fail? then first else second
  }

  type BarberId = string
  type UserId = string
  type ServiceId = string
  type BookingId = string

  /** A time of day, in minutes after midnight. */
  type Minute = int

  /** A calendar date, as the number of days since 1970-01-01. */
  type Date = int

  /** The ISO day of week of a date: Monday is 1 and Sunday is 7
      (LocalDate.getDayOfWeek().getValue()). 1970-01-01 was a Thursday. */
  function DayOfWeek(d: Date): (w: int)
    ensures 1 <= w <= 7
  {
    (d + 3) % 7 + 1
  }

  lemma DayOfWeekOfEpoch()
    ensures DayOfWeek(0) == 4
  {
  }

  /** Consecutive dates have consecutive days of week, Sunday wrapping to Monday. */
  lemma DayOfWeekSucc(d: Date)
    ensures DayOfWeek(d + 1) == if DayOfWeek(d) == 7 then 1 else DayOfWeek(d) + 1
  {
  }

  /** validateDate, as both services write it: a date before today is
      rejected with InvalidDate; today itself is accepted. */
  function ValidateDate(d: Date, today: Date): (o: Outcome<Error>)
    ensures o.Fail? <==> d < today
    ensures o.Fail? ==> o.error == InvalidDate
  {
    if d < today then Fail(InvalidDate) else Pass
  }

  /** ArrayList.removeAll: drop every occurrence of every element of xs,
      keeping the others in order. */
  function RemoveAll(s: seq<Minute>, xs: seq<Minute>): (r: seq<Minute>)
    ensures forall x :: x in r <==> x in s && x !in xs
    ensures |r| <= |s|
  {
    if s == [] then []
    else (if s[0] in xs then [] else [s[0]]) + RemoveAll(s[1..], xs)
  }

  /** r is an order-preserving subsequence of s. */
  predicate Subseq<T(==)>(r: seq<T>, s: seq<T>)
    decreases |s|
  {
    if s == [] then r == []
    else (r != [] && r[0] == s[0] && Subseq(r[1..], s[1..])) || Subseq(r, s[1..])
  }

  predicate Increasing(s: seq<int>)
  {
    forall i, j :: 0 <= i < j < |s| ==> s[i] < s[j]
  }

  lemma {:induction false} EmptySubseq<T>(s: seq<T>)
    ensures Subseq([], s)
    decreases |s|
  {
    if s != [] {
      EmptySubseq(s[1..]);
    }
  }

  lemma {:induction false} SubseqRefl<T>(s: seq<T>)
    ensures Subseq(s, s)
    decreases |s|
  {
    if s != [] {
      SubseqRefl(s[1..]);
    }
  }

  /** Every element of a subsequence occurs in the sequence. */
  lemma {:induction false} SubseqIn<T>(r: seq<T>, s: seq<T>)
    requires Subseq(r, s)
    ensures forall x :: x in r ==> x in s
    decreases |s|
  {
    if s != [] {
      if r != [] && r[0] == s[0] && Subseq(r[1..], s[1..]) {
        SubseqIn(r[1..], s[1..]);
        forall x | x in r ensures x in s {
          if x != r[0] {
            assert x in r[1..];
          }
        }
      } else {
        SubseqIn(r, s[1..]);
      }
    }
  }

  lemma {:induction false} SubseqTrans<T>(r: seq<T>, s: seq<T>, t: seq<T>)
    requires Subseq(r, s) && Subseq(s, t)
    ensures Subseq(r, t)
    decreases |t|
  {
    if t != [] {
      if s != [] && s[0] == t[0] && Subseq(s[1..], t[1..]) {
        if r != [] && r[0] == s[0] && Subseq(r[1..], s[1..]) {
          SubseqTrans(r[1..], s[1..], t[1..]);
        } else {
          SubseqTrans(r, s[1..], t[1..]);
        }
      } else {
        SubseqTrans(r, s, t[1..]);
      }
    }
  }

  lemma {:induction false} SubseqConcat<T>(a: seq<T>, s: seq<T>, b: seq<T>, t: seq<T>)
    requires Subseq(a, s) && Subseq(b, t)
    ensures Subseq(a + b, s + t)
    decreases |s|
  {
    if s == [] {
      assert a + b == b && s + t == t;
    } else {
      assert (s + t)[1..] == s[1..] + t;
      if a != [] && a[0] == s[0] && Subseq(a[1..], s[1..]) {
        SubseqConcat(a[1..], s[1..], b, t);
        assert (a + b)[1..] == a[1..] + b;
      } else {
        SubseqConcat(a, s[1..], b, t);
      }
    }
  }

  /** A subsequence of an increasing sequence is increasing. */
  lemma {:induction false} SubseqIncreasing(r: seq<int>, s: seq<int>)
    requires Subseq(r, s) && Increasing(s)
    ensures Increasing(r)
    decreases |s|
  {
    if s != [] {
      assert Increasing(s[1..]);
      if r != [] && r[0] == s[0] && Subseq(r[1..], s[1..]) {
        SubseqIncreasing(r[1..], s[1..]);
        SubseqIn(r[1..], s[1..]);
        forall i, j | 0 <= i < j < |r| ensures r[i] < r[j] {
          assert r[j] in r[1..];
          if i > 0 {
            assert r[i] == r[1..][i - 1] && r[j] == r[1..][j - 1];
          }
        }
      } else {
        SubseqIncreasing(r, s[1..]);
      }
    }
  }

  /** removeAll keeps the surviving elements in their original order. */
  lemma {:induction false} RemoveAllSubseq(s: seq<Minute>, xs: seq<Minute>)
    ensures Subseq(RemoveAll(s, xs), s)
    decreases |s|
  {
    if s != [] {
      RemoveAllSubseq(s[1..], xs);
      var rest := RemoveAll(s[1..], xs);
      if s[0] !in xs {
        assert RemoveAll(s, xs) == [s[0]] + rest;
        assert ([s[0]] + rest)[1..] == rest;
      } else {
        assert RemoveAll(s, xs) == rest;
      }
    }
  }

  /** Removing nothing changes nothing. */
  lemma {:induction false} RemoveAllNothing(s: seq<Minute>)
    ensures RemoveAll(s, []) == s
    decreases |s|
  {
    if s != [] {
      RemoveAllNothing(s[1..]);
      assert [s[0]] + s[1..] == s;
    }
  }
}
