/** The slot generator of the availability service: the start times a
    working window offers, and a day's base list (morning slots, then
    afternoon slots, minus the closed ones). */
module SlotGenerator {
  import opened Common
  import opened Entities

  /** The start times of the window [start, end) stepping by interval:
      start, start + interval, ... while still before end. */
  function Window(start: Minute, end: Minute, interval: int): seq<Minute>
    requires interval > 0
    decreases end - start
  {
    if start < end then [start] + Window(start + interval, end, interval) else []
  }

  /** Window(start, end, interval) is exactly the arithmetic progression
      start + k * interval for k = 0, 1, ... that stays before end: every
      element is in it and before end, and the next step would not be. */
  lemma {:induction false} WindowShape(start: Minute, end: Minute, interval: int)
    requires interval > 0
    ensures forall k :: 0 <= k < |Window(start, end, interval)| ==>
              Window(start, end, interval)[k] == start + k * interval
              && Window(start, end, interval)[k] < end
    ensures start + |Window(start, end, interval)| * interval >= end
    decreases end - start
  {
    if start < end {
      var w := Window(start, end, interval);
      var w' := Window(start + interval, end, interval);
      WindowShape(start + interval, end, interval);
      assert w == [start] + w';
      forall k | 0 <= k < |w|
        ensures w[k] == start + k * interval && w[k] < end
      {
        if k > 0 {
          assert w[k] == w'[k - 1];
          assert (k - 1) * interval == k * interval - interval;
        }
      }
      assert |w| * interval == |w'| * interval + interval;
    }
  }

  /** Consecutive slots of a window are exactly one interval apart, the
      window is increasing, it is empty exactly when start >= end, and every
      slot lies in [start, end). */
  lemma WindowSteps(start: Minute, end: Minute, interval: int)
    requires interval > 0
    ensures var w := Window(start, end, interval);
      && (forall k :: 0 <= k < |w| - 1 ==> w[k + 1] == w[k] + interval)
      && Increasing(w)
      && (w == [] <==> start >= end)
      && (forall x :: x in w ==> start <= x < end)
  {
    var w := Window(start, end, interval);
    WindowShape(start, end, interval);
    forall k | 0 <= k < |w| - 1
      ensures w[k + 1] == w[k] + interval
    {
      assert (k + 1) * interval == k * interval + interval;
    }
    forall i, j | 0 <= i < j < |w|
      ensures w[i] < w[j]
    {
      assert j * interval - i * interval == (j - i) * interval;
      assert (j - i) * interval > 0;
    }
    forall x | x in w
      ensures start <= x < end
    {
      var k :| 0 <= k < |w| && w[k] == x;
      assert k * interval >= 0;
    }
  }

  /** getAmTimeSlots and getPmTimeSlots: walk one window from its start,
      adding the current time and advancing by the interval while the
      current time is before the window's end. */
  method WindowTimeSlots(start: Minute, end: Minute, interval: int) returns (slots: seq<Minute>)
    requires interval > 0
    ensures slots == Window(start, end, interval)
  {
    slots := [];
    var t := start;
    while t < end
      invariant slots + Window(t, end, interval) == Window(start, end, interval)
      decreases end - t
    {
      slots := slots + [t];
      t := t + interval;
    }
  }

  function AmSlots(ts: StandardTimeSlot): seq<Minute>
    requires ts.interval > 0
  {
    Window(ts.amStartTime, ts.amEndTime, ts.interval)
  }

  function PmSlots(ts: StandardTimeSlot): seq<Minute>
    requires ts.interval > 0
  {
    Window(ts.pmStartTime, ts.pmEndTime, ts.interval)
  }

  /** The day's base list: all morning slots followed by all afternoon
      slots, with every occurrence of a closed slot removed; a null list of
      closed slots removes nothing. */
  function TimeSlots(ts: StandardTimeSlot, closed: Option<seq<Minute>>): seq<Minute>
    requires ts.interval > 0
  {
    match closed
    case None => AmSlots(ts) + PmSlots(ts)
    case Some(c) => RemoveAll(AmSlots(ts) + PmSlots(ts), c)
  }

  /** getTimeSlots: build the morning list, append the afternoon list, and
      remove the closed slots in place. */
  method GetTimeSlots(ts: StandardTimeSlot, closed: Option<seq<Minute>>) returns (all: seq<Minute>)
    requires ts.interval > 0
    ensures all == TimeSlots(ts, closed)
  {
    all := WindowTimeSlots(ts.amStartTime, ts.amEndTime, ts.interval);
    var pm := WindowTimeSlots(ts.pmStartTime, ts.pmEndTime, ts.interval);
    all := all + pm;
    if closed.None? {
      return;
    }
    all := RemoveAll(all, closed.value);
  }

  /** The base list holds a time exactly when a window offers it and it is
      not closed; it keeps the morning-then-afternoon order; and with no
      closed slots it is the two windows concatenated. */
  lemma TimeSlotsSpec(ts: StandardTimeSlot, closed: Option<seq<Minute>>)
    requires ts.interval > 0
    ensures forall x :: x in TimeSlots(ts, closed) <==>
              (x in AmSlots(ts) || x in PmSlots(ts)) && (closed.Some? ==> x !in closed.value)
    ensures Subseq(TimeSlots(ts, closed), AmSlots(ts) + PmSlots(ts))
    ensures closed.None? || closed == Some([]) ==> TimeSlots(ts, closed) == AmSlots(ts) + PmSlots(ts)
  {
    var all := AmSlots(ts) + PmSlots(ts);
    match closed
    case None =>
      SubseqRefl(all);
    case Some(c) =>
      RemoveAllSubseq(all, c);
      RemoveAllNothing(all);
  }

  /** When the morning window ends no later than the afternoon one starts,
      the base list is strictly increasing. */
  lemma {:induction false} TimeSlotsIncreasing(ts: StandardTimeSlot, closed: Option<seq<Minute>>)
    requires ts.interval > 0 && ts.amEndTime <= ts.pmStartTime
    ensures Increasing(TimeSlots(ts, closed))
  {
    WindowsIncreasing(ts);
    TimeSlotsSpec(ts, closed);
    SubseqIncreasing(TimeSlots(ts, closed), AmSlots(ts) + PmSlots(ts));
  }

  /** Morning followed by afternoon is increasing when the windows are ordered. */
  lemma WindowsIncreasing(ts: StandardTimeSlot)
    requires ts.interval > 0 && ts.amEndTime <= ts.pmStartTime
    ensures Increasing(AmSlots(ts) + PmSlots(ts))
  {
    var am, pm := AmSlots(ts), PmSlots(ts);
    WindowSteps(ts.amStartTime, ts.amEndTime, ts.interval);
    WindowSteps(ts.pmStartTime, ts.pmEndTime, ts.interval);
    ConcatIncreasing(am, pm);
  }

  lemma ConcatIncreasing(a: seq<int>, b: seq<int>)
    requires Increasing(a) && Increasing(b)
    requires forall x, y :: x in a && y in b ==> x < y
    ensures Increasing(a + b)
  {
    forall i, j | 0 <= i < j < |a + b|
      ensures (a + b)[i] < (a + b)[j]
    {
      if j < |a| {
        assert (a + b)[i] == a[i] && (a + b)[j] == a[j];
      } else if i < |a| {
        assert (a + b)[i] == a[i] && (a + b)[j] == b[j - |a|];
        assert a[i] in a && b[j - |a|] in b;
      } else {
        assert (a + b)[i] == b[i - |a|] && (a + b)[j] == b[j - |a|];
      }
    }
  }

  /** Example: windows 09:00-12:00 and 13:00-17:00 at 30 minutes
      give 6 + 8 = 14 slots, the first at 09:00 and the last at 16:30. */
  lemma ExampleDay()
    ensures var ts := StandardTimeSlot(1, 540, 720, 780, 1020, 30);
      |AmSlots(ts)| == 6 && |PmSlots(ts)| == 8
      && |TimeSlots(ts, None)| == 14
      && TimeSlots(ts, None)[0] == 540 && TimeSlots(ts, None)[13] == 990
  {
    var ts := StandardTimeSlot(1, 540, 720, 780, 1020, 30);
    assert AmSlots(ts) == [540, 570, 600, 630, 660, 690];
    assert PmSlots(ts) == [780, 810, 840, 870, 900, 930, 960, 990];
  }
}
