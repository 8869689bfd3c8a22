/** The deterministic helpers of the negotiator (app_agents/negotiation_agent.py):
    the next occurrence of an event, the grid of candidate slots around it,
    the filter that keeps the free ones and ranks them, and the rewrite of
    a plan by a list of resolutions.

    "Now" is the parameter `now`; the busy blocks the free/busy query returns
    are the parameter `busy`; timestamp parsing is `parseIso`. */
module NegotiationAgent {
  import opened Wrappers
  import opened Models
  import opened Text
  import opened Clock
  import opened ConflictAgent

  /** The default arguments of `_candidate_slots`. */
  const DefaultDaysSearchRange: int := 7
  const DefaultStepMinutes: int := 30

  // ---------------------------------------------------------------------
  // _next_occurrence

  /** `str()` of a DayOfWeek member: the class name, a dot and the member name. */
  function EnumText(d: DayOfWeek): string
  {
    "DayOfWeek." + DayValue(d)
  }

  /** `_next_occurrence`: midnight of the first day from today on whose
      weekday is the one the day map gives for `str(event.day_of_week)`,
      Monday when the key is missing. */
  function NextOccurrence(e: ScheduleEvent, now: int): (t: int)
    ensures t % MinutesPerDay == 0
    ensures DayOf(now) <= DayOf(t) <= DayOf(now) + 6
    ensures Weekday(DayOf(t)) == DowMapGet(EnumText(e.dayOfWeek))
  {
    var day := FirstOnWeekday(DayOf(now), DowMapGet(EnumText(e.dayOfWeek)));
    AtParts(day, 0, 0);
    At(day, 0, 0)
  }

  /** The key `str(event.day_of_week)` is never one of the seven day names,
      so the lookup always falls back to 0: the next occurrence is the next
      Monday (today when today is a Monday), whatever the event's day. */
  lemma NextOccurrenceIsMonday(e: ScheduleEvent, now: int)
    ensures DowMapGet(EnumText(e.dayOfWeek)) == 0
    ensures Weekday(DayOf(NextOccurrence(e, now))) == 0
    ensures NextOccurrence(e, now) == At(FirstOnWeekday(DayOf(now), 0), 0, 0)
  {
    var key := EnumText(e.dayOfWeek);
    assert |key| == 13;
    var i := DowMapGet(key);
  }

  // ---------------------------------------------------------------------
  // _candidate_slots

  /** A candidate slot: start and end instants. */
  datatype Candidate = Candidate(start: int, end: int)

  /** The slots of one day at offsets off, off + step, ... below the 12-hour
      window, each `duration` long. */
  function RowFrom(dayStart: int, duration: int, step: int, off: int): seq<Candidate>
    requires step > 0
    decreases SearchWindowMinutes - off
  {
    if off >= SearchWindowMinutes then []
    else [Candidate(dayStart + off, dayStart + off + duration)] + RowFrom(dayStart, duration, step, off + step)
  }

  /** The slots of one day: `range(0, 720, step)` is empty for a negative step. */
  function DayRow(dayStart: int, duration: int, step: int): seq<Candidate>
  {
    if step <= 0 then [] else RowFrom(dayStart, duration, step, 0)
  }

  /** The slots of days d .. last around `baseStart`, day by day. */
  function DaysFrom(baseStart: int, duration: int, step: int, d: int, last: int): seq<Candidate>
    decreases last + 1 - d
  {
    if d > last then []
    else DayRow(DayShift(baseStart, d), duration, step) + DaysFrom(baseStart, duration, step, d + 1, last)
  }

  /** `t + timedelta(days=d)`, counted one day at a time. */
  function DayShift(t: int, d: int): int
    decreases if d < 0 then -d else d
  {
    if d == 0 then t
    else if d > 0 then DayShift(t, d - 1) + MinutesPerDay
    else DayShift(t, d + 1) - MinutesPerDay
  }

  lemma {:induction false} DayShiftIsProduct(t: int, d: int)
    ensures DayShift(t, d) == t + d * MinutesPerDay
    decreases if d < 0 then -d else d
  {
    if d > 0 {
      DayShiftIsProduct(t, d - 1);
    } else if d < 0 {
      DayShiftIsProduct(t, d + 1);
    }
  }

  lemma DayShiftNext(t: int, d: int)
    ensures DayShift(t, d + 1) == DayShift(t, d) + MinutesPerDay
  {
    if d < -1 {
      assert DayShift(t, d) == DayShift(t, d + 1) - MinutesPerDay;
    }
  }

  lemma DayShiftMonotone(t: int, d: int, e: int)
    requires d <= e
    ensures DayShift(t, d) <= DayShift(t, e)
  {
    DayShiftIsProduct(t, d);
    DayShiftIsProduct(t, e);
  }

  /** The slots for day offsets -n .. n around `baseStart`; None when the
      day loop runs and `range(0, 720, 0)` raises. */
  function GridSpec(baseStart: int, duration: int, step: int, n: int): Option<seq<Candidate>>
  {
    if -n <= n && step == 0 then None
    else Some(DaysFrom(baseStart, duration, step, -n, n))
  }

  /** The parsed start and end of an event on the day starting at `baseDate`,
      or None when `_candidate_slots` raises while reading them. */
  function BaseInterval(e: ScheduleEvent, baseDate: int): Option<(int, int)>
  {
    IntervalOn(ParseTimeHHMM(e.startTime), ParseTimeHHMM(e.endTime), baseDate)
  }

  /** Two parsed clock times placed on the day starting at `baseDate`;
      None when either is missing or out of range (`replace` raises). */
  function IntervalOn(s: Option<(int, int)>, t: Option<(int, int)>, baseDate: int): Option<(int, int)>
  {
    if s.Some? && t.Some? && ValidClock(s.value.0, s.value.1) && ValidClock(t.value.0, t.value.1) then
      Some((At(0, s.value.0, s.value.1) + baseDate, At(0, t.value.0, t.value.1) + baseDate))
    else None
  }

  /** What `_candidate_slots` returns, None when it raises. */
  function CandidatesSpec(e: ScheduleEvent, now: int, daysSearchRange: int, stepMinutes: int): Option<seq<Candidate>>
  {
    GridOn(BaseInterval(e, NextOccurrence(e, now)), daysSearchRange, stepMinutes)
  }

  /** The grid around a base interval, None when there is none. */
  function GridOn(base: Option<(int, int)>, daysSearchRange: int, stepMinutes: int): Option<seq<Candidate>>
  {
    match base
    case None => None
    case Some(b) => GridSpec(b.0, b.1 - b.0, stepMinutes, daysSearchRange)
  }

  /** The inner loop of `_candidate_slots`: the slots of one day appended to `acc`. */
  method AppendDaySlots(acc: seq<Candidate>, day: int, duration: int, stepMinutes: int)
    returns (slots: seq<Candidate>)
    requires stepMinutes != 0
    ensures slots == acc + DayRow(day, duration, stepMinutes)
  {
    slots := acc;
    if stepMinutes > 0 {
      // for a negative step, range(0, 720, step) is empty
      ghost var row := RowFrom(day, duration, stepMinutes, 0);
      ghost var done: seq<Candidate> := [];
      var step := 0;
      while step < SearchWindowMinutes
        invariant slots == acc + done
        invariant done + RowFrom(day, duration, stepMinutes, step) == row
        decreases SearchWindowMinutes - step
      {
        var slot := Candidate(day + step, day + step + duration);
        RowFromUnfold(day, duration, stepMinutes, step, done);
        slots := slots + [slot];
        done := done + [slot];
        step := step + stepMinutes;
      }
      assert done == row;
    }
  }

  lemma RowFromUnfold(day: int, duration: int, step: int, off: int, done: seq<Candidate>)
    requires step > 0 && off < SearchWindowMinutes
    ensures done + RowFrom(day, duration, step, off) ==
      (done + [Candidate(day + off, day + off + duration)]) + RowFrom(day, duration, step, off + step)
  {
  }

  /** The two loops of `_candidate_slots` once the base interval is known. */
  method GridSlots(baseStart: int, duration: int, stepMinutes: int, daysSearchRange: int)
    returns (candidates: Option<seq<Candidate>>)
    ensures candidates == GridSpec(baseStart, duration, stepMinutes, daysSearchRange)
  {
    var acc: seq<Candidate> := [];
    var deltaDays := -daysSearchRange;
    while deltaDays <= daysSearchRange
      invariant -daysSearchRange <= deltaDays
      invariant deltaDays > -daysSearchRange ==> stepMinutes != 0 && deltaDays <= daysSearchRange + 1
      invariant acc == DaysBefore(baseStart, duration, stepMinutes, -daysSearchRange, deltaDays)
      decreases daysSearchRange + 1 - deltaDays
    {
      if stepMinutes == 0 {
        // range(0, 720, 0) raises
        return None;
      }
      var day := baseStart + deltaDays * MinutesPerDay;
      DayShiftIsProduct(baseStart, deltaDays);
      acc := AppendDaySlots(acc, day, duration, stepMinutes);
      deltaDays := deltaDays + 1;
    }
    if -daysSearchRange <= daysSearchRange {
      DaysBeforeFrom(baseStart, duration, stepMinutes, -daysSearchRange, deltaDays, daysSearchRange);
      assert acc + [] == acc;
    }
    return Some(acc);
  }

  /** The slots of days first .. d - 1, day by day, as the day loop builds them. */
  function DaysBefore(baseStart: int, duration: int, step: int, first: int, d: int): seq<Candidate>
    decreases d - first
  {
    if d <= first then []
    else DaysBefore(baseStart, duration, step, first, d - 1) + DayRow(DayShift(baseStart, d - 1), duration, step)
  }

  /** The days before d followed by the days from d are all the days. */
  lemma {:induction false} DaysBeforeFrom(baseStart: int, duration: int, step: int, first: int, d: int, last: int)
    requires first <= d <= last + 1
    ensures DaysBefore(baseStart, duration, step, first, d) + DaysFrom(baseStart, duration, step, d, last) ==
      DaysFrom(baseStart, duration, step, first, last)
    decreases d - first
  {
    if d == first {
      assert DaysBefore(baseStart, duration, step, first, d) == [];
    } else {
      DaysBeforeFrom(baseStart, duration, step, first, d - 1, last);
      Regroup(DaysBefore(baseStart, duration, step, first, d - 1),
              DayRow(DayShift(baseStart, d - 1), duration, step),
              DaysFrom(baseStart, duration, step, d, last),
              DaysFrom(baseStart, duration, step, first, last));
    }
  }

  lemma Regroup<T>(p: seq<T>, r: seq<T>, a: seq<T>, whole: seq<T>)
    requires p + (r + a) == whole
    ensures (p + r) + a == whole
  {
  }

  /** `_candidate_slots`: for each day offset in -N .. N, the slots from the
      base start time of that day at every step of the 12-hour window, each
      as long as the event. */
  method CandidateSlots(e: ScheduleEvent, now: int, daysSearchRange: int, stepMinutes: int)
    returns (candidates: Option<seq<Candidate>>)
    ensures candidates == CandidatesSpec(e, now, daysSearchRange, stepMinutes)
  {
    var baseDate := NextOccurrence(e, now);
    var base := BaseInterval(e, baseDate);
    candidates := GridAround(base, daysSearchRange, stepMinutes);
  }

  /** The rest of `_candidate_slots` once the base interval is read. */
  method GridAround(base: Option<(int, int)>, daysSearchRange: int, stepMinutes: int)
    returns (candidates: Option<seq<Candidate>>)
    ensures candidates == GridOn(base, daysSearchRange, stepMinutes)
  {
    if base.None? {
      return None;
    }
    var baseStart := base.value.0;
    var duration := base.value.1 - baseStart;
    candidates := GridSlots(baseStart, duration, stepMinutes, daysSearchRange);
  }

  /** The number of steps of the 12-hour window: the length of a day's row. */
  function WindowSteps(step: int): (k: nat)
    requires step > 0
  {
    |RowFrom(0, 0, step, 0)|
  }

  lemma DivUnique(x: int, step: int, q: int)
    requires step > 0
    requires q * step <= x < (q + 1) * step
    ensures x / step == q
  {
    var r := x / step;
    assert r * step + x % step == x && 0 <= x % step < step;
    if r < q {
      MulMonotone(r + 1, q, step);
    } else if q < r {
      MulMonotone(q + 1, r, step);
    }
  }

  lemma MulMonotone(a: int, b: int, c: int)
    requires a <= b && 0 < c
    ensures a * c <= b * c
  {
    assert b * c == a * c + (b - a) * c;
  }

  lemma MulPred(j: int, n: int)
    ensures (j - 1) * n == j * n - n
  {
  }

  /** Row slot k starts k steps after the row's first offset; the row has
      as many slots as fit below the window end. */
  lemma {:induction false} RowFromShape(dayStart: int, duration: int, step: int, off: int)
    requires step > 0
    ensures |RowFrom(dayStart, duration, step, off)| == |RowFrom(0, 0, step, off)|
    ensures off + |RowFrom(dayStart, duration, step, off)| * step >= SearchWindowMinutes
    ensures |RowFrom(dayStart, duration, step, off)| > 0 ==>
      off + (|RowFrom(dayStart, duration, step, off)| - 1) * step < SearchWindowMinutes
    ensures forall k :: 0 <= k < |RowFrom(dayStart, duration, step, off)| ==>
      RowFrom(dayStart, duration, step, off)[k] ==
        Candidate(dayStart + off + k * step, dayStart + off + k * step + duration)
    decreases SearchWindowMinutes - off
  {
    if off < SearchWindowMinutes {
      var rest := RowFrom(dayStart, duration, step, off + step);
      RowFromShape(dayStart, duration, step, off + step);
      RowFromShape(0, 0, step, off + step);
      var row := RowFrom(dayStart, duration, step, off);
      var m := |rest|;
      assert row == [Candidate(dayStart + off, dayStart + off + duration)] + rest;
      MulPred(m + 1, step);
      if m > 0 {
        MulPred(m, step);
      }
      forall k | 0 <= k < |row|
        ensures row[k] == Candidate(dayStart + off + k * step, dayStart + off + k * step + duration)
      {
        if k > 0 {
          assert row[k] == rest[k - 1];
          MulPred(k, step);
        }
      }
    }
  }

  /** One day holds K slots, slot k starting k steps after the day's start. */
  lemma DayRowShape(dayStart: int, duration: int, step: int)
    requires step > 0
    ensures |DayRow(dayStart, duration, step)| == WindowSteps(step)
    ensures forall k :: 0 <= k < WindowSteps(step) ==>
      DayRow(dayStart, duration, step)[k] == Candidate(dayStart + k * step, dayStart + k * step + duration)
  {
    RowFromShape(dayStart, duration, step, 0);
  }

  lemma DayRowLength(dayStart: int, duration: int, step: int)
    requires step > 0
    ensures |DayRow(dayStart, duration, step)| == WindowSteps(step)
  {
    RowFromShape(dayStart, duration, step, 0);
  }

  /** K is ceil(720 / step): the least count whose steps cover the window. */
  lemma WindowStepsCeil(step: int)
    requires step > 0
    ensures (WindowSteps(step) - 1) * step < SearchWindowMinutes <= WindowSteps(step) * step
    ensures WindowSteps(step) == (SearchWindowMinutes + step - 1) / step
  {
    RowFromShape(0, 0, step, 0);
    var n := WindowSteps(step);
    MulPred(n, step);
    MulPred(n + 1, step);
    DivUnique(SearchWindowMinutes + step - 1, step, n);
  }

  /** Days d .. last hold ceil(720 / step) slots each. */
  lemma {:induction false} DaysFromLength(baseStart: int, duration: int, step: int, d: int, last: int)
    requires step > 0 && d <= last + 1
    ensures |DaysFrom(baseStart, duration, step, d, last)| == (last + 1 - d) * WindowSteps(step)
    decreases last + 1 - d
  {
    if d <= last {
      DayRowLength(DayShift(baseStart, d), duration, step);
      DaysFromLength(baseStart, duration, step, d + 1, last);
      MulPred(last + 1 - d, WindowSteps(step));
    }
  }

  /** Position k after j whole rows of n slots, counted row by row. */
  function RowMajor(j: nat, n: nat, k: nat): nat
  {
    if j == 0 then k else n + RowMajor(j - 1, n, k)
  }

  lemma {:induction false} RowMajorIsProduct(j: nat, n: nat, k: nat)
    ensures RowMajor(j, n, k) == j * n + k
  {
    if j > 0 {
      RowMajorIsProduct(j - 1, n, k);
      MulPred(j, n);
    }
  }

  /** Position (j, k) of days d .. last is slot k of day d + j. */
  lemma {:induction false} DaysFromRow(baseStart: int, duration: int, step: int, d: int, last: int, j: nat, k: nat)
    requires step > 0 && d + j <= last && k < WindowSteps(step)
    ensures k < |DayRow(DayShift(baseStart, d + j), duration, step)|
    ensures RowMajor(j, WindowSteps(step), k) < |DaysFrom(baseStart, duration, step, d, last)|
    ensures DaysFrom(baseStart, duration, step, d, last)[RowMajor(j, WindowSteps(step), k)] ==
      DayRow(DayShift(baseStart, d + j), duration, step)[k]
    decreases j
  {
    var n := WindowSteps(step);
    var row := DayRow(DayShift(baseStart, d), duration, step);
    var rest := DaysFrom(baseStart, duration, step, d + 1, last);
    assert DaysFrom(baseStart, duration, step, d, last) == row + rest;
    DayRowLength(DayShift(baseStart, d), duration, step);
    if j > 0 {
      DaysFromRow(baseStart, duration, step, d + 1, last, j - 1, k);
      assert (d + 1) + (j - 1) == d + j;
      DayRowLength(DayShift(baseStart, d + j), duration, step);
      RowMajorInConcat(row, rest, n, j, k, DayRow(DayShift(baseStart, d + j), duration, step)[k]);
    } else {
      assert (row + rest)[k] == row[k];
    }
  }

  /** Slot k of the j-th day after d sits after j full days and starts j
      days and k steps after the base start of day d. */
  lemma DaysFromIndex(baseStart: int, duration: int, step: int, d: int, last: int, j: nat, k: nat)
    requires step > 0 && d + j <= last && k < WindowSteps(step)
    ensures RowMajor(j, WindowSteps(step), k) < |DaysFrom(baseStart, duration, step, d, last)|
    ensures DaysFrom(baseStart, duration, step, d, last)[RowMajor(j, WindowSteps(step), k)] ==
      Candidate(baseStart + (d + j) * MinutesPerDay + k * step, baseStart + (d + j) * MinutesPerDay + k * step + duration)
  {
    var dayStart := DayShift(baseStart, d + j);
    DayShiftIsProduct(baseStart, d + j);
    DaysFromRow(baseStart, duration, step, d, last, j, k);
    DayRowShape(dayStart, duration, step);
    assert DayRow(dayStart, duration, step)[k] == Candidate(dayStart + k * step, dayStart + k * step + duration);
  }

  /** Row-major position j, k of `row + rest` is position j - 1, k of `rest`
      when `row` is one whole row. */
  lemma RowMajorInConcat<T>(row: seq<T>, rest: seq<T>, n: nat, j: nat, k: nat, x: T)
    requires |row| == n && j > 0
    requires RowMajor(j - 1, n, k) < |rest| && rest[RowMajor(j - 1, n, k)] == x
    ensures RowMajor(j, n, k) < |row + rest| && (row + rest)[RowMajor(j, n, k)] == x
  {
    assert (row + rest)[n + RowMajor(j - 1, n, k)] == rest[RowMajor(j - 1, n, k)];
  }

  /** Every slot of days d .. last lasts `duration`. */
  lemma {:induction false} DaysFromDuration(baseStart: int, duration: int, step: int, d: int, last: int)
    ensures forall c :: c in DaysFrom(baseStart, duration, step, d, last) ==> c.end - c.start == duration
    decreases last + 1 - d
  {
    if d <= last {
      DaysFromDuration(baseStart, duration, step, d + 1, last);
      if step > 0 {
        RowFromShape(DayShift(baseStart, d), duration, step, 0);
      }
    }
  }

  /** Starts strictly increase. */
  predicate StartsIncreasing(s: seq<Candidate>)
  {
    forall i, j :: 0 <= i < j < |s| ==> s[i].start < s[j].start
  }

  /** Every start lies in [lo, hi). */
  predicate StartsWithin(s: seq<Candidate>, lo: int, hi: int)
  {
    forall i :: 0 <= i < |s| ==> lo <= s[i].start < hi
  }

  lemma ConcatIncreasing(a: seq<Candidate>, b: seq<Candidate>, lo: int, mid: int, hi: int)
    requires lo <= mid <= hi
    requires StartsIncreasing(a) && StartsWithin(a, lo, mid)
    requires StartsIncreasing(b) && StartsWithin(b, mid, hi)
    ensures StartsIncreasing(a + b) && StartsWithin(a + b, lo, hi)
  {
    var ab := a + b;
    forall i, j | 0 <= i < j < |ab| ensures ab[i].start < ab[j].start {
      if j < |a| {
        assert ab[i] == a[i] && ab[j] == a[j];
      } else if i < |a| {
        assert ab[i] == a[i] && ab[j] == b[j - |a|];
      } else {
        assert ab[i] == b[i - |a|] && ab[j] == b[j - |a|];
      }
    }
    forall i | 0 <= i < |ab| ensures lo <= ab[i].start < hi {
      if i < |a| {
        assert ab[i] == a[i];
      } else {
        assert ab[i] == b[i - |a|];
      }
    }
  }

  lemma {:induction false} RowFromIncreasing(dayStart: int, duration: int, step: int, off: int)
    requires step > 0 && 0 <= off
    ensures StartsIncreasing(RowFrom(dayStart, duration, step, off))
    ensures StartsWithin(RowFrom(dayStart, duration, step, off), dayStart + off, dayStart + MinutesPerDay)
    decreases SearchWindowMinutes - off
  {
    if off < SearchWindowMinutes {
      var c := Candidate(dayStart + off, dayStart + off + duration);
      RowFromIncreasing(dayStart, duration, step, off + step);
      ConcatIncreasing([c], RowFrom(dayStart, duration, step, off + step),
        dayStart + off, dayStart + off + 1, dayStart + MinutesPerDay);
    }
  }

  /** Slot starts strictly increase over the whole grid: a day's 12-hour
      window ends before the next day starts. */
  lemma {:induction false} DaysFromIncreasing(baseStart: int, duration: int, step: int, d: int, last: int)
    ensures StartsIncreasing(DaysFrom(baseStart, duration, step, d, last))
    ensures d <= last + 1 ==> StartsWithin(DaysFrom(baseStart, duration, step, d, last),
      DayShift(baseStart, d), DayShift(baseStart, last + 1))
    decreases last + 1 - d
  {
    if d <= last {
      var lo := DayShift(baseStart, d);
      var mid := DayShift(baseStart, d + 1);
      var hi := DayShift(baseStart, last + 1);
      DayShiftNext(baseStart, d);
      DayShiftMonotone(baseStart, d + 1, last + 1);
      DayRowIncreasing(lo, duration, step, mid);
      DaysFromIncreasing(baseStart, duration, step, d + 1, last);
      ConcatIncreasingAs(DaysFrom(baseStart, duration, step, d, last),
        DayRow(lo, duration, step), DaysFrom(baseStart, duration, step, d + 1, last), lo, mid, hi);
    }
  }

  lemma ConcatIncreasingAs(s: seq<Candidate>, a: seq<Candidate>, b: seq<Candidate>, lo: int, mid: int, hi: int)
    requires s == a + b && lo <= mid <= hi
    requires StartsIncreasing(a) && StartsWithin(a, lo, mid)
    requires StartsIncreasing(b) && StartsWithin(b, mid, hi)
    ensures StartsIncreasing(s) && StartsWithin(s, lo, hi)
  {
    ConcatIncreasing(a, b, lo, mid, hi);
  }

  /** One day's slots start in increasing order, inside that day. */
  lemma DayRowIncreasing(dayStart: int, duration: int, step: int, nextDay: int)
    requires nextDay == dayStart + MinutesPerDay
    ensures StartsIncreasing(DayRow(dayStart, duration, step))
    ensures StartsWithin(DayRow(dayStart, duration, step), dayStart, nextDay)
  {
    if step > 0 {
      RowFromIncreasing(dayStart, duration, step, 0);
    }
  }

  /** The candidate grid for day offsets -n .. n: (2n + 1) * K slots where K
      is ceil(720 / step); every slot lasts `duration`; starts strictly
      increase. */
  lemma CandidateGrid(baseStart: int, duration: int, step: int, n: int)
    requires n >= 0 && step > 0
    ensures GridSpec(baseStart, duration, step, n).Some?
    ensures |GridSpec(baseStart, duration, step, n).value| == (2 * n + 1) * WindowSteps(step)
    ensures forall x :: x in GridSpec(baseStart, duration, step, n).value ==> x.end - x.start == duration
    ensures StartsIncreasing(GridSpec(baseStart, duration, step, n).value)
  {
    assert GridSpec(baseStart, duration, step, n) == Some(DaysFrom(baseStart, duration, step, -n, n));
    DaysFromLength(baseStart, duration, step, -n, n);
    assert n + 1 - -n == 2 * n + 1;
    DaysFromDuration(baseStart, duration, step, -n, n);
    DaysFromIncreasing(baseStart, duration, step, -n, n);
  }

  /** The grid is day-major: slot k of day offset dd sits at position
      (dd + n) * K + k and starts dd days and k steps after the base start. */
  lemma CandidateGridSlot(baseStart: int, duration: int, step: int, n: int, dd: int, k: int)
    requires step > 0 && -n <= dd <= n && 0 <= k < WindowSteps(step)
    ensures GridSpec(baseStart, duration, step, n).Some?
    ensures var i := (dd + n) * WindowSteps(step) + k;
      && i < |GridSpec(baseStart, duration, step, n).value|
      && GridSpec(baseStart, duration, step, n).value[i] ==
           Candidate(baseStart + dd * MinutesPerDay + k * step, baseStart + dd * MinutesPerDay + k * step + duration)
  {
    var days := DaysFrom(baseStart, duration, step, -n, n);
    assert GridSpec(baseStart, duration, step, n) == Some(days);
    DaysFromIndex(baseStart, duration, step, -n, n, dd + n, k);
    RowMajorIsProduct(dd + n, WindowSteps(step), k);
    assert -n + (dd + n) == dd;
  }

  /** With the default arguments (7 days either side, 30-minute steps) the
      grid has 15 days of 24 slots each, whenever the base interval reads. */
  lemma DefaultCandidateCount(e: ScheduleEvent, now: int)
    ensures CandidatesSpec(e, now, DefaultDaysSearchRange, DefaultStepMinutes).Some? <==>
      BaseInterval(e, NextOccurrence(e, now)).Some?
    ensures CandidatesSpec(e, now, DefaultDaysSearchRange, DefaultStepMinutes).Some? ==>
      |CandidatesSpec(e, now, DefaultDaysSearchRange, DefaultStepMinutes).value| == 15 * 24
  {
    DefaultGridCount(BaseInterval(e, NextOccurrence(e, now)));
  }

  lemma DefaultGridCount(base: Option<(int, int)>)
    ensures GridOn(base, DefaultDaysSearchRange, DefaultStepMinutes).Some? <==> base.Some?
    ensures GridOn(base, DefaultDaysSearchRange, DefaultStepMinutes).Some? ==>
      |GridOn(base, DefaultDaysSearchRange, DefaultStepMinutes).value| == 15 * 24
  {
    if base.Some? {
      var n, step := DefaultDaysSearchRange, DefaultStepMinutes;
      var b := base.value;
      assert GridOn(base, n, step) == Some(DaysFrom(b.0, b.1 - b.0, step, -n, n));
      DaysFromLength(b.0, b.1 - b.0, step, -n, n);
      assert n + 1 - -n == 15;
      HalfHourSteps();
    }
  }

  /** Half-hour steps fit 24 times in the 12-hour window. */
  lemma HalfHourSteps()
    ensures WindowSteps(DefaultStepMinutes) == 24
  {
    WindowStepsCeil(DefaultStepMinutes);
    assert (SearchWindowMinutes + DefaultStepMinutes - 1) / DefaultStepMinutes == 24;
  }

  /** The base interval is the event's own HH:MM times on the base day, so
      the first candidate of the base day is the event's own slot. */
  lemma BaseIntervalTimes(e: ScheduleEvent, baseDate: int)
    requires baseDate % MinutesPerDay == 0
    requires BaseInterval(e, baseDate).Some?
    ensures var base := BaseInterval(e, baseDate).value;
      && DayOf(base.0) == DayOf(baseDate) && DayOf(base.1) == DayOf(baseDate)
      && ParseTimeHHMM(e.startTime) == Some((HourOf(base.0), MinuteOf(base.0)))
      && ParseTimeHHMM(e.endTime) == Some((HourOf(base.1), MinuteOf(base.1)))
  {
    IntervalOnTimes(ParseTimeHHMM(e.startTime), ParseTimeHHMM(e.endTime), baseDate);
  }

  lemma IntervalOnTimes(s: Option<(int, int)>, t: Option<(int, int)>, baseDate: int)
    requires baseDate % MinutesPerDay == 0
    requires IntervalOn(s, t, baseDate).Some?
    ensures var base := IntervalOn(s, t, baseDate).value;
      && DayOf(base.0) == DayOf(baseDate) && DayOf(base.1) == DayOf(baseDate)
      && s == Some((HourOf(base.0), MinuteOf(base.0)))
      && t == Some((HourOf(base.1), MinuteOf(base.1)))
  {
    ClockOnDay(baseDate, s.value.0, s.value.1);
    ClockOnDay(baseDate, t.value.0, t.value.1);
  }

  /** `hour:minute` after midnight of a day stays on that day and reads
      back as the same clock time. */
  lemma ClockOnDay(midnight: int, hour: int, minute: int)
    requires midnight % MinutesPerDay == 0 && ValidClock(hour, minute)
    ensures DayOf(At(0, hour, minute) + midnight) == DayOf(midnight)
    ensures HourOf(At(0, hour, minute) + midnight) == hour
    ensures MinuteOf(At(0, hour, minute) + midnight) == minute
  {
    var day := DayOf(midnight);
    assert midnight == day * MinutesPerDay;
    assert At(0, hour, minute) + midnight == At(day, hour, minute);
    AtParts(day, hour, minute);
  }

  // ---------------------------------------------------------------------
  // _filter_free_slots

  /** One busy block of the free/busy answer; either bound may be missing. */
  datatype BusyBlock = BusyBlock(start: Option<string>, end: Option<string>)

  /** The parsed bounds of a busy block, None when a bound is missing or
      does not parse (`fromisoformat` raises). */
  function BlockBounds(b: BusyBlock, parseIso: IsoParser): Option<(int, int)>
  {
    var bs := if b.start.Some? then parseIso(b.start.value) else None;
    var be := if b.end.Some? then parseIso(b.end.value) else None;
    if bs.Some? && be.Some? then Some((bs.value, be.value)) else None
  }

  /** `is_free`: the blocks are read in order; the first one that overlaps
      the slot answers false; a block that cannot be read before that raises. */
  function FreeSpec(start: int, end: int, busy: seq<BusyBlock>, parseIso: IsoParser): Option<bool>
  {
    if busy == [] then Some(true)
    else
      match BlockBounds(busy[0], parseIso)
      case None => None
      case Some(bounds) =>
        if EventsOverlap(start, end, bounds.0, bounds.1) then Some(false)
        else FreeSpec(start, end, busy[1..], parseIso)
  }

  method IsFree(start: int, end: int, busy: seq<BusyBlock>, parseIso: IsoParser) returns (free: Option<bool>)
    ensures free == FreeSpec(start, end, busy, parseIso)
  {
    for i := 0 to |busy|
      invariant FreeSpec(start, end, busy[i..], parseIso) == FreeSpec(start, end, busy, parseIso)
    {
      var bounds := BlockBounds(busy[i], parseIso);
      if bounds.None? {
        return None;
      }
      if EventsOverlap(start, end, bounds.value.0, bounds.value.1) {
        return Some(false);
      }
      assert busy[i..][1..] == busy[i + 1..];
    }
    return Some(true);
  }

  /** A slot is free exactly when every busy block can be read and none of
      them overlaps it; it is reported busy only because of a block that
      overlaps it. */
  lemma {:induction false} FreeSpecExact(start: int, end: int, busy: seq<BusyBlock>, parseIso: IsoParser)
    ensures FreeSpec(start, end, busy, parseIso) == Some(true) <==>
      forall k :: 0 <= k < |busy| ==>
        (BlockBounds(busy[k], parseIso).Some? &&
         !EventsOverlap(start, end, BlockBounds(busy[k], parseIso).value.0, BlockBounds(busy[k], parseIso).value.1))
    ensures FreeSpec(start, end, busy, parseIso) == Some(false) ==>
      exists k :: 0 <= k < |busy| && BlockBounds(busy[k], parseIso).Some? &&
        EventsOverlap(start, end, BlockBounds(busy[k], parseIso).value.0, BlockBounds(busy[k], parseIso).value.1)
    decreases |busy|
  {
    if busy != [] {
      FreeSpecExact(start, end, busy[1..], parseIso);
      assert forall k :: 1 <= k < |busy| ==> busy[k] == busy[1..][k - 1];
      if FreeSpec(start, end, busy, parseIso) == Some(false) {
        var b := BlockBounds(busy[0], parseIso).value;
        if !EventsOverlap(start, end, b.0, b.1) {
          var k :| 0 <= k < |busy[1..]| && BlockBounds(busy[1..][k], parseIso).Some? &&
            EventsOverlap(start, end, BlockBounds(busy[1..][k], parseIso).value.0, BlockBounds(busy[1..][k], parseIso).value.1);
          assert busy[1..][k] == busy[k + 1];
        }
      }
    }
  }

  /** The score of a free slot: minus its distance in seconds from the
      first candidate's start. */
  function Score(start: int, first: int): (score: int)
    ensures score <= 0
    ensures score == 0 <==> start == first
  {
    -60 * (if start >= first then start - first else first - start)
  }

  /** The free slots among the candidates, in candidate order, scored
      against `first`; None when a busy check raises. */
  function FreeFrom(candidates: seq<Candidate>, first: int, busy: seq<BusyBlock>, parseIso: IsoParser): Option<seq<AlternativeSlot>>
  {
    if candidates == [] then Some([])
    else
      var c := candidates[|candidates| - 1];
      match FreeFrom(candidates[..|candidates| - 1], first, busy, parseIso)
      case None => None
      case Some(acc) =>
        match FreeSpec(c.start, c.end, busy, parseIso)
        case None => None
        case Some(free) =>
          Some(if free then acc + [AlternativeSlot(c.start, c.end, Score(c.start, first))] else acc)
  }

  /** What `_filter_free_slots` returns, None when it raises: no candidates
      give no slots without asking the calendar; otherwise the free slots
      best score first, ties kept in candidate order. */
  function FilterSpec(candidates: seq<Candidate>, busy: seq<BusyBlock>, parseIso: IsoParser): Option<seq<AlternativeSlot>>
  {
    if candidates == [] then Some([])
    else
      match FreeFrom(candidates, candidates[0].start, busy, parseIso)
      case None => None
      case Some(free) => Some(SortByScoreDesc(free))
  }

  /** `_filter_free_slots`, with the free/busy answer for the candidates'
      span given as `busy`. */
  method FilterFreeSlots(candidates: seq<Candidate>, busy: seq<BusyBlock>, parseIso: IsoParser)
    returns (slots: Option<seq<AlternativeSlot>>)
    ensures slots == FilterSpec(candidates, busy, parseIso)
  {
    if candidates == [] {
      return Some([]);
    }
    var first := candidates[0].start;
    var free: seq<AlternativeSlot> := [];
    for i := 0 to |candidates|
      invariant FreeFrom(candidates[..i], first, busy, parseIso) == Some(free)
    {
      var c := candidates[i];
      assert candidates[..i + 1][..i] == candidates[..i];
      var ok := IsFree(c.start, c.end, busy, parseIso);
      if ok.None? {
        FreeFromNoneStays(candidates, first, busy, parseIso, i + 1);
        return None;
      }
      if ok.value {
        free := free + [AlternativeSlot(c.start, c.end, Score(c.start, first))];
      }
    }
    assert candidates[..|candidates|] == candidates;
    return Some(SortByScoreDesc(free));
  }

  /** Once a busy check raises, the whole filter raises. */
  lemma {:induction false} FreeFromNoneStays(candidates: seq<Candidate>, first: int, busy: seq<BusyBlock>, parseIso: IsoParser, i: nat)
    requires i <= |candidates|
    requires FreeFrom(candidates[..i], first, busy, parseIso).None?
    ensures FreeFrom(candidates, first, busy, parseIso).None?
    decreases |candidates| - i
  {
    if i < |candidates| {
      assert candidates[..i + 1][..i] == candidates[..i];
      FreeFromNoneStays(candidates, first, busy, parseIso, i + 1);
    } else {
      assert candidates[..i] == candidates;
    }
  }

  /** The filter succeeds exactly when every candidate's busy check does;
      a slot is then kept exactly when its candidate is free, scored by its
      distance from `first`. */
  lemma {:induction false} FreeFromExact(candidates: seq<Candidate>, first: int, busy: seq<BusyBlock>, parseIso: IsoParser)
    ensures FreeFrom(candidates, first, busy, parseIso).Some? <==>
      forall k :: 0 <= k < |candidates| ==> FreeSpec(candidates[k].start, candidates[k].end, busy, parseIso).Some?
    ensures FreeFrom(candidates, first, busy, parseIso).Some? ==>
      forall slot :: slot in FreeFrom(candidates, first, busy, parseIso).value <==>
        exists k :: 0 <= k < |candidates| && FreeSpec(candidates[k].start, candidates[k].end, busy, parseIso) == Some(true) &&
          slot == AlternativeSlot(candidates[k].start, candidates[k].end, Score(candidates[k].start, first))
    decreases |candidates|
  {
    if candidates != [] {
      var n := |candidates| - 1;
      var init := candidates[..n];
      var c := candidates[n];
      FreeFromExact(init, first, busy, parseIso);
      assert forall k :: 0 <= k < n ==> init[k] == candidates[k];
      var r := FreeFrom(candidates, first, busy, parseIso);
      if r.Some? {
        var acc := FreeFrom(init, first, busy, parseIso).value;
        var isFree := FreeSpec(c.start, c.end, busy, parseIso) == Some(true);
        forall slot
          ensures slot in r.value <==>
            exists k :: 0 <= k < |candidates| && FreeSpec(candidates[k].start, candidates[k].end, busy, parseIso) == Some(true) &&
              slot == AlternativeSlot(candidates[k].start, candidates[k].end, Score(candidates[k].start, first))
        {
          if slot in r.value {
            if slot in acc {
              var k :| 0 <= k < n && FreeSpec(init[k].start, init[k].end, busy, parseIso) == Some(true) &&
                slot == AlternativeSlot(init[k].start, init[k].end, Score(init[k].start, first));
              assert init[k] == candidates[k];
            } else {
              assert isFree && slot == AlternativeSlot(c.start, c.end, Score(c.start, first));
            }
          }
          if exists k :: 0 <= k < |candidates| && FreeSpec(candidates[k].start, candidates[k].end, busy, parseIso) == Some(true) &&
              slot == AlternativeSlot(candidates[k].start, candidates[k].end, Score(candidates[k].start, first)) {
            var k :| 0 <= k < |candidates| && FreeSpec(candidates[k].start, candidates[k].end, busy, parseIso) == Some(true) &&
              slot == AlternativeSlot(candidates[k].start, candidates[k].end, Score(candidates[k].start, first));
            if k < n {
              assert init[k] == candidates[k];
              assert slot in acc;
            } else {
              assert slot in r.value;
            }
          }
        }
      } else if FreeFrom(init, first, busy, parseIso).Some? {
        assert FreeSpec(c.start, c.end, busy, parseIso).None?;
      }
    }
  }

  // ---------------------------------------------------------------------
  // sorted(free_slots, key=score, reverse=True)

  /** Scores never increase along the sequence. */
  predicate ScoresDescending(s: seq<AlternativeSlot>)
  {
    forall i, j :: 0 <= i < j < |s| ==> s[i].score >= s[j].score
  }

  /** Places x after every slot whose score is at least its own. */
  function InsertByScore(x: AlternativeSlot, s: seq<AlternativeSlot>): (r: seq<AlternativeSlot>)
    ensures |r| == |s| + 1
    ensures multiset(r) == multiset(s) + multiset{x}
  {
    if s == [] then [x]
    else
      assert s == [s[0]] + s[1..];
      if s[0].score >= x.score then [s[0]] + InsertByScore(x, s[1..]) else [x] + s
  }

  /** Python's stable `sorted(..., reverse=True)` on the score, as an
      insertion sort taking the slots in order. */
  function SortByScoreDesc(s: seq<AlternativeSlot>): (r: seq<AlternativeSlot>)
    ensures multiset(r) == multiset(s)
  {
    if s == [] then []
    else
      assert s == s[..|s| - 1] + [s[|s| - 1]];
      InsertByScore(s[|s| - 1], SortByScoreDesc(s[..|s| - 1]))
  }

  /** The slots carrying score v, in order. */
  function WithScore(s: seq<AlternativeSlot>, v: int): seq<AlternativeSlot>
  {
    if s == [] then []
    else (if s[0].score == v then [s[0]] else []) + WithScore(s[1..], v)
  }

  lemma {:induction false} WithScoreAppend(a: seq<AlternativeSlot>, b: seq<AlternativeSlot>, v: int)
    ensures WithScore(a + b, v) == WithScore(a, v) + WithScore(b, v)
    decreases |a|
  {
    if a != [] {
      assert (a + b)[0] == a[0];
      assert (a + b)[1..] == a[1..] + b;
      WithScoreAppend(a[1..], b, v);
    } else {
      assert a + b == b;
    }
  }

  lemma {:induction false} WithScoreNone(s: seq<AlternativeSlot>, v: int)
    requires forall i :: 0 <= i < |s| ==> s[i].score < v
    ensures WithScore(s, v) == []
    decreases |s|
  {
    if s != [] {
      WithScoreNone(s[1..], v);
    }
  }

  /** No slot outscores the head of a descending sequence. */
  lemma HeadIsBest(s: seq<AlternativeSlot>)
    requires s != [] && ScoresDescending(s)
    ensures forall y :: y in s ==> y.score <= s[0].score
  {
    forall y | y in s ensures y.score <= s[0].score {
      var j :| 0 <= j < |s| && s[j] == y;
    }
  }

  lemma {:induction false} InsertByScoreSorted(x: AlternativeSlot, s: seq<AlternativeSlot>)
    requires ScoresDescending(s)
    ensures ScoresDescending(InsertByScore(x, s))
    decreases |s|
  {
    if s != [] {
      if s[0].score >= x.score {
        var t := InsertByScore(x, s[1..]);
        InsertByScoreSorted(x, s[1..]);
        HeadIsBest(s);
        forall z | z in t ensures z.score <= s[0].score {
          assert z in multiset(t);
          if z != x {
            assert z in multiset(s[1..]);
            assert z in s;
          }
        }
        ConsDescending(s[0], t);
      } else {
        HeadIsBest(s);
        ConsDescending(x, s);
      }
    }
  }

  /** Putting a slot that outscores every member in front keeps the order. */
  lemma ConsDescending(y: AlternativeSlot, t: seq<AlternativeSlot>)
    requires ScoresDescending(t)
    requires forall z :: z in t ==> z.score <= y.score
    ensures ScoresDescending([y] + t)
  {
    var r := [y] + t;
    forall i, j | 0 <= i < j < |r| ensures r[i].score >= r[j].score {
      assert r[j] == t[j - 1];
      if i > 0 {
        assert r[i] == t[i - 1];
      }
    }
  }

  lemma {:induction false} InsertByScoreStable(x: AlternativeSlot, s: seq<AlternativeSlot>, v: int)
    requires ScoresDescending(s)
    ensures WithScore(InsertByScore(x, s), v) == WithScore(s, v) + WithScore([x], v)
    decreases |s|
  {
    if s != [] {
      if s[0].score >= x.score {
        InsertByScoreStable(x, s[1..], v);
        StableBehind(x, s, v);
      } else {
        StableInFront(x, s, v);
      }
    }
  }

  lemma StableBehind(x: AlternativeSlot, s: seq<AlternativeSlot>, v: int)
    requires s != [] && s[0].score >= x.score
    requires WithScore(InsertByScore(x, s[1..]), v) == WithScore(s[1..], v) + WithScore([x], v)
    ensures WithScore(InsertByScore(x, s), v) == WithScore(s, v) + WithScore([x], v)
  {
    InsertBehind(x, s);
    WithScoreCons(s[0], InsertByScore(x, s[1..]), s[1..], WithScore([x], v), v);
    assert [s[0]] + s[1..] == s;
  }

  lemma InsertBehind(x: AlternativeSlot, s: seq<AlternativeSlot>)
    requires s != [] && s[0].score >= x.score
    ensures InsertByScore(x, s) == [s[0]] + InsertByScore(x, s[1..])
  {
  }

  lemma WithScoreCons(y: AlternativeSlot, t: seq<AlternativeSlot>, u: seq<AlternativeSlot>, extra: seq<AlternativeSlot>, v: int)
    requires WithScore(t, v) == WithScore(u, v) + extra
    ensures WithScore([y] + t, v) == WithScore([y] + u, v) + extra
  {
    WithScoreAppend([y], t, v);
    WithScoreAppend([y], u, v);
  }

  lemma StableInFront(x: AlternativeSlot, s: seq<AlternativeSlot>, v: int)
    requires ScoresDescending(s)
    requires s != [] && s[0].score < x.score
    ensures WithScore(InsertByScore(x, s), v) == WithScore(s, v) + WithScore([x], v)
  {
    assert InsertByScore(x, s) == [x] + s;
    WithScoreAppend([x], s, v);
    if x.score == v {
      forall i | 0 <= i < |s| ensures s[i].score < v {
        assert s[0].score >= s[i].score;
      }
      WithScoreNone(s, v);
    } else {
      assert WithScore([x], v) == [];
    }
  }

  /** The sort orders by score, best first; it is a permutation; and it is
      stable: the slots of any one score keep their input order. */
  lemma {:induction false} SortByScoreDescProps(s: seq<AlternativeSlot>, v: int)
    ensures ScoresDescending(SortByScoreDesc(s))
    ensures multiset(SortByScoreDesc(s)) == multiset(s)
    ensures WithScore(SortByScoreDesc(s), v) == WithScore(s, v)
    decreases |s|
  {
    if s != [] {
      var init := s[..|s| - 1];
      var x := s[|s| - 1];
      SortByScoreDescProps(init, v);
      InsertByScoreSorted(x, SortByScoreDesc(init));
      InsertByScoreStable(x, SortByScoreDesc(init), v);
      assert s == init + [x];
      WithScoreAppend(init, [x], v);
    }
  }

  /** The free slots come out best score first, each scored by its distance
      from the first candidate, exactly the free candidates, every one kept
      once, and equal scores in candidate order. */
  lemma FilterSpecProps(candidates: seq<Candidate>, busy: seq<BusyBlock>, parseIso: IsoParser, v: int)
    requires candidates != []
    requires FilterSpec(candidates, busy, parseIso).Some?
    ensures var free := FreeFrom(candidates, candidates[0].start, busy, parseIso).value;
      var r := FilterSpec(candidates, busy, parseIso).value;
      && ScoresDescending(r)
      && multiset(r) == multiset(free)
      && WithScore(r, v) == WithScore(free, v)
  {
    SortByScoreDescProps(FreeFrom(candidates, candidates[0].start, busy, parseIso).value, v);
  }

  // ---------------------------------------------------------------------
  // apply_resolutions_tool

  /** A resolution is applied when its index names a create_recurring
      operation of the plan and both suggested timestamps parse. */
  predicate Applicable(ops: seq<MutationOp>, r: ResolutionOption, parseIso: IsoParser)
  {
    && 0 <= r.operationIndex < |ops|
    && ops[r.operationIndex].CreateRecurring?
    && parseIso(r.suggestedStartIso).Some?
    && parseIso(r.suggestedEndIso).Some?
  }

  /** The create_recurring operation with the event's times replaced by the
      suggested ones, written as HH:MM. */
  function Retimed(op: MutationOp, r: ResolutionOption, parseIso: IsoParser): (op': MutationOp)
    requires op.CreateRecurring?
    requires parseIso(r.suggestedStartIso).Some? && parseIso(r.suggestedEndIso).Some?
    ensures op'.CreateRecurring? && op'.rrule == op.rrule
    ensures op'.event == op.event.(startTime := op'.event.startTime, endTime := op'.event.endTime)
    ensures ParseTimeHHMM(op'.event.startTime) ==
      Some((HourOf(parseIso(r.suggestedStartIso).value), MinuteOf(parseIso(r.suggestedStartIso).value)))
    ensures ParseTimeHHMM(op'.event.endTime) ==
      Some((HourOf(parseIso(r.suggestedEndIso).value), MinuteOf(parseIso(r.suggestedEndIso).value)))
  {
    var startAt := parseIso(r.suggestedStartIso).value;
    var endAt := parseIso(r.suggestedEndIso).value;
    ParseClockText(startAt);
    ParseClockText(endAt);
    CreateRecurring(op.event.(startTime := ClockText(startAt), endTime := ClockText(endAt)), op.rrule)
  }

  /** The operation list after one resolution. */
  function ApplyOne(ops: seq<MutationOp>, r: ResolutionOption, parseIso: IsoParser): seq<MutationOp>
  {
    if Applicable(ops, r, parseIso) then ops[r.operationIndex := Retimed(ops[r.operationIndex], r, parseIso)]
    else ops
  }

  /** The operation list after the resolutions, in order. */
  function ApplyAll(ops: seq<MutationOp>, rs: seq<ResolutionOption>, parseIso: IsoParser): seq<MutationOp>
  {
    if rs == [] then ops
    else ApplyOne(ApplyAll(ops, rs[..|rs| - 1], parseIso), rs[|rs| - 1], parseIso)
  }

  /** The resolutions that are applied, in order. */
  function AppliedOf(ops: seq<MutationOp>, rs: seq<ResolutionOption>, parseIso: IsoParser): seq<ResolutionOption>
  {
    if rs == [] then []
    else AppliedOf(ops, rs[..|rs| - 1], parseIso) + (if Applicable(ops, rs[|rs| - 1], parseIso) then [rs[|rs| - 1]] else [])
  }

  function OutcomeSpec(plan: MutationPlan, rs: seq<ResolutionOption>, parseIso: IsoParser): NegotiationOutcome
  {
    NegotiationOutcome(plan.(operations := ApplyAll(plan.operations, rs, parseIso)), AppliedOf(plan.operations, rs, parseIso), [])
  }

  /** op' is op, except that a create_recurring event may have new times. */
  predicate SameExceptTimes(op: MutationOp, op': MutationOp)
  {
    if op.CreateRecurring? then
      op'.CreateRecurring? && op'.rrule == op.rrule &&
      op'.event == op.event.(startTime := op'.event.startTime, endTime := op'.event.endTime)
    else op' == op
  }

  predicate SameShape(ops: seq<MutationOp>, ops': seq<MutationOp>)
  {
    |ops'| == |ops| && forall k :: 0 <= k < |ops| ==> SameExceptTimes(ops[k], ops'[k])
  }

  /** `apply_resolutions_tool` on the parsed plan and resolutions: each
      applicable resolution rewrites its operation's times; the others are
      skipped. Nothing is reported unresolved. */
  method ApplyResolutions(plan: MutationPlan, resolutions: seq<ResolutionOption>, parseIso: IsoParser)
    returns (outcome: NegotiationOutcome)
    ensures outcome == OutcomeSpec(plan, resolutions, parseIso)
    ensures SameShape(plan.operations, outcome.updatedPlan.operations)
    ensures outcome.updatedPlan.preview == plan.preview
    ensures outcome.updatedPlan.requiresConfirmation == plan.requiresConfirmation
    ensures outcome.unresolvedConflicts == []
  {
    var ops := plan.operations;
    var applied: seq<ResolutionOption> := [];
    for i := 0 to |resolutions|
      invariant ops == ApplyAll(plan.operations, resolutions[..i], parseIso)
      invariant applied == AppliedOf(plan.operations, resolutions[..i], parseIso)
      invariant SameShape(plan.operations, ops)
    {
      var res := resolutions[i];
      assert resolutions[..i + 1][..i] == resolutions[..i];
      ApplicableStable(plan.operations, ops, res, parseIso);
      var idx := res.operationIndex;
      if idx < 0 || idx >= |ops| {
        continue;
      }
      var op := ops[idx];
      if !op.CreateRecurring? {
        continue;
      }
      var startDt := parseIso(res.suggestedStartIso);
      var endDt := parseIso(res.suggestedEndIso);
      if startDt.None? || endDt.None? {
        continue;
      }
      var ev := op.event.(startTime := ClockText(startDt.value), endTime := ClockText(endDt.value));
      ops := ops[idx := CreateRecurring(ev, op.rrule)];
      applied := applied + [res];
    }
    assert resolutions[..|resolutions|] == resolutions;
    outcome := NegotiationOutcome(plan.(operations := ops), applied, []);
  }

  /** Applicability does not depend on earlier rewrites: they keep every
      operation's kind and position. */
  lemma ApplicableStable(ops: seq<MutationOp>, ops': seq<MutationOp>, r: ResolutionOption, parseIso: IsoParser)
    requires SameShape(ops, ops')
    ensures Applicable(ops', r, parseIso) <==> Applicable(ops, r, parseIso)
  {
  }

  /** The last applicable resolution aimed at operation k, if any. */
  function LastFor(ops: seq<MutationOp>, rs: seq<ResolutionOption>, k: int, parseIso: IsoParser): (r: Option<ResolutionOption>)
    ensures r.Some? ==> r.value in rs && Applicable(ops, r.value, parseIso) && r.value.operationIndex == k
  {
    if rs == [] then None
    else
      var last := rs[|rs| - 1];
      if Applicable(ops, last, parseIso) && last.operationIndex == k then Some(last)
      else LastFor(ops, rs[..|rs| - 1], k, parseIso)
  }

  /** After all resolutions, operation k carries the times of the last
      applicable resolution aimed at it, and is untouched when there is none;
      the list keeps its length and every operation its kind and other fields. */
  lemma {:induction false} ApplyAllLastWins(ops: seq<MutationOp>, rs: seq<ResolutionOption>, parseIso: IsoParser, k: int)
    ensures SameShape(ops, ApplyAll(ops, rs, parseIso))
    ensures 0 <= k < |ops| ==>
      ApplyAll(ops, rs, parseIso)[k] ==
        match LastFor(ops, rs, k, parseIso)
        case None => ops[k]
        case Some(r) => Retimed(ops[k], r, parseIso)
    decreases |rs|
  {
    if rs != [] {
      var init := rs[..|rs| - 1];
      var r := rs[|rs| - 1];
      var prev := ApplyAll(ops, init, parseIso);
      ApplyAllLastWins(ops, init, parseIso, k);
      ApplyAllLastWins(ops, init, parseIso, r.operationIndex);
      ApplicableStable(ops, prev, r, parseIso);
      if Applicable(ops, r, parseIso) {
        var i := r.operationIndex;
        assert Retimed(prev[i], r, parseIso) == Retimed(ops[i], r, parseIso);
        var next := ApplyAll(ops, rs, parseIso);
        assert next == prev[i := Retimed(ops[i], r, parseIso)];
        forall j | 0 <= j < |ops| ensures SameExceptTimes(ops[j], next[j]) {
          if j != i {
            assert next[j] == prev[j];
          }
        }
      }
    }
  }

  /** Exactly the applicable resolutions are reported applied, in order. */
  lemma {:induction false} AppliedOfExact(ops: seq<MutationOp>, rs: seq<ResolutionOption>, parseIso: IsoParser)
    ensures |AppliedOf(ops, rs, parseIso)| <= |rs|
    ensures forall r :: r in AppliedOf(ops, rs, parseIso) <==> r in rs && Applicable(ops, r, parseIso)
    decreases |rs|
  {
    if rs != [] {
      var init := rs[..|rs| - 1];
      AppliedOfExact(ops, init, parseIso);
      assert rs == init + [rs[|rs| - 1]];
    }
  }

  /** The applied list is an order-preserving filter of the resolutions:
      it distributes over concatenation, so resolutions are reported in the
      order they were given. */
  lemma {:induction false} AppliedOfAppend(ops: seq<MutationOp>, a: seq<ResolutionOption>, b: seq<ResolutionOption>, parseIso: IsoParser)
    ensures AppliedOf(ops, a + b, parseIso) == AppliedOf(ops, a, parseIso) + AppliedOf(ops, b, parseIso)
    decreases |b|
  {
    if b == [] {
      assert a + b == a;
    } else {
      var init := b[..|b| - 1];
      AppliedOfAppend(ops, a, init, parseIso);
      assert (a + b)[..|a + b| - 1] == a + init;
      assert (a + b)[|a + b| - 1] == b[|b| - 1];
    }
  }
}
