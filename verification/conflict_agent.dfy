/** The deterministic conflict detector (app_agents/conflict_agent.py).

    Every create_recurring operation of a plan is expanded to its first
    occurrence in the semester; every pair of those intervals is compared
    with the half-open overlap test, and every interval is compared with the
    calendar entries that a query over its own bounds returns. The calendar
    query is the parameter `listEvents`; timestamp parsing is `parseIso`. */
module ConflictAgent {
  import opened Wrappers
  import opened Models
  import opened Text
  import opened Clock

  // ---------------------------------------------------------------------
  // Pure helpers

  /** `_parse_time_hhmm`: the text must split on ':' into exactly two pieces,
      each of which `int()` accepts; the range of the numbers is not checked here. */
  function ParseTimeHHMM(value: string): (r: Option<(int, int)>)
    ensures r.Some? ==> multiset(value)[':'] == 1
    ensures ':' !in value ==> r.None?
  {
    SplitCount(value, ':');
    var parts := Split(value, ':');
    if |parts| == 2 && ParseInt(parts[0]).Some? && ParseInt(parts[1]).Some? then
      Some((ParseInt(parts[0]).value, ParseInt(parts[1]).value))
    else None
  }

  /** A text with exactly one ':' parses exactly when `int()` accepts both
      sides; the numbers are kept whatever their range ("25:99" gives (25, 99)). */
  lemma ParseTimeHHMMPieces(h: string, m: string)
    requires ':' !in h && ':' !in m
    ensures ParseTimeHHMM(h + [':'] + m) ==
      if ParseInt(h).Some? && ParseInt(m).Some? then Some((ParseInt(h).value, ParseInt(m).value)) else None
  {
    assert Join([h, m], [':']) == h + [':'] + m by {
      assert [h, m][1..] == [m];
    }
    SplitJoin([h, m], ':');
  }

  /** Parsing undoes `strftime("%H:%M")`: the clock text of an instant reads
      back as its hour and minute. */
  lemma ParseClockText(t: int)
    ensures ParseTimeHHMM(ClockText(t)) == Some((HourOf(t), MinuteOf(t)))
  {
    var h, m := TwoDigits(HourOf(t)), TwoDigits(MinuteOf(t));
    assert ':' !in h && ':' !in m by {
      assert forall k :: 0 <= k < |h| ==> IsDigit(h[k]);
      assert forall k :: 0 <= k < |m| ==> IsDigit(m[k]);
    }
    assert ClockText(t) == Join([h, m], [':']) by {
      assert [h, m][1..] == [m];
    }
    SplitJoin([h, m], ':');
    TwoDigitsParse(HourOf(t));
    TwoDigitsParse(MinuteOf(t));
  }

  /** The first day on or after `startDay` whose weekday is `target`:
      `startDay + (target - weekday) % 7`. */
  function FirstOnWeekday(startDay: int, target: int): (day: int)
    requires 0 <= target < 7
    ensures startDay <= day <= startDay + 6
    ensures Weekday(day) == target
  {
    var w := Weekday(startDay);
    var delta := (target - w) % 7;
    assert startDay == 7 * (startDay / 7) + w;
    assert delta == if target >= w then target - w else target - w + 7;
    assert startDay + delta == 7 * (startDay / 7 + (if target >= w then 0 else 1)) + target;
    startDay + delta
  }

  /** No earlier day has the target weekday: the result is the first one. */
  lemma FirstOnWeekdayEarliest(startDay: int, target: int, k: int)
    requires 0 <= target < 7
    requires startDay <= k < FirstOnWeekday(startDay, target)
    ensures Weekday(k) != target
  {
    var w := Weekday(startDay);
    var i := k - startDay;
    assert startDay == 7 * (startDay / 7) + w;
    assert k == 7 * (startDay / 7) + (w + i);
    if w + i < 7 {
      assert Weekday(k) == w + i;
    } else {
      assert k == 7 * (startDay / 7 + 1) + (w + i - 7);
      assert Weekday(k) == w + i - 7;
    }
  }

  /** `_first_occurrence_date`: the first day on or after `startDay` whose
      weekday is the one `targetDow` names, case-insensitively; Monday for
      an unknown name. */
  function FirstOccurrenceDate(startDay: int, targetDow: string): (day: int)
    ensures startDay <= day <= startDay + 6
    ensures Weekday(day) == DowMapGet(Lower(targetDow))
  {
    FirstOnWeekday(startDay, DowMapGet(Lower(targetDow)))
  }

  /** For a day of the week's own value, the first occurrence is the first
      day on that weekday. */
  lemma FirstOccurrenceOfDay(startDay: int, d: DayOfWeek)
    ensures FirstOccurrenceDate(startDay, DayValue(d)) == FirstOnWeekday(startDay, DayIndex(d))
  {
    assert Lower(DayValue(d)) == DayValue(d);
  }

  /** `_events_overlap`: `max(a_start, b_start) < min(a_end, b_end)`, which holds
      exactly when both intervals are non-empty and each starts before the other ends. */
  function EventsOverlap(aStart: int, aEnd: int, bStart: int, bEnd: int): (r: bool)
    ensures r <==> aStart < aEnd && bStart < bEnd && aStart < bEnd && bStart < aEnd
  {
    (if aStart < bStart then bStart else aStart) < (if aEnd < bEnd then aEnd else bEnd)
  }

  /** The overlap test is symmetric, ignores touching endpoints and never
      flags an empty or inverted interval. */
  lemma OverlapProperties(aStart: int, aEnd: int, bStart: int, bEnd: int)
    ensures EventsOverlap(aStart, aEnd, bStart, bEnd) == EventsOverlap(bStart, bEnd, aStart, aEnd)
    ensures aEnd == bStart ==> !EventsOverlap(aStart, aEnd, bStart, bEnd)
    ensures aEnd <= aStart ==> !EventsOverlap(aStart, aEnd, bStart, bEnd)
  {
  }

  // ---------------------------------------------------------------------
  // Planned occurrences

  /** One expanded create_recurring operation; `index` is its position in the plan. */
  datatype Planned = Planned(index: nat, title: string, start: int, end: int, event: ScheduleEvent)

  /** The first-occurrence interval of the event of operation `index`, or None
      when its times do not parse or `datetime.replace` would reject them.
      Its day is `_first_occurrence_date` of the event's day name, which
      FirstOccurrenceOfDay shows to be FirstOnWeekday of its index. */
  function Occurrence(index: nat, e: ScheduleEvent, startDay: int): Option<Planned>
  {
    var day := FirstOnWeekday(startDay, DayIndex(e.dayOfWeek));
    var s := ParseTimeHHMM(e.startTime);
    var t := ParseTimeHHMM(e.endTime);
    if s.Some? && t.Some? && ValidClock(s.value.0, s.value.1) && ValidClock(t.value.0, t.value.1) then
      Some(Planned(index, e.title, At(day, s.value.0, s.value.1), At(day, t.value.0, t.value.1), e))
    else None
  }

  /** An occurrence exists exactly when both times are valid HH:MM; it runs
      from the start time to the end time of one day, 0 to 6 days after the
      semester starts, on the event's own weekday. */
  lemma OccurrenceShape(index: nat, e: ScheduleEvent, startDay: int)
    ensures var o := Occurrence(index, e, startDay);
      var s := ParseTimeHHMM(e.startTime);
      var t := ParseTimeHHMM(e.endTime);
      && (o.Some? <==> s.Some? && t.Some? && ValidClock(s.value.0, s.value.1) && ValidClock(t.value.0, t.value.1))
      && (o.Some? ==>
            && o.value.index == index && o.value.title == e.title && o.value.event == e
            && DayOf(o.value.start) == DayOf(o.value.end)
            && startDay <= DayOf(o.value.start) <= startDay + 6
            && Weekday(DayOf(o.value.start)) == DayIndex(e.dayOfWeek)
            && (HourOf(o.value.start), MinuteOf(o.value.start)) == s.value
            && (HourOf(o.value.end), MinuteOf(o.value.end)) == t.value)
  {
    var day := FirstOnWeekday(startDay, DayIndex(e.dayOfWeek));
    var s := ParseTimeHHMM(e.startTime);
    var t := ParseTimeHHMM(e.endTime);
    if s.Some? && t.Some? && ValidClock(s.value.0, s.value.1) && ValidClock(t.value.0, t.value.1) {
      AtParts(day, s.value.0, s.value.1);
      AtParts(day, t.value.0, t.value.1);
    }
  }

  /** What operation k contributes: its occurrence if it is a create_recurring
      one whose times are valid, nothing otherwise. */
  function OpOccurrence(ops: seq<MutationOp>, k: nat, startDay: int): (r: seq<Planned>)
    requires k < |ops|
    ensures |r| <= 1
    ensures forall x :: x in r ==> x.index == k && ops[k].CreateRecurring? && x.event == ops[k].event
  {
    if ops[k].CreateRecurring? && Occurrence(k, ops[k].event, startDay).Some? then
      [Occurrence(k, ops[k].event, startDay).value]
    else []
  }

  /** What each operation contributes, one entry per operation. */
  function Contributions(ops: seq<MutationOp>, startDay: int): (parts: seq<seq<Planned>>)
    ensures |parts| == |ops|
    ensures forall k :: 0 <= k < |ops| ==> parts[k] == OpOccurrence(ops, k, startDay)
  {
    seq(|ops|, k requires 0 <= k < |ops| => OpOccurrence(ops, k, startDay))
  }

  /** The concatenation of `parts`, in order. */
  function Concat<T>(parts: seq<seq<T>>): seq<T>
  {
    if parts == [] then [] else Concat(parts[..|parts| - 1]) + parts[|parts| - 1]
  }

  /** An element is in a concatenation exactly when it is in one of the parts. */
  lemma {:induction false} ConcatMember<T>(parts: seq<seq<T>>, x: T)
    ensures x in Concat(parts) <==> exists k :: 0 <= k < |parts| && x in parts[k]
  {
    if parts != [] {
      var init := parts[..|parts| - 1];
      ConcatMember(init, x);
      if x in Concat(parts) && x !in parts[|parts| - 1] {
        var k :| 0 <= k < |init| && x in init[k];
        assert parts[k] == init[k];
      }
      if exists k :: 0 <= k < |parts| && x in parts[k] {
        var k :| 0 <= k < |parts| && x in parts[k];
        if k < |init| {
          assert init[k] == parts[k];
        }
      }
    }
  }

  /** No create_recurring operation among the first `n` has times that raise. */
  predicate OccurrencesDefined(ops: seq<MutationOp>, startDay: int, n: nat)
    requires n <= |ops|
  {
    n == 0 ||
    (OccurrencesDefined(ops, startDay, n - 1) &&
     (ops[n - 1].CreateRecurring? ==> Occurrence(n - 1, ops[n - 1].event, startDay).Some?))
  }

  /** Expanding the plan fails exactly when some create_recurring operation
      has a start or end time that is not a valid HH:MM. */
  lemma {:induction false} OccurrencesDefinedExact(ops: seq<MutationOp>, startDay: int, n: nat)
    requires n <= |ops|
    ensures OccurrencesDefined(ops, startDay, n) <==>
      forall k :: 0 <= k < n && ops[k].CreateRecurring? ==> Occurrence(k, ops[k].event, startDay).Some?
  {
    if n > 0 {
      OccurrencesDefinedExact(ops, startDay, n - 1);
    }
  }

  lemma {:induction false} OccurrencesUndefinedStays(ops: seq<MutationOp>, startDay: int, m: nat, n: nat)
    requires m <= n <= |ops|
    requires !OccurrencesDefined(ops, startDay, m)
    ensures !OccurrencesDefined(ops, startDay, n)
    decreases n
  {
    if n > m {
      OccurrencesUndefinedStays(ops, startDay, m, n - 1);
    }
  }

  /** What `_planned_occurrences` returns, None when it raises. */
  function PlannedSpec(plan: MutationPlan, semester: SemesterWindow, parseIso: IsoParser): Option<seq<Planned>>
  {
    var start := parseIso(semester.semesterStart);
    if start.None? then None
    else if OccurrencesDefined(plan.operations, DayOf(start.value), |plan.operations|) then
      Some(Concat(Contributions(plan.operations, DayOf(start.value))))
    else None
  }

  /** `_planned_occurrences`: walks the operations in order and appends the
      first occurrence of every create_recurring one. */
  method PlannedOccurrences(plan: MutationPlan, semester: SemesterWindow, parseIso: IsoParser)
    returns (planned: Option<seq<Planned>>)
    ensures planned == PlannedSpec(plan, semester, parseIso)
  {
    var semesterStart := parseIso(semester.semesterStart);
    if semesterStart.None? {
      return None;
    }
    var startDay := DayOf(semesterStart.value);
    var ops := plan.operations;
    ghost var parts := Contributions(ops, startDay);
    var acc: seq<Planned> := [];
    for idx := 0 to |ops|
      invariant acc == Concat(parts[..idx])
      invariant OccurrencesDefined(ops, startDay, idx)
    {
      ContributionStep(ops, startDay, idx);
      var op := ops[idx];
      if !op.CreateRecurring? {
        continue;
      }
      // lines 43-47: first-occurrence day, then the parsed start and end times
      var occurrence := Occurrence(idx, op.event, startDay);
      if occurrence.None? {
        OccurrencesUndefinedStays(ops, startDay, idx + 1, |ops|);
        return None;
      }
      acc := acc + [occurrence.value];
    }
    assert parts[..|ops|] == parts;
    return Some(acc);
  }

  /** One more operation appends its contribution. */
  lemma ContributionStep(ops: seq<MutationOp>, startDay: int, idx: nat)
    requires idx < |ops|
    ensures Concat(Contributions(ops, startDay)[..idx + 1]) ==
      Concat(Contributions(ops, startDay)[..idx]) + OpOccurrence(ops, idx, startDay)
  {
    ConcatSnoc(Contributions(ops, startDay), idx);
  }

  lemma ConcatSnoc<T>(parts: seq<seq<T>>, i: nat)
    requires i < |parts|
    ensures Concat(parts[..i + 1]) == Concat(parts[..i]) + parts[i]
  {
    assert parts[..i + 1][..i] == parts[..i];
  }

  /** Every element of `p` is the occurrence of a create_recurring operation
      among the first `n`, carrying that operation's event, and indices
      strictly increase. */
  predicate IndexedOccurrences(ops: seq<MutationOp>, p: seq<Planned>, n: nat)
  {
    && (forall q :: 0 <= q < |p| ==>
          && p[q].index < n <= |ops|
          && ops[p[q].index].CreateRecurring?
          && ops[p[q].index].event == p[q].event)
    && (forall q1, q2 :: 0 <= q1 < q2 < |p| ==> p[q1].index < p[q2].index)
  }

  /** Part k holds at most the occurrence of operation k. */
  predicate PartsIndexed(ops: seq<MutationOp>, parts: seq<seq<Planned>>)
  {
    && |parts| <= |ops|
    && forall k :: 0 <= k < |parts| ==>
         && |parts[k]| <= 1
         && forall x :: x in parts[k] ==> x.index == k && ops[k].CreateRecurring? && x.event == ops[k].event
  }

  lemma {:induction false} ConcatIndexed(ops: seq<MutationOp>, parts: seq<seq<Planned>>)
    requires PartsIndexed(ops, parts)
    ensures IndexedOccurrences(ops, Concat(parts), |parts|)
  {
    if parts != [] {
      var init := parts[..|parts| - 1];
      var last := parts[|parts| - 1];
      assert PartsIndexed(ops, init) by {
        forall k | 0 <= k < |init| ensures init[k] == parts[k] { }
      }
      ConcatIndexed(ops, init);
      var prev := Concat(init);
      var p := Concat(parts);
      assert p == prev + last;
      forall q1, q2 | 0 <= q1 < q2 < |p| ensures p[q1].index < p[q2].index {
        if q2 >= |prev| {
          assert p[q2] in last;
          assert p[q1] == prev[q1];
        } else {
          assert p[q1] == prev[q1] && p[q2] == prev[q2];
        }
      }
      forall q | 0 <= q < |p|
        ensures p[q].index < |parts| && ops[p[q].index].CreateRecurring? && ops[p[q].index].event == p[q].event
      {
        if q >= |prev| {
          assert p[q] in last;
        } else {
          assert p[q] == prev[q];
        }
      }
    }
  }

  /** Occurrences keep their operation's index: each names a create_recurring
      operation carrying that very event, and indices strictly increase, so
      plan order is kept and nothing is renumbered. */
  lemma PlannedIndexed(ops: seq<MutationOp>, startDay: int)
    ensures IndexedOccurrences(ops, Concat(Contributions(ops, startDay)), |ops|)
  {
    ConcatIndexed(ops, Contributions(ops, startDay));
  }

  /** Each listed occurrence is the first-occurrence interval of its own operation. */
  lemma PlannedAreOccurrences(ops: seq<MutationOp>, startDay: int, o: Planned)
    ensures o in Concat(Contributions(ops, startDay)) ==> Occurrence(o.index, o.event, startDay) == Some(o)
  {
    var parts := Contributions(ops, startDay);
    ConcatMember(parts, o);
    if o in Concat(parts) {
      var k :| 0 <= k < |parts| && o in parts[k];
      assert parts[k] == OpOccurrence(ops, k, startDay);
    }
  }

  /** No create_recurring operation with valid times is dropped. */
  lemma PlannedComplete(ops: seq<MutationOp>, startDay: int, k: nat)
    requires k < |ops|
    requires ops[k].CreateRecurring? && Occurrence(k, ops[k].event, startDay).Some?
    ensures Occurrence(k, ops[k].event, startDay).value in Concat(Contributions(ops, startDay))
  {
    var parts := Contributions(ops, startDay);
    assert parts[k] == [Occurrence(k, ops[k].event, startDay).value];
    ConcatMember(parts, Occurrence(k, ops[k].event, startDay).value);
  }

  // ---------------------------------------------------------------------
  // Existing calendar entries

  /** A `start`/`end` object of a calendar entry: `dateTime` and all-day `date`. */
  datatype EventTime = EventTime(dateTime: Option<string>, date: Option<string>)

  /** A calendar entry as the events query returns it (missing keys are None). */
  datatype CalendarItem = CalendarItem(summary: Option<string>, start: EventTime, end: EventTime)

  /** A calendar entry with parsed bounds. */
  datatype Existing = Existing(summary: string, start: int, end: int)

  /** `x.get("dateTime") or x.get("date")`. */
  function RawTime(t: EventTime): Option<string>
  {
    if t.dateTime.Some? && t.dateTime.value != "" then t.dateTime else t.date
  }

  /** The normalised entry, or None when it is skipped: a bound missing or
      empty, or one that does not parse. A missing summary reads "(busy)". */
  function NormalizeItem(item: CalendarItem, parseIso: IsoParser): (r: Option<Existing>)
    ensures r.Some? <==>
      && RawTime(item.start).Some? && RawTime(item.start).value != ""
      && RawTime(item.end).Some? && RawTime(item.end).value != ""
      && parseIso(RawTime(item.start).value).Some? && parseIso(RawTime(item.end).value).Some?
    ensures r.Some? ==>
      && Some(r.value.start) == parseIso(RawTime(item.start).value)
      && Some(r.value.end) == parseIso(RawTime(item.end).value)
      && (item.summary.None? ==> r.value.summary == "(busy)")
      && (item.summary.Some? ==> r.value.summary == item.summary.value)
  {
    var s := RawTime(item.start);
    var e := RawTime(item.end);
    if s.None? || s.value == "" || e.None? || e.value == "" then None
    else
      var ps := parseIso(s.value);
      var pe := parseIso(e.value);
      if ps.None? || pe.None? then None
      else Some(Existing(item.summary.GetOr("(busy)"), ps.value, pe.value))
  }

  /** The normalised entries of `items`, in order. */
  function NormalizeAll(items: seq<CalendarItem>, parseIso: IsoParser): seq<Existing>
  {
    if items == [] then []
    else
      NormalizeAll(items[..|items| - 1], parseIso) +
      match NormalizeItem(items[|items| - 1], parseIso)
      case Some(ev) => [ev]
      case None => []
  }

  /** The filtering part of `_existing_events_between`, over the entries the
      calendar query returned. */
  method ExistingEventsBetween(items: seq<CalendarItem>, parseIso: IsoParser) returns (events: seq<Existing>)
    ensures events == NormalizeAll(items, parseIso)
  {
    events := [];
    for m := 0 to |items|
      invariant events == NormalizeAll(items[..m], parseIso)
    {
      assert items[..m + 1][..m] == items[..m];
      var ev := items[m];
      var startRaw := RawTime(ev.start);
      var endRaw := RawTime(ev.end);
      if startRaw.None? || startRaw.value == "" || endRaw.None? || endRaw.value == "" {
        continue;
      }
      var startDt := parseIso(startRaw.value);
      var endDt := parseIso(endRaw.value);
      if startDt.None? || endDt.None? {
        continue;
      }
      events := events + [Existing(ev.summary.GetOr("(busy)"), startDt.value, endDt.value)];
    }
    assert items[..|items|] == items;
  }

  /** Exactly the entries with both bounds present and parseable are kept,
      each normalised (its own summary or "(busy)"), and never more entries
      than the query returned. */
  lemma {:induction false} NormalizeAllMember(items: seq<CalendarItem>, parseIso: IsoParser, ev: Existing)
    ensures |NormalizeAll(items, parseIso)| <= |items|
    ensures ev in NormalizeAll(items, parseIso) <==>
      exists k :: 0 <= k < |items| && NormalizeItem(items[k], parseIso) == Some(ev)
  {
    if items != [] {
      var init := items[..|items| - 1];
      var last := items[|items| - 1];
      NormalizeAllMember(init, parseIso, ev);
      var tail := match NormalizeItem(last, parseIso) case Some(e) => [e] case None => [];
      assert NormalizeAll(items, parseIso) == NormalizeAll(init, parseIso) + tail;
      if ev in NormalizeAll(items, parseIso) {
        if ev in NormalizeAll(init, parseIso) {
          var k :| 0 <= k < |init| && NormalizeItem(init[k], parseIso) == Some(ev);
          assert items[k] == init[k];
        } else {
          assert NormalizeItem(items[|items| - 1], parseIso) == Some(ev);
        }
      }
      if exists k :: 0 <= k < |items| && NormalizeItem(items[k], parseIso) == Some(ev) {
        var k :| 0 <= k < |items| && NormalizeItem(items[k], parseIso) == Some(ev);
        if k < |init| {
          assert init[k] == items[k];
        }
      }
    }
  }

  // ---------------------------------------------------------------------
  // Conflicts between planned occurrences

  predicate PlannedOverlap(a: Planned, b: Planned)
  {
    EventsOverlap(a.start, a.end, b.start, b.end)
  }

  /** The conflict reported for two overlapping planned occurrences. */
  function PairConflict(a: Planned, b: Planned): Conflict
  {
    Conflict(Overlap,
      "Planned '" + a.title + "' overlaps with '" + b.title + "'",
      [a.title, b.title],
      ["Shift one of the events to avoid overlap."])
  }

  /** The overlapping pairs (i, j') with i < j' < j, in order of j'. */
  function RowPairs(p: seq<Planned>, i: nat, j: nat): seq<(nat, nat)>
    requires i < j <= |p|
    decreases j
  {
    if j == i + 1 then []
    else RowPairs(p, i, j - 1) + (if PlannedOverlap(p[i], p[j - 1]) then [(i, j - 1)] else [])
  }

  /** The overlapping pairs whose first index is below `i`, row by row. */
  function PairsBefore(p: seq<Planned>, i: nat): seq<(nat, nat)>
    requires i <= |p|
  {
    if i == 0 then [] else PairsBefore(p, i - 1) + RowPairs(p, i - 1, |p|)
  }

  function OverlapPairs(p: seq<Planned>): seq<(nat, nat)>
  {
    PairsBefore(p, |p|)
  }

  predicate PairsInRange(p: seq<Planned>, pairs: seq<(nat, nat)>)
  {
    forall k :: 0 <= k < |pairs| ==> pairs[k].0 < |p| && pairs[k].1 < |p|
  }

  /** One conflict per listed pair, in list order. */
  function PairConflicts(p: seq<Planned>, pairs: seq<(nat, nat)>): seq<Conflict>
    requires PairsInRange(p, pairs)
  {
    seq(|pairs|, k requires 0 <= k < |pairs| => PairConflict(p[pairs[k].0], p[pairs[k].1]))
  }

  predicate LexLess(a: (nat, nat), b: (nat, nat))
  {
    a.0 < b.0 || (a.0 == b.0 && a.1 < b.1)
  }

  predicate LexIncreasing(s: seq<(nat, nat)>)
  {
    forall a, b :: 0 <= a < b < |s| ==> LexLess(s[a], s[b])
  }

  lemma {:induction false} RowPairsMember(p: seq<Planned>, i: nat, j: nat, x: nat, y: nat)
    requires i < j <= |p|
    ensures (x, y) in RowPairs(p, i, j) <==> x == i && i < y < j && PlannedOverlap(p[x], p[y])
    decreases j
  {
    if j > i + 1 {
      RowPairsMember(p, i, j - 1, x, y);
    }
  }

  lemma MemberOfParts<T>(all: seq<T>, prev: seq<T>, row: seq<T>, x: T, inPrev: bool, inRow: bool)
    requires all == prev + row
    requires x in prev <==> inPrev
    requires x in row <==> inRow
    ensures x in all <==> inPrev || inRow
  {
  }

  /** Row i holds pairs (i, y) with i < y < j, in increasing y. */
  lemma {:induction false} RowPairsShape(p: seq<Planned>, i: nat, j: nat)
    requires i < j <= |p|
    ensures forall k :: 0 <= k < |RowPairs(p, i, j)| ==> RowPairs(p, i, j)[k].0 == i && i < RowPairs(p, i, j)[k].1 < j
    ensures forall a, b :: 0 <= a < b < |RowPairs(p, i, j)| ==> RowPairs(p, i, j)[a].1 < RowPairs(p, i, j)[b].1
    decreases j
  {
    if j > i + 1 {
      RowPairsShape(p, i, j - 1);
    }
  }

  lemma {:induction false} PairsBeforeMember(p: seq<Planned>, n: nat, x: nat, y: nat)
    requires n <= |p|
    ensures (x, y) in PairsBefore(p, n) <==> x < n && x < y < |p| && PlannedOverlap(p[x], p[y])
  {
    if n > 0 {
      PairsBeforeMember(p, n - 1, x, y);
      RowPairsMember(p, n - 1, |p|, x, y);
      var overlapping := x < y < |p| && PlannedOverlap(p[x], p[y]);
      MemberOfParts(PairsBefore(p, n), PairsBefore(p, n - 1), RowPairs(p, n - 1, |p|), (x, y),
        x < n - 1 && overlapping, x == n - 1 && overlapping);
    }
  }

  /** The pairs before row n have first index below n, second index above
      the first and in range, and are in strictly increasing (i, j) order. */
  lemma {:induction false} PairsBeforeShape(p: seq<Planned>, n: nat)
    requires n <= |p|
    ensures forall k :: 0 <= k < |PairsBefore(p, n)| ==>
      PairsBefore(p, n)[k].0 < n && PairsBefore(p, n)[k].0 < PairsBefore(p, n)[k].1 < |p|
    ensures PairsInRange(p, PairsBefore(p, n))
    ensures LexIncreasing(PairsBefore(p, n))
  {
    if n > 0 {
      PairsBeforeShape(p, n - 1);
      RowPairsShape(p, n - 1, |p|);
      var prev := PairsBefore(p, n - 1);
      var row := RowPairs(p, n - 1, |p|);
      var all := prev + row;
      assert PairsBefore(p, n) == all;
      forall k | 0 <= k < |all|
        ensures all[k].0 < n && all[k].0 < all[k].1 < |p|
      {
        if k < |prev| {
          assert all[k] == prev[k];
        } else {
          assert all[k] == row[k - |prev|];
        }
      }
      forall a, b | 0 <= a < b < |all|
        ensures LexLess(all[a], all[b])
      {
        if b < |prev| {
          assert all[a] == prev[a] && all[b] == prev[b];
        } else if a < |prev| {
          assert all[a] == prev[a];
          assert all[b] == row[b - |prev|];
        } else {
          assert all[a] == row[a - |prev|];
          assert all[b] == row[b - |prev|];
        }
      }
    }
  }

  /** The planned-vs-planned pairs: a pair (i, j) is listed exactly when
      i < j and the two occurrences overlap, and the list is strictly
      increasing in (i, j) order, so no pair appears twice. */
  lemma OverlapPairsExact(p: seq<Planned>, i: nat, j: nat)
    ensures (i, j) in OverlapPairs(p) <==> i < j < |p| && PlannedOverlap(p[i], p[j])
    ensures PairsInRange(p, OverlapPairs(p))
    ensures LexIncreasing(OverlapPairs(p))
  {
    PairsBeforeMember(p, |p|, i, j);
    PairsBeforeShape(p, |p|);
  }

  /** Each conflict between planned occurrences is the conflict of an
      overlapping pair i < j, naming the earlier operation first. */
  lemma PairConflictsSound(p: seq<Planned>, k: nat)
    requires PairsInRange(p, OverlapPairs(p))
    requires k < |PairConflicts(p, OverlapPairs(p))|
    ensures var pair := OverlapPairs(p)[k];
      && pair.0 < pair.1 < |p|
      && PlannedOverlap(p[pair.0], p[pair.1])
      && PairConflicts(p, OverlapPairs(p))[k] == PairConflict(p[pair.0], p[pair.1])
  {
    var pair := OverlapPairs(p)[k];
    OverlapPairsExact(p, pair.0, pair.1);
  }

  /** Every overlapping pair i < j of planned occurrences is reported. */
  lemma PairConflictsComplete(p: seq<Planned>, i: nat, j: nat)
    requires i < j < |p| && PlannedOverlap(p[i], p[j])
    requires PairsInRange(p, OverlapPairs(p))
    ensures PairConflict(p[i], p[j]) in PairConflicts(p, OverlapPairs(p))
  {
    var pairs := OverlapPairs(p);
    OverlapPairsExact(p, i, j);
    var k :| 0 <= k < |pairs| && pairs[k] == (i, j);
    assert PairConflicts(p, pairs)[k] == PairConflict(p[i], p[j]);
  }

  lemma RowPairsStep(p: seq<Planned>, i: nat, j: nat)
    requires i < j < |p|
    ensures PairsBefore(p, i) + RowPairs(p, i, j + 1) ==
      PairsBefore(p, i) + RowPairs(p, i, j) + (if PlannedOverlap(p[i], p[j]) then [(i, j)] else [])
  {
    assert RowPairs(p, i, j + 1) == RowPairs(p, i, j) + (if PlannedOverlap(p[i], p[j]) then [(i, j)] else []);
  }

  lemma PairConflictsSnoc(p: seq<Planned>, pairs: seq<(nat, nat)>, x: (nat, nat))
    requires PairsInRange(p, pairs) && x.0 < |p| && x.1 < |p|
    ensures PairsInRange(p, pairs + [x])
    ensures PairConflicts(p, pairs + [x]) == PairConflicts(p, pairs) + [PairConflict(p[x.0], p[x.1])]
  {
    assert forall k :: 0 <= k < |pairs| ==> (pairs + [x])[k] == pairs[k];
  }

  // ---------------------------------------------------------------------
  // Conflicts with existing entries

  /** The conflict reported for a planned occurrence and an existing entry. */
  function ExistingConflict(p: Planned, ev: Existing): Conflict
  {
    Conflict(Overlap,
      "Planned '" + p.title + "' overlaps with '" + ev.summary + "'",
      [p.title, ev.summary],
      ["Adjust the time or reschedule around existing commitments."])
  }

  /** The conflicts of one planned occurrence with the entries `evs`, in order. */
  function RowExisting(p: Planned, evs: seq<Existing>): seq<Conflict>
  {
    if evs == [] then []
    else
      var ev := evs[|evs| - 1];
      RowExisting(p, evs[..|evs| - 1]) +
      (if EventsOverlap(p.start, p.end, ev.start, ev.end) then [ExistingConflict(p, ev)] else [])
  }

  /** The conflicts of the first `n` planned occurrences with the calendar,
      each queried over its own interval. */
  function ExistingConflicts(p: seq<Planned>, n: nat, listEvents: (int, int) -> seq<CalendarItem>, parseIso: IsoParser): seq<Conflict>
    requires n <= |p|
  {
    if n == 0 then []
    else
      ExistingConflicts(p, n - 1, listEvents, parseIso) +
      RowExisting(p[n - 1], NormalizeAll(listEvents(p[n - 1].start, p[n - 1].end), parseIso))
  }

  /** A conflict with the calendar is reported exactly for each entry that
      overlaps the planned occurrence, and every such conflict has type overlap. */
  lemma {:induction false} RowExistingExact(p: Planned, evs: seq<Existing>, c: Conflict)
    ensures c in RowExisting(p, evs) <==>
      exists ev :: ev in evs && EventsOverlap(p.start, p.end, ev.start, ev.end) && c == ExistingConflict(p, ev)
    ensures forall d :: d in RowExisting(p, evs) ==> d.kind == Overlap
  {
    if evs != [] {
      var init := evs[..|evs| - 1];
      RowExistingExact(p, init, c);
      assert evs == init + [evs[|evs| - 1]];
    }
  }

  lemma {:induction false} ExistingConflictsOverlap(p: seq<Planned>, n: nat, listEvents: (int, int) -> seq<CalendarItem>, parseIso: IsoParser)
    requires n <= |p|
    ensures forall c :: c in ExistingConflicts(p, n, listEvents, parseIso) ==> c.kind == Overlap
  {
    if n > 0 {
      ExistingConflictsOverlap(p, n - 1, listEvents, parseIso);
      RowExistingExact(p[n - 1], NormalizeAll(listEvents(p[n - 1].start, p[n - 1].end), parseIso),
        Conflict(Overlap, "", [], []));
    }
  }

  // ---------------------------------------------------------------------
  // The report

  /** What `run_conflict_agent` returns: the planned-vs-planned conflicts in
      pair order, then the planned-vs-calendar ones; None when expanding the
      plan raises. */
  function ReportSpec(plan: MutationPlan, semester: SemesterWindow, parseIso: IsoParser,
                      listEvents: (int, int) -> seq<CalendarItem>): Option<ConflictReport>
  {
    match PlannedSpec(plan, semester, parseIso)
    case None => None
    case Some(p) =>
      PairsBeforeShape(p, |p|);
      var cs := PairConflicts(p, OverlapPairs(p)) + ExistingConflicts(p, |p|, listEvents, parseIso);
      Some(ConflictReport(cs, |cs| > 0))
  }

  /** The inner loop of step 1 of `run_conflict_agent`: occurrence i against
      every later one, appending a conflict for each overlap. */
  method RowConflicts(p: seq<Planned>, i: nat, prefix: seq<Conflict>) returns (conflicts: seq<Conflict>)
    requires i < |p|
    requires PairsInRange(p, PairsBefore(p, i))
    requires prefix == PairConflicts(p, PairsBefore(p, i))
    ensures PairsInRange(p, PairsBefore(p, i + 1))
    ensures conflicts == PairConflicts(p, PairsBefore(p, i + 1))
  {
    conflicts := prefix;
    RowPrefixEnds(p, i);
    for j := i + 1 to |p|
      invariant RowScanned(p, i, j, conflicts)
    {
      var a := p[i];
      var b := p[j];
      RowConflictsStep(p, i, j, conflicts);
      if EventsOverlap(a.start, a.end, b.start, b.end) {
        conflicts := conflicts + [PairConflict(a, b)];
      }
    }
  }

  /** The pairs found once row i has been scanned up to (not including) j. */
  function RowPrefix(p: seq<Planned>, i: nat, j: nat): seq<(nat, nat)>
    requires i < j <= |p|
  {
    PairsBefore(p, i) + RowPairs(p, i, j)
  }

  /** The inner loop's invariant: `conflicts` holds one conflict per pair
      found so far. */
  predicate RowScanned(p: seq<Planned>, i: nat, j: nat, conflicts: seq<Conflict>)
    requires i < j <= |p|
  {
    PairsInRange(p, RowPrefix(p, i, j)) && conflicts == PairConflicts(p, RowPrefix(p, i, j))
  }

  /** Row i starts from the earlier rows and ends as the next prefix of rows. */
  lemma RowPrefixEnds(p: seq<Planned>, i: nat)
    requires i < |p|
    ensures RowPrefix(p, i, i + 1) == PairsBefore(p, i)
    ensures RowPrefix(p, i, |p|) == PairsBefore(p, i + 1)
  {
    assert PairsBefore(p, i) + [] == PairsBefore(p, i);
  }

  /** One pass of the inner loop: the pair (i, j) adds its conflict exactly
      when the two occurrences overlap. */
  lemma RowConflictsStep(p: seq<Planned>, i: nat, j: nat, conflicts: seq<Conflict>)
    requires i < j < |p|
    requires RowScanned(p, i, j, conflicts)
    ensures PlannedOverlap(p[i], p[j]) ==> RowScanned(p, i, j + 1, conflicts + [PairConflict(p[i], p[j])])
    ensures !PlannedOverlap(p[i], p[j]) ==> RowScanned(p, i, j + 1, conflicts)
  {
    RowPairsStep(p, i, j);
    if PlannedOverlap(p[i], p[j]) {
      PairConflictsSnoc(p, PairsBefore(p, i) + RowPairs(p, i, j), (i, j));
    } else {
      assert PairsBefore(p, i) + RowPairs(p, i, j) + [] == PairsBefore(p, i) + RowPairs(p, i, j);
    }
  }

  /** Step 1 of `run_conflict_agent`: every pair i < j of planned
      occurrences, in (i, j) order, yields a conflict when they overlap. */
  method PlannedPairConflicts(p: seq<Planned>) returns (conflicts: seq<Conflict>)
    ensures PairsInRange(p, OverlapPairs(p))
    ensures conflicts == PairConflicts(p, OverlapPairs(p))
  {
    conflicts := [];
    for i := 0 to |p|
      invariant PairsInRange(p, PairsBefore(p, i))
      invariant conflicts == PairConflicts(p, PairsBefore(p, i))
    {
      conflicts := RowConflicts(p, i, conflicts);
    }
  }

  /** The inner loop of step 2: one planned occurrence against the entries
      of its calendar query, appending a conflict for each overlap. */
  method RowCalendarConflicts(o: Planned, existing: seq<Existing>, prefix: seq<Conflict>)
    returns (conflicts: seq<Conflict>)
    ensures conflicts == prefix + RowExisting(o, existing)
  {
    conflicts := prefix;
    for m := 0 to |existing|
      invariant conflicts == prefix + RowExisting(o, existing[..m])
    {
      var ev := existing[m];
      RowExistingStep(o, existing, m, prefix);
      if EventsOverlap(o.start, o.end, ev.start, ev.end) {
        conflicts := conflicts + [ExistingConflict(o, ev)];
      }
    }
    assert existing[..|existing|] == existing;
  }

  /** One pass of the calendar loop: entry m adds its conflict exactly when
      it overlaps the planned occurrence. */
  lemma RowExistingStep(o: Planned, existing: seq<Existing>, m: nat, prefix: seq<Conflict>)
    requires m < |existing|
    ensures EventsOverlap(o.start, o.end, existing[m].start, existing[m].end) ==>
      prefix + RowExisting(o, existing[..m + 1]) == prefix + RowExisting(o, existing[..m]) + [ExistingConflict(o, existing[m])]
    ensures !EventsOverlap(o.start, o.end, existing[m].start, existing[m].end) ==>
      prefix + RowExisting(o, existing[..m + 1]) == prefix + RowExisting(o, existing[..m])
  {
    assert existing[..m + 1][..m] == existing[..m];
    if !EventsOverlap(o.start, o.end, existing[m].start, existing[m].end) {
      assert RowExisting(o, existing[..m]) + [] == RowExisting(o, existing[..m]);
    }
  }

  /** Step 2 of `run_conflict_agent`: each planned occurrence is compared
      with the calendar entries of a query over its own interval. */
  method CalendarConflicts(p: seq<Planned>, listEvents: (int, int) -> seq<CalendarItem>, parseIso: IsoParser)
    returns (conflicts: seq<Conflict>)
    ensures conflicts == ExistingConflicts(p, |p|, listEvents, parseIso)
  {
    conflicts := [];
    for q := 0 to |p|
      invariant conflicts == ExistingConflicts(p, q, listEvents, parseIso)
    {
      var existing := ExistingEventsBetween(listEvents(p[q].start, p[q].end), parseIso);
      conflicts := RowCalendarConflicts(p[q], existing, conflicts);
    }
  }

  /** `run_conflict_agent`: the report lists the planned-vs-planned conflicts
      then the planned-vs-calendar ones, is blocking exactly when it lists
      any, and every conflict it lists has type overlap. */
  method RunConflictAgent(plan: MutationPlan, semester: SemesterWindow, parseIso: IsoParser,
                          listEvents: (int, int) -> seq<CalendarItem>)
    returns (report: Option<ConflictReport>)
    ensures report == ReportSpec(plan, semester, parseIso, listEvents)
    ensures report.Some? ==> (report.value.blocking <==> |report.value.conflicts| > 0)
    ensures report.Some? ==> forall c :: c in report.value.conflicts ==> c.kind == Overlap
    ensures report.Some? ==> forall c :: c in report.value.conflicts ==> ConflictTypeValue(c.kind) == "overlap"
  {
    var planned := PlannedOccurrences(plan, semester, parseIso);
    if planned.None? {
      return None;
    }
    var p := planned.value;
    var pairConflicts := PlannedPairConflicts(p);
    var calendarConflicts := CalendarConflicts(p, listEvents, parseIso);
    var conflicts := pairConflicts + calendarConflicts;
    report := Some(ConflictReport(conflicts, |conflicts| > 0));
    assert forall c :: c in pairConflicts ==> c.kind == Overlap;
    ExistingConflictsOverlap(p, |p|, listEvents, parseIso);
  }
}
