# scheduling-agent: the deterministic core, in Dafny

The scheduling agent turns a course timetable into Google Calendar entries.
Its pipeline runs plan, then conflict check, then negotiation. Most stages
hand their work to a language model. This project models the parts that are
plain code, and proves what they promise:

- **Data model** (`models.dfy`, module `Models`). These are the pydantic
  records: days of the week, schedule events, the semester window, the three
  kinds of plan operation, plans, conflicts and conflict reports. It also
  holds the three negotiation records (`AlternativeSlot`, `ResolutionOption`,
  `NegotiationOutcome`). The repository imports those three but never
  defines them, so they are rebuilt from the fields the negotiation agent
  reads and writes.
- **Conflict detector** (`conflict_agent.dfy`, module `ConflictAgent`).
  - It parses `HH:MM` times and finds the first day of the semester with an
    event's weekday.
  - It expands each `create_recurring` operation into its first occurrence,
    keeping the operation's index.
  - It reports one `overlap` conflict for every overlapping pair `i < j`, in
    `(i, j)` order.
  - It then reports one for every calendar entry that overlaps a planned
    occurrence. The report is blocking exactly when it lists something.
- **Negotiation helpers** (`negotiation_agent.dfy`, module `NegotiationAgent`).
  - The next occurrence of an event.
  - The candidate grid: ±N days × a 12-hour window at a fixed step.
  - The free-slot filter, with its scoring and stable best-first sort.
  - Applying resolutions to a plan.
- **Chat-history formatter** (`calendar_agent.dfy`, module `CalendarAgent`).
  It turns earlier turns into the prompt text of the calendar assistant.

Two modules support the others:

- `text.dfy` (`Text`) holds the Python string operations the code relies on:
  `split`, `join`, `int()`, `%02d`, `lower`, `capitalize`.
- `clock.dfy` (`Clock`) holds wall-clock arithmetic.

### How time is modelled

An instant is an integer number of minutes on the semester's local wall
clock. Its day is `t / 1440`, and day 0 is a Monday, so `day % 7` is
Python's `weekday()`. `datetime.fromisoformat` is a parameter of type
`IsoParser`: a partial function where None means "raised". "Now" is a
parameter too. The calendar is also given as parameters:

- the events query, as a function from a planned interval to the entries it
  returns;
- the free/busy answer, as a list of busy blocks.

An exception that propagates out of a Python function becomes `None` in the
model. The loops of the source are methods. Each method is proved equal to a
recursive specification function, and the promised properties are lemmas
about those functions.

### One behaviour worth knowing

`_next_occurrence` looks up `str(event.day_of_week)` in a map keyed
`"mon"`..`"sun"`. For a `(str, Enum)` member that text is
`"DayOfWeek.wed"`, so the lookup always falls back to 0. The next occurrence
is therefore always the coming Monday, or today if today is a Monday. The
model keeps this behaviour (`EnumText`), and `NextOccurrenceIsMonday` states
it.

## Model

| member | source | states |
|---|---|---|
| Models.SevenDays | models.py:6-13 | Numbering the days 0..6 is a bijection, and the seven enum values are seven distinct strings. |
| Models.NewScheduleEvent | models.py:15-26 | An event built from its required fields has recurrence weekly, source manual, and no location, notes or source hint. |
| Models.NewSemesterWindow | models.py:28-31 | A semester window defaults to the Europe/Brussels time zone. |
| Models.OpTag | models.py:34-48 | An operation's tag is "create_recurring", "update" or "delete" exactly when it is of that kind. |
| Models.NewMutationPlan | models.py:50-53 | A plan requires confirmation unless told otherwise. |
| Models.NewConflict | models.py:56-60 | A conflict's affected list and suggestions default to empty. |
| Models.ConflictTypeOf | models.py:57 | A `type` text is accepted exactly when it is one of the four literals, and then as the kind whose text it is. |
| Models.ConflictTypeRoundTrip | models.py:57 | Each kind's text is accepted as that kind, and no two kinds share a text. |
| Models.NewConflictReport | models.py:62-64 | A report's blocking flag defaults to true. |
| Text.SplitJoin | app_agents/calendar_agent.py:104 | Splitting a newline-join of newline-free lines gives the lines back. |
| Text.JoinSplit | app_agents/conflict_agent.py:15 | Joining the pieces of a split with the same separator gives the text back. |
| Text.TwoDigitsParse | app_agents/negotiation_agent.py:165-166 | `int()` reads a `%02d` two-digit field back as its number. |
| Text.Capitalize | app_agents/calendar_agent.py:101 | `capitalize()` keeps the length, upper-cases the first character and lower-cases the rest. |
| Clock.AtParts | app_agents/conflict_agent.py:46-47 | Placing hour:minute on a day is undone by taking the day, hour and minute of the result. |
| Clock.DowMapGet | app_agents/conflict_agent.py:21-22 | The lookup gives 0..6: a day's value maps to its weekday, and any other key maps to 0. |
| ConflictAgent.ParseClockText | app_agents/conflict_agent.py:14-16 | `_parse_time_hhmm` of the `%H:%M` text of an instant returns that instant's hour and minute. |
| ConflictAgent.ParseTimeHHMM | app_agents/conflict_agent.py:14-16 | A text parses only when it holds exactly one ':'. A text without ':' gives None, which stands for the ValueError the unpacking raises. |
| ConflictAgent.ParseTimeHHMMPieces | app_agents/conflict_agent.py:14-16 | For text `h:m` with no other ':', the result is (int(h), int(m)) when `int()` accepts both sides, and None otherwise. Hour and minute are not range-checked here. |
| ConflictAgent.FirstOnWeekday | app_agents/conflict_agent.py:23-25 | The day found is 0 to 6 days after the start and has the target weekday. |
| ConflictAgent.FirstOnWeekdayEarliest | app_agents/conflict_agent.py:23-25 | No earlier day from the start onward has the target weekday. |
| ConflictAgent.FirstOccurrenceDate | app_agents/conflict_agent.py:19-25 | The first-occurrence day is 0 to 6 days after the start. Its weekday is the lowered name's map entry, and 0 for an unknown name. |
| ConflictAgent.FirstOccurrenceOfDay | app_agents/conflict_agent.py:19-25 | For every enum value, the first-occurrence day is the first day with that value's weekday. |
| ConflictAgent.EventsOverlap | app_agents/conflict_agent.py:28-29 | Two intervals overlap exactly when both are non-empty and each starts before the other ends. |
| ConflictAgent.OverlapProperties | app_agents/conflict_agent.py:28-29 | Overlap is symmetric. Touching endpoints never overlap, and neither does an interval whose start ≥ end. |
| ConflictAgent.OccurrenceShape | app_agents/conflict_agent.py:43-56 | An occurrence exists exactly when both times parse and are valid. It keeps the operation's index, title and event. Start and end fall on one day, 0 to 6 days after the semester start and on the event's weekday, at the parsed hours and minutes. |
| ConflictAgent.OpOccurrence | app_agents/conflict_agent.py:37-42 | An operation contributes at most one occurrence, only when it is create_recurring, and the occurrence carries that operation's index and event. |
| ConflictAgent.OccurrencesDefinedExact | app_agents/conflict_agent.py:37-47 | Expansion raises exactly when some create_recurring operation has a time that does not parse or is out of range. |
| ConflictAgent.PlannedOccurrences | app_agents/conflict_agent.py:32-57 | The loop returns the occurrences of all operations in plan order. It returns None when the semester start or any event time raises. |
| ConflictAgent.PlannedIndexed | app_agents/conflict_agent.py:37-56 | The planned list is in plan order. Original indices strictly increase and are never renumbered, and each entry comes from a create_recurring operation with that index. |
| ConflictAgent.PlannedAreOccurrences | app_agents/conflict_agent.py:37-56 | Every planned entry is the occurrence of its own operation. |
| ConflictAgent.PlannedComplete | app_agents/conflict_agent.py:37-56 | Every create_recurring operation with a valid occurrence appears in the planned list. |
| ConflictAgent.NormalizeItem | app_agents/conflict_agent.py:84-99 | An entry is kept exactly when both bounds are present, non-empty and parseable. It carries the parsed bounds and its own summary, or "(busy)" when it has none. |
| ConflictAgent.ExistingEventsBetween | app_agents/conflict_agent.py:82-100 | The filtering loop returns the normalised entries in query order. |
| ConflictAgent.NormalizeAllMember | app_agents/conflict_agent.py:82-100 | Exactly the normalisable entries are returned, and never more entries than the query gave. |
| ConflictAgent.RowPairsMember | app_agents/conflict_agent.py:118-121 | Row i lists (i, y) exactly for the later y < j whose interval overlaps i's. |
| ConflictAgent.PairsBeforeMember | app_agents/conflict_agent.py:117-121 | The first n rows list (x, y) exactly when x < n, x < y, and the two overlap. |
| ConflictAgent.PairsBeforeShape | app_agents/conflict_agent.py:117-121 | The listed pairs are in range and strictly increase in lexicographic (i, j) order. |
| ConflictAgent.OverlapPairsExact | app_agents/conflict_agent.py:117-121 | (i, j) is listed exactly when i < j and the two overlap. The list is lexicographically increasing, so nothing is repeated or merged. |
| ConflictAgent.PairConflictsSound | app_agents/conflict_agent.py:117-129 | The k-th planned conflict belongs to the k-th overlapping pair i < j, with that pair's summary, affected titles and suggestion. |
| ConflictAgent.PairConflictsComplete | app_agents/conflict_agent.py:117-129 | Every overlapping pair i < j has its conflict in the list. |
| ConflictAgent.RowConflicts | app_agents/conflict_agent.py:118-129 | The inner j-loop extends the conflicts of rows 0..i-1 to those of rows 0..i. |
| ConflictAgent.RowConflictsStep | app_agents/conflict_agent.py:119-129 | One pass appends the conflict of (i, j) exactly when they overlap. |
| ConflictAgent.PlannedPairConflicts | app_agents/conflict_agent.py:116-129 | The nested loop yields one conflict per overlapping pair, in (i, j) order. |
| ConflictAgent.RowExistingExact | app_agents/conflict_agent.py:136-145 | A calendar conflict of an occurrence exists exactly for each overlapping entry, and it has type overlap. |
| ConflictAgent.RowCalendarConflicts | app_agents/conflict_agent.py:136-145 | The inner calendar loop appends the occurrence's calendar conflicts in entry order. |
| ConflictAgent.RowExistingStep | app_agents/conflict_agent.py:136-145 | One pass appends the entry's conflict exactly when it overlaps. |
| ConflictAgent.ExistingConflictsOverlap | app_agents/conflict_agent.py:131-145 | Every calendar conflict has type overlap. |
| ConflictAgent.CalendarConflicts | app_agents/conflict_agent.py:131-145 | Step 2 queries each occurrence's own interval and returns the calendar conflicts occurrence by occurrence. |
| ConflictAgent.RunConflictAgent | app_agents/conflict_agent.py:103-147 | The report lists the pair conflicts, then the calendar conflicts. It is blocking exactly when non-empty. Every conflict has type overlap, whose text is "overlap". It is None when expansion raises. |
| NegotiationAgent.NextOccurrence | app_agents/negotiation_agent.py:59-64 | The result is a midnight 0 to 6 days from today, on the weekday the lookup of `str(day_of_week)` gives. |
| NegotiationAgent.NextOccurrenceIsMonday | app_agents/negotiation_agent.py:60-63 | The lookup key never matches, so the next occurrence is always the first Monday from today. |
| NegotiationAgent.BaseIntervalTimes | app_agents/negotiation_agent.py:68-72 | The base start and end lie on the base day at the event's own parsed HH:MM times. |
| NegotiationAgent.IntervalOnTimes | app_agents/negotiation_agent.py:71-72 | Two valid clock times placed on a day stay on that day and read back as the same times. |
| NegotiationAgent.ClockOnDay | app_agents/negotiation_agent.py:71-72 | `replace(hour, minute)` on a midnight stays on that day and reads back as hour:minute. |
| NegotiationAgent.CandidateSlots | app_agents/negotiation_agent.py:67-83 | The candidates are the grid around the base interval. The result is None when a time does not parse or is out of range, and None when a step of 0 makes `range` raise. |
| NegotiationAgent.DefaultCandidateCount | app_agents/negotiation_agent.py:67-83 | With the default arguments (7 days, 30-minute steps), a grid exists exactly when the base interval reads, and it then has 15 · 24 = 360 candidates. |
| NegotiationAgent.GridAround | app_agents/negotiation_agent.py:73-83 | After the base interval is read, the method returns the grid with the event's duration. |
| NegotiationAgent.GridSlots | app_agents/negotiation_agent.py:75-83 | The day loop returns the rows of days -N..N in order. It is None exactly when it runs with step 0. |
| NegotiationAgent.AppendDaySlots | app_agents/negotiation_agent.py:79-82 | The step loop appends one day's row of slots. |
| NegotiationAgent.RowFromShape | app_agents/negotiation_agent.py:79-81 | Slot k of a row starts k·step minutes into the day and lasts `duration`. k·step < 720 holds for every slot, and the next step would reach 720. |
| NegotiationAgent.DayRowShape | app_agents/negotiation_agent.py:79-81 | Every day has the same number K of slots, and slot k starts at day + k·step. |
| NegotiationAgent.WindowStepsCeil | app_agents/negotiation_agent.py:79 | K is the smallest count with K·step ≥ 720, that is, K = ceil(720 / step). |
| NegotiationAgent.DaysFromLength | app_agents/negotiation_agent.py:76-82 | Days d..last give (last + 1 − d)·K slots. |
| NegotiationAgent.DaysFromIndex | app_agents/negotiation_agent.py:76-82 | The grid is day-major: position j·K + k holds slot k of day d + j. |
| NegotiationAgent.DaysFromDuration | app_agents/negotiation_agent.py:73-81 | Every candidate lasts exactly the original event's duration. |
| NegotiationAgent.RowFromIncreasing | app_agents/negotiation_agent.py:79-80 | Within a day, starts strictly increase and stay inside that day. |
| NegotiationAgent.DaysFromIncreasing | app_agents/negotiation_agent.py:76-82 | Across days, starts strictly increase, because each 12-hour window ends before the next day begins. |
| NegotiationAgent.CandidateGrid | app_agents/negotiation_agent.py:75-83 | For N ≥ 0 and step > 0 there are (2N + 1)·ceil(720/step) candidates. Each lasts `duration`, and starts strictly increase. |
| NegotiationAgent.CandidateGridSlot | app_agents/negotiation_agent.py:76-82 | The candidate at (dd + N)·K + k starts at base + dd days + k·step minutes, for dd in [−N, N]. |
| NegotiationAgent.IsFree | app_agents/negotiation_agent.py:95-101 | The early-exit loop returns the free/busy verdict, or None when a block's bound is missing or does not parse. |
| NegotiationAgent.FreeSpecExact | app_agents/negotiation_agent.py:95-101 | A slot is free exactly when every busy block is readable and none overlaps it (half-open test). A busy verdict names an overlapping block. |
| NegotiationAgent.Score | app_agents/negotiation_agent.py:106-111 | The score is never positive, and it is 0 exactly at the first candidate's start. |
| NegotiationAgent.FilterFreeSlots | app_agents/negotiation_agent.py:86-114 | The filter returns [] for no candidates. Otherwise it returns the free candidates, scored and sorted, or None when a busy check raises. |
| NegotiationAgent.FreeFromNoneStays | app_agents/negotiation_agent.py:104-105 | Once a busy check raises, the whole filter raises. |
| NegotiationAgent.FreeFromExact | app_agents/negotiation_agent.py:103-113 | The filter succeeds exactly when every busy check does. A slot is then kept exactly when its candidate is free, scored −60·\|start − first start\| seconds. |
| NegotiationAgent.InsertByScore | app_agents/negotiation_agent.py:114 | Inserting adds exactly one element and keeps the multiset. |
| NegotiationAgent.SortByScoreDesc | app_agents/negotiation_agent.py:114 | Sorting is a permutation. |
| NegotiationAgent.InsertByScoreSorted | app_agents/negotiation_agent.py:114 | Inserting into a best-first list keeps it best-first. |
| NegotiationAgent.InsertByScoreStable | app_agents/negotiation_agent.py:114 | Inserting places the new slot after every slot of equal score already present. |
| NegotiationAgent.HeadIsBest | app_agents/negotiation_agent.py:114 | The head of a best-first list has the highest score. |
| NegotiationAgent.SortByScoreDescProps | app_agents/negotiation_agent.py:114 | The sort yields descending scores and a permutation of its input, and it is stable: slots of any one score keep their input order. |
| NegotiationAgent.FilterSpecProps | app_agents/negotiation_agent.py:103-114 | The filter's output is best-first, a permutation of the free slots, and stable. |
| NegotiationAgent.Retimed | app_agents/negotiation_agent.py:162-166 | A resolution changes only start_time and end_time, and both change together. Each new time parses back as the hour and minute of the suggested timestamp. |
| NegotiationAgent.ApplyResolutions | app_agents/negotiation_agent.py:143-176 | The loop applies each applicable resolution and skips the rest. The operation count, every operation's kind and other fields, the preview and the confirmation flag are unchanged, and nothing is reported unresolved. |
| NegotiationAgent.ApplicableStable | app_agents/negotiation_agent.py:153-164 | Whether a resolution applies does not depend on the rewrites before it. |
| NegotiationAgent.LastFor | app_agents/negotiation_agent.py:152-167 | The last resolution found for an index is one of the resolutions, it applies, and it targets that index. |
| NegotiationAgent.ApplyAllLastWins | app_agents/negotiation_agent.py:152-167 | Operation k ends with the times of the last applicable resolution aimed at it, or is untouched when there is none. |
| NegotiationAgent.AppliedOfExact | app_agents/negotiation_agent.py:152-169 | A resolution is reported applied exactly when it is given and applicable. Never more are reported than were given. |
| NegotiationAgent.AppliedOfAppend | app_agents/negotiation_agent.py:151-169 | The applied list is an order-preserving filter: it distributes over concatenation of the resolutions. |
| CalendarAgent.TurnLine | app_agents/calendar_agent.py:98-101 | A turn's line is its capitalised role (default "user"), then ": ", then its content (default ""). A missing role starts the line with "User: ". |
| CalendarAgent.TurnLines | app_agents/calendar_agent.py:98-101 | There is one line per turn, in history order. |
| CalendarAgent.HistoryLines | app_agents/calendar_agent.py:97-103 | There are \|history\| + 3 lines: the header, the turns in order, "User: " + message, and the closing instruction. |
| CalendarAgent.FormatSpec | app_agents/calendar_agent.py:95-96 | An empty history returns the message unchanged. |
| CalendarAgent.FormatWithHistory | app_agents/calendar_agent.py:90-104 | The loop builds exactly the lines above and joins them with newlines. |
| CalendarAgent.AskInput | app_agents/calendar_agent.py:111 | A missing history is formatted as an empty one. |
| CalendarAgent.LinesWithoutNewlines | app_agents/calendar_agent.py:97-103 | No prompt line holds a newline when no role, content or message does. |
| CalendarAgent.FormatLinesRoundTrip | app_agents/calendar_agent.py:104 | Splitting the prompt at newlines gives back exactly its lines. |

## Left out

- Language-model agents, `Runner` calls, tool wrappers and their JSON glue are not part of this model. They have no deterministic behaviour to state.
- Environment and client set-up (`_require_env`, `_resolve_api_version`, the OpenAI client) is left out as process I/O.
- Calendar and network access is left out:
  - the OAuth client, `events().list` and `freebusy_query` become parameters (`listEvents`, `busy`);
  - the ISO text of each query's `timeMin`/`timeMax` is not modelled, and the events query is indexed by the planned interval itself;
  - the `maxResults=50` cap of the events query is the parameter's business.
- `datetime` machinery is left out:
  - time zones, DST and `_ensure_dt`/`_ensure_tz` are identity on local minutes;
  - seconds and microseconds are not modelled;
  - `fromisoformat` is an abstract partial parser;
  - `datetime.now` is the `now` parameter;
  - `isoformat()` rendering of slot times is not modelled, so slots carry instants.
- Pydantic validation and JSON (de)serialisation are left out. The plan and resolutions arrive already parsed, and an update's `patch` is a map from text keys to text values.
- `Text.ParseInt`: `int()` is modelled for ASCII whitespace, an optional sign and ASCII digits. Underscores between digits and non-ASCII digits are not accepted, although Python accepts them.
- `Text.Capitalize`: `lower()`/`capitalize()` map ASCII letters only. Python's full Unicode case mapping, including length-changing cases, is not modelled.
- `NegotiationAgent.ApplyResolutions`: the source rewrites the event object inside the parsed plan copy in place. The model writes a new operation into the list, which is the same observable result for a freshly parsed plan. It does not capture aliasing between operations sharing one event object, which cannot arise from JSON.
- `NegotiationAgent.Score`: the score is an integer number of seconds (minutes × 60). The float type and the sort key's `score or 0` are not modelled; the two agree because 0 and −0.0 sort alike.
- `NegotiationAgent.FilterFreeSlots`: the `time_min`/`time_max` bounds of the free/busy query are not computed. The busy list is given for whatever span the caller queried.
- `CalendarAgent.TurnLine`: turn values are text. A non-text `role` or `content` in the history dicts is not modelled.
- `ConflictAgent.PlannedOccurrences`: the `not event` guard is dropped because a create_recurring operation always carries an event (a required pydantic field).
- `NegotiationAgent.ApplyResolutions`: the `not ev` guard is dropped for the same reason.
