/** The records the plan -> conflict -> negotiation pipeline passes between
    its stages (models.py), plus the three negotiation records the
    negotiation agent uses (AlternativeSlot, ResolutionOption,
    NegotiationOutcome). Python's closed `Literal[...]` fields and enums
    become datatypes; the `Union` of operations becomes one datatype with a
    constructor per kind. */
module Models {
  import opened Wrappers

  // ---------------------------------------------------------------------
  // Days of the week

  datatype DayOfWeek = Mon | Tue | Wed | Thu | Fri | Sat | Sun

  /** The enum member's value, "mon" .. "sun". */
  function DayValue(d: DayOfWeek): string
  {
    match d
    case Mon => "mon" case Tue => "tue" case Wed => "wed" case Thu => "thu"
    case Fri => "fri" case Sat => "sat" case Sun => "sun"
  }

  /** Python's `date.weekday()` numbering: Monday is 0, Sunday is 6. */
  function DayIndex(d: DayOfWeek): (i: int)
    ensures 0 <= i < 7
  {
    match d
    case Mon => 0 case Tue => 1 case Wed => 2 case Thu => 3
    case Fri => 4 case Sat => 5 case Sun => 6
  }

  function DayFromIndex(i: int): (d: DayOfWeek)
    requires 0 <= i < 7
    ensures DayIndex(d) == i
  {
    if i == 0 then Mon else if i == 1 then Tue else if i == 2 then Wed
    else if i == 3 then Thu else if i == 4 then Fri else if i == 5 then Sat
    else Sun
  }

  /** There are exactly seven days: numbering them is a bijection onto 0..6,
      and their values are seven distinct strings. */
  lemma SevenDays(d: DayOfWeek, e: DayOfWeek)
    ensures DayFromIndex(DayIndex(d)) == d
    ensures DayIndex(d) == DayIndex(e) <==> d == e
    ensures DayValue(d) == DayValue(e) <==> d == e
  {
  }

  // ---------------------------------------------------------------------
  // Schedule events and the semester

  datatype Recurrence = Weekly | Once | UnknownRecurrence

  datatype SourceKind = Pdf | Image | Manual

  /** One class meeting as extracted from a document; times are "HH:MM" text. */
  datatype ScheduleEvent = ScheduleEvent(
    title: string,
    dayOfWeek: DayOfWeek,
    startTime: string,
    endTime: string,
    location: Option<string>,
    recurrence: Recurrence,
    notes: Option<string>,
    source: SourceKind,
    sourceHint: Option<string>)

  /** A ScheduleEvent built from its required fields only: the optional ones
      take their declared defaults. */
  function NewScheduleEvent(title: string, day: DayOfWeek, startTime: string, endTime: string): (e: ScheduleEvent)
    ensures e.title == title && e.dayOfWeek == day
    ensures e.startTime == startTime && e.endTime == endTime
    ensures e.recurrence == Weekly && e.source == Manual
    ensures e.location == None && e.notes == None && e.sourceHint == None
  {
    ScheduleEvent(title, day, startTime, endTime, None, Weekly, None, Manual, None)
  }

  /** Semester bounds as "YYYY-MM-DD" text and an IANA zone name. */
  datatype SemesterWindow = SemesterWindow(semesterStart: string, semesterEnd: string, timezone: string)

  function NewSemesterWindow(semesterStart: string, semesterEnd: string): (w: SemesterWindow)
    ensures w.semesterStart == semesterStart && w.semesterEnd == semesterEnd
    ensures w.timezone == "Europe/Brussels"
  {
    SemesterWindow(semesterStart, semesterEnd, "Europe/Brussels")
  }

  // ---------------------------------------------------------------------
  // Plans

  /** The closed union of plan operations. The `patch` of an update is a
      JSON object; only its keys and text values are kept here. */
  datatype MutationOp =
    | CreateRecurring(event: ScheduleEvent, rrule: string)
    | Update(googleEventId: string, patch: map<string, string>)
    | Delete(googleEventId: string)

  /** The fixed `op` tag each kind carries. */
  function OpTag(op: MutationOp): (tag: string)
    ensures tag == "create_recurring" <==> op.CreateRecurring?
    ensures tag == "update" <==> op.Update?
    ensures tag == "delete" <==> op.Delete?
  {
    match op
    case CreateRecurring(_, _) => "create_recurring"
    case Update(_, _) => "update"
    case Delete(_) => "delete"
  }

  /** Operations are addressed by their position in `operations`. */
  datatype MutationPlan = MutationPlan(operations: seq<MutationOp>, preview: string, requiresConfirmation: bool)

  function NewMutationPlan(operations: seq<MutationOp>, preview: string): (p: MutationPlan)
    ensures p.operations == operations && p.preview == preview
    ensures p.requiresConfirmation
  {
    MutationPlan(operations, preview, true)
  }

  // ---------------------------------------------------------------------
  // Conflicts

  datatype ConflictType = Overlap | Duplicate | OutsideSemester | Ambiguous

  function ConflictTypeValue(t: ConflictType): string
  {
    match t
    case Overlap => "overlap"
    case Duplicate => "duplicate"
    case OutsideSemester => "outside_semester"
    case Ambiguous => "ambiguous"
  }

  /** Validation of the `type` literal: one of the four texts, or rejected. */
  function ConflictTypeOf(text: string): (t: Option<ConflictType>)
    ensures t.Some? ==> ConflictTypeValue(t.value) == text
    ensures t.None? ==> forall k :: ConflictTypeValue(k) != text
  {
    if text == "overlap" then Some(Overlap)
    else if text == "duplicate" then Some(Duplicate)
    else if text == "outside_semester" then Some(OutsideSemester)
    else if text == "ambiguous" then Some(Ambiguous)
    else None
  }

  /** Each kind's text is accepted as that kind and no other. */
  lemma ConflictTypeRoundTrip(k: ConflictType, j: ConflictType)
    ensures ConflictTypeOf(ConflictTypeValue(k)) == Some(k)
    ensures ConflictTypeValue(k) == ConflictTypeValue(j) <==> k == j
  {
  }

  datatype Conflict = Conflict(kind: ConflictType, summary: string, affected: seq<string>, suggestions: seq<string>)

  function NewConflict(kind: ConflictType, summary: string): (c: Conflict)
    ensures c.kind == kind && c.summary == summary
    ensures c.affected == [] && c.suggestions == []
  {
    Conflict(kind, summary, [], [])
  }

  datatype ConflictReport = ConflictReport(conflicts: seq<Conflict>, blocking: bool)

  function NewConflictReport(conflicts: seq<Conflict>): (r: ConflictReport)
    ensures r.conflicts == conflicts && r.blocking
  {
    ConflictReport(conflicts, true)
  }

  // ---------------------------------------------------------------------
  // Negotiation records

  /** A free candidate slot; instants are minutes on the local clock and the
      score is in seconds (higher is better). */
  datatype AlternativeSlot = AlternativeSlot(start: int, end: int, score: int)

  /** A proposed new time for the create_recurring operation at `operationIndex`. */
  datatype ResolutionOption = ResolutionOption(
    operationIndex: int,
    suggestedStartIso: string,
    suggestedEndIso: string,
    note: Option<string>)

  datatype NegotiationOutcome = NegotiationOutcome(
    updatedPlan: MutationPlan,
    appliedResolutions: seq<ResolutionOption>,
    unresolvedConflicts: seq<string>)
}
