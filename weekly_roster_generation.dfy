// app/services/weekly_roster_generation_service.rb: turning a base roster
// template into a dated weekly roster with one dated shift per template shift.

module WeeklyRosterGeneration {
  import opened Wrappers
  import opened Calendar
  import opened BaseShifts
  import opened BaseRosters
  import opened WeeklyRosters

  /** The two exception classes the service raises. */
  datatype GenerationError = ArgumentError(message: string) | StandardError(message: string)

  const NO_SHIFTS := "Base roster must have shifts to generate weekly roster"
  const ALREADY_EXISTS := "Weekly roster already exists for this week"

  /** A service object that passed `validate_parameters!`. */
  datatype WeeklyRosterGenerationService = WeeklyRosterGenerationService(baseRoster: BaseRoster, weekStart: Date)

  /**
   * `validate_parameters!`: template and week start present, the template
   * persisted, and the template with at least one shift, checked in that order.
   */
  function ValidateParameters(baseRoster: Option<BaseRoster>, persisted: bool, weekStart: Option<Date>): (r: Option<GenerationError>)
    ensures r.None? <==> baseRoster.Some? && weekStart.Some? && persisted && |baseRoster.value.shifts| > 0
    ensures baseRoster.None? ==> r == Some(ArgumentError("Base roster is required"))
    ensures baseRoster.Some? && weekStart.None? ==> r == Some(ArgumentError("Week start date is required"))
    ensures baseRoster.Some? && weekStart.Some? && !persisted ==> r == Some(ArgumentError("BaseRoster must be persisted"))
    ensures baseRoster.Some? && weekStart.Some? && persisted && |baseRoster.value.shifts| == 0 ==>
      r == Some(StandardError(NO_SHIFTS))
  {
    if baseRoster.None? then Some(ArgumentError("Base roster is required"))
    else if weekStart.None? then Some(ArgumentError("Week start date is required"))
    else if !persisted then Some(ArgumentError("BaseRoster must be persisted"))
    else if |baseRoster.value.shifts| == 0 then Some(StandardError(NO_SHIFTS))
    else None
  }

  /** `initialize`: the service, or the error `validate_parameters!` raises. */
  function New(baseRoster: Option<BaseRoster>, persisted: bool, weekStart: Option<Date>): (r: Result<WeeklyRosterGenerationService, GenerationError>)
    ensures r.Success? <==> ValidateParameters(baseRoster, persisted, weekStart).None?
    ensures r.Success? ==> r.value.baseRoster == baseRoster.value && r.value.weekStart == weekStart.value
    ensures r.Success? ==> |r.value.baseRoster.shifts| > 0
    ensures r.Failure? ==> r.error == ValidateParameters(baseRoster, persisted, weekStart).value
  {
    match ValidateParameters(baseRoster, persisted, weekStart)
    case Some(e) => Failure(e)
    case None => Success(WeeklyRosterGenerationService(baseRoster.value, weekStart.value))
  }

  /** `week_range`: the seven days from the week start. */
  function WeekRange(weekStart: Date): (r: (Date, Date))
    ensures r.0 == weekStart && r.1 - r.0 == 6
  {
    (weekStart, weekStart + 6)
  }

  /** `calculate_shift_date`: the first date on or after the week start with the given weekday. */
  function CalculateShiftDate(weekStart: Date, dayOfWeek: Weekday): (d: Date)
    ensures weekStart <= d <= weekStart + 6
    ensures WeekdayOf(d) == dayOfWeek
  {
    var daysToAdd := (dayOfWeek - WeekdayOf(weekStart)) % 7;
    WeekdayAfter(weekStart, daysToAdd);
    weekStart + daysToAdd
  }

  /** Within a week there is just one date with a given weekday, so the shift date is the only choice. */
  lemma ShiftDateUnique(weekStart: Date, dayOfWeek: Weekday, d: Date)
    requires weekStart <= d <= weekStart + 6 && WeekdayOf(d) == dayOfWeek
    ensures d == CalculateShiftDate(weekStart, dayOfWeek)
  {
    var c := CalculateShiftDate(weekStart, dayOfWeek);
    WeekdayAfter(weekStart, d - weekStart);
    WeekdayAfter(weekStart, c - weekStart);
    assert (WeekdayOf(weekStart) + (d - weekStart)) % 7 == (WeekdayOf(weekStart) + (c - weekStart)) % 7;
  }

  /** For a Monday week start, Monday shifts land on the start and Sunday shifts on the last day. */
  lemma MondayWeek(weekStart: Date)
    requires WeekdayOf(weekStart) == MONDAY
    ensures CalculateShiftDate(weekStart, MONDAY) == weekStart
    ensures CalculateShiftDate(weekStart, SUNDAY) == weekStart + 6
  {
  }

  /** `combine_date_and_time`: the date of one, the hour, minute and second of the other. */
  function CombineDateAndTime(date: Date, time: TimeOfDay): (t: Timestamp)
    ensures DateOf(t) == date
    ensures Hour(ClockOf(t)) == Hour(time) && Minute(ClockOf(t)) == Minute(time) && Second(ClockOf(t)) == Second(time)
  {
    At(date, time)
  }

  /** The dated shift `generate_weekly_shifts!` creates for one template shift. */
  function GeneratedShift(id: int, rosterId: int, weekStart: Date, b: BaseShift): (s: WeeklyShift)
    ensures s.id == id && s.rosterId == rosterId
    ensures s.day == b.day && s.shiftType == b.shiftType && s.assignedStaff.None?
  {
    var date := CalculateShiftDate(weekStart, b.day);
    WeeklyShift(id, rosterId, b.day, b.shiftType, CombineDateAndTime(date, b.start), CombineDateAndTime(date, b.end), None)
  }

  /** A generated shift lasts as long as its template, to the second. */
  lemma GeneratedShiftSpan(id: int, rosterId: int, weekStart: Date, b: BaseShift)
    ensures GeneratedShift(id, rosterId, weekStart, b).end - GeneratedShift(id, rosterId, weekStart, b).start == b.end - b.start
  {
    var date := CalculateShiftDate(weekStart, b.day);
    assert GeneratedShift(id, rosterId, weekStart, b).end == date * SECONDS_PER_DAY + b.end;
    assert GeneratedShift(id, rosterId, weekStart, b).start == date * SECONDS_PER_DAY + b.start;
  }

  /**
   * Start and end are built on the same date from the template's clock
   * readings: the span is the template's end minus start, with no day added,
   * so an end at or before the start stays at or before it.
   */
  lemma GeneratedShiftTimes(id: int, rosterId: int, weekStart: Date, b: BaseShift)
    ensures var s := GeneratedShift(id, rosterId, weekStart, b);
      DateOf(s.start) == DateOf(s.end) == CalculateShiftDate(weekStart, b.day)
      && WeekdayOf(DateOf(s.start)) == b.day
      && ClockOf(s.start) == b.start && ClockOf(s.end) == b.end
      && s.end - s.start == b.end - b.start
      && (b.end <= b.start ==> s.end <= s.start)
  {
  }

  /** The dated shifts for a list of templates, with consecutive ids from `firstId`. */
  function GeneratedShifts(firstId: int, rosterId: int, weekStart: Date, templates: seq<BaseShift>): (r: seq<WeeklyShift>)
    ensures |r| == |templates|
    ensures forall i :: 0 <= i < |templates| ==> r[i] == GeneratedShift(firstId + i, rosterId, weekStart, templates[i])
  {
    if templates == [] then []
    else
      var init := templates[..|templates| - 1];
      assert forall i :: 0 <= i < |init| ==> templates[i] == init[i];
      GeneratedShifts(firstId, rosterId, weekStart, init)
      + [GeneratedShift(firstId + |init|, rosterId, weekStart, templates[|templates| - 1])]
  }

  lemma GeneratedShiftsSnoc(firstId: int, rosterId: int, weekStart: Date, templates: seq<BaseShift>, k: nat)
    requires k < |templates|
    ensures GeneratedShifts(firstId, rosterId, weekStart, templates[..k + 1])
      == GeneratedShifts(firstId, rosterId, weekStart, templates[..k]) + [GeneratedShift(firstId + k, rosterId, weekStart, templates[k])]
  {
    assert templates[..k + 1][..k] == templates[..k];
  }

  /** Every generated shift belongs to the new roster, falls in its week on its template's weekday, and is unassigned. */
  lemma GeneratedShiftsInWeek(firstId: int, rosterId: int, weekStart: Date, templates: seq<BaseShift>)
    ensures forall i :: 0 <= i < |templates| ==>
      var s := GeneratedShifts(firstId, rosterId, weekStart, templates)[i];
      s.rosterId == rosterId && s.assignedStaff.None? && s.day == templates[i].day && s.shiftType == templates[i].shiftType
      && weekStart <= DateOf(s.start) <= weekStart + 6 && WeekdayOf(DateOf(s.start)) == templates[i].day
  {
    forall i | 0 <= i < |templates|
      ensures var s := GeneratedShifts(firstId, rosterId, weekStart, templates)[i];
        weekStart <= DateOf(s.start) <= weekStart + 6 && WeekdayOf(DateOf(s.start)) == templates[i].day
    {
      GeneratedShiftTimes(firstId + i, rosterId, weekStart, templates[i]);
    }
  }

  /** A freshly generated roster has nothing to notify: none of its shifts is assigned. */
  lemma GeneratedRosterSendsNothing(firstId: int, rosterId: int, weekStart: Date, templates: seq<BaseShift>)
    ensures FinalizeNotices(rosterId, GeneratedShifts(firstId, rosterId, weekStart, templates)) == []
  {
    NoAssignedStaffNoNotices(rosterId, GeneratedShifts(firstId, rosterId, weekStart, templates));
  }

  /**
   * `generate`: re-runs the shift check, refuses a second roster for the same
   * template and week, then creates the roster and one dated shift per template
   * shift, in template order. Nothing is wrapped in a transaction.
   */
  method Generate(svc: WeeklyRosterGenerationService, table: WeeklyRosterTable) returns (r: Result<WeeklyRoster, GenerationError>)
    requires table.Valid()
    modifies table
    ensures table.Valid()
    ensures r.Failure? ==>
      table.rosters == old(table.rosters)
      && table.nextRosterId == old(table.nextRosterId) && table.nextShiftId == old(table.nextShiftId)
    ensures |svc.baseRoster.shifts| == 0 ==> r == Failure(StandardError(NO_SHIFTS))
    ensures |svc.baseRoster.shifts| > 0 && old(table.Exists(svc.baseRoster.id, svc.weekStart)) ==>
      r == Failure(StandardError(ALREADY_EXISTS))
    ensures |svc.baseRoster.shifts| > 0 && !old(table.Exists(svc.baseRoster.id, svc.weekStart)) ==>
      r.Success? && fresh(r.value)
      && table.rosters == old(table.rosters) + [r.value]
      && r.value.id == old(table.nextRosterId)
      && r.value.name == svc.baseRoster.name && r.value.userId == svc.baseRoster.userId
      && r.value.weekType == svc.baseRoster.weekType && r.value.baseRosterId == svc.baseRoster.id
      && (r.value.weekStart, r.value.weekEnd) == WeekRange(svc.weekStart)
      && r.value.status == Draft && r.value.finalizedAt.None? && r.value.finalizedBy.None?
      && r.value.shifts == GeneratedShifts(old(table.nextShiftId), r.value.id, svc.weekStart, svc.baseRoster.shifts)
      && table.nextShiftId == old(table.nextShiftId) + |svc.baseRoster.shifts|
  {
    var invalid := ValidateParameters(Some(svc.baseRoster), true, Some(svc.weekStart));
    if invalid.Some? {
      return Failure(invalid.value);
    }
    if table.Exists(svc.baseRoster.id, svc.weekStart) {
      return Failure(StandardError(ALREADY_EXISTS));
    }
    var range := WeekRange(svc.weekStart);
    var roster := new WeeklyRoster(table.nextRosterId, svc.baseRoster.name, svc.baseRoster.id,
                                   svc.baseRoster.userId, range.0, range.1, svc.baseRoster.weekType);
    table.rosters := table.rosters + [roster];
    table.nextRosterId := table.nextRosterId + 1;
    GenerateWeeklyShifts(roster, svc.baseRoster.shifts, table);
    r := Success(roster);
  }

  /** `generate_weekly_shifts!`: one `WeeklyShift.create!` per template shift. */
  method GenerateWeeklyShifts(roster: WeeklyRoster, templates: seq<BaseShift>, table: WeeklyRosterTable)
    modifies roster, table
    ensures roster.shifts == old(roster.shifts) + GeneratedShifts(old(table.nextShiftId), roster.id, roster.weekStart, templates)
    ensures table.nextShiftId == old(table.nextShiftId) + |templates|
    ensures table.rosters == old(table.rosters) && table.nextRosterId == old(table.nextRosterId)
    ensures roster.status == old(roster.status) && roster.finalizedAt == old(roster.finalizedAt)
    ensures roster.finalizedBy == old(roster.finalizedBy)
  {
    ghost var firstId := table.nextShiftId;
    var k := 0;
    while k < |templates|
      invariant 0 <= k <= |templates|
      invariant table.nextShiftId == firstId + k
      invariant roster.shifts == old(roster.shifts) + GeneratedShifts(firstId, roster.id, roster.weekStart, templates[..k])
      invariant table.rosters == old(table.rosters) && table.nextRosterId == old(table.nextRosterId)
      invariant roster.status == old(roster.status) && roster.finalizedAt == old(roster.finalizedAt)
      invariant roster.finalizedBy == old(roster.finalizedBy)
    {
      var s := GeneratedShift(table.nextShiftId, roster.id, roster.weekStart, templates[k]);
      GeneratedShiftsSnoc(firstId, roster.id, roster.weekStart, templates, k);
      roster.shifts := roster.shifts + [s];
      table.nextShiftId := table.nextShiftId + 1;
      k := k + 1;
    }
    assert templates[..k] == templates;
  }
}
