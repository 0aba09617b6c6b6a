// app/models/base_shift.rb: a template shift of a base roster and its
// validations (presence, end after start, no overlap within roster and day).

module BaseShifts {
  import opened Wrappers
  import opened Calendar
  import opened Validation

  /** The `shift_type` enum: morning 0, afternoon 1, evening 2, night 3. */
  datatype ShiftType = Morning | Afternoon | Evening | Night

  function ShiftTypeValue(t: ShiftType): (v: int)
    ensures 0 <= v < 4
  {
    match t
    case Morning => 0
    case Afternoon => 1
    case Evening => 2
    case Night => 3
  }

  function ShiftTypeFromValue(v: int): (t: Option<ShiftType>)
    ensures t.Some? <==> 0 <= v < 4
  {
    if v == 0 then Some(Morning)
    else if v == 1 then Some(Afternoon)
    else if v == 2 then Some(Evening)
    else if v == 3 then Some(Night)
    else None
  }

  lemma ShiftTypeRoundTrip(t: ShiftType)
    ensures ShiftTypeFromValue(ShiftTypeValue(t)) == Some(t)
  {
  }

  /** `shift_type.titleize`. */
  function ShiftTypeTitle(t: ShiftType): string {
    match t
    case Morning => "Morning"
    case Afternoon => "Afternoon"
    case Evening => "Evening"
    case Night => "Night"
  }

  /** A stored template shift; `section` is the name of its work section, if any. */
  datatype BaseShift = BaseShift(
    id: int,
    rosterId: int,
    day: Weekday,
    shiftType: ShiftType,
    start: TimeOfDay,
    end: TimeOfDay,
    section: Option<string>)

  /** The attributes of a shift being saved; `id` is None for a new record. */
  datatype BaseShiftAttrs = BaseShiftAttrs(
    id: Option<int>,
    rosterId: Option<int>,
    day: Option<Weekday>,
    shiftType: Option<ShiftType>,
    start: Option<TimeOfDay>,
    end: Option<TimeOfDay>)

  const END_NOT_AFTER_START := FieldError("end_time", "must be after start time")
  const OVERLAPS := FieldError("base", "Overlaps with existing shift")

  /** The SQL condition `start_time < end AND end_time > start`: half-open intervals meet. */
  predicate Overlap(start: int, end: int, other: BaseShift) {
    other.start < end && other.end > start
  }

  /** The rows that `no_overlapping_shifts` finds for a shift with all four attributes. */
  function OverlappingRows(a: BaseShiftAttrs, table: seq<BaseShift>): (r: seq<BaseShift>)
    requires a.rosterId.Some? && a.day.Some? && a.start.Some? && a.end.Some?
    ensures forall o :: o in r <==>
      o in table && o.rosterId == a.rosterId.value && o.day == a.day.value
      && Some(o.id) != a.id && Overlap(a.start.value, a.end.value, o)
    decreases |table|
  {
    if table == [] then []
    else
      var rest := OverlappingRows(a, table[1..]);
      var o := table[0];
      assert table == [o] + table[1..];
      if o.rosterId == a.rosterId.value && o.day == a.day.value
        && Some(o.id) != a.id && Overlap(a.start.value, a.end.value, o)
      then [o] + rest
      else rest
  }

  /** `end_after_start`: skipped unless both times are present. */
  function EndAfterStartErrors(a: BaseShiftAttrs): seq<FieldError> {
    if a.start.Some? && a.end.Some? && a.end.value <= a.start.value then [END_NOT_AFTER_START] else []
  }

  /** `no_overlapping_shifts`: skipped unless roster, day, start and end are present. */
  function OverlapErrors(a: BaseShiftAttrs, table: seq<BaseShift>): seq<FieldError> {
    if a.rosterId.Some? && a.day.Some? && a.start.Some? && a.end.Some?
      && |OverlappingRows(a, table)| > 0
    then [OVERLAPS]
    else []
  }

  /** All errors of `valid?`, in declaration order, against the stored base shifts. */
  function Errors(a: BaseShiftAttrs, table: seq<BaseShift>): seq<FieldError> {
    (if a.rosterId.None? then [FieldError("base_roster", MUST_EXIST)] else [])
    + PresenceError("day_of_week", a.day)
    + PresenceError("shift_type", a.shiftType)
    + PresenceError("start_time", a.start)
    + PresenceError("end_time", a.end)
    + EndAfterStartErrors(a)
    + OverlapErrors(a, table)
  }

  predicate Valid(a: BaseShiftAttrs, table: seq<BaseShift>) {
    Errors(a, table) == []
  }

  /** A shift is valid exactly when every attribute is there, it ends after it starts and nothing overlaps it. */
  lemma ValidIff(a: BaseShiftAttrs, table: seq<BaseShift>)
    ensures Valid(a, table) <==>
      a.rosterId.Some? && a.day.Some? && a.shiftType.Some? && a.start.Some? && a.end.Some?
      && a.start.value < a.end.value
      && !exists o :: o in table && o.rosterId == a.rosterId.value && o.day == a.day.value
           && Some(o.id) != a.id && Overlap(a.start.value, a.end.value, o)
  {
    if a.rosterId.Some? && a.day.Some? && a.start.Some? && a.end.Some? {
      var rows := OverlappingRows(a, table);
      if |rows| > 0 {
        assert rows[0] in rows;
      }
    }
  }

  /** An end at or before the start (an overnight template shift) is rejected. */
  lemma OvernightRejected(a: BaseShiftAttrs, table: seq<BaseShift>)
    requires a.start.Some? && a.end.Some? && a.end.value <= a.start.value
    ensures END_NOT_AFTER_START in Errors(a, table)
    ensures !Valid(a, table)
  {
  }

  /** A shift that starts exactly when another ends (or ends when it starts) does not overlap it. */
  lemma TouchingAllowed(start: int, end: int, other: BaseShift)
    requires other.end == start || other.start == end
    requires start < end && other.start < other.end
    ensures !Overlap(start, end, other)
  {
  }

  /** Rows on another day, in another roster, or the record itself are never reported. */
  lemma OnlySameRosterAndDay(a: BaseShiftAttrs, table: seq<BaseShift>, o: BaseShift)
    requires a.rosterId.Some? && a.day.Some? && a.start.Some? && a.end.Some?
    requires o.rosterId != a.rosterId.value || o.day != a.day.value || a.id == Some(o.id)
    ensures o !in OverlappingRows(a, table)
  {
  }

  /** With roster, day, start or end missing the overlap check adds nothing. */
  lemma OverlapCheckSkipped(a: BaseShiftAttrs, table: seq<BaseShift>)
    requires a.rosterId.None? || a.day.None? || a.start.None? || a.end.None?
    ensures OVERLAPS !in Errors(a, table)
  {
    assert OverlapErrors(a, table) == [];
    assert END_NOT_AFTER_START != OVERLAPS;
  }

  /** The attributes of a stored row, as `valid?` sees them on update. */
  function AttrsOf(s: BaseShift): (a: BaseShiftAttrs)
    ensures a.id == Some(s.id)
  {
    BaseShiftAttrs(Some(s.id), Some(s.rosterId), Some(s.day), Some(s.shiftType), Some(s.start), Some(s.end))
  }

  /** A stored shift re-validated on update is never reported as overlapping itself. */
  lemma NeverComparedWithItself(s: BaseShift, table: seq<BaseShift>)
    requires s.start < s.end
    requires forall o :: o in table && o.id != s.id ==> o.rosterId != s.rosterId || o.day != s.day
    ensures Valid(AttrsOf(s), table)
  {
    ValidIff(AttrsOf(s), table);
  }
}
