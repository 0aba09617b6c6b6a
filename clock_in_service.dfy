// app/services/clock_in_service.rb: PIN-checked clock-in and clock-out of one
// user against the time_entries table, with its guard checks and error classes.

module ClockInServices {
  import opened Wrappers
  import opened Calendar
  import opened Validation
  import opened Users
  import opened TimeEntries

  /** The exceptions `clock_in` and `clock_out` can raise. */
  datatype ClockError =
    | ArgumentError(message: string)
    | InvalidPinError
    | AlreadyClockedInError
    | NotClockedInError
    | ShiftTooLongError
    | RecordInvalid(errors: seq<FieldError>)

  const MAX_SHIFT_HOURS := 10

  /** A service object: the user and the PIN typed in. */
  datatype ClockInService = ClockInService(user: User, pin: string)

  /** `initialize` with `validate_parameters!`. */
  function New(user: Option<User>, pin: Option<string>): (r: Result<ClockInService, ClockError>)
    ensures r.Success? <==> user.Some? && pin.Some?
    ensures r.Success? ==> r.value == ClockInService(user.value, pin.value)
    ensures user.None? ==> r == Failure(ArgumentError("User is required"))
    ensures user.Some? && pin.None? ==> r == Failure(ArgumentError("PIN is required"))
  {
    if user.None? then Failure(ArgumentError("User is required"))
    else if pin.None? then Failure(ArgumentError("PIN is required"))
    else Success(ClockInService(user.value, pin.value))
  }

  /**
   * `validate_pin!`; `pinValid` is the answer of `user.valid_pin?(pin)`, whose
   * decryption is not part of this model.
   */
  function ValidatePin(pinValid: bool): (r: Option<ClockError>)
    ensures r.Some? <==> !pinValid
    ensures r.Some? ==> r.value == InvalidPinError
  {
    if pinValid then None else Some(InvalidPinError)
  }

  /** `validate_not_already_clocked_in!` */
  function ValidateNotAlreadyClockedIn(entries: seq<TimeEntry>, u: UserId): (r: Option<ClockError>)
    ensures r.Some? <==> exists i :: 0 <= i < |entries| && entries[i].userId == u && entries[i].clockOut.None?
    ensures r.Some? ==> r.value == AlreadyClockedInError
  {
    if HasOngoing(entries, u) then Some(AlreadyClockedInError) else None
  }

  /** `find_ongoing_entry!`: the index of the user's first open entry. */
  function FindOngoingEntry(entries: seq<TimeEntry>, u: UserId): (r: Result<nat, ClockError>)
    ensures r.Failure? <==> !HasOngoing(entries, u)
    ensures r.Failure? ==> r.error == NotClockedInError
    ensures r.Success? ==> r.value < |entries| && entries[r.value].userId == u && entries[r.value].clockOut.None?
  {
    match FirstOngoing(entries, u)
    case None => Failure(NotClockedInError)
    case Some(i) => Success(i)
  }

  /** `validate_shift_duration!`: skipped without a clock-in; more than 10 hours is refused. */
  function ValidateShiftDuration(e: TimeEntry, now: Timestamp): (r: Option<ClockError>)
    requires Ongoing(e)
    ensures r.Some? <==> e.clockIn.Some? && now - e.clockIn.value > MAX_SHIFT_HOURS * SECONDS_PER_HOUR
    ensures r.Some? ==> r.value == ShiftTooLongError
  {
    if e.clockIn.None? then None
    else if HoursWorked(e, now) > MAX_SHIFT_HOURS as real then Some(ShiftTooLongError)
    else None
  }

  /** A shift of exactly ten hours may still be closed; one second more may not. */
  lemma TenHoursBoundary(e: TimeEntry, now: Timestamp)
    requires Ongoing(e) && e.clockIn.Some?
    ensures now == e.clockIn.value + 36000 ==> ValidateShiftDuration(e, now).None?
    ensures now == e.clockIn.value + 36001 ==> ValidateShiftDuration(e, now) == Some(ShiftTooLongError)
  {
  }

  /** The entry `clock_in` saves. */
  function Opened(id: int, u: UserId, now: Timestamp): (e: TimeEntry)
    ensures Valid(e) && Ongoing(e) && e.userId == u
  {
    TimeEntry(id, u, Some(now), None)
  }

  /**
   * `clock_in`: PIN first, then the already-clocked-in guard, then a new open
   * entry stamped `now` for the user.
   */
  method ClockIn(svc: ClockInService, table: TimeEntryTable, pinValid: bool, now: Timestamp)
    returns (r: Result<TimeEntry, ClockError>)
    requires table.Valid()
    modifies table
    ensures table.Valid()
    ensures !pinValid ==> r == Failure(InvalidPinError)
    ensures pinValid && HasOngoing(old(table.entries), svc.user.id) ==> r == Failure(AlreadyClockedInError)
    ensures r.Failure? ==> table.entries == old(table.entries) && table.nextId == old(table.nextId)
    ensures pinValid && !HasOngoing(old(table.entries), svc.user.id) ==>
      r == Success(Opened(old(table.nextId), svc.user.id, now))
      && table.entries == old(table.entries) + [r.value]
    ensures AtMostOneOngoing(old(table.entries)) ==> AtMostOneOngoing(table.entries)
  {
    var pinError := ValidatePin(pinValid);
    if pinError.Some? {
      return Failure(pinError.value);
    }
    var clockedIn := ValidateNotAlreadyClockedIn(table.entries, svc.user.id);
    if clockedIn.Some? {
      return Failure(clockedIn.value);
    }
    ghost var before := table.entries;
    var e := table.Create(svc.user.id, Some(now), None);
    if AtMostOneOngoing(before) {
      AppendKeepsAtMostOne(before, e);
    }
    r := Success(e);
  }

  /** The entry `clock_out` tries to save: the open entry closed at `now`. */
  function Closed(e: TimeEntry, now: Timestamp): (c: TimeEntry)
    ensures c.id == e.id && c.userId == e.userId && c.clockIn == e.clockIn
    ensures Completed(c) && Duration(c) == if e.clockIn.Some? then Some(now - e.clockIn.value) else None
  {
    e.(clockOut := Some(now))
  }

  /**
   * `clock_out`: PIN first, then the user's first open entry, the ten-hour
   * limit, and `update!(clock_out: now)`, whose validation can still fail.
   */
  method ClockOut(svc: ClockInService, table: TimeEntryTable, pinValid: bool, now: Timestamp)
    returns (r: Result<TimeEntry, ClockError>)
    requires table.Valid()
    modifies table
    ensures table.Valid()
    ensures !pinValid ==> r == Failure(InvalidPinError)
    ensures pinValid && !HasOngoing(old(table.entries), svc.user.id) ==> r == Failure(NotClockedInError)
    ensures r.Failure? ==> table.entries == old(table.entries) && table.nextId == old(table.nextId)
    ensures pinValid && HasOngoing(old(table.entries), svc.user.id) ==>
      var i := FirstOngoing(old(table.entries), svc.user.id).value;
      var e := old(table.entries)[i];
      if ValidateShiftDuration(e, now).Some? then r == Failure(ShiftTooLongError)
      else if !Valid(Closed(e, now)) then r == Failure(RecordInvalid(Errors(Closed(e, now))))
      else r == Success(Closed(e, now)) && table.entries == old(table.entries)[i := Closed(e, now)]
    ensures AtMostOneOngoing(old(table.entries)) ==> AtMostOneOngoing(table.entries)
  {
    var pinError := ValidatePin(pinValid);
    if pinError.Some? {
      return Failure(pinError.value);
    }
    var found := FindOngoingEntry(table.entries, svc.user.id);
    if found.Failure? {
      return Failure(found.error);
    }
    var i := found.value;
    var e := table.entries[i];
    var tooLong := ValidateShiftDuration(e, now);
    if tooLong.Some? {
      return Failure(tooLong.value);
    }
    var c := Closed(e, now);
    var errors := Errors(c);
    if errors != [] {
      return Failure(RecordInvalid(errors));
    }
    ghost var before := table.entries;
    table.SetClockOut(i, now);
    if AtMostOneOngoing(before) {
      CloseKeepsAtMostOne(before, i, now);
    }
    r := Success(c);
  }

  /** A closed entry that passed the ten-hour check and validation lasted more than 0 and at most 36000 seconds. */
  lemma ClosedWithinLimit(e: TimeEntry, now: Timestamp)
    requires Ongoing(e)
    requires ValidateShiftDuration(e, now).None? && Valid(Closed(e, now))
    ensures Duration(Closed(e, now)).Some?
    ensures 0 < Duration(Closed(e, now)).value <= MAX_SHIFT_HOURS * SECONDS_PER_HOUR
  {
    ValidIff(Closed(e, now));
  }
}
