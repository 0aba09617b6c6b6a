// app/models/time_entry.rb: one clock-in/clock-out record of a user, its
// derived duration and status, its validations; and the time_entries table
// the clock-in service reads and updates.

module TimeEntries {
  import opened Wrappers
  import opened Calendar
  import opened Validation
  import opened Users

  /** A time entry; `clock_in` is a nullable column, `clock_out` is nil while the shift is open. */
  datatype TimeEntry = TimeEntry(id: int, userId: UserId, clockIn: Option<Timestamp>, clockOut: Option<Timestamp>)

  /** `duration`: seconds from clock-in to clock-out, nil unless both are there. */
  function Duration(e: TimeEntry): (d: Option<int>)
    ensures d.Some? <==> e.clockIn.Some? && e.clockOut.Some?
    ensures d.Some? ==> e.clockIn.value + d.value == e.clockOut.value
  {
    if e.clockOut.Some? && e.clockIn.Some? then Some(e.clockOut.value - e.clockIn.value) else None
  }

  /** `ongoing?` */
  predicate Ongoing(e: TimeEntry) {
    e.clockOut.None?
  }

  /** `completed?` */
  predicate Completed(e: TimeEntry) {
    e.clockOut.Some?
  }

  const CLOCK_OUT_NOT_AFTER_CLOCK_IN := FieldError("clock_out", "must be after clock in")

  /** `clock_out_after_clock_in`, run only when a clock-out is set. */
  function ClockOutErrors(e: TimeEntry): seq<FieldError> {
    if e.clockIn.Some? && e.clockOut.Some? && e.clockOut.value <= e.clockIn.value
    then [CLOCK_OUT_NOT_AFTER_CLOCK_IN]
    else []
  }

  function Errors(e: TimeEntry): seq<FieldError> {
    PresenceError("clock_in", e.clockIn) + ClockOutErrors(e)
  }

  predicate Valid(e: TimeEntry) {
    Errors(e) == []
  }

  /** Valid exactly when clock-in is set and any clock-out is strictly later. */
  lemma ValidIff(e: TimeEntry)
    ensures Valid(e) <==> e.clockIn.Some? && (e.clockOut.Some? ==> e.clockIn.value < e.clockOut.value)
  {
  }

  /** An entry is exactly one of ongoing and completed. */
  lemma OngoingIsNotCompleted(e: TimeEntry)
    ensures Ongoing(e) <==> !Completed(e)
  {
  }

  /** A valid completed entry lasted a positive number of seconds. */
  lemma ValidCompletedHasPositiveDuration(e: TimeEntry)
    requires Valid(e) && Completed(e)
    ensures Duration(e).Some? && Duration(e).value > 0
  {
    ValidIff(e);
  }

  /**
   * `hours_worked`, which is not defined in the time entry model: the hours
   * from clock-in to clock-out, or to `now` while the shift is open.
   */
  function HoursWorked(e: TimeEntry, now: Timestamp): (h: real)
    requires e.clockIn.Some?
    ensures e.clockOut.Some? ==> h * 3600.0 == Duration(e).value as real
    ensures e.clockOut.None? ==> h * 3600.0 == (now - e.clockIn.value) as real
  {
    (e.clockOut.GetOr(now) - e.clockIn.value) as real / 3600.0
  }

  /** `wage_amount`, also not defined in the model: hours worked at the user's rate, nil rate counting as 0. */
  function WageAmount(e: TimeEntry, rate: Option<real>, now: Timestamp): (w: real)
    requires e.clockIn.Some?
    ensures rate.None? ==> w == 0.0
    ensures rate.Some? && rate.value >= 0.0 && HoursWorked(e, now) >= 0.0 ==> w >= 0.0
  {
    HoursWorked(e, now) * rate.GetOr(0.0)
  }

  predicate OngoingFor(e: TimeEntry, u: UserId) {
    e.userId == u && Ongoing(e)
  }

  /** `user.time_entries.where(clock_out: nil).exists?` */
  predicate HasOngoing(entries: seq<TimeEntry>, u: UserId) {
    exists i :: 0 <= i < |entries| && OngoingFor(entries[i], u)
  }

  /** `user.time_entries.find_by(clock_out: nil)`: the first open entry of the user in table order. */
  function FirstOngoing(entries: seq<TimeEntry>, u: UserId): (r: Option<nat>)
    ensures r.None? <==> !HasOngoing(entries, u)
    ensures r.Some? ==> r.value < |entries| && OngoingFor(entries[r.value], u)
    ensures r.Some? ==> forall k :: 0 <= k < r.value ==> !OngoingFor(entries[k], u)
  {
    if entries == [] then None
    else if OngoingFor(entries[0], u) then Some(0)
    else
      match FirstOngoing(entries[1..], u)
      case None =>
        assert forall i :: 1 <= i < |entries| ==> entries[i] == entries[1..][i - 1];
        None
      case Some(i) => Some(i + 1)
  }

  /** The invariant of the clock: no user has two open entries. */
  ghost predicate AtMostOneOngoing(entries: seq<TimeEntry>) {
    forall i, j ::
      (0 <= i < |entries| && 0 <= j < |entries| && Ongoing(entries[i]) && Ongoing(entries[j])
       && entries[i].userId == entries[j].userId) ==> i == j
  }

  /** Under the invariant, a user's open entry is the one `FirstOngoing` finds. */
  lemma OnlyOngoing(entries: seq<TimeEntry>, u: UserId, i: nat)
    requires AtMostOneOngoing(entries)
    requires i < |entries| && OngoingFor(entries[i], u)
    ensures FirstOngoing(entries, u) == Some(i)
  {
    assert HasOngoing(entries, u);
    var r := FirstOngoing(entries, u).value;
    assert OngoingFor(entries[r], u);
  }

  /** Opening an entry for a user with none open keeps the invariant. */
  lemma AppendKeepsAtMostOne(entries: seq<TimeEntry>, e: TimeEntry)
    requires AtMostOneOngoing(entries)
    requires !HasOngoing(entries, e.userId)
    ensures AtMostOneOngoing(entries + [e])
  {
    var es := entries + [e];
    assert es[|entries|] == e;
    forall k | 0 <= k < |entries|
      ensures es[k] == entries[k] && !OngoingFor(es[k], e.userId)
    {
    }
  }

  /** Closing an entry keeps the invariant. */
  lemma CloseKeepsAtMostOne(entries: seq<TimeEntry>, i: nat, t: Timestamp)
    requires AtMostOneOngoing(entries)
    requires i < |entries|
    ensures AtMostOneOngoing(entries[i := entries[i].(clockOut := Some(t))])
  {
  }

  /** After its only open entry is closed, the user is no longer clocked in. */
  lemma CloseEndsOngoing(entries: seq<TimeEntry>, i: nat, t: Timestamp)
    requires AtMostOneOngoing(entries)
    requires i < |entries| && Ongoing(entries[i])
    ensures !HasOngoing(entries[i := entries[i].(clockOut := Some(t))], entries[i].userId)
  {
    var es := entries[i := entries[i].(clockOut := Some(t))];
    forall k | 0 <= k < |es|
      ensures !OngoingFor(es[k], entries[i].userId)
    {
      if k != i {
        assert es[k] == entries[k];
      }
    }
  }

  /** The time_entries table; ids are handed out in increasing order. */
  class TimeEntryTable {
    var entries: seq<TimeEntry>
    var nextId: int

    ghost predicate Valid()
      reads this
    {
      (forall i :: 0 <= i < |entries| ==> entries[i].id < nextId)
      && (forall i, j :: 0 <= i < j < |entries| ==> entries[i].id < entries[j].id)
    }

    constructor ()
      ensures Valid() && entries == [] && nextId == 1
    {
      entries := [];
      nextId := 1;
    }

    /** `TimeEntry.create!` of a valid entry: the new row gets the next id and goes last. */
    method Create(userId: UserId, clockIn: Option<Timestamp>, clockOut: Option<Timestamp>) returns (e: TimeEntry)
      requires Valid()
      modifies this
      ensures Valid()
      ensures e == TimeEntry(old(nextId), userId, clockIn, clockOut)
      ensures entries == old(entries) + [e] && nextId == old(nextId) + 1
    {
      e := TimeEntry(nextId, userId, clockIn, clockOut);
      entries := entries + [e];
      nextId := nextId + 1;
    }

    /** `entry.update!(clock_out: t)` on the row at index i. */
    method SetClockOut(i: nat, t: Timestamp)
      requires Valid() && i < |entries|
      modifies this
      ensures Valid()
      ensures entries == old(entries)[i := old(entries)[i].(clockOut := Some(t))] && nextId == old(nextId)
    {
      entries := entries[i := entries[i].(clockOut := Some(t))];
    }
  }
}
