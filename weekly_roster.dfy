// app/models/weekly_roster.rb and app/models/weekly_shift.rb: a dated roster
// generated from a template, its dated shifts, the one-way draft -> finalized
// step with its staff notifications, and the weekly_rosters table.

module WeeklyRosters {
  import opened Wrappers
  import opened Calendar
  import opened Users
  import opened BaseShifts
  import opened BaseRosters
  import opened Collections

  /** The `status` enum: draft 0, finalized 1. */
  datatype Status = Draft | Finalized

  function StatusValue(s: Status): (v: int)
    ensures v == 0 || v == 1
  {
    match s
    case Draft => 0
    case Finalized => 1
  }

  function StatusFromValue(v: int): (s: Option<Status>)
    ensures s.Some? <==> v == 0 || v == 1
  {
    if v == 0 then Some(Draft) else if v == 1 then Some(Finalized) else None
  }

  lemma StatusRoundTrip(s: Status)
    ensures StatusFromValue(StatusValue(s)) == Some(s)
  {
  }

  /** A stored dated shift: `start_time`/`end_time` are full timestamps. */
  datatype WeeklyShift = WeeklyShift(
    id: int,
    rosterId: int,
    day: Weekday,
    shiftType: ShiftType,
    start: Timestamp,
    end: Timestamp,
    assignedStaff: Option<UserId>)

  /** What the roster mailer is asked to deliver. */
  datatype Mail =
    | SendShifts(rosterId: int, staff: UserId, shifts: seq<WeeklyShift>)
    | ShiftChanged(shift: WeeklyShift, previous: WeeklyShift, staff: UserId)

  /** The mail queue `deliver_later` appends to. */
  class Outbox {
    var sent: seq<Mail>

    constructor ()
      ensures sent == []
    {
      sent := [];
    }

    /** The `each` loop of `finalize!`: one `send_shifts` notice per listed staff id, in list order. */
    method SendShiftsTo(rosterId: int, staff: seq<UserId>, shifts: seq<WeeklyShift>)
      modifies this
      ensures sent == old(sent) + NoticesFor(rosterId, staff, shifts)
    {
      var k := 0;
      while k < |staff|
        invariant 0 <= k <= |staff|
        invariant sent == old(sent) + NoticesFor(rosterId, staff[..k], shifts)
      {
        var staffShifts := ShiftsOf(shifts, staff[k]);
        assert staff[..k + 1][..k] == staff[..k];
        sent := sent + [SendShifts(rosterId, staff[k], staffShifts)];
        k := k + 1;
      }
      assert staff[..k] == staff;
    }
  }

  /** `pluck(:assigned_staff_id).compact`: the non-null staff ids, shift by shift. */
  function AssignedStaff(shifts: seq<WeeklyShift>): (r: seq<UserId>)
    ensures forall u :: u in r <==> exists i :: 0 <= i < |shifts| && shifts[i].assignedStaff == Some(u)
  {
    if shifts == [] then []
    else
      var init, last := shifts[..|shifts| - 1], shifts[|shifts| - 1];
      assert forall i :: 0 <= i < |init| ==> shifts[i] == init[i];
      AssignedStaff(init) + (if last.assignedStaff.Some? then [last.assignedStaff.value] else [])
  }

  /** `weekly_shifts.where(assigned_staff_id: u)`, in table order. */
  function ShiftsOf(shifts: seq<WeeklyShift>, u: UserId): (r: seq<WeeklyShift>)
    ensures forall s :: s in r <==> s in shifts && s.assignedStaff == Some(u)
    ensures |r| <= |shifts|
  {
    if shifts == [] then []
    else
      var init, last := shifts[..|shifts| - 1], shifts[|shifts| - 1];
      assert shifts == init + [last];
      ShiftsOf(init, u) + (if last.assignedStaff == Some(u) then [last] else [])
  }

  /** The `send_shifts` notices for the listed staff, in list order. */
  function NoticesFor(rosterId: int, staff: seq<UserId>, shifts: seq<WeeklyShift>): (r: seq<Mail>)
    ensures |r| == |staff|
    ensures forall i :: 0 <= i < |staff| ==> r[i] == SendShifts(rosterId, staff[i], ShiftsOf(shifts, staff[i]))
  {
    if staff == [] then []
    else
      var init := staff[..|staff| - 1];
      assert forall i :: 0 <= i < |init| ==> staff[i] == init[i];
      NoticesFor(rosterId, init, shifts) + [SendShifts(rosterId, staff[|staff| - 1], ShiftsOf(shifts, staff[|staff| - 1]))]
  }

  /** Every notice `finalize!` sends: one per distinct assigned staff id, first-seen order. */
  function FinalizeNotices(rosterId: int, shifts: seq<WeeklyShift>): seq<Mail> {
    NoticesFor(rosterId, Dedup(AssignedStaff(shifts)), shifts)
  }

  /** The notice `notify_shift_change` sends: only once finalized, and only to assigned staff. */
  function ShiftChangeNotices(status: Status, shift: WeeklyShift, previous: WeeklyShift): (r: seq<Mail>)
    ensures |r| <= 1
    ensures r != [] <==> status == Finalized && shift.assignedStaff.Some?
    ensures r != [] ==> r[0] == ShiftChanged(shift, previous, shift.assignedStaff.value)
  {
    if status == Finalized && shift.assignedStaff.Some?
    then [ShiftChanged(shift, previous, shift.assignedStaff.value)]
    else []
  }

  /** Each staff member gets one notice, and exactly the staff with an assigned shift get one. */
  lemma OneNoticePerStaff(rosterId: int, shifts: seq<WeeklyShift>)
    ensures forall i, j :: 0 <= i < j < |FinalizeNotices(rosterId, shifts)| ==>
      FinalizeNotices(rosterId, shifts)[i].staff != FinalizeNotices(rosterId, shifts)[j].staff
    ensures forall u ::
      ((exists i :: 0 <= i < |FinalizeNotices(rosterId, shifts)| && FinalizeNotices(rosterId, shifts)[i].staff == u)
       <==> (exists k :: 0 <= k < |shifts| && shifts[k].assignedStaff == Some(u)))
  {
    var ids := Dedup(AssignedStaff(shifts));
    var ns := FinalizeNotices(rosterId, shifts);
    assert forall i :: 0 <= i < |ns| ==> ns[i].staff == ids[i];
    forall u | exists k :: 0 <= k < |shifts| && shifts[k].assignedStaff == Some(u)
      ensures exists i :: 0 <= i < |ns| && ns[i].staff == u
    {
      assert u in ids;
      var i :| 0 <= i < |ids| && ids[i] == u;
      assert ns[i].staff == u;
    }
  }

  /** Each notice carries exactly the roster's shifts assigned to its recipient, and names this roster. */
  lemma NoticeCarriesOwnShifts(rosterId: int, shifts: seq<WeeklyShift>, i: nat)
    requires i < |FinalizeNotices(rosterId, shifts)|
    ensures FinalizeNotices(rosterId, shifts)[i].SendShifts?
    ensures FinalizeNotices(rosterId, shifts)[i].rosterId == rosterId
    ensures forall s :: s in FinalizeNotices(rosterId, shifts)[i].shifts <==>
      s in shifts && s.assignedStaff == Some(FinalizeNotices(rosterId, shifts)[i].staff)
  {
  }

  /** A roster with no assigned shift sends nothing when finalized. */
  lemma NoAssignedStaffNoNotices(rosterId: int, shifts: seq<WeeklyShift>)
    requires forall k :: 0 <= k < |shifts| ==> shifts[k].assignedStaff.None?
    ensures FinalizeNotices(rosterId, shifts) == []
  {
  }

  /** A weekly roster row; the identity columns never change after creation. */
  class WeeklyRoster {
    const id: int
    const name: string
    const baseRosterId: int
    const userId: UserId
    const weekStart: Date
    const weekEnd: Date
    const weekType: WeekType
    var status: Status
    var finalizedAt: Option<Timestamp>
    var finalizedBy: Option<UserId>
    /** The `weekly_shifts` association. */
    var shifts: seq<WeeklyShift>

    /** `WeeklyRoster.create!` with the column defaults: a draft with no shifts. */
    constructor (id: int, name: string, baseRosterId: int, userId: UserId, weekStart: Date, weekEnd: Date, weekType: WeekType)
      ensures this.id == id && this.name == name && this.baseRosterId == baseRosterId && this.userId == userId
      ensures this.weekStart == weekStart && this.weekEnd == weekEnd && this.weekType == weekType
      ensures status == Draft && finalizedAt == None && finalizedBy == None && shifts == []
    {
      this.id := id;
      this.name := name;
      this.baseRosterId := baseRosterId;
      this.userId := userId;
      this.weekStart := weekStart;
      this.weekEnd := weekEnd;
      this.weekType := weekType;
      status := Draft;
      finalizedAt := None;
      finalizedBy := None;
      shifts := [];
    }

    /** `editable?`: a draft can be edited, a finalized roster cannot. */
    function Editable(): (editable: bool)
      reads this
      ensures editable <==> status == Draft
    {
      status != Finalized
    }

    /**
     * `finalize!`: None (Ruby's `false`) when already finalized; otherwise the
     * roster is finalized by `actor` at `now` and one `send_shifts` notice per
     * distinct assigned staff id is queued. The result is the list of those ids,
     * which is what the Ruby method returns.
     */
    method Finalize(actor: UserId, now: Timestamp, outbox: Outbox) returns (staff: Option<seq<UserId>>)
      modifies this, outbox
      ensures old(status) == Finalized ==>
        staff.None? && status == old(status) && finalizedAt == old(finalizedAt)
        && finalizedBy == old(finalizedBy) && outbox.sent == old(outbox.sent)
      ensures old(status) == Draft ==>
        staff == Some(Dedup(AssignedStaff(old(shifts))))
        && status == Finalized && finalizedAt == Some(now) && finalizedBy == Some(actor)
        && outbox.sent == old(outbox.sent) + FinalizeNotices(id, old(shifts))
      ensures shifts == old(shifts) && !Editable()
    {
      if status == Finalized {
        return None;
      }
      status, finalizedAt, finalizedBy := Finalized, Some(now), Some(actor);
      var ids := Dedup(AssignedStaff(shifts));
      outbox.SendShiftsTo(id, ids, shifts);
      staff := Some(ids);
    }

    /** `notify_shift_change`: a `shift_changed` notice to the shift's staff, only once finalized. */
    method NotifyShiftChange(shift: WeeklyShift, previous: WeeklyShift, outbox: Outbox)
      modifies outbox
      ensures outbox.sent == old(outbox.sent) + ShiftChangeNotices(status, shift, previous)
    {
      if status != Finalized {
        return;
      }
      if shift.assignedStaff.Some? {
        outbox.sent := outbox.sent + [ShiftChanged(shift, previous, shift.assignedStaff.value)];
      }
    }
  }

  /** The weekly_rosters table and the id sequences of both tables. */
  class WeeklyRosterTable {
    var rosters: seq<WeeklyRoster>
    var nextRosterId: int
    var nextShiftId: int

    /**
     * `WeeklyRoster.exists?(base_roster:, week_start_date:)`: when it answers
     * no, every roster differs in template or week; in a valid table a yes
     * names exactly one roster.
     */
    function Exists(baseRosterId: int, weekStart: Date): (found: bool)
      reads this
      ensures !found ==> forall i :: 0 <= i < |rosters| ==>
        rosters[i].baseRosterId != baseRosterId || rosters[i].weekStart != weekStart
      ensures found && Valid() ==>
        exists i :: (0 <= i < |rosters| && rosters[i].baseRosterId == baseRosterId && rosters[i].weekStart == weekStart
          && forall j :: 0 <= j < |rosters| && rosters[j].baseRosterId == baseRosterId && rosters[j].weekStart == weekStart ==> j == i)
    {
      exists i :: 0 <= i < |rosters| && rosters[i].baseRosterId == baseRosterId && rosters[i].weekStart == weekStart
    }

    /** Ids are below the next id, and no two rosters cover the same template and week. */
    ghost predicate Valid()
      reads this
    {
      (forall i :: 0 <= i < |rosters| ==> rosters[i].id < nextRosterId)
      && (forall i, j :: 0 <= i < j < |rosters| ==>
            rosters[i].baseRosterId != rosters[j].baseRosterId || rosters[i].weekStart != rosters[j].weekStart)
    }

    constructor ()
      ensures Valid() && rosters == [] && nextRosterId == 1 && nextShiftId == 1
    {
      rosters := [];
      nextRosterId := 1;
      nextShiftId := 1;
    }
  }
}
