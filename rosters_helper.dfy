// app/helpers/rosters_helper.rb: the calendar view's predicates over the
// week's weekly rosters (assigned shifts, the finalize button, the staff list,
// shift conflicts) and its small formatting choices.

module RostersHelper {
  import opened Wrappers
  import opened Users
  import opened Collections
  import opened WeeklyRosters

  /** What a formatting helper shows: a placeholder, or a number with a suffix. */
  datatype Display = Placeholder(text: string) | Amount(value: real, suffix: string)

  /** `format_currency`: "--" for nil; the currency formatting of a number is not modelled. */
  function FormatCurrency(amount: Option<real>): (d: Display)
    ensures amount.None? <==> d == Placeholder("--")
    ensures amount.Some? ==> d == Amount(amount.value, "")
  {
    if amount.None? then Placeholder("--") else Amount(amount.value, "")
  }

  /** `format_percentage`: "--%" for nil, else the number followed by "%". */
  function FormatPercentage(percentage: Option<real>): (d: Display)
    ensures percentage.None? <==> d == Placeholder("--%")
    ensures percentage.Some? ==> d == Amount(percentage.value, "%")
  {
    if percentage.None? then Placeholder("--%") else Amount(percentage.value, "%")
  }

  /** `budget_status_label` */
  function BudgetStatusLabel(isCustomized: bool): (text: string)
    ensures isCustomized <==> text == "Customized"
    ensures !isCustomized <==> text == "Baseline"
  {
    if isCustomized then "Customized" else "Baseline"
  }

  /** Some shift of some listed roster is assigned to staff `u`. */
  ghost predicate AssignedTo(rosters: seq<WeeklyRoster>, u: UserId)
    reads rosters
  {
    exists i, k :: 0 <= i < |rosters| && 0 <= k < |rosters[i].shifts| && rosters[i].shifts[k].assignedStaff == Some(u)
  }

  /** A staff member is assigned in the rosters exactly when in the earlier ones or in the last. */
  lemma AssignedToSnoc(rosters: seq<WeeklyRoster>)
    requires rosters != []
    ensures forall u :: AssignedTo(rosters, u) <==>
      AssignedTo(rosters[..|rosters| - 1], u) || u in AssignedStaff(rosters[|rosters| - 1].shifts)
  {
    var init, last := rosters[..|rosters| - 1], rosters[|rosters| - 1];
    forall u | AssignedTo(rosters, u) ensures AssignedTo(init, u) || u in AssignedStaff(last.shifts) {
      var i, k :| 0 <= i < |rosters| && 0 <= k < |rosters[i].shifts| && rosters[i].shifts[k].assignedStaff == Some(u);
      if i < |init| {
        assert init[i] == rosters[i];
      }
    }
    forall u | AssignedTo(init, u) ensures AssignedTo(rosters, u) {
      var i, k :| 0 <= i < |init| && 0 <= k < |init[i].shifts| && init[i].shifts[k].assignedStaff == Some(u);
      assert rosters[i] == init[i];
    }
    forall u | u in AssignedStaff(last.shifts) ensures AssignedTo(rosters, u) {
      var k :| 0 <= k < |last.shifts| && last.shifts[k].assignedStaff == Some(u);
      assert rosters[|rosters| - 1].shifts[k].assignedStaff == Some(u);
    }
  }

  /** `has_shifts?`: some roster has a shift with a staff member assigned. */
  function HasShifts(rosters: seq<WeeklyRoster>): (r: bool)
    reads rosters
    ensures r <==> exists u :: AssignedTo(rosters, u)
  {
    if rosters == [] then false
    else
      var here := AssignedStaff(rosters[|rosters| - 1].shifts);
      AssignedToSnoc(rosters);
      if here != [] then
        assert here[0] in here;
        assert AssignedTo(rosters, here[0]);
        true
      else
        var init := rosters[..|rosters| - 1];
        assert (exists u :: AssignedTo(rosters, u)) <==> exists u :: AssignedTo(init, u) by {
          if exists u :: AssignedTo(rosters, u) {
            var u :| AssignedTo(rosters, u);
            assert AssignedTo(init, u);
          }
          if exists u :: AssignedTo(init, u) {
            var u :| AssignedTo(init, u);
            assert AssignedTo(rosters, u);
          }
        }
        HasShifts(init)
  }

  /** `weekly_rosters.any?(&:finalized?)` */
  function AnyFinalized(rosters: seq<WeeklyRoster>): (r: bool)
    reads rosters
    ensures r <==> exists i :: 0 <= i < |rosters| && rosters[i].status == Finalized
  {
    if rosters == [] then false
    else rosters[0].status == Finalized || AnyFinalized(rosters[1..])
  }

  /** `finalize_button_disabled?`: nothing assigned yet, or some roster already finalized. */
  function FinalizeButtonDisabled(rosters: seq<WeeklyRoster>): (r: bool)
    reads rosters
    ensures !r <==> (exists u :: AssignedTo(rosters, u)) && forall i :: 0 <= i < |rosters| ==> rosters[i].Editable()
  {
    !HasShifts(rosters) || AnyFinalized(rosters)
  }

  /** The staff ids of each roster, roster after roster (before `uniq`). */
  function RosterStaffIds(rosters: seq<WeeklyRoster>): (r: seq<UserId>)
    reads rosters
    ensures forall u :: u in r <==> AssignedTo(rosters, u)
  {
    if rosters == [] then []
    else
      AssignedToSnoc(rosters);
      RosterStaffIds(rosters[..|rosters| - 1]) + Dedup(AssignedStaff(rosters[|rosters| - 1].shifts))
  }

  /** `User.where(id: ids)`: the users found for the ids, one per id that exists. */
  function UsersWithIds(ids: seq<UserId>, users: map<UserId, User>): (r: seq<User>)
    ensures forall u :: u in r <==> exists j :: 0 <= j < |ids| && ids[j] in users && users[ids[j]] == u
    ensures Consistent(users) && Distinct(ids) ==> Distinct(r)
  {
    if ids == [] then []
    else
      var init, last := ids[..|ids| - 1], ids[|ids| - 1];
      assert forall j :: 0 <= j < |init| ==> ids[j] == init[j];
      var rest := UsersWithIds(init, users);
      if last in users then
        assert Consistent(users) && Distinct(ids) ==> users[last] !in rest by {
          if Consistent(users) && Distinct(ids) {
            forall j | 0 <= j < |init| && init[j] in users ensures users[init[j]] != users[last] {
              assert ids[j] != ids[|ids| - 1];
            }
          }
        }
        assert Distinct(ids) ==> Distinct(init) by {
          if Distinct(ids) {
            forall i, j | 0 <= i < j < |init| ensures init[i] != init[j] {
              assert init[i] == ids[i] && init[j] == ids[j];
            }
          }
        }
        rest + [users[last]]
      else
        assert Distinct(ids) ==> Distinct(init) by {
          if Distinct(ids) {
            forall i, j | 0 <= i < j < |init| ensures init[i] != init[j] {
              assert init[i] == ids[i] && init[j] == ids[j];
            }
          }
        }
        rest
  }

  /** `sort_by(&:name)` */
  predicate NameLe(a: User, b: User) {
    LexLe(a.name, b.name)
  }

  lemma NameLeIsPreorder()
    ensures Total(NameLe) && Transitive(NameLe)
  {
    forall a: User, b: User ensures NameLe(a, b) || NameLe(b, a) {
      LexLeTotal(a.name, b.name);
    }
    forall a: User, b: User, c: User | NameLe(a, b) && NameLe(b, c) ensures NameLe(a, c) {
      LexLeTransitive(a.name, b.name, c.name);
    }
  }

  /**
   * `assigned_staff_for_rosters`: every user with an assigned shift in one of
   * the rosters, once each, ordered by name.
   */
  function AssignedStaffForRosters(rosters: seq<WeeklyRoster>, users: map<UserId, User>): (r: seq<User>)
    requires Consistent(users)
    reads rosters
    ensures SortedBy(r, NameLe)
    ensures Distinct(r)
    ensures forall u :: u in r <==> u.id in users && users[u.id] == u && AssignedTo(rosters, u.id)
  {
    NameLeIsPreorder();
    var found := UsersWithIds(Dedup(RosterStaffIds(rosters)), users);
    var r := SortBy(found, NameLe);
    DistinctPermutation(r, found);
    SameElements(r, found);
    FoundUsers(rosters, users);
    r
  }

  /** The users `User.where` finds for the roster staff ids are exactly the assigned users. */
  lemma FoundUsers(rosters: seq<WeeklyRoster>, users: map<UserId, User>)
    requires Consistent(users)
    ensures forall u :: u in UsersWithIds(Dedup(RosterStaffIds(rosters)), users) <==>
      u.id in users && users[u.id] == u && AssignedTo(rosters, u.id)
  {
    var ids := Dedup(RosterStaffIds(rosters));
    forall u: User | u.id in users && users[u.id] == u && AssignedTo(rosters, u.id)
      ensures u in UsersWithIds(ids, users)
    {
      assert u.id in ids;
      var j :| 0 <= j < |ids| && ids[j] == u.id;
    }
    forall u: User | u in UsersWithIds(ids, users)
      ensures u.id in users && users[u.id] == u && AssignedTo(rosters, u.id)
    {
      var j :| 0 <= j < |ids| && ids[j] in users && users[ids[j]] == u;
      assert users[ids[j]].id == ids[j];
      assert u.id == ids[j] && ids[j] in RosterStaffIds(rosters);
    }
  }

  /**
   * The SQL condition of `shift_has_conflict?` for one other row: same staff,
   * same weekday, another id, and `start_time < shift.end AND end_time > shift.start`.
   * The condition is symmetric, never holds of a row and itself, and for shifts
   * that end after they start means the two time ranges share an instant.
   */
  function ConflictsWith(shift: WeeklyShift, other: WeeklyShift): (conflict: bool)
    ensures conflict <==> (shift.assignedStaff == other.assignedStaff && shift.day == other.day && shift.id != other.id
                           && shift.start < other.end && shift.end > other.start)
    ensures conflict ==> other != shift
    ensures shift.start < shift.end && other.start < other.end ==>
      (conflict <==> (other.assignedStaff == shift.assignedStaff && other.day == shift.day && other.id != shift.id
                      && (if shift.start < other.start then other.start else shift.start)
                         < (if shift.end < other.end then shift.end else other.end)))
  {
    other.assignedStaff == shift.assignedStaff && other.day == shift.day && other.id != shift.id
    && other.start < shift.end && other.end > shift.start
  }

  /** `shift_has_conflict?` against the whole weekly_shifts table, whatever roster a row belongs to. */
  function ShiftHasConflict(shift: WeeklyShift, table: seq<WeeklyShift>): (r: bool)
    ensures r <==> shift.assignedStaff.Some? && exists k :: 0 <= k < |table| && ConflictsWith(shift, table[k])
  {
    shift.assignedStaff.Some? && AnyConflict(shift, table)
  }

  function AnyConflict(shift: WeeklyShift, table: seq<WeeklyShift>): (r: bool)
    ensures r <==> exists k :: 0 <= k < |table| && ConflictsWith(shift, table[k])
  {
    if table == [] then false
    else
      assert forall k :: 1 <= k < |table| ==> table[k] == table[1..][k - 1];
      ConflictsWith(shift, table[0]) || AnyConflict(shift, table[1..])
  }

  /** An unassigned shift never conflicts. */
  lemma UnassignedNeverConflicts(shift: WeeklyShift, table: seq<WeeklyShift>)
    requires shift.assignedStaff.None?
    ensures !ShiftHasConflict(shift, table)
  {
  }

  /** Conflict is mutual: when one stored shift conflicts with another, both are flagged. */
  lemma ConflictIsMutual(s: WeeklyShift, o: WeeklyShift, table: seq<WeeklyShift>)
    requires s in table && o in table
    requires s.assignedStaff.Some? && ConflictsWith(s, o)
    ensures ShiftHasConflict(s, table) && ShiftHasConflict(o, table)
  {
    var k :| 0 <= k < |table| && table[k] == o;
    var m :| 0 <= m < |table| && table[m] == s;
    assert ConflictsWith(o, table[m]);
  }

  /** A shift that starts when another ends (or ends when it starts) is not a conflict. */
  lemma AdjacentShiftsDoNotConflict(s: WeeklyShift, o: WeeklyShift)
    requires o.start == s.end || o.end == s.start
    requires s.start < s.end && o.start < o.end
    ensures !ConflictsWith(s, o)
  {
  }

  /** Two overlapping shifts of one staff member in two different rosters still conflict. */
  lemma ConflictAcrossRosters()
    ensures ShiftHasConflict(
      WeeklyShift(1, 10, 1, BaseShifts.Morning, 9 * 3600, 17 * 3600, Some(7)),
      [WeeklyShift(1, 10, 1, BaseShifts.Morning, 9 * 3600, 17 * 3600, Some(7)),
       WeeklyShift(2, 20, 1, BaseShifts.Afternoon, 12 * 3600, 15 * 3600, Some(7))])
  {
    var t := [WeeklyShift(1, 10, 1, BaseShifts.Morning, 9 * 3600, 17 * 3600, Some(7)),
              WeeklyShift(2, 20, 1, BaseShifts.Afternoon, 12 * 3600, 15 * 3600, Some(7))];
    assert ConflictsWith(t[0], t[1]);
  }
}
