// app/services/roster_cost_calculator.rb: the wage cost of a roster, shift by
// shift at the roster owner's hourly rate, with no overnight correction.

module RosterCosts {
  import opened Wrappers
  import opened Calendar
  import opened Users
  import opened BaseShifts
  import opened WeeklyRosters
  import opened WeeklyRosterGeneration

  /**
   * What the calculator is given: a dated roster (which answers
   * `weekly_shifts`) or a template (which only has `base_shifts`), with the
   * user it belongs to.
   */
  datatype CostedRoster =
    | WeeklyCosted(owner: Option<User>, weeklyShifts: seq<WeeklyShift>)
    | BaseCosted(owner: Option<User>, baseShifts: seq<BaseShift>)

  datatype RosterCostCalculator = RosterCostCalculator(roster: CostedRoster, user: Option<User>)

  const ROSTER_REQUIRED := "Roster is required"

  /** `initialize(roster:)`: raises without a roster; the user is the roster's. */
  function New(roster: Option<CostedRoster>): (r: Result<RosterCostCalculator, string>)
    ensures r.Failure? <==> roster.None?
    ensures r.Failure? ==> r.error == ROSTER_REQUIRED
    ensures r.Success? ==> r.value.roster == roster.value && r.value.user == roster.value.owner
  {
    if roster.None? then Failure(ROSTER_REQUIRED)
    else Success(RosterCostCalculator(roster.value, roster.value.owner))
  }

  /**
   * `end_time - start_time` of each shift the calculator sums, in seconds:
   * the weekly shifts of a dated roster, else the template's base shifts.
   */
  function ShiftSeconds(roster: CostedRoster): (secs: seq<int>)
    ensures roster.WeeklyCosted? ==> |secs| == |roster.weeklyShifts|
    ensures roster.WeeklyCosted? ==>
      forall i :: 0 <= i < |secs| ==> secs[i] == roster.weeklyShifts[i].end - roster.weeklyShifts[i].start
    ensures roster.BaseCosted? ==> |secs| == |roster.baseShifts|
    ensures roster.BaseCosted? ==>
      forall i :: 0 <= i < |secs| ==> secs[i] == roster.baseShifts[i].end - roster.baseShifts[i].start
  {
    match roster
    case WeeklyCosted(_, ws) => seq(|ws|, i requires 0 <= i < |ws| => ws[i].end - ws[i].start)
    case BaseCosted(_, bs) => seq(|bs|, i requires 0 <= i < |bs| => bs[i].end - bs[i].start)
  }

  /** The hourly rate the calculator charges, when there is one. */
  function RateOf(user: Option<User>): (rate: Option<real>)
    ensures rate.Some? <==> user.Some? && user.value.hourlyRate.Some?
    ensures rate.Some? ==> rate.value == user.value.hourlyRate.value
  {
    if user.Some? then user.value.hourlyRate else None
  }

  /**
   * `calculate_shift_cost`: nothing without a user or a rate; otherwise the
   * span in hours times the rate, whatever its sign.
   */
  function ShiftCost(rate: Option<real>, seconds: int): (cost: real)
    ensures rate.None? ==> cost == 0.0
    ensures rate.Some? ==> cost * 3600.0 == seconds as real * rate.value
    ensures rate.Some? && rate.value >= 0.0 && seconds >= 0 ==> cost >= 0.0
  {
    if rate.None? then 0.0 else (seconds as real / 3600.0) * rate.value
  }

  /** `shifts.sum { |shift| calculate_shift_cost(shift) }` */
  function CostSum(rate: Option<real>, secs: seq<int>): real {
    if secs == [] then 0.0 else ShiftCost(rate, secs[0]) + CostSum(rate, secs[1..])
  }

  /**
   * `calculate_total_cost`: nothing when the roster's owner is missing or has
   * no hourly rate; otherwise the shifts' hours, added up, at the owner's rate.
   */
  function TotalCost(c: RosterCostCalculator): (total: real)
    ensures c.user.None? || c.user.value.hourlyRate.None? ==> total == 0.0
    ensures c.user.Some? && c.user.value.hourlyRate.Some? ==>
      total == (SumSeconds(ShiftSeconds(c.roster)) as real / 3600.0) * c.user.value.hourlyRate.value
  {
    var rate, secs := RateOf(c.user), ShiftSeconds(c.roster);
    if rate.None? then
      CostSumWithoutRate(secs);
      CostSum(rate, secs)
    else
      CostSumAtRate(rate.value, secs);
      CostSum(rate, secs)
  }

  /** The seconds of all shifts, added up. */
  function SumSeconds(secs: seq<int>): int {
    if secs == [] then 0 else secs[0] + SumSeconds(secs[1..])
  }

  /** Without a rate every shift costs nothing. */
  lemma {:induction false} CostSumWithoutRate(secs: seq<int>)
    ensures CostSum(None, secs) == 0.0
  {
    if secs != [] {
      CostSumWithoutRate(secs[1..]);
    }
  }

  /** With a rate the sum of shift costs is the total span in hours at that rate. */
  lemma {:induction false} CostSumAtRate(rate: real, secs: seq<int>)
    ensures CostSum(Some(rate), secs) == (SumSeconds(secs) as real / 3600.0) * rate
  {
    if secs != [] {
      CostSumAtRate(rate, secs[1..]);
      var h0, hs := secs[0] as real / 3600.0, SumSeconds(secs[1..]) as real / 3600.0;
      assert SumSeconds(secs) as real / 3600.0 == h0 + hs;
      assert (h0 + hs) * rate == h0 * rate + hs * rate;
    }
  }

  /** A roster with no shifts costs nothing. */
  lemma NoShiftsNoCost(c: RosterCostCalculator)
    requires ShiftSeconds(c.roster) == []
    ensures TotalCost(c) == 0.0
  {
  }

  /**
   * There is no overnight correction: a dated shift whose end lies before its
   * start (as generation produces for an overnight template) has a negative
   * cost at a positive rate.
   */
  lemma OvernightShiftCostsNegative(owner: User, s: WeeklyShift)
    requires owner.hourlyRate.Some? && owner.hourlyRate.value > 0.0
    requires s.end < s.start
    ensures TotalCost(RosterCostCalculator(WeeklyCosted(Some(owner), [s]), Some(owner))) < 0.0
  {
    var c := RosterCostCalculator(WeeklyCosted(Some(owner), [s]), Some(owner));
    assert SumSeconds(ShiftSeconds(c.roster)) == s.end - s.start;
    var h := (s.end - s.start) as real / 3600.0;
    assert h < 0.0;
  }

  /** Generating dated shifts from a template keeps each span, so the cost at one rate is the template's. */
  lemma GeneratedRosterCostsAsTemplate(owner: Option<User>, firstId: int, rosterId: int, weekStart: Date, templates: seq<BaseShift>)
    ensures TotalCost(RosterCostCalculator(WeeklyCosted(owner, GeneratedShifts(firstId, rosterId, weekStart, templates)), owner))
      == TotalCost(RosterCostCalculator(BaseCosted(owner, templates), owner))
  {
    GeneratedSeconds(owner, firstId, rosterId, weekStart, templates);
  }

  lemma GeneratedSeconds(owner: Option<User>, firstId: int, rosterId: int, weekStart: Date, templates: seq<BaseShift>)
    ensures ShiftSeconds(WeeklyCosted(owner, GeneratedShifts(firstId, rosterId, weekStart, templates)))
      == ShiftSeconds(BaseCosted(owner, templates))
  {
    var ws := GeneratedShifts(firstId, rosterId, weekStart, templates);
    forall i | 0 <= i < |templates| ensures ws[i].end - ws[i].start == templates[i].end - templates[i].start {
      GeneratedShiftSpan(firstId + i, rosterId, weekStart, templates[i]);
    }
    var a, b := ShiftSeconds(WeeklyCosted(owner, ws)), ShiftSeconds(BaseCosted(owner, templates));
    assert |a| == |b| && forall i :: 0 <= i < |a| ==> a[i] == b[i];
  }

  // Three dated shifts of 8, 4 and 8 hours for an owner paid 25.50 an hour.
  const PAID_OWNER := User(1, "owner", "owner@example.com", Manager, Some(25.5), None, None)
  const EIGHT_HOURS := WeeklyShift(1, 1, MONDAY, Morning, At(4, 9 * 3600), At(4, 17 * 3600), None)
  const FOUR_HOURS := WeeklyShift(2, 1, TUESDAY, Afternoon, At(5, 13 * 3600), At(5, 17 * 3600), None)
  const EIGHT_MORE := WeeklyShift(3, 1, WEDNESDAY, Morning, At(6, 9 * 3600), At(6, 17 * 3600), None)

  /** 8 + 4 + 8 hours at 25.50 cost 510.0. */
  lemma TwentyHoursCost510()
    ensures New(Some(WeeklyCosted(Some(PAID_OWNER), [EIGHT_HOURS, FOUR_HOURS, EIGHT_MORE]))).Success?
    ensures TotalCost(New(Some(WeeklyCosted(Some(PAID_OWNER), [EIGHT_HOURS, FOUR_HOURS, EIGHT_MORE]))).value) == 510.0
  {
    var c := New(Some(WeeklyCosted(Some(PAID_OWNER), [EIGHT_HOURS, FOUR_HOURS, EIGHT_MORE]))).value;
    var secs := ShiftSeconds(c.roster);
    assert secs == [8 * 3600, 4 * 3600, 8 * 3600];
    assert SumSeconds([8 * 3600]) == 8 * 3600;
    assert SumSeconds([4 * 3600, 8 * 3600]) == 12 * 3600;
    assert SumSeconds([8 * 3600, 4 * 3600, 8 * 3600]) == 20 * 3600;
  }
}
