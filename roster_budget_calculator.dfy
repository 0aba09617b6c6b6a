// app/services/roster_budget_calculator.rb: the sales forecast, wage budget
// and wage cost of a base roster template, per day (Monday first) and per
// work section, and the sales-vs-wages figures shown on the roster page.

module RosterBudgets {
  import opened Wrappers
  import opened Calendar
  import opened Money
  import opened Users
  import opened Collections
  import opened BaseShifts
  import opened BaseRosters

  const DEFAULT_HOURLY_RATE := 25.0
  const DEFAULT_WAGE_PERCENTAGE_GOAL := 14.0
  const WEEKS_PER_YEAR := 52.0
  const DAYS_PER_WEEK := 7.0

  /** The calculator: the template, its owner, and the rate chosen at construction. */
  datatype RosterBudgetCalculator = RosterBudgetCalculator(roster: BaseRoster, user: User, hourlyRate: real)

  /** One entry of the daily breakdown. */
  datatype DayData = DayData(day: string, shiftsCount: nat, hours: real, cost: real, budget: real, variance: real)

  /** One entry of the section breakdown. */
  datatype SectionData = SectionData(name: string, hours: real, cost: real)

  /** The hash `calculate` returns. */
  datatype Budget = Budget(
    salesForecast: real,
    targetPercentage: real,
    totalBudget: real,
    totalActual: real,
    totalVariance: real,
    averageHourlyRate: real,
    dailyBreakdown: seq<DayData>,
    sectionBreakdown: seq<SectionData>,
    isCustomized: bool)

  datatype BudgetStatus = Customized | Baseline

  /** The hash `sales_and_wages_display` returns. */
  datatype SalesAndWages = SalesAndWages(status: BudgetStatus, sales: real, wages: real, percentage: real, isCustomized: bool)

  /**
   * The rate of `initialize`: the roster's estimate, else the owner's rate,
   * else 25.0. A stored rate of 0.0 is kept, since 0.0 is not nil.
   */
  function HourlyRate(roster: BaseRoster, user: User): (rate: real)
    ensures roster.estimatedHourlyRate.Some? ==> rate == roster.estimatedHourlyRate.value
    ensures roster.estimatedHourlyRate.None? && user.hourlyRate.Some? ==> rate == user.hourlyRate.value
    ensures roster.estimatedHourlyRate.None? && user.hourlyRate.None? ==> rate == DEFAULT_HOURLY_RATE
  {
    roster.estimatedHourlyRate.GetOr(user.hourlyRate.GetOr(DEFAULT_HOURLY_RATE))
  }

  /** `initialize`; `user` is the roster's owner. */
  function New(roster: Option<BaseRoster>, user: User): (r: Result<RosterBudgetCalculator, string>)
    ensures roster.None? <==> r == Failure("BaseRoster is required")
    ensures roster.Some? ==> r == Success(RosterBudgetCalculator(roster.value, user, HourlyRate(roster.value, user)))
  {
    if roster.None? then Failure("BaseRoster is required")
    else Success(RosterBudgetCalculator(roster.value, user, HourlyRate(roster.value, user)))
  }

  /**
   * `get_sales_amount`: a positive weekly forecast, else the owner's yearly
   * sales over 52 weeks to the cent, else 0.
   */
  function SalesAmount(roster: BaseRoster, user: User): (sales: real)
    ensures roster.weeklySalesForecast.Some? && roster.weeklySalesForecast.value > 0.0 ==>
      sales == roster.weeklySalesForecast.value
    ensures !(roster.weeklySalesForecast.Some? && roster.weeklySalesForecast.value > 0.0) && user.yearlySales.Some? ==>
      -0.005 <= sales - user.yearlySales.value / WEEKS_PER_YEAR <= 0.005
    ensures !(roster.weeklySalesForecast.Some? && roster.weeklySalesForecast.value > 0.0) && user.yearlySales.Some? ==>
      sales == Round2(user.yearlySales.value / WEEKS_PER_YEAR) && (sales * 100.0).Floor as real == sales * 100.0
    ensures !(roster.weeklySalesForecast.Some? && roster.weeklySalesForecast.value > 0.0) && user.yearlySales.None? ==>
      sales == 0.0
    ensures (user.yearlySales.Some? ==> user.yearlySales.value >= 0.0) ==> sales >= 0.0
  {
    if roster.weeklySalesForecast.Some? && roster.weeklySalesForecast.value > 0.0 then roster.weeklySalesForecast.value
    else if user.yearlySales.Some? then Round2(user.yearlySales.value / WEEKS_PER_YEAR)
    else 0.0
  }

  /**
   * The hours of one template shift: end minus start, a day added when
   * negative. That is the clock distance from start forward to end.
   */
  function ShiftHours(s: BaseShift): (h: real)
    ensures 0.0 <= h < 24.0
    ensures h * 3600.0 == ((s.end - s.start) % SECONDS_PER_DAY) as real
  {
    var duration := s.end - s.start;
    var wrapped := if duration < 0 then duration + SECONDS_PER_DAY else duration;
    wrapped as real / 3600.0
  }

  /** A template that passes validation ends after it starts, so the overnight correction never applies to it. */
  lemma ValidTemplateHours(s: BaseShift)
    requires s.start < s.end
    ensures ShiftHours(s) * 3600.0 == (s.end - s.start) as real
  {
  }

  /** `shifts.sum { hours }` */
  function HoursOf(shifts: seq<BaseShift>): (h: real)
    ensures 0.0 <= h <= 24.0 * |shifts| as real
  {
    if shifts == [] then 0.0 else HoursOf(shifts[..|shifts| - 1]) + ShiftHours(shifts[|shifts| - 1])
  }

  lemma HoursSnoc(shifts: seq<BaseShift>, s: BaseShift)
    ensures HoursOf(shifts + [s]) == HoursOf(shifts) + ShiftHours(s)
  {
    assert (shifts + [s])[..|shifts|] == shifts;
  }

  /** `group_by(&:day_of_week)[day]`: the shifts of one weekday, in template order. */
  function DayShifts(shifts: seq<BaseShift>, d: Weekday): seq<BaseShift> {
    if shifts == [] then []
    else
      var init, last := shifts[..|shifts| - 1], shifts[|shifts| - 1];
      assert shifts == init + [last];
      DayShifts(init, d) + (if last.day == d then [last] else [])
  }

  /** Appending a shift adds it to its own day and to no other. */
  lemma DayStep(init: seq<BaseShift>, last: BaseShift, d: Weekday)
    ensures |DayShifts(init + [last], d)| == |DayShifts(init, d)| + (if last.day == d then 1 else 0)
    ensures HoursOf(DayShifts(init + [last], d)) == HoursOf(DayShifts(init, d)) + (if last.day == d then ShiftHours(last) else 0.0)
  {
    assert (init + [last])[..|init|] == init;
    if last.day == d {
      assert DayShifts(init + [last], d) == DayShifts(init, d) + [last];
      HoursSnoc(DayShifts(init, d), last);
    } else {
      assert DayShifts(init + [last], d) == DayShifts(init, d) + [];
      assert DayShifts(init, d) + [] == DayShifts(init, d);
    }
  }

  /** The display order of the breakdown: Monday to Saturday, then Sunday. */
  const MONDAY_FIRST: seq<Weekday> := [MONDAY, TUESDAY, WEDNESDAY, THURSDAY, FRIDAY, SATURDAY, SUNDAY]

  /** The shift counts of the seven weekdays added up. */
  function WeekCount(shifts: seq<BaseShift>): int {
    |DayShifts(shifts, MONDAY)| + |DayShifts(shifts, TUESDAY)| + |DayShifts(shifts, WEDNESDAY)|
    + |DayShifts(shifts, THURSDAY)| + |DayShifts(shifts, FRIDAY)| + |DayShifts(shifts, SATURDAY)|
    + |DayShifts(shifts, SUNDAY)|
  }

  /** The hours of the seven weekdays added up. */
  function WeekHours(shifts: seq<BaseShift>): real {
    HoursOf(DayShifts(shifts, MONDAY)) + HoursOf(DayShifts(shifts, TUESDAY)) + HoursOf(DayShifts(shifts, WEDNESDAY))
    + HoursOf(DayShifts(shifts, THURSDAY)) + HoursOf(DayShifts(shifts, FRIDAY)) + HoursOf(DayShifts(shifts, SATURDAY))
    + HoursOf(DayShifts(shifts, SUNDAY))
  }

  /** The days split the template: the day counts add up to the shift count and the day hours to its hours. */
  lemma {:induction false} DaysPartition(shifts: seq<BaseShift>)
    ensures WeekCount(shifts) == |shifts|
    ensures WeekHours(shifts) == HoursOf(shifts)
    decreases |shifts|
  {
    if shifts != [] {
      var init, last := shifts[..|shifts| - 1], shifts[|shifts| - 1];
      assert shifts == init + [last];
      DaysPartition(init);
      HoursSnoc(init, last);
      DayStep(init, last, MONDAY);
      DayStep(init, last, TUESDAY);
      DayStep(init, last, WEDNESDAY);
      DayStep(init, last, THURSDAY);
      DayStep(init, last, FRIDAY);
      DayStep(init, last, SATURDAY);
      DayStep(init, last, SUNDAY);
    }
  }

  /** `(sales * (goal / 100.0) / 7.0).round(2)`: a seventh of a percentage of the sales, to the cent. */
  function EvenDailyShare(sales: real, goal: real): (share: real)
    ensures -0.005 <= share - sales * (goal / 100.0) / DAYS_PER_WEEK <= 0.005
  {
    Round2(sales * (goal / 100.0) / DAYS_PER_WEEK)
  }

  /** The allocation of one day; `to_f` reads a missing key as 0. */
  function Allocation(roster: BaseRoster, dayName: string): real {
    if dayName in roster.dailyBudgetAllocations then roster.dailyBudgetAllocations[dayName] else 0.0
  }

  /**
   * The budget of one day: its manual allocation when nonzero, else a
   * seventh of the owner's wage goal (14 % by default) of the sales.
   */
  function DailyBudget(c: RosterBudgetCalculator, dayName: string): (budget: real)
    ensures Allocation(c.roster, dayName) != 0.0 ==> budget == Allocation(c.roster, dayName)
    ensures Allocation(c.roster, dayName) == 0.0 ==>
      budget == EvenDailyShare(SalesAmount(c.roster, c.user), c.user.wagePercentageGoal.GetOr(DEFAULT_WAGE_PERCENTAGE_GOAL))
  {
    var allocation := Allocation(c.roster, dayName);
    if allocation == 0.0 then
      EvenDailyShare(SalesAmount(c.roster, c.user), c.user.wagePercentageGoal.GetOr(DEFAULT_WAGE_PERCENTAGE_GOAL))
    else allocation
  }

  /** Every day without its own allocation gets the same budget. */
  lemma UnallocatedDaysShareEqually(c: RosterBudgetCalculator, day1: string, day2: string)
    requires Allocation(c.roster, day1) == 0.0 && Allocation(c.roster, day2) == 0.0
    ensures DailyBudget(c, day1) == DailyBudget(c, day2)
  {
  }

  /** `(hours * @hourly_rate).round(2)`: the wage cost of some hours, to the cent. */
  function WageCost(hours: real, rate: real): (cost: real)
    ensures -0.005 <= cost - hours * rate <= 0.005
    ensures (cost * 100.0).Floor as real == cost * 100.0
    ensures hours >= 0.0 && rate >= 0.0 ==> cost >= 0.0
  {
    Round2(hours * rate)
  }

  /** One row of `calculate_daily_data`. */
  function DayRow(c: RosterBudgetCalculator, d: Weekday): (row: DayData)
    ensures row.day == DayName(d) && row.shiftsCount == |DayShifts(c.roster.shifts, d)|
    ensures -0.05 <= row.hours - HoursOf(DayShifts(c.roster.shifts, d)) <= 0.05
    ensures row.hours == Round1(HoursOf(DayShifts(c.roster.shifts, d))) && (row.hours * 10.0).Floor as real == row.hours * 10.0
    ensures (row.cost * 100.0).Floor as real == row.cost * 100.0
    ensures row.cost == WageCost(HoursOf(DayShifts(c.roster.shifts, d)), c.hourlyRate)
    ensures row.budget == DailyBudget(c, DayName(d)) && row.variance == row.budget - row.cost
  {
    var shifts := DayShifts(c.roster.shifts, d);
    var hours := HoursOf(shifts);
    var cost := WageCost(hours, c.hourlyRate);
    var budget := DailyBudget(c, DayName(d));
    DayData(DayName(d), |shifts|, Round1(hours), cost, budget, budget - cost)
  }

  /** One row per listed day, in list order. */
  function DailyRows(c: RosterBudgetCalculator, days: seq<Weekday>): (r: seq<DayData>)
    ensures |r| == |days|
    ensures forall i :: 0 <= i < |days| ==> r[i] == DayRow(c, days[i])
  {
    if days == [] then [] else [DayRow(c, days[0])] + DailyRows(c, days[1..])
  }

  /** `calculate_daily_data`: seven rows, Monday first. */
  function DailyData(c: RosterBudgetCalculator): (r: seq<DayData>)
    ensures |r| == 7
    ensures forall i :: 0 <= i < 7 ==> r[i] == DayRow(c, MONDAY_FIRST[i])
  {
    DailyRows(c, MONDAY_FIRST)
  }

  /** `daily_data.sum { |d| d[:cost] }` */
  function SumCosts(rows: seq<DayData>): real {
    if rows == [] then 0.0 else rows[0].cost + SumCosts(rows[1..])
  }

  function SumCounts(rows: seq<DayData>): int {
    if rows == [] then 0 else rows[0].shiftsCount + SumCounts(rows[1..])
  }

  /** The sum of seven rows, written out. */
  lemma SumOfSeven(r: seq<DayData>)
    requires |r| == 7
    ensures SumCosts(r) == r[0].cost + r[1].cost + r[2].cost + r[3].cost + r[4].cost + r[5].cost + r[6].cost
    ensures SumCounts(r) == r[0].shiftsCount + r[1].shiftsCount + r[2].shiftsCount + r[3].shiftsCount
      + r[4].shiftsCount + r[5].shiftsCount + r[6].shiftsCount
  {
    forall k | 0 <= k < 7
      ensures SumCosts(r[k..]) == r[k].cost + SumCosts(r[k + 1..])
      ensures SumCounts(r[k..]) == r[k].shiftsCount + SumCounts(r[k + 1..])
    {
      assert r[k..][1..] == r[k + 1..];
    }
    assert r[7..] == [] && r[0..] == r;
  }

  /** The breakdown lists the days Monday to Sunday under their enum names. */
  lemma DailyOrder(c: RosterBudgetCalculator)
    ensures |DailyData(c)| == 7
    ensures DailyData(c)[0].day == "monday" && DailyData(c)[5].day == "saturday" && DailyData(c)[6].day == "sunday"
    ensures forall i :: 0 <= i < 7 ==> DailyData(c)[i].day == DayName(MONDAY_FIRST[i])
  {
  }

  /** Every template shift is counted in exactly one day of the breakdown. */
  lemma DailyCountsCoverTemplate(c: RosterBudgetCalculator)
    ensures SumCounts(DailyData(c)) == |c.roster.shifts|
  {
    SumOfSeven(DailyData(c));
    DaysPartition(c.roster.shifts);
  }

  /** The hours of the breakdown's days, Monday first. */
  function DayHoursList(shifts: seq<BaseShift>): (h: seq<real>)
    ensures |h| == 7
    ensures forall i :: 0 <= i < 7 ==> h[i] == HoursOf(DayShifts(shifts, MONDAY_FIRST[i]))
  {
    [HoursOf(DayShifts(shifts, MONDAY)), HoursOf(DayShifts(shifts, TUESDAY)), HoursOf(DayShifts(shifts, WEDNESDAY)),
     HoursOf(DayShifts(shifts, THURSDAY)), HoursOf(DayShifts(shifts, FRIDAY)), HoursOf(DayShifts(shifts, SATURDAY)),
     HoursOf(DayShifts(shifts, SUNDAY))]
  }

  function SumReals(xs: seq<real>): real {
    if xs == [] then 0.0 else xs[0] + SumReals(xs[1..])
  }

  /** The sum of seven numbers, written out. */
  lemma SumRealsOfSeven(h: seq<real>)
    requires |h| == 7
    ensures SumReals(h) == h[0] + h[1] + h[2] + h[3] + h[4] + h[5] + h[6]
  {
    forall k | 0 <= k < 7 ensures SumReals(h[k..]) == h[k] + SumReals(h[k + 1..]) {
      assert h[k..][1..] == h[k + 1..];
    }
    assert h[7..] == [] && h[0..] == h;
  }

  /** Every element multiplied by `k`. */
  function Scaled(xs: seq<real>, k: real): (r: seq<real>)
    ensures |r| == |xs|
    ensures forall i :: 0 <= i < |xs| ==> r[i] == xs[i] * k
  {
    if xs == [] then [] else [xs[0] * k] + Scaled(xs[1..], k)
  }

  /** Multiplying each element by `k` multiplies the sum by `k`. */
  lemma {:induction false} SumScaled(xs: seq<real>, k: real)
    ensures SumReals(Scaled(xs, k)) == SumReals(xs) * k
  {
    if xs != [] {
      SumScaled(xs[1..], k);
      assert Scaled(xs, k)[1..] == Scaled(xs[1..], k);
      assert SumReals(xs) * k == xs[0] * k + SumReals(xs[1..]) * k;
    }
  }

  /** Costs each within half a cent of an exact amount stay within half a cent per row of the exact total. */
  lemma {:induction false} RoundedCostsNear(rows: seq<DayData>, exact: seq<real>)
    requires |rows| == |exact|
    requires forall i :: 0 <= i < |rows| ==> -0.005 <= rows[i].cost - exact[i] <= 0.005
    ensures -0.005 * |rows| as real <= SumCosts(rows) - SumReals(exact) <= 0.005 * |rows| as real
    decreases |rows|
  {
    if rows != [] {
      assert forall i :: 0 <= i < |rows| - 1 ==> rows[1..][i] == rows[i + 1] && exact[1..][i] == exact[i + 1];
      RoundedCostsNear(rows[1..], exact[1..]);
    }
  }

  /** The day hours add up to the template's hours. */
  lemma DayHoursCoverTemplate(shifts: seq<BaseShift>)
    ensures SumReals(DayHoursList(shifts)) == HoursOf(shifts)
  {
    var h := DayHoursList(shifts);
    DaysPartition(shifts);
    SumRealsOfSeven(h);
  }

  /** Costs each rounded from hours at one rate stay within half a cent per row of the total hours at that rate. */
  lemma CostsAtRateNear(rows: seq<DayData>, hours: seq<real>, rate: real)
    requires |rows| == |hours|
    requires forall i :: 0 <= i < |rows| ==> rows[i].cost == WageCost(hours[i], rate)
    ensures -0.005 * |rows| as real <= SumCosts(rows) - SumReals(hours) * rate <= 0.005 * |rows| as real
  {
    RoundedCostsNear(rows, Scaled(hours, rate));
    SumScaled(hours, rate);
  }

  /**
   * Each day's cost is rounded separately, so the week's wages stay within
   * seven half cents of the day hours at the rate (and `DayHoursCoverTemplate`
   * makes the day hours the template's hours).
   */
  lemma WeekCostsNear(roster: BaseRoster, user: User, rate: real)
    ensures -0.035 <= SumCosts(DailyData(RosterBudgetCalculator(roster, user, rate))) - SumReals(DayHoursList(roster.shifts)) * rate <= 0.035
  {
    DayCostsAreWageCosts(RosterBudgetCalculator(roster, user, rate));
    CostsAtRateNear(DailyData(RosterBudgetCalculator(roster, user, rate)), DayHoursList(roster.shifts), rate);
  }

  /** Each day's cost is the wage cost of that day's hours. */
  lemma DayCostsAreWageCosts(c: RosterBudgetCalculator)
    ensures forall i :: 0 <= i < 7 ==> DailyData(c)[i].cost == WageCost(DayHoursList(c.roster.shifts)[i], c.hourlyRate)
  {
  }

  /** The section a shift is grouped under: its work section's name, else its titleized shift type. */
  function SectionKey(s: BaseShift): (k: string)
    ensures s.section.Some? ==> k == s.section.value
    ensures s.section.None? ==> k == ShiftTypeTitle(s.shiftType)
  {
    s.section.GetOr(ShiftTypeTitle(s.shiftType))
  }

  function KeysOf(shifts: seq<BaseShift>): (r: seq<string>)
    ensures |r| == |shifts|
    ensures forall i :: 0 <= i < |shifts| ==> r[i] == SectionKey(shifts[i])
  {
    if shifts == [] then []
    else
      var init := shifts[..|shifts| - 1];
      assert forall i :: 0 <= i < |init| ==> shifts[i] == init[i];
      KeysOf(init) + [SectionKey(shifts[|shifts| - 1])]
  }

  /** The shifts of one section, in template order. */
  function SectionShifts(shifts: seq<BaseShift>, k: string): (r: seq<BaseShift>)
    ensures forall s :: s in r <==> s in shifts && SectionKey(s) == k
  {
    if shifts == [] then []
    else
      var init, last := shifts[..|shifts| - 1], shifts[|shifts| - 1];
      assert shifts == init + [last];
      SectionShifts(init, k) + (if SectionKey(last) == k then [last] else [])
  }

  /** The row of one section: its name, its hours to a tenth, its cost to the cent. */
  function SectionRow(c: RosterBudgetCalculator, k: string): (row: SectionData)
    ensures row.name == k
    ensures -0.05 <= row.hours - HoursOf(SectionShifts(c.roster.shifts, k)) <= 0.05
    ensures row.hours == Round1(HoursOf(SectionShifts(c.roster.shifts, k))) && (row.hours * 10.0).Floor as real == row.hours * 10.0
    ensures (row.cost * 100.0).Floor as real == row.cost * 100.0
    ensures row.cost == WageCost(HoursOf(SectionShifts(c.roster.shifts, k)), c.hourlyRate)
  {
    var hours := HoursOf(SectionShifts(c.roster.shifts, k));
    SectionData(k, Round1(hours), WageCost(hours, c.hourlyRate))
  }

  function SectionRows(c: RosterBudgetCalculator, keys: seq<string>): (r: seq<SectionData>)
    ensures |r| == |keys|
    ensures forall i :: 0 <= i < |keys| ==> r[i] == SectionRow(c, keys[i])
  {
    if keys == [] then []
    else
      var init := keys[..|keys| - 1];
      assert forall i :: 0 <= i < |init| ==> keys[i] == init[i];
      SectionRows(c, init) + [SectionRow(c, keys[|keys| - 1])]
  }

  /**
   * `calculate_section_breakdown`: one row per section key in the order the
   * keys first appear, each with that section's hours to a tenth and their
   * wage cost.
   */
  function SectionBreakdown(c: RosterBudgetCalculator): (rows: seq<SectionData>)
    ensures |rows| == |Dedup(KeysOf(c.roster.shifts))|
    ensures forall i :: 0 <= i < |rows| ==> rows[i].name == Dedup(KeysOf(c.roster.shifts))[i]
    ensures forall i :: 0 <= i < |rows| ==>
      -0.05 <= rows[i].hours - HoursOf(SectionShifts(c.roster.shifts, rows[i].name)) <= 0.05
      && rows[i].cost == WageCost(HoursOf(SectionShifts(c.roster.shifts, rows[i].name)), c.hourlyRate)
  {
    SectionRows(c, Dedup(KeysOf(c.roster.shifts)))
  }

  /** Each key is kept once, and exactly the keys of some shift are kept. */
  lemma KeysListedOnce(shifts: seq<BaseShift>)
    ensures forall i, j :: 0 <= i < j < |Dedup(KeysOf(shifts))| ==> Dedup(KeysOf(shifts))[i] != Dedup(KeysOf(shifts))[j]
    ensures forall s :: s in shifts ==> SectionKey(s) in Dedup(KeysOf(shifts))
    ensures forall k :: k in Dedup(KeysOf(shifts)) ==> exists s :: s in shifts && SectionKey(s) == k
  {
    var keys := Dedup(KeysOf(shifts));
    forall s | s in shifts ensures SectionKey(s) in keys {
      var m :| 0 <= m < |shifts| && shifts[m] == s;
      assert KeysOf(shifts)[m] in keys;
    }
    forall k | k in keys ensures exists s :: s in shifts && SectionKey(s) == k {
      var m :| 0 <= m < |shifts| && KeysOf(shifts)[m] == k;
      assert shifts[m] in shifts;
    }
  }

  /** No section is listed twice. */
  lemma SectionsListedOnce(c: RosterBudgetCalculator)
    ensures forall i, j :: 0 <= i < j < |SectionBreakdown(c)| ==> SectionBreakdown(c)[i].name != SectionBreakdown(c)[j].name
  {
    KeysListedOnce(c.roster.shifts);
  }

  /** Every shift's section is listed. */
  lemma EverySectionListed(c: RosterBudgetCalculator, s: BaseShift)
    requires s in c.roster.shifts
    ensures exists i :: 0 <= i < |SectionBreakdown(c)| && SectionBreakdown(c)[i].name == SectionKey(s)
  {
    var keys := Dedup(KeysOf(c.roster.shifts));
    KeysListedOnce(c.roster.shifts);
    var i :| 0 <= i < |keys| && keys[i] == SectionKey(s);
    assert SectionBreakdown(c)[i].name == SectionKey(s);
  }

  /** Every listed section is the section of some shift. */
  lemma OnlyUsedSectionsListed(c: RosterBudgetCalculator, i: nat)
    requires i < |SectionBreakdown(c)|
    ensures exists s :: s in c.roster.shifts && SectionKey(s) == SectionBreakdown(c)[i].name
  {
    var keys := Dedup(KeysOf(c.roster.shifts));
    KeysListedOnce(c.roster.shifts);
    assert keys[i] in keys;
  }

  /** `(sales * (percentage / 100.0)).round(2)`: a percentage of the sales, to the cent. */
  function ShareOfSales(sales: real, percentage: real): (budget: real)
    ensures -0.005 <= budget - sales * (percentage / 100.0) <= 0.005
  {
    Round2(sales * (percentage / 100.0))
  }

  /** `((wages / sales) * 100).round(2)`: wages as a percentage of positive sales, to a hundredth. */
  function WagePercentage(wages: real, sales: real): (percentage: real)
    requires sales > 0.0
    ensures -0.005 <= percentage - wages / sales * 100.0 <= 0.005
    ensures wages >= 0.0 ==> percentage >= 0.0
  {
    Round2(wages / sales * 100.0)
  }

  /** `calculate`, with the roster's `wage_percentage` as an input. */
  function Calculate(c: RosterBudgetCalculator, wagePercentage: real): (b: Budget)
    ensures b.salesForecast == SalesAmount(c.roster, c.user) && b.targetPercentage == wagePercentage
    ensures b.totalBudget == ShareOfSales(b.salesForecast, wagePercentage)
    ensures b.dailyBreakdown == DailyData(c) && b.sectionBreakdown == SectionBreakdown(c)
    ensures b.totalActual == SumCosts(b.dailyBreakdown)
    ensures b.totalVariance == b.totalBudget - b.totalActual
    ensures b.averageHourlyRate == c.hourlyRate
    ensures b.isCustomized <==> c.roster.weeklySalesForecast.Some?
  {
    var sales := SalesAmount(c.roster, c.user);
    var totalBudget := ShareOfSales(sales, wagePercentage);
    var daily := DailyData(c);
    var totalWages := SumCosts(daily);
    Budget(sales, wagePercentage, totalBudget, totalWages, totalBudget - totalWages, c.hourlyRate,
           daily, SectionBreakdown(c), c.roster.weeklySalesForecast.Some?)
  }

  /** `sales_and_wages_display`: wages as a percentage of sales, 0 when sales are not positive. */
  function SalesAndWagesDisplay(c: RosterBudgetCalculator, wagePercentage: real): (d: SalesAndWages)
    ensures d.status == Customized <==> c.roster.weeklySalesForecast.Some?
    ensures d.isCustomized <==> d.status == Customized
    ensures d.sales == SalesAmount(c.roster, c.user) && d.wages == SumCosts(DailyData(c))
    ensures d.sales > 0.0 ==> d.percentage == WagePercentage(d.wages, d.sales)
    ensures d.sales <= 0.0 ==> d.percentage == 0.0
  {
    var data := Calculate(c, wagePercentage);
    SalesAndWages(
      if data.isCustomized then Customized else Baseline,
      data.salesForecast,
      data.totalActual,
      if data.salesForecast > 0.0 then WagePercentage(data.totalActual, data.salesForecast) else 0.0,
      data.isCustomized)
  }

  /**
   * A forecast of 0 does not override the sales figure, yet the display still
   * says "customized", because a stored 0 is present.
   */
  lemma ZeroForecastStillCustomized(c: RosterBudgetCalculator, wagePercentage: real)
    requires c.roster.weeklySalesForecast == Some(0.0) && c.user.yearlySales.Some?
    ensures SalesAndWagesDisplay(c, wagePercentage).status == Customized
    ensures -0.005 <= SalesAndWagesDisplay(c, wagePercentage).sales - c.user.yearlySales.value / WEEKS_PER_YEAR <= 0.005
  {
  }

  // A five-hour Sunday shift (09:00 to 14:00) at the default rate, no forecast.
  const OWNER := User(1, "owner", "owner@example.com", Manager, None, None, None)
  const SUNDAY_SHIFT := BaseShift(1, 1, SUNDAY, Morning, 9 * 3600, 14 * 3600, None)
  const TEMPLATE := BaseRoster(1, 1, "Week", 0, 6, Weekly, None, map[], None, [SUNDAY_SHIFT])

  /** A one-shift template puts its shift on its own day and leaves every other day empty. */
  lemma OneShiftDays(s: BaseShift, d: Weekday)
    ensures HoursOf(DayShifts([s], d)) == if s.day == d then ShiftHours(s) else 0.0
    ensures |DayShifts([s], d)| == if s.day == d then 1 else 0
  {
    assert [s][..0] == [];
    assert HoursOf([s]) == HoursOf([]) + ShiftHours(s);
  }

  /** Each day of the example costs its hours at 25.0: 125.0 on Sunday, nothing on the other days. */
  lemma FiveHourSundayDay(d: Weekday)
    ensures DayRow(RosterBudgetCalculator(TEMPLATE, OWNER, 25.0), d).cost == if d == SUNDAY then 125.0 else 0.0
  {
    OneShiftDays(SUNDAY_SHIFT, d);
    assert ShiftHours(SUNDAY_SHIFT) == 5.0;
    var h := HoursOf(DayShifts(TEMPLATE.shifts, d));
    assert h * 25.0 == if d == SUNDAY then 125 as real else 0 as real;
    Round2Whole(0);
    Round2Whole(125);
  }

  /** The example's week costs 125.0 in wages. */
  lemma FiveHourSundayWages()
    ensures SumCosts(DailyData(RosterBudgetCalculator(TEMPLATE, OWNER, 25.0))) == 125.0
  {
    var daily := DailyData(RosterBudgetCalculator(TEMPLATE, OWNER, 25.0));
    SumOfSeven(daily);
    FiveHourSundayDay(MONDAY);
    FiveHourSundayDay(TUESDAY);
    FiveHourSundayDay(WEDNESDAY);
    FiveHourSundayDay(THURSDAY);
    FiveHourSundayDay(FRIDAY);
    FiveHourSundayDay(SATURDAY);
    FiveHourSundayDay(SUNDAY);
  }

  /** The example at the default rate shows 125.0 in wages and a baseline status. */
  lemma FiveHourSunday()
    ensures New(Some(TEMPLATE), OWNER).Success?
    ensures New(Some(TEMPLATE), OWNER).value.hourlyRate == 25.0
    ensures SalesAndWagesDisplay(New(Some(TEMPLATE), OWNER).value, 14.0).wages == 125.0
    ensures SalesAndWagesDisplay(New(Some(TEMPLATE), OWNER).value, 14.0).status == Baseline
  {
    assert New(Some(TEMPLATE), OWNER).value == RosterBudgetCalculator(TEMPLATE, OWNER, 25.0);
    FiveHourSundayWages();
  }
}
