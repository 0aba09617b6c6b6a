// app/controllers/rosters_controller.rb: the calendar's Monday-to-Sunday week
// and its sales-versus-wages percentage (the week's projected sales over the
// week's roster costs).

module RostersController {
  import opened Wrappers
  import opened Calendar
  import opened Money
  import opened Users
  import opened Collections
  import opened SalesForecasts
  import opened RosterCosts

  /** `beginning_of_week(:monday)`: the Monday on or before `today`. */
  function BeginningOfWeek(today: Date): (monday: Date)
    ensures WeekdayOf(monday) == MONDAY
    ensures monday <= today < monday + 7
  {
    today - (WeekdayOf(today) + 6) % 7
  }

  /** The week `calendar` shows: from that Monday to the Sunday six days later. */
  function CalendarWeek(today: Date): (week: (Date, Date))
    ensures week.1 == week.0 + 6 && week.0 <= today <= week.1
    ensures WeekdayOf(week.0) == MONDAY && WeekdayOf(week.1) == SUNDAY
  {
    var start := BeginningOfWeek(today);
    WeekdayAfter(start, 6);
    (start, start + 6)
  }

  /** A forecast row of the current user whose start date lies in the week. */
  predicate InWeek(f: SalesForecastAttrs, user: UserId, start: Date, end: Date) {
    f.userId == Some(user) && f.startDate.Some? && start <= f.startDate.value <= end
  }

  /**
   * `current_user.sales_forecasts.where(start_date: start..end).sum(:projected_sales)`:
   * SQL's SUM skips null amounts and is 0 over no rows.
   */
  function WeekSales(forecasts: seq<SalesForecastAttrs>, user: UserId, start: Date, end: Date): real {
    if forecasts == [] then 0.0
    else
      var f := forecasts[|forecasts| - 1];
      WeekSales(forecasts[..|forecasts| - 1], user, start, end)
      + (if InWeek(f, user, start, end) then f.projectedSales.GetOr(0.0) else 0.0)
  }

  /** Stored forecasts never make the week's sales negative. */
  lemma {:induction false} WeekSalesNonNegative(forecasts: seq<SalesForecastAttrs>, user: UserId, start: Date, end: Date)
    requires forall i :: 0 <= i < |forecasts| ==> Valid(forecasts[i])
    ensures WeekSales(forecasts, user, start, end) >= 0.0
  {
    if forecasts != [] {
      var f := forecasts[|forecasts| - 1];
      WeekSalesNonNegative(forecasts[..|forecasts| - 1], user, start, end);
      ValidIff(f);
    }
  }

  /** Forecasts of other users, or starting outside the week, add nothing. */
  lemma {:induction false} OtherForecastsIgnored(forecasts: seq<SalesForecastAttrs>, user: UserId, start: Date, end: Date)
    requires forall i :: 0 <= i < |forecasts| ==> !InWeek(forecasts[i], user, start, end)
    ensures WeekSales(forecasts, user, start, end) == 0.0
  {
    if forecasts != [] {
      OtherForecastsIgnored(forecasts[..|forecasts| - 1], user, start, end);
    }
  }

  /** Each roster's `RosterCostCalculator` total, roster by roster. */
  function RosterTotals(rosters: seq<CostedRoster>): (totals: seq<real>)
    ensures |totals| == |rosters|
    ensures forall i :: 0 <= i < |rosters| ==>
      totals[i] == TotalCost(RosterCostCalculator(rosters[i], rosters[i].owner))
  {
    seq(|rosters|, i requires 0 <= i < |rosters| => TotalCost(RosterCostCalculator(rosters[i], rosters[i].owner)))
  }

  /**
   * The percentage as written: nil when there are no wages, nil when there
   * are no sales, else sales over wages times 100, to one decimal.
   */
  function SalesVsWages(sales: real, wages: real): (p: Option<real>)
    ensures p.None? <==> wages == 0.0 || sales == 0.0
    ensures p.Some? ==> -0.05 <= p.value - sales / wages * 100.0 <= 0.05
  {
    if wages == 0.0 then None
    else if sales == 0.0 then None
    else Some(Round1(sales / wages * 100.0))
  }

  /**
   * `calculate_sales_vs_wages_percentage`: the week's sales, then a loop adding
   * up the cost of each of the week's rosters, then the guarded ratio.
   */
  method CalculateSalesVsWagesPercentage(forecasts: seq<SalesForecastAttrs>, user: UserId, start: Date, end: Date,
                                         rosters: seq<CostedRoster>)
    returns (p: Option<real>)
    ensures p == SalesVsWages(WeekSales(forecasts, user, start, end), Sum(RosterTotals(rosters)))
  {
    var totalSales := WeekSales(forecasts, user, start, end);
    var totalWages := 0.0;
    var k := 0;
    while k < |rosters|
      invariant 0 <= k <= |rosters|
      invariant totalWages == Sum(RosterTotals(rosters)[..k])
    {
      var calculator := New(Some(rosters[k])).value;
      var cost := TotalCost(calculator);
      TotalsThrough(rosters, k);
      totalWages := totalWages + cost;
      k := k + 1;
    }
    assert RosterTotals(rosters)[..k] == RosterTotals(rosters);
    if totalWages == 0.0 {
      return None;
    }
    if totalSales == 0.0 {
      return None;
    }
    p := Some(Round1(totalSales / totalWages * 100.0));
  }

  /** The running total after roster k is the total before it plus that roster's cost. */
  lemma TotalsThrough(rosters: seq<CostedRoster>, k: nat)
    requires k < |rosters|
    ensures Sum(RosterTotals(rosters)[..k + 1]) == Sum(RosterTotals(rosters)[..k]) + RosterTotals(rosters)[k]
  {
    var totals := RosterTotals(rosters);
    SumSnoc(totals[..k], totals[k]);
    assert totals[..k + 1] == totals[..k] + [totals[k]];
  }

  /** Rosters whose owners have no hourly rate cost nothing, so there is no percentage. */
  lemma {:induction false} UnpaidRostersGiveNoPercentage(sales: real, rosters: seq<CostedRoster>)
    requires forall i :: 0 <= i < |rosters| ==> rosters[i].owner.None? || rosters[i].owner.value.hourlyRate.None?
    ensures Sum(RosterTotals(rosters)) == 0.0
    ensures SalesVsWages(sales, Sum(RosterTotals(rosters))) == None
  {
    if rosters != [] {
      var init := rosters[..|rosters| - 1];
      UnpaidRostersGiveNoPercentage(sales, init);
      assert RosterTotals(rosters)[..|rosters| - 1] == RosterTotals(init);
      assert TotalCost(RosterCostCalculator(rosters[|rosters| - 1], rosters[|rosters| - 1].owner)) == 0.0;
    }
  }

  /**
   * The controller divides sales by wages, the budget display wages by sales:
   * before rounding the two percentages multiply to 100 x 100.
   */
  lemma OppositeRatios(sales: real, wages: real)
    requires sales > 0.0 && wages > 0.0
    ensures (sales / wages * 100.0) * (wages / sales * 100.0) == 10000.0
  {
    assert (sales / wages) * (wages / sales) == 1.0;
  }

  /** Sales of 1000 against wages of 510 give 196.1. */
  lemma ThousandAgainst510()
    ensures SalesVsWages(1000.0, 510.0) == Some(196.1)
  {
    var x := 1000.0 / 510.0 * 100.0;
    assert 1961.0 <= 10.0 * x + 0.5 < 1962.0;
    assert (10.0 * x + 0.5).Floor == 1961;
    assert RoundDigits(10.0 * x, 0, 1.0) == 1961.0;
    assert RoundDigits(x, 1, 10.0) == 196.1;
  }
}
