// app/models/base_roster.rb: the roster template, its week-type enum and its
// validations; the stored row also carries the sales/wage configuration the
// budget calculator reads and the template's shifts.

module BaseRosters {
  import opened Wrappers
  import opened Calendar
  import opened Validation
  import opened Users
  import opened BaseShifts

  /** The `week_type` enum: weekly 0, fortnightly 1. */
  datatype WeekType = Weekly | Fortnightly

  function WeekTypeValue(w: WeekType): (v: int)
    ensures v == 0 || v == 1
  {
    match w
    case Weekly => 0
    case Fortnightly => 1
  }

  function WeekTypeFromValue(v: int): (w: Option<WeekType>)
    ensures w.Some? <==> v == 0 || v == 1
  {
    if v == 0 then Some(Weekly) else if v == 1 then Some(Fortnightly) else None
  }

  lemma WeekTypeRoundTrip(w: WeekType)
    ensures WeekTypeFromValue(WeekTypeValue(w)) == Some(w)
  {
  }

  /**
   * A stored base roster. `dailyBudgetAllocations` is the jsonb column keyed by
   * day name; `shifts` is the `base_shifts` association.
   */
  datatype BaseRoster = BaseRoster(
    id: int,
    userId: UserId,
    name: string,
    startsAt: Date,
    endsAt: Date,
    weekType: WeekType,
    weeklySalesForecast: Option<real>,
    dailyBudgetAllocations: map<string, real>,
    estimatedHourlyRate: Option<real>,
    shifts: seq<BaseShift>)

  /** The attributes of a base roster being saved. */
  datatype BaseRosterAttrs = BaseRosterAttrs(
    userId: Option<UserId>,
    name: Option<string>,
    startsAt: Option<Date>,
    endsAt: Option<Date>,
    weekType: Option<WeekType>)

  const ENDS_BEFORE_START := FieldError("ends_at", "must be after start date")

  /** `end_after_start`: skipped unless both dates are present; equal dates pass. */
  function EndAfterStartErrors(a: BaseRosterAttrs): seq<FieldError> {
    if a.startsAt.Some? && a.endsAt.Some? && a.endsAt.value < a.startsAt.value then [ENDS_BEFORE_START] else []
  }

  function Errors(a: BaseRosterAttrs): seq<FieldError> {
    (if a.userId.None? then [FieldError("user", MUST_EXIST)] else [])
    + (if Blank(a.name) then [FieldError("name", CANT_BE_BLANK)] else [])
    + PresenceError("starts_at", a.startsAt)
    + PresenceError("ends_at", a.endsAt)
    + PresenceError("week_type", a.weekType)
    + EndAfterStartErrors(a)
  }

  predicate Valid(a: BaseRosterAttrs) {
    Errors(a) == []
  }

  lemma ValidIff(a: BaseRosterAttrs)
    ensures Valid(a) <==>
      a.userId.Some? && !Blank(a.name) && a.startsAt.Some? && a.endsAt.Some? && a.weekType.Some?
      && a.startsAt.value <= a.endsAt.value
  {
  }

  /** A one-day roster (equal dates) passes the date check. */
  lemma SameDayAllowed(a: BaseRosterAttrs)
    requires a.startsAt.Some? && a.endsAt == a.startsAt
    ensures ENDS_BEFORE_START !in Errors(a)
  {
  }

  /** Without both dates the date-order check adds nothing. */
  lemma DateCheckSkipped(a: BaseRosterAttrs)
    requires a.startsAt.None? || a.endsAt.None?
    ensures ENDS_BEFORE_START !in Errors(a)
  {
  }
}

module SalesForecasts {
  import opened Wrappers
  import opened Calendar
  import opened Validation
  import opened Users

  /** The `forecast_type` enum: weekly 0, fortnightly 1, monthly 2. */
  datatype ForecastType = Weekly | Fortnightly | Monthly

  function ForecastTypeValue(f: ForecastType): (v: int)
    ensures 0 <= v < 3
  {
    match f
    case Weekly => 0
    case Fortnightly => 1
    case Monthly => 2
  }

  function ForecastTypeFromValue(v: int): (f: Option<ForecastType>)
    ensures f.Some? <==> 0 <= v < 3
  {
    if v == 0 then Some(Weekly) else if v == 1 then Some(Fortnightly) else if v == 2 then Some(Monthly) else None
  }

  lemma ForecastTypeRoundTrip(f: ForecastType)
    ensures ForecastTypeFromValue(ForecastTypeValue(f)) == Some(f)
  {
  }

  datatype SalesForecastAttrs = SalesForecastAttrs(
    userId: Option<UserId>,
    forecastType: Option<ForecastType>,
    startDate: Option<Date>,
    endDate: Option<Date>,
    projectedSales: Option<real>,
    actualSales: Option<real>,
    confidenceLevel: Option<int>)

  const END_BEFORE_START := FieldError("end_date", "must be after start date")

  /** `numericality: { greater_than_or_equal_to: 0 }, allow_nil: true`. */
  function NonNegativeErrors(attribute: string, v: Option<real>): seq<FieldError> {
    if v.Some? && v.value < 0.0 then [FieldError(attribute, "must be greater than or equal to 0")] else []
  }

  /** `confidence_level` in [0, 100] when present. */
  function ConfidenceErrors(v: Option<int>): seq<FieldError> {
    if v.None? then []
    else if v.value < 0 then [FieldError("confidence_level", "must be greater than or equal to 0")]
    else if v.value > 100 then [FieldError("confidence_level", "must be less than or equal to 100")]
    else []
  }

  function EndAfterStartErrors(a: SalesForecastAttrs): seq<FieldError> {
    if a.startDate.Some? && a.endDate.Some? && a.endDate.value < a.startDate.value then [END_BEFORE_START] else []
  }

  function Errors(a: SalesForecastAttrs): seq<FieldError> {
    (if a.userId.None? then [FieldError("user", MUST_EXIST)] else [])
    + PresenceError("forecast_type", a.forecastType)
    + PresenceError("start_date", a.startDate)
    + PresenceError("end_date", a.endDate)
    + NonNegativeErrors("projected_sales", a.projectedSales)
    + NonNegativeErrors("actual_sales", a.actualSales)
    + ConfidenceErrors(a.confidenceLevel)
    + EndAfterStartErrors(a)
  }

  predicate Valid(a: SalesForecastAttrs) {
    Errors(a) == []
  }

  /** Valid exactly when the required fields are there, amounts are non-negative, confidence is a percentage and the dates are in order. */
  lemma ValidIff(a: SalesForecastAttrs)
    ensures Valid(a) <==>
      a.userId.Some? && a.forecastType.Some? && a.startDate.Some? && a.endDate.Some?
      && (a.projectedSales.Some? ==> a.projectedSales.value >= 0.0)
      && (a.actualSales.Some? ==> a.actualSales.value >= 0.0)
      && (a.confidenceLevel.Some? ==> 0 <= a.confidenceLevel.value <= 100)
      && a.startDate.value <= a.endDate.value
  {
  }

  /** Missing sales figures and confidence are allowed. */
  lemma NilAmountsAllowed(a: SalesForecastAttrs)
    requires a.projectedSales.None? && a.actualSales.None? && a.confidenceLevel.None?
    ensures NonNegativeErrors("projected_sales", a.projectedSales) == []
    ensures NonNegativeErrors("actual_sales", a.actualSales) == []
    ensures ConfidenceErrors(a.confidenceLevel) == []
  {
  }
}
