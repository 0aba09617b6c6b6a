// Shared building blocks of the roster model: optional values and results,
// calendar and clock arithmetic, money rounding, users, validation errors and
// HTTP responses.

module Wrappers {
  /** A value that may be absent (Ruby's nil). */
  datatype Option<+T> = None | Some(value: T) {
    /** The value, or `default` when absent (Ruby's `x || default` for non-boolean x). */
    function GetOr(default: T): T {
      match this
      case Some(v) => v
      case None => default
    }
  }

  /** The outcome of an operation that raises on failure. */
  datatype Result<+T, +E> = Success(value: T) | Failure(error: E)
}

module Calendar {
  /** A calendar date as a day number: day 0 is 1970-01-01, a Thursday. */
  type Date = int

  /** A day-of-week index as stored by the enums: 0 = Sunday ... 6 = Saturday. */
  type Weekday = d: int | 0 <= d < 7

  const SUNDAY: Weekday := 0
  const MONDAY: Weekday := 1
  const TUESDAY: Weekday := 2
  const WEDNESDAY: Weekday := 3
  const THURSDAY: Weekday := 4
  const FRIDAY: Weekday := 5
  const SATURDAY: Weekday := 6

  const SECONDS_PER_DAY: int := 86400
  const SECONDS_PER_HOUR: int := 3600

  /** Seconds since midnight of a `time` column. */
  type TimeOfDay = t: int | 0 <= t < 86400

  /** A point in time as seconds since 1970-01-01 00:00 (time zones are not modelled). */
  type Timestamp = int

  /** Ruby's `Date#wday`. */
  function WeekdayOf(d: Date): Weekday {
    (d + 4) % 7
  }

  lemma WeekdayAfter(d: Date, k: int)
    ensures WeekdayOf(d + k) == (WeekdayOf(d) + k) % 7
  {
  }

  /** The lower-case enum name of a weekday, as used for hash keys. */
  function DayName(w: Weekday): (name: string)
    ensures |name| >= 6 && name[|name| - 3..] == "day"
  {
    match w
    case 0 => "sunday"
    case 1 => "monday"
    case 2 => "tuesday"
    case 3 => "wednesday"
    case 4 => "thursday"
    case 5 => "friday"
    case 6 => "saturday"
  }

  /** Different weekdays have different names, so the names key a hash without collisions. */
  lemma DayNamesDistinct(v: Weekday, w: Weekday)
    requires v != w
    ensures DayName(v) != DayName(w)
  {
  }

  /** SQL's `DATE(ts)`: the calendar date a timestamp falls on. */
  function DateOf(t: Timestamp): Date {
    t / SECONDS_PER_DAY
  }

  /** The clock reading of a timestamp. */
  function ClockOf(t: Timestamp): TimeOfDay {
    t % SECONDS_PER_DAY
  }

  /** A timestamp on date `d` at clock reading `tod`; inverse of (DateOf, ClockOf). */
  function At(d: Date, tod: TimeOfDay): (t: Timestamp)
    ensures DateOf(t) == d && ClockOf(t) == tod
    ensures d * SECONDS_PER_DAY <= t < (d + 1) * SECONDS_PER_DAY
  {
    d * SECONDS_PER_DAY + tod
  }

  lemma AtDateOf(t: Timestamp)
    ensures At(DateOf(t), ClockOf(t)) == t
  {
  }

  function Hour(t: TimeOfDay): int { t / 3600 }
  function Minute(t: TimeOfDay): int { t % 3600 / 60 }
  function Second(t: TimeOfDay): int { t % 60 }

  /** A clock reading is determined by its hour, minute and second. */
  lemma ClockFromParts(t: TimeOfDay)
    ensures t == Hour(t) * 3600 + Minute(t) * 60 + Second(t)
    ensures 0 <= Hour(t) < 24 && 0 <= Minute(t) < 60 && 0 <= Second(t) < 60
  {
  }
}

module Money {
  /** 10^n */
  function Pow10(n: nat): (p: real)
    ensures p >= 1.0
  {
    if n == 0 then 1.0 else 10.0 * Pow10(n - 1)
  }

  /**
   * Ruby's `Float#round(n)` (`scale` is 10^n): to a whole number when `n` is
   * 0, half-way cases away from zero; else ten times the amount to `n - 1`
   * places, over ten.
   */
  function RoundDigits(x: real, n: nat, scale: real): (r: real)
    requires scale == Pow10(n)
    ensures -0.5 / scale <= r - x <= 0.5 / scale
    ensures x >= 0.0 ==> r >= 0.0
    decreases n
  {
    if n == 0 then
      if x >= 0.0 then (x + 0.5).Floor as real else -((-x + 0.5).Floor as real)
    else
      var t := RoundDigits(10.0 * x, n - 1, scale / 10.0);
      Shrink(t - 10.0 * x, scale / 10.0);
      t / 10.0
  }

  /** A difference within half a unit of 10^-(n-1) is, over ten, within half a unit of 10^-n. */
  lemma Shrink(e: real, p: real)
    requires p >= 1.0 && -0.5 / p <= e <= 0.5 / p
    ensures -0.5 / (10.0 * p) <= e / 10.0 <= 0.5 / (10.0 * p)
  {
    assert 0.5 / (10.0 * p) == (0.5 / p) / 10.0;
  }

  const CENT_PLACES: nat := 2
  const TENTH_PLACES: nat := 1

  /** `.round(2)`: to the cent. */
  function Round2(x: real): (r: real)
    ensures -0.005 <= r - x <= 0.005
    ensures x >= 0.0 ==> r >= 0.0
    ensures (r * 100.0).Floor as real == r * 100.0
  {
    var y := 10.0 * (10.0 * x);
    var cents: int := if y >= 0.0 then (y + 0.5).Floor else -((-y + 0.5).Floor);
    assert RoundDigits(x, CENT_PLACES, 100.0) == cents as real / 100.0;
    RoundDigits(x, CENT_PLACES, 100.0)
  }

  /** Nothing at or below zero rounds to a positive amount. */
  lemma {:induction false} RoundDigitsNonPositive(x: real, n: nat, scale: real)
    requires scale == Pow10(n) && x <= 0.0
    ensures RoundDigits(x, n, scale) <= 0.0
    decreases n
  {
    if n > 0 {
      RoundDigitsNonPositive(10.0 * x, n - 1, scale / 10.0);
    }
  }

  lemma Round2NonPositive(x: real)
    requires x <= 0.0
    ensures Round2(x) <= 0.0
  {
    RoundDigitsNonPositive(x, CENT_PLACES, 100.0);
  }

  /** A whole amount is its own rounding to the cent. */
  lemma Round2Whole(k: nat)
    ensures Round2(k as real) == k as real
  {
    var x := k as real;
    var m := 100 * k;
    assert 100.0 * x == m as real;
    assert (m as real + 0.5).Floor == m;
    assert RoundDigits(100.0 * x, 0, 1.0) == 100.0 * x;
    assert RoundDigits(10.0 * x, 1, 10.0) == 10.0 * x;
    assert RoundDigits(x, 2, 100.0) == x;
  }

  /** `.round(1)`. */
  function Round1(x: real): (r: real)
    ensures -0.05 <= r - x <= 0.05
    ensures (r * 10.0).Floor as real == r * 10.0
  {
    var y := 10.0 * x;
    var tenths: int := if y >= 0.0 then (y + 0.5).Floor else -((-y + 0.5).Floor);
    assert RoundDigits(x, TENTH_PLACES, 10.0) == tenths as real / 10.0;
    RoundDigits(x, TENTH_PLACES, 10.0)
  }
}

module Users {
  import opened Wrappers

  type UserId = int

  datatype Role = Admin | Manager | Staff

  /** The user columns the core reads. */
  datatype User = User(
    id: UserId,
    name: string,
    email: string,
    role: Role,
    hourlyRate: Option<real>,
    yearlySales: Option<real>,
    wagePercentageGoal: Option<real>)

  /** The users table: every key maps to the row with that id. */
  ghost predicate Consistent(users: map<UserId, User>) {
    forall id :: id in users ==> users[id].id == id
  }
}

module Validation {
  import opened Wrappers

  /** One entry of ActiveRecord's `errors`: attribute and message. */
  datatype FieldError = FieldError(attribute: string, message: string)

  const CANT_BE_BLANK := "can't be blank"
  const MUST_EXIST := "must exist"

  predicate IsSpace(c: char) {
    c == ' ' || c == '\t' || c == '\n' || c == '\r' || c == '\U{000B}' || c == '\U{000C}'
  }

  /** Rails' `blank?` on a string. */
  predicate BlankText(s: string) {
    forall i :: 0 <= i < |s| ==> IsSpace(s[i])
  }

  /** Rails' `blank?` on an optional string: nil, empty or white space only. */
  predicate Blank(s: Option<string>) {
    s.None? || BlankText(s.value)
  }

  /** The presence check for any other kind of attribute. */
  function PresenceError<T>(attribute: string, v: Option<T>): (r: seq<FieldError>)
    ensures r == [] <==> v.Some?
    ensures r != [] ==> r == [FieldError(attribute, CANT_BE_BLANK)]
  {
    if v.None? then [FieldError(attribute, CANT_BE_BLANK)] else []
  }
}

module Http {
  import opened Wrappers

  /** Where `redirect_to` sends the browser: a path and, on pages that take it, a `user_id` parameter. */
  datatype Location = Location(path: string, userId: Option<int>)

  /**
   * What a controller action leaves in `flash`. `NoticeAmount` is a notice
   * with a number interpolated between two fixed texts; how Ruby prints the
   * number is not modelled.
   */
  datatype Flash =
    | Notice(text: string)
    | NoticeAmount(before: string, amount: real, after: string)
    | Alert(text: string)

  /** The response of a controller action. */
  datatype Response =
    | Redirect(location: Location, flash: Flash)
    | Render(template: string, status: int, flash: Flash)
    | NotFound

  const FOUND := 302
  const NOT_FOUND := 404
  const UNPROCESSABLE_ENTITY := 422
  const INTERNAL_SERVER_ERROR := 500

  /** The HTTP status a response is sent with: `redirect_to` answers 302. */
  function StatusOf(r: Response): (status: int)
    ensures r.Redirect? ==> status == FOUND
    ensures r.Render? ==> status == r.status
    ensures r.NotFound? ==> status == NOT_FOUND
  {
    match r
    case Redirect(_, _) => FOUND
    case Render(_, status, _) => status
    case NotFound => NOT_FOUND
  }
}
