// app/controllers/clock_ins_controller.rb: the PIN pad's `create` action,
// which clocks the user out when they have an open entry and in otherwise,
// and turns each service error into a response.

module ClockInsController {
  import opened Wrappers
  import opened Calendar
  import opened Validation
  import opened Users
  import opened Http
  import opened Money
  import opened TimeEntries
  import opened ClockInServices

  /** `new_clock_in_path` */
  const CLOCK_IN_PATH := Location("/clock_in", None)

  const GENERIC_ERROR := "An error occurred. Please try again."

  /** The `new` template re-rendered with an alert. */
  function RenderNew(status: int, message: string): Response {
    Render("new", status, Alert(message))
  }

  /** The `rescue` clauses: the four service errors are 422, anything else 500. */
  function ErrorResponse(e: ClockError): (resp: Response)
    ensures resp.Render? && resp.template == "new" && resp.flash.Alert?
    ensures StatusOf(resp) == UNPROCESSABLE_ENTITY <==>
      e.InvalidPinError? || e.AlreadyClockedInError? || e.NotClockedInError? || e.ShiftTooLongError?
    ensures StatusOf(resp) != UNPROCESSABLE_ENTITY ==>
      StatusOf(resp) == INTERNAL_SERVER_ERROR && resp.flash.text == GENERIC_ERROR
  {
    match e
    case InvalidPinError => RenderNew(UNPROCESSABLE_ENTITY, "Invalid PIN")
    case AlreadyClockedInError => RenderNew(UNPROCESSABLE_ENTITY, "You are already clocked in")
    case NotClockedInError => RenderNew(UNPROCESSABLE_ENTITY, "You are not currently clocked in")
    case ShiftTooLongError => RenderNew(UNPROCESSABLE_ENTITY, "Cannot clock out - shift exceeds maximum duration")
    case _ => RenderNew(INTERNAL_SERVER_ERROR, GENERIC_ERROR)
  }

  /** Each distinct service error gets its own response. */
  lemma ErrorResponsesDistinct(e1: ClockError, e2: ClockError)
    requires !e1.ArgumentError? && !e1.RecordInvalid? && !e2.ArgumentError? && !e2.RecordInvalid?
    ensures ErrorResponse(e1) == ErrorResponse(e2) <==> e1 == e2
  {
  }

  /** No other error is answered as "already clocked in" or "not clocked in". */
  lemma OtherErrorsAnsweredOtherwise(e: ClockError)
    requires !e.AlreadyClockedInError? && !e.NotClockedInError?
    ensures ErrorResponse(e) != ErrorResponse(AlreadyClockedInError)
    ensures ErrorResponse(e) != ErrorResponse(NotClockedInError)
  {
    if !e.ArgumentError? && !e.RecordInvalid? {
      ErrorResponsesDistinct(e, AlreadyClockedInError);
      ErrorResponsesDistinct(e, NotClockedInError);
    }
  }

  /** A number in [0, 100) written with two digits, as `%H` and `%M` print it. */
  function TwoDigits(n: int): (s: string)
    requires 0 <= n < 100
    ensures |s| == 2 && '0' <= s[0] <= '9' && '0' <= s[1] <= '9'
    ensures (s[0] as int - '0' as int) * 10 + (s[1] as int - '0' as int) == n
  {
    [('0' as int + n / 10) as char, ('0' as int + n % 10) as char]
  }

  /** The clock-in notice, with the time of day as `strftime('%H:%M')`. */
  function ClockedInNotice(now: Timestamp): Flash {
    Notice("Successfully clocked in at " + TwoDigits(Hour(ClockOf(now))) + ":" + TwoDigits(Minute(ClockOf(now))))
  }

  /** The clock-out notice, with the shift's hours rounded to two places. */
  function ClockedOutNotice(hours: real): Flash {
    NoticeAmount("Successfully clocked out. Shift duration: ", Round2(hours), " hours")
  }

  /**
   * `create`. `pin` is `params[:pin]`; `found` is what `User.find_by_pin`
   * returns and `pinValid` what `valid_pin?` answers for it; both are outside
   * this model.
   */
  method Create(table: TimeEntryTable, pin: Option<string>, found: Option<User>, pinValid: bool, now: Timestamp)
    returns (resp: Response)
    requires table.Valid()
    modifies table
    ensures table.Valid()
    ensures Blank(pin) ==> resp == RenderNew(UNPROCESSABLE_ENTITY, "PIN is required")
    ensures !Blank(pin) && found.None? ==> resp == RenderNew(UNPROCESSABLE_ENTITY, "Invalid PIN")
    ensures Blank(pin) || found.None? || !pinValid ==>
      table.entries == old(table.entries) && table.nextId == old(table.nextId)
    ensures !Blank(pin) && found.Some? && !pinValid ==> resp == ErrorResponse(InvalidPinError)
    ensures !Blank(pin) && found.Some? && pinValid && !HasOngoing(old(table.entries), found.value.id) ==>
      resp == Redirect(CLOCK_IN_PATH, ClockedInNotice(now))
      && table.entries == old(table.entries) + [Opened(old(table.nextId), found.value.id, now)]
    ensures !Blank(pin) && found.Some? && pinValid && HasOngoing(old(table.entries), found.value.id) ==>
      var i := FirstOngoing(old(table.entries), found.value.id).value;
      var e := old(table.entries)[i];
      if ValidateShiftDuration(e, now).Some? then
        resp == ErrorResponse(ShiftTooLongError) && table.entries == old(table.entries)
      else if !Valid(Closed(e, now)) then
        resp == RenderNew(INTERNAL_SERVER_ERROR, GENERIC_ERROR) && table.entries == old(table.entries)
      else
        resp == Redirect(CLOCK_IN_PATH, ClockedOutNotice(HoursWorked(Closed(e, now), now)))
        && table.entries == old(table.entries)[i := Closed(e, now)]
    ensures resp != ErrorResponse(AlreadyClockedInError) && resp != ErrorResponse(NotClockedInError)
    ensures AtMostOneOngoing(old(table.entries)) ==> AtMostOneOngoing(table.entries)
  {
    if Blank(pin) {
      return RenderNew(UNPROCESSABLE_ENTITY, "PIN is required");
    }
    if found.None? {
      return RenderNew(UNPROCESSABLE_ENTITY, "Invalid PIN");
    }
    var user := found.value;
    var currentlyClockedIn := HasOngoing(table.entries, user.id);
    var service := New(Some(user), pin).value;
    if currentlyClockedIn {
      var r := ClockOut(service, table, pinValid, now);
      match r
      case Success(entry) =>
        resp := Redirect(CLOCK_IN_PATH, ClockedOutNotice(HoursWorked(entry, now)));
      case Failure(error) =>
        OtherErrorsAnsweredOtherwise(error);
        resp := ErrorResponse(error);
    } else {
      var r := ClockIn(service, table, pinValid, now);
      match r
      case Success(_) =>
        resp := Redirect(CLOCK_IN_PATH, ClockedInNotice(now));
      case Failure(error) =>
        OtherErrorsAnsweredOtherwise(error);
        resp := ErrorResponse(error);
    }
  }
}
