# Roster engine of basic-roster-assist, in Dafny

basic-roster-assist is a Rails application for small businesses. It keeps
weekly roster templates. It turns them into dated rosters, and finalizing a
dated roster notifies the staff on it. It weighs wage costs against sales
forecasts and runs a PIN time clock. It also reports wages and keeps award
pay rates.

This project models the application's roster engine and the parts around it:
- **Generation.** A template (`BaseRoster` with its `BaseShift`s) becomes a
  dated `WeeklyRoster` with one `WeeklyShift` per template shift.
- **Finalization.** A dated roster moves from draft to finalized, with one
  notice per distinct assigned staff member. Change notices go out only after
  finalization.
- **Checks.** The template shift's validations and the helper's conflict
  predicate for dated shifts.
- **Costs.** The budget calculator, the cost calculator, and the calendar's
  sales-versus-wages percentage.
- **Time clock.** The clock-in service, its controller and the time entry
  model.
- **Reports.** The wage report's filter, grouping and sums.
- **Records.** The validators of rosters, forecasts and award rates; the award
  rate upsert; award assignment and removal.

Conventions:
- Dates are whole day numbers. Day 0 is 1 January 1970, a Thursday. Weekdays
  run from 0 (Sunday) to 6 (Saturday), as in the enums.
- Timestamps and times of day are whole seconds.
- Money and hours are exact reals. Ruby's `round(n)` is rounding half away
  from zero at `n` places.
- Tables are sequences of records with ids. The time entries and the award
  rates are objects whose methods update them in place. A dated roster is an
  object whose `Finalize` updates its status fields.
- Mail is an outbox object that each send appends to.
- Inputs from outside the core are parameters:
  - the clock, `Time.current` and `Date.current`;
  - the outcome of `valid_pin?` and the user that `User.find_by_pin` returns;
  - the Fair Work API's answer;
  - the wage percentage `calculate` reads from the roster, for which app/models/base_roster.rb defines no method.

Files:
- `foundation.dfy`: options and results, the calendar, rounding, users,
  presence errors, responses.
- `collections.dfy`: first-seen de-duplication, insertion sort by a
  preorder, sums, string order.
- One file per source file of the core, named after it.

## Model

| member | source | states |
|---|---|---|
| Collections.Dedup | app/helpers/rosters_helper.rb:74 | `uniq`: no repeats, exactly the elements of the input, no longer than it |
| Collections.DedupOrder | app/services/wage_report_generator.rb:31-45 | of two kept keys, the earlier one occurs in the input before any occurrence of the later one |
| Collections.SortBy | app/helpers/rosters_helper.rb:75 | `sort_by` under a total, transitive order: sorted and a permutation of the input |
| Calendar.DayName | app/services/roster_budget_calculator.rb:60 | every weekday has a lower-case day name ending in "day" |
| Calendar.DayNamesDistinct | app/services/roster_budget_calculator.rb:60 | different weekdays have different names, so the daily hash keys do not collide |
| Money.Round2 | app/services/roster_budget_calculator.rb:72 | `round(2)` is a whole number of cents, within half a cent of its argument, and keeps non-negative amounts non-negative |
| Money.Round1 | app/controllers/rosters_controller.rb:60 | `round(1)` is a whole number of tenths within 0.05 of its argument |
| Validation.PresenceError | app/models/base_roster.rb:9-10 | a presence check adds one "can't be blank" error exactly when the value is missing |
| BaseRosters.WeekTypeRoundTrip | app/models/base_roster.rb:4 | the week type enum's stored integer (0 or 1) reads back as the same type |
| BaseRosters.ValidIff | app/models/base_roster.rb:9-22 | valid exactly when user, non-blank name, both dates and week type are present and the end is not before the start |
| BaseRosters.SameDayAllowed | app/models/base_roster.rb:19-21 | an end on the start date draws no "must be after start date" error |
| BaseRosters.DateCheckSkipped | app/models/base_roster.rb:17 | with a date missing there is no date-order error |
| SalesForecasts.ForecastTypeRoundTrip | app/models/sales_forecast.rb:4 | weekly, fortnightly and monthly are 0, 1, 2 and read back as themselves |
| SalesForecasts.ValidIff | app/models/sales_forecast.rb:8-24 | valid exactly when user, type and both dates are present, any given sales are non-negative, any confidence lies in 0..100, and the end is not before the start |
| SalesForecasts.NilAmountsAllowed | app/models/sales_forecast.rb:10-12 | missing amounts and confidence draw no numericality error |
| BaseShifts.ShiftTypeRoundTrip | app/models/base_shift.rb:5 | the four shift types are 0..3 and read back as themselves |
| BaseShifts.OverlappingRows | app/models/base_shift.rb:27-29 | the rows found are exactly the other shifts of the same roster and day that strictly overlap |
| BaseShifts.ValidIff | app/models/base_shift.rb:9-34 | valid exactly when all fields are present, the end is after the start, and no other shift of the same roster and day strictly overlaps |
| BaseShifts.OvernightRejected | app/models/base_shift.rb:19-21 | an end at or before the start gets "must be after start time", so the shift is invalid |
| BaseShifts.TouchingAllowed | app/models/base_shift.rb:29 | shifts that only touch do not overlap |
| BaseShifts.OnlySameRosterAndDay | app/models/base_shift.rb:27-28 | a shift of another roster or day, or the shift itself, is never found overlapping |
| BaseShifts.OverlapCheckSkipped | app/models/base_shift.rb:25 | with roster, day, start or end missing there is no overlap error |
| BaseShifts.NeverComparedWithItself | app/models/base_shift.rb:28 | a stored shift alone on its roster and day stays valid on update |
| TimeEntries.Duration | app/models/time_entry.rb:9-13 | present exactly when both times are; then clock-in plus duration is clock-out |
| TimeEntries.ValidIff | app/models/time_entry.rb:4-31 | valid exactly when clock-in is present and any clock-out is strictly after it |
| TimeEntries.OngoingIsNotCompleted | app/models/time_entry.rb:15-21 | ongoing is exactly not completed |
| TimeEntries.ValidCompletedHasPositiveDuration | app/models/time_entry.rb:25-31 | a valid completed entry has a positive duration |
| TimeEntries.HoursWorked | app/services/wage_report_generator.rb:40 | hours times 3600 is the entry's duration, or the time from clock-in to now while it is open |
| TimeEntries.WageAmount | app/services/wage_report_generator.rb:41 | nothing without a rate; never negative for a non-negative rate and hours |
| TimeEntries.FirstOngoing | app/services/clock_in_service.rb:57 | `find_by(clock_out: nil)`: the first open entry of the user, none exactly when there is none |
| TimeEntries.OnlyOngoing | app/services/clock_in_service.rb:57 | with at most one open entry per user, the one found is that entry |
| TimeEntries.AppendKeepsAtMostOne | app/services/clock_in_service.rb:19-25 | appending an entry for a user with no open entry keeps at most one open entry per user |
| TimeEntries.CloseKeepsAtMostOne | app/services/clock_in_service.rb:33 | closing an entry keeps at most one open entry per user |
| TimeEntries.CloseEndsOngoing | app/services/clock_in_service.rb:33 | closing the user's open entry leaves the user with none |
| TimeEntries.TimeEntryTable.Create | app/services/clock_in_service.rb:21-25 | `create!` appends exactly one entry with the next id and keeps ids distinct |
| TimeEntries.TimeEntryTable.SetClockOut | app/services/clock_in_service.rb:33 | `update!(clock_out:)` changes that entry's clock-out and nothing else |
| ClockInServices.New | app/services/clock_in_service.rb:39-42 | a missing user raises "User is required", then a missing PIN "PIN is required" |
| ClockInServices.ValidatePin | app/services/clock_in_service.rb:44-48 | InvalidPinError exactly when the PIN check fails |
| ClockInServices.ValidateNotAlreadyClockedIn | app/services/clock_in_service.rb:50-54 | AlreadyClockedInError exactly when the user has an open entry |
| ClockInServices.FindOngoingEntry | app/services/clock_in_service.rb:56-60 | an open entry of the user, or NotClockedInError exactly when there is none |
| ClockInServices.ValidateShiftDuration | app/services/clock_in_service.rb:62-69 | ShiftTooLongError exactly when more than 10 hours have passed since clock-in |
| ClockInServices.TenHoursBoundary | app/services/clock_in_service.rb:9 | exactly 10 hours passes, one second more is refused |
| ClockInServices.Opened | app/services/clock_in_service.rb:21-25 | the new entry is valid, open and the user's |
| ClockInServices.ClockIn | app/services/clock_in_service.rb:17-26 | a bad PIN, then an open entry, refuse with nothing written; otherwise one open entry stamped now is appended; at most one open entry per user is kept |
| ClockInServices.Closed | app/services/clock_in_service.rb:33 | the closed entry keeps id, user and clock-in, is completed, and lasts from clock-in to now |
| ClockInServices.ClockOut | app/services/clock_in_service.rb:28-35 | a bad PIN, no open entry or a too-long shift refuse with nothing written; otherwise that one entry is closed now; at most one open entry per user is kept |
| ClockInServices.ClosedWithinLimit | app/services/clock_in_service.rb:28-35 | a shift closed by `clock_out` lasts more than 0 and at most 10 hours |
| ClockInsController.ErrorResponse | app/controllers/clock_ins_controller.rb:42-57 | the four service errors render `new` with 422; any other error renders 500 "An error occurred. Please try again." |
| ClockInsController.ErrorResponsesDistinct | app/controllers/clock_ins_controller.rb:42-53 | the four service errors get four different responses |
| ClockInsController.OtherErrorsAnsweredOtherwise | app/controllers/clock_ins_controller.rb:45-50 | no other error is answered like "already clocked in" or "not clocked in" |
| ClockInsController.TwoDigits | app/controllers/clock_ins_controller.rb:39 | the two digits of `%H`/`%M` read back as the number |
| ClockInsController.Create | app/controllers/clock_ins_controller.rb:6-59 | blank PIN and unknown PIN give 422 and write nothing; a user with an open entry is clocked out, else clocked in, each redirecting to the clock-in page; a too-long shift gives 422 and stays open; "already clocked in" and "not clocked in" never arise; at most one open entry per user is kept |
| WageReports.New | app/services/wage_report_generator.rb:2-8 | raises "Start date and end date are required" when a date is missing, "Start date must be before end date" unless start < end |
| WageReports.Filter | app/services/wage_report_generator.rb:21-28 | exactly the completed entries whose clock-in date lies in the range, of the listed users when a list is given, each as often as in the input |
| WageReports.ClockInLeIsPreorder | app/services/wage_report_generator.rb:24 | ordering by clock-in is total and transitive |
| WageReports.Selected | app/services/wage_report_generator.rb:21-28 | the filtered entries, sorted by clock-in, all completed |
| WageReports.UserLines | app/services/wage_report_generator.rb:45-53 | one line per user in the given order, each with that user's totals |
| WageReports.AddEntry | app/services/wage_report_generator.rb:32-42 | adding one entry keeps the running totals equal to the sums over the entries seen, and appends a first-seen user |
| WageReports.Accumulate | app/services/wage_report_generator.rb:31-42 | the loop ends with the users in first-seen order and, for each, the sum of hours and of wages over that user's entries |
| WageReports.WriteLines | app/services/wage_report_generator.rb:45-53 | header then one line per user; a user without an hourly rate raises |
| WageReports.GenerateCsv | app/services/wage_report_generator.rb:10-55 | the report is the header followed by each selected user's totals in first-seen order |
| WageReports.OneLinePerUser | app/services/wage_report_generator.rb:31-45 | each user appears once, and exactly the users with an included entry appear |
| WageReports.EmptyReportIsHeaderOnly | app/services/wage_report_generator.rb:12-18 | with no included entry the report is the header alone |
| WageReports.LinesFollowEarliestClockIn | app/services/wage_report_generator.rb:21-45 | a user listed earlier has an entry no later than every entry of a user listed after |
| WageReports.ExampleTotals | app/services/wage_report_generator.rb:40-41 | two 8-hour days at 25.50 add up to 16 hours and 408.0 |
| WageReports.TwoEightHourDays | app/services/wage_report_generator.rb:10-55 | that week's report is the header and one line: 16 hours at 25.50, 408.0 |
| WeeklyRosters.StatusRoundTrip | app/models/weekly_roster.rb:8 | draft and finalized are 0 and 1 and read back as themselves |
| WeeklyRosters.Outbox.SendShiftsTo | app/models/weekly_roster.rb:24-28 | one `send_shifts` notice per listed staff member is appended, in order |
| WeeklyRosters.AssignedStaff | app/models/weekly_roster.rb:23 | exactly the non-null assigned staff ids of the shifts |
| WeeklyRosters.ShiftsOf | app/models/weekly_roster.rb:26 | exactly the shifts assigned to that staff member |
| WeeklyRosters.NoticesFor | app/models/weekly_roster.rb:24-28 | one notice per staff member, carrying that member's shifts |
| WeeklyRosters.ShiftChangeNotices | app/models/weekly_roster.rb:33-37 | one `shift_changed` notice to the assigned staff exactly when the roster is finalized and the shift is assigned, else none |
| WeeklyRosters.OneNoticePerStaff | app/models/weekly_roster.rb:23-28 | finalizing notifies no one twice, and notifies exactly the staff assigned to some shift |
| WeeklyRosters.NoticeCarriesOwnShifts | app/models/weekly_roster.rb:26-27 | each notice is `send_shifts` for this roster and carries exactly its recipient's shifts |
| WeeklyRosters.NoAssignedStaffNoNotices | app/models/weekly_roster.rb:23-28 | with no assigned shift, finalizing sends nothing |
| WeeklyRosters.WeeklyRoster.constructor | app/services/weekly_roster_generation_service.rb:20-27 | a new roster is a draft with no finalization stamp and no shifts |
| WeeklyRosters.WeeklyRoster.Finalize | app/models/weekly_roster.rb:16-30 | a finalized roster returns false and changes and sends nothing; a draft becomes finalized at now by the actor and sends one notice per distinct assigned staff member; afterwards the roster is not editable |
| WeeklyRosters.WeeklyRoster.Editable | app/models/weekly_roster.rb:40-42 | editable exactly while the roster is a draft |
| WeeklyRosters.WeeklyRosterTable.Exists | app/services/weekly_roster_generation_service.rb:16 | a no means no roster has that template and week; in a valid table a yes names exactly one roster |
| WeeklyRosters.WeeklyRoster.NotifyShiftChange | app/models/weekly_roster.rb:33-37 | sends exactly the change notices above |
| WeeklyRosterGeneration.ValidateParameters | app/services/weekly_roster_generation_service.rb:39-50 | the four checks in order, with their messages; passes exactly when roster and date are there, the roster is persisted and has shifts |
| WeeklyRosterGeneration.New | app/services/weekly_roster_generation_service.rb:6-10 | the service exists exactly when the parameters pass |
| WeeklyRosterGeneration.WeekRange | app/services/weekly_roster_generation_service.rb:33-35 | the week runs from the start to six days later |
| WeeklyRosterGeneration.CalculateShiftDate | app/services/weekly_roster_generation_service.rb:73-85 | a date within the six days after the start whose weekday is the shift's |
| WeeklyRosterGeneration.ShiftDateUnique | app/services/weekly_roster_generation_service.rb:83-84 | it is the only such date |
| WeeklyRosterGeneration.MondayWeek | app/services/weekly_roster_generation_service.rb:83-84 | from a Monday, Monday is the start and Sunday the sixth day after |
| WeeklyRosterGeneration.CombineDateAndTime | app/services/weekly_roster_generation_service.rb:87-93 | the timestamp lies on the date, with the time's hour, minute and second |
| WeeklyRosterGeneration.GeneratedShift | app/services/weekly_roster_generation_service.rb:58-66 | the dated shift keeps day and type, belongs to the roster and is unassigned |
| WeeklyRosterGeneration.GeneratedShiftTimes | app/services/weekly_roster_generation_service.rb:55-59 | start and end lie on the computed date with the template's times, so an overnight template ends before it starts |
| WeeklyRosterGeneration.GeneratedShifts | app/services/weekly_roster_generation_service.rb:52-69 | one dated shift per template shift, in order, with consecutive ids |
| WeeklyRosterGeneration.GeneratedShiftsInWeek | app/services/weekly_roster_generation_service.rb:52-69 | every generated shift is unassigned, keeps its template's day and type, and starts within the week on its weekday |
| WeeklyRosterGeneration.GeneratedRosterSendsNothing | app/services/weekly_roster_generation_service.rb:61-66 | a freshly generated roster has no one to notify |
| WeeklyRosterGeneration.Generate | app/services/weekly_roster_generation_service.rb:12-31 | no shifts or an existing roster for the week refuse with their messages and create nothing; otherwise exactly one draft roster is added, copying name, user and week type, ending six days after the start, with one generated shift per template shift |
| WeeklyRosterGeneration.GenerateWeeklyShifts | app/services/weekly_roster_generation_service.rb:52-69 | the roster gains exactly the generated shifts; nothing else changes |
| RosterCosts.New | app/services/roster_cost_calculator.rb:2-7 | raises "Roster is required" exactly without a roster; the user is the roster's |
| RosterCosts.ShiftSeconds | app/services/roster_cost_calculator.rb:10 | a dated roster's weekly shifts, else the template's base shifts, each end minus start |
| RosterCosts.RateOf | app/services/roster_cost_calculator.rb:19 | a rate exactly when there is a user with an hourly rate |
| RosterCosts.ShiftCost | app/services/roster_cost_calculator.rb:18-26 | 0 without a rate; otherwise cost times 3600 is the seconds times the rate, not negative for a non-negative rate and span |
| RosterCosts.TotalCost | app/services/roster_cost_calculator.rb:9-26 | 0 without an owner or a rate; otherwise the shifts' hours, added up, at the owner's rate |
| RosterCosts.NoShiftsNoCost | app/services/roster_cost_calculator.rb:11-13 | no shifts cost nothing |
| RosterCosts.OvernightShiftCostsNegative | app/services/roster_cost_calculator.rb:22-25 | with no overnight correction, a dated shift ending before its start costs less than 0 |
| RosterCosts.GeneratedRosterCostsAsTemplate | app/services/roster_cost_calculator.rb:9-14 | a generated roster costs what its template costs |
| RosterCosts.TwentyHoursCost510 | app/services/roster_cost_calculator.rb:9-26 | 8, 4 and 8 hours at 25.50 cost 510.0 |
| RostersController.BeginningOfWeek | app/controllers/rosters_controller.rb:24 | a Monday, on or less than a week before today |
| RostersController.CalendarWeek | app/controllers/rosters_controller.rb:23-25 | Monday to the Sunday six days later, containing today |
| RostersController.WeekSalesNonNegative | app/controllers/rosters_controller.rb:46-48 | valid forecasts give non-negative week sales |
| RostersController.OtherForecastsIgnored | app/controllers/rosters_controller.rb:46-48 | forecasts of other users or outside the week add nothing |
| RostersController.RosterTotals | app/controllers/rosters_controller.rb:52-53 | each roster's cost calculator total |
| RostersController.SalesVsWages | app/controllers/rosters_controller.rb:57-60 | nil exactly when wages or sales are 0; else sales over wages times 100, within 0.05 |
| RostersController.CalculateSalesVsWagesPercentage | app/controllers/rosters_controller.rb:44-61 | the loop adds up the rosters' totals and the result is the guarded ratio of the week's sales to that sum |
| RostersController.UnpaidRostersGiveNoPercentage | app/controllers/rosters_controller.rb:57 | rosters whose owners have no rate give wages of 0 and no percentage |
| RostersController.OppositeRatios | app/controllers/rosters_controller.rb:60 | before rounding, this percentage times the budget display's percentage is 10000 |
| RostersController.ThousandAgainst510 | app/controllers/rosters_controller.rb:60 | sales of 1000 against wages of 510 give 196.1 |
| RostersHelper.FormatCurrency | app/helpers/rosters_helper.rb:14-16 | "--" exactly for nil, else the amount |
| RostersHelper.FormatPercentage | app/helpers/rosters_helper.rb:18-20 | "--%" exactly for nil, else the value with "%" |
| RostersHelper.BudgetStatusLabel | app/helpers/rosters_helper.rb:22-24 | "Customized" exactly when customized, else "Baseline" |
| RostersHelper.HasShifts | app/helpers/rosters_helper.rb:66-68 | true exactly when some roster has an assigned shift |
| RostersHelper.AnyFinalized | app/helpers/rosters_helper.rb:100 | true exactly when some roster is finalized |
| RostersHelper.FinalizeButtonDisabled | app/helpers/rosters_helper.rb:99-101 | enabled exactly when some shift is assigned and every roster is editable |
| RostersHelper.RosterStaffIds | app/helpers/rosters_helper.rb:72-74 | exactly the staff ids assigned in some roster |
| RostersHelper.UsersWithIds | app/helpers/rosters_helper.rb:75 | exactly the users whose ids are listed; distinct ids give distinct users |
| RostersHelper.NameLeIsPreorder | app/helpers/rosters_helper.rb:75 | ordering by name is total and transitive |
| RostersHelper.AssignedStaffForRosters | app/helpers/rosters_helper.rb:71-76 | sorted by name, no one twice, exactly the users assigned in some roster |
| RostersHelper.FoundUsers | app/helpers/rosters_helper.rb:71-75 | the users found are exactly the assigned ones |
| RostersHelper.ConflictsWith | app/helpers/rosters_helper.rb:82-87 | the row condition is symmetric, never holds of a shift and itself, and for shifts ending after they start means their time ranges share an instant |
| RostersHelper.ShiftHasConflict | app/helpers/rosters_helper.rb:79-90 | true exactly when the shift is assigned and another shift of the same staff and day, in any roster, strictly overlaps it |
| RostersHelper.UnassignedNeverConflicts | app/helpers/rosters_helper.rb:80 | an unassigned shift never conflicts |
| RostersHelper.ConflictIsMutual | app/helpers/rosters_helper.rb:82-87 | two shifts in conflict are both flagged |
| RostersHelper.AdjacentShiftsDoNotConflict | app/helpers/rosters_helper.rb:86 | shifts that only touch do not conflict |
| RostersHelper.ConflictAcrossRosters | app/helpers/rosters_helper.rb:82-87 | shifts of two different rosters conflict |
| RosterBudgets.HourlyRate | app/services/roster_budget_calculator.rb:7 | the roster's estimated rate, else the user's rate, else 25.0 |
| RosterBudgets.New | app/services/roster_budget_calculator.rb:2-8 | raises "BaseRoster is required" exactly without a roster; otherwise keeps roster, user and rate |
| RosterBudgets.SalesAmount | app/services/roster_budget_calculator.rb:45-53 | a positive weekly forecast, else yearly sales over 52 to the cent, else 0; never negative |
| RosterBudgets.ShiftHours | app/services/roster_budget_calculator.rb:65-70 | end minus start, plus 24 hours when negative: in [0, 24) |
| RosterBudgets.ValidTemplateHours | app/services/roster_budget_calculator.rb:66-69 | for a valid template shift no day is added |
| RosterBudgets.HoursOf | app/services/roster_budget_calculator.rb:65-70 | a group's hours lie between 0 and 24 per shift |
| RosterBudgets.DaysPartition | app/services/roster_budget_calculator.rb:56-63 | each shift counts in its own day only: the seven days' counts and hours add up to the template's |
| RosterBudgets.EvenDailyShare | app/services/roster_budget_calculator.rb:81 | within half a cent of a seventh of the goal's share of sales |
| RosterBudgets.DailyBudget | app/services/roster_budget_calculator.rb:75-82 | a non-zero allocation, else the even share at the user's goal or 14 |
| RosterBudgets.UnallocatedDaysShareEqually | app/services/roster_budget_calculator.rb:78-82 | days without an allocation get the same budget |
| RosterBudgets.WageCost | app/services/roster_budget_calculator.rb:72 | within half a cent of hours times rate, non-negative for non-negative inputs |
| RosterBudgets.DayRow | app/services/roster_budget_calculator.rb:62-91 | a day's name, count, hours to a tenth, cost, budget, and variance as budget minus cost |
| RosterBudgets.DailyData | app/services/roster_budget_calculator.rb:55-93 | seven rows, Monday first, each the row of its day |
| RosterBudgets.DailyOrder | app/services/roster_budget_calculator.rb:60 | the rows run "monday" to "sunday" |
| RosterBudgets.DailyCountsCoverTemplate | app/services/roster_budget_calculator.rb:86 | the seven counts add up to the number of template shifts |
| RosterBudgets.DayHoursCoverTemplate | app/services/roster_budget_calculator.rb:65-70 | the seven days' hours add up to the template's hours |
| RosterBudgets.WeekCostsNear | app/services/roster_budget_calculator.rb:16 | the week's wages lie within 3.5 cents of the day hours at the rate |
| RosterBudgets.SectionKey | app/services/roster_budget_calculator.rb:96 | the work section's name, else the titleized shift type |
| RosterBudgets.SectionShifts | app/services/roster_budget_calculator.rb:96 | exactly the shifts with that key |
| RosterBudgets.SectionRow | app/services/roster_budget_calculator.rb:97-109 | the section's name, hours to a tenth and cost, by the daily formula |
| RosterBudgets.SectionBreakdown | app/services/roster_budget_calculator.rb:95-111 | one row per distinct section key in first-seen order, each with that section's hours to a tenth and their wage cost |
| RosterBudgets.SectionsListedOnce | app/services/roster_budget_calculator.rb:96 | no section is listed twice |
| RosterBudgets.EverySectionListed | app/services/roster_budget_calculator.rb:96 | every shift's section is listed |
| RosterBudgets.OnlyUsedSectionsListed | app/services/roster_budget_calculator.rb:96 | every listed section is some shift's |
| RosterBudgets.ShareOfSales | app/services/roster_budget_calculator.rb:13 | the total budget is within half a cent of the percentage of sales |
| RosterBudgets.WagePercentage | app/services/roster_budget_calculator.rb:38 | wages over positive sales times 100, to a hundredth |
| RosterBudgets.Calculate | app/services/roster_budget_calculator.rb:10-29 | sales, target, budget, the daily rows' total cost, variance as budget minus cost, rate, both breakdowns; customized exactly when a forecast is stored |
| RosterBudgets.SalesAndWagesDisplay | app/services/roster_budget_calculator.rb:31-41 | status customized exactly when a forecast is stored; the percentage when sales are positive, else 0 |
| RosterBudgets.ZeroForecastStillCustomized | app/services/roster_budget_calculator.rb:27 | a stored forecast of 0 falls back to yearly sales yet still shows "customized" |
| RosterBudgets.FiveHourSunday | app/services/roster_budget_calculator.rb:31-41 | a five-hour Sunday at the default rate shows 125.0 in wages and a baseline status |
| AwardRates.ValidIff | app/models/award_rate.rb:5-8 | valid exactly when the code is non-blank with two or more characters, the classification non-blank, the rate positive at two places, and the date present |
| AwardRates.RateBounds | app/models/award_rate.rb:7 | a rate of a cent or more passes; 0 or less gets "must be greater than 0" |
| AwardRates.Active | app/models/award_rate.rb:11 | exactly the rates in effect on or before today |
| AwardRates.ByAwardCode | app/models/award_rate.rb:12 | exactly the rates with that code |
| AwardRates.ForUser | app/models/award_rate.rb:13 | exactly the rates of that user, or the unassigned ones for nil |
| AwardRates.Current | app/models/award_rate.rb:14 | exactly the rates effective within the month |
| AwardRates.FindRate | app/models/award_rate.rb:23-26 | the first rate with the user, code and classification; none exactly when there is none |
| AwardRates.FindId | app/controllers/awards_controller.rb:58 | the row with that id; none exactly when no row has it |
| AwardRates.FetchAndUpdate | app/models/award_rate.rb:17-37 | an API failure changes nothing; a saved rate has the key, the API rate and today's date and is valid; a failed save changes nothing |
| AwardRates.UpdatesExistingInPlace | app/models/award_rate.rb:23-30 | an existing rate is updated in place with its id; no other row changes and no id is used |
| AwardRates.CreatesWhenMissing | app/models/award_rate.rb:23-30 | otherwise exactly one rate is appended with the next id |
| AwardRates.FetchKeepsTableValid | app/models/award_rate.rb:30 | distinct ids below the next id and valid rows are kept |
| AwardRates.SecondFetchCreatesNothing | app/models/award_rate.rb:23-30 | repeating a saved fetch adds no row |
| AwardRates.AwardRateTable.WriteUserId | app/controllers/awards_controller.rb:75 | `update(user_id:)` writes that row's user only, keeping the table valid |
| AwardRates.AwardRateTable.FetchAndUpdateRatesForUser | app/models/award_rate.rb:17-37 | the new table and result are those of the upsert above; the table stays valid |
| AwardRates.AwardRateTable.UpdateAllRatesFromApi | app/models/award_rate.rb:39-52 | no row is created and no key changes; each row is untouched or is an assigned rate that `find_or_initialize_by` finds for its own key, now carrying its code's API rate and today's date; after a run with no failed save, for every assigned rate whose code the API answered, the rate `find_or_initialize_by` finds for its key carries that API rate and today's date |
| AwardRates.FindRateByKeys | app/models/award_rate.rb:23 | tables with the same keys row by row find every key at the same row |
| AwardRates.AppliedStep | app/models/award_rate.rb:44-49 | one upsert keeps every key already refreshed refreshed, and refreshes its own key unless the save failed |
| AwardRates.OnlyFoundRatesChange | app/models/award_rate.rb:23-52 | a run never writes an unassigned rate, nor a user's later row whose user, code and classification repeat an earlier row's |
| AwardRates.EveryAssignedRateRefreshed | app/models/award_rate.rb:39-52 | when no two rates share user, code and classification, every assigned rate whose code the API answered ends with the API rate and today's date |
| AwardRates.RefreshStep | app/models/award_rate.rb:44-49 | refreshing an existing key creates nothing and keeps the table refreshed |
| AwardRates.OwnersOf | app/models/award_rate.rb:41 | exactly the users holding a rate |
| AwardsController.RequireAdmin | app/controllers/awards_controller.rb:82-86 | halts with "Access denied. Admin privileges required." exactly for a non-admin |
| AwardsController.CodeThenClassificationIsPreorder | app/controllers/awards_controller.rb:52-53 | ordering by code then classification is total and transitive |
| AwardsController.AssignAward | app/controllers/awards_controller.rb:50-54 | admins only, 404 for an unknown user; the available list is exactly the unassigned rates and the user's list the user's rates, each sorted by code and classification |
| AwardsController.ReassigningOwnRateUnassignsIt | app/controllers/awards_controller.rb:61-65 | as written, re-assigning a user's own rate leaves it unassigned |
| AwardsController.ReassignExample | app/controllers/awards_controller.rb:61-65 | re-assigning user 7's only rate to user 7 unassigns it |
| AwardsController.AssignedToUser | app/controllers/awards_controller.rb:60-65 | the chosen rate ends with the user; only the user's earlier rate for that key is released; nothing else changes |
| AwardsController.AssignedRateListedForUser | app/controllers/awards_controller.rb:65 | after assignment the rate is on the user's assign page |
| AwardsController.AssignKeepsTableValid | app/controllers/awards_controller.rb:61-65 | assignment keeps the table valid |
| AwardsController.RemovedRateIsAvailable | app/controllers/awards_controller.rb:75 | a removed rate is on the available list |
| AwardsController.AssignToUserAsWritten | app/controllers/awards_controller.rb:56-68 | non-admins are redirected and nothing changes; an unknown user or rate gives 404; otherwise the rows are those of the as-written update and the admin is redirected with "Award assigned successfully." |
| AwardsController.AssignToUser | app/controllers/awards_controller.rb:56-68 | the same, with the chosen rate ending assigned to the user |
| AwardsController.RemoveFromUser | app/controllers/awards_controller.rb:70-78 | for an admin, that one rate's user is cleared and nothing else changes; redirect with "Award assignment removed." |

## Left out

- Views, routes, JavaScript and the CSS-class helpers of app/helpers/rosters_helper.rb. The helper's `format_time` and `staff_total_hours` are left out too; the latter sums `paid_hours`, which is not part of this model.
- The awards controller's other actions (`index`, `new`, `create`, `edit`, `update`, `destroy`, `users`), which are plain CRUD.
- The rosters controller's `show` action, beyond the budget calculator it calls. The `calendar` query over `weekly_rosters` is left out too: it filters on a `start_date` column and calls `RosterCostCalculator.new(roster)` positionally. The week's forecasts and rosters are inputs instead.
- RostersController.CalculateSalesVsWagesPercentage: takes the week's rosters as given and builds each calculator as the keyword constructor would. app/controllers/rosters_controller.rb:53 calls `RosterCostCalculator.new(roster)` positionally, while app/services/roster_cost_calculator.rb:2 declares `initialize(roster:)`. As written, that raises ArgumentError as soon as the week has one roster; with no rosters the loop body never runs and the method returns nil.
- Persistence mechanics: SQL, `includes`, transactions and their rollback, `deliver_later` queuing, time zones and concurrent requests.
- Mail rendering (app/mailers/roster_mailer.rb). A send is an entry in the outbox.
- WeeklyRosters.WeeklyRoster.Finalize: `User.find` raising for a staff id with no user is not modelled. The clock is a parameter.
- The Fair Work API service (Net::HTTP and JSON). Its answer for an award code is an input.
- The PIN decryption of `valid_pin?` and the lookup `User.find_by_pin`. Their results are inputs.
- RosterBudgets.Calculate: app/services/roster_budget_calculator.rb:12 reads `@roster.wage_percentage`, but app/models/base_roster.rb defines no such method, and db/migrate/20260111082848_add_target_wage_percentage_to_base_rosters.rb:3 names the column `target_wage_percentage` (db/schema.rb has neither). As written, `calculate` raises NoMethodError. The model takes the value as a parameter and states what `calculate` would return with it.
- RosterBudgets.SalesAndWagesDisplay: calls `calculate`, so as written it raises the same NoMethodError, and so does the `show` action of app/controllers/rosters_controller.rb:18 that calls it. The model states the display for a given wage percentage.
- TimeEntries.HoursWorked: `hours_worked` is not defined in app/models/time_entry.rb and is not part of this model. It is taken to be the elapsed seconds, up to now while open, over 3600.
- TimeEntries.WageAmount: `wage_amount` is not defined in app/models/time_entry.rb either. It is taken to be hours worked at the user's rate, 0 without one; the contract states only the zero and sign cases.
- Money.Round2: rounds exact reals half away from zero. Binary floating-point representation error is not modelled; Money.Round1 likewise.
- CSV text, `format("%.2f")`, `strftime` beyond the two-digit fields, `number_to_currency` and `number_to_percentage`. The helpers return the value to display, not its text.
- The flash texts of the clock-in notices carry the time and hours as values, not formatted strings.
- Logging (`Rails.logger`).
- RosterBudgets.WeekCostsNear: states wages against the day hours. That these are the template's hours is DayHoursCoverTemplate; the two are not combined into one lemma.
- AwardRates.Active and AwardRates.Current: `Date.current` and its month bounds are parameters.
- AwardsController.RemoveFromUser: like the source, it does not check that the rate belonged to the user.
- The `user_id NOT NULL` column of the migrations is not modelled; award rates follow the model's `optional: true`.
- WageReports.Filter: `TimeEntry.completed` is called as a scope, but app/models/time_entry.rb:19 defines only the instance method `completed?`. The model reads it as "entries with a clock-out".
- AwardRates.FetchAndUpdate: `user.award_rates` and `User.joins(:award_rates)` rely on a `has_many :award_rates` that app/models/user.rb:9-10 does not declare. The model reads them as the rates whose `user_id` is the user's, and as the users holding some rate (AwardRates.OwnersOf).
- RosterBudgets.SectionKey: `s.work_section` relies on an association app/models/base_shift.rb:7 does not declare. The model takes each base shift's work section name as an optional input.
- WeeklyRosters.ShiftChangeNotices: `shift.assigned_staff` relies on an association app/models/weekly_shift.rb:2 does not declare. The model addresses the notice to the shift's `assigned_staff_id`.
- AwardsController.AssignAwardPath: `assign_award_awards_path` is not drawn by config/routes.rb:12-14, which has only `resources :awards` inside an admin-only constraint. The model takes it as the assign page of the given user. It also follows the controller's own `require_admin` for non-admins, where the routes would answer 404 before the controller runs.
- AwardsController.CodeThenClassificationLe: PostgreSQL orders strings by the database collation. The model orders them by code point, as does RostersHelper.NameLe for `sort_by(&:name)`, which is Ruby's byte order and so matches.
- Behaviour that only the test files describe: weekly-shift alignment and breaks, forecast variance and accuracy, and the budget calculator's baseline methods.

## Findings

| source | as written | input that shows it | evidently intended | confidence | as-written member | corrected member |
|---|---|---|---|---|---|---|
| app/controllers/awards_controller.rb:61-65 | `find_by` loads the user's existing rate for the key as a separate object and clears it. Then `award_rate.update(user_id: @user.id)` sees no change in its own stale copy, so it writes nothing | the chosen rate is already the user's first for its code and classification: `[OWN_RATE]` (id 1, user 7), assigned to user 7 | the chosen rate ends assigned to the user | not executed | AwardsController.ReassigningOwnRateUnassignsIt | AwardsController.AssignedToUser |
