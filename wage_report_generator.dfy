// app/services/wage_report_generator.rb: the wage report over a date range.
// Completed entries whose clock-in falls in the range are taken in clock-in
// order, totalled per user in a hash that keeps first-seen order, and written
// out one line per user after a fixed header.

module WageReports {
  import opened Wrappers
  import opened Calendar
  import opened Users
  import opened Collections
  import opened TimeEntries

  /** A generator that passed `validate_dates!`; `userIds` is the optional filter. */
  datatype WageReportGenerator = WageReportGenerator(startDate: Date, endDate: Date, userIds: Option<seq<UserId>>)

  /** `initialize` with `validate_dates!`; the message is the ArgumentError's. */
  function New(startDate: Option<Date>, endDate: Option<Date>, userIds: Option<seq<UserId>>)
    : (r: Result<WageReportGenerator, string>)
    ensures r.Success? <==> startDate.Some? && endDate.Some? && startDate.value < endDate.value
    ensures r.Success? ==> r.value == WageReportGenerator(startDate.value, endDate.value, userIds)
    ensures startDate.None? || endDate.None? ==> r == Failure("Start date and end date are required")
    ensures startDate.Some? && endDate.Some? && startDate.value >= endDate.value ==>
      r == Failure("Start date must be before end date")
  {
    if startDate.None? || endDate.None? then Failure("Start date and end date are required")
    else if !(startDate.value < endDate.value) then Failure("Start date must be before end date")
    else Success(WageReportGenerator(startDate.value, endDate.value, userIds))
  }

  /**
   * The query: completed, `DATE(clock_in)` within the range (inclusive at both
   * ends; a null clock-in never matches), and, when a non-empty id list was
   * given, one of those users.
   */
  predicate Included(g: WageReportGenerator, e: TimeEntry) {
    Completed(e) && e.clockIn.Some?
    && g.startDate <= DateOf(e.clockIn.value) <= g.endDate
    && (g.userIds.None? || |g.userIds.value| == 0 || e.userId in g.userIds.value)
  }

  function Filter(g: WageReportGenerator, entries: seq<TimeEntry>): (r: seq<TimeEntry>)
    ensures forall e :: e in r <==> e in entries && Included(g, e)
    ensures forall e :: e in r ==> multiset(r)[e] == multiset(entries)[e]
  {
    if entries == [] then []
    else
      var init, last := entries[..|entries| - 1], entries[|entries| - 1];
      assert entries == init + [last];
      if Included(g, last) then Filter(g, init) + [last] else Filter(g, init)
  }

  function ClockInKey(e: TimeEntry): int {
    e.clockIn.GetOr(0)
  }

  /** `order("clock_in ASC")` */
  predicate ClockInLe(a: TimeEntry, b: TimeEntry) {
    ClockInKey(a) <= ClockInKey(b)
  }

  lemma ClockInLeIsPreorder()
    ensures Total(ClockInLe) && Transitive(ClockInLe)
  {
  }

  /** The entries the report walks through, in the order it walks them. */
  function Selected(g: WageReportGenerator, entries: seq<TimeEntry>): (r: seq<TimeEntry>)
    ensures forall e :: e in r <==> e in entries && Included(g, e)
    ensures SortedBy(r, ClockInLe)
    ensures forall i :: 0 <= i < |r| ==> r[i].clockIn.Some? && Completed(r[i])
  {
    ClockInLeIsPreorder();
    var f := Filter(g, entries);
    var r := SortBy(f, ClockInLe);
    SameElements(r, f);
    assert forall i :: 0 <= i < |r| ==> r[i] in r;
    r
  }

  /** Every entry carries a clock-in (true of what the query returns). */
  predicate AllClocked(s: seq<TimeEntry>) {
    forall i :: 0 <= i < |s| ==> s[i].clockIn.Some?
  }

  function UserIdsOf(s: seq<TimeEntry>): (ids: seq<UserId>)
    ensures |ids| == |s| && forall i :: 0 <= i < |s| ==> ids[i] == s[i].userId
  {
    seq(|s|, i requires 0 <= i < |s| => s[i].userId)
  }

  /** A user's hours over the first n entries of `s`. */
  function HoursUpTo(s: seq<TimeEntry>, n: nat, u: UserId, now: Timestamp): real
    requires n <= |s| && AllClocked(s)
  {
    if n == 0 then 0.0
    else HoursUpTo(s, n - 1, u, now) + (if s[n - 1].userId == u then HoursWorked(s[n - 1], now) else 0.0)
  }

  /** A user's wages over the first n entries of `s`, at the rate of the entry's user. */
  function WagesUpTo(s: seq<TimeEntry>, n: nat, u: UserId, users: map<UserId, User>, now: Timestamp): real
    requires n <= |s| && AllClocked(s) && UsersKnown(s, users)
  {
    if n == 0 then 0.0
    else
      WagesUpTo(s, n - 1, u, users, now)
      + (if s[n - 1].userId == u then WageAmount(s[n - 1], users[u].hourlyRate, now) else 0.0)
  }

  /** A user with no entry among the first n has no hours and no wages there. */
  lemma {:induction false} NoEntriesNoTotals(s: seq<TimeEntry>, n: nat, u: UserId, users: map<UserId, User>, now: Timestamp)
    requires n <= |s| && AllClocked(s) && UsersKnown(s, users)
    requires forall i :: 0 <= i < n ==> s[i].userId != u
    ensures HoursUpTo(s, n, u, now) == 0.0 && WagesUpTo(s, n, u, users, now) == 0.0
  {
    if n > 0 {
      NoEntriesNoTotals(s, n - 1, u, users, now);
    }
  }

  /** A user's total hours over `s`. */
  function UserHours(s: seq<TimeEntry>, u: UserId, now: Timestamp): real
    requires AllClocked(s)
  {
    HoursUpTo(s, |s|, u, now)
  }

  /** A user's total wages over `s`. */
  function UserWages(s: seq<TimeEntry>, u: UserId, users: map<UserId, User>, now: Timestamp): real
    requires AllClocked(s) && UsersKnown(s, users)
  {
    WagesUpTo(s, |s|, u, users, now)
  }

  /** The fixed header and one line per user; numbers are kept, not formatted. */
  datatype Line =
    | Header
    | UserLine(userId: UserId, email: string, totalHours: real, hourlyRate: real, totalWages: real)

  const HEADER_FIELDS: seq<string> := ["User ID", "User Name", "Total Hours", "Hourly Rate", "Total Wages"]

  /** `format("%.2f", nil)` raises a TypeError: the report fails when a listed user has no hourly rate. */
  const NIL_RATE_ERROR := "can't convert nil into Float"

  /** The line of one user: id, e-mail (under "User Name"), totals and rate. */
  function LineFor(u: UserId, sel: seq<TimeEntry>, users: map<UserId, User>, now: Timestamp): Line
    requires AllClocked(sel) && UsersKnown(sel, users)
    requires u in users && users[u].hourlyRate.Some?
  {
    UserLine(u, users[u].email, UserHours(sel, u, now), users[u].hourlyRate.value, UserWages(sel, u, users, now))
  }

  /** The users in the order their first included entry was seen. */
  function ReportUsers(g: WageReportGenerator, entries: seq<TimeEntry>): seq<UserId> {
    Dedup(UserIdsOf(Selected(g, entries)))
  }

  predicate UsersKnown(entries: seq<TimeEntry>, users: map<UserId, User>) {
    forall i :: 0 <= i < |entries| ==> entries[i].userId in users
  }

  lemma SelectedKnown(g: WageReportGenerator, entries: seq<TimeEntry>, users: map<UserId, User>)
    requires UsersKnown(entries, users)
    ensures UsersKnown(Selected(g, entries), users)
    ensures forall i :: 0 <= i < |ReportUsers(g, entries)| ==> ReportUsers(g, entries)[i] in users
  {
    var sel := Selected(g, entries);
    forall i | 0 <= i < |sel| ensures sel[i].userId in users {
      assert sel[i] in entries;
    }
    assert forall i :: 0 <= i < |ReportUsers(g, entries)| ==> ReportUsers(g, entries)[i] in UserIdsOf(sel);
  }

  /** The header and the users' lines; fails when a listed user has no rate. */
  function ReportLines(order: seq<UserId>, sel: seq<TimeEntry>, users: map<UserId, User>, now: Timestamp)
    : Result<seq<Line>, string>
    requires AllClocked(sel) && UsersKnown(sel, users)
    requires forall i :: 0 <= i < |order| ==> order[i] in users
  {
    if exists i :: 0 <= i < |order| && users[order[i]].hourlyRate.None? then Failure(NIL_RATE_ERROR)
    else Success([Header] + UserLines(order, sel, users, now))
  }

  function UserLines(order: seq<UserId>, sel: seq<TimeEntry>, users: map<UserId, User>, now: Timestamp): (lines: seq<Line>)
    requires AllClocked(sel) && UsersKnown(sel, users)
    requires forall i :: 0 <= i < |order| ==> order[i] in users && users[order[i]].hourlyRate.Some?
    ensures |lines| == |order|
    ensures forall i :: 0 <= i < |order| ==> lines[i] == LineFor(order[i], sel, users, now)
  {
    seq(|order|, i requires 0 <= i < |order| => LineFor(order[i], sel, users, now))
  }

  /** The report `generate_csv` writes, as a function of the table. */
  function Report(g: WageReportGenerator, entries: seq<TimeEntry>, users: map<UserId, User>, now: Timestamp)
    : Result<seq<Line>, string>
    requires UsersKnown(entries, users)
  {
    SelectedKnown(g, entries, users);
    ReportLines(ReportUsers(g, entries), Selected(g, entries), users, now)
  }

  /** What one more entry does to the user order and to the running totals. */
  lemma AccumulateStep(sel: seq<TimeEntry>, k: nat, order: seq<UserId>, users: map<UserId, User>, now: Timestamp)
    requires k < |sel| && AllClocked(sel) && UsersKnown(sel, users)
    requires order == Dedup(UserIdsOf(sel)[..k])
    ensures Dedup(UserIdsOf(sel)[..k + 1]) == if sel[k].userId in order then order else order + [sel[k].userId]
    ensures sel[k].userId !in order ==>
      HoursUpTo(sel, k, sel[k].userId, now) == 0.0 && WagesUpTo(sel, k, sel[k].userId, users, now) == 0.0
  {
    var u := sel[k].userId;
    assert UserIdsOf(sel)[..k + 1] == UserIdsOf(sel)[..k] + [u];
    DedupSnoc(UserIdsOf(sel)[..k], u);
    if u !in order {
      assert forall i :: 0 <= i < k ==> UserIdsOf(sel)[..k][i] == sel[i].userId;
      NoEntriesNoTotals(sel, k, u, users, now);
    }
  }

  /** After k entries: every user seen so far has running hours, and no one else. */
  ghost predicate HoursRunning(sel: seq<TimeEntry>, k: nat, order: seq<UserId>, hours: map<UserId, real>, now: Timestamp)
    requires k <= |sel| && AllClocked(sel)
  {
    (forall u :: u in hours <==> u in order)
    && (forall u :: u in order ==> hours[u] == HoursUpTo(sel, k, u, now))
  }

  /** After k entries: every user seen so far has running wages, and no one else. */
  ghost predicate WagesRunning(sel: seq<TimeEntry>, k: nat, order: seq<UserId>, wages: map<UserId, real>,
                               users: map<UserId, User>, now: Timestamp)
    requires k <= |sel| && AllClocked(sel) && UsersKnown(sel, users)
  {
    (forall u :: u in wages <==> u in order)
    && (forall u :: u in order ==> wages[u] == WagesUpTo(sel, k, u, users, now))
  }

  /** One entry added to the running hours: its user starts at zero if new, then gets the entry's hours. */
  lemma HoursStep(sel: seq<TimeEntry>, k: nat, order: seq<UserId>, hours: map<UserId, real>,
                  order1: seq<UserId>, started: map<UserId, real>, now: Timestamp)
    requires k < |sel| && AllClocked(sel) && HoursRunning(sel, k, order, hours, now)
    requires sel[k].userId !in order ==> HoursUpTo(sel, k, sel[k].userId, now) == 0.0
    requires order1 == if sel[k].userId in order then order else order + [sel[k].userId]
    requires started == if sel[k].userId in order then hours else hours[sel[k].userId := 0.0]
    ensures HoursRunning(sel, k + 1, order1, started[sel[k].userId := started[sel[k].userId] + HoursWorked(sel[k], now)], now)
  {
  }

  /** One entry added to the running wages: its user starts at zero if new, then gets the entry's wage. */
  lemma WagesStep(sel: seq<TimeEntry>, k: nat, order: seq<UserId>, wages: map<UserId, real>,
                  order1: seq<UserId>, started: map<UserId, real>, users: map<UserId, User>, now: Timestamp)
    requires k < |sel| && AllClocked(sel) && UsersKnown(sel, users) && WagesRunning(sel, k, order, wages, users, now)
    requires sel[k].userId !in order ==> WagesUpTo(sel, k, sel[k].userId, users, now) == 0.0
    requires order1 == if sel[k].userId in order then order else order + [sel[k].userId]
    requires started == if sel[k].userId in order then wages else wages[sel[k].userId := 0.0]
    ensures WagesRunning(sel, k + 1, order1,
                         started[sel[k].userId := started[sel[k].userId]
                                                  + WageAmount(sel[k], users[sel[k].userId].hourlyRate, now)], users, now)
  {
  }

  /** After k entries: users in first-seen order, each with running hours and wages. */
  ghost predicate Running(sel: seq<TimeEntry>, k: nat, order: seq<UserId>, hours: map<UserId, real>,
                          wages: map<UserId, real>, users: map<UserId, User>, now: Timestamp)
    requires k <= |sel| && AllClocked(sel) && UsersKnown(sel, users)
  {
    order == Dedup(UserIdsOf(sel)[..k])
    && HoursRunning(sel, k, order, hours, now) && WagesRunning(sel, k, order, wages, users, now)
  }

  /** The block of `time_entries.each`: start the entry's user at zero if new, then add its hours and wage. */
  method AddEntry(sel: seq<TimeEntry>, k: nat, order: seq<UserId>, hours: map<UserId, real>, wages: map<UserId, real>,
                  users: map<UserId, User>, now: Timestamp)
    returns (order1: seq<UserId>, hours1: map<UserId, real>, wages1: map<UserId, real>)
    requires k < |sel| && AllClocked(sel) && UsersKnown(sel, users)
    requires HoursRunning(sel, k, order, hours, now) && WagesRunning(sel, k, order, wages, users, now)
    requires sel[k].userId !in order ==>
      HoursUpTo(sel, k, sel[k].userId, now) == 0.0 && WagesUpTo(sel, k, sel[k].userId, users, now) == 0.0
    ensures order1 == if sel[k].userId in order then order else order + [sel[k].userId]
    ensures HoursRunning(sel, k + 1, order1, hours1, now) && WagesRunning(sel, k + 1, order1, wages1, users, now)
  {
    var e := sel[k];
    var u := e.userId;
    order1, hours1, wages1 := order, hours, wages;
    if u !in hours1 {
      order1 := order1 + [u];
      hours1 := hours1[u := 0.0];
      wages1 := wages1[u := 0.0];
    }
    HoursStep(sel, k, order, hours, order1, hours1, now);
    WagesStep(sel, k, order, wages, order1, wages1, users, now);
    hours1 := hours1[u := hours1[u] + HoursWorked(e, now)];
    wages1 := wages1[u := wages1[u] + WageAmount(e, users[u].hourlyRate, now)];
  }

  /** The `user_totals` pass: running totals per user, keys in first-seen order. */
  method Accumulate(sel: seq<TimeEntry>, users: map<UserId, User>, now: Timestamp)
    returns (order: seq<UserId>, hours: map<UserId, real>, wages: map<UserId, real>)
    requires AllClocked(sel) && UsersKnown(sel, users)
    ensures order == Dedup(UserIdsOf(sel))
    ensures forall u :: u in order ==> u in hours && hours[u] == UserHours(sel, u, now)
    ensures forall u :: u in order ==> u in wages && wages[u] == UserWages(sel, u, users, now)
  {
    order, hours, wages := [], map[], map[];
    var k := 0;
    while k < |sel|
      invariant 0 <= k <= |sel|
      invariant Running(sel, k, order, hours, wages, users, now)
    {
      AccumulateStep(sel, k, order, users, now);
      order, hours, wages := AddEntry(sel, k, order, hours, wages, users, now);
      k := k + 1;
    }
    AccumulateDone(sel, order, hours, wages, users, now);
  }

  /** Once every entry is counted, the running totals are the users' totals. */
  lemma AccumulateDone(sel: seq<TimeEntry>, order: seq<UserId>, hours: map<UserId, real>, wages: map<UserId, real>,
                       users: map<UserId, User>, now: Timestamp)
    requires AllClocked(sel) && UsersKnown(sel, users)
    requires Running(sel, |sel|, order, hours, wages, users, now)
    ensures order == Dedup(UserIdsOf(sel))
    ensures forall u :: u in order ==> u in hours && hours[u] == UserHours(sel, u, now)
    ensures forall u :: u in order ==> u in wages && wages[u] == UserWages(sel, u, users, now)
  {
    assert UserIdsOf(sel)[..|sel|] == UserIdsOf(sel);
  }

  /** The `user_totals.each` pass that writes one line per user after the header. */
  method WriteLines(order: seq<UserId>, sel: seq<TimeEntry>, users: map<UserId, User>,
                    hours: map<UserId, real>, wages: map<UserId, real>, now: Timestamp)
    returns (r: Result<seq<Line>, string>)
    requires AllClocked(sel) && UsersKnown(sel, users)
    requires forall i :: 0 <= i < |order| ==> order[i] in users
    requires forall u :: u in order ==> u in hours && hours[u] == UserHours(sel, u, now)
    requires forall u :: u in order ==> u in wages && wages[u] == UserWages(sel, u, users, now)
    ensures r == ReportLines(order, sel, users, now)
  {
    var lines: seq<Line> := [Header];
    var i := 0;
    while i < |order|
      invariant 0 <= i <= |order|
      invariant forall j :: 0 <= j < i ==> users[order[j]].hourlyRate.Some?
      invariant |lines| == i + 1 && lines[0] == Header
      invariant forall j :: 0 <= j < i ==> lines[j + 1] == LineFor(order[j], sel, users, now)
    {
      var u := order[i];
      if users[u].hourlyRate.None? {
        return Failure(NIL_RATE_ERROR);
      }
      lines := lines + [UserLine(u, users[u].email, hours[u], users[u].hourlyRate.value, wages[u])];
      i := i + 1;
    }
    assert lines == [Header] + UserLines(order, sel, users, now);
    r := Success(lines);
  }

  /**
   * `generate_csv`: the header, then a pass over the selected entries that
   * keeps a running total per user, then one line per user in first-seen order.
   */
  method GenerateCsv(g: WageReportGenerator, entries: seq<TimeEntry>, users: map<UserId, User>, now: Timestamp)
    returns (r: Result<seq<Line>, string>)
    requires UsersKnown(entries, users)
    ensures r == Report(g, entries, users, now)
  {
    var sel := Selected(g, entries);
    SelectedKnown(g, entries, users);
    var order, hours, wages := Accumulate(sel, users, now);
    assert order == ReportUsers(g, entries);
    r := WriteLines(order, sel, users, hours, wages, now);
  }

  /** Each user appears on at most one line, and exactly the users with an included entry appear. */
  lemma OneLinePerUser(g: WageReportGenerator, entries: seq<TimeEntry>)
    ensures Distinct(ReportUsers(g, entries))
    ensures forall u :: u in ReportUsers(g, entries) <==>
      exists e :: e in entries && Included(g, e) && e.userId == u
  {
    var sel := Selected(g, entries);
    var ids := UserIdsOf(sel);
    forall u | u in ids ensures exists e :: e in entries && Included(g, e) && e.userId == u {
      var i :| 0 <= i < |sel| && ids[i] == u;
      assert sel[i] in sel;
    }
    forall e | e in entries && Included(g, e) ensures e.userId in ids {
      var i :| 0 <= i < |sel| && sel[i] == e;
      assert ids[i] == e.userId;
    }
  }

  /** With nothing included, the report is the header alone. */
  lemma EmptyReportIsHeaderOnly(g: WageReportGenerator, entries: seq<TimeEntry>, users: map<UserId, User>, now: Timestamp)
    requires UsersKnown(entries, users)
    requires forall e :: e in entries ==> !Included(g, e)
    ensures Report(g, entries, users, now) == Success([Header])
  {
    var sel := Selected(g, entries);
    assert forall i :: 0 <= i < |sel| ==> sel[i] in entries;
    assert sel == [];
    assert UserIdsOf(sel) == [];
    assert ReportUsers(g, entries) == [];
    SelectedKnown(g, entries, users);
    var none: seq<UserId> := [];
    assert [Header] + UserLines(none, sel, users, now) == [Header];
  }

  /**
   * Lines follow each user's earliest included clock-in: the user listed at i
   * has an entry clocked in no later than every included entry of the user
   * listed at j > i.
   */
  lemma LinesFollowEarliestClockIn(g: WageReportGenerator, entries: seq<TimeEntry>, now: Timestamp, i: nat, j: nat)
    returns (a: nat)
    requires i < j < |ReportUsers(g, entries)|
    ensures var sel := Selected(g, entries);
      a < |sel| && sel[a].userId == ReportUsers(g, entries)[i]
      && forall b :: 0 <= b < |sel| && sel[b].userId == ReportUsers(g, entries)[j] ==>
           sel[a].clockIn.value <= sel[b].clockIn.value
  {
    var sel := Selected(g, entries);
    var ids := UserIdsOf(sel);
    a := DedupOrder(ids, i, j);
    forall b | 0 <= b < |sel| && sel[b].userId == ReportUsers(g, entries)[j]
      ensures sel[a].clockIn.value <= sel[b].clockIn.value
    {
      assert ids[b] == sel[b].userId;
      assert a < b ==> ClockInLe(sel[a], sel[b]);
    }
  }

  // Two eight-hour days of one user at 25.50 an hour, in the week of day 0.
  const ALICE := User(1, "alice", "alice@example.com", Staff, Some(25.5), None, None)
  const DAY1 := TimeEntry(1, 1, Some(At(1, 9 * 3600)), Some(At(1, 17 * 3600)))
  const DAY2 := TimeEntry(2, 1, Some(At(2, 9 * 3600)), Some(At(2, 17 * 3600)))
  const WEEK := WageReportGenerator(0, 6, None)

  lemma ExampleFiltered()
    ensures Filter(WEEK, [DAY1, DAY2]) == [DAY1, DAY2]
  {
    assert Filter(WEEK, [DAY1]) == [DAY1] by { assert [DAY1][..0] == []; }
    assert [DAY1, DAY2][..1] == [DAY1];
  }

  lemma ExampleSorted()
    ensures SortBy([DAY1, DAY2], ClockInLe) == [DAY1, DAY2]
  {
    assert SortBy([DAY2], ClockInLe) == [DAY2] by { assert [DAY2][1..] == []; }
    assert [DAY1, DAY2][1..] == [DAY2];
    assert ClockInLe(DAY1, DAY2);
  }

  lemma ExampleSelected()
    ensures Selected(WEEK, [DAY1, DAY2]) == [DAY1, DAY2]
  {
    ExampleFiltered();
    ExampleSorted();
  }

  lemma ExampleTotals()
    ensures UserHours([DAY1, DAY2], 1, 0) == 16.0
    ensures UserWages([DAY1, DAY2], 1, map[1 := ALICE], 0) == 408.0
  {
    assert HoursWorked(DAY1, 0) == 8.0 && HoursWorked(DAY2, 0) == 8.0;
    assert HoursUpTo([DAY1, DAY2], 1, 1, 0) == 8.0;
    assert WagesUpTo([DAY1, DAY2], 1, 1, map[1 := ALICE], 0) == 204.0;
  }

  lemma ExampleUsers()
    ensures ReportUsers(WEEK, [DAY1, DAY2]) == [1]
  {
    ExampleSelected();
    assert UserIdsOf([DAY1, DAY2]) == [1, 1];
    assert [1, 1][..1] == [1];
    assert [1][..0] == [];
  }

  lemma ExampleLines()
    ensures AllClocked([DAY1, DAY2]) && UsersKnown([DAY1, DAY2], map[1 := ALICE])
    ensures ReportLines([1], [DAY1, DAY2], map[1 := ALICE], 0)
      == Success([Header, UserLine(1, "alice@example.com", 16.0, 25.5, 408.0)])
  {
    ExampleTotals();
    var users := map[1 := ALICE];
    var line := UserLine(1, "alice@example.com", 16.0, 25.5, 408.0);
    assert forall i :: 0 <= i < |[1]| ==> users[[1][i]].hourlyRate == Some(25.5);
    assert LineFor(1, [DAY1, DAY2], users, 0) == line;
    assert UserLines([1], [DAY1, DAY2], users, 0) == [line];
    assert !exists i :: 0 <= i < |[1]| && users[[1][i]].hourlyRate.None?;
    assert [Header] + [line] == [Header, line];
  }

  /** The two days give one line with 16 hours and 408.00 in wages. */
  lemma TwoEightHourDays()
    ensures Report(WEEK, [DAY1, DAY2], map[1 := ALICE], 0)
      == Success([Header, UserLine(1, "alice@example.com", 16.0, 25.5, 408.0)])
  {
    ExampleSelected();
    ExampleUsers();
    ExampleLines();
  }
}
