// app/controllers/awards_controller.rb: the admin-only page for assigning
// award rates to users, and the two actions that assign and unassign one rate.

module AwardsController {
  import opened Wrappers
  import opened Users
  import opened Http
  import opened Collections
  import opened AwardRates

  const ROOT_PATH := Location("/", None)
  const ASSIGN_AWARD_PATH := "/awards/assign_award"
  const ACCESS_DENIED := "Access denied. Admin privileges required."
  const AWARD_ASSIGNED := "Award assigned successfully."
  const ASSIGNMENT_REMOVED := "Award assignment removed."

  /** `require_admin`: a non-admin is sent to the root page and the action does not run. */
  function RequireAdmin(current: User): (halt: Option<Response>)
    ensures halt.None? <==> current.role == Admin
    ensures halt.Some? ==> halt.value == Redirect(ROOT_PATH, Alert(ACCESS_DENIED))
  {
    if current.role == Admin then None else Some(Redirect(ROOT_PATH, Alert(ACCESS_DENIED)))
  }

  /** `assign_award_awards_path(user_id: u)` */
  function AssignAwardPath(u: UserId): Location {
    Location(ASSIGN_AWARD_PATH, Some(u))
  }

  /** `order(:award_code, :classification)` */
  predicate CodeThenClassificationLe(a: AwardRate, b: AwardRate) {
    if a.awardCode != b.awardCode then LexLe(a.awardCode, b.awardCode)
    else LexLe(a.classification, b.classification)
  }

  lemma CodeThenClassificationIsPreorder()
    ensures Total(CodeThenClassificationLe) && Transitive(CodeThenClassificationLe)
  {
    forall a: AwardRate, b: AwardRate ensures CodeThenClassificationLe(a, b) || CodeThenClassificationLe(b, a) {
      LexLeTotal(a.awardCode, b.awardCode);
      LexLeTotal(a.classification, b.classification);
    }
    forall a: AwardRate, b: AwardRate, c: AwardRate | CodeThenClassificationLe(a, b) && CodeThenClassificationLe(b, c)
      ensures CodeThenClassificationLe(a, c)
    {
      OrderedThrough(a, b, c);
    }
  }

  lemma OrderedThrough(a: AwardRate, b: AwardRate, c: AwardRate)
    requires CodeThenClassificationLe(a, b) && CodeThenClassificationLe(b, c)
    ensures CodeThenClassificationLe(a, c)
  {
    if a.awardCode == b.awardCode && b.awardCode == c.awardCode {
      LexLeTransitive(a.classification, b.classification, c.classification);
    } else if a.awardCode != b.awardCode && b.awardCode != c.awardCode {
      LexLeTransitive(a.awardCode, b.awardCode, c.awardCode);
      if a.awardCode == c.awardCode {
        LexLeAntisymmetric(a.awardCode, b.awardCode);
      }
    }
  }

  /** What `assign_award` shows: the user, the unassigned rates and the user's rates. */
  datatype AssignAwardPage = AssignAwardPage(user: User, availableAwards: seq<AwardRate>, userAwards: seq<AwardRate>)

  /**
   * `assign_award`: 404 for an unknown user; otherwise every unassigned rate
   * and every rate of the user, each list ordered by code then classification.
   */
  function AssignAward(current: User, users: map<UserId, User>, rows: seq<AwardRate>, userId: UserId)
    : (r: Result<AssignAwardPage, Response>)
    ensures current.role != Admin ==> r == Failure(Redirect(ROOT_PATH, Alert(ACCESS_DENIED)))
    ensures current.role == Admin ==> (r.Failure? <==> userId !in users)
    ensures current.role == Admin && r.Failure? ==> r.error == NotFound
    ensures r.Success? ==> r.value.user == users[userId]
    ensures r.Success? ==> SortedBy(r.value.availableAwards, CodeThenClassificationLe)
    ensures r.Success? ==> multiset(r.value.availableAwards) == multiset(ForUser(rows, None))
    ensures r.Success? ==> forall x :: x in r.value.availableAwards <==> x in rows && x.userId.None?
    ensures r.Success? ==> SortedBy(r.value.userAwards, CodeThenClassificationLe)
    ensures r.Success? ==> multiset(r.value.userAwards) == multiset(ForUser(rows, Some(users[userId].id)))
  {
    var halt := RequireAdmin(current);
    if halt.Some? then Failure(halt.value)
    else if userId !in users then Failure(NotFound)
    else
      CodeThenClassificationIsPreorder();
      var user := users[userId];
      var available := SortBy(ForUser(rows, None), CodeThenClassificationLe);
      SameElements(available, ForUser(rows, None));
      Success(AssignAwardPage(user, available, SortBy(ForUser(rows, Some(user.id)), CodeThenClassificationLe)))
  }

  /** The user's existing rate for the chosen rate's award code and classification, which `find_by` finds first. */
  function ExistingAssignment(rows: seq<AwardRate>, u: UserId, a: nat): Option<nat>
    requires a < |rows|
  {
    FindRate(rows, RateKey(Some(u), rows[a].awardCode, rows[a].classification))
  }

  /**
   * `assign_to_user` as written: the existing assignment is cleared, then the
   * chosen rate, loaded before that, gets the user; Rails writes only what
   * changed against that loaded copy, so a rate already the user's is not
   * written again.
   */
  function AssignedAsWritten(rows: seq<AwardRate>, u: UserId, a: nat): seq<AwardRate>
    requires a < |rows|
  {
    var e := ExistingAssignment(rows, u, a);
    var cleared := if e.Some? then rows[e.value := rows[e.value].(userId := None)] else rows;
    if rows[a].userId == Some(u) then cleared else cleared[a := cleared[a].(userId := Some(u))]
  }

  /** Choosing the rate the user already has, as written, leaves it assigned to nobody. */
  lemma ReassigningOwnRateUnassignsIt(rows: seq<AwardRate>, u: UserId, a: nat)
    requires a < |rows| && rows[a].userId == Some(u)
    requires forall j :: 0 <= j < a ==> KeyOf(rows[j]) != KeyOf(rows[a])
    ensures AssignedAsWritten(rows, u, a)[a].userId.None?
  {
    assert KeysOf(rows)[a] == KeyOf(rows[a]);
  }

  /** A one-row table whose rate is assigned to user 7. */
  const OWN_RATE := AwardRate(1, Some(7), "MA000004", "Level 1", 25.5, 0)

  /** Assigning that rate to user 7 again, as written, unassigns it. */
  lemma ReassignExample()
    ensures AssignedAsWritten([OWN_RATE], 7, 0) == [OWN_RATE.(userId := None)]
  {
    ReassigningOwnRateUnassignsIt([OWN_RATE], 7, 0);
  }

  /**
   * `assign_to_user` as intended: the user's existing rate for that award
   * code and classification is released and the chosen rate belongs to the
   * user; no other row changes and no other column changes.
   */
  function AssignedToUser(rows: seq<AwardRate>, u: UserId, a: nat): (r: seq<AwardRate>)
    requires a < |rows|
    ensures |r| == |rows| && r[a] == rows[a].(userId := Some(u))
    ensures forall j :: 0 <= j < |rows| && j != a ==>
      r[j] == (if ExistingAssignment(rows, u, a) == Some(j) then rows[j].(userId := None) else rows[j])
  {
    var e := ExistingAssignment(rows, u, a);
    var cleared := if e.Some? then rows[e.value := rows[e.value].(userId := None)] else rows;
    cleared[a := cleared[a].(userId := Some(u))]
  }

  /** After the corrected assignment the chosen rate is on the user's assign-award page. */
  lemma AssignedRateListedForUser(current: User, users: map<UserId, User>, rows: seq<AwardRate>, u: UserId, a: nat)
    requires current.role == Admin && u in users && users[u].id == u && a < |rows|
    ensures AssignAward(current, users, AssignedToUser(rows, u, a), u).Success?
    ensures AssignedToUser(rows, u, a)[a] in AssignAward(current, users, AssignedToUser(rows, u, a), u).value.userAwards
  {
    var r := AssignedToUser(rows, u, a);
    var page := AssignAward(current, users, r, u).value;
    assert r[a] in ForUser(r, Some(u));
    assert r[a] in multiset(page.userAwards);
  }

  /** The assignment changes nothing but user columns, so the table stays valid. */
  lemma AssignKeepsTableValid(rows: seq<AwardRate>, nextId: int, u: UserId, a: nat)
    requires a < |rows| && TableValid(rows, nextId)
    ensures TableValid(AssignedToUser(rows, u, a), nextId)
  {
    SameColumnsKeepTableValid(rows, AssignedToUser(rows, u, a), nextId);
  }

  /** `remove_from_user` frees the chosen rate, whoever held it, and it is then offered as available. */
  lemma RemovedRateIsAvailable(current: User, users: map<UserId, User>, rows: seq<AwardRate>, u: UserId, a: nat)
    requires current.role == Admin && u in users && a < |rows|
    ensures AssignAward(current, users, rows[a := rows[a].(userId := None)], u).Success?
    ensures rows[a].(userId := None) in AssignAward(current, users, rows[a := rows[a].(userId := None)], u).value.availableAwards
  {
    var r := rows[a := rows[a].(userId := None)];
    assert r[a] in r;
  }

  /**
   * `assign_to_user` as written, on the award_rates table: 404 for an
   * unknown user or rate, else the two updates and a redirect back to the
   * user's assign-award page.
   */
  method AssignToUserAsWritten(table: AwardRateTable, current: User, users: map<UserId, User>, userId: UserId, awardRateId: int)
    returns (resp: Response)
    requires table.Valid()
    modifies table
    ensures table.Valid() && table.nextId == old(table.nextId)
    ensures current.role != Admin ==> resp == Redirect(ROOT_PATH, Alert(ACCESS_DENIED)) && table.rows == old(table.rows)
    ensures current.role == Admin && (userId !in users || FindId(old(table.rows), awardRateId).None?) ==>
      resp == NotFound && table.rows == old(table.rows)
    ensures current.role == Admin && userId in users && FindId(old(table.rows), awardRateId).Some? ==>
      resp == Redirect(AssignAwardPath(users[userId].id), Notice(AWARD_ASSIGNED))
      && table.rows == AssignedAsWritten(old(table.rows), users[userId].id, FindId(old(table.rows), awardRateId).value)
  {
    var halt := RequireAdmin(current);
    if halt.Some? {
      return halt.value;
    }
    if userId !in users {
      return NotFound;
    }
    var user := users[userId];
    var a := FindId(table.rows, awardRateId);
    if a.None? {
      return NotFound;
    }
    var awardRate := table.rows[a.value];
    var existing := FindRate(table.rows, RateKey(Some(user.id), awardRate.awardCode, awardRate.classification));
    if existing.Some? {
      table.WriteUserId(existing.value, None);
    }
    if awardRate.userId != Some(user.id) {
      table.WriteUserId(a.value, Some(user.id));
    }
    resp := Redirect(AssignAwardPath(user.id), Notice(AWARD_ASSIGNED));
  }

  /** `assign_to_user` with the chosen rate written whatever its loaded copy says. */
  method AssignToUser(table: AwardRateTable, current: User, users: map<UserId, User>, userId: UserId, awardRateId: int)
    returns (resp: Response)
    requires table.Valid()
    modifies table
    ensures table.Valid() && table.nextId == old(table.nextId)
    ensures current.role != Admin ==> resp == Redirect(ROOT_PATH, Alert(ACCESS_DENIED)) && table.rows == old(table.rows)
    ensures current.role == Admin && (userId !in users || FindId(old(table.rows), awardRateId).None?) ==>
      resp == NotFound && table.rows == old(table.rows)
    ensures current.role == Admin && userId in users && FindId(old(table.rows), awardRateId).Some? ==>
      resp == Redirect(AssignAwardPath(users[userId].id), Notice(AWARD_ASSIGNED))
      && table.rows == AssignedToUser(old(table.rows), users[userId].id, FindId(old(table.rows), awardRateId).value)
  {
    var halt := RequireAdmin(current);
    if halt.Some? {
      return halt.value;
    }
    if userId !in users {
      return NotFound;
    }
    var user := users[userId];
    var a := FindId(table.rows, awardRateId);
    if a.None? {
      return NotFound;
    }
    var awardRate := table.rows[a.value];
    var existing := FindRate(table.rows, RateKey(Some(user.id), awardRate.awardCode, awardRate.classification));
    if existing.Some? {
      table.WriteUserId(existing.value, None);
    }
    table.WriteUserId(a.value, Some(user.id));
    resp := Redirect(AssignAwardPath(user.id), Notice(AWARD_ASSIGNED));
  }

  /**
   * `remove_from_user`: 404 for an unknown user or rate, else that one rate
   * loses its user (whichever user held it) and nothing else changes.
   */
  method RemoveFromUser(table: AwardRateTable, current: User, users: map<UserId, User>, userId: UserId, awardRateId: int)
    returns (resp: Response)
    requires table.Valid()
    modifies table
    ensures table.Valid() && table.nextId == old(table.nextId)
    ensures current.role != Admin ==> resp == Redirect(ROOT_PATH, Alert(ACCESS_DENIED)) && table.rows == old(table.rows)
    ensures current.role == Admin && (userId !in users || FindId(old(table.rows), awardRateId).None?) ==>
      resp == NotFound && table.rows == old(table.rows)
    ensures current.role == Admin && userId in users && FindId(old(table.rows), awardRateId).Some? ==>
      var a := FindId(old(table.rows), awardRateId).value;
      resp == Redirect(AssignAwardPath(users[userId].id), Notice(ASSIGNMENT_REMOVED))
      && table.rows == old(table.rows)[a := old(table.rows)[a].(userId := None)]
  {
    var halt := RequireAdmin(current);
    if halt.Some? {
      return halt.value;
    }
    if userId !in users {
      return NotFound;
    }
    var user := users[userId];
    var a := FindId(table.rows, awardRateId);
    if a.None? {
      return NotFound;
    }
    if table.rows[a.value].userId != None {
      table.WriteUserId(a.value, None);
    }
    resp := Redirect(AssignAwardPath(user.id), Notice(ASSIGNMENT_REMOVED));
  }
}
