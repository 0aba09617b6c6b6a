// app/models/award_rate.rb: an award pay rate, optionally assigned to a user;
// its validations and scopes, and the upsert from a Fair Work API answer,
// for one user and award or for every assigned rate in the table.

module AwardRates {
  import opened Wrappers
  import opened Calendar
  import opened Money
  import opened Users
  import opened Validation
  import opened Collections

  /** A stored award rate; `userId` is None for an unassigned rate. */
  datatype AwardRate = AwardRate(
    id: int,
    userId: Option<UserId>,
    awardCode: string,
    classification: string,
    rate: real,
    effectiveDate: Date)

  /** The attributes of an award rate being saved. */
  datatype AwardRateAttrs = AwardRateAttrs(
    awardCode: Option<string>,
    classification: Option<string>,
    rate: Option<real>,
    effectiveDate: Option<Date>)

  const TOO_SHORT := "is too short (minimum is 2 characters)"
  const NOT_A_NUMBER := "is not a number"
  const NOT_POSITIVE := "must be greater than 0"

  /**
   * `length: { minimum: 2 }`: a missing code counts as length 0, so nil gets
   * this error as well as the presence one.
   */
  function LengthErrors(code: Option<string>): seq<FieldError> {
    if code.None? || |code.value| < 2 then [FieldError("award_code", TOO_SHORT)] else []
  }

  /**
   * `presence` then `numericality: { greater_than: 0, scale: 2 }`: nil is
   * blank and not a number; a number is compared with 0 after rounding it to
   * two places.
   */
  function RateErrors(rate: Option<real>): seq<FieldError> {
    if rate.None? then [FieldError("rate", CANT_BE_BLANK), FieldError("rate", NOT_A_NUMBER)]
    else if Round2(rate.value) <= 0.0 then [FieldError("rate", NOT_POSITIVE)]
    else []
  }

  /** The validations in declaration order; the user is optional. */
  function Errors(a: AwardRateAttrs): seq<FieldError> {
    (if Blank(a.awardCode) then [FieldError("award_code", CANT_BE_BLANK)] else [])
    + LengthErrors(a.awardCode)
    + (if Blank(a.classification) then [FieldError("classification", CANT_BE_BLANK)] else [])
    + RateErrors(a.rate)
    + PresenceError("effective_date", a.effectiveDate)
  }

  predicate Valid(a: AwardRateAttrs) {
    Errors(a) == []
  }

  /** Valid exactly when the code has two or more characters and is not blank, the classification is not blank, the rate rounds above 0 and the date is there. */
  lemma ValidIff(a: AwardRateAttrs)
    ensures Valid(a) <==>
      a.awardCode.Some? && !BlankText(a.awardCode.value) && |a.awardCode.value| >= 2
      && a.classification.Some? && !BlankText(a.classification.value)
      && a.rate.Some? && Round2(a.rate.value) > 0.0
      && a.effectiveDate.Some?
  {
  }

  /** A rate of a cent or more passes the rate check; zero and below never do. */
  lemma RateBounds(rate: real)
    ensures rate >= 0.01 ==> RateErrors(Some(rate)) == []
    ensures rate <= 0.0 ==> RateErrors(Some(rate)) == [FieldError("rate", NOT_POSITIVE)]
  {
    if rate <= 0.0 {
      Round2NonPositive(rate);
    }
  }

  function AttrsOf(r: AwardRate): AwardRateAttrs {
    AwardRateAttrs(Some(r.awardCode), Some(r.classification), Some(r.rate), Some(r.effectiveDate))
  }

  predicate RowValid(r: AwardRate) {
    Valid(AttrsOf(r))
  }

  /** The rows of `where(...)` for a row condition, in table order. */
  function Where(rows: seq<AwardRate>, p: AwardRate -> bool): (r: seq<AwardRate>)
    ensures forall x :: x in r <==> x in rows && p(x)
    ensures |r| <= |rows|
  {
    if rows == [] then []
    else
      var init, last := rows[..|rows| - 1], rows[|rows| - 1];
      assert rows == init + [last];
      Where(init, p) + (if p(last) then [last] else [])
  }

  /** `active`: in effect on or before today. */
  function Active(rows: seq<AwardRate>, today: Date): (r: seq<AwardRate>)
    ensures forall x :: x in r <==> x in rows && x.effectiveDate <= today
  {
    Where(rows, (x: AwardRate) => x.effectiveDate <= today)
  }

  /** `by_award_code` */
  function ByAwardCode(rows: seq<AwardRate>, code: string): (r: seq<AwardRate>)
    ensures forall x :: x in r <==> x in rows && x.awardCode == code
  {
    Where(rows, (x: AwardRate) => x.awardCode == code)
  }

  /** `for_user`: `where(user: nil)` picks the unassigned rates. */
  function ForUser(rows: seq<AwardRate>, user: Option<UserId>): (r: seq<AwardRate>)
    ensures forall x :: x in r <==> x in rows && x.userId == user
  {
    Where(rows, (x: AwardRate) => x.userId == user)
  }

  /** `current`: in effect during the month of today, given as its first and last day. */
  function Current(rows: seq<AwardRate>, monthStart: Date, monthEnd: Date): (r: seq<AwardRate>)
    ensures forall x :: x in r <==> x in rows && monthStart <= x.effectiveDate <= monthEnd
  {
    Where(rows, (x: AwardRate) => monthStart <= x.effectiveDate <= monthEnd)
  }

  /** What `find_or_initialize_by` looks a rate up by. */
  datatype RateKey = RateKey(user: Option<UserId>, awardCode: string, classification: string)

  function KeyOf(r: AwardRate): RateKey {
    RateKey(r.userId, r.awardCode, r.classification)
  }

  function KeysOf(rows: seq<AwardRate>): (keys: seq<RateKey>)
    ensures |keys| == |rows| && forall i :: 0 <= i < |rows| ==> keys[i] == KeyOf(rows[i])
  {
    seq(|rows|, i requires 0 <= i < |rows| => KeyOf(rows[i]))
  }

  /** The first row with `key` at or after position k. */
  function FindFrom(rows: seq<AwardRate>, key: RateKey, k: nat): (i: Option<nat>)
    requires k <= |rows|
    ensures i.Some? ==> k <= i.value < |rows| && KeyOf(rows[i.value]) == key
    ensures i.Some? ==> forall j :: k <= j < i.value ==> KeyOf(rows[j]) != key
    ensures i.None? ==> forall j :: k <= j < |rows| ==> KeyOf(rows[j]) != key
    decreases |rows| - k
  {
    if k == |rows| then None
    else if KeyOf(rows[k]) == key then Some(k)
    else FindFrom(rows, key, k + 1)
  }

  /** `find_by`/`find_or_initialize_by` without an order: the first matching row in table order. */
  function FindRate(rows: seq<AwardRate>, key: RateKey): (i: Option<nat>)
    ensures i.Some? ==> i.value < |rows| && KeyOf(rows[i.value]) == key
    ensures i.Some? ==> forall j :: 0 <= j < i.value ==> KeyOf(rows[j]) != key
    ensures i.None? <==> key !in KeysOf(rows)
  {
    var i := FindFrom(rows, key, 0);
    assert i.Some? ==> KeysOf(rows)[i.value] == key;
    i
  }

  /** `AwardRate.find(id)`: the row with that id, if any. */
  function FindId(rows: seq<AwardRate>, id: int): (i: Option<nat>)
    ensures i.Some? ==> i.value < |rows| && rows[i.value].id == id
    ensures i.None? <==> forall j :: 0 <= j < |rows| ==> rows[j].id != id
  {
    if rows == [] then None
    else
      var i := FindId(rows[..|rows| - 1], id);
      assert forall j :: 0 <= j < |rows| - 1 ==> rows[..|rows| - 1][j] == rows[j];
      if i.Some? then i
      else if rows[|rows| - 1].id == id then Some(|rows| - 1)
      else None
  }

  /** The table: ids below the next id and distinct, every row passing the validations. */
  ghost predicate TableValid(rows: seq<AwardRate>, nextId: int) {
    (forall i :: 0 <= i < |rows| ==> rows[i].id < nextId && RowValid(rows[i]))
    && (forall i, j :: 0 <= i < j < |rows| ==> rows[i].id != rows[j].id)
  }

  /** An answer of `FairWorkApiService#fetch_award_rate`. */
  datatype ApiResult = ApiSuccess(rate: real) | ApiFailure(error: string)

  /** What `fetch_and_update_rates_for_user` ends with: the saved rate, nil, or `save!` raising. */
  datatype FetchOutcome = Saved(record: AwardRate) | ApiFailed | RecordInvalid(errors: seq<FieldError>)

  datatype Upserted = Upserted(rows: seq<AwardRate>, nextId: int, outcome: FetchOutcome)

  /**
   * `fetch_and_update_rates_for_user`, on the table: nothing happens when the
   * API fails; otherwise the user's first rate with this code and
   * classification (or a new one) gets the API rate and today's date, and is
   * saved unless it fails validation.
   */
  function FetchAndUpdate(rows: seq<AwardRate>, nextId: int, user: UserId, code: string, classification: string,
                          api: ApiResult, today: Date): (r: Upserted)
    ensures api.ApiFailure? ==> r == Upserted(rows, nextId, ApiFailed)
    ensures r.outcome.RecordInvalid? ==> r.rows == rows && r.nextId == nextId && r.outcome.errors != []
    ensures r.outcome.Saved? ==>
      api.ApiSuccess? && KeyOf(r.outcome.record) == RateKey(Some(user), code, classification)
      && r.outcome.record.rate == api.rate && r.outcome.record.effectiveDate == today
      && RowValid(r.outcome.record)
  {
    if api.ApiFailure? then Upserted(rows, nextId, ApiFailed)
    else
      var i := FindRate(rows, RateKey(Some(user), code, classification));
      var record := if i.Some? then rows[i.value] else AwardRate(nextId, Some(user), code, classification, 0.0, 0);
      var changed := record.(rate := api.rate, effectiveDate := today);
      var errors := Errors(AttrsOf(changed));
      if errors != [] then Upserted(rows, nextId, RecordInvalid(errors))
      else if i.Some? then Upserted(rows[i.value := changed], nextId, Saved(changed))
      else Upserted(rows + [changed], nextId + 1, Saved(changed))
  }

  /** An existing rate for the user, code and classification is updated in place, keeping its id. */
  lemma UpdatesExistingInPlace(rows: seq<AwardRate>, nextId: int, user: UserId, code: string, classification: string,
                               api: ApiResult, today: Date)
    requires FindRate(rows, RateKey(Some(user), code, classification)).Some?
    requires FetchAndUpdate(rows, nextId, user, code, classification, api, today).outcome.Saved?
    ensures var r, i := FetchAndUpdate(rows, nextId, user, code, classification, api, today),
                       FindRate(rows, RateKey(Some(user), code, classification)).value;
      r.nextId == nextId && |r.rows| == |rows|
      && r.rows[i] == r.outcome.record && r.outcome.record.id == rows[i].id
      && forall j :: 0 <= j < |rows| && j != i ==> r.rows[j] == rows[j]
  {
  }

  /** Without such a rate a new one is created with the next id. */
  lemma CreatesWhenMissing(rows: seq<AwardRate>, nextId: int, user: UserId, code: string, classification: string,
                           api: ApiResult, today: Date)
    requires FindRate(rows, RateKey(Some(user), code, classification)).None?
    requires FetchAndUpdate(rows, nextId, user, code, classification, api, today).outcome.Saved?
    ensures var r := FetchAndUpdate(rows, nextId, user, code, classification, api, today);
      r.nextId == nextId + 1 && r.rows == rows + [AwardRate(nextId, Some(user), code, classification, api.rate, today)]
  {
  }

  /** The upsert keeps the table's ids unique and every row valid. */
  lemma FetchKeepsTableValid(rows: seq<AwardRate>, nextId: int, user: UserId, code: string, classification: string,
                             api: ApiResult, today: Date)
    requires TableValid(rows, nextId)
    ensures var r := FetchAndUpdate(rows, nextId, user, code, classification, api, today);
      TableValid(r.rows, r.nextId)
  {
    var r := FetchAndUpdate(rows, nextId, user, code, classification, api, today);
    if r.outcome.Saved? {
      var i := FindRate(rows, RateKey(Some(user), code, classification));
      if i.Some? {
        ReplaceKeepsTableValid(rows, nextId, i.value, r.outcome.record);
      } else {
        AppendKeepsTableValid(rows, nextId, r.outcome.record);
      }
    }
  }

  /** A valid row in place of another, with its id, keeps the table valid. */
  lemma ReplaceKeepsTableValid(rows: seq<AwardRate>, nextId: int, i: nat, x: AwardRate)
    requires TableValid(rows, nextId) && i < |rows| && x.id == rows[i].id && RowValid(x)
    ensures TableValid(rows[i := x], nextId)
  {
  }

  /** A valid row appended with the next id keeps the table valid. */
  lemma AppendKeepsTableValid(rows: seq<AwardRate>, nextId: int, x: AwardRate)
    requires TableValid(rows, nextId) && x.id == nextId && RowValid(x)
    ensures TableValid(rows + [x], nextId + 1)
  {
    var r := rows + [x];
    forall a, b | 0 <= a < b < |r| ensures r[a].id != r[b].id {
      if b == |rows| {
        assert r[a] == rows[a];
      }
    }
  }

  /** Rows that differ at most in their user keep the table valid. */
  lemma SameColumnsKeepTableValid(rows: seq<AwardRate>, r: seq<AwardRate>, nextId: int)
    requires TableValid(rows, nextId) && |r| == |rows|
    requires forall j :: 0 <= j < |rows| ==> r[j] == rows[j].(userId := r[j].userId)
    ensures TableValid(r, nextId)
  {
    forall j | 0 <= j < |rows| ensures r[j].id == rows[j].id && AttrsOf(r[j]) == AttrsOf(rows[j]) {
      assert r[j] == rows[j].(userId := r[j].userId);
    }
  }

  /** Once saved, a second fetch for the same user, code and classification creates nothing. */
  lemma SecondFetchCreatesNothing(rows: seq<AwardRate>, nextId: int, user: UserId, code: string, classification: string,
                                  api: ApiResult, api2: ApiResult, today: Date, today2: Date)
    requires FetchAndUpdate(rows, nextId, user, code, classification, api, today).outcome.Saved?
    ensures var r := FetchAndUpdate(rows, nextId, user, code, classification, api, today);
      var r2 := FetchAndUpdate(r.rows, r.nextId, user, code, classification, api2, today2);
      |r2.rows| == |r.rows| && r2.nextId == r.nextId
  {
    var key := RateKey(Some(user), code, classification);
    var r := FetchAndUpdate(rows, nextId, user, code, classification, api, today);
    var i := FindRate(rows, key);
    if i.Some? {
      assert KeysOf(r.rows)[i.value] == key;
    } else {
      assert KeysOf(r.rows)[|rows|] == key;
    }
  }

  /** The award_rates table and its id sequence. */
  class AwardRateTable {
    var rows: seq<AwardRate>
    var nextId: int

    ghost predicate Valid()
      reads this
    {
      TableValid(rows, nextId)
    }

    constructor ()
      ensures Valid() && rows == [] && nextId == 1
    {
      rows := [];
      nextId := 1;
    }

    /**
     * `update(user_id: u)` once the record's change is detected: only the
     * user column of that row is written, and the user is not validated.
     */
    method WriteUserId(i: nat, u: Option<UserId>)
      requires Valid() && i < |rows|
      modifies this
      ensures Valid()
      ensures rows == old(rows)[i := old(rows)[i].(userId := u)] && nextId == old(nextId)
    {
      SameColumnsKeepTableValid(rows, rows[i := rows[i].(userId := u)], nextId);
      rows := rows[i := rows[i].(userId := u)];
    }

    /**
     * `fetch_and_update_rates_for_user(user, award_code, classification)` with
     * the API's answer `api`: `find_or_initialize_by`, set rate and date, `save!`.
     */
    method FetchAndUpdateRatesForUser(user: UserId, code: string, classification: string, api: ApiResult, today: Date)
      returns (outcome: FetchOutcome)
      requires Valid()
      modifies this
      ensures Valid()
      ensures Upserted(rows, nextId, outcome) == FetchAndUpdate(old(rows), old(nextId), user, code, classification, api, today)
    {
      if api.ApiFailure? {
        return ApiFailed;
      }
      var i := FindRate(rows, RateKey(Some(user), code, classification));
      var record := if i.Some? then rows[i.value] else AwardRate(nextId, Some(user), code, classification, 0.0, 0);
      record := record.(rate := api.rate, effectiveDate := today);
      var errors := Errors(AttrsOf(record));
      if errors != [] {
        return RecordInvalid(errors);
      }
      if i.Some? {
        rows := rows[i.value := record];
      } else {
        rows := rows + [record];
        nextId := nextId + 1;
      }
      outcome := Saved(record);
      assert Upserted(rows, nextId, outcome) == FetchAndUpdate(old(rows), old(nextId), user, code, classification, api, today);
      FetchKeepsTableValid(old(rows), old(nextId), user, code, classification, api, today);
    }

    /**
     * `update_all_rates_from_api`, with `api` answering for each award code:
     * for every user holding a rate (first-seen order), for each of that
     * user's rates, the upsert above. A `save!` that raises ends the run.
     * No rate is created, no key changes, and a changed rate carries the API
     * rate and today's date.
     */
    method UpdateAllRatesFromApi(api: string -> ApiResult, today: Date) returns (r: Result<(), seq<FieldError>>)
      requires Valid()
      modifies this
      ensures Valid()
      ensures nextId == old(nextId) && Refreshed(old(rows), rows, api, today)
      ensures r.Success? ==> forall i :: 0 <= i < |old(rows)| && old(rows)[i].userId.Some? ==>
        Applied(old(rows), rows, api, today, KeyOf(old(rows)[i]))
    {
      ghost var orig := rows;
      var owners := Dedup(OwnersOf(rows));
      OwnersListed(orig);
      var k := 0;
      while k < |owners|
        invariant Valid() && 0 <= k <= |owners|
        invariant nextId == old(nextId) && Refreshed(orig, rows, api, today)
        invariant OwnersApplied(orig, rows, api, today, owners, k)
      {
        var u := owners[k];
        var mine := ForUser(rows, Some(u));
        ghost var start := rows;
        KeysOfRows(rows);
        var m := 0;
        while m < |mine|
          invariant Valid() && 0 <= m <= |mine|
          invariant nextId == old(nextId) && Refreshed(orig, rows, api, today)
          invariant forall x :: x in mine ==> x.userId == Some(u) && KeyOf(x) in KeysOf(orig)
          invariant OwnersApplied(orig, rows, api, today, owners, k) && RatesApplied(orig, rows, api, today, mine, m)
        {
          var a := mine[m];
          RunStep(orig, rows, nextId, u, api, today, owners, k, mine, m);
          var outcome := FetchAndUpdateRatesForUser(u, a.awardCode, a.classification, api(a.awardCode), today);
          if outcome.RecordInvalid? {
            return Failure(outcome.errors);
          }
          m := m + 1;
        }
        OwnerDone(orig, start, rows, api, today, owners, k);
        k := k + 1;
      }
      AllOwnersDone(orig, rows, api, today, owners);
      r := Success(());
    }
  }

  /**
   * `after` is `before` with some rates refreshed: the same number of rows
   * and keys, and each row either untouched or, with the same id, carrying
   * the API rate for its code and the given date. Only an assigned rate that
   * `find_or_initialize_by` finds for its own key (the first row with that
   * user, code and classification) can change.
   */
  ghost predicate Refreshed(before: seq<AwardRate>, after: seq<AwardRate>, api: string -> ApiResult, today: Date) {
    |after| == |before| && KeysOf(after) == KeysOf(before)
    && forall i :: 0 <= i < |after| ==> (after[i] == before[i]
      || (after[i].id == before[i].id && before[i].userId.Some? && FindRate(before, KeyOf(before[i])) == Some(i)
          && api(after[i].awardCode).ApiSuccess?
          && after[i].rate == api(after[i].awardCode).rate && after[i].effectiveDate == today))
  }

  /**
   * Under `Refreshed`, an unassigned rate and a user's later row with the
   * key of an earlier one are never written: they stay exactly as they were.
   */
  lemma OnlyFoundRatesChange(before: seq<AwardRate>, after: seq<AwardRate>, api: string -> ApiResult, today: Date,
                             i: nat, j: nat)
    requires Refreshed(before, after, api, today) && i < |before| && j < |before|
    ensures before[i].userId.None? ==> after[i] == before[i]
    ensures j < i && KeyOf(before[j]) == KeyOf(before[i]) ==> after[i] == before[i]
  {
    if j < i && KeyOf(before[j]) == KeyOf(before[i]) {
      var f := FindRate(before, KeyOf(before[i]));
      assert f.Some? && f.value <= j;
    }
  }

  lemma KeysOfRows(rows: seq<AwardRate>)
    ensures forall x :: x in rows ==> KeyOf(x) in KeysOf(rows)
  {
    forall x | x in rows ensures KeyOf(x) in KeysOf(rows) {
      var i :| 0 <= i < |rows| && rows[i] == x;
      assert KeysOf(rows)[i] == KeyOf(x);
    }
  }

  /** Refreshing one existing rate of a refreshed table leaves it refreshed, with the same next id. */
  lemma RefreshStep(orig: seq<AwardRate>, rows: seq<AwardRate>, nextId: int, user: UserId, code: string,
                    classification: string, api: string -> ApiResult, today: Date)
    requires Refreshed(orig, rows, api, today)
    requires RateKey(Some(user), code, classification) in KeysOf(orig)
    ensures var r := FetchAndUpdate(rows, nextId, user, code, classification, api(code), today);
      r.nextId == nextId && Refreshed(orig, r.rows, api, today)
  {
    var key := RateKey(Some(user), code, classification);
    var r := FetchAndUpdate(rows, nextId, user, code, classification, api(code), today);
    assert key in KeysOf(rows);
    if r.outcome.Saved? {
      var i := FindRate(rows, key).value;
      UpdatesExistingInPlace(rows, nextId, user, code, classification, api(code), today);
      assert KeysOf(r.rows) == KeysOf(rows) by {
        assert forall j :: 0 <= j < |rows| ==> KeyOf(r.rows[j]) == KeyOf(rows[j]);
      }
    }
  }

  /**
   * After a successful run, the rate `find_or_initialize_by` finds for `key`
   * (the first row with that user, code and classification) carries the API
   * rate for the code and the given date, whenever the API answered.
   */
  ghost predicate Applied(orig: seq<AwardRate>, rows: seq<AwardRate>, api: string -> ApiResult, today: Date,
                          key: RateKey) {
    api(key.awardCode).ApiSuccess? ==>
      forall j :: 0 <= j < |rows| && FindRate(orig, key) == Some(j) ==>
        rows[j].rate == api(key.awardCode).rate && rows[j].effectiveDate == today
  }

  /** Tables with the same keys row by row find every key at the same row. */
  lemma FindRateByKeys(a: seq<AwardRate>, b: seq<AwardRate>, key: RateKey)
    requires KeysOf(a) == KeysOf(b)
    ensures FindRate(a, key) == FindRate(b, key)
  {
    var i, j := FindRate(a, key), FindRate(b, key);
    assert forall t :: 0 <= t < |a| ==> KeyOf(a[t]) == KeysOf(b)[t] == KeyOf(b[t]);
    if i.Some? && j.Some? {
      assert KeyOf(a[j.value]) == key && KeyOf(b[i.value]) == key;
    }
  }

  /**
   * One upsert of an existing key during the run: every key already applied
   * stays applied, and unless `save!` raised, the upserted key is applied.
   */
  lemma AppliedStep(orig: seq<AwardRate>, rows: seq<AwardRate>, nextId: int, user: UserId, code: string,
                    classification: string, api: string -> ApiResult, today: Date)
    requires Refreshed(orig, rows, api, today)
    requires RateKey(Some(user), code, classification) in KeysOf(orig)
    ensures var r := FetchAndUpdate(rows, nextId, user, code, classification, api(code), today);
      (forall key :: Applied(orig, rows, api, today, key) ==> Applied(orig, r.rows, api, today, key))
      && (!r.outcome.RecordInvalid? ==> Applied(orig, r.rows, api, today, RateKey(Some(user), code, classification)))
  {
    var key := RateKey(Some(user), code, classification);
    var r := FetchAndUpdate(rows, nextId, user, code, classification, api(code), today);
    assert key in KeysOf(rows);
    if r.outcome.Saved? {
      var i := FindRate(rows, key).value;
      UpdatesExistingInPlace(rows, nextId, user, code, classification, api(code), today);
      FindRateByKeys(orig, rows, key);
      assert Applied(orig, r.rows, api, today, key);
      forall other | Applied(orig, rows, api, today, other)
        ensures Applied(orig, r.rows, api, today, other)
      {
        var j := FindRate(orig, other);
        if j.Some? && j.value != i {
          assert r.rows[j.value] == rows[j.value];
        }
      }
    }
  }

  /** Every rate of each of the first k owners is applied. */
  ghost predicate OwnersApplied(orig: seq<AwardRate>, rows: seq<AwardRate>, api: string -> ApiResult, today: Date,
                                owners: seq<UserId>, k: int) {
    forall i, t :: 0 <= i < |orig| && 0 <= t < k && t < |owners| && orig[i].userId == Some(owners[t]) ==>
      Applied(orig, rows, api, today, KeyOf(orig[i]))
  }

  /** The key of each of the first m rates in `ks` is applied. */
  ghost predicate RatesApplied(orig: seq<AwardRate>, rows: seq<AwardRate>, api: string -> ApiResult, today: Date,
                               ks: seq<AwardRate>, m: int) {
    forall t :: 0 <= t < m && t < |ks| ==> Applied(orig, rows, api, today, KeyOf(ks[t]))
  }

  /** One upsert of the run, for rate m of owner k, with what it keeps and what it adds. */
  lemma RunStep(orig: seq<AwardRate>, rows: seq<AwardRate>, nextId: int, u: UserId, api: string -> ApiResult,
                today: Date, owners: seq<UserId>, k: int, ks: seq<AwardRate>, m: nat)
    requires Refreshed(orig, rows, api, today)
    requires m < |ks| && ks[m].userId == Some(u) && KeyOf(ks[m]) in KeysOf(orig)
    requires OwnersApplied(orig, rows, api, today, owners, k) && RatesApplied(orig, rows, api, today, ks, m)
    ensures var r := FetchAndUpdate(rows, nextId, u, ks[m].awardCode, ks[m].classification, api(ks[m].awardCode), today);
      r.nextId == nextId && Refreshed(orig, r.rows, api, today) && OwnersApplied(orig, r.rows, api, today, owners, k)
      && (!r.outcome.RecordInvalid? ==> RatesApplied(orig, r.rows, api, today, ks, m + 1))
  {
    var a := ks[m];
    RefreshStep(orig, rows, nextId, u, a.awardCode, a.classification, api, today);
    AppliedStep(orig, rows, nextId, u, a.awardCode, a.classification, api, today);
  }

  /** Once every rate of owner k, as listed when the owner's turn began, is applied, so is each of that owner's rows. */
  lemma OwnerDone(orig: seq<AwardRate>, start: seq<AwardRate>, rows: seq<AwardRate>,
                  api: string -> ApiResult, today: Date, owners: seq<UserId>, k: nat)
    requires Refreshed(orig, start, api, today) && k < |owners|
    requires var mine := ForUser(start, Some(owners[k])); RatesApplied(orig, rows, api, today, mine, |mine|)
    requires OwnersApplied(orig, rows, api, today, owners, k)
    ensures OwnersApplied(orig, rows, api, today, owners, k + 1)
  {
    var mine := ForUser(start, Some(owners[k]));
    forall i, t | 0 <= i < |orig| && 0 <= t < k + 1 && t < |owners| && orig[i].userId == Some(owners[t])
      ensures Applied(orig, rows, api, today, KeyOf(orig[i]))
    {
      if t == k {
        assert KeysOf(start)[i] == KeysOf(orig)[i];
        assert start[i] in mine;
        var s :| 0 <= s < |mine| && mine[s] == start[i];
      }
    }
  }

  /** Having gone through every owner of a rate, every assigned rate is applied. */
  lemma AllOwnersDone(orig: seq<AwardRate>, rows: seq<AwardRate>, api: string -> ApiResult, today: Date,
                      owners: seq<UserId>)
    requires OwnersApplied(orig, rows, api, today, owners, |owners|)
    requires forall i :: 0 <= i < |orig| && orig[i].userId.Some? ==> orig[i].userId.value in owners
    ensures forall i :: 0 <= i < |orig| && orig[i].userId.Some? ==> Applied(orig, rows, api, today, KeyOf(orig[i]))
  {
    forall i | 0 <= i < |orig| && orig[i].userId.Some?
      ensures Applied(orig, rows, api, today, KeyOf(orig[i]))
    {
      var t :| 0 <= t < |owners| && owners[t] == orig[i].userId.value;
    }
  }

  /** The run's list of owners names the owner of every assigned rate. */
  lemma OwnersListed(orig: seq<AwardRate>)
    ensures forall i :: 0 <= i < |orig| && orig[i].userId.Some? ==> orig[i].userId.value in Dedup(OwnersOf(orig))
  {
    forall i | 0 <= i < |orig| && orig[i].userId.Some?
      ensures orig[i].userId.value in Dedup(OwnersOf(orig))
    {
      var u := orig[i].userId.value;
      assert orig[i].userId == Some(u);
      assert u in OwnersOf(orig);
    }
  }

  /**
   * When no two rates share a user, code and classification, a successful
   * run leaves every assigned rate whose code the API answered with the API
   * rate and today's date.
   */
  lemma EveryAssignedRateRefreshed(orig: seq<AwardRate>, rows: seq<AwardRate>, api: string -> ApiResult, today: Date)
    requires |rows| == |orig|
    requires forall i, j :: 0 <= i < j < |orig| ==> KeyOf(orig[i]) != KeyOf(orig[j])
    requires forall i :: 0 <= i < |orig| && orig[i].userId.Some? ==> Applied(orig, rows, api, today, KeyOf(orig[i]))
    ensures forall i :: 0 <= i < |orig| && orig[i].userId.Some? && api(orig[i].awardCode).ApiSuccess? ==>
      rows[i].rate == api(orig[i].awardCode).rate && rows[i].effectiveDate == today
  {
    forall i | 0 <= i < |orig| && orig[i].userId.Some? && api(orig[i].awardCode).ApiSuccess?
      ensures rows[i].rate == api(orig[i].awardCode).rate && rows[i].effectiveDate == today
    {
      assert KeysOf(orig)[i] == KeyOf(orig[i]);
      assert Applied(orig, rows, api, today, KeyOf(orig[i]));
    }
  }

  /** `User.joins(:award_rates)`: the owner of each assigned rate, row by row. */
  function OwnersOf(rows: seq<AwardRate>): (owners: seq<UserId>)
    ensures forall u :: u in owners <==> exists i :: 0 <= i < |rows| && rows[i].userId == Some(u)
  {
    if rows == [] then []
    else
      var init, last := rows[..|rows| - 1], rows[|rows| - 1];
      assert forall i :: 0 <= i < |init| ==> rows[i] == init[i];
      OwnersOf(init) + (if last.userId.Some? then [last.userId.value] else [])
  }
}
