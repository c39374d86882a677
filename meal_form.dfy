/** The meal-entry form: its editable rows, the boundary to the nutrition
    estimator, and the submission loop that turns the rows into the items of a
    new meal, stopping at the first row that fails. */
module MealForm {
  import opened Types
  import opened Text

  // ---------------------------------------------------------------------------
  // Rows and their editing helpers
  // ---------------------------------------------------------------------------

  /** One row of the form: its local id, the three text fields and its error note. */
  datatype DraftRow = DraftRow(
    localId: string,
    foodName: string,
    quantity: string,
    manualCaloriesStr: string,
    apiError: Option<string>)

  /** The fields a row editor changes. */
  datatype Field = FoodName | Quantity | ManualCalories

  function FieldValue(row: DraftRow, field: Field): string {
    match field
    case FoodName => row.foodName
    case Quantity => row.quantity
    case ManualCalories => row.manualCaloriesStr
  }

  /** A fresh row with every text field empty. */
  function BlankRow(localId: string): DraftRow {
    DraftRow(localId, "", "", "", None)
  }

  /** The row with one field replaced and its error note cleared. */
  function EditRow(row: DraftRow, field: Field, value: string): DraftRow {
    match field
    case FoodName => row.(foodName := value, apiError := None)
    case Quantity => row.(quantity := value, apiError := None)
    case ManualCalories => row.(manualCaloriesStr := value, apiError := None)
  }

  predicate HasLocalId(rows: seq<DraftRow>, localId: string) {
    exists k :: 0 <= k < |rows| && rows[k].localId == localId
  }

  predicate LocalIdsUnique(rows: seq<DraftRow>) {
    forall i, j :: 0 <= i < j < |rows| ==> rows[i].localId != rows[j].localId
  }

  /** handleItemChange: rows with the given local id take the new value in the given
      field and lose their error note; their other fields and every other row stay. */
  function HandleItemChange(rows: seq<DraftRow>, localId: string, field: Field, value: string): (r: seq<DraftRow>)
    ensures |r| == |rows|
    ensures forall k :: 0 <= k < |rows| ==> r[k].localId == rows[k].localId
    ensures forall k :: 0 <= k < |rows| && rows[k].localId != localId ==> r[k] == rows[k]
    ensures forall k :: 0 <= k < |rows| && rows[k].localId == localId ==>
      && FieldValue(r[k], field) == value
      && r[k].apiError == None
      && forall g: Field :: g != field ==> FieldValue(r[k], g) == FieldValue(rows[k], g)
  {
    if rows == [] then []
    else [if rows[0].localId == localId then EditRow(rows[0], field, value) else rows[0]]
         + HandleItemChange(rows[1..], localId, field, value)
  }

  /** addFoodItemField: one blank row appended. */
  function AddFoodItemField(rows: seq<DraftRow>, localId: string): seq<DraftRow> {
    rows + [BlankRow(localId)]
  }

  /** removeFoodItemField: the rows whose local id differs, in their order. */
  function RemoveFoodItemField(rows: seq<DraftRow>, localId: string): (r: seq<DraftRow>)
    ensures |r| <= |rows|
    ensures forall k :: 0 <= k < |r| ==> r[k].localId != localId && r[k] in rows
    ensures forall k :: 0 <= k < |rows| && rows[k].localId != localId ==> rows[k] in r
    ensures !HasLocalId(rows, localId) ==> r == rows
  {
    if rows == [] then []
    else
      assert !HasLocalId(rows, localId) ==> !HasLocalId(rows[1..], localId) by {
        if HasLocalId(rows[1..], localId) {
          var k :| 0 <= k < |rows[1..]| && rows[1..][k].localId == localId;
          assert rows[k + 1].localId == localId;
        }
      }
      (if rows[0].localId == localId then [] else [rows[0]])
      + RemoveFoodItemField(rows[1..], localId)
  }

  /** Removing distributes over concatenation; with the single-row case this pins
      it down as the order-keeping filter. */
  lemma {:induction false} RemoveDistributes(a: seq<DraftRow>, b: seq<DraftRow>, localId: string)
    ensures RemoveFoodItemField(a + b, localId)
         == RemoveFoodItemField(a, localId) + RemoveFoodItemField(b, localId)
    decreases |a|
  {
    if a == [] {
      assert a + b == b;
    } else {
      assert (a + b)[1..] == a[1..] + b;
      RemoveDistributes(a[1..], b, localId);
    }
  }

  /** Removing rows keeps the local ids distinct. */
  lemma {:induction false} RemovePreservesUnique(rows: seq<DraftRow>, localId: string)
    requires LocalIdsUnique(rows)
    ensures LocalIdsUnique(RemoveFoodItemField(rows, localId))
    decreases |rows|
  {
    if rows != [] {
      RemovePreservesUnique(rows[1..], localId);
      var tail := RemoveFoodItemField(rows[1..], localId);
      forall k | 0 <= k < |tail|
        ensures tail[k].localId != rows[0].localId
      {
        var j :| 0 <= j < |rows[1..]| && rows[1..][j] == tail[k];
        assert rows[j + 1] == tail[k];
      }
    }
  }

  /** With distinct local ids at most one row goes, so a form with two or more rows
      (the only case where a remove button is shown) keeps at least one. */
  lemma RemoveKeepsARow(rows: seq<DraftRow>, localId: string)
    requires LocalIdsUnique(rows) && |rows| > 1
    ensures |RemoveFoodItemField(rows, localId)| >= 1
  {
    var r := RemoveFoodItemField(rows, localId);
    var kept := if rows[0].localId != localId then 0 else 1;
    assert rows[kept] in r;
  }

  /** A row added under a fresh local id keeps the local ids distinct. */
  lemma AddPreservesUnique(rows: seq<DraftRow>, localId: string)
    requires LocalIdsUnique(rows) && !HasLocalId(rows, localId)
    ensures LocalIdsUnique(AddFoodItemField(rows, localId))
  {
    var r := AddFoodItemField(rows, localId);
    forall i, j | 0 <= i < j < |r|
      ensures r[i].localId != r[j].localId
    {
      if j == |rows| {
        assert rows[i].localId != localId;
      }
    }
  }

  /** A row just added under a fresh local id is exactly what removing that id undoes. */
  lemma AddThenRemove(rows: seq<DraftRow>, localId: string)
    requires !HasLocalId(rows, localId)
    ensures RemoveFoodItemField(AddFoodItemField(rows, localId), localId) == rows
  {
    RemoveDistributes(rows, [BlankRow(localId)], localId);
    assert RemoveFoodItemField([BlankRow(localId)], localId) == [];
  }

  /** Editing a row and then removing it leaves the same rows as removing it at once. */
  lemma {:induction false} ChangeThenRemove(rows: seq<DraftRow>, localId: string, field: Field, value: string)
    ensures RemoveFoodItemField(HandleItemChange(rows, localId, field, value), localId)
         == RemoveFoodItemField(rows, localId)
    decreases |rows|
  {
    if rows != [] {
      var changed := HandleItemChange(rows, localId, field, value);
      assert changed[1..] == HandleItemChange(rows[1..], localId, field, value);
      ChangeThenRemove(rows[1..], localId, field, value);
    }
  }

  // ---------------------------------------------------------------------------
  // The estimator boundary
  // ---------------------------------------------------------------------------

  /** What the estimator is asked: the trimmed name and the trimmed quantity. */
  datatype EstimateRequest = EstimateRequest(foodName: string, quantity: string)

  /** What the estimator's reply parsed to. A number field is None when the parsed
      value is not a number; CallFailed stands for a failed call or unparsable text. */
  datatype RawReply =
    | Parsed(calories: Option<int>, protein: Option<int>, carbs: Option<int>, fat: Option<int>,
             error: Option<string>)
    | CallFailed

  /** The checked reply handed to the submission loop. */
  datatype NutritionalInfo = NutritionalInfo(calories: int, protein: int, carbs: int, fat: int,
                                             error: Option<string>)

  /** The estimator as an oracle: the reply to the call made for row `i`. Indexing by
      row lets the same question get different answers on different rows. */
  type Estimator = (nat, EstimateRequest) -> RawReply

  /** A string value that JavaScript treats as true: present and non-empty. */
  predicate Truthy(s: Option<string>) {
    s.Some? && s.value != []
  }

  predicate WellFormedReply(reply: RawReply) {
    && reply.Parsed?
    && !Truthy(reply.error)
    && reply.calories.Some? && reply.protein.Some? && reply.carbs.Some? && reply.fat.Some?
  }

  const InvalidFormatMessage: string := "Invalid data format from API."
  const CallFailedMessage: string := "API call failed. Check console for details."

  /** The shape check on the estimator's reply: a reply with an error or a
      non-numeric field becomes zeros with an error note, keeping the reply's own
      error text when it has one; a well-formed reply passes through. */
  function CheckReply(reply: RawReply): (info: NutritionalInfo)
    ensures Truthy(info.error) <==> !WellFormedReply(reply)
    ensures WellFormedReply(reply) ==>
      info == NutritionalInfo(reply.calories.value, reply.protein.value, reply.carbs.value,
                              reply.fat.value, reply.error)
    ensures !WellFormedReply(reply) ==>
      info.calories == 0 && info.protein == 0 && info.carbs == 0 && info.fat == 0
    ensures reply.Parsed? && Truthy(reply.error) ==> info.error == reply.error
  {
    match reply
    case CallFailed => NutritionalInfo(0, 0, 0, 0, Some(CallFailedMessage))
    case Parsed(c, p, cb, f, e) =>
      if Truthy(e) || c.None? || p.None? || cb.None? || f.None? then
        NutritionalInfo(0, 0, 0, 0, Some(if Truthy(e) then e.value else InvalidFormatMessage))
      else
        NutritionalInfo(c.value, p.value, cb.value, f.value, e)
  }

  // ---------------------------------------------------------------------------
  // Processing one row
  // ---------------------------------------------------------------------------

  /** Why a row stops the submission. `entry` is the 1-based row number. */
  datatype Failure =
    | EmptyName(entry: nat)
    | BadManualCalories(name: string)
    | EstimatorUnavailable(name: string)
    | QuantityRequired(name: string)
    | EstimationFailed(name: string, detail: string)

  function Quoted(s: string): string {
    "\"" + s + "\""
  }

  /** The text shown for a failure. */
  function Message(f: Failure): (m: string)
    ensures m != []
  {
    match f
    case EmptyName(entry) =>
      "Food item name for entry #" + NatToString(entry) + " cannot be empty."
    case BadManualCalories(name) =>
      "Manual calories for " + Quoted(name) + " must be a positive number."
    case EstimatorUnavailable(name) =>
      "API not available for " + Quoted(name) + ". Please enter calories manually or configure API key."
    case QuantityRequired(name) =>
      "Quantity for " + Quoted(name) + " is required for auto-calculation, or enter calories manually."
    case EstimationFailed(name, detail) =>
      "Error for " + Quoted(name) + ": " + detail
  }

  datatype RowResult = Accepted(item: FoodItemInput) | Rejected(failure: Failure)

  /** The quantity an item is submitted with: trimmed, or absent when empty. */
  function SubmittedQuantity(row: DraftRow): Option<string> {
    var q := Trim(row.quantity);
    if q == [] then None else Some(q)
  }

  /** The row is priced by the estimator: it has a name and a quantity, no manual
      calories, and the estimator is available. */
  predicate CallsEstimator(row: DraftRow, available: bool) {
    Trim(row.foodName) != [] && Trim(row.manualCaloriesStr) == [] && Trim(row.quantity) != [] && available
  }

  /** The question put to the estimator for a row. */
  function RequestFor(row: DraftRow): EstimateRequest {
    EstimateRequest(Trim(row.foodName), Trim(row.quantity))
  }

  /** What the submission loop does with row `i` (0-based). */
  function ProcessRow(row: DraftRow, i: nat, available: bool, estimate: Estimator): RowResult
  {
    var foodName := Trim(row.foodName);
    if foodName == [] then Rejected(EmptyName(i + 1))
    else
      var quantity := SubmittedQuantity(row);
      var manual := ParseInt(row.manualCaloriesStr);
      if Trim(row.manualCaloriesStr) != [] then
        if manual.None? || manual.value <= 0 then Rejected(BadManualCalories(foodName))
        else Accepted(FoodItemInput(foodName, quantity, manual.value, None, None, None, None))
      else if !available then Rejected(EstimatorUnavailable(foodName))
      else if quantity.None? then Rejected(QuantityRequired(foodName))
      else
        var info := CheckReply(estimate(i, EstimateRequest(foodName, quantity.value)));
        if Truthy(info.error) then Rejected(EstimationFailed(foodName, info.error.value))
        else Accepted(FoodItemInput(foodName, quantity, info.calories,
                                    Some(info.protein), Some(info.carbs), Some(info.fat), None))
  }

  /** The cases of one row: which failure it meets, in which order the checks run,
      and what an accepted item holds. */
  lemma ProcessRowCases(row: DraftRow, i: nat, available: bool, estimate: Estimator)
    ensures var r := ProcessRow(row, i, available, estimate);
      var named := Trim(row.foodName) != [];
      var manual := Trim(row.manualCaloriesStr) != [];
      // an empty name fails first, naming the 1-based entry
      && (r == Rejected(EmptyName(i + 1)) <==> !named)
      // a manual value must parse to a positive integer
      && (r.Rejected? && r.failure.BadManualCalories? <==>
            named && manual &&
            (ParseInt(row.manualCaloriesStr).None? || ParseInt(row.manualCaloriesStr).value <= 0))
      // without a manual value, a missing estimator is reported before a missing quantity
      && (r.Rejected? && r.failure.EstimatorUnavailable? <==> named && !manual && !available)
      && (r.Rejected? && r.failure.QuantityRequired? <==>
            named && !manual && available && Trim(row.quantity) == [])
      // the estimator's verdict decides only the rows it is asked about
      && (r.Rejected? && r.failure.EstimationFailed? <==>
            CallsEstimator(row, available) && Truthy(CheckReply(estimate(i, RequestFor(row))).error))
      // every other failure names the trimmed food name; an estimation failure
      // also carries the estimator's own error text
      && (r.Rejected? && r.failure.BadManualCalories? ==> r.failure == BadManualCalories(Trim(row.foodName)))
      && (r.Rejected? && r.failure.EstimatorUnavailable? ==> r.failure == EstimatorUnavailable(Trim(row.foodName)))
      && (r.Rejected? && r.failure.QuantityRequired? ==> r.failure == QuantityRequired(Trim(row.foodName)))
      && (r.Rejected? && r.failure.EstimationFailed? ==>
            r.failure == EstimationFailed(Trim(row.foodName), CheckReply(estimate(i, RequestFor(row))).error.value))
      // an accepted row keeps the trimmed name and quantity and has no error note
      && (r.Accepted? ==>
            && r.item.foodName == Trim(row.foodName) && named
            && r.item.quantity == SubmittedQuantity(row)
            && r.item.apiError == None)
      // manual calories: the parsed value, and no macros
      && (r.Accepted? && manual ==>
            && ParseInt(row.manualCaloriesStr) == Some(r.item.calories) && r.item.calories > 0
            && r.item.protein == None && r.item.carbs == None && r.item.fat == None)
      // estimated calories: the estimator's four values
      && (r.Accepted? && !manual ==>
            var info := CheckReply(estimate(i, RequestFor(row)));
            && CallsEstimator(row, available)
            && r.item.calories == info.calories
            && r.item.protein == Some(info.protein) && r.item.carbs == Some(info.carbs)
            && r.item.fat == Some(info.fat))
  {
  }

  /** A row the estimator is not asked about is processed the same whatever the
      estimator would answer. */
  lemma ProcessRowIgnoresEstimator(row: DraftRow, i: nat, available: bool, e1: Estimator, e2: Estimator)
    requires !CallsEstimator(row, available)
    ensures ProcessRow(row, i, available, e1) == ProcessRow(row, i, available, e2)
  {
  }

  // ---------------------------------------------------------------------------
  // The submission
  // ---------------------------------------------------------------------------

  /** The result of running the loop: every row's item, or the first failing row. */
  datatype SubmitOutcome = Succeeded(items: seq<FoodItemInput>) | Failed(index: nat, failure: Failure)

  /** Every row's result; row `k` hears `estimate(k, _)` from the estimator. */
  function RowResults(rows: seq<DraftRow>, available: bool, estimate: Estimator): (r: seq<RowResult>)
    ensures |r| == |rows|
  {
    if rows == [] then []
    else
      var n := |rows| - 1;
      RowResults(rows[..n], available, estimate) + [ProcessRow(rows[n], n, available, estimate)]
  }

  /** Row `k`'s entry is that row processed at position `k`. */
  lemma {:induction false} RowResultAt(rows: seq<DraftRow>, available: bool, estimate: Estimator, k: nat)
    requires k < |rows|
    ensures RowResults(rows, available, estimate)[k] == ProcessRow(rows[k], k, available, estimate)
    decreases |rows|
  {
    var n := |rows| - 1;
    if k < n {
      RowResultAt(rows[..n], available, estimate, k);
    }
  }

  /** The loop's result over `results[i..]`: every item in order, or the first
      failure and where it happened. */
  function Collect(results: seq<RowResult>, i: nat): (r: SubmitOutcome)
    requires i <= |results|
    decreases |results| - i
    ensures r.Succeeded? ==>
      && |r.items| == |results| - i
      && forall k :: i <= k < |results| ==> results[k] == Accepted(r.items[k - i])
    ensures r.Failed? ==>
      && i <= r.index < |results|
      && (forall k :: i <= k < r.index ==> results[k].Accepted?)
      && results[r.index] == Rejected(r.failure)
  {
    if i == |results| then Succeeded([])
    else
      match results[i]
      case Rejected(f) => Failed(i, f)
      case Accepted(item) =>
        var rest := Collect(results, i + 1);
        if rest.Succeeded? then Succeeded([item] + rest.items) else rest
  }

  /** The specification of handleSubmit's loop over all rows. */
  function Submission(rows: seq<DraftRow>, available: bool, estimate: Estimator): SubmitOutcome {
    Collect(RowResults(rows, available, estimate), 0)
  }

  lemma CollectSucceeds(results: seq<RowResult>, items: seq<FoodItemInput>)
    requires |items| == |results|
    requires forall k :: 0 <= k < |results| ==> results[k] == Accepted(items[k])
    ensures Collect(results, 0) == Succeeded(items)
  {
    var o := Collect(results, 0);
    if o.Succeeded? {
      assert o.items == items;
    }
  }

  lemma CollectFailsAt(results: seq<RowResult>, i: nat, f: Failure)
    requires i < |results|
    requires forall k :: 0 <= k < i ==> results[k].Accepted?
    requires results[i] == Rejected(f)
    ensures Collect(results, 0) == Failed(i, f)
  {
  }

  /** If every row is accepted, the submission succeeds with those items, in order. */
  lemma SubmissionSucceeds(rows: seq<DraftRow>, available: bool, estimate: Estimator, items: seq<FoodItemInput>)
    requires |items| == |rows|
    requires forall k :: 0 <= k < |rows| ==> ProcessRow(rows[k], k, available, estimate) == Accepted(items[k])
    ensures Submission(rows, available, estimate) == Succeeded(items)
  {
    forall k | 0 <= k < |rows| {
      RowResultAt(rows, available, estimate, k);
    }
    CollectSucceeds(RowResults(rows, available, estimate), items);
  }

  /** If the rows before `i` are accepted and row `i` fails, the submission fails
      there, whatever the later rows hold. */
  lemma SubmissionFailsAt(rows: seq<DraftRow>, available: bool, estimate: Estimator, i: nat, f: Failure)
    requires i < |rows|
    requires forall k :: 0 <= k < i ==> ProcessRow(rows[k], k, available, estimate).Accepted?
    requires ProcessRow(rows[i], i, available, estimate) == Rejected(f)
    ensures Submission(rows, available, estimate) == Failed(i, f)
  {
    forall k | 0 <= k <= i {
      RowResultAt(rows, available, estimate, k);
    }
    CollectFailsAt(RowResults(rows, available, estimate), i, f);
  }

  /** The positions below `n` whose flag is set, in increasing order. */
  function IndicesWhere(flags: seq<bool>, n: nat): (r: seq<nat>)
    requires n <= |flags|
    ensures forall j :: 0 <= j < |r| ==> r[j] < n && flags[r[j]]
    ensures forall j, j' :: 0 <= j < j' < |r| ==> r[j] < r[j']
    ensures forall k :: 0 <= k < n && flags[k] ==> k in r
  {
    if n == 0 then [] else IndicesWhere(flags, n - 1) + (if flags[n - 1] then [n - 1] else [])
  }

  /** For each row, whether the estimator prices it. */
  function EstimatedRows(rows: seq<DraftRow>, available: bool): (flags: seq<bool>)
    ensures |flags| == |rows|
    ensures forall k :: 0 <= k < |rows| ==> flags[k] == CallsEstimator(rows[k], available)
  {
    seq(|rows|, k requires 0 <= k < |rows| => CallsEstimator(rows[k], available))
  }

  /** The rows, in order, at which the first `n` iterations call the estimator:
      exactly the rows below `n` that it prices, each once. */
  function EstimatorCalls(rows: seq<DraftRow>, available: bool, n: nat): (calls: seq<nat>)
    requires n <= |rows|
    ensures forall j :: 0 <= j < |calls| ==> calls[j] < n && CallsEstimator(rows[calls[j]], available)
    ensures forall j, j' :: 0 <= j < j' < |calls| ==> calls[j] < calls[j']
    ensures forall k :: 0 <= k < n && CallsEstimator(rows[k], available) ==> k in calls
  {
    IndicesWhere(EstimatedRows(rows, available), n)
  }

  /** One more iteration adds its row to the calls exactly when the row is priced. */
  lemma EstimatorCallsStep(rows: seq<DraftRow>, available: bool, n: nat)
    requires n < |rows|
    ensures EstimatorCalls(rows, available, n + 1)
         == EstimatorCalls(rows, available, n) + (if CallsEstimator(rows[n], available) then [n] else [])
  {
  }

  /** How many rows the loop looks at: all of them, or up to the failing one. */
  function StopIndex(outcome: SubmitOutcome, rowCount: nat): nat {
    match outcome
    case Succeeded(_) => rowCount
    case Failed(j, _) => j + 1
  }

  /** The body of handleSubmit's loop for row `i`: the checks in the source's
      order, and at most one estimator call. `called` tells whether it was made. */
  method ProcessOne(rows: seq<DraftRow>, i: nat, available: bool, estimate: Estimator)
    returns (result: RowResult, called: bool)
    requires i < |rows|
    ensures result == RowResults(rows, available, estimate)[i]
    ensures called == CallsEstimator(rows[i], available)
  {
    RowResultAt(rows, available, estimate, i);
    var row := rows[i];
    called := false;
    if Trim(row.foodName) == [] {
      return Rejected(EmptyName(i + 1)), called;
    }
    var foodName := Trim(row.foodName);
    var quantity := if Trim(row.quantity) == [] then None else Some(Trim(row.quantity));
    var manualCaloriesNum := ParseInt(row.manualCaloriesStr);
    var finalCalories: int;
    var protein: Option<int>, carbs: Option<int>, fat: Option<int> := None, None, None;
    if Trim(row.manualCaloriesStr) != [] {
      if manualCaloriesNum.None? || manualCaloriesNum.value <= 0 {
        return Rejected(BadManualCalories(foodName)), called;
      }
      finalCalories := manualCaloriesNum.value;
    } else {
      if !available {
        return Rejected(EstimatorUnavailable(foodName)), called;
      }
      if quantity.None? {
        return Rejected(QuantityRequired(foodName)), called;
      }
      called := true;
      var info := CheckReply(estimate(i, EstimateRequest(foodName, quantity.value)));
      if Truthy(info.error) {
        return Rejected(EstimationFailed(foodName, info.error.value)), called;
      }
      finalCalories := info.calories;
      protein, carbs, fat := Some(info.protein), Some(info.carbs), Some(info.fat);
    }
    result := Accepted(FoodItemInput(foodName, quantity, finalCalories, protein, carbs, fat, None));
  }

  /** handleSubmit's loop: rows are taken in order, the first failing row ends the
      loop, and the estimator is called once for each row it prices, up to and
      including the failing row. */
  method ProcessRows(rows: seq<DraftRow>, available: bool, estimate: Estimator)
    returns (outcome: SubmitOutcome, calls: seq<nat>)
    ensures outcome == Submission(rows, available, estimate)
    ensures outcome.Failed? ==> outcome.index < |rows|
    ensures calls == EstimatorCalls(rows, available, StopIndex(outcome, |rows|))
  {
    ghost var results := RowResults(rows, available, estimate);
    var processed: seq<FoodItemInput> := [];
    var formHasErrors := false;
    var failure := EmptyName(0);
    calls := [];
    var i := 0;
    while i < |rows|
      invariant 0 <= i <= |rows|
      invariant !formHasErrors
      invariant |processed| == i
      invariant forall k :: 0 <= k < i ==> results[k] == Accepted(processed[k])
      invariant calls == EstimatorCalls(rows, available, i)
    {
      var result, called := ProcessOne(rows, i, available, estimate);
      EstimatorCallsStep(rows, available, i);
      if called {
        calls := calls + [i];
      }
      if result.Rejected? {
        failure := result.failure;
        formHasErrors := true;
        break;
      }
      processed := processed + [result.item];
      i := i + 1;
    }
    if formHasErrors {
      CollectFailsAt(results, i, failure);
      outcome := Failed(i, failure);
    } else {
      CollectSucceeds(results, processed);
      outcome := Succeeded(processed);
    }
  }

  // ---------------------------------------------------------------------------
  // What the form shows, and when it can be submitted
  // ---------------------------------------------------------------------------

  /** needsApiCall (the button reads "Add Meal (Calculate)"): some row would be
      priced by the estimator. */
  function NeedsApiCall(rows: seq<DraftRow>, available: bool): (b: bool)
    ensures b <==> exists k :: 0 <= k < |rows| && CallsEstimator(rows[k], available)
  {
    if rows == [] then false
    else
      assert forall k :: 1 <= k < |rows| ==> rows[1..][k - 1] == rows[k];
      CallsEstimator(rows[0], available) || NeedsApiCall(rows[1..], available)
  }

  /** The button's label is honest: a pass over every row (what a successful
      submission makes) consults the estimator exactly when needsApiCall holds. */
  lemma NeedsApiCallMatchesCalls(rows: seq<DraftRow>, available: bool)
    ensures NeedsApiCall(rows, available) <==> EstimatorCalls(rows, available, |rows|) != []
  {
    var calls := EstimatorCalls(rows, available, |rows|);
    if NeedsApiCall(rows, available) {
      var k :| 0 <= k < |rows| && CallsEstimator(rows[k], available);
      assert k in calls;
    }
    if calls != [] {
      assert CallsEstimator(rows[calls[0]], available);
    }
  }

  /** The submit button is enabled: not busy, at least one row, and, when the
      estimator is unavailable, a manual value in every row. */
  predicate SubmitEnabled(isSubmitting: bool, rows: seq<DraftRow>, available: bool) {
    && !isSubmitting
    && |rows| > 0
    && (available || forall k :: 0 <= k < |rows| ==> Trim(rows[k].manualCaloriesStr) != [])
  }

  /** With the button enabled, a submission never fails for want of the estimator. */
  lemma EnabledSubmitHasEstimatorWhenNeeded(rows: seq<DraftRow>, available: bool, estimate: Estimator)
    requires SubmitEnabled(false, rows, available)
    ensures var o := Submission(rows, available, estimate);
      !(o.Failed? && o.failure.EstimatorUnavailable?)
  {
    var o := Submission(rows, available, estimate);
    if o.Failed? {
      RowResultAt(rows, available, estimate, o.index);
      ProcessRowCases(rows[o.index], o.index, available, estimate);
    }
  }

  // ---------------------------------------------------------------------------
  // State after a submission
  // ---------------------------------------------------------------------------

  const NoValidItemsMessage: string :=
    "No valid food items to add. Please ensure all entries are complete or remove empty items."
  const CorrectErrorsMessage: string :=
    "Please " + "correct the errors in the form. Check individual item messages if any."

  /** The error the loop itself leaves: the failing row's message, if any. */
  function LoopError(outcome: SubmitOutcome): Option<string> {
    if outcome.Failed? then Some(Message(outcome.failure)) else None
  }

  /** The checks after the loop: `current` is the error the loop left and
      `tested` the value the fallback condition reads. */
  function SettleError(tested: Option<string>, current: Option<string>, rowCount: nat,
                       outcome: SubmitOutcome): Option<string> {
    if outcome.Succeeded? && |outcome.items| > 0 then current
    else if outcome.Succeeded? && rowCount > 0 then Some(NoValidItemsMessage)
    else if outcome.Failed? && !Truthy(tested) then Some(CorrectErrorsMessage)
    else current
  }

  /** The form error once a submission ends, as the source computes it: the
      fallback tests `globalError` as it was before the submission began. */
  function ErrorAfterSubmitAsWritten(prior: Option<string>, rowCount: nat, outcome: SubmitOutcome): Option<string> {
    SettleError(prior, LoopError(outcome), rowCount, outcome)
  }

  /** The form error once a submission ends, with the fallback testing the error the
      loop has just set: a failure shows its own message, a submitted meal none. */
  function ErrorAfterSubmit(rowCount: nat, outcome: SubmitOutcome): (r: Option<string>)
    ensures outcome.Failed? ==> r == Some(Message(outcome.failure))
    ensures outcome.Succeeded? && |outcome.items| > 0 ==> r == None
    ensures outcome.Succeeded? && |outcome.items| == 0 ==>
      r == if rowCount > 0 then Some(NoValidItemsMessage) else None
  {
    SettleError(LoopError(outcome), LoopError(outcome), rowCount, outcome)
  }

  /** No row's message is the generic fallback text: they differ in their first letter. */
  lemma MessageIsNotFallback(f: Failure)
    ensures Message(f) != CorrectErrorsMessage
  {
    assert CorrectErrorsMessage[0] == 'P';
    var m := Message(f);
    match f
    case EmptyName(e) =>
      assert m[0] == 'F';
    case BadManualCalories(n) =>
      assert m[0] == 'M';
    case EstimatorUnavailable(n) =>
      assert m[0] == 'A';
    case QuantityRequired(n) =>
      assert m[0] == 'Q';
    case EstimationFailed(n, d) =>
      assert m[0] == 'E';
  }

  /** As written, every failed submission that starts while no error is visible ends
      showing the generic fallback instead of the failing row's message. */
  lemma StaleErrorHidesMessage(rows: seq<DraftRow>, available: bool, estimate: Estimator)
    requires Submission(rows, available, estimate).Failed?
    ensures var o := Submission(rows, available, estimate);
      && ErrorAfterSubmitAsWritten(None, |rows|, o) == Some(CorrectErrorsMessage)
      && ErrorAfterSubmit(|rows|, o) == Some(Message(o.failure))
      && ErrorAfterSubmitAsWritten(None, |rows|, o) != ErrorAfterSubmit(|rows|, o)
  {
    MessageIsNotFallback(Submission(rows, available, estimate).failure);
  }

  /** The concrete case: one row whose name is a single space, no error showing.
      The browser's `required` check lets a space through, the handler trims it to
      nothing, and the source ends with the fallback text where "Food item name for
      entry #1 cannot be empty." was meant. */
  lemma StaleErrorExample(available: bool, estimate: Estimator)
    ensures var rows := [DraftRow("row-1", " ", "", "", None)];
      var o := Submission(rows, available, estimate);
      && o == Failed(0, EmptyName(1))
      && ErrorAfterSubmitAsWritten(None, 1, o) == Some(CorrectErrorsMessage)
      && ErrorAfterSubmit(1, o) == Some("Food item name for entry #" + "1" + " cannot be empty.")
  {
    var rows := [DraftRow("row-1", " ", "", "", None)];
    assert Trim(rows[0].foodName) == [];
    SubmissionFailsAt(rows, available, estimate, 0, EmptyName(1));
    assert NatToString(1) == "1";
  }

  /** Every row's error note cleared (done as the submission starts). */
  function ClearApiErrors(rows: seq<DraftRow>): seq<DraftRow> {
    seq(|rows|, k requires 0 <= k < |rows| => rows[k].(apiError := None))
  }

  /** Rows with the given local id get the error note. */
  function MarkApiError(rows: seq<DraftRow>, localId: string, note: string): seq<DraftRow> {
    seq(|rows|, k requires 0 <= k < |rows| =>
      if rows[k].localId == localId then rows[k].(apiError := Some(note)) else rows[k])
  }

  /** The rows once a submission ends. */
  function RowsAfterSubmit(rows: seq<DraftRow>, outcome: SubmitOutcome): seq<DraftRow> {
    var cleared := ClearApiErrors(rows);
    if outcome.Failed? && outcome.failure.EstimationFailed? && outcome.index < |rows| then
      MarkApiError(cleared, rows[outcome.index].localId, Message(outcome.failure))
    else cleared
  }

  /** With distinct local ids, a submission leaves an error note on exactly the row
      the estimator failed on, and on no row otherwise; the text fields stay. */
  lemma RowsAfterSubmitMarksFailedRow(rows: seq<DraftRow>, o: SubmitOutcome)
    requires LocalIdsUnique(rows)
    requires o.Failed? ==> o.index < |rows|
    ensures var r := RowsAfterSubmit(rows, o);
      && |r| == |rows|
      && (forall k :: 0 <= k < |rows| ==> r[k].(apiError := None) == rows[k].(apiError := None))
      && forall k :: 0 <= k < |rows| ==>
           r[k].apiError == if o.Failed? && o.failure.EstimationFailed? && k == o.index
                            then Some(Message(o.failure)) else None
  {
  }

  // ---------------------------------------------------------------------------
  // The form as a stateful object
  // ---------------------------------------------------------------------------

  /** The form's state: the selected meal time, the rows, the form-level error, the
      busy flag, and whether the estimator could be set up. */
  class EntryForm {
    var mealTime: MealTime
    var rows: seq<DraftRow>
    var globalError: Option<string>
    var isSubmitting: bool
    const estimatorAvailable: bool

    /** The form always shows at least one row, and local ids are distinct. */
    ghost predicate Valid()
      reads this
    {
      |rows| >= 1 && LocalIdsUnique(rows)
    }

    /** The form as it opens: Breakfast, one blank row, no error. */
    constructor (firstLocalId: string, available: bool)
      ensures Valid()
      ensures mealTime == Breakfast && rows == [BlankRow(firstLocalId)]
      ensures globalError == None && !isSubmitting && estimatorAvailable == available
    {
      mealTime := Breakfast;
      rows := [BlankRow(firstLocalId)];
      globalError := None;
      isSubmitting := false;
      estimatorAvailable := available;
    }

    method SelectMealTime(t: MealTime)
      requires Valid()
      modifies this
      ensures Valid()
      ensures mealTime == t
      ensures rows == old(rows) && globalError == old(globalError) && isSubmitting == old(isSubmitting)
    {
      mealTime := t;
    }

    /** handleItemChange: edits the matching rows and clears the form error. */
    method ChangeItem(localId: string, field: Field, value: string)
      requires Valid()
      modifies this
      ensures Valid()
      ensures rows == HandleItemChange(old(rows), localId, field, value)
      ensures globalError == None
      ensures mealTime == old(mealTime) && isSubmitting == old(isSubmitting)
    {
      rows := HandleItemChange(rows, localId, field, value);
      globalError := None;
    }

    /** addFoodItemField; `localId` stands for a freshly generated id. */
    method AddRow(localId: string)
      requires Valid() && !HasLocalId(rows, localId)
      modifies this
      ensures Valid()
      ensures rows == AddFoodItemField(old(rows), localId)
      ensures mealTime == old(mealTime) && globalError == old(globalError) && isSubmitting == old(isSubmitting)
    {
      AddPreservesUnique(rows, localId);
      rows := AddFoodItemField(rows, localId);
    }

    /** removeFoodItemField, reachable only through the remove button, which is
        shown only while there are two or more rows. */
    method RemoveRow(localId: string)
      requires Valid() && |rows| > 1
      modifies this
      ensures Valid()
      ensures rows == RemoveFoodItemField(old(rows), localId)
      ensures mealTime == old(mealTime) && globalError == old(globalError) && isSubmitting == old(isSubmitting)
    {
      RemovePreservesUnique(rows, localId);
      RemoveKeepsARow(rows, localId);
      rows := RemoveFoodItemField(rows, localId);
    }

    /** handleSubmit. `submitted` is what onAddMeal receives (followed by onClose),
        None when it is not called; `calls` lists the rows the estimator was asked
        about, in order. */
    method Submit(estimate: Estimator) returns (submitted: Option<MealInputData>, calls: seq<nat>)
      requires Valid()
      modifies this
      ensures Valid()
      ensures var o := Submission(old(rows), estimatorAvailable, estimate);
        && submitted == (if o.Succeeded? && |o.items| > 0 then Some(MealInputData(old(mealTime), o.items)) else None)
        && calls == EstimatorCalls(old(rows), estimatorAvailable, StopIndex(o, |old(rows)|))
        && rows == RowsAfterSubmit(old(rows), o)
        && globalError == ErrorAfterSubmit(|old(rows)|, o)
      ensures mealTime == old(mealTime) && !isSubmitting
    {
      var foodItems := rows;
      globalError := None;
      rows := ClearApiErrors(rows);
      isSubmitting := true;
      var outcome;
      outcome, calls := ProcessRows(foodItems, estimatorAvailable, estimate);
      RowsAfterSubmitMarksFailedRow(foodItems, outcome);
      if outcome.Failed? {
        if outcome.failure.EstimationFailed? {
          rows := MarkApiError(rows, foodItems[outcome.index].localId, Message(outcome.failure));
        }
        globalError := Some(Message(outcome.failure));
      }
      submitted := None;
      if outcome.Succeeded? && |outcome.items| > 0 {
        submitted := Some(MealInputData(mealTime, outcome.items));
      }
      var afterLoop := globalError;
      globalError := SettleError(afterLoop, afterLoop, |foodItems|, outcome);
      isSubmitting := false;
    }
  }
}
