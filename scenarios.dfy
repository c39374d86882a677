/** Worked cases of the meal-entry flow, from the form's rows to the dashboard's
    figures, each checked against the model. */
module Scenarios {
  import opened Types
  import opened Text
  import opened MealForm
  import opened Aggregation
  import opened Ledger
  import opened Progress

  lemma Parse800()
    ensures ParseInt("800") == Some(800)
  {
    assert NatToString(8) == "8";
    assert NatToString(80) == "80";
    assert NatToString(800) == "800";
    ParseIntOfDecimal(800, []);
    assert "800" + [] == "800";
  }

  /** A row named "Toast" with 800 manual calories, no quantity. */
  function ToastRow(): DraftRow {
    DraftRow("row-1", "Toast", "", "800", None)
  }

  /** A manual entry is accepted as it was typed, and the estimator is not asked. */
  lemma ManualRowAccepted(available: bool, estimate: Estimator)
    ensures Submission([ToastRow()], available, estimate)
         == Succeeded([FoodItemInput("Toast", None, 800, None, None, None, None)])
    ensures EstimatorCalls([ToastRow()], available, 1) == []
  {
    var row := ToastRow();
    assert Trim(row.foodName) == "Toast";
    assert Trim(row.manualCaloriesStr) == "800";
    assert Trim(row.quantity) == [];
    Parse800();
    SubmissionSucceeds([row], available, estimate, [FoodItemInput("Toast", None, 800, None, None, None, None)]);
    assert !CallsEstimator(row, available);
    EstimatorCallsStep([row], available, 0);
  }

  /** With the estimator available, a row with neither manual calories nor a
      quantity stops the submission before any call is made. */
  lemma MissingQuantityRejected(estimate: Estimator)
    ensures var rows := [DraftRow("row-1", "Apple", " ", "", None)];
      && Submission(rows, true, estimate) == Failed(0, QuantityRequired("Apple"))
      && EstimatorCalls(rows, true, 1) == []
  {
    var row := DraftRow("row-1", "Apple", " ", "", None);
    assert Trim(row.foodName) == "Apple";
    assert Trim(row.manualCaloriesStr) == [];
    assert Trim(" ") == [];
    SubmissionFailsAt([row], true, estimate, 0, QuantityRequired("Apple"));
    assert !CallsEstimator(row, true);
    EstimatorCallsStep([row], true, 0);
  }

  function EggRow(): DraftRow { DraftRow("row-1", "Egg", "1", "", None) }
  function StewRow(): DraftRow { DraftRow("row-2", "Stew", "1 bowl", "", None) }
  function TeaRow(): DraftRow { DraftRow("row-3", "Tea", "1 cup", "", None) }

  lemma EggRowAccepted(estimate: Estimator)
    requires WellFormedReply(estimate(0, EstimateRequest("Egg", "1")))
    ensures ProcessRow(EggRow(), 0, true, estimate).Accepted?
    ensures CallsEstimator(EggRow(), true)
  {
    assert Trim("Egg") == "Egg" && Trim("1") == "1";
    assert Trim("") == [];
  }

  lemma StewRowRejected(estimate: Estimator)
    requires estimate(1, EstimateRequest("Stew", "1 bowl")) == Parsed(None, None, None, None, Some("ambiguous"))
    ensures ProcessRow(StewRow(), 1, true, estimate) == Rejected(EstimationFailed("Stew", "ambiguous"))
    ensures CallsEstimator(StewRow(), true)
  {
    assert Trim("Stew") == "Stew";
    assert Trim("1 bowl") == "1 bowl";
    assert Trim("") == [];
  }

  /** The estimator reports an error on the second of three rows: the submission
      stops there, the first row's answer is dropped, the third row is never asked
      about, and the second row gets the error note. */
  lemma EstimatorErrorOnSecondRow(estimate: Estimator)
    requires WellFormedReply(estimate(0, EstimateRequest("Egg", "1")))
    requires estimate(1, EstimateRequest("Stew", "1 bowl")) == Parsed(None, None, None, None, Some("ambiguous"))
    ensures var rows := [EggRow(), StewRow(), TeaRow()];
      var o := Submission(rows, true, estimate);
      && o == Failed(1, EstimationFailed("Stew", "ambiguous"))
      && EstimatorCalls(rows, true, StopIndex(o, |rows|)) == [0, 1]
      && RowsAfterSubmit(rows, o)[1].apiError == Some(Message(o.failure))
      && RowsAfterSubmit(rows, o)[0].apiError == None
      && RowsAfterSubmit(rows, o)[2].apiError == None
  {
    var rows := [EggRow(), StewRow(), TeaRow()];
    EggRowAccepted(estimate);
    StewRowRejected(estimate);
    var f := EstimationFailed("Stew", "ambiguous");
    SubmissionFailsAt(rows, true, estimate, 1, f);
    EstimatorCallsStep(rows, true, 0);
    EstimatorCallsStep(rows, true, 1);
    assert EstimatorCalls(rows, true, 2) == [0, 1];
    RowsAfterSubmitMarksFailedRow(rows, Failed(1, f));
  }

  /** The whole manual-entry flow: the form opens, "Toast" with 800 calories is
      typed and submitted, the dashboard adds the meal to an empty day, and with
      the default goal of 2000 the header shows 1200 remaining at 40 percent. */
  method ManualMealFlow(estimate: Estimator) returns (consumed: int, header: Header, percentage: real)
    ensures consumed == 800
    ensures header == Header(RemainingLabel, 1200)
    ensures percentage == 40.0
  {
    var form := new EntryForm("row-1", true);
    form.ChangeItem("row-1", FoodName, "Toast");
    form.ChangeItem("row-1", ManualCalories, "800");
    assert form.rows == [ToastRow()];
    ManualRowAccepted(true, estimate);
    var submitted, calls := form.Submit(estimate);
    var ledger := new DailyLedger(map[], "2024-01-01");
    var meal := ledger.HandleAddMeal(submitted.value, "1", ["1"]);
    var item := WithId(FoodItemInput("Toast", None, 800, None, None, None, None), ItemId("1"));
    assert NewItems(submitted.value.items, ["1"]) == [item];
    assert CaloriesTotal([item]) == 800 by {
      assert [item][..0] == [];
    }
    assert Consumed([meal]) == 800 by {
      assert [meal][..0] == [];
    }
    consumed := Consumed(ledger.meals);
    header := HeaderFor(DefaultGoal, consumed);
    percentage := Percentage(DefaultGoal, consumed);
  }

  /** Storage holding something that is not an array for the day: the day shows
      no meals and the key is removed; other keys stay. */
  method CorruptDayIsCleared() returns (ledger: DailyLedger)
    ensures ledger.meals == []
    ensures StorageKey("2024-01-01") !in ledger.store
    ensures ledger.store == map[StorageKey("2024-01-02") := EmptyText]
  {
    var store := map[StorageKey("2024-01-01") := NonArray, StorageKey("2024-01-02") := EmptyText];
    StorageKeyInjective("2024-01-01", "2024-01-02");
    ledger := new DailyLedger(store, "2024-01-01");
    assert store - {StorageKey("2024-01-01")} == map[StorageKey("2024-01-02") := EmptyText];
  }

  /** A meal added and the page reopened on the same day: the reopened dashboard
      shows the same list, and the new meal is in it with the same fields. */
  method AddThenReopen(store: map<string, StoredValue>, today: string, input: MealInputData,
                       mealStamp: string, itemStamps: seq<string>)
    returns (meal: Meal, reopened: DailyLedger)
    requires |itemStamps| == |input.items|
    ensures meal == NewMeal(input, today, mealStamp, itemStamps)
    ensures meal in reopened.meals
    ensures reopened.meals == SortByRank(LoadedMeals(store, StorageKey(today)) + [meal])
  {
    var ledger := new DailyLedger(store, today);
    var before := ledger.meals;
    meal := ledger.HandleAddMeal(input, mealStamp, itemStamps);
    SortByRankPermutation(before + [meal]);
    assert meal in multiset(ledger.meals) by {
      assert (before + [meal])[|before|] == meal;
    }
    reopened := new DailyLedger(ledger.store, today);
  }

  /** A meal deleted and the page reopened: no meal with that id is shown, and a
      second delete of the same id changes nothing. */
  method DeleteThenReopen(store: map<string, StoredValue>, today: string, id: string)
    returns (reopened: DailyLedger)
    ensures forall k :: 0 <= k < |reopened.meals| ==> reopened.meals[k].id != id
    ensures RemoveMeal(reopened.meals, id) == reopened.meals
  {
    var ledger := new DailyLedger(store, today);
    ledger.HandleDeleteMeal(id);
    reopened := new DailyLedger(ledger.store, today);
    RemoveAbsent(reopened.meals, id);
  }
}
