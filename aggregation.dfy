/** How the dashboard turns submitted meal data into a stored meal: every item
    gets an id, and the meal's totals are added up over its items. */
module Aggregation {
  import opened Types

  /** The id given to a food item; `stamp` stands for the time-and-random suffix. */
  function ItemId(stamp: string): (id: string)
    ensures id != []
  {
    "food_" + stamp
  }

  /** The id given to a meal; `stamp` stands for the time-and-random suffix. */
  function MealId(stamp: string): (id: string)
    ensures id != []
  {
    "meal_" + stamp
  }

  /** Different stamps give different ids. */
  lemma ItemIdInjective(a: string, b: string)
    requires a != b
    ensures ItemId(a) != ItemId(b)
  {
    assert ItemId(a)[5..] == a;
    assert ItemId(b)[5..] == b;
  }

  /** The items of the new meal: each input item with its own id. */
  function NewItems(items: seq<FoodItemInput>, itemStamps: seq<string>): (r: seq<FoodItemEntry>)
    requires |itemStamps| == |items|
    ensures |r| == |items|
    ensures forall k :: 0 <= k < |items| ==> r[k].id == ItemId(itemStamps[k]) && Strip(r[k]) == items[k]
  {
    seq(|items|, k requires 0 <= k < |items| => WithId(items[k], ItemId(itemStamps[k])))
  }

  /** The meal handleAddMeal builds, stated declaratively: the given id, date and
      meal time, the items with ids, calories summed, and each macro total summed
      with missing values as 0 and kept only when positive. */
  function NewMeal(input: MealInputData, date: string, mealStamp: string, itemStamps: seq<string>): (meal: Meal)
    requires |itemStamps| == |input.items|
  {
    var items := NewItems(input.items, itemStamps);
    Meal(MealId(mealStamp), input.mealTime, date, items, CaloriesTotal(items),
         PositiveOrNone(MacroTotal(items, Protein)),
         PositiveOrNone(MacroTotal(items, Carbs)),
         PositiveOrNone(MacroTotal(items, Fat)))
  }

  /** The meal keeps the form's data: its meal time, the date, and the submitted
      items, in order, each under its own id; its totals agree with its items. */
  lemma NewMealFaithful(input: MealInputData, date: string, mealStamp: string, itemStamps: seq<string>)
    requires |itemStamps| == |input.items|
    ensures var meal := NewMeal(input, date, mealStamp, itemStamps);
      && meal.id == MealId(mealStamp) && meal.id != []
      && meal.mealTime == input.mealTime && meal.date == date
      && |meal.items| == |input.items|
      && (forall k :: 0 <= k < |meal.items| ==> Strip(meal.items[k]) == input.items[k])
      && TotalsConsistent(meal)
  {
    var meal := NewMeal(input, date, mealStamp, itemStamps);
    forall m: Macro
      ensures StoredMacro(meal, m) == PositiveOrNone(MacroTotal(meal.items, m))
    {
      match m
      case Protein =>
      case Carbs =>
      case Fat =>
    }
  }

  /** With distinct stamps, the items of the new meal have distinct ids. */
  lemma NewMealItemIdsUnique(input: MealInputData, date: string, mealStamp: string, itemStamps: seq<string>)
    requires |itemStamps| == |input.items|
    requires forall i, j :: 0 <= i < j < |itemStamps| ==> itemStamps[i] != itemStamps[j]
    ensures ItemIdsUnique(NewMeal(input, date, mealStamp, itemStamps))
  {
    var meal := NewMeal(input, date, mealStamp, itemStamps);
    forall i, j | 0 <= i < j < |meal.items|
      ensures meal.items[i].id != meal.items[j].id
    {
      ItemIdInjective(itemStamps[i], itemStamps[j]);
    }
  }

  /** Calories of a meal built from manually entered, positive values are positive
      whenever the meal has an item. */
  lemma {:induction false} PositiveItemsGivePositiveTotal(items: seq<FoodItemEntry>)
    requires items != []
    requires forall k :: 0 <= k < |items| ==> items[k].calories > 0
    ensures CaloriesTotal(items) > 0
    decreases |items|
  {
    var p := items[..|items| - 1];
    if p != [] {
      PositiveItemsGivePositiveTotal(p);
    }
  }

  /** handleAddMeal's accumulation: one pass over the items that assigns each its id
      and adds its calories and macros to four running totals. */
  method BuildMeal(input: MealInputData, date: string, mealStamp: string, itemStamps: seq<string>)
    returns (meal: Meal)
    requires |itemStamps| == |input.items|
    ensures meal == NewMeal(input, date, mealStamp, itemStamps)
  {
    var totalCalories := 0;
    var totalProtein := 0;
    var totalCarbs := 0;
    var totalFat := 0;
    var items: seq<FoodItemEntry> := [];
    ghost var target := NewItems(input.items, itemStamps);
    var i := 0;
    while i < |input.items|
      invariant 0 <= i <= |input.items|
      invariant items == target[..i]
      invariant totalCalories == CaloriesTotal(items)
      invariant totalProtein == MacroTotal(items, Protein)
      invariant totalCarbs == MacroTotal(items, Carbs)
      invariant totalFat == MacroTotal(items, Fat)
    {
      var item := input.items[i];
      totalCalories := totalCalories + item.calories;
      totalProtein := totalProtein + OrZero(item.protein);
      totalCarbs := totalCarbs + OrZero(item.carbs);
      totalFat := totalFat + OrZero(item.fat);
      var entry := WithId(item, ItemId(itemStamps[i]));
      assert (items + [entry])[..|items|] == items;
      items := items + [entry];
      assert items == target[..i + 1];
      i := i + 1;
    }
    assert items == target;
    meal := Meal(MealId(mealStamp), input.mealTime, date, items, totalCalories,
                 if totalProtein > 0 then Some(totalProtein) else None,
                 if totalCarbs > 0 then Some(totalCarbs) else None,
                 if totalFat > 0 then Some(totalFat) else None);
  }
}
