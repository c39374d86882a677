/** The records of the calorie tracker: meal times, food items, meals and the
    meal data the entry form hands to the dashboard. */
module Types {

  datatype Option<+T> = None | Some(value: T)

  /** Turns an optional number into a number, missing counting as 0 (`x || 0`). */
  function OrZero(x: Option<int>): int {
    if x.Some? then x.value else 0
  }

  /** The four meal-time categories. */
  datatype MealTime = Breakfast | Lunch | Dinner | Snack

  /** Position of a meal time in the fixed order Breakfast, Lunch, Dinner, Snack. */
  function Rank(t: MealTime): (r: nat)
    ensures r < 4
  {
    match t
    case Breakfast => 0
    case Lunch => 1
    case Dinner => 2
    case Snack => 3
  }

  /** A food item as the form produces it: a FoodItemEntry without its id. */
  datatype FoodItemInput = FoodItemInput(
    foodName: string,
    quantity: Option<string>,
    calories: int,
    protein: Option<int>,
    carbs: Option<int>,
    fat: Option<int>,
    apiError: Option<string>)

  /** A food item stored in a meal. */
  datatype FoodItemEntry = FoodItemEntry(
    id: string,
    foodName: string,
    quantity: Option<string>,
    calories: int,
    protein: Option<int>,
    carbs: Option<int>,
    fat: Option<int>,
    apiError: Option<string>)

  datatype Meal = Meal(
    id: string,
    mealTime: MealTime,
    date: string,
    items: seq<FoodItemEntry>,
    totalCalories: int,
    totalProtein: Option<int>,
    totalCarbs: Option<int>,
    totalFat: Option<int>)

  /** What the entry form submits: a meal time and the processed items. */
  datatype MealInputData = MealInputData(mealTime: MealTime, items: seq<FoodItemInput>)

  /** `{ ...item, id }`: the input item with an id added. */
  function WithId(item: FoodItemInput, id: string): (e: FoodItemEntry)
    ensures e.id == id
    ensures Strip(e) == item
  {
    FoodItemEntry(id, item.foodName, item.quantity, item.calories,
                  item.protein, item.carbs, item.fat, item.apiError)
  }

  /** The entry without its id. */
  function Strip(e: FoodItemEntry): FoodItemInput {
    FoodItemInput(e.foodName, e.quantity, e.calories, e.protein, e.carbs, e.fat, e.apiError)
  }

  datatype Macro = Protein | Carbs | Fat

  /** An item's grams of one macronutrient, missing counting as 0. */
  function MacroOf(e: FoodItemEntry, m: Macro): int {
    match m
    case Protein => OrZero(e.protein)
    case Carbs => OrZero(e.carbs)
    case Fat => OrZero(e.fat)
  }

  /** Sum of the items' calories, added up from the first item on. */
  function CaloriesTotal(items: seq<FoodItemEntry>): int {
    if items == [] then 0 else CaloriesTotal(items[..|items| - 1]) + items[|items| - 1].calories
  }

  /** Sum of one macronutrient over the items, missing values counting as 0. */
  function MacroTotal(items: seq<FoodItemEntry>, m: Macro): int {
    if items == [] then 0 else MacroTotal(items[..|items| - 1], m) + MacroOf(items[|items| - 1], m)
  }

  /** A macro total is stored only when it is strictly positive. */
  function PositiveOrNone(x: int): (r: Option<int>)
    ensures r.Some? <==> x > 0
    ensures r.Some? ==> r.value == x
  {
    if x > 0 then Some(x) else None
  }

  /** The stored meal total of one macronutrient. */
  function StoredMacro(meal: Meal, m: Macro): Option<int> {
    match m
    case Protein => meal.totalProtein
    case Carbs => meal.totalCarbs
    case Fat => meal.totalFat
  }

  /** The data-model invariant of a meal: its totals are recomputed from its items. */
  ghost predicate TotalsConsistent(meal: Meal) {
    && meal.totalCalories == CaloriesTotal(meal.items)
    && forall m: Macro :: StoredMacro(meal, m) == PositiveOrNone(MacroTotal(meal.items, m))
  }

  /** Item ids are unique within the meal. */
  ghost predicate ItemIdsUnique(meal: Meal) {
    forall i, j :: 0 <= i < j < |meal.items| ==> meal.items[i].id != meal.items[j].id
  }

  lemma {:induction false} CaloriesTotalAppend(a: seq<FoodItemEntry>, b: seq<FoodItemEntry>)
    ensures CaloriesTotal(a + b) == CaloriesTotal(a) + CaloriesTotal(b)
    decreases |b|
  {
    if b == [] {
      assert a + b == a;
    } else {
      var b' := b[..|b| - 1];
      assert (a + b)[..|a + b| - 1] == a + b';
      CaloriesTotalAppend(a, b');
    }
  }

  lemma {:induction false} CaloriesTotalNonNegative(items: seq<FoodItemEntry>)
    requires forall k :: 0 <= k < |items| ==> items[k].calories >= 0
    ensures CaloriesTotal(items) >= 0
    decreases |items|
  {
    if items != [] {
      CaloriesTotalNonNegative(items[..|items| - 1]);
    }
  }
}
