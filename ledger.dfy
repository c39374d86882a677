/** The dashboard's day ledger: the meals of the current day, kept in browser
    storage under one key per date as a JSON array, loaded with a shape check,
    kept sorted by meal time, and written back after every change. */
module Ledger {
  import opened Types
  import opened Aggregation
  import opened Progress

  // ---------------------------------------------------------------------------
  // What storage holds
  // ---------------------------------------------------------------------------

  /** One element of a parsed JSON array: a meal as JSON.stringify wrote it, or any
      other value (one without a truthy `id` or without an `items` array). */
  datatype StoredElement = MealRecord(meal: Meal) | OtherValue

  /** The text stored under a key, classified by what JSON.parse makes of it. */
  datatype StoredValue =
    | EmptyText                              // "": falsy, never parsed
    | Unparsable                             // JSON.parse throws
    | NonArray                               // parses, but not to an array
    | ArrayOf(elements: seq<StoredElement>)  // parses to an array

  /** The storage key of a day's meals. */
  function StorageKey(date: string): string {
    "meals_" + date
  }

  /** Each day has its own key. */
  lemma StorageKeyInjective(d1: string, d2: string)
    requires d1 != d2
    ensures StorageKey(d1) != StorageKey(d2)
  {
    assert StorageKey(d1)[6..] == d1;
    assert StorageKey(d2)[6..] == d2;
  }

  /** What JSON.stringify of the meal list stores. */
  function Encode(meals: seq<Meal>): StoredValue {
    ArrayOf(seq(|meals|, k requires 0 <= k < |meals| => MealRecord(meals[k])))
  }

  /** The element check of the loader: a truthy `id` and an `items` array. */
  predicate PassesCheck(e: StoredElement) {
    e.MealRecord? && e.meal.id != []
  }

  /** The meals of an array whose every element passes the check; None otherwise. */
  function DecodeElements(es: seq<StoredElement>): (r: Option<seq<Meal>>)
    ensures r.Some? <==> forall k :: 0 <= k < |es| ==> PassesCheck(es[k])
    ensures r.Some? ==> |r.value| == |es| && forall k :: 0 <= k < |es| ==> r.value[k] == es[k].meal
  {
    if es == [] then Some([])
    else if !PassesCheck(es[0]) then None
    else
      var rest := DecodeElements(es[1..]);
      assert forall k :: 1 <= k < |es| ==> es[1..][k - 1] == es[k];
      if rest.None? then None else Some([es[0].meal] + rest.value)
  }

  /** What the loader makes of a key: nothing to load, a list of meals, or data to
      throw away. */
  datatype LoadOutcome = Missing | Loaded(meals: seq<Meal>) | Corrupt

  function Inspect(v: Option<StoredValue>): LoadOutcome {
    match v
    case None => Missing
    case Some(EmptyText) => Missing
    case Some(Unparsable) => Corrupt
    case Some(NonArray) => Corrupt
    case Some(ArrayOf(es)) =>
      var decoded := DecodeElements(es);
      if decoded.Some? then Loaded(decoded.value) else Corrupt
  }

  function Lookup(store: map<string, StoredValue>, key: string): Option<StoredValue> {
    if key in store then Some(store[key]) else None
  }

  /** The meals the loader shows for a key. */
  function LoadedMeals(store: map<string, StoredValue>, key: string): seq<Meal> {
    var o := Inspect(Lookup(store, key));
    if o.Loaded? then o.meals else []
  }

  /** Storage once the loader has run: corrupt data is removed, anything else stays. */
  function StoreAfterLoad(store: map<string, StoredValue>, key: string): map<string, StoredValue> {
    if Inspect(Lookup(store, key)).Corrupt? then store - {key} else store
  }

  /** Loaded meals all have a non-empty id, and the loader touches no other key. */
  lemma LoadShape(store: map<string, StoredValue>, key: string)
    ensures forall k :: 0 <= k < |LoadedMeals(store, key)| ==> LoadedMeals(store, key)[k].id != []
    ensures forall other :: other != key ==> Lookup(StoreAfterLoad(store, key), other) == Lookup(store, other)
    ensures Inspect(Lookup(StoreAfterLoad(store, key), key)).Corrupt? == false
  {
    var v := Lookup(store, key);
    if v.Some? && v.value.ArrayOf? {
      var d := DecodeElements(v.value.elements);
      if d.Some? {
        forall k | 0 <= k < |d.value|
          ensures d.value[k].id != []
        {
          assert PassesCheck(v.value.elements[k]);
        }
      }
    }
  }

  /** Writing a list and reading it back gives the same list exactly when every
      meal has a non-empty id; otherwise the loader discards the whole list. */
  lemma DecodeEncode(meals: seq<Meal>)
    ensures Inspect(Some(Encode(meals))) == Loaded(meals) <==>
      forall k :: 0 <= k < |meals| ==> meals[k].id != []
    ensures Inspect(Some(Encode(meals))) == Loaded(meals) || Inspect(Some(Encode(meals))) == Corrupt
  {
    var es := Encode(meals).elements;
    var d := DecodeElements(es);
    if forall k :: 0 <= k < |meals| ==> meals[k].id != [] {
      assert forall k :: 0 <= k < |es| ==> PassesCheck(es[k]);
      assert d.value == meals;
    } else {
      var k :| 0 <= k < |meals| && meals[k].id == [];
      assert !PassesCheck(es[k]);
    }
  }

  /** Saving and then loading (the next visit on the same day) restores the saved
      list and leaves storage as it is. */
  lemma SaveThenLoad(store: map<string, StoredValue>, key: string, meals: seq<Meal>)
    requires forall k :: 0 <= k < |meals| ==> meals[k].id != []
    ensures LoadedMeals(store[key := Encode(meals)], key) == meals
    ensures StoreAfterLoad(store[key := Encode(meals)], key) == store[key := Encode(meals)]
  {
    DecodeEncode(meals);
  }

  /** Loading twice is loading once. */
  lemma LoadIdempotent(store: map<string, StoredValue>, key: string)
    ensures LoadedMeals(StoreAfterLoad(store, key), key) == LoadedMeals(store, key)
    ensures StoreAfterLoad(StoreAfterLoad(store, key), key) == StoreAfterLoad(store, key)
  {
    LoadShape(store, key);
  }

  // ---------------------------------------------------------------------------
  // Ordering by meal time
  // ---------------------------------------------------------------------------

  /** The meals of one meal time, in their order. */
  function OfTime(meals: seq<Meal>, t: MealTime): (r: seq<Meal>)
    ensures |r| <= |meals|
    ensures forall k :: 0 <= k < |r| ==> r[k].mealTime == t
  {
    if meals == [] then []
    else (if meals[0].mealTime == t then [meals[0]] else []) + OfTime(meals[1..], t)
  }

  /** The order the engine's stable sort gives under the rank comparator: all
      Breakfast meals, then Lunch, Dinner and Snack, each in their original order. */
  function SortByRank(meals: seq<Meal>): seq<Meal> {
    OfTime(meals, Breakfast) + OfTime(meals, Lunch) + OfTime(meals, Dinner) + OfTime(meals, Snack)
  }

  predicate SortedByRank(meals: seq<Meal>) {
    forall i, j :: 0 <= i < j < |meals| ==> Rank(meals[i].mealTime) <= Rank(meals[j].mealTime)
  }

  lemma {:induction false} OfTimeAppend(a: seq<Meal>, b: seq<Meal>, t: MealTime)
    ensures OfTime(a + b, t) == OfTime(a, t) + OfTime(b, t)
    decreases |a|
  {
    if a == [] {
      assert a + b == b;
    } else {
      assert (a + b)[1..] == a[1..] + b;
      OfTimeAppend(a[1..], b, t);
    }
  }

  /** Selecting a meal time from a selection: the same selection, or nothing. */
  lemma {:induction false} OfTimeOfTime(meals: seq<Meal>, t: MealTime, u: MealTime)
    ensures OfTime(OfTime(meals, t), u) == if t == u then OfTime(meals, t) else []
    decreases |meals|
  {
    if meals != [] {
      var rest := OfTime(meals[1..], t);
      OfTimeOfTime(meals[1..], t, u);
      if meals[0].mealTime == t {
        assert OfTime(meals, t) == [meals[0]] + rest;
        OfTimeAppend([meals[0]], rest, u);
        assert OfTime([meals[0]], u) == (if t == u then [meals[0]] else []) + OfTime([], u);
      } else {
        assert OfTime(meals, t) == [] + rest == rest;
      }
    }
  }

  /** The result of the sort is ordered by meal time. */
  lemma SortByRankSorted(meals: seq<Meal>)
    ensures SortedByRank(SortByRank(meals))
  {
    var b, l, d, s := OfTime(meals, Breakfast), OfTime(meals, Lunch), OfTime(meals, Dinner), OfTime(meals, Snack);
    var r := SortByRank(meals);
    forall i, j | 0 <= i < j < |r|
      ensures Rank(r[i].mealTime) <= Rank(r[j].mealTime)
    {
      // the block an index falls in decides the rank
      assert forall k :: 0 <= k < |r| ==> (Rank(r[k].mealTime) ==
        if k < |b| then 0 else if k < |b| + |l| then 1 else if k < |b| + |l| + |d| then 2 else 3) by {
        forall k | 0 <= k < |r|
          ensures Rank(r[k].mealTime) ==
            if k < |b| then 0 else if k < |b| + |l| then 1 else if k < |b| + |l| + |d| then 2 else 3
        {
          if k < |b| {
            assert r[k] == b[k];
          } else if k < |b| + |l| {
            assert r[k] == l[k - |b|];
          } else if k < |b| + |l| + |d| {
            assert r[k] == d[k - |b| - |l|];
          } else {
            assert r[k] == s[k - |b| - |l| - |d|];
          }
        }
      }
    }
  }

  /** The four selections together hold every meal exactly once. */
  lemma BucketsPartition(meals: seq<Meal>)
    ensures multiset(OfTime(meals, Breakfast)) + multiset(OfTime(meals, Lunch))
          + multiset(OfTime(meals, Dinner)) + multiset(OfTime(meals, Snack)) == multiset(meals)
  {
    BucketSumIsAll(meals);
  }

  lemma {:induction false} BucketSumIsAll(meals: seq<Meal>)
    ensures BucketSum(meals) == multiset(meals)
    decreases |meals|
  {
    if meals != [] {
      BucketSumIsAll(meals[1..]);
      BucketSumHead(meals);
      MultisetCons(meals);
    }
  }

  lemma MultisetCons(meals: seq<Meal>)
    requires meals != []
    ensures multiset(meals) == multiset{meals[0]} + multiset(meals[1..])
  {
    assert meals == [meals[0]] + meals[1..];
  }

  function BucketSum(meals: seq<Meal>): multiset<Meal> {
    multiset(OfTime(meals, Breakfast)) + multiset(OfTime(meals, Lunch))
    + multiset(OfTime(meals, Dinner)) + multiset(OfTime(meals, Snack))
  }

  /** The first meal is counted once, in its own selection. */
  lemma BucketSumHead(meals: seq<Meal>)
    requires meals != []
    ensures BucketSum(meals) == multiset{meals[0]} + BucketSum(meals[1..])
  {
    var rest := meals[1..];
    OfTimeHead(meals, Breakfast);
    OfTimeHead(meals, Lunch);
    OfTimeHead(meals, Dinner);
    OfTimeHead(meals, Snack);
    Rearrange(meals[0], meals[0].mealTime,
              multiset(OfTime(rest, Breakfast)), multiset(OfTime(rest, Lunch)),
              multiset(OfTime(rest, Dinner)), multiset(OfTime(rest, Snack)),
              multiset(OfTime(meals, Breakfast)), multiset(OfTime(meals, Lunch)),
              multiset(OfTime(meals, Dinner)), multiset(OfTime(meals, Snack)));
  }

  /** The first meal counts in a selection exactly when it has that meal time. */
  lemma OfTimeHead(meals: seq<Meal>, u: MealTime)
    requires meals != []
    ensures multiset(OfTime(meals, u))
         == (if meals[0].mealTime == u then multiset{meals[0]} else multiset{}) + multiset(OfTime(meals[1..], u))
  {
    var head := if meals[0].mealTime == u then [meals[0]] else [];
    assert OfTime(meals, u) == head + OfTime(meals[1..], u);
    assert multiset(head) == if meals[0].mealTime == u then multiset{meals[0]} else multiset{};
  }

  /** Adding one meal to the selection of its meal time adds it once to the sum. */
  lemma Rearrange(x: Meal, t: MealTime, b0: multiset<Meal>, l0: multiset<Meal>, d0: multiset<Meal>, s0: multiset<Meal>,
                  b: multiset<Meal>, l: multiset<Meal>, d: multiset<Meal>, s: multiset<Meal>)
    requires b == (if t == Breakfast then multiset{x} else multiset{}) + b0
    requires l == (if t == Lunch then multiset{x} else multiset{}) + l0
    requires d == (if t == Dinner then multiset{x} else multiset{}) + d0
    requires s == (if t == Snack then multiset{x} else multiset{}) + s0
    ensures b + l + d + s == multiset{x} + (b0 + l0 + d0 + s0)
  {
  }

  /** The sort is a permutation. */
  lemma SortByRankPermutation(meals: seq<Meal>)
    ensures multiset(SortByRank(meals)) == multiset(meals)
    ensures |SortByRank(meals)| == |meals|
  {
    BucketsPartition(meals);
    assert |multiset(SortByRank(meals))| == |multiset(meals)|;
  }

  /** Selecting a meal time from the four selections in sequence. */
  lemma OfTimeOfBuckets(meals: seq<Meal>, t: MealTime)
    ensures OfTime(SortByRank(meals), t)
         == OfTime(OfTime(meals, Breakfast), t) + OfTime(OfTime(meals, Lunch), t)
          + OfTime(OfTime(meals, Dinner), t) + OfTime(OfTime(meals, Snack), t)
  {
    var b, l, d, s := OfTime(meals, Breakfast), OfTime(meals, Lunch), OfTime(meals, Dinner), OfTime(meals, Snack);
    OfTimeAppend(b + l + d, s, t);
    OfTimeAppend(b + l, d, t);
    OfTimeAppend(b, l, t);
  }

  /** The sort is stable: within each meal time the original order is kept. */
  lemma SortByRankStable(meals: seq<Meal>, t: MealTime)
    ensures OfTime(SortByRank(meals), t) == OfTime(meals, t)
  {
    OfTimeOfBuckets(meals, t);
    OfTimeOfTime(meals, Breakfast, t);
    OfTimeOfTime(meals, Lunch, t);
    OfTimeOfTime(meals, Dinner, t);
    OfTimeOfTime(meals, Snack, t);
    OnlyOwnBucket(OfTime(meals, t), OfTime(OfTime(meals, Breakfast), t), OfTime(OfTime(meals, Lunch), t),
                  OfTime(OfTime(meals, Dinner), t), OfTime(OfTime(meals, Snack), t), t);
  }

  /** Four pieces of which only the one for `t` is non-empty add up to that piece. */
  lemma OnlyOwnBucket(own: seq<Meal>, b: seq<Meal>, l: seq<Meal>, d: seq<Meal>, s: seq<Meal>, t: MealTime)
    requires b == if t == Breakfast then own else []
    requires l == if t == Lunch then own else []
    requires d == if t == Dinner then own else []
    requires s == if t == Snack then own else []
    ensures b + l + d + s == own
  {
    match t
    case Breakfast => assert own + [] + [] + [] == own;
    case Lunch => assert [] + own + [] + [] == own;
    case Dinner => assert [] + [] + own + [] == own;
    case Snack => assert [] + [] + [] + own == own;
  }

  /** No selection of a meal time that does not occur. */
  lemma {:induction false} OfTimeAbsent(meals: seq<Meal>, t: MealTime)
    requires forall k :: 0 <= k < |meals| ==> meals[k].mealTime != t
    ensures OfTime(meals, t) == []
    decreases |meals|
  {
    if meals != [] {
      OfTimeAbsent(meals[1..], t);
    }
  }

  /** A meal that ranks no later than every meal after it stays in front. */
  lemma SortByRankCons(x: Meal, rest: seq<Meal>)
    requires forall k :: 0 <= k < |rest| ==> Rank(x.mealTime) <= Rank(rest[k].mealTime)
    ensures SortByRank([x] + rest) == [x] + SortByRank(rest)
  {
    var meals := [x] + rest;
    assert meals[1..] == rest;
    var b, l, d, s := OfTime(rest, Breakfast), OfTime(rest, Lunch), OfTime(rest, Dinner), OfTime(rest, Snack);
    match x.mealTime
    case Breakfast =>
      assert SortByRank(meals) == ([x] + b) + l + d + s;
    case Lunch =>
      OfTimeAbsent(rest, Breakfast);
      assert SortByRank(meals) == [] + ([x] + l) + d + s;
    case Dinner =>
      OfTimeAbsent(rest, Breakfast);
      OfTimeAbsent(rest, Lunch);
      assert SortByRank(meals) == [] + [] + ([x] + d) + s;
    case Snack =>
      OfTimeAbsent(rest, Breakfast);
      OfTimeAbsent(rest, Lunch);
      OfTimeAbsent(rest, Dinner);
      assert SortByRank(meals) == [] + [] + [] + ([x] + s);
  }

  /** An ordered list is its own sort. */
  lemma {:induction false} SortedIsFixed(meals: seq<Meal>)
    requires SortedByRank(meals)
    ensures SortByRank(meals) == meals
    decreases |meals|
  {
    if meals != [] {
      var x, rest := meals[0], meals[1..];
      assert SortedByRank(rest);
      SortedIsFixed(rest);
      assert forall k :: 0 <= k < |rest| ==> rest[k] == meals[k + 1];
      SortByRankCons(x, rest);
      assert meals == [x] + rest;
    }
  }

  /** The sort is the only ordered arrangement that keeps every meal time's order:
      any other list that is ordered and agrees on each meal time is equal to it. */
  lemma SortByRankUnique(meals: seq<Meal>, other: seq<Meal>)
    requires SortedByRank(other)
    requires forall t: MealTime :: OfTime(other, t) == OfTime(meals, t)
    ensures other == SortByRank(meals)
  {
    SortedIsFixed(other);
    assert OfTime(other, Breakfast) == OfTime(meals, Breakfast);
    assert OfTime(other, Lunch) == OfTime(meals, Lunch);
    assert OfTime(other, Dinner) == OfTime(meals, Dinner);
    assert OfTime(other, Snack) == OfTime(meals, Snack);
  }

  /** A new meal is placed after every earlier meal of its meal time, and the other
      meal times keep their meals. */
  lemma AddedMealComesLastInItsTime(meals: seq<Meal>, meal: Meal, t: MealTime)
    ensures OfTime(SortByRank(meals + [meal]), t)
         == OfTime(meals, t) + (if t == meal.mealTime then [meal] else [])
  {
    SortByRankStable(meals + [meal], t);
    OfTimeAppend(meals, [meal], t);
    assert OfTime([meal], t) == (if meal.mealTime == t then [meal] else []) + OfTime([], t);
  }

  /** Every meal of the sorted list comes from the list sorted. */
  lemma SortByRankMembers(meals: seq<Meal>)
    ensures forall k :: 0 <= k < |SortByRank(meals)| ==> SortByRank(meals)[k] in meals
  {
    var r := SortByRank(meals);
    SortByRankPermutation(meals);
    forall k | 0 <= k < |r|
      ensures r[k] in meals
    {
      assert r[k] in multiset(r);
    }
  }

  /** Adding a meal adds its calories to the day's consumption. */
  lemma ConsumedAfterAdd(meals: seq<Meal>, meal: Meal)
    ensures Consumed(SortByRank(meals + [meal])) == Consumed(meals) + meal.totalCalories
  {
    SortByRankPermutation(meals + [meal]);
    ConsumedPermutation(SortByRank(meals + [meal]), meals + [meal]);
    ConsumedAppend(meals, [meal]);
    assert [meal][..0] == [];
  }

  // ---------------------------------------------------------------------------
  // Deleting
  // ---------------------------------------------------------------------------

  /** The meals whose id differs, in their order. */
  function RemoveMeal(meals: seq<Meal>, id: string): (r: seq<Meal>)
    ensures |r| <= |meals|
    ensures forall k :: 0 <= k < |r| ==> r[k].id != id && r[k] in meals
    ensures forall k :: 0 <= k < |meals| && meals[k].id != id ==> meals[k] in r
  {
    if meals == [] then []
    else (if meals[0].id == id then [] else [meals[0]]) + RemoveMeal(meals[1..], id)
  }

  /** Deleting an id no meal has changes nothing. */
  lemma {:induction false} RemoveAbsent(meals: seq<Meal>, id: string)
    requires forall k :: 0 <= k < |meals| ==> meals[k].id != id
    ensures RemoveMeal(meals, id) == meals
    decreases |meals|
  {
    if meals != [] {
      RemoveAbsent(meals[1..], id);
    }
  }

  /** Deleting keeps the list ordered by meal time. */
  lemma {:induction false} RemoveKeepsSorted(meals: seq<Meal>, id: string)
    requires SortedByRank(meals)
    ensures SortedByRank(RemoveMeal(meals, id))
    decreases |meals|
  {
    if meals != [] {
      var rest := meals[1..];
      assert SortedByRank(rest);
      RemoveKeepsSorted(rest, id);
      var tail := RemoveMeal(rest, id);
      forall k | 0 <= k < |tail|
        ensures Rank(meals[0].mealTime) <= Rank(tail[k].mealTime)
      {
        var j :| 0 <= j < |rest| && rest[j] == tail[k];
        assert meals[j + 1] == tail[k];
      }
    }
  }

  /** Deleting takes away exactly the deleted meals' calories. */
  lemma {:induction false} RemoveConsumed(meals: seq<Meal>, id: string)
    ensures Consumed(RemoveMeal(meals, id)) == Consumed(meals) - Consumed(OfId(meals, id))
    decreases |meals|
  {
    if meals != [] {
      var x, rest := meals[0], meals[1..];
      RemoveConsumed(rest, id);
      assert meals == [x] + rest;
      ConsumedAppend([x], rest);
      ConsumedAppend(if x.id == id then [] else [x], RemoveMeal(rest, id));
      ConsumedAppend(if x.id == id then [x] else [], OfId(rest, id));
      assert [x][..0] == [];
    }
  }

  /** Deleting distributes over concatenation; with the one-meal case below this
      pins it down as the order-keeping filter. */
  lemma {:induction false} RemoveMealDistributes(a: seq<Meal>, b: seq<Meal>, id: string)
    ensures RemoveMeal(a + b, id) == RemoveMeal(a, id) + RemoveMeal(b, id)
    decreases |a|
  {
    if a == [] {
      assert a + b == b;
    } else {
      assert (a + b)[1..] == a[1..] + b;
      RemoveMealDistributes(a[1..], b, id);
    }
  }

  /** One meal is dropped exactly when it has the id. */
  lemma RemoveMealSingle(meal: Meal, id: string)
    ensures RemoveMeal([meal], id) == if meal.id == id then [] else [meal]
  {
    assert [meal][1..] == [];
  }

  /** Meal ids are distinct within the day's list. */
  ghost predicate MealIdsUnique(meals: seq<Meal>) {
    forall i, j :: 0 <= i < j < |meals| ==> meals[i].id != meals[j].id
  }

  /** Deleting keeps meal ids distinct. */
  lemma {:induction false} RemoveKeepsMealIdsUnique(meals: seq<Meal>, id: string)
    requires MealIdsUnique(meals)
    ensures MealIdsUnique(RemoveMeal(meals, id))
    decreases |meals|
  {
    if meals != [] {
      var rest := meals[1..];
      assert MealIdsUnique(rest) by {
        assert forall k :: 0 <= k < |rest| ==> rest[k] == meals[k + 1];
      }
      RemoveKeepsMealIdsUnique(rest, id);
      var tail := RemoveMeal(rest, id);
      forall k | 0 <= k < |tail|
        ensures tail[k].id != meals[0].id
      {
        var j :| 0 <= j < |rest| && rest[j] == tail[k];
        assert meals[j + 1] == tail[k];
      }
    }
  }

  /** A value at two positions is counted at least twice. */
  lemma RepeatedInMultiset(s: seq<Meal>, i: nat, j: nat)
    requires i < j < |s|
    ensures s[i] == s[j] ==> multiset(s)[s[i]] >= 2
  {
    assert s == s[..j] + [s[j]] + s[j + 1..];
    assert s[..j][i] == s[i];
    assert s[i] in multiset(s[..j]);
  }

  /** With distinct ids no meal occurs twice. */
  lemma {:induction false} UniqueCountsOnce(meals: seq<Meal>, x: Meal)
    requires MealIdsUnique(meals)
    ensures multiset(meals)[x] <= 1
    decreases |meals|
  {
    if meals != [] {
      var rest := meals[1..];
      assert meals == [meals[0]] + rest;
      assert MealIdsUnique(rest) by {
        assert forall k :: 0 <= k < |rest| ==> rest[k] == meals[k + 1];
      }
      UniqueCountsOnce(rest, x);
      if meals[0] == x {
        assert forall k :: 0 <= k < |rest| ==> rest[k] == meals[k + 1] && rest[k] != x;
        assert x !in rest;
      }
    }
  }

  /** Rearranging a list keeps its meal ids distinct. */
  lemma PermutationKeepsMealIdsUnique(a: seq<Meal>, b: seq<Meal>)
    requires multiset(a) == multiset(b)
    requires MealIdsUnique(a)
    ensures MealIdsUnique(b)
  {
    forall i, j | 0 <= i < j < |b|
      ensures b[i].id != b[j].id
    {
      UniqueCountsOnce(a, b[i]);
      RepeatedInMultiset(b, i, j);
      assert b[i] in multiset(a) && b[j] in multiset(a);
      var p :| 0 <= p < |a| && a[p] == b[i];
      var q :| 0 <= q < |a| && a[q] == b[j];
    }
  }

  /** Adding a meal whose id no meal of the day has keeps meal ids distinct. */
  lemma AddKeepsMealIdsUnique(meals: seq<Meal>, meal: Meal)
    requires MealIdsUnique(meals)
    requires forall k :: 0 <= k < |meals| ==> meals[k].id != meal.id
    ensures MealIdsUnique(SortByRank(meals + [meal]))
  {
    var added := meals + [meal];
    assert MealIdsUnique(added) by {
      forall i, j | 0 <= i < j < |added|
        ensures added[i].id != added[j].id
      {
        if j == |meals| {
          assert added[i] == meals[i];
        } else {
          assert added[i] == meals[i] && added[j] == meals[j];
        }
      }
    }
    SortByRankPermutation(added);
    PermutationKeepsMealIdsUnique(added, SortByRank(added));
  }

  /** The meals with the given id. */
  function OfId(meals: seq<Meal>, id: string): seq<Meal> {
    if meals == [] then []
    else (if meals[0].id == id then [meals[0]] else []) + OfId(meals[1..], id)
  }

  // ---------------------------------------------------------------------------
  // The ledger as a stateful object
  // ---------------------------------------------------------------------------

  /** The dashboard's state for one day: browser storage, the date fixed when the
      dashboard mounts, and the meals shown. */
  class DailyLedger {
    var store: map<string, StoredValue>
    var meals: seq<Meal>
    const date: string

    /** The meals shown are what loading the day's key gives back. */
    ghost predicate Valid()
      reads this
    {
      && (forall k :: 0 <= k < |meals| ==> meals[k].id != [])
      && LoadedMeals(store, StorageKey(date)) == meals
    }

    /** Mounting: the date is fixed and the day's key is loaded. */
    constructor (initialStore: map<string, StoredValue>, today: string)
      ensures Valid() && date == today
      ensures meals == LoadedMeals(initialStore, StorageKey(today))
      ensures store == StoreAfterLoad(initialStore, StorageKey(today))
    {
      date := today;
      store := initialStore;
      meals := [];
      new;
      Load();
    }

    /** The load effect: empty or missing data shows no meals; data that does not
        parse, is not an array, or has an element without an id or an items
        array shows no meals and is removed; otherwise its meals are shown. */
    method Load()
      modifies this
      ensures Valid()
      ensures meals == LoadedMeals(old(store), StorageKey(date))
      ensures store == StoreAfterLoad(old(store), StorageKey(date))
    {
      var key := StorageKey(date);
      LoadShape(store, key);
      LoadIdempotent(store, key);
      if key in store && store[key] != EmptyText {
        if store[key].ArrayOf? {
          var decoded := DecodeElements(store[key].elements);
          if decoded.Some? {
            meals := decoded.value;
          } else {
            meals := [];
            store := store - {key};
          }
        } else {
          meals := [];
          store := store - {key};
        }
      } else {
        meals := [];
      }
    }

    /** handleAddMeal: the new meal is built, the list with it appended is sorted
        by meal time, saved under the day's key, and shown. */
    method HandleAddMeal(input: MealInputData, mealStamp: string, itemStamps: seq<string>)
      returns (meal: Meal)
      requires Valid() && |itemStamps| == |input.items|
      modifies this
      ensures Valid()
      ensures meal == NewMeal(input, date, mealStamp, itemStamps)
      ensures meals == SortByRank(old(meals) + [meal])
      ensures store == old(store)[StorageKey(date) := Encode(meals)]
      ensures Consumed(meals) == Consumed(old(meals)) + meal.totalCalories
      ensures old(MealIdsUnique(meals)) && (forall k :: 0 <= k < |old(meals)| ==> old(meals)[k].id != MealId(mealStamp))
        ==> MealIdsUnique(meals)
    {
      meal := BuildMeal(input, date, mealStamp, itemStamps);
      var updated := SortByRank(meals + [meal]);
      ConsumedAfterAdd(meals, meal);
      SortByRankMembers(meals + [meal]);
      assert forall k :: 0 <= k < |meals + [meal]| ==> (meals + [meal])[k].id != [];
      if MealIdsUnique(meals) && forall k :: 0 <= k < |meals| ==> meals[k].id != meal.id {
        AddKeepsMealIdsUnique(meals, meal);
      }
      SaveThenLoad(store, StorageKey(date), updated);
      store := store[StorageKey(date) := Encode(updated)];
      meals := updated;
    }

    /** handleDeleteMeal: the meals with the id are dropped and the rest saved, even
        when no meal had the id. */
    method HandleDeleteMeal(id: string)
      requires Valid()
      modifies this
      ensures Valid()
      ensures meals == RemoveMeal(old(meals), id)
      ensures store == old(store)[StorageKey(date) := Encode(meals)]
      ensures old(MealIdsUnique(meals)) ==> MealIdsUnique(meals)
    {
      var updated := RemoveMeal(meals, id);
      if MealIdsUnique(meals) {
        RemoveKeepsMealIdsUnique(meals, id);
      }
      SaveThenLoad(store, StorageKey(date), updated);
      store := store[StorageKey(date) := Encode(updated)];
      meals := updated;
    }
  }
}
