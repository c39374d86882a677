# Meal entry and the daily ledger of a calorie tracker

This project models the meal-entry workflow of a browser calorie tracker and
proves properties of the model. The workflow has four parts:

- **The entry form** (`components/MealFormModal.tsx`). It holds a meal time and
  editable food rows. Each row has a name, a quantity and an optional manual
  calorie value. On submit, a loop walks the rows in order and stops at the
  first row that fails. A row with a manual value takes that value. Any other
  row is priced by a nutrition estimator; the estimator's reply goes through a
  shape check first. If every row is accepted, the items go to the dashboard.
  If a row fails, nothing is submitted. As written, the form then shows the
  generic "Please correct the errors…" text, unless an error was already
  visible before the submit (see "## Findings"); `EntryForm.Submit` models the
  intended behaviour, which shows the failing row's own message. When the
  estimator's reply caused the failure, the row also gets an error note.
- **Meal building** (`components/DashboardPage.tsx`, `handleAddMeal`). Every
  item gets an id. The meal gets an id, the date, the calorie total, and a
  protein, carbs and fat total. Each macro total is kept only when it is
  positive.
- **The day ledger** (`components/DashboardPage.tsx`). The day's meals live in
  browser storage under `meals_<date>` as a JSON array. Loading checks the
  array's shape and deletes data that fails the check. Adding a meal appends
  it, stable-sorts the list by meal time (Breakfast, Lunch, Dinner, Snack) and
  writes the whole list back. Deleting drops the meals with the id and writes
  the rest back.
- **Progress** (`components/DashboardPage.tsx`). The page shows calories
  consumed, the remainder against the daily goal, the progress percentage, and
  a header reading "Calories Remaining" or "Calories Over".

Modules:

- `Types` holds the records of `types.ts`.
- `Text` models ECMAScript `trim`, `parseInt(s, 10)` and decimal rendering.
- `MealForm` covers the rows, the estimator boundary, the submission loop and
  the `EntryForm` class.
- `Aggregation` builds the new meal.
- `Progress` computes the header figures.
- `Ledger` covers storage, ordering, deletion and the `DailyLedger` class.
- `Scenarios` holds worked end-to-end cases.

Two parts are stateful and are modelled as classes:

- `MealForm.EntryForm` holds the form's React state.
- `Ledger.DailyLedger` holds the storage map, the meal list and the date.

The submission loop is the method `MealForm.ProcessRows`. It is proved equal to
the function `MealForm.Submission`, and records which rows the estimator was
asked about. The loop in `handleAddMeal` is `Aggregation.BuildMeal`, proved
equal to `Aggregation.NewMeal`.

The estimator is an oracle `(row index, request) -> reply`. Indexing by row lets
each call get its own answer. A reply is either the parsed JSON fields, each
`None` when not a number, or `CallFailed`, which covers a thrown call and
unparsable text. The random and time-based parts of ids are parameters
(`stamp` strings). So is the current date. Storage is a `map` from key to a
classified value.

Facts about the code that shape the model:

- The storage key is `meals_<date>`.
- The loader accepts an element only if its `id` is truthy, so a meal with an
  empty id fails the check. `DecodeEncode` states when a save round-trips.
- An empty stored string counts as "nothing saved". It is not corrupt and stays
  in storage.
- The loader does not re-sort. A list loaded out of order stays out of order
  until the next add.
- The loader does not check that meal ids are distinct, so distinct ids are
  stated as a property that adding (with a fresh id) and deleting keep, not as
  a class invariant.
- The date is fixed once, when the dashboard mounts.
- Calories returned by the estimator are not checked to be non-negative. The
  non-negativity lemmas (`CaloriesTotalNonNegative`, `ConsumedNonNegative`)
  therefore carry that as a precondition.
- Three paths in the code are dead:
  - The message "No valid food items" (MealFormModal.tsx:167-168) can never
    show, because a successful loop yields one item per row and the form
    always has a row.
  - The text "Could not fetch data" (MealFormModal.tsx:148) can never show,
    because the shape check always gives either an error text or numeric
    calories.
  - The `!ai` early return of the estimator call (MealFormModal.tsx:70) can
    never be taken, because the loop checks `ai` first.

## Model

| member | source | states |
|---|---|---|
| Types.Rank | components/DashboardPage.tsx:83-84 | each meal time's position in the fixed order Breakfast, Lunch, Dinner, Snack; always below 4 |
| Types.WithId | components/DashboardPage.tsx:64-67 | the stored item carries the given id and, without it, is the submitted item unchanged |
| Types.PositiveOrNone | components/DashboardPage.tsx:76-78 | a macro total is stored exactly when it is positive, and then with its value |
| Types.CaloriesTotalAppend | components/DashboardPage.tsx:59-60 | the calorie total of two item lists together is the sum of their totals |
| Types.CaloriesTotalNonNegative | components/DashboardPage.tsx:59-60 | items of non-negative calories give a non-negative total |
| Text.TrimStartSpec | components/MealFormModal.tsx:114 | trimming the start leaves a suffix whose removed prefix is all whitespace, starts with a non-whitespace character, and empties exactly an all-whitespace string |
| Text.TrimEndSpec | components/MealFormModal.tsx:114 | the mirror statement: a prefix is left, the removed suffix is all whitespace |
| Text.TrimSpec | components/MealFormModal.tsx:120-121 | `trim` gives the middle slice of the text once an all-whitespace prefix and suffix are cut; it is empty iff the text is all whitespace, and otherwise begins and ends with non-whitespace |
| Text.TrimIdempotent | components/MealFormModal.tsx:127 | trimming twice equals trimming once |
| Text.TrimStart | components/MealFormModal.tsx:114 | leading whitespace removed; its contract is `TrimStartSpec` |
| Text.TrimEnd | components/MealFormModal.tsx:114 | trailing whitespace removed; its contract is `TrimEndSpec` |
| Text.Trim | components/MealFormModal.tsx:114-127 | `String.prototype.trim`; its contract is `TrimSpec` and `TrimIdempotent` |
| Text.DigitPrefix | components/MealFormModal.tsx:122 | the longest run of leading decimal digits |
| Text.NatToString | components/MealFormModal.tsx:115 | the rendering of a row number is a non-empty run of digits |
| Text.DigitsValueOfNatToString | components/MealFormModal.tsx:115 | reading a rendered number back gives the number |
| Text.ParseIntOfDecimal | components/MealFormModal.tsx:122 | `parseInt` of a decimal number followed by non-digits gives that number |
| Text.ParseIntOfNegative | components/MealFormModal.tsx:122 | a leading minus sign parses to the negated value |
| Text.ParseIntSkipsLeadingWhitespace | components/MealFormModal.tsx:122 | leading whitespace does not change what `parseInt` reads |
| Text.ParseInt | components/MealFormModal.tsx:122 | `parseInt(s, 10)`: leading whitespace skipped, then `ParseDigits`; stated by `ParseIntOfDecimal`, `ParseIntOfNegative`, `ParseIntSkipsLeadingWhitespace` |
| Text.ParseDigits | components/MealFormModal.tsx:122 | one optional sign, then the longest digit run (`DigitPrefix`), NaN (None) without digits |
| MealForm.HandleItemChange | components/MealFormModal.tsx:54-57 | rows with the id get the new field value and lose their error note; other fields and rows stay; length and ids are kept |
| MealForm.RemoveFoodItemField | components/MealFormModal.tsx:65-67 | exactly the rows with other ids remain; removing an absent id changes nothing |
| MealForm.AddFoodItemField | components/MealFormModal.tsx:61-63 | one blank row appended; stated by `AddPreservesUnique` and `AddThenRemove` |
| MealForm.RemoveDistributes | components/MealFormModal.tsx:65-67 | removal distributes over concatenation, so it is the order-keeping filter |
| MealForm.RemovePreservesUnique | components/MealFormModal.tsx:65-67 | removing keeps local ids distinct |
| MealForm.RemoveKeepsARow | components/MealFormModal.tsx:236-245 | with distinct ids and more than one row, a removal leaves at least one row |
| MealForm.AddPreservesUnique | components/MealFormModal.tsx:61-63 | adding a row under a fresh id keeps local ids distinct |
| MealForm.AddThenRemove | components/MealFormModal.tsx:61-67 | removing a freshly added row restores the rows |
| MealForm.ChangeThenRemove | components/MealFormModal.tsx:54-67 | editing a row and then removing it equals removing it at once |
| MealForm.CheckReply | components/MealFormModal.tsx:87-95 | the checked reply has an error note iff the reply has an error or a non-numeric field; a well-formed reply passes unchanged; otherwise all four values are 0; a reply's own error text is kept |
| MealForm.Message | components/MealFormModal.tsx:115-152 | every failure has a non-empty message |
| MealForm.ProcessRowCases | components/MealFormModal.tsx:114-161 | each failure kind happens exactly under its condition, in the source's order; every failure but the empty name carries the trimmed food name, and an estimation failure also carries the estimator's error text; accepted rows keep the trimmed name and quantity; manual rows carry the parsed positive value and no macros; estimated rows carry the estimator's four values |
| MealForm.ProcessRowIgnoresEstimator | components/MealFormModal.tsx:127-144 | a row the estimator is not asked about does not depend on the estimator |
| MealForm.ProcessRow | components/MealFormModal.tsx:111-161 | the loop body for one row, as a function; its contract is `ProcessRowCases` |
| MealForm.Collect | components/MealFormModal.tsx:110-162 | either every row is accepted and the items are the accepted items in order, or the outcome is the first failing row and its failure |
| MealForm.SubmissionSucceeds | components/MealFormModal.tsx:110-162 | if every row is accepted, the submission yields exactly those items |
| MealForm.SubmissionFailsAt | components/MealFormModal.tsx:110-162 | the first failing row decides the outcome, whatever the later rows hold |
| MealForm.Submission | components/MealFormModal.tsx:107-162 | every row's result collected up to the first failure; stated by `SubmissionSucceeds`, `SubmissionFailsAt` and met by `ProcessRows` |
| MealForm.EstimatorCalls | components/MealFormModal.tsx:146 | the calls of the first n iterations are exactly the priced rows below n, in increasing order, each once |
| MealForm.ProcessOne | components/MealFormModal.tsx:111-161 | one iteration's result is the specified row result, and it calls the estimator exactly when the row is priced |
| MealForm.ProcessRows | components/MealFormModal.tsx:107-162 | the loop computes `Submission`, any failure index is a row, and the estimator was called for exactly the priced rows up to where the loop stopped |
| MealForm.NeedsApiCall | components/MealFormModal.tsx:177-182 | true iff some row has a name, a quantity, no manual value and an available estimator |
| MealForm.NeedsApiCallMatchesCalls | components/MealFormModal.tsx:177-182 | the "(Calculate)" label shows exactly when a full pass over the rows would call the estimator |
| MealForm.EnabledSubmitHasEstimatorWhenNeeded | components/MealFormModal.tsx:314 | with the submit button enabled, no submission fails for want of the estimator |
| MealForm.ErrorAfterSubmit | components/MealFormModal.tsx:164-171 | intended form error: a failure shows its own message, a submitted meal shows none, and an empty success shows the "No valid food items" text |
| MealForm.SettleError | components/MealFormModal.tsx:164-171 | the three checks after the loop, given the value the fallback test reads; shared by the as-written and the corrected error and used by `EntryForm.Submit` |
| MealForm.ErrorAfterSubmitAsWritten | components/MealFormModal.tsx:164-171 | the form error as the code computes it, the fallback reading the error from before the submission; `StaleErrorHidesMessage` states where it departs from `ErrorAfterSubmit` |
| MealForm.MessageIsNotFallback | components/MealFormModal.tsx:170 | no row message equals the generic fallback text |
| MealForm.StaleErrorHidesMessage | components/MealFormModal.tsx:169-170 | as written, any failed submission started with no visible error ends showing the fallback text, unlike the intended behaviour |
| MealForm.StaleErrorExample | components/MealFormModal.tsx:114-117 | a row whose name is a single space fails as entry #1; as written the fallback text shows, where the entry #1 message was intended |
| MealForm.RowsAfterSubmitMarksFailedRow | components/MealFormModal.tsx:103-149 | after a submission only the row the estimator failed on has an error note, and every text field is kept |
| MealForm.RowsAfterSubmit | components/MealFormModal.tsx:103-149 | every note cleared, then the estimator's failing row noted; its contract is `RowsAfterSubmitMarksFailedRow` |
| MealForm.EntryForm.constructor | components/MealFormModal.tsx:23-29 | the form opens on Breakfast with one blank row, no error, not busy |
| MealForm.EntryForm.SelectMealTime | components/MealFormModal.tsx:223 | only the meal time changes |
| MealForm.EntryForm.ChangeItem | components/MealFormModal.tsx:54-59 | rows become `HandleItemChange` of the old rows and the form error is cleared |
| MealForm.EntryForm.AddRow | components/MealFormModal.tsx:61-63 | a blank row is appended; ids stay distinct |
| MealForm.EntryForm.RemoveRow | components/MealFormModal.tsx:65-67 | the row is filtered out; at least one row and distinct ids remain |
| MealForm.EntryForm.Submit | components/MealFormModal.tsx:98-175 | submits the meal time and items exactly when every row is accepted; records the estimator calls; marks the failing row; sets the intended form error; restores not-busy |
| Aggregation.ItemId | components/DashboardPage.tsx:66 | item ids are never empty |
| Aggregation.MealId | components/DashboardPage.tsx:71 | meal ids are never empty |
| Aggregation.ItemIdInjective | components/DashboardPage.tsx:66 | distinct stamps give distinct item ids |
| Aggregation.NewItems | components/DashboardPage.tsx:59-68 | item k carries stamp k's id and, without it, is input item k |
| Aggregation.NewMeal | components/DashboardPage.tsx:54-79 | the new meal stated declaratively; its contract is `NewMealFaithful` and `NewMealItemIdsUnique`, and `BuildMeal` computes it |
| Aggregation.NewMealFaithful | components/DashboardPage.tsx:70-79 | the meal has the given id, date and meal time, holds the submitted items in order, and its totals agree with its items |
| Aggregation.NewMealItemIdsUnique | components/DashboardPage.tsx:59-68 | with distinct stamps, item ids are unique within the meal |
| Aggregation.PositiveItemsGivePositiveTotal | components/DashboardPage.tsx:59-60 | a non-empty meal of positive items has a positive total |
| Aggregation.BuildMeal | components/DashboardPage.tsx:54-79 | the accumulating loop builds exactly `NewMeal` |
| Progress.ConsumedAppend | components/DashboardPage.tsx:100 | consumption over two lists is the sum of their consumptions |
| Progress.ConsumedPermutation | components/DashboardPage.tsx:100 | consumption does not depend on the order of the meals |
| Progress.ConsumedNonNegative | components/DashboardPage.tsx:100 | meals of non-negative totals give non-negative consumption |
| Progress.Consumed | components/DashboardPage.tsx:100 | the sum of the meals' totals; stated by `ConsumedAppend`, `ConsumedPermutation`, `ConsumedNonNegative` |
| Progress.Remaining | components/DashboardPage.tsx:101 | remaining plus consumed is the goal |
| Progress.Percentage | components/DashboardPage.tsx:102 | never negative, 0 for a non-positive goal, otherwise consumed/goal times 100 with no upper clamp |
| Progress.PercentageAgainstGoal | components/DashboardPage.tsx:102 | the percentage is above 100 iff consumption exceeds the goal, and exactly 100 iff it equals it |
| Progress.HeaderFor | components/DashboardPage.tsx:109-112 | "Calories Over" iff consumption exceeds the goal; the amount is the absolute remainder |
| Progress.OverLabelMatchesPercentage | components/DashboardPage.tsx:102-112 | with a positive goal, the header reads "Calories Over" iff the percentage exceeds 100 |
| Ledger.StorageKeyInjective | components/DashboardPage.tsx:25 | different days use different storage keys |
| Ledger.DecodeElements | components/DashboardPage.tsx:30 | the array is accepted iff every element passes the id-and-items check, and then yields those meals in order |
| Ledger.Encode | components/DashboardPage.tsx:47 | what `JSON.stringify` of the list stores; its round trip is `DecodeEncode` |
| Ledger.Inspect | components/DashboardPage.tsx:25-43 | what the loader makes of a stored value: missing, loaded or corrupt; stated by `LoadShape` and `DecodeEncode` |
| Ledger.LoadedMeals | components/DashboardPage.tsx:25-43 | the meals shown after loading a key; stated by `LoadShape`, `SaveThenLoad`, `LoadIdempotent` |
| Ledger.StoreAfterLoad | components/DashboardPage.tsx:34-39 | storage after loading: the key removed exactly when its data is corrupt; stated by `LoadShape`, `LoadIdempotent` |
| Ledger.LoadShape | components/DashboardPage.tsx:24-44 | loaded meals have non-empty ids; loading touches no other key and leaves nothing corrupt behind |
| Ledger.DecodeEncode | components/DashboardPage.tsx:28-47 | a saved list loads back unchanged iff all its ids are non-empty; otherwise it is discarded as corrupt |
| Ledger.SaveThenLoad | components/DashboardPage.tsx:25-48 | saving and reopening the day restores the list and leaves storage unchanged |
| Ledger.LoadIdempotent | components/DashboardPage.tsx:24-44 | loading twice gives the same meals and storage as loading once |
| Ledger.OfTime | components/DashboardPage.tsx:82-85 | a selection is no longer than the list and holds only its meal time |
| Ledger.SortByRank | components/DashboardPage.tsx:82-85 | the stable sort by meal-time rank; stated by `SortByRankSorted`, `SortByRankPermutation`, `SortByRankStable`, `SortByRankUnique` |
| Ledger.SortByRankSorted | components/DashboardPage.tsx:82-85 | the sorted list is ordered by meal-time rank |
| Ledger.SortByRankPermutation | components/DashboardPage.tsx:82-85 | the sort is a permutation |
| Ledger.SortByRankStable | components/DashboardPage.tsx:82-85 | within each meal time the original order is kept |
| Ledger.SortedIsFixed | components/DashboardPage.tsx:82-85 | an ordered list is its own sort |
| Ledger.SortByRankUnique | components/DashboardPage.tsx:82-85 | the sort is the only ordered list that keeps each meal time's order |
| Ledger.AddedMealComesLastInItsTime | components/DashboardPage.tsx:81-85 | a new meal comes after every earlier meal of its meal time; other meal times are unchanged |
| Ledger.ConsumedAfterAdd | components/DashboardPage.tsx:81-100 | adding a meal adds exactly its calories to consumption |
| Ledger.RemoveMeal | components/DashboardPage.tsx:93 | exactly the meals with other ids remain |
| Ledger.RemoveMealDistributes | components/DashboardPage.tsx:93 | deleting distributes over concatenation, so with `RemoveMealSingle` it is the order-keeping filter |
| Ledger.RemoveMealSingle | components/DashboardPage.tsx:93 | one meal is dropped exactly when it has the id |
| Ledger.RemoveKeepsMealIdsUnique | components/DashboardPage.tsx:93 | deleting keeps meal ids distinct |
| Ledger.PermutationKeepsMealIdsUnique | components/DashboardPage.tsx:82-85 | rearranging a list keeps its meal ids distinct |
| Ledger.AddKeepsMealIdsUnique | components/DashboardPage.tsx:70-85 | adding a meal whose id is new to the day, then sorting, keeps meal ids distinct |
| Ledger.RemoveAbsent | components/DashboardPage.tsx:93 | deleting an id no meal has changes nothing |
| Ledger.RemoveKeepsSorted | components/DashboardPage.tsx:93 | deleting keeps the list ordered by meal time |
| Ledger.RemoveConsumed | components/DashboardPage.tsx:93-100 | deleting removes exactly the deleted meals' calories |
| Ledger.DailyLedger.constructor | components/DashboardPage.tsx:22-44 | mounting fixes the date and loads the day's key |
| Ledger.DailyLedger.Load | components/DashboardPage.tsx:24-44 | missing or empty data shows no meals; a checked array shows its meals; corrupt data shows none and its key is removed |
| Ledger.DailyLedger.HandleAddMeal | components/DashboardPage.tsx:51-89 | the built meal is `NewMeal`; the list is the stable sort of the old list plus it; the whole list is saved; consumption grows by its calories; distinct meal ids stay distinct when the new id is fresh |
| Ledger.DailyLedger.HandleDeleteMeal | components/DashboardPage.tsx:91-97 | the meals with the id are dropped, the others kept in order, and the whole list is saved; distinct meal ids stay distinct |
| Scenarios.ManualRowAccepted | components/MealFormModal.tsx:127-133 | a row with 800 manual calories submits as typed and no estimator call is made |
| Scenarios.MissingQuantityRejected | components/MealFormModal.tsx:140-144 | with the estimator available, no manual value and a blank quantity fail before any call |
| Scenarios.EstimatorErrorOnSecondRow | components/MealFormModal.tsx:146-153 | an estimator error on row 2 of 3 fails the submission there, after calls for rows 1 and 2 only, and notes only row 2 |
| Scenarios.ManualMealFlow | components/DashboardPage.tsx:100-112 | one 800-calorie manual meal against the default 2000 goal gives 800 consumed, 1200 remaining, 40 percent |
| Scenarios.CorruptDayIsCleared | components/DashboardPage.tsx:30-35 | a non-array for the day shows no meals and removes only that key |
| Scenarios.AddThenReopen | components/DashboardPage.tsx:81-88 | after an add, reopening the day shows the sorted list with the new meal in it |
| Scenarios.DeleteThenReopen | components/DashboardPage.tsx:91-97 | after a delete, reopening the day shows no meal with that id, and a second delete changes nothing |

## Left out

- The estimator call itself is not modelled: the prompt, the model name, the
  fence-stripping regular expression and `JSON.parse`. The reply is an oracle
  that gives the parsed fields.
- API-key setup is not modelled. Whether the client could be created is one
  flag, `estimatorAvailable`. The same flag stands for `apiKeyMissingError` in
  the button's disabled test (MealFormModal.tsx:314), because once the mount effect
  has run the two are always set together (before it, both are null).
- React mechanics are not modelled: state batching, re-renders and effects. Each
  handler is one atomic state change.
- Closing the form while a submission is in flight (abandoning the result) is
  not modelled, because the model has no concurrency.
- `Date.now`, `Math.random` and `new Date()` are parameters: the stamps and the
  date.
- Locale formatting of numbers and dates in the header is left out, because it
  is presentation only.
- JavaScript numbers are not modelled as doubles:
  - calories and macros are unbounded integers;
  - the percentage is an exact `real`, with no rounding modelled.
- Elements that have a truthy `id` and an `items` array but wrong other fields
  are not distinguished. The loader accepts them; the model treats every
  accepted element as a well-formed meal.
- A non-string `error` field in the estimator's reply is not modelled. `error`
  is an optional string.
- A `NaN` goal is not modelled. The goal comes from `parseInt` in `App.tsx`; the
  model takes an integer goal.
- The loader accepts a list with repeated meal ids (DashboardPage.tsx:30), so
  distinct meal ids are not a `DailyLedger` invariant; `AddKeepsMealIdsUnique`
  and `RemoveKeepsMealIdsUnique` state that the ledger's own changes keep them.
- The settings page, theme, navigation, `MealList` and `ProgressBar` rendering
  are outside this model. So is the clamping of the progress bar's width.
- The browser's own form validation is not modelled: `required` on the food
  name (MealFormModal.tsx:256) and `type="number" min="1"` on the calorie field
  (MealFormModal.tsx:276-282). The model runs `handleSubmit` on every row, also
  on rows the browser would stop before the handler runs. For example, an empty
  name never reaches the handler, and the number field's checks stop the zero,
  negative and fractional values behind most `BadManualCalories` failures.
- The "Cancel" and close buttons are not modelled. They only call `onClose`.
- Progress.Percentage: the source computes the percentage in floating point.
  The model's value is the exact quotient, so rounding is not captured.

## Findings

| source | as written | input that shows it | evidently intended | confidence | as-written member | corrected member |
|---|---|---|---|---|---|---|
| components/MealFormModal.tsx:169 | the fallback test reads `globalError` as captured when the submission started, not the message the loop just set, so the generic "Please correct the errors…" text replaces the failing row's message | one row whose name is a single space (which the browser's `required` check lets through), submitted with no error showing: the form shows the generic text instead of "Food item name for entry #1 cannot be empty." | show the generic text only when the loop set no message, so a failing row's own message stays visible | not executed | MealForm.ErrorAfterSubmitAsWritten (shown by MealForm.StaleErrorHidesMessage and MealForm.StaleErrorExample) | MealForm.ErrorAfterSubmit (used by MealForm.EntryForm.Submit) |
