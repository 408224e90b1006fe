# Meal-plan generator model

This project models the meal-plan generator of the Buono backend
(`backend/routes/mealPlans.js`). The handler answers `POST /generate` in these steps:

1. Look up the user's stored TDEE (total daily energy expenditure).
2. Shift it by the goal: weight loss is -500 kcal, muscle gain is +300 kcal.
3. Split the daily target over breakfast, lunch, dinner and snack (30/35/30/5 %).
4. Query the recipe store with a filter built from the request's diet type and goal.
5. Group the recipes by meal type.
6. Build the plan day by day. Each slot gets the recipe closest to the slot's
   calorie target. When a slot has more than three candidates, the recipes
   already used in the current rotation window are skipped, and the window
   restarts once every candidate has been used.
7. Compute each day's nutrient totals and the rounded averages over the requested days.

Modules:

- `Wrappers`: Option and Result.
- `Domain`: meal types, recipes, per-slot records, totals, day plans.
- `Rounding`: `Math.round` of an integer quotient.
- `Targets`: the daily target and its per-slot split.
- `Matching`: `findBestRecipeMatch`, a stable sort by calorie distance followed by taking the head.
- `Nutrition`: `calculateDayTotals`, as a loop.
- `Rotation`: one slot's selection step and the rotation-window invariant.
- `MealPlans`: grouping, the day loop, the averages and the handler.

Three behaviours of the code are kept as written:

- The rotation window is reset only when filtering leaves no recipe.
- The tolerance in the matcher never changes the result.
- `Math.round` sends halves up, also for negative quotients.

The rotation window is proved to have a fixed length. Call K the number of
distinct recipe ids in a slot's group. For a group of more than three recipes:

- The windows are exactly the day ranges [cK, (c+1)K).
- Each day takes the best match among the recipes not yet served in its window.
- No id repeats inside a window.

## Model

| member | source | states |
|---|---|---|
| Targets.CalculateTargetCalories | ethopian_buono/backend/routes/mealPlans.js:8-15 | weight loss gives TDEE - 500, muscle gain gives TDEE + 300, any other goal (or none) gives TDEE |
| Targets.GoalOrdering | ethopian_buono/backend/routes/mealPlans.js:8-15 | for one TDEE, weight loss aims below maintenance and maintenance below muscle gain |
| Targets.GetTargetCaloriesPerMeal | ethopian_buono/backend/routes/mealPlans.js:18-25 | each slot's target is its share (30/35/30/5 %) of the daily target, rounded half up on its own |
| Targets.SplitOf2000 | ethopian_buono/backend/routes/mealPlans.js:18-25 | 2000 kcal splits into 600, 700, 600 and 100 |
| Targets.SplitStaysNearTarget | ethopian_buono/backend/routes/mealPlans.js:18-25 | the four independently rounded slot targets sum to between target - 1 and target + 2 |
| Targets.SplitCanDrift | ethopian_buono/backend/routes/mealPlans.js:18-25 | the rounding error is not redistributed: 2002 splits into 601/701/601/100, which sums to 2003 |
| Rounding.RoundRatio | ethopian_buono/backend/routes/mealPlans.js:20-23 | the result r satisfies r <= num/den + 1/2 < r + 1, as Math.round does |
| Rounding.RoundedQuotientUnique | ethopian_buono/backend/routes/mealPlans.js:20-23 | at most one integer is the rounded quotient, so the rounding is fully determined |
| Rounding.RoundRatioExact | ethopian_buono/backend/routes/mealPlans.js:166-169 | rounding an exact integer quotient returns that integer |
| Matching.Difference | ethopian_buono/backend/routes/mealPlans.js:34 | the distance is the absolute value of calories minus target: at least both differences and equal to one of them |
| Matching.ScoreAll | ethopian_buono/backend/routes/mealPlans.js:32-34 | one scored entry per candidate, in input order, holding the candidate and its distance |
| Matching.Insert | ethopian_buono/backend/routes/mealPlans.js:35 | insertion keeps the elements (same multiset plus the new one), and the head is the new one when the list is empty or the new one is not farther than the old head, otherwise the old head |
| Matching.InsertPosition | ethopian_buono/backend/routes/mealPlans.js:35 | the new element lands at a position k where every earlier element is strictly closer and the next one is not closer, so in a sorted list it precedes every element it ties with |
| Matching.InsertKeepsBound | ethopian_buono/backend/routes/mealPlans.js:35 | insertion keeps every lower bound shared by the inserted element and the sequence |
| Matching.InsertKeepsSorted | ethopian_buono/backend/routes/mealPlans.js:35 | inserting into a list sorted by difference keeps it sorted |
| Matching.StableSort | ethopian_buono/backend/routes/mealPlans.js:32-35 | the sort yields a permutation of the scored candidates, ordered by difference |
| Matching.FirstMinIndex | ethopian_buono/backend/routes/mealPlans.js:32-38 | the index holds a minimal difference and every earlier index is strictly farther |
| Matching.StableSortHead | ethopian_buono/backend/routes/mealPlans.js:32-38 | the head of the stable sort is the first element with the least difference |
| Matching.BestMatchUnique | ethopian_buono/backend/routes/mealPlans.js:28-47 | the earliest closest recipe is unique |
| Matching.FindBestRecipeMatch | ethopian_buono/backend/routes/mealPlans.js:28-47 | no match exactly when there are no candidates; otherwise the earliest candidate at the least calorie distance |
| Matching.SortedHeadIsClosest | ethopian_buono/backend/routes/mealPlans.js:32-38 | the sorted head's recipe is the earliest closest candidate |
| Matching.ToleranceIsIgnored | ethopian_buono/backend/routes/mealPlans.js:39-46 | the result is the same for every tolerance |
| Matching.MatchIsCandidate | ethopian_buono/backend/routes/mealPlans.js:28-47 | with candidates there is a match, and it is one of them |
| Matching.ClosestTo680 | ethopian_buono/backend/routes/mealPlans.js:28-47 | among 500, 700 and 900 kcal recipes the 700 kcal one is nearest to 680 |
| Matching.TieGoesToEarliest | ethopian_buono/backend/routes/mealPlans.js:32-38 | of two equally close recipes the first one is chosen |
| Nutrition.CalculateDayTotals | ethopian_buono/backend/routes/mealPlans.js:50-72 | each of the four totals equals the day total of that nutrient over the filled slots |
| Nutrition.EmptySlotSum | ethopian_buono/backend/routes/mealPlans.js:56-64 | over no filled slots every running total is 0 |
| Nutrition.SlotSumFill | ethopian_buono/backend/routes/mealPlans.js:56-64 | filling one more slot adds that recipe's amount exactly when the slot is visited |
| Nutrition.DayTotalOfNoMeals | ethopian_buono/backend/routes/mealPlans.js:50-72 | a day with no meals totals 0 for every nutrient |
| Nutrition.DayTotalAddMeal | ethopian_buono/backend/routes/mealPlans.js:56-64 | filling an empty slot adds exactly the recipe's amount, an absent macro field adding 0 |
| Domain.Amount | ethopian_buono/backend/routes/mealPlans.js:59-62 | a recipe adds its calories, and its protein, carbs and fats when present, 0 when absent |
| Rotation.Unused | ethopian_buono/backend/routes/mealPlans.js:137-139 | keeps exactly the group's recipes whose id is not in the used-list; an empty used-list keeps the whole group |
| Rotation.UnusedAppend | ethopian_buono/backend/routes/mealPlans.js:137-139 | the filter keeps the group's order: filtering a concatenation concatenates the filtered parts, which fixes the tie-break among unused recipes |
| Rotation.SelectMeal | ethopian_buono/backend/routes/mealPlans.js:131-154 | nothing is selected exactly when the group is empty. A group of at most 3 gives its best match and appends its id. A larger group gives the best unused match, whose id is new, and appends it; once every id is used it gives the group's best match and the used-list restarts with that id |
| Rotation.WindowLength | ethopian_buono/backend/routes/mealPlans.js:136-145 | a non-empty group has a positive window length |
| Rotation.WindowStart | ethopian_buono/backend/routes/mealPlans.js:141-145 | a day lies in the window that starts at most K - 1 days before it |
| Rotation.WindowStartIdempotent | ethopian_buono/backend/routes/mealPlans.js:141-145 | the first day of a window starts its own window |
| Rotation.WindowStartWithin | ethopian_buono/backend/routes/mealPlans.js:141-145 | every day up to K - 1 after a window's first day belongs to that window |
| Rotation.WindowStartIsMultiple | ethopian_buono/backend/routes/mealPlans.js:141-145 | the window of day d starts at (d / K) * K: windows are consecutive blocks of K days from day 0 |
| Rotation.SomeUnused | ethopian_buono/backend/routes/mealPlans.js:137-142 | a duplicate-free used-list shorter than the group's distinct ids leaves an unused recipe |
| Rotation.AllUsed | ethopian_buono/backend/routes/mealPlans.js:141-145 | a duplicate-free used-list of the group's ids, as long as its distinct ids, covers every recipe |
| Rotation.EarlierDaysKept | ethopian_buono/backend/routes/mealPlans.js:122-161 | appending a day keeps the window facts of the days before it |
| Rotation.FirstDayStep | ethopian_buono/backend/routes/mealPlans.js:120-153 | the first day takes the best match of the whole group and opens the first window |
| Rotation.InWindowStep | ethopian_buono/backend/routes/mealPlans.js:136-153 | inside a window the day takes the best match among recipes not yet served in it, and the used-list grows by its id |
| Rotation.ResetStep | ethopian_buono/backend/routes/mealPlans.js:141-153 | after a full window the used-list restarts, the day takes the group's best match and a new window starts |
| Rotation.LaterDayStep | ethopian_buono/backend/routes/mealPlans.js:136-153 | every day after the first either continues the current window or starts the next |
| Rotation.AdvanceWindow | ethopian_buono/backend/routes/mealPlans.js:122-161 | one more day keeps a large group's window facts and its used-list equal to the current window's ids |
| Rotation.AdvanceDay | ethopian_buono/backend/routes/mealPlans.js:122-161 | one more day keeps the slot's rotation state (the plan follows the rotation rule; the used-list is the current window) |
| Rotation.NoRepeatWithinWindow | ethopian_buono/backend/routes/mealPlans.js:136-153 | in a group of more than 3 recipes, two days in the same window serve different recipe ids |
| Rotation.FirstWindowDistinct | ethopian_buono/backend/routes/mealPlans.js:136-153 | a plan no longer than the group's distinct ids never repeats a recipe in a large group |
| Rotation.SmallGroupRepeats | ethopian_buono/backend/routes/mealPlans.js:135-136 | a group of at most 3 recipes serves the same recipe, its best match, every day |
| MealPlans.Group | ethopian_buono/backend/routes/mealPlans.js:112-115 | filtering never lengthens the recipe list |
| MealPlans.GroupMembers | ethopian_buono/backend/routes/mealPlans.js:112-115 | a recipe is in the filtered list exactly when it is among the recipes and its mealType equals the tag |
| MealPlans.GroupRecipes | ethopian_buono/backend/routes/mealPlans.js:110-116 | each of the four groups holds exactly the recipes whose mealType names its slot |
| MealPlans.GroupAppend | ethopian_buono/backend/routes/mealPlans.js:112-115 | grouping keeps the input order: the group of a concatenation is the concatenation of the groups |
| MealPlans.GroupOfOneType | ethopian_buono/backend/routes/mealPlans.js:112-115 | a list whose recipes all carry the tag filters to itself, order included |
| MealPlans.GroupsAreDisjoint | ethopian_buono/backend/routes/mealPlans.js:110-116 | no recipe is in two groups |
| MealPlans.UntypedRecipeIgnored | ethopian_buono/backend/routes/mealPlans.js:110-116 | a recipe whose mealType names no slot is in no group |
| MealPlans.PlanDay | ethopian_buono/backend/routes/mealPlans.js:129-156 | after one day's pass every slot is empty exactly when its group is empty, and otherwise holds SelectMeal's choice with SelectMeal's used-list |
| MealPlans.PlanDays | ethopian_buono/backend/routes/mealPlans.js:118-162 | the plan has max(days, 0) entries numbered 1..days. Each entry carries the daily target and the totals of its own meals. Every slot is filled from its group when the group is non-empty and follows the rotation rule |
| MealPlans.PlannedMealsComeFromRecipes | ethopian_buono/backend/routes/mealPlans.js:110-156 | when a slot follows the rotation rule over its group, every meal planned for it is one of the fetched recipes, tagged for that slot |
| MealPlans.MeanRounded | ethopian_buono/backend/routes/mealPlans.js:166-169 | no value (NaN) exactly when days is 0; otherwise the quotient total/days rounded half up |
| MealPlans.SumOfDays | ethopian_buono/backend/routes/mealPlans.js:166-169 | the `reduce` starts from 0, and a one-day plan sums to that day's total |
| MealPlans.SumOfDaysConcat | ethopian_buono/backend/routes/mealPlans.js:166-169 | the sum over a plan splits at any day: the sum of a concatenation is the sum of the two parts |
| MealPlans.AverageDailyTotals | ethopian_buono/backend/routes/mealPlans.js:164-170 | each average is missing exactly when days is 0, and is otherwise the rounded quotient of that nutrient's sum of day totals by days |
| MealPlans.SumOfUniformDays | ethopian_buono/backend/routes/mealPlans.js:166-169 | if every day totals t, the sum over the plan is t times its length |
| MealPlans.UniformPlanAverage | ethopian_buono/backend/routes/mealPlans.js:164-170 | a plan whose days all total t averages exactly t |
| MealPlans.NoDaysAverage | ethopian_buono/backend/routes/mealPlans.js:164-170 | with no days the averages are NaN for a count of 0 and 0 for a negative count |
| MealPlans.BuildFilter | ethopian_buono/backend/routes/mealPlans.js:94-100 | a filter field is set exactly when the request's value is a non-empty string, and then to that value |
| MealPlans.EmptyRequestMatchesAll | ethopian_buono/backend/routes/mealPlans.js:94-100 | absent or empty diet type and goal filter nothing |
| MealPlans.RequestedDays | ethopian_buono/backend/routes/mealPlans.js:77 | an absent day count defaults to 7, a given one is used as is |
| MealPlans.Generate | ethopian_buono/backend/routes/mealPlans.js:75-182 | no TDEE record gives the TDEE-not-found error, and an empty recipe query gives the no-recipes error. Otherwise the result is a plan for the grouped recipes, the goal-adjusted target, its split and the requested days (7 when absent), with a summary echoing TDEE, target, goal, diet type, days and the averages |
| MealPlans.PlannedMealsMatchRequest | ethopian_buono/backend/routes/mealPlans.js:94-156 | when the store honours the filter, every planned meal has the requested diet type when one is requested, and the requested goal when one is requested |
| MealPlans.WeightLossDayOf2200 | ethopian_buono/backend/routes/mealPlans.js:8-25 | TDEE 2200 with weight loss plans 1700 kcal a day, split 510/595/510/85 |

## Left out

- Express routing, authentication and the JSON response writing are not modelled. The handler's result is a `Result` value holding either the plan or one of the two 404 errors (the error message strings are kept as constants).
- The catch-all 500 path (lines 183-186) is not modelled: it handles exceptions thrown by the store, and the store is not part of this model.
- The two store queries are inputs. The TDEE lookup becomes `userTdee: Option<int>`. `Recipe.find` becomes a function parameter from the built filter to a recipe sequence, so nothing is assumed about what the store returns. `MealPlans.PlannedMealsMatchRequest` states what follows when the store honours the filter.
- Floating point is not modelled: calories, macros and TDEE are integers and `Math.round` is exact rational rounding. A double product can land just below an exact half: `1290 * 0.35` is `451.49999999999994`, so JavaScript gives 451 where the model gives 452.
- Targets.GetTargetCaloriesPerMeal: for integer targets from 1000 to 4000 only the 35 % lunch share is affected, at 27 targets (1290, 1310, 1330, …), and there the model's lunch target is one above JavaScript's.
- `days` is modelled as an integer or absent. A non-integer, string or null `days` in the request body is not modelled. A zero count gives `None` averages (NaN, serialised as null).
- Request fields are modelled as strings or absent. Other JSON types for `dietType` and `goal` are not modelled.
- A recipe's `calories` is required, because the matcher subtracts it. `calories || 0` in the day totals is therefore simply the value. Absent `protein`, `carbs` and `fats` count as 0.
- Recipe identifiers are naturals compared by equality, standing in for the `_id.toString()` strings.
- The `for...in` walks over `groupedRecipes` and over a day's meals are modelled as a fixed slot order: breakfast, lunch, dinner, snack.
- Matching.StableSort: the contract states sortedness and permutation. Stability is stated only through its head (`Matching.StableSortHead`), because the planner uses only the head.
- Rotation.WindowLength: the window length is the number of distinct ids in a group. It equals the group size when ids are unique, as they are in the store.
