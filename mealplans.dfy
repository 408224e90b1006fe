/** The meal-plan generator: grouping the recipes by slot, the day loop with
    its per-slot rotation windows, the averages over the plan, and the
    request handler with its two not-found exits. */
module MealPlans {
  import opened Wrappers
  import opened Domain
  import opened Rounding
  import opened Targets
  import opened Nutrition
  import opened Rotation

  // ---------------------------------------------------------------------
  // Grouping by meal type

  /** The recipes whose mealType is tag, in their original order
      (`recipes.filter(recipe => recipe.mealType === tag)`). */
  function Group(recipes: seq<Recipe>, tag: string): (g: seq<Recipe>)
    ensures |g| <= |recipes|
  {
    if recipes == [] then []
    else (if recipes[0].mealType == tag then [recipes[0]] else []) + Group(recipes[1..], tag)
  }

  /** A recipe is in the group exactly when it is in the list and carries the tag. */
  lemma {:induction false} GroupMembers(recipes: seq<Recipe>, tag: string)
    ensures forall r :: r in Group(recipes, tag) <==> r in recipes && r.mealType == tag
  {
    if recipes != [] {
      GroupMembers(recipes[1..], tag);
      assert recipes == [recipes[0]] + recipes[1..];
    }
  }

  /** The four groups: each holds exactly the recipes whose mealType names its slot. */
  function GroupRecipes(recipes: seq<Recipe>): (groups: PerMeal<seq<Recipe>>)
    ensures forall m, r :: r in groups.Get(m) <==> r in recipes && r.mealType == Name(m)
  {
    GroupMembers(recipes, Name(Breakfast));
    GroupMembers(recipes, Name(Lunch));
    GroupMembers(recipes, Name(Dinner));
    GroupMembers(recipes, Name(Snack));
    PerMeal(Group(recipes, Name(Breakfast)), Group(recipes, Name(Lunch)),
            Group(recipes, Name(Dinner)), Group(recipes, Name(Snack)))
  }

  /** Grouping keeps the order of the recipe list: grouping a concatenation
      concatenates the groups. */
  lemma {:induction false} GroupAppend(a: seq<Recipe>, b: seq<Recipe>, tag: string)
    ensures Group(a + b, tag) == Group(a, tag) + Group(b, tag)
  {
    if a == [] {
      assert a + b == b;
    } else {
      var head := if a[0].mealType == tag then [a[0]] else [];
      calc {
        Group(a + b, tag);
      == { assert (a + b)[0] == a[0]; assert (a + b)[1..] == a[1..] + b; }
        head + Group(a[1..] + b, tag);
      == { GroupAppend(a[1..], b, tag); }
        head + (Group(a[1..], tag) + Group(b, tag));
      ==
        (head + Group(a[1..], tag)) + Group(b, tag);
      }
    }
  }

  /** A list of recipes all carrying the tag is its own group, order included. */
  lemma {:induction false} GroupOfOneType(recipes: seq<Recipe>, tag: string)
    requires forall i :: 0 <= i < |recipes| ==> recipes[i].mealType == tag
    ensures Group(recipes, tag) == recipes
  {
    if recipes != [] {
      GroupOfOneType(recipes[1..], tag);
    }
  }

  /** No recipe lands in two groups. */
  lemma {:induction false} GroupsAreDisjoint(recipes: seq<Recipe>, r: Recipe, m1: MealType, m2: MealType)
    requires r in GroupRecipes(recipes).Get(m1) && r in GroupRecipes(recipes).Get(m2)
    ensures m1 == m2
  {
    var groups := GroupRecipes(recipes);
    assert r.mealType == Name(m1) && r.mealType == Name(m2);
    assert Name(m1)[0] == Name(m2)[0];
  }

  /** A recipe tagged with none of the four slot names lands in no group. */
  lemma {:induction false} UntypedRecipeIgnored(recipes: seq<Recipe>, r: Recipe, m: MealType)
    requires forall m' :: r.mealType != Name(m')
    ensures r !in GroupRecipes(recipes).Get(m)
  {
  }

  // ---------------------------------------------------------------------
  // The day loop

  /** What a plan of the given length promises: one entry per requested day,
      numbered from 1, each carrying the daily target and the totals of its
      own meals, and every slot following its rotation rule. */
  ghost predicate IsPlanFor(plan: seq<DayPlan>, groups: PerMeal<seq<Recipe>>, targetCalories: int,
                            mealTargets: PerMeal<int>, days: int) {
    && |plan| == (if days > 0 then days else 0)
    && (forall d :: 0 <= d < |plan| ==> plan[d].day == d + 1 && plan[d].targetCalories == targetCalories)
    && (forall d, n :: 0 <= d < |plan| ==> plan[d].totals.Get(n) == DayTotal(plan[d].meals, n))
    && (forall m :: FollowsRotation(groups.Get(m), mealTargets.Get(m), plan, m))
  }

  /** One day's pass over the slots, in order: a slot whose group is
      non-empty gets the recipe SelectMeal picks and that slot's used-list
      is replaced by SelectMeal's; the other slots stay empty and keep theirs. */
  method PlanDay(groups: PerMeal<seq<Recipe>>, mealTargets: PerMeal<int>, used: PerMeal<seq<RecipeId>>)
    returns (meals: map<MealType, Recipe>, nextUsed: PerMeal<seq<RecipeId>>)
    ensures forall m :: StepTaken(groups.Get(m), mealTargets.Get(m), used.Get(m), nextUsed.Get(m), meals, m)
  {
    meals := map[];
    nextUsed := used;
    for k := 0 to |AllMealTypes|
      invariant forall m :: Index(m) < k ==>
        StepTaken(groups.Get(m), mealTargets.Get(m), used.Get(m), nextUsed.Get(m), meals, m)
      invariant forall m :: Index(m) >= k ==> m !in meals && nextUsed.Get(m) == used.Get(m)
    {
      var mealType := AllMealTypes[k];
      ghost var before := meals;
      var group := groups.Get(mealType);
      if |group| > 0 {
        var selected, newUsed := SelectMeal(group, mealTargets.Get(mealType), nextUsed.Get(mealType));
        if selected.Some? {
          meals := meals[mealType := selected.value];
          nextUsed := nextUsed.Set(mealType, newUsed);
        }
      }
      forall m | Index(m) < k
        ensures StepTaken(groups.Get(m), mealTargets.Get(m), used.Get(m), nextUsed.Get(m), meals, m)
      {
        StepTakenFrame(groups.Get(m), mealTargets.Get(m), used.Get(m), nextUsed.Get(m), before, meals, m);
      }
    }
  }

  /** A slot's step is unaffected by filling other slots. */
  lemma {:induction false} StepTakenFrame(group: seq<Recipe>, target: int, used: seq<RecipeId>, newUsed: seq<RecipeId>,
                                          meals: map<MealType, Recipe>, meals': map<MealType, Recipe>, m: MealType)
    requires StepTaken(group, target, used, newUsed, meals, m)
    requires (m in meals <==> m in meals') && (m in meals ==> meals'[m] == meals[m])
    ensures StepTaken(group, target, used, newUsed, meals', m)
  {
  }

  /** The day loop: plan each day, compute its totals and append it. A
      non-positive day count gives an empty plan. */
  method PlanDays(groups: PerMeal<seq<Recipe>>, targetCalories: int, mealTargets: PerMeal<int>, days: int)
    returns (plan: seq<DayPlan>)
    ensures IsPlanFor(plan, groups, targetCalories, mealTargets, days)
  {
    plan := [];
    var used: PerMeal<seq<RecipeId>> := PerMeal([], [], [], []);
    var day := 0;
    while day < days
      invariant 0 <= day <= (if days > 0 then days else 0)
      invariant |plan| == day
      invariant forall d :: 0 <= d < day ==> plan[d].day == d + 1 && plan[d].targetCalories == targetCalories
      invariant forall d, n :: 0 <= d < day ==> plan[d].totals.Get(n) == DayTotal(plan[d].meals, n)
      invariant forall m :: RotationState(groups.Get(m), mealTargets.Get(m), plan, m, used.Get(m))
    {
      var meals, nextUsed := PlanDay(groups, mealTargets, used);
      var totals := CalculateDayTotals(meals);
      var entry := DayPlan(day + 1, meals, targetCalories, totals);
      forall m ensures RotationState(groups.Get(m), mealTargets.Get(m), plan + [entry], m, nextUsed.Get(m)) {
        AdvanceDay(groups.Get(m), mealTargets.Get(m), plan, m, used.Get(m), nextUsed.Get(m), entry);
      }
      plan := plan + [entry];
      used := nextUsed;
      day := day + 1;
    }
  }

  /** Every planned meal is one of the recipes, tagged for the slot it fills. */
  lemma {:induction false} PlannedMealsComeFromRecipes(recipes: seq<Recipe>, plan: seq<DayPlan>,
                                                       mealTargets: PerMeal<int>, d: nat, m: MealType)
    requires FollowsRotation(GroupRecipes(recipes).Get(m), mealTargets.Get(m), plan, m)
    requires d < |plan| && m in plan[d].meals
    ensures plan[d].meals[m] in recipes && plan[d].meals[m].mealType == Name(m)
  {
    assert plan[d].meals[m] in GroupRecipes(recipes).Get(m);
  }

  // ---------------------------------------------------------------------
  // Averages

  /** Sum of one nutrient's day totals, folded from the first day. */
  function SumOfDays(plan: seq<DayPlan>, n: Nutrient): (sum: int)
    ensures plan == [] ==> sum == 0
    ensures |plan| == 1 ==> sum == plan[0].totals.Get(n)
  {
    if plan == [] then 0 else SumOfDays(plan[..|plan| - 1], n) + plan[|plan| - 1].totals.Get(n)
  }

  /** The fold over a plan splits at any point: the sum does not depend on
      how the days are grouped. */
  lemma {:induction false} SumOfDaysConcat(a: seq<DayPlan>, b: seq<DayPlan>, n: Nutrient)
    ensures SumOfDays(a + b, n) == SumOfDays(a, n) + SumOfDays(b, n)
    decreases |b|
  {
    if b == [] {
      assert a + b == a;
    } else {
      var init := b[..|b| - 1];
      var ab := a + b;
      assert ab[..|ab| - 1] == a + init;
      assert ab[|ab| - 1] == b[|b| - 1];
      SumOfDaysConcat(a, init, n);
    }
  }

  /** Math.round(total / days): no number when days is 0 (the division
      gives NaN), otherwise the quotient rounded half upward. */
  function MeanRounded(total: int, days: int): (r: Option<int>)
    ensures r.None? <==> days == 0
    ensures days > 0 ==> r.Some? && IsRoundedQuotient(total, days, r.value)
    ensures days < 0 ==> r.Some? && IsRoundedQuotient(-total, -days, r.value)
  {
    if days == 0 then None
    else if days > 0 then Some(RoundRatio(total, days))
    else Some(RoundRatio(-total, -days))
  }

  /** The summary's average daily totals; a field is None where the source yields NaN. */
  datatype Averages = Averages(avgCalories: Option<int>, avgProtein: Option<int>, avgCarbs: Option<int>, avgFats: Option<int>) {
    function Get(n: Nutrient): Option<int> {
      match n
      case Calories => avgCalories
      case Protein => avgProtein
      case Carbs => avgCarbs
      case Fats => avgFats
    }
  }

  /** Each average is the sum of that nutrient's day totals over the
      requested day count, rounded. */
  function AverageDailyTotals(plan: seq<DayPlan>, days: int): (a: Averages)
    ensures forall n :: a.Get(n).None? <==> days == 0
    ensures forall n :: days > 0 ==> a.Get(n).Some? && IsRoundedQuotient(SumOfDays(plan, n), days, a.Get(n).value)
    ensures forall n :: days < 0 ==> a.Get(n).Some? && IsRoundedQuotient(-SumOfDays(plan, n), -days, a.Get(n).value)
  {
    Averages(
      MeanRounded(SumOfDays(plan, Calories), days),
      MeanRounded(SumOfDays(plan, Protein), days),
      MeanRounded(SumOfDays(plan, Carbs), days),
      MeanRounded(SumOfDays(plan, Fats), days))
  }

  /** If every day has the same total t, the sum over the days is t per day. */
  lemma {:induction false} SumOfUniformDays(plan: seq<DayPlan>, n: Nutrient, t: int)
    requires forall d :: 0 <= d < |plan| ==> plan[d].totals.Get(n) == t
    ensures SumOfDays(plan, n) == |plan| * t
  {
    if plan != [] {
      var init := plan[..|plan| - 1];
      assert forall d :: 0 <= d < |init| ==> init[d] == plan[d];
      SumOfUniformDays(init, n, t);
      assert |plan| * t == |init| * t + t;
    }
  }

  /** A plan whose days all total t averages exactly t. */
  lemma {:induction false} UniformPlanAverage(plan: seq<DayPlan>, n: Nutrient, t: int)
    requires |plan| > 0
    requires forall d :: 0 <= d < |plan| ==> plan[d].totals.Get(n) == t
    ensures AverageDailyTotals(plan, |plan|).Get(n) == Some(t)
  {
    var k := |plan|;
    SumOfUniformDays(plan, n, t);
    assert SumOfDays(plan, n) == t * k;
    RoundRatioExact(t, k);
    assert AverageDailyTotals(plan, k).Get(n) == MeanRounded(SumOfDays(plan, n), k);
  }

  /** No days requested: an empty plan whose averages are NaN (None) for a
      count of 0 and 0 for a negative count. */
  lemma {:induction false} NoDaysAverage(days: int, n: Nutrient)
    requires days <= 0
    ensures days == 0 ==> AverageDailyTotals([], days).Get(n) == None
    ensures days < 0 ==> AverageDailyTotals([], days).Get(n) == Some(0)
  {
    if days < 0 {
      RoundedQuotientUnique(0, -days, AverageDailyTotals([], days).Get(n).value, 0);
    }
  }

  // ---------------------------------------------------------------------
  // The request handler

  /** The query passed to the recipe store; an absent field does not filter. */
  datatype RecipeFilter = RecipeFilter(dietType: Option<string>, goal: Option<string>)

  /** A request string that JavaScript treats as true: present and non-empty. */
  predicate Truthy(s: Option<string>) {
    s.Some? && s.value != ""
  }

  /** The filter sets a field exactly when the request's value is truthy, and then to that value. */
  function BuildFilter(dietType: Option<string>, goal: Option<string>): (f: RecipeFilter)
    ensures f.dietType.Some? <==> Truthy(dietType)
    ensures f.goal.Some? <==> Truthy(goal)
    ensures f.dietType.Some? ==> f.dietType == dietType
    ensures f.goal.Some? ==> f.goal == goal
  {
    RecipeFilter(
      if Truthy(dietType) then dietType else None,
      if Truthy(goal) then goal else None)
  }

  /** The store's reading of a filter: every field that is set must match. */
  predicate MatchesFilter(r: Recipe, f: RecipeFilter) {
    && (f.dietType.Some? ==> r.dietType == f.dietType.value)
    && (f.goal.Some? ==> r.goal == f.goal)
  }

  /** An empty request filters nothing. */
  lemma EmptyRequestMatchesAll(r: Recipe)
    ensures MatchesFilter(r, BuildFilter(None, None))
    ensures MatchesFilter(r, BuildFilter(Some(""), Some("")))
  {
  }

  /** The body of a generate request; `days` is None when the field is absent. */
  datatype Request = Request(dietType: Option<string>, goal: Option<string>, days: Option<int>)

  /** Days planned when the request does not say. */
  const DefaultDays := 7

  /** The day count of the request, 7 when it gives none. */
  function RequestedDays(request: Request): (days: int)
    ensures request.days.None? ==> days == DefaultDays
    ensures request.days.Some? ==> days == request.days.value
  {
    request.days.GetOr(DefaultDays)
  }

  /** The two 404 answers. */
  datatype NotFound = NoTdeeRecord | NoMatchingRecipes {
    function Message(): string {
      match this
      case NoTdeeRecord => "TDEE data not found. Please calculate your TDEE first using the Buono Bot."
      case NoMatchingRecipes => "No recipes found matching your preferences. Please try different filters."
    }
  }

  datatype Summary = Summary(baseTDEE: int, targetCalories: int, goal: Option<string>,
                             dietType: Option<string>, days: int, averageDailyTotals: Averages)

  datatype GeneratedPlan = GeneratedPlan(mealPlan: seq<DayPlan>, summary: Summary)

  /** The generate handler. The user's stored TDEE (None when there is no
      record) and the recipe store's query are inputs: no record gives
      NoTdeeRecord, an empty query result gives NoMatchingRecipes, and
      otherwise the plan is built from the query's recipes, grouped by slot,
      with the goal-adjusted target and its per-slot split. */
  method Generate(request: Request, userTdee: Option<int>, findRecipes: RecipeFilter -> seq<Recipe>)
    returns (result: Result<GeneratedPlan, NotFound>)
    ensures userTdee.None? ==> result == Failure(NoTdeeRecord)
    ensures userTdee.Some? && |findRecipes(BuildFilter(request.dietType, request.goal))| == 0 ==>
      result == Failure(NoMatchingRecipes)
    ensures userTdee.Some? && |findRecipes(BuildFilter(request.dietType, request.goal))| > 0 ==>
      && result.Success?
      && var recipes := findRecipes(BuildFilter(request.dietType, request.goal));
         var target := CalculateTargetCalories(userTdee.value, request.goal);
         var days := RequestedDays(request);
         var plan := result.value.mealPlan;
         && IsPlanFor(plan, GroupRecipes(recipes), target, GetTargetCaloriesPerMeal(target), days)
         && result.value.summary == Summary(userTdee.value, target, request.goal, request.dietType, days,
                                            AverageDailyTotals(plan, days))
  {
    if userTdee.None? {
      return Failure(NoTdeeRecord);
    }
    var days := RequestedDays(request);
    var targetCalories := CalculateTargetCalories(userTdee.value, request.goal);
    var mealTargets := GetTargetCaloriesPerMeal(targetCalories);
    var filter := BuildFilter(request.dietType, request.goal);
    var recipes := findRecipes(filter);
    if |recipes| == 0 {
      return Failure(NoMatchingRecipes);
    }
    var groups := GroupRecipes(recipes);
    var plan := PlanDays(groups, targetCalories, mealTargets, days);
    var averages := AverageDailyTotals(plan, days);
    var summary := Summary(userTdee.value, targetCalories, request.goal, request.dietType, days, averages);
    return Success(GeneratedPlan(plan, summary));
  }

  /** When the store honours the filter, every planned meal matches the
      request's diet type and goal. */
  lemma {:induction false} PlannedMealsMatchRequest(request: Request, recipes: seq<Recipe>, plan: seq<DayPlan>, targetCalories: int,
                                 mealTargets: PerMeal<int>, days: int, d: nat, m: MealType)
    requires forall r :: r in recipes ==> MatchesFilter(r, BuildFilter(request.dietType, request.goal))
    requires IsPlanFor(plan, GroupRecipes(recipes), targetCalories, mealTargets, days)
    requires d < |plan| && m in plan[d].meals
    ensures Truthy(request.dietType) ==> plan[d].meals[m].dietType == request.dietType.value
    ensures Truthy(request.goal) ==> plan[d].meals[m].goal == request.goal
  {
    assert FollowsRotation(GroupRecipes(recipes).Get(m), mealTargets.Get(m), plan, m);
    PlannedMealsComeFromRecipes(recipes, plan, mealTargets, d, m);
  }

  /** A 2200 kcal TDEE with the weight-loss goal plans 1700 kcal a day, split
      510 / 595 / 510 / 85. */
  lemma WeightLossDayOf2200()
    ensures CalculateTargetCalories(2200, Some(WeightLoss)) == 1700
    ensures GetTargetCaloriesPerMeal(1700) == PerMeal(510, 595, 510, 85)
  {
    var t := GetTargetCaloriesPerMeal(1700);
    assert IsRoundedQuotient(1700 * MealShare(Breakfast), 100, t.Get(Breakfast));
    assert IsRoundedQuotient(1700 * MealShare(Lunch), 100, t.Get(Lunch));
    assert IsRoundedQuotient(1700 * MealShare(Dinner), 100, t.Get(Dinner));
    assert IsRoundedQuotient(1700 * MealShare(Snack), 100, t.Get(Snack));
  }
}
