/** Per-day nutrient totals over the filled meal slots. */
module Nutrition {
  import opened Domain

  /** What slot m contributes: nothing when it is empty. */
  function SlotAmount(meals: map<MealType, Recipe>, m: MealType, n: Nutrient): int {
    if m in meals then Amount(meals[m], n) else 0
  }

  /** Running total over the slots ms, taken in order. */
  function SlotSum(meals: map<MealType, Recipe>, ms: seq<MealType>, n: Nutrient): int {
    if ms == [] then 0
    else SlotSum(meals, ms[..|ms| - 1], n) + SlotAmount(meals, ms[|ms| - 1], n)
  }

  /** The day's total of nutrient n over all slots. */
  function DayTotal(meals: map<MealType, Recipe>, n: Nutrient): int {
    SlotSum(meals, AllMealTypes, n)
  }

  /** calculateDayTotals: walks the slots, adding what each filled slot
      brings to four running totals. The totals are integers, so the final
      rounding leaves them as they are. */
  method CalculateDayTotals(meals: map<MealType, Recipe>) returns (totals: Totals)
    ensures forall n :: totals.Get(n) == DayTotal(meals, n)
  {
    var totalCalories, totalProtein, totalCarbs, totalFats := 0, 0, 0, 0;
    for i := 0 to |AllMealTypes|
      invariant totalCalories == SlotSum(meals, AllMealTypes[..i], Calories)
      invariant totalProtein == SlotSum(meals, AllMealTypes[..i], Protein)
      invariant totalCarbs == SlotSum(meals, AllMealTypes[..i], Carbs)
      invariant totalFats == SlotSum(meals, AllMealTypes[..i], Fats)
    {
      assert AllMealTypes[..i + 1][..i] == AllMealTypes[..i];
      var mealType := AllMealTypes[i];
      if mealType in meals {
        var meal := meals[mealType];
        totalCalories := totalCalories + meal.calories;
        totalProtein := totalProtein + meal.protein.GetOr(0);
        totalCarbs := totalCarbs + meal.carbs.GetOr(0);
        totalFats := totalFats + meal.fats.GetOr(0);
      }
    }
    assert AllMealTypes[..|AllMealTypes|] == AllMealTypes;
    totals := Totals(totalCalories, totalProtein, totalCarbs, totalFats);
  }

  /** A day with no meals totals zero. */
  lemma {:induction false} EmptySlotSum(ms: seq<MealType>, n: Nutrient)
    ensures SlotSum(map[], ms, n) == 0
  {
    if ms != [] {
      EmptySlotSum(ms[..|ms| - 1], n);
    }
  }

  /** Filling one more slot, listed once in ms, adds exactly that recipe's amount. */
  lemma {:induction false} SlotSumFill(meals: map<MealType, Recipe>, ms: seq<MealType>, m: MealType, r: Recipe, n: Nutrient)
    requires m !in meals
    requires forall i, j :: 0 <= i < j < |ms| ==> ms[i] != ms[j]
    ensures SlotSum(meals[m := r], ms, n) == SlotSum(meals, ms, n) + (if m in ms then Amount(r, n) else 0)
  {
    if ms != [] {
      var init := ms[..|ms| - 1];
      SlotSumFill(meals, init, m, r, n);
      assert ms == init + [ms[|ms| - 1]];
      if ms[|ms| - 1] == m {
        assert m !in init;
      }
    }
  }

  /** A day with no meals has all totals zero. */
  lemma DayTotalOfNoMeals(n: Nutrient)
    ensures DayTotal(map[], n) == 0
  {
    EmptySlotSum(AllMealTypes, n);
  }

  /** Filling an empty slot adds the recipe's amount to the day total, an
      absent macro field adding 0: the day total is the sum over the filled slots. */
  lemma {:induction false} DayTotalAddMeal(meals: map<MealType, Recipe>, m: MealType, r: Recipe, n: Nutrient)
    requires m !in meals
    ensures DayTotal(meals[m := r], n) == DayTotal(meals, n) + Amount(r, n)
  {
    SlotSumFill(meals, AllMealTypes, m, r, n);
    assert AllMealTypes[Index(m)] == m;
  }
}
