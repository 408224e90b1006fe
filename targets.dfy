/** Daily calorie target from TDEE and goal, and its split over the meal slots. */
module Targets {
  import opened Wrappers
  import opened Domain
  import opened Rounding

  const WeightLoss := "weight-loss"
  const MuscleGain := "muscle-gain"

  /** Daily deficit for the weight-loss goal (about one pound a week). */
  const WeightLossDeficit := 500
  /** Daily surplus for the muscle-gain goal. */
  const MuscleGainSurplus := 300

  /** The daily target: TDEE shifted by the goal's offset; any other goal,
      including an absent one, keeps TDEE (maintenance). TDEE is an integer,
      so rounding the shifted value changes nothing. */
  function CalculateTargetCalories(tdee: int, goal: Option<string>): (target: int)
    ensures goal == Some(WeightLoss) ==> target == tdee - WeightLossDeficit
    ensures goal == Some(MuscleGain) ==> target == tdee + MuscleGainSurplus
    ensures goal != Some(WeightLoss) && goal != Some(MuscleGain) ==> target == tdee
  {
    if goal == Some(WeightLoss) then tdee - WeightLossDeficit
    else if goal == Some(MuscleGain) then tdee + MuscleGainSurplus
    else tdee
  }

  /** For one TDEE, weight loss aims lowest and muscle gain highest. */
  lemma GoalOrdering(tdee: int, other: Option<string>)
    requires other != Some(WeightLoss) && other != Some(MuscleGain)
    ensures CalculateTargetCalories(tdee, Some(WeightLoss)) < CalculateTargetCalories(tdee, other)
    ensures CalculateTargetCalories(tdee, other) < CalculateTargetCalories(tdee, Some(MuscleGain))
  {
  }

  /** Percentage of the daily target given to each slot. */
  function MealShare(m: MealType): nat {
    match m
    case Breakfast => 30
    case Lunch => 35
    case Dinner => 30
    case Snack => 5
  }

  /** Per-slot targets: each slot's share of the daily target, rounded on its
      own; the rounding error is not redistributed. */
  function GetTargetCaloriesPerMeal(targetCalories: int): (targets: PerMeal<int>)
    ensures forall m :: IsRoundedQuotient(targetCalories * MealShare(m), 100, targets.Get(m))
  {
    PerMeal(
      RoundRatio(targetCalories * 30, 100),
      RoundRatio(targetCalories * 35, 100),
      RoundRatio(targetCalories * 30, 100),
      RoundRatio(targetCalories * 5, 100))
  }

  /** The four slot targets added up. */
  function SplitTotal(targets: PerMeal<int>): int {
    targets.breakfast + targets.lunch + targets.dinner + targets.snack
  }

  /** A 2000 kcal day splits into 600, 700, 600 and 100. */
  lemma SplitOf2000()
    ensures GetTargetCaloriesPerMeal(2000) == PerMeal(600, 700, 600, 100)
  {
    var t := GetTargetCaloriesPerMeal(2000);
    assert IsRoundedQuotient(2000 * MealShare(Lunch), 100, t.Get(Lunch));
    assert IsRoundedQuotient(2000 * MealShare(Breakfast), 100, t.Get(Breakfast));
    assert IsRoundedQuotient(2000 * MealShare(Dinner), 100, t.Get(Dinner));
    assert IsRoundedQuotient(2000 * MealShare(Snack), 100, t.Get(Snack));
  }

  /** Independent rounding keeps the slot total within [target - 1, target + 2]. */
  lemma SplitStaysNearTarget(targetCalories: int)
    ensures var s := SplitTotal(GetTargetCaloriesPerMeal(targetCalories));
      targetCalories - 1 <= s <= targetCalories + 2
  {
    var t := GetTargetCaloriesPerMeal(targetCalories);
    assert IsRoundedQuotient(targetCalories * MealShare(Breakfast), 100, t.Get(Breakfast));
    assert IsRoundedQuotient(targetCalories * MealShare(Lunch), 100, t.Get(Lunch));
    assert IsRoundedQuotient(targetCalories * MealShare(Dinner), 100, t.Get(Dinner));
    assert IsRoundedQuotient(targetCalories * MealShare(Snack), 100, t.Get(Snack));
  }

  /** The slot total need not equal the target: 2002 splits into 601, 701, 601, 100. */
  lemma SplitCanDrift()
    ensures GetTargetCaloriesPerMeal(2002) == PerMeal(601, 701, 601, 100)
    ensures SplitTotal(GetTargetCaloriesPerMeal(2002)) == 2003
  {
    var t := GetTargetCaloriesPerMeal(2002);
    assert IsRoundedQuotient(2002 * MealShare(Breakfast), 100, t.Get(Breakfast));
    assert IsRoundedQuotient(2002 * MealShare(Lunch), 100, t.Get(Lunch));
    assert IsRoundedQuotient(2002 * MealShare(Dinner), 100, t.Get(Dinner));
    assert IsRoundedQuotient(2002 * MealShare(Snack), 100, t.Get(Snack));
  }
}
