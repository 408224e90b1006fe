/** The entities the planner reads and builds: recipes, meal slots, day plans. */
module Domain {
  import opened Wrappers

  /** The four meal slots of a day. */
  datatype MealType = Breakfast | Lunch | Dinner | Snack

  /** The order in which the planner visits the slots of a day. */
  const AllMealTypes: seq<MealType> := [Breakfast, Lunch, Dinner, Snack]

  /** Position of a slot in AllMealTypes. */
  function Index(m: MealType): (i: nat)
    ensures i < |AllMealTypes| && AllMealTypes[i] == m
  {
    match m
    case Breakfast => 0
    case Lunch => 1
    case Dinner => 2
    case Snack => 3
  }

  /** The `mealType` string a recipe carries for each slot. */
  function Name(m: MealType): string {
    match m
    case Breakfast => "breakfast"
    case Lunch => "lunch"
    case Dinner => "dinner"
    case Snack => "snack"
  }

  /** A record with one field per slot, like the planner's
      `{ breakfast, lunch, dinner, snack }` objects. */
  datatype PerMeal<T> = PerMeal(breakfast: T, lunch: T, dinner: T, snack: T) {

    function Get(m: MealType): T {
      match m
      case Breakfast => breakfast
      case Lunch => lunch
      case Dinner => dinner
      case Snack => snack
    }

    /** Replaces the field of one slot and keeps the others. */
    function Set(m: MealType, v: T): (r: PerMeal<T>)
      ensures r.Get(m) == v
      ensures forall m' :: m' != m ==> r.Get(m') == Get(m')
    {
      match m
      case Breakfast => this.(breakfast := v)
      case Lunch => this.(lunch := v)
      case Dinner => this.(dinner := v)
      case Snack => this.(snack := v)
    }
  }

  /** A stored recipe's identifier; only compared for equality. */
  type RecipeId = nat

  /** A stored recipe. The free-text fields are kept as the strings the store
      holds; `protein`, `carbs` and `fats` may be absent. */
  datatype Recipe = Recipe(
    id: RecipeId,
    mealType: string,
    dietType: string,
    goal: Option<string>,
    calories: int,
    protein: Option<int>,
    carbs: Option<int>,
    fats: Option<int>)

  datatype Nutrient = Calories | Protein | Carbs | Fats

  /** What a recipe contributes to a day total: an absent field counts as 0. */
  function Amount(r: Recipe, n: Nutrient): (a: int)
    ensures n == Calories ==> a == r.calories
    ensures n == Protein ==> a == (if r.protein.Some? then r.protein.value else 0)
    ensures n == Carbs ==> a == (if r.carbs.Some? then r.carbs.value else 0)
    ensures n == Fats ==> a == (if r.fats.Some? then r.fats.value else 0)
  {
    match n
    case Calories => r.calories
    case Protein => r.protein.GetOr(0)
    case Carbs => r.carbs.GetOr(0)
    case Fats => r.fats.GetOr(0)
  }

  /** The four totals of one day. */
  datatype Totals = Totals(totalCalories: int, totalProtein: int, totalCarbs: int, totalFats: int) {
    function Get(n: Nutrient): int {
      match n
      case Calories => totalCalories
      case Protein => totalProtein
      case Carbs => totalCarbs
      case Fats => totalFats
    }
  }

  /** One day of a generated plan: its 1-based number, the recipe chosen for
      each filled slot, the day's calorie target and its totals. */
  datatype DayPlan = DayPlan(day: int, meals: map<MealType, Recipe>, targetCalories: int, totals: Totals)
}
