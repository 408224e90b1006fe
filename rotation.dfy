/** The per-slot rotation window: the list of recipe ids already served for
    a slot since the window last reset, used to avoid repeats when a slot
    has enough recipes. */
module Rotation {
  import opened Wrappers
  import opened Domain
  import opened Matching
  import Rounding

  /** Groups with more recipes than this skip recipes already used in the window. */
  const RotationThreshold := 3

  /** The group's recipes whose id is not in the used-list, in group order. */
  function Unused(group: seq<Recipe>, used: seq<RecipeId>): (r: seq<Recipe>)
    ensures forall x :: x in r <==> x in group && x.id !in used
    ensures used == [] ==> r == group
  {
    if group == [] then []
    else
      assert group == [group[0]] + group[1..];
      (if group[0].id in used then [] else [group[0]]) + Unused(group[1..], used)
  }

  /** Filtering keeps the group's order: filtering a concatenation
      concatenates the filtered parts. */
  lemma {:induction false} UnusedAppend(a: seq<Recipe>, b: seq<Recipe>, used: seq<RecipeId>)
    ensures Unused(a + b, used) == Unused(a, used) + Unused(b, used)
    decreases |a|
  {
    if a == [] {
      assert a + b == b;
    } else {
      var head := if a[0].id in used then [] else [a[0]];
      calc {
        Unused(a + b, used);
      == { assert (a + b)[0] == a[0]; assert (a + b)[1..] == a[1..] + b; }
        head + Unused(a[1..] + b, used);
      == { UnusedAppend(a[1..], b, used); }
        head + (Unused(a[1..], used) + Unused(b, used));
      ==
        (head + Unused(a[1..], used)) + Unused(b, used);
      }
    }
  }

  /** Rule for one slot on one day, given the used-list before the step:
      the chosen recipe comes from the group; for a small group it is the
      group's best match and its id is appended; for a larger group it is
      the best match among the recipes not yet used in the window, or, when
      every id of the group has been used, the window restarts with the best
      match of the whole group as its only entry. */
  ghost predicate SelectionRule(group: seq<Recipe>, target: int, used: seq<RecipeId>, chosen: Recipe, newUsed: seq<RecipeId>) {
    && chosen in group
    && (|group| <= RotationThreshold ==>
          IsBestMatch(group, target, chosen) && newUsed == used + [chosen.id])
    && (|group| > RotationThreshold && (exists x :: x in group && x.id !in used) ==>
          chosen.id !in used && IsBestMatch(Unused(group, used), target, chosen) && newUsed == used + [chosen.id])
    && (|group| > RotationThreshold && (forall x :: x in group ==> x.id in used) ==>
          IsBestMatch(group, target, chosen) && newUsed == [chosen.id])
  }

  /** One slot of one day: filter out used recipes when the group is large
      enough, reset the window when the filter leaves nothing, pick the best
      calorie match and record its id. */
  method SelectMeal(group: seq<Recipe>, target: int, used: seq<RecipeId>) returns (selected: Option<Recipe>, newUsed: seq<RecipeId>)
    ensures selected.None? <==> |group| == 0
    ensures selected.None? ==> newUsed == used
    ensures selected.Some? ==> SelectionRule(group, target, used, selected.value, newUsed)
  {
    var available := group;
    newUsed := used;
    if |available| > RotationThreshold {
      available := Unused(group, used);
      if |available| == 0 {
        available := group;
        newUsed := [];
      }
    }
    selected := FindBestRecipeMatch(available, target, DefaultTolerance);
    if selected.Some? {
      MatchIsCandidate(available, target, DefaultTolerance);
      newUsed := newUsed + [selected.value.id];
    }
  }

  /** The distinct ids of a group. */
  ghost function IdSet(group: seq<Recipe>): set<RecipeId> {
    if group == [] then {} else {group[0].id} + IdSet(group[1..])
  }

  /** The id of every recipe of the group is in IdSet. */
  lemma {:induction false} IdSetHas(group: seq<Recipe>, x: Recipe)
    requires x in group
    ensures x.id in IdSet(group)
  {
    if x != group[0] {
      IdSetHas(group[1..], x);
    }
  }

  /** Every id in IdSet belongs to a recipe of the group. */
  lemma {:induction false} IdSetWitness(group: seq<Recipe>, id: RecipeId) returns (x: Recipe)
    requires id in IdSet(group)
    ensures x in group && x.id == id
  {
    if group[0].id == id {
      x := group[0];
    } else {
      x := IdSetWitness(group[1..], id);
    }
  }

  /** Days in a full rotation window: the number of distinct ids in the group. */
  ghost function WindowLength(group: seq<Recipe>): (k: nat)
    ensures |group| > 0 ==> k > 0
  {
    if group != [] then
      assert group[0].id in IdSet(group);
      |IdSet(group)|
    else |IdSet(group)|
  }

  /** First day (0-based) of the window that day d falls in, for windows of
      k days starting at day 0: the largest multiple of k not above d. */
  ghost function WindowStart(d: nat, k: nat): (s: nat)
    requires k > 0
    ensures s <= d < s + k
    decreases d
  {
    if d < k then 0 else k + WindowStart(d - k, k)
  }

  lemma {:induction false} WindowStartIdempotent(d: nat, k: nat)
    requires k > 0
    ensures WindowStart(WindowStart(d, k), k) == WindowStart(d, k)
    decreases d
  {
    if d >= k {
      WindowStartIdempotent(d - k, k);
    }
  }

  /** Every day from a window's first day up to k - 1 later shares that window. */
  lemma {:induction false} WindowStartWithin(s: nat, d: nat, k: nat)
    requires k > 0 && WindowStart(s, k) == s && s <= d < s + k
    ensures WindowStart(d, k) == s
    decreases s
  {
    if s >= k {
      WindowStartWithin(s - k, d - k, k);
    }
  }

  /** The window that day d falls in is the one starting at (d / k) * k. */
  lemma {:induction false} WindowStartIsMultiple(d: nat, k: nat)
    requires k > 0
    ensures WindowStart(d, k) == (d / k) * k
    decreases d
  {
    if d >= k {
      WindowStartIsMultiple(d - k, k);
      var q, r := (d - k) / k, (d - k) % k;
      assert WindowStart(d, k) == k + q * k;
      assert (q + 1) * k == q * k + k;
      assert d - k == q * k + r && 0 <= r < k;
      DivisionUnique(d, k, q + 1, r);
    } else {
      DivisionUnique(d, k, 0, d);
    }
  }

  lemma {:induction false} DivisionUnique(d: nat, k: nat, q: int, r: int)
    requires k > 0 && d == q * k + r && 0 <= r < k
    ensures d / k == q
  {
    var q', r' := d / k, d % k;
    assert d == q' * k + r' && 0 <= r' < k;
    if q' < q {
      assert q' * k + k <= q * k by { Rounding.MulMonotone(k, q' + 1, q); }
    } else if q < q' {
      assert q * k + k <= q' * k by { Rounding.MulMonotone(k, q + 1, q'); }
    }
  }

  /** Ids chosen for slot m on the days lo..hi-1 of a plan, in day order. */
  ghost function WindowIds(plan: seq<DayPlan>, m: MealType, lo: nat, hi: nat): seq<RecipeId>
    requires lo <= hi <= |plan|
    decreases hi - lo
  {
    if lo == hi then []
    else WindowIds(plan, m, lo, hi - 1) + (if m in plan[hi - 1].meals then [plan[hi - 1].meals[m].id] else [])
  }

  lemma {:induction false} WindowIdsOfPrefix(plan: seq<DayPlan>, entry: DayPlan, m: MealType, lo: nat, hi: nat)
    requires lo <= hi <= |plan|
    ensures WindowIds(plan + [entry], m, lo, hi) == WindowIds(plan, m, lo, hi)
    decreases hi - lo
  {
    if lo < hi {
      WindowIdsOfPrefix(plan, entry, m, lo, hi - 1);
      assert (plan + [entry])[hi - 1] == plan[hi - 1];
    }
  }

  lemma {:induction false} WindowIdsHas(plan: seq<DayPlan>, m: MealType, lo: nat, hi: nat, d: nat)
    requires lo <= d < hi <= |plan| && m in plan[d].meals
    ensures plan[d].meals[m].id in WindowIds(plan, m, lo, hi)
    decreases hi - lo
  {
    var prefix := WindowIds(plan, m, lo, hi - 1);
    var last := if m in plan[hi - 1].meals then [plan[hi - 1].meals[m].id] else [];
    assert WindowIds(plan, m, lo, hi) == prefix + last;
    if d < hi - 1 {
      WindowIdsHas(plan, m, lo, hi - 1, d);
      assert plan[d].meals[m].id in prefix;
    } else {
      assert last == [plan[d].meals[m].id];
    }
  }

  lemma {:induction false} WindowIdsLength(plan: seq<DayPlan>, m: MealType, lo: nat, hi: nat)
    requires lo <= hi <= |plan|
    requires forall d :: lo <= d < hi ==> m in plan[d].meals
    ensures |WindowIds(plan, m, lo, hi)| == hi - lo
    decreases hi - lo
  {
    if lo < hi {
      WindowIdsLength(plan, m, lo, hi - 1);
    }
  }

  /** Day d of the plan served slot m the best match among the group's
      recipes not served earlier in d's window, and so none served earlier
      in that window. */
  ghost predicate ChosenInWindow(group: seq<Recipe>, target: int, plan: seq<DayPlan>, m: MealType, d: nat)
    requires |group| > 0 && d < |plan|
  {
    var earlier := WindowIds(plan, m, WindowStart(d, WindowLength(group)), d);
    && m in plan[d].meals
    && plan[d].meals[m].id !in earlier
    && IsBestMatch(Unused(group, earlier), target, plan[d].meals[m])
  }

  /** What the plan shows of slot m: it is filled on every day exactly when
      its group is non-empty, always from the group; a group of at most
      RotationThreshold recipes gives its best match every day; a larger one
      follows the rotation window day by day. */
  ghost predicate FollowsRotation(group: seq<Recipe>, target: int, plan: seq<DayPlan>, m: MealType) {
    && (forall d :: 0 <= d < |plan| ==> (m in plan[d].meals <==> |group| > 0))
    && (forall d :: 0 <= d < |plan| && m in plan[d].meals ==> plan[d].meals[m] in group)
    && (0 < |group| <= RotationThreshold ==>
          forall d :: 0 <= d < |plan| && m in plan[d].meals ==> IsBestMatch(group, target, plan[d].meals[m]))
    && (|group| > RotationThreshold ==>
          forall d :: 0 <= d < |plan| ==> ChosenInWindow(group, target, plan, m, d))
  }

  ghost predicate NoDup(s: seq<RecipeId>) {
    forall i, j :: 0 <= i < j < |s| ==> s[i] != s[j]
  }

  ghost function Elems(s: seq<RecipeId>): set<RecipeId> {
    set x | x in s
  }

  /** The used-list of a large group holds the ids served in the current window. */
  ghost predicate UsedIsWindow(group: seq<Recipe>, plan: seq<DayPlan>, m: MealType, used: seq<RecipeId>)
    requires |group| > 0
  {
    && used == (if |plan| == 0 then [] else WindowIds(plan, m, WindowStart(|plan| - 1, WindowLength(group)), |plan|))
    && NoDup(used)
    && Elems(used) <= IdSet(group)
  }

  /** The state kept for slot m after the days in plan. */
  ghost predicate RotationState(group: seq<Recipe>, target: int, plan: seq<DayPlan>, m: MealType, used: seq<RecipeId>) {
    && FollowsRotation(group, target, plan, m)
    && (|group| > RotationThreshold ==> UsedIsWindow(group, plan, m, used))
  }

  /** What one day's step did to slot m: an empty group leaves the slot empty
      and the used-list alone; otherwise the slot is filled by SelectionRule. */
  ghost predicate StepTaken(group: seq<Recipe>, target: int, used: seq<RecipeId>, newUsed: seq<RecipeId>,
                            meals: map<MealType, Recipe>, m: MealType) {
    if |group| == 0 then m !in meals && newUsed == used
    else m in meals && SelectionRule(group, target, used, meals[m], newUsed)
  }

  lemma {:induction false} ElemsOfNoDup(s: seq<RecipeId>)
    requires NoDup(s)
    ensures |Elems(s)| == |s|
  {
    if s != [] {
      var rest := s[1..];
      assert NoDup(rest) by {
        forall i, j | 0 <= i < j < |rest| ensures rest[i] != rest[j] {
          assert rest[i] == s[i + 1] && rest[j] == s[j + 1];
        }
      }
      ElemsOfNoDup(rest);
      assert s == [s[0]] + rest;
      assert Elems(s) == {s[0]} + Elems(rest);
      assert s[0] !in Elems(rest) by {
        forall j | 0 <= j < |rest| ensures rest[j] != s[0] {
          assert rest[j] == s[j + 1];
        }
      }
    }
  }

  lemma {:induction false} SubsetCard<T>(a: set<T>, b: set<T>)
    requires a <= b
    ensures |a| <= |b|
    ensures |a| == |b| ==> a == b
  {
    assert b == a + (b - a);
    assert a * (b - a) == {};
    if |a| == |b| {
      assert |b - a| == 0;
    }
  }

  /** While the window is shorter than the group's distinct ids, some recipe is still unused. */
  lemma {:induction false} SomeUnused(group: seq<Recipe>, used: seq<RecipeId>)
    requires NoDup(used) && |used| < |IdSet(group)|
    ensures exists x :: x in group && x.id !in used
  {
    ElemsOfNoDup(used);
    if IdSet(group) <= Elems(used) {
      SubsetCard(IdSet(group), Elems(used));
    } else {
      var id :| id in IdSet(group) && id !in Elems(used);
      var x := IdSetWitness(group, id);
    }
  }

  /** A window as long as the group's distinct ids has used every recipe. */
  lemma {:induction false} AllUsed(group: seq<Recipe>, used: seq<RecipeId>)
    requires NoDup(used) && |used| == |IdSet(group)|
    requires Elems(used) <= IdSet(group)
    ensures forall x :: x in group ==> x.id in used
  {
    ElemsOfNoDup(used);
    SubsetCard(Elems(used), IdSet(group));
    forall x | x in group ensures x.id in used {
      IdSetHas(group, x);
      assert x.id in Elems(used);
    }
  }

  /** Days already planned keep their window facts when a day is appended. */
  lemma {:induction false} EarlierDaysKept(group: seq<Recipe>, target: int, plan: seq<DayPlan>, m: MealType, entry: DayPlan)
    requires |group| > RotationThreshold
    requires forall d :: 0 <= d < |plan| ==> ChosenInWindow(group, target, plan, m, d)
    ensures forall d :: 0 <= d < |plan| ==> ChosenInWindow(group, target, plan + [entry], m, d)
  {
    var k := WindowLength(group);
    forall d | 0 <= d < |plan| ensures ChosenInWindow(group, target, plan + [entry], m, d) {
      WindowIdsOfPrefix(plan, entry, m, WindowStart(d, k), d);
      assert ChosenInWindow(group, target, plan, m, d);
      assert (plan + [entry])[d] == plan[d];
    }
  }

  /** The first day of a plan opens the first window. */
  lemma {:induction false} FirstDayStep(group: seq<Recipe>, target: int, m: MealType, newUsed: seq<RecipeId>, entry: DayPlan)
    requires |group| > RotationThreshold
    requires StepTaken(group, target, [], newUsed, entry.meals, m)
    ensures ChosenInWindow(group, target, [entry], m, 0)
    ensures UsedIsWindow(group, [entry], m, newUsed)
  {
    var k := WindowLength(group);
    assert group[0] in group && group[0].id !in [];
    assert WindowStart(0, k) == 0;
    assert WindowIds([entry], m, 0, 0) == [];
    assert WindowIds([entry], m, 0, 1) == [entry.meals[m].id];
    IdSetHas(group, entry.meals[m]);
  }

  /** Appending a fresh id keeps a used-list free of duplicates. */
  lemma {:induction false} NoDupAppend(used: seq<RecipeId>, id: RecipeId)
    requires NoDup(used) && id !in used
    ensures NoDup(used + [id])
    ensures Elems(used + [id]) == Elems(used) + {id}
  {
    var r := used + [id];
    forall i, j | 0 <= i < j < |r| ensures r[i] != r[j] {
      if j == |used| {
        assert r[i] == used[i];
      } else {
        assert r[i] == used[i] && r[j] == used[j];
      }
    }
  }

  /** The window ids after appending a day that fills slot m end with that day's id. */
  lemma {:induction false} WindowIdsAppend(plan: seq<DayPlan>, entry: DayPlan, m: MealType, lo: nat)
    requires lo <= |plan| && m in entry.meals
    ensures WindowIds(plan + [entry], m, lo, |plan| + 1) == WindowIds(plan, m, lo, |plan|) + [entry.meals[m].id]
  {
    WindowIdsOfPrefix(plan, entry, m, lo, |plan|);
    assert (plan + [entry])[|plan|] == entry;
  }

  /** A day inside the current window: an unused recipe exists and is taken. */
  lemma {:induction false} InWindowStep(group: seq<Recipe>, target: int, plan: seq<DayPlan>, m: MealType,
                     used: seq<RecipeId>, newUsed: seq<RecipeId>, entry: DayPlan, s: nat)
    requires |group| > RotationThreshold && |plan| > 0
    requires UsedIsWindow(group, plan, m, used)
    requires s == WindowStart(|plan| - 1, WindowLength(group))
    requires |plan| - s < WindowLength(group)
    requires |used| == |plan| - s
    requires StepTaken(group, target, used, newUsed, entry.meals, m)
    ensures ChosenInWindow(group, target, plan + [entry], m, |plan|)
    ensures UsedIsWindow(group, plan + [entry], m, newUsed)
  {
    var k := WindowLength(group);
    var n := |plan|;
    var next := plan + [entry];
    var chosen := entry.meals[m];
    assert chosen.id !in used && IsBestMatch(Unused(group, used), target, chosen) && newUsed == used + [chosen.id] by {
      SomeUnused(group, used);
    }
    assert WindowStart(n, k) == s by {
      WindowStartIdempotent(n - 1, k);
      WindowStartWithin(s, n, k);
    }
    assert WindowIds(next, m, s, n) == used by {
      WindowIdsOfPrefix(plan, entry, m, s, n);
    }
    assert WindowIds(next, m, s, n + 1) == newUsed by {
      WindowIdsAppend(plan, entry, m, s);
    }
    assert NoDup(newUsed) && Elems(newUsed) <= IdSet(group) by {
      NoDupAppend(used, chosen.id);
      IdSetHas(group, chosen);
    }
  }

  /** With every id of the group used, the step restarts the window with the group's best match. */
  lemma {:induction false} ResetChoice(group: seq<Recipe>, target: int, used: seq<RecipeId>, chosen: Recipe, newUsed: seq<RecipeId>)
    requires |group| > RotationThreshold
    requires NoDup(used) && |used| == |IdSet(group)| && Elems(used) <= IdSet(group)
    requires SelectionRule(group, target, used, chosen, newUsed)
    ensures IsBestMatch(Unused(group, []), target, chosen) && newUsed == [chosen.id]
  {
    AllUsed(group, used);
  }

  /** The window after a full window starts where that one ends. */
  lemma {:induction false} WindowStartNext(s: nat, k: nat)
    requires k > 0 && WindowStart(s, k) == s
    ensures WindowStart(s + k, k) == s + k
  {
    assert WindowStart(s + k, k) == k + WindowStart(s, k);
  }

  /** A day after a full window: every recipe was used, so the window restarts. */
  lemma {:induction false} ResetStep(group: seq<Recipe>, target: int, plan: seq<DayPlan>, m: MealType,
                  used: seq<RecipeId>, newUsed: seq<RecipeId>, entry: DayPlan, s: nat)
    requires |group| > RotationThreshold && |plan| > 0
    requires UsedIsWindow(group, plan, m, used)
    requires s == WindowStart(|plan| - 1, WindowLength(group))
    requires |plan| - s == WindowLength(group)
    requires |used| == |plan| - s
    requires StepTaken(group, target, used, newUsed, entry.meals, m)
    ensures ChosenInWindow(group, target, plan + [entry], m, |plan|)
    ensures UsedIsWindow(group, plan + [entry], m, newUsed)
  {
    var k := WindowLength(group);
    var n := |plan|;
    var next := plan + [entry];
    var chosen := entry.meals[m];
    assert IsBestMatch(Unused(group, []), target, chosen) && newUsed == [chosen.id] by {
      ResetChoice(group, target, used, chosen, newUsed);
    }
    assert WindowStart(n, k) == n by {
      WindowStartIdempotent(n - 1, k);
      WindowStartNext(s, k);
    }
    assert WindowIds(next, m, n, n) == [];
    assert WindowIds(next, m, n, n + 1) == newUsed by {
      WindowIdsAppend(plan, entry, m, n);
    }
    assert NoDup(newUsed) && Elems(newUsed) <= IdSet(group) by {
      IdSetHas(group, chosen);
      assert Elems(newUsed) == {chosen.id};
    }
  }

  /** A day after the first continues the current window or, once it is
      full, starts the next one. */
  lemma {:induction false} LaterDayStep(group: seq<Recipe>, target: int, plan: seq<DayPlan>, m: MealType,
                   used: seq<RecipeId>, newUsed: seq<RecipeId>, entry: DayPlan)
    requires |group| > RotationThreshold && |plan| > 0
    requires forall d :: 0 <= d < |plan| ==> ChosenInWindow(group, target, plan, m, d)
    requires UsedIsWindow(group, plan, m, used)
    requires StepTaken(group, target, used, newUsed, entry.meals, m)
    ensures ChosenInWindow(group, target, plan + [entry], m, |plan|)
    ensures UsedIsWindow(group, plan + [entry], m, newUsed)
  {
    var n := |plan|;
    var k := WindowLength(group);
    var s := WindowStart(n - 1, k);
    forall d | s <= d < n ensures m in plan[d].meals {
      assert ChosenInWindow(group, target, plan, m, d);
    }
    WindowIdsLength(plan, m, s, n);
    assert |used| == n - s;
    if n - s < k {
      InWindowStep(group, target, plan, m, used, newUsed, entry, s);
    } else {
      ResetStep(group, target, plan, m, used, newUsed, entry, s);
    }
  }

  /** One more day keeps the window facts of a large group's slot. */
  lemma {:induction false} AdvanceWindow(group: seq<Recipe>, target: int, plan: seq<DayPlan>, m: MealType,
                   used: seq<RecipeId>, newUsed: seq<RecipeId>, entry: DayPlan)
    requires |group| > RotationThreshold
    requires forall d :: 0 <= d < |plan| ==> ChosenInWindow(group, target, plan, m, d)
    requires UsedIsWindow(group, plan, m, used)
    requires StepTaken(group, target, used, newUsed, entry.meals, m)
    ensures forall d :: 0 <= d < |plan| + 1 ==> ChosenInWindow(group, target, plan + [entry], m, d)
    ensures UsedIsWindow(group, plan + [entry], m, newUsed)
  {
    var n := |plan|;
    var next := plan + [entry];
    EarlierDaysKept(group, target, plan, m, entry);
    if n == 0 {
      FirstDayStep(group, target, m, newUsed, entry);
      assert next == [entry];
    } else {
      LaterDayStep(group, target, plan, m, used, newUsed, entry);
    }
  }

  /** One more day keeps the rotation state of slot m. */
  lemma {:induction false} AdvanceDay(group: seq<Recipe>, target: int, plan: seq<DayPlan>, m: MealType,
                   used: seq<RecipeId>, newUsed: seq<RecipeId>, entry: DayPlan)
    requires RotationState(group, target, plan, m, used)
    requires StepTaken(group, target, used, newUsed, entry.meals, m)
    ensures RotationState(group, target, plan + [entry], m, newUsed)
  {
    var next := plan + [entry];
    assert next[|plan|] == entry;
    assert forall d :: 0 <= d < |plan| ==> next[d] == plan[d];
    if |group| > RotationThreshold {
      AdvanceWindow(group, target, plan, m, used, newUsed, entry);
    }
  }

  /** Inside one window a large group never serves the same recipe id twice. */
  lemma {:induction false} NoRepeatWithinWindow(group: seq<Recipe>, target: int, plan: seq<DayPlan>, m: MealType, i: nat, j: nat)
    requires FollowsRotation(group, target, plan, m)
    requires |group| > RotationThreshold
    requires i < j < |plan|
    requires WindowStart(i, WindowLength(group)) == WindowStart(j, WindowLength(group))
    ensures plan[i].meals[m].id != plan[j].meals[m].id
  {
    var k := WindowLength(group);
    assert ChosenInWindow(group, target, plan, m, j);
    assert ChosenInWindow(group, target, plan, m, i);
    WindowIdsHas(plan, m, WindowStart(j, k), j, i);
  }

  /** A plan no longer than the group's distinct ids never repeats a recipe in a large group. */
  lemma {:induction false} FirstWindowDistinct(group: seq<Recipe>, target: int, plan: seq<DayPlan>, m: MealType, i: nat, j: nat)
    requires FollowsRotation(group, target, plan, m)
    requires |group| > RotationThreshold
    requires |plan| <= WindowLength(group)
    requires i < j < |plan|
    ensures plan[i].meals[m].id != plan[j].meals[m].id
  {
    NoRepeatWithinWindow(group, target, plan, m, i, j);
  }

  /** A group of at most RotationThreshold recipes serves the same recipe on every day. */
  lemma {:induction false} SmallGroupRepeats(group: seq<Recipe>, target: int, plan: seq<DayPlan>, m: MealType, i: nat, j: nat)
    requires FollowsRotation(group, target, plan, m)
    requires 0 < |group| <= RotationThreshold
    requires i < |plan| && j < |plan|
    ensures m in plan[i].meals && m in plan[j].meals
    ensures plan[i].meals[m] == plan[j].meals[m]
  {
    BestMatchUnique(group, target, plan[i].meals[m], plan[j].meals[m]);
  }
}
