/** Choosing the recipe whose calories lie closest to a target: the
    candidates are paired with their distance, stably sorted by it, and the
    first is taken. */
module Matching {
  import opened Wrappers
  import opened Domain

  /** The tolerance used when the caller gives none. */
  const DefaultTolerance: real := 0.15

  /** |calories - target|, the sort key. */
  function Difference(r: Recipe, target: int): (d: nat)
    ensures d >= r.calories - target && d >= target - r.calories
    ensures d == r.calories - target || d == target - r.calories
  {
    if r.calories >= target then r.calories - target else target - r.calories
  }

  /** A candidate paired with its distance from the target. */
  datatype Scored = Scored(recipe: Recipe, difference: nat)

  /** Each candidate, in order, paired with its distance from the target. */
  function ScoreAll(recipes: seq<Recipe>, target: int): (scored: seq<Scored>)
    ensures |scored| == |recipes|
    ensures forall i :: 0 <= i < |recipes| ==> scored[i].recipe == recipes[i] && scored[i].difference == Difference(recipes[i], target)
  {
    seq(|recipes|, i requires 0 <= i < |recipes| => Scored(recipes[i], Difference(recipes[i], target)))
  }

  ghost predicate SortedByDifference(s: seq<Scored>) {
    forall i, j :: 0 <= i < j < |s| ==> s[i].difference <= s[j].difference
  }

  /** Puts x in front of the first element that is not closer than x, so x
      precedes the elements it ties with. */
  function Insert(x: Scored, s: seq<Scored>): (r: seq<Scored>)
    ensures |r| == |s| + 1
    ensures multiset(r) == multiset(s) + multiset{x}
    ensures r[0] == if s == [] || x.difference <= s[0].difference then x else s[0]
  {
    if s == [] || x.difference <= s[0].difference then [x] + s
    else
      assert s == [s[0]] + s[1..];
      [s[0]] + Insert(x, s[1..])
  }

  /** Insert puts x at position k: every element before it is strictly
      closer, and the element after it, if any, is not closer. In a sorted
      list x therefore precedes every element it ties with. */
  lemma {:induction false} InsertPosition(x: Scored, s: seq<Scored>) returns (k: nat)
    ensures k <= |s| && Insert(x, s) == s[..k] + [x] + s[k..]
    ensures forall j :: 0 <= j < k ==> s[j].difference < x.difference
    ensures k < |s| ==> x.difference <= s[k].difference
  {
    if s == [] || x.difference <= s[0].difference {
      k := 0;
      assert s[..0] == [] && s[0..] == s;
    } else {
      var tail := s[1..];
      var k' := InsertPosition(x, tail);
      k := k' + 1;
      InsertBehindHead(x, s, k');
      assert forall j :: 0 <= j < k ==> s[j].difference < x.difference by {
        forall j | 0 < j < k ensures s[j].difference < x.difference {
          assert s[j] == tail[j - 1];
        }
      }
      assert k < |s| ==> s[k] == tail[k'];
    }
  }

  /** When x lands behind the head, its position in s is one more than in the tail. */
  lemma {:induction false} InsertBehindHead(x: Scored, s: seq<Scored>, k: nat)
    requires s != [] && x.difference > s[0].difference
    requires k < |s| && Insert(x, s[1..]) == s[1..][..k] + [x] + s[1..][k..]
    ensures Insert(x, s) == s[..k + 1] + [x] + s[k + 1..]
  {
    var tail := s[1..];
    assert Insert(x, s) == [s[0]] + Insert(x, tail);
    assert s[..k + 1] == [s[0]] + tail[..k];
    assert s[k + 1..] == tail[k..];
  }

  /** Inserting keeps a lower bound that x and every element of s respect. */
  lemma {:induction false} InsertKeepsBound(x: Scored, s: seq<Scored>, bound: int)
    requires bound <= x.difference
    requires forall i :: 0 <= i < |s| ==> bound <= s[i].difference
    ensures forall i :: 0 <= i < |Insert(x, s)| ==> bound <= Insert(x, s)[i].difference
  {
    if s != [] && x.difference > s[0].difference {
      InsertKeepsBound(x, s[1..], bound);
    }
  }

  lemma {:induction false} InsertKeepsSorted(x: Scored, s: seq<Scored>)
    requires SortedByDifference(s)
    ensures SortedByDifference(Insert(x, s))
  {
    if s != [] && x.difference > s[0].difference {
      var tail := s[1..];
      var rest := Insert(x, tail);
      assert SortedByDifference(tail) by {
        forall i, j | 0 <= i < j < |tail| ensures tail[i].difference <= tail[j].difference {
          assert tail[i] == s[i + 1] && tail[j] == s[j + 1];
        }
      }
      InsertKeepsSorted(x, tail);
      InsertKeepsBound(x, tail, s[0].difference);
      var r := [s[0]] + rest;
      assert Insert(x, s) == r;
      forall i, j | 0 <= i < j < |r| ensures r[i].difference <= r[j].difference {
        assert r[j] == rest[j - 1];
        if i > 0 {
          assert r[i] == rest[i - 1];
        }
      }
    }
  }

  /** Insertion sort by difference. Each element is inserted ahead of the
      later elements it ties with, so the sort is stable, as the
      JavaScript Array sort is. */
  function StableSort(s: seq<Scored>): (r: seq<Scored>)
    ensures |r| == |s|
    ensures multiset(r) == multiset(s)
    ensures SortedByDifference(r)
  {
    if s == [] then []
    else
      assert s == [s[0]] + s[1..];
      InsertKeepsSorted(s[0], StableSort(s[1..]));
      Insert(s[0], StableSort(s[1..]))
  }

  /** The index of the first element at the least distance. */
  function FirstMinIndex(s: seq<Scored>): (k: nat)
    requires |s| > 0
    ensures k < |s|
    ensures forall j :: 0 <= j < |s| ==> s[k].difference <= s[j].difference
    ensures forall j :: 0 <= j < k ==> s[k].difference < s[j].difference
  {
    if |s| == 1 then 0
    else
      var k' := FirstMinIndex(s[1..]);
      if s[0].difference <= s[1 + k'].difference then 0 else 1 + k'
  }

  /** The head of the stable sort is the first element at the least distance. */
  lemma {:induction false} StableSortHead(s: seq<Scored>)
    requires |s| > 0
    ensures StableSort(s)[0] == s[FirstMinIndex(s)]
  {
    if |s| > 1 {
      StableSortHead(s[1..]);
    }
  }

  /** Position k holds a recipe at the least distance from the target, and
      no earlier position does. */
  ghost predicate IsClosestAt(recipes: seq<Recipe>, target: int, k: int) {
    && 0 <= k < |recipes|
    && (forall j :: 0 <= j < |recipes| ==> Difference(recipes[k], target) <= Difference(recipes[j], target))
    && (forall j :: 0 <= j < k ==> Difference(recipes[k], target) < Difference(recipes[j], target))
  }

  /** best is the earliest of the recipes nearest to the target. */
  ghost predicate IsBestMatch(recipes: seq<Recipe>, target: int, best: Recipe) {
    exists k :: IsClosestAt(recipes, target, k) && recipes[k] == best
  }

  /** The best match is determined by the candidates and the target. */
  lemma {:induction false} BestMatchUnique(recipes: seq<Recipe>, target: int, a: Recipe, b: Recipe)
    requires IsBestMatch(recipes, target, a) && IsBestMatch(recipes, target, b)
    ensures a == b
  {
    var i :| IsClosestAt(recipes, target, i) && recipes[i] == a;
    var j :| IsClosestAt(recipes, target, j) && recipes[j] == b;
    assert !(i < j) && !(j < i);
  }

  /** findBestRecipeMatch: no match for no candidates, otherwise the earliest
      closest one. The tolerance test decides nothing: both of its branches
      return the closest recipe. */
  function FindBestRecipeMatch(recipes: seq<Recipe>, targetCalories: int, tolerance: real): (best: Option<Recipe>)
    ensures best.None? <==> |recipes| == 0
    ensures best.Some? ==> IsBestMatch(recipes, targetCalories, best.value)
  {
    if |recipes| == 0 then None
    else
      var sorted := StableSort(ScoreAll(recipes, targetCalories));
      var first := sorted[0];
      var maxDifference := targetCalories as real * tolerance;
      SortedHeadIsClosest(recipes, targetCalories);
      if first.difference as real <= maxDifference then Some(first.recipe)
      else Some(first.recipe)
  }

  /** The recipe at the head of the sorted candidates is the earliest closest one. */
  lemma {:induction false} SortedHeadIsClosest(recipes: seq<Recipe>, targetCalories: int)
    requires |recipes| > 0
    ensures IsBestMatch(recipes, targetCalories, StableSort(ScoreAll(recipes, targetCalories))[0].recipe)
  {
    var scored := ScoreAll(recipes, targetCalories);
    StableSortHead(scored);
    var k := FirstMinIndex(scored);
    forall j | 0 <= j < |recipes| ensures scored[j] == Scored(recipes[j], Difference(recipes[j], targetCalories)) {
    }
    assert IsClosestAt(recipes, targetCalories, k);
  }

  /** The tolerance has no effect on the result. */
  lemma {:induction false} ToleranceIsIgnored(recipes: seq<Recipe>, targetCalories: int, t1: real, t2: real)
    ensures FindBestRecipeMatch(recipes, targetCalories, t1) == FindBestRecipeMatch(recipes, targetCalories, t2)
  {
  }

  /** The match always lies among the candidates. */
  lemma {:induction false} MatchIsCandidate(recipes: seq<Recipe>, targetCalories: int, tolerance: real)
    requires |recipes| > 0
    ensures FindBestRecipeMatch(recipes, targetCalories, tolerance).Some?
    ensures FindBestRecipeMatch(recipes, targetCalories, tolerance).value in recipes
  {
    var best := FindBestRecipeMatch(recipes, targetCalories, tolerance).value;
    var k :| IsClosestAt(recipes, targetCalories, k) && recipes[k] == best;
  }

  /** Among 500, 700 and 900 kcal, the 700 kcal recipe is closest to 680. */
  lemma ClosestTo680(a: Recipe, b: Recipe, c: Recipe)
    requires a.calories == 500 && b.calories == 700 && c.calories == 900
    ensures FindBestRecipeMatch([a, b, c], 680, DefaultTolerance) == Some(b)
  {
    var rs := [a, b, c];
    assert IsClosestAt(rs, 680, 1);
    BestMatchUnique(rs, 680, FindBestRecipeMatch(rs, 680, DefaultTolerance).value, b);
  }

  /** Two candidates equally close: the earlier one wins. */
  lemma TieGoesToEarliest(a: Recipe, b: Recipe, target: int)
    requires Difference(a, target) == Difference(b, target)
    ensures FindBestRecipeMatch([a, b], target, DefaultTolerance) == Some(a)
  {
    var rs := [a, b];
    assert IsClosestAt(rs, target, 0);
    BestMatchUnique(rs, target, FindBestRecipeMatch(rs, target, DefaultTolerance).value, a);
  }
}
