/** The meal schedule editor (components/nutrition/MealScheduleEditor.tsx).

    As in the workout editor, the state starts as the plan's own week list
    and the handlers change week objects in place (`meals.push`, index
    assignment, `splice`); in addition the outer list gains a week when a
    meal is added to a week without an entry, and loses a week whose last
    meal is removed. Fresh meal ids (`crypto.randomUUID()`) are parameters. */
module MealScheduleEditor {
  import opened Wrappers
  import opened Seqs
  import opened NutritionPlans

  /** A week of the meal schedule, updated in place. */
  class MealWeekEntry {
    const weekNumber: int
    var meals: seq<Meal>

    constructor (w: MealWeek)
      ensures weekNumber == w.weekNumber && meals == w.meals
    {
      weekNumber := w.weekNumber;
      meals := w.meals;
    }

    function Value(): (w: MealWeek)
      reads this
    {
      MealWeek(weekNumber, meals)
    }
  }

  /** `Partial<Meal>`; optional fields of the meal are `Option<Option<...>>`
      here so that a present key holding `undefined` clears them. */
  datatype MealPatch = MealPatch(
    id: Option<string>, nutritionPlanId: Option<string>, weekNumber: Option<int>,
    dayOfWeek: Option<int>, mealType: Option<string>, name: Option<string>,
    description: Option<Option<string>>,
    calories: Option<Option<int>>, protein: Option<Option<int>>, carbs: Option<Option<int>>,
    fats: Option<Option<int>>, completed: Option<bool>, completedAt: Option<Option<int>>)

  /** `{ ...meal, ...updates }`. */
  function MergeMeal(m: Meal, p: MealPatch): Meal
  {
    Meal(p.id.GetOr(m.id), p.nutritionPlanId.GetOr(m.nutritionPlanId), p.weekNumber.GetOr(m.weekNumber),
      p.dayOfWeek.GetOr(m.dayOfWeek), p.mealType.GetOr(m.mealType), p.name.GetOr(m.name),
      p.description.GetOr(m.description), p.calories.GetOr(m.calories), p.protein.GetOr(m.protein),
      p.carbs.GetOr(m.carbs), p.fats.GetOr(m.fats), p.completed.GetOr(m.completed),
      p.completedAt.GetOr(m.completedAt))
  }

  // ---------------------------------------------------------------------
  // The handlers on schedule values
  // ---------------------------------------------------------------------

  /** The meal `addMeal` creates. */
  function NewMeal(planId: string, weekNumber: int, freshId: string): (m: Meal)
  {
    Meal(freshId, planId, weekNumber, 0, "breakfast", "", None, None, None, None, None, false, None)
  }

  /** `addMeal(weekNumber)`: a week without an entry gets a new entry holding
      just the new meal, at the end; otherwise the meal is appended to the
      first entry with that number. */
  function AddMealTo(s: seq<MealWeek>, n: int, planId: string, freshId: string): (r: seq<MealWeek>)
    ensures n !in WeekNumbers(s) ==> r == s + [MealWeek(n, [NewMeal(planId, n, freshId)])]
    ensures n in WeekNumbers(s) ==> |r| == |s| && WeekNumbers(r) == WeekNumbers(s)
    ensures n in WeekNumbers(s) ==>
      var i := WeekIndex(s, n);
      r[i].meals == s[i].meals + [NewMeal(planId, n, freshId)] &&
      forall k :: 0 <= k < |s| && k != i ==> r[k] == s[k]
  {
    var i := WeekIndex(s, n);
    var meal := NewMeal(planId, n, freshId);
    if i == -1 then s + [MealWeek(n, [meal])]
    else
      var r := s[i := s[i].(meals := s[i].meals + [meal])];
      assert forall k :: 0 <= k < |s| ==> WeekNumbers(r)[k] == WeekNumbers(s)[k];
      r
  }

  /** The meals `updateMeal` and `removeMeal` may index: those of the week's
      entry, if it has one. */
  predicate MealIndexOk(s: seq<MealWeek>, n: int, j: nat)
  {
    var i := WeekIndex(s, n);
    i != -1 ==> j < |s[i].meals|
  }

  /** `updateMeal(weekNumber, j, updates)`: the fields are merged into meal
      `j` of that week; a week without an entry leaves the schedule alone. */
  function UpdateMealIn(s: seq<MealWeek>, n: int, j: nat, p: MealPatch): (r: seq<MealWeek>)
    requires MealIndexOk(s, n, j)
    ensures n !in WeekNumbers(s) ==> r == s
    ensures n in WeekNumbers(s) ==>
      var i := WeekIndex(s, n);
      |r| == |s| && (forall k :: 0 <= k < |s| && k != i ==> r[k] == s[k]) &&
      r[i].weekNumber == n && |r[i].meals| == |s[i].meals| &&
      r[i].meals[j] == MergeMeal(s[i].meals[j], p) &&
      forall m :: 0 <= m < |s[i].meals| && m != j ==> r[i].meals[m] == s[i].meals[m]
  {
    var i := WeekIndex(s, n);
    if i == -1 then s
    else s[i := s[i].(meals := s[i].meals[j := MergeMeal(s[i].meals[j], p)])]
  }

  /** `removeMeal(weekNumber, j)`: meal `j` of that week is spliced out, and
      the week's entry goes when no meal is left; a week without an entry
      leaves the schedule alone. */
  function RemoveMealFrom(s: seq<MealWeek>, n: int, j: nat): (r: seq<MealWeek>)
    ensures n !in WeekNumbers(s) ==> r == s
    ensures n in WeekNumbers(s) ==>
      var i := WeekIndex(s, n);
      var left := RemoveAt(s[i].meals, j);
      if |left| == 0 then r == RemoveAt(s, i) else r == s[i := s[i].(meals := left)]
  {
    var i := WeekIndex(s, n);
    if i == -1 then s
    else
      var left := RemoveAt(s[i].meals, j);
      if |left| == 0 then RemoveAt(s, i) else s[i := s[i].(meals := left)]
  }

  // ---------------------------------------------------------------------
  // Properties of the handlers
  // ---------------------------------------------------------------------

  /** `addMeal` adds exactly one meal, to the week it names, and never makes
      a second entry for a week number. */
  lemma AddMealCounts(s: seq<MealWeek>, n: int, planId: string, freshId: string)
    ensures TotalMeals(AddMealTo(s, n, planId, freshId)) == TotalMeals(s) + 1
    ensures Distinct(WeekNumbers(s)) ==> Distinct(WeekNumbers(AddMealTo(s, n, planId, freshId)))
    ensures n in WeekNumbers(AddMealTo(s, n, planId, freshId))
  {
    var r := AddMealTo(s, n, planId, freshId);
    var i := WeekIndex(s, n);
    if i == -1 {
      assert r[..|r| - 1] == s;
      assert WeekNumbers(r) == WeekNumbers(s) + [n];
      assert WeekNumbers(r)[|s|] == n;
    } else {
      TotalMealsUpdate(s, i, r[i]);
      assert r == s[i := r[i]];
      assert WeekNumbers(r)[i] == n;
    }
  }

  /** Updates never change the number of meals or the weeks. */
  lemma UpdateMealCounts(s: seq<MealWeek>, n: int, j: nat, p: MealPatch)
    requires MealIndexOk(s, n, j)
    ensures WeekNumbers(UpdateMealIn(s, n, j, p)) == WeekNumbers(s)
    ensures TotalMeals(UpdateMealIn(s, n, j, p)) == TotalMeals(s)
  {
    var r := UpdateMealIn(s, n, j, p);
    var i := WeekIndex(s, n);
    if i != -1 {
      TotalMealsUpdate(s, i, r[i]);
      assert r == s[i := r[i]];
    }
  }

  lemma {:induction false} TotalMealsRemoveAt(s: seq<MealWeek>, i: nat)
    requires i < |s|
    ensures TotalMeals(RemoveAt(s, i)) + |s[i].meals| == TotalMeals(s)
    decreases |s|
  {
    var pre := s[..|s| - 1];
    if i == |s| - 1 {
      assert RemoveAt(s, i) == pre;
    } else {
      TotalMealsRemoveAt(pre, i);
      var r := RemoveAt(s, i);
      assert r[..|r| - 1] == RemoveAt(pre, i);
      assert r[|r| - 1] == s[|s| - 1];
    }
  }

  /** `removeMeal` removes exactly one meal when the week has an entry and
      the index is in range. An index past the end removes nothing, except
      that an entry already holding no meals is then dropped. */
  lemma RemoveMealCounts(s: seq<MealWeek>, n: int, j: nat)
    ensures n in WeekNumbers(s) && j < |s[WeekIndex(s, n)].meals| ==>
      TotalMeals(RemoveMealFrom(s, n, j)) + 1 == TotalMeals(s)
    ensures n !in WeekNumbers(s) ==> RemoveMealFrom(s, n, j) == s
    ensures n in WeekNumbers(s) && j >= |s[WeekIndex(s, n)].meals| > 0 ==> RemoveMealFrom(s, n, j) == s
    ensures n in WeekNumbers(s) && |s[WeekIndex(s, n)].meals| == 0 ==>
      RemoveMealFrom(s, n, j) == RemoveAt(s, WeekIndex(s, n))
  {
    var i := WeekIndex(s, n);
    if i != -1 {
      var left := RemoveAt(s[i].meals, j);
      if j < |s[i].meals| {
        if |left| == 0 {
          TotalMealsRemoveAt(s, i);
        } else {
          TotalMealsUpdate(s, i, s[i].(meals := left));
        }
      } else if |left| > 0 {
        assert s[i := s[i].(meals := left)] == s;
      }
    }
  }

  lemma DistinctRemoveAt(xs: seq<int>, i: nat)
    requires Distinct(xs)
    ensures Distinct(RemoveAt(xs, i))
  {
    var r := RemoveAt(xs, i);
    if i < |xs| {
      forall a, b | 0 <= a < b < |r|
        ensures r[a] != r[b]
      {
        assert r[a] == xs[if a < i then a else a + 1];
        assert r[b] == xs[if b < i then b else b + 1];
      }
    }
  }

  lemma WeekNumbersRemoveAt(s: seq<MealWeek>, i: nat)
    requires i < |s|
    ensures WeekNumbers(RemoveAt(s, i)) == RemoveAt(WeekNumbers(s), i)
  {
  }

  /** A schedule whose week numbers are distinct and whose weeks all hold a
      meal — which is what grouping the fetched rows produces — stays so
      under all three handlers. */
  predicate WellFormed(s: seq<MealWeek>)
  {
    Distinct(WeekNumbers(s)) && forall k :: 0 <= k < |s| ==> |s[k].meals| > 0
  }

  lemma HandlersKeepWellFormed(s: seq<MealWeek>, n: int, j: nat, p: MealPatch, planId: string, freshId: string)
    requires WellFormed(s)
    ensures WellFormed(AddMealTo(s, n, planId, freshId))
    ensures WellFormed(RemoveMealFrom(s, n, j))
    ensures MealIndexOk(s, n, j) ==> WellFormed(UpdateMealIn(s, n, j, p))
  {
    AddMealCounts(s, n, planId, freshId);
    if MealIndexOk(s, n, j) {
      UpdateMealCounts(s, n, j, p);
    }
    RemoveKeepsWellFormed(s, n, j);
  }

  lemma RemoveKeepsWellFormed(s: seq<MealWeek>, n: int, j: nat)
    requires WellFormed(s)
    ensures WellFormed(RemoveMealFrom(s, n, j))
  {
    var i := WeekIndex(s, n);
    if i != -1 {
      var left := RemoveAt(s[i].meals, j);
      if |left| == 0 {
        DropWeekWellFormed(s, i);
      } else {
        ReplaceWeekWellFormed(s, i, s[i].(meals := left));
      }
    }
  }

  lemma DropWeekWellFormed(s: seq<MealWeek>, i: nat)
    requires WellFormed(s) && i < |s|
    ensures WellFormed(RemoveAt(s, i))
  {
    var r := RemoveAt(s, i);
    WeekNumbersRemoveAt(s, i);
    DistinctRemoveAt(WeekNumbers(s), i);
    forall k | 0 <= k < |r|
      ensures |r[k].meals| > 0
    {
      assert r[k] == s[if k < i then k else k + 1];
    }
  }

  lemma ReplaceWeekWellFormed(s: seq<MealWeek>, i: nat, w: MealWeek)
    requires WellFormed(s) && i < |s|
    requires w.weekNumber == s[i].weekNumber && |w.meals| > 0
    ensures WellFormed(s[i := w])
  {
    assert WeekNumbers(s[i := w]) == WeekNumbers(s);
  }

  /** The schedule grouped from the fetched rows can be edited by these
      handlers without ever getting a duplicate or an empty week. */
  lemma GroupedIsWellFormed(rows: seq<MealRow>)
    ensures WellFormed(Grouped(rows))
  {
    GroupedWeeksDistinctNonEmpty(rows);
  }

  // ---------------------------------------------------------------------
  // The editor
  // ---------------------------------------------------------------------

  class Editor {
    var schedule: seq<MealWeekEntry>
    /** `plan.id`, stamped on new meals. */
    const planId: string

    predicate Valid()
      reads this
    {
      forall i, j :: 0 <= i < j < |schedule| ==> schedule[i] != schedule[j]
    }

    function View(): (v: seq<MealWeek>)
      reads this, schedule
      ensures |v| == |schedule|
    {
      seq(|schedule|, i reads this, schedule requires 0 <= i < |schedule| => schedule[i].Value())
    }

    /** `useState(plan.mealSchedule)`: the plan's own week objects. */
    constructor (weeks: seq<MealWeekEntry>, id: string)
      requires forall i, j :: 0 <= i < j < |weeks| ==> weeks[i] != weeks[j]
      ensures schedule == weeks && planId == id
      ensures Valid()
    {
      schedule := weeks;
      planId := id;
    }

    method AddMeal(weekNumber: int, freshId: string)
      requires Valid()
      modifies this, schedule
      ensures Valid()
      ensures View() == AddMealTo(old(View()), weekNumber, planId, freshId)
      ensures schedule == old(schedule) || (|schedule| == |old(schedule)| + 1 &&
        schedule[..|old(schedule)|] == old(schedule) && fresh(schedule[|old(schedule)|]))
    {
      var weekIndex := WeekIndex(View(), weekNumber);
      var meal := NewMeal(planId, weekNumber, freshId);
      if weekIndex == -1 {
        var entry := new MealWeekEntry(MealWeek(weekNumber, [meal]));
        schedule := schedule + [entry];
        assert View() == old(View()) + [MealWeek(weekNumber, [meal])];
      } else {
        var week := schedule[weekIndex];
        week.meals := week.meals + [meal];
        assert forall k :: 0 <= k < |schedule| && k != weekIndex ==> schedule[k] != week;
      }
    }

    method UpdateMeal(weekNumber: int, mealIndex: nat, updates: MealPatch)
      requires Valid() && MealIndexOk(View(), weekNumber, mealIndex)
      modifies schedule
      ensures Valid() && schedule == old(schedule)
      ensures View() == UpdateMealIn(old(View()), weekNumber, mealIndex, updates)
    {
      var weekIndex := WeekIndex(View(), weekNumber);
      if weekIndex != -1 {
        var week := schedule[weekIndex];
        week.meals := week.meals[mealIndex := MergeMeal(week.meals[mealIndex], updates)];
        assert forall k :: 0 <= k < |schedule| && k != weekIndex ==> schedule[k] != week;
      }
    }

    method RemoveMeal(weekNumber: int, mealIndex: nat)
      requires Valid()
      modifies this, schedule
      ensures Valid()
      ensures View() == RemoveMealFrom(old(View()), weekNumber, mealIndex)
      ensures schedule == old(schedule) || exists i :: 0 <= i < |old(schedule)| && schedule == RemoveAt(old(schedule), i)
    {
      var weekIndex := WeekIndex(View(), weekNumber);
      if weekIndex != -1 {
        ghost var before := View();
        var week := schedule[weekIndex];
        week.meals := RemoveAt(week.meals, mealIndex);
        assert forall k :: 0 <= k < |schedule| && k != weekIndex ==> schedule[k] != week;
        assert View() == before[weekIndex := before[weekIndex].(meals := week.meals)];
        if |week.meals| == 0 {
          DropWeek(weekIndex);
          assert View() == RemoveAt(before, weekIndex);
        }
      }
    }

    /** `newSchedule.splice(weekIndex, 1)`. */
    method DropWeek(i: nat)
      requires Valid() && i < |schedule|
      modifies this
      ensures Valid() && schedule == RemoveAt(old(schedule), i)
      ensures |View()| == |old(View())| - 1
      ensures forall k :: 0 <= k < |View()| ==> View()[k] == old(View())[if k < i then k else k + 1]
    {
      schedule := RemoveAt(schedule, i);
    }
  }
}
