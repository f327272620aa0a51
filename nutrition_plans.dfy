/** The nutrition-plan store (store/nutritionPlans.ts): plans with a
    week-grouped meal schedule, the conversion between the flat
    `meal_schedule` rows and the nested schedule, duplication, and the
    meal-completion update. The database calls themselves are not modelled;
    their inputs and outputs are. */
module NutritionPlans {
  import opened Wrappers
  import opened Seqs
  import opened Time

  /** A meal. `mealType` is one of 'breakfast', 'lunch', 'dinner', 'snack' by
      its declared type, but nothing checks it. */
  datatype Meal = Meal(
    id: string, nutritionPlanId: string, weekNumber: int, dayOfWeek: int, mealType: string,
    name: string, description: Option<string>,
    calories: Option<int>, protein: Option<int>, carbs: Option<int>, fats: Option<int>,
    completed: bool, completedAt: Option<Instant>)

  datatype MealWeek = MealWeek(weekNumber: int, meals: seq<Meal>)

  datatype NutritionPlan = NutritionPlan(
    id: string, name: string, description: Option<string>, weeks: int, startDate: Instant,
    coachId: string, athleteId: Option<string>, mealSchedule: seq<MealWeek>)

  /** A fetched `meal_schedule` row. */
  datatype MealRow = MealRow(
    id: string, nutritionPlanId: string, weekNumber: int, dayOfWeek: int, mealType: string,
    name: string, description: Option<string>,
    calories: Option<int>, protein: Option<int>, carbs: Option<int>, fats: Option<int>,
    completed: bool, completedAt: Option<Instant>)

  /** A `meal_schedule` row as `addPlan` inserts it: no id (the database
      assigns one) and no completion time. */
  datatype MealInsertRow = MealInsertRow(
    nutritionPlanId: string, weekNumber: int, dayOfWeek: int, mealType: string,
    name: string, description: Option<string>,
    calories: Option<int>, protein: Option<int>, carbs: Option<int>, fats: Option<int>,
    completed: bool)

  /** A `nutrition_plans` row joined with its `meal_schedule` rows. */
  datatype NutritionPlanRow = NutritionPlanRow(
    id: string, name: string, description: Option<string>, weeks: int, startDate: Instant,
    coachId: string, athleteId: Option<string>, mealRows: seq<MealRow>)

  datatype NutritionPlanHeaderRow = NutritionPlanHeaderRow(
    name: string, description: Option<string>, weeks: int, startDate: Instant,
    coachId: string, athleteId: Option<string>)

  /** What `addPlan` sends: the header, and the meal rows when the schedule is
      non-empty (`None`: no meal insert is made). */
  datatype NutritionPlanInsert = NutritionPlanInsert(
    header: NutritionPlanHeaderRow, mealRows: Option<seq<MealInsertRow>>)

  // ---------------------------------------------------------------------
  // Grouping the fetched rows into weeks (fetchPlans)
  // ---------------------------------------------------------------------

  /** `mealData`: every field of the row, renamed. */
  function ToMeal(row: MealRow): (m: Meal)
  {
    Meal(row.id, row.nutritionPlanId, row.weekNumber, row.dayOfWeek, row.mealType, row.name,
      row.description, row.calories, row.protein, row.carbs, row.fats, row.completed, row.completedAt)
  }

  /** The field-for-field inverse of `ToMeal`. */
  function RowOfMeal(m: Meal): (row: MealRow)
  {
    MealRow(m.id, m.nutritionPlanId, m.weekNumber, m.dayOfWeek, m.mealType, m.name,
      m.description, m.calories, m.protein, m.carbs, m.fats, m.completed, m.completedAt)
  }

  /** Each grouped meal copies its row exactly: nothing is lost or altered. */
  lemma ToMealCopiesRow(row: MealRow, m: Meal)
    ensures RowOfMeal(ToMeal(row)) == row
    ensures ToMeal(RowOfMeal(m)) == m
  {
  }

  /** One meal per row, from which the row reads back unchanged. */
  function MealsOf(rows: seq<MealRow>): (ms: seq<Meal>)
    ensures |ms| == |rows|
    ensures forall i :: 0 <= i < |rows| ==> RowOfMeal(ms[i]) == rows[i]
  {
    seq(|rows|, i requires 0 <= i < |rows| => ToMeal(rows[i]))
  }

  function WeekNumbers(s: seq<MealWeek>): (ns: seq<int>)
    ensures |ns| == |s|
  {
    seq(|s|, i requires 0 <= i < |s| => s[i].weekNumber)
  }

  function RowWeekNumbers(rows: seq<MealRow>): (ns: seq<int>)
    ensures |ns| == |rows|
  {
    seq(|rows|, i requires 0 <= i < |rows| => rows[i].weekNumber)
  }

  /** The rows of week `n`, in row order. */
  function RowsOfWeek(rows: seq<MealRow>, n: int): seq<MealRow>
  {
    Filter(rows, (r: MealRow) => r.weekNumber == n)
  }

  /** `acc.findIndex(w => w.weekNumber === n)`. */
  function WeekIndex(acc: seq<MealWeek>, n: int): (i: int)
    ensures -1 <= i < |acc|
    ensures i == -1 <==> n !in WeekNumbers(acc)
    ensures 0 <= i ==> acc[i].weekNumber == n && forall k :: 0 <= k < i ==> acc[k].weekNumber != n
  {
    var i := FindIndex(acc, (w: MealWeek) => w.weekNumber == n);
    assert i == -1 ==> forall k :: 0 <= k < |acc| ==> WeekNumbers(acc)[k] != n;
    assert i != -1 ==> WeekNumbers(acc)[i] == n;
    i
  }

  /** One step of the `reduce`. */
  function AddRow(acc: seq<MealWeek>, row: MealRow): seq<MealWeek>
  {
    var i := WeekIndex(acc, row.weekNumber);
    if i == -1 then acc + [MealWeek(row.weekNumber, [ToMeal(row)])]
    else acc[i := acc[i].(meals := acc[i].meals + [ToMeal(row)])]
  }

  function GroupInto(acc: seq<MealWeek>, rows: seq<MealRow>): seq<MealWeek>
    decreases |rows|
  {
    if |rows| == 0 then acc
    else AddRow(GroupInto(acc, rows[..|rows| - 1]), rows[|rows| - 1])
  }

  /** The meal schedule `fetchPlans` builds from a plan's rows. */
  function Grouped(rows: seq<MealRow>): seq<MealWeek>
  {
    GroupInto([], rows)
  }

  /** The `reduce` itself, written as the loop it performs. */
  method GroupMealSchedule(rows: seq<MealRow>) returns (acc: seq<MealWeek>)
    ensures acc == Grouped(rows)
  {
    acc := [];
    var k := 0;
    while k < |rows|
      invariant 0 <= k <= |rows|
      invariant acc == GroupInto([], rows[..k])
    {
      var meal := rows[k];
      var weekIndex := WeekIndex(acc, meal.weekNumber);
      var mealData := Meal(meal.id, meal.nutritionPlanId, meal.weekNumber, meal.dayOfWeek, meal.mealType,
        meal.name, meal.description, meal.calories, meal.protein, meal.carbs, meal.fats,
        meal.completed, meal.completedAt);
      if weekIndex == -1 {
        acc := acc + [MealWeek(meal.weekNumber, [mealData])];
      } else {
        acc := acc[weekIndex := acc[weekIndex].(meals := acc[weekIndex].meals + [mealData])];
      }
      assert rows[..k + 1][..k] == rows[..k];
      k := k + 1;
    }
    assert rows[..k] == rows;
  }

  lemma RowsOfWeekSnoc(rows: seq<MealRow>, r: MealRow, n: int)
    ensures RowsOfWeek(rows + [r], n) == RowsOfWeek(rows, n) + (if r.weekNumber == n then [r] else [])
  {
    FilterAppend(rows, [r], (x: MealRow) => x.weekNumber == n);
    assert [r][1..] == [];
  }

  lemma RowWeekNumbersSnoc(rows: seq<MealRow>, r: MealRow)
    ensures RowWeekNumbers(rows + [r]) == RowWeekNumbers(rows) + [r.weekNumber]
  {
  }

  lemma NoRowOfWeek(rows: seq<MealRow>, n: int)
    requires n !in RowWeekNumbers(rows)
    ensures RowsOfWeek(rows, n) == []
  {
    assert forall j :: 0 <= j < |rows| ==> RowWeekNumbers(rows)[j] == rows[j].weekNumber;
    FilterNone(rows, (x: MealRow) => x.weekNumber == n);
  }

  /** `g` is the grouping of `rows`: its weeks are the distinct week numbers
      of the rows in first-occurrence order, and each week holds, in row
      order, the meals of the rows with its number. */
  predicate GroupsRows(rows: seq<MealRow>, g: seq<MealWeek>)
  {
    WeekNumbers(g) == Dedup(RowWeekNumbers(rows)) &&
    forall k :: 0 <= k < |g| ==> g[k].meals == MealsOf(RowsOfWeek(rows, g[k].weekNumber))
  }

  lemma AddRowNewWeek(pre: seq<MealRow>, g0: seq<MealWeek>, r: MealRow)
    requires GroupsRows(pre, g0)
    requires r.weekNumber !in RowWeekNumbers(pre)
    ensures GroupsRows(pre + [r], g0 + [MealWeek(r.weekNumber, [ToMeal(r)])])
  {
    var n := r.weekNumber;
    var g := g0 + [MealWeek(n, [ToMeal(r)])];
    RowWeekNumbersSnoc(pre, r);
    DedupSnoc(RowWeekNumbers(pre), n);
    assert WeekNumbers(g) == WeekNumbers(g0) + [n];
    DedupMembers(RowWeekNumbers(pre));
    forall k | 0 <= k < |g|
      ensures g[k].meals == MealsOf(RowsOfWeek(pre + [r], g[k].weekNumber))
    {
      NewWeekEntry(pre, g0, r, k);
    }
  }

  /** Week `k` after the row opened a new week at the end. */
  lemma NewWeekEntry(pre: seq<MealRow>, g0: seq<MealWeek>, r: MealRow, k: nat)
    requires GroupsRows(pre, g0) && forall x :: x in Dedup(RowWeekNumbers(pre)) <==> x in RowWeekNumbers(pre)
    requires r.weekNumber !in RowWeekNumbers(pre) && k <= |g0|
    ensures var g := g0 + [MealWeek(r.weekNumber, [ToMeal(r)])];
      g[k].meals == MealsOf(RowsOfWeek(pre + [r], g[k].weekNumber))
  {
    var n := r.weekNumber;
    var g := g0 + [MealWeek(n, [ToMeal(r)])];
    RowsOfWeekSnoc(pre, r, g[k].weekNumber);
    if k < |g0| {
      assert g[k] == g0[k];
      assert WeekNumbers(g0)[k] == g0[k].weekNumber;
      assert g0[k].weekNumber in RowWeekNumbers(pre);
    } else {
      NoRowOfWeek(pre, n);
      assert RowsOfWeek(pre + [r], n) == [r];
    }
  }

  lemma AddRowExistingWeek(pre: seq<MealRow>, g0: seq<MealWeek>, r: MealRow, i: nat)
    requires GroupsRows(pre, g0)
    requires i < |g0| && g0[i].weekNumber == r.weekNumber
    ensures GroupsRows(pre + [r], g0[i := g0[i].(meals := g0[i].meals + [ToMeal(r)])])
  {
    var g := g0[i := g0[i].(meals := g0[i].meals + [ToMeal(r)])];
    ExistingWeekNumbers(pre, g0, r, i);
    forall k | 0 <= k < |g|
      ensures g[k].meals == MealsOf(RowsOfWeek(pre + [r], g[k].weekNumber))
    {
      ExistingWeekEntry(pre, g0, r, i, k);
    }
  }

  /** Adding a row of a week already present keeps the week numbers. */
  lemma ExistingWeekNumbers(pre: seq<MealRow>, g0: seq<MealWeek>, r: MealRow, i: nat)
    requires GroupsRows(pre, g0)
    requires i < |g0| && g0[i].weekNumber == r.weekNumber
    ensures Distinct(WeekNumbers(g0))
    ensures WeekNumbers(g0[i := g0[i].(meals := g0[i].meals + [ToMeal(r)])])
      == Dedup(RowWeekNumbers(pre + [r]))
  {
    var n := r.weekNumber;
    RowWeekNumbersSnoc(pre, r);
    DedupSnoc(RowWeekNumbers(pre), n);
    DedupMembers(RowWeekNumbers(pre));
    assert WeekNumbers(g0)[i] == n;
  }

  /** Week `k` after adding the row to week `i`. */
  lemma ExistingWeekEntry(pre: seq<MealRow>, g0: seq<MealWeek>, r: MealRow, i: nat, k: nat)
    requires GroupsRows(pre, g0) && Distinct(WeekNumbers(g0))
    requires i < |g0| && g0[i].weekNumber == r.weekNumber && k < |g0|
    ensures var g := g0[i := g0[i].(meals := g0[i].meals + [ToMeal(r)])];
      g[k].meals == MealsOf(RowsOfWeek(pre + [r], g[k].weekNumber))
  {
    RowsOfWeekSnoc(pre, r, g0[k].weekNumber);
    if k != i {
      assert WeekNumbers(g0)[k] != WeekNumbers(g0)[i];
    } else {
      var n := r.weekNumber;
      assert MealsOf(RowsOfWeek(pre, n) + [r]) == MealsOf(RowsOfWeek(pre, n)) + [ToMeal(r)];
    }
  }

  /** What grouping computes: the weeks appear in the order their number
      first occurs in the rows, and each week holds, in row order, exactly
      the meals of the rows with its number, each a copy of its row. */
  lemma {:induction false} GroupedShape(rows: seq<MealRow>)
    ensures GroupsRows(rows, Grouped(rows))
    decreases |rows|
  {
    if |rows| == 0 {
      assert Dedup(RowWeekNumbers(rows)) == [];
    } else {
      var pre, r := rows[..|rows| - 1], rows[|rows| - 1];
      assert rows == pre + [r];
      GroupedShape(pre);
      var g0 := Grouped(pre);
      var i := WeekIndex(g0, r.weekNumber);
      DedupMembers(RowWeekNumbers(pre));
      if i == -1 {
        AddRowNewWeek(pre, g0, r);
      } else {
        AddRowExistingWeek(pre, g0, r, i);
      }
    }
  }

  /** After grouping, week numbers are distinct and no week is empty. */
  lemma GroupedWeeksDistinctNonEmpty(rows: seq<MealRow>)
    ensures Distinct(WeekNumbers(Grouped(rows)))
    ensures forall k :: 0 <= k < |Grouped(rows)| ==> |Grouped(rows)[k].meals| > 0
  {
    GroupedShape(rows);
    DedupMembers(RowWeekNumbers(rows));
    var g := Grouped(rows);
    forall k | 0 <= k < |g|
      ensures |g[k].meals| > 0
    {
      var n := g[k].weekNumber;
      assert n == WeekNumbers(g)[k];
      assert n in RowWeekNumbers(rows);
      var j :| 0 <= j < |rows| && rows[j].weekNumber == n;
      assert rows[j] in RowsOfWeek(rows, n);
    }
  }

  /** Sum of the week lengths: `reduce((acc, week) => acc + week.meals.length, 0)`. */
  function TotalMeals(s: seq<MealWeek>): nat
  {
    if |s| == 0 then 0 else TotalMeals(s[..|s| - 1]) + |s[|s| - 1].meals|
  }

  predicate IsCompleted(m: Meal)
  {
    m.completed
  }

  /** `reduce((acc, week) => acc + week.meals.filter(m => m.completed).length, 0)`. */
  function CompletedMeals(s: seq<MealWeek>): nat
  {
    if |s| == 0 then 0
    else CompletedMeals(s[..|s| - 1]) + Count(s[|s| - 1].meals, IsCompleted)
  }

  lemma {:induction false} CompletedMealsAtMostTotal(s: seq<MealWeek>)
    ensures CompletedMeals(s) <= TotalMeals(s)
  {
    if |s| > 0 {
      CompletedMealsAtMostTotal(s[..|s| - 1]);
    }
  }

  lemma {:induction false} TotalMealsUpdate(s: seq<MealWeek>, i: nat, w: MealWeek)
    requires i < |s|
    ensures TotalMeals(s[i := w]) + |s[i].meals| == TotalMeals(s) + |w.meals|
  {
    var t := s[i := w];
    if i < |s| - 1 {
      assert t[..|t| - 1] == s[..|s| - 1][i := w];
      TotalMealsUpdate(s[..|s| - 1], i, w);
    } else {
      assert t[..|t| - 1] == s[..|s| - 1];
    }
  }

  /** Grouping keeps every meal row. */
  lemma {:induction false} GroupedKeepsEveryRow(rows: seq<MealRow>)
    ensures TotalMeals(Grouped(rows)) == |rows|
    decreases |rows|
  {
    if |rows| > 0 {
      var pre, r := rows[..|rows| - 1], rows[|rows| - 1];
      GroupedKeepsEveryRow(pre);
      var g0 := Grouped(pre);
      var i := WeekIndex(g0, r.weekNumber);
      if i == -1 {
        var g := g0 + [MealWeek(r.weekNumber, [ToMeal(r)])];
        assert g[..|g| - 1] == g0;
      } else {
        TotalMealsUpdate(g0, i, g0[i].(meals := g0[i].meals + [ToMeal(r)]));
      }
    }
  }

  // ---------------------------------------------------------------------
  // Flattening a schedule into rows (addPlan)
  // ---------------------------------------------------------------------

  /** The row inserted for meal `m` of week `weekNumber`: the week number is
      the enclosing week's, not the meal's own, completion is forced to false
      and the meal id is not sent. */
  function InsertRowOf(planId: string, weekNumber: int, m: Meal): (row: MealInsertRow)
  {
    MealInsertRow(planId, weekNumber, m.dayOfWeek, m.mealType, m.name, m.description,
      m.calories, m.protein, m.carbs, m.fats, false)
  }

  /** `week.meals.map(...)`. */
  function WeekMealRows(planId: string, w: MealWeek): (rows: seq<MealInsertRow>)
    ensures |rows| == |w.meals|
  {
    seq(|w.meals|, j requires 0 <= j < |w.meals| => InsertRowOf(planId, w.weekNumber, w.meals[j]))
  }

  /** `mealSchedule.flatMap(week => week.meals.map(...))`. */
  function MealInsertRows(planId: string, s: seq<MealWeek>): (rows: seq<MealInsertRow>)
    ensures |rows| == TotalMeals(s)
    ensures forall i :: 0 <= i < |rows| ==> rows[i].nutritionPlanId == planId && !rows[i].completed
    ensures forall i :: 0 <= i < |rows| ==> rows[i].weekNumber in WeekNumbers(s)
  {
    if |s| == 0 then []
    else
      var pre := MealInsertRows(planId, s[..|s| - 1]);
      assert WeekNumbers(s[..|s| - 1]) == WeekNumbers(s)[..|s| - 1];
      assert WeekNumbers(s)[|s| - 1] == s[|s| - 1].weekNumber;
      pre + WeekMealRows(planId, s[|s| - 1])
  }

  /** Where each meal lands: meal `j` of week `k` is the row after all the
      meals of the earlier weeks, and it is that meal's insert row under the
      week's number. */
  lemma {:induction false} MealInsertRowAt(planId: string, s: seq<MealWeek>, k: nat, j: nat)
    requires k < |s| && j < |s[k].meals|
    ensures TotalMeals(s[..k]) + j < |MealInsertRows(planId, s)|
    ensures MealInsertRows(planId, s)[TotalMeals(s[..k]) + j] == InsertRowOf(planId, s[k].weekNumber, s[k].meals[j])
    decreases |s|
  {
    var pre := s[..|s| - 1];
    MealInsertRowsSnoc(planId, s);
    if k == |s| - 1 {
      assert s[..k] == pre;
      assert WeekMealRows(planId, s[k])[j] == InsertRowOf(planId, s[k].weekNumber, s[k].meals[j]);
    } else {
      assert pre[..k] == s[..k] && pre[k] == s[k];
      MealInsertRowAt(planId, pre, k, j);
    }
  }

  lemma MealInsertRowsSnoc(planId: string, s: seq<MealWeek>)
    requires |s| > 0
    ensures MealInsertRows(planId, s) == MealInsertRows(planId, s[..|s| - 1]) + WeekMealRows(planId, s[|s| - 1])
  {
  }

  /** The schedule with every meal's completion reset. */
  function ResetMealSchedule(s: seq<MealWeek>): (r: seq<MealWeek>)
  {
    seq(|s|, k requires 0 <= k < |s| => s[k].(meals := ResetMeals(s[k].meals)))
  }

  function ResetMeals(ms: seq<Meal>): seq<Meal>
  {
    seq(|ms|, j requires 0 <= j < |ms| => ms[j].(completed := false, completedAt := None))
  }

  /** No meal is completed or carries a completion time. */
  predicate AllPending(s: seq<MealWeek>)
  {
    forall k, j :: 0 <= k < |s| && 0 <= j < |s[k].meals| ==>
      !s[k].meals[j].completed && s[k].meals[j].completedAt.None?
  }

  /** Same weeks in the same order, each with the same meals in the same
      order, except for completion. */
  predicate SameShape(a: seq<MealWeek>, b: seq<MealWeek>)
  {
    |a| == |b| && forall k :: 0 <= k < |a| ==>
      a[k].weekNumber == b[k].weekNumber && |a[k].meals| == |b[k].meals| &&
      forall j :: 0 <= j < |a[k].meals| ==>
        a[k].meals[j].(completed := false, completedAt := None) ==
        b[k].meals[j].(completed := false, completedAt := None)
  }

  lemma ResetMealsIdempotent(ms: seq<Meal>)
    ensures ResetMeals(ResetMeals(ms)) == ResetMeals(ms)
    ensures (forall j :: 0 <= j < |ms| ==> !ms[j].completed && ms[j].completedAt.None?) ==> ResetMeals(ms) == ms
  {
  }

  /** Resetting leaves every meal pending and everything else as it was; it
      is idempotent and changes nothing in a schedule already pending. */
  lemma ResetMealScheduleMeaning(s: seq<MealWeek>)
    ensures AllPending(ResetMealSchedule(s)) && SameShape(ResetMealSchedule(s), s)
    ensures ResetMealSchedule(ResetMealSchedule(s)) == ResetMealSchedule(s)
    ensures AllPending(s) ==> ResetMealSchedule(s) == s
  {
    var r := ResetMealSchedule(s);
    forall k | 0 <= k < |s|
      ensures ResetMealSchedule(r)[k] == r[k]
      ensures AllPending(s) ==> r[k] == s[k]
    {
      ResetMealsIdempotent(s[k].meals);
    }
  }

  /** Flattening ignores completion, so a reset schedule inserts the same
      rows as the original. */
  lemma {:induction false} MealInsertRowsIgnoreCompletion(planId: string, s: seq<MealWeek>)
    ensures MealInsertRows(planId, ResetMealSchedule(s)) == MealInsertRows(planId, s)
    decreases |s|
  {
    if |s| > 0 {
      var r := ResetMealSchedule(s);
      assert r[..|r| - 1] == ResetMealSchedule(s[..|s| - 1]);
      MealInsertRowsIgnoreCompletion(planId, s[..|s| - 1]);
      assert WeekMealRows(planId, r[|r| - 1]) == WeekMealRows(planId, s[|s| - 1]);
    }
  }

  /** The inserts `addPlan` performs. */
  function AddPlanRequest(plan: NutritionPlan, newPlanId: string): (r: NutritionPlanInsert)
    ensures r.mealRows.None? <==> |plan.mealSchedule| == 0
    ensures r.header.athleteId.None? <==> !Truthy(plan.athleteId)
    ensures r.header.athleteId.Some? ==> r.header.athleteId == plan.athleteId
    ensures r.header.name == plan.name && r.header.weeks == plan.weeks && r.header.description == plan.description
    ensures r.header.coachId == plan.coachId && r.header.startDate == plan.startDate
    ensures r.mealRows.Some? ==> r.mealRows.value == MealInsertRows(newPlanId, plan.mealSchedule)
    ensures r.mealRows.Some? ==> |r.mealRows.value| == TotalMeals(plan.mealSchedule)
  {
    NutritionPlanInsert(
      NutritionPlanHeaderRow(plan.name, plan.description, plan.weeks, plan.startDate, plan.coachId,
        if Truthy(plan.athleteId) then plan.athleteId else None),
      if |plan.mealSchedule| > 0 then Some(MealInsertRows(newPlanId, plan.mealSchedule)) else None)
  }

  /** The copy `duplicatePlan` hands to `addPlan`. */
  function Duplicate(p: NutritionPlan): (c: NutritionPlan)
    ensures c.name == p.name + " (Copy)" && c.athleteId.None?
    ensures AllPending(c.mealSchedule) && SameShape(c.mealSchedule, p.mealSchedule)
    ensures c.weeks == p.weeks && c.coachId == p.coachId && c.startDate == p.startDate
    ensures c.description == p.description && c.id == p.id
  {
    ResetMealScheduleMeaning(p.mealSchedule);
    p.(name := p.name + " (Copy)", athleteId := None, mealSchedule := ResetMealSchedule(p.mealSchedule))
  }

  /** Duplicating changes nothing about the meal rows that get inserted. */
  lemma DuplicateInsertsSameRows(p: NutritionPlan, newPlanId: string)
    ensures AddPlanRequest(Duplicate(p), newPlanId).mealRows == AddPlanRequest(p, newPlanId).mealRows
    ensures AddPlanRequest(Duplicate(p), newPlanId).header.athleteId.None?
  {
    MealInsertRowsIgnoreCompletion(newPlanId, p.mealSchedule);
  }

  // ---------------------------------------------------------------------
  // The completion update (updateMealStatus)
  // ---------------------------------------------------------------------

  predicate StatusKeyMatches(row: MealRow, planId: string, weekNumber: int, mealId: string)
  {
    row.nutritionPlanId == planId && row.weekNumber == weekNumber && row.id == mealId
  }

  function SetStatus(row: MealRow, completed: bool, now: Instant): MealRow
  {
    row.(completed := completed, completedAt := if completed then Some(now) else None)
  }

  /** The `update ... eq(...)` of `updateMealStatus` applied to the table. */
  function UpdateMealStatus(rows: seq<MealRow>, planId: string, weekNumber: int, mealId: string,
                            completed: bool, now: Instant): (r: seq<MealRow>)
    ensures |r| == |rows|
    ensures forall i :: 0 <= i < |r| ==>
      r[i].(completed := rows[i].completed, completedAt := rows[i].completedAt) == rows[i]
    ensures forall i :: 0 <= i < |r| && StatusKeyMatches(rows[i], planId, weekNumber, mealId) ==>
      r[i].completed == completed && (r[i].completedAt.Some? <==> completed)
    ensures forall i :: 0 <= i < |r| && !StatusKeyMatches(rows[i], planId, weekNumber, mealId) ==>
      r[i] == rows[i]
  {
    seq(|rows|, i requires 0 <= i < |rows| =>
      if StatusKeyMatches(rows[i], planId, weekNumber, mealId) then SetStatus(rows[i], completed, now)
      else rows[i])
  }

  lemma {:induction false} RowsOfWeekUpdate(rows: seq<MealRow>, planId: string, weekNumber: int,
                                           mealId: string, completed: bool, now: Instant, n: int)
    ensures RowsOfWeek(UpdateMealStatus(rows, planId, weekNumber, mealId, completed, now), n) ==
      UpdateMealStatus(RowsOfWeek(rows, n), planId, weekNumber, mealId, completed, now)
    decreases |rows|
  {
    if |rows| > 0 {
      var pre, r := rows[..|rows| - 1], rows[|rows| - 1];
      assert rows == pre + [r];
      RowsOfWeekUpdate(pre, planId, weekNumber, mealId, completed, now, n);
      RowsOfWeekUpdateStep(pre, r, planId, weekNumber, mealId, completed, now, n);
    } else {
      assert RowsOfWeek(rows, n) == [];
    }
  }

  /** The update distributes over concatenation. */
  lemma UpdateMealStatusAppend(a: seq<MealRow>, b: seq<MealRow>, planId: string, weekNumber: int,
                               mealId: string, completed: bool, now: Instant)
    ensures UpdateMealStatus(a + b, planId, weekNumber, mealId, completed, now) ==
      UpdateMealStatus(a, planId, weekNumber, mealId, completed, now) +
      UpdateMealStatus(b, planId, weekNumber, mealId, completed, now)
  {
  }

  /** One row more behind `pre`, for which the statement already holds. */
  lemma RowsOfWeekUpdateStep(pre: seq<MealRow>, r: MealRow, planId: string, weekNumber: int,
                             mealId: string, completed: bool, now: Instant, n: int)
    requires RowsOfWeek(UpdateMealStatus(pre, planId, weekNumber, mealId, completed, now), n) ==
      UpdateMealStatus(RowsOfWeek(pre, n), planId, weekNumber, mealId, completed, now)
    ensures RowsOfWeek(UpdateMealStatus(pre + [r], planId, weekNumber, mealId, completed, now), n) ==
      UpdateMealStatus(RowsOfWeek(pre + [r], n), planId, weekNumber, mealId, completed, now)
  {
    var tail := if r.weekNumber == n then [r] else [];
    var last := UpdateMealStatus([r], planId, weekNumber, mealId, completed, now);
    UpdateMealStatusAppend(pre, [r], planId, weekNumber, mealId, completed, now);
    RowsOfWeekSnoc(UpdateMealStatus(pre, planId, weekNumber, mealId, completed, now), last[0], n);
    RowsOfWeekSnoc(pre, r, n);
    UpdateMealStatusAppend(RowsOfWeek(pre, n), tail, planId, weekNumber, mealId, completed, now);
    assert last == [last[0]] && last[0].weekNumber == r.weekNumber;
    assert UpdateMealStatus(tail, planId, weekNumber, mealId, completed, now) ==
      (if r.weekNumber == n then last else []);
  }

  /** After the update and the refetch, the plan has the same weeks, and in
      the updated week the meal with that id carries the new flag, with a
      completion time exactly when it is completed. */
  lemma MealStatusSeenAfterRefetch(rows: seq<MealRow>, planId: string, weekNumber: int,
                                   mealId: string, completed: bool, now: Instant)
    requires forall i :: 0 <= i < |rows| ==> rows[i].nutritionPlanId == planId
    ensures WeekNumbers(Grouped(UpdateMealStatus(rows, planId, weekNumber, mealId, completed, now)))
      == WeekNumbers(Grouped(rows))
    ensures forall k, j ::
      var g := Grouped(UpdateMealStatus(rows, planId, weekNumber, mealId, completed, now));
      0 <= k < |g| && g[k].weekNumber == weekNumber && 0 <= j < |g[k].meals| &&
      g[k].meals[j].id == mealId ==>
        g[k].meals[j].completed == completed && (g[k].meals[j].completedAt.Some? <==> completed)
  {
    var u := UpdateMealStatus(rows, planId, weekNumber, mealId, completed, now);
    GroupedShape(rows);
    GroupedShape(u);
    assert RowWeekNumbers(u) == RowWeekNumbers(rows);
    var g := Grouped(u);
    forall k, j | 0 <= k < |g| && g[k].weekNumber == weekNumber && 0 <= j < |g[k].meals| &&
        g[k].meals[j].id == mealId
      ensures g[k].meals[j].completed == completed && (g[k].meals[j].completedAt.Some? <==> completed)
    {
      RowsOfWeekUpdate(rows, planId, weekNumber, mealId, completed, now, weekNumber);
      var week := RowsOfWeek(u, weekNumber);
      assert g[k].meals == MealsOf(week);
      var src := RowsOfWeek(rows, weekNumber);
      assert week == UpdateMealStatus(src, planId, weekNumber, mealId, completed, now);
      assert src[j] in rows;
      assert src[j].weekNumber == weekNumber;
      assert StatusKeyMatches(src[j], planId, weekNumber, mealId);
    }
  }

  // ---------------------------------------------------------------------
  // The store
  // ---------------------------------------------------------------------

  function PlanOfRow(row: NutritionPlanRow): (p: NutritionPlan)
  {
    NutritionPlan(row.id, row.name, row.description, row.weeks, row.startDate, row.coachId, row.athleteId,
      Grouped(row.mealRows))
  }

  class NutritionPlanStore {
    var plans: seq<NutritionPlan>

    constructor ()
      ensures plans == []
    {
      plans := [];
    }

    /** `fetchPlans`: the plans are replaced by the fetched rows, each with its
        meals grouped into weeks. */
    method FetchPlans(data: seq<NutritionPlanRow>)
      modifies this
      ensures |plans| == |data|
      ensures forall i :: 0 <= i < |data| ==> plans[i] == PlanOfRow(data[i])
    {
      plans := seq(|data|, i requires 0 <= i < |data| => PlanOfRow(data[i]));
    }

    /** `deletePlan` after the database delete. */
    method DeletePlan(id: string)
      modifies this
      ensures plans == WithoutPlan(old(plans), id)
    {
      plans := WithoutPlan(plans, id);
    }

    /** `getAthleteActivePlan`: the first plan assigned to that athlete. */
    function GetAthleteActivePlan(athleteId: string): (r: Option<NutritionPlan>)
      reads this
      ensures r.None? <==> forall k :: 0 <= k < |plans| ==> plans[k].athleteId != Some(athleteId)
      ensures r.Some? ==> r.value.athleteId == Some(athleteId)
      ensures r.Some? ==> exists k :: (0 <= k < |plans| && plans[k] == r.value &&
        forall m :: 0 <= m < k ==> plans[m].athleteId != Some(athleteId))
    {
      Find(plans, AssignedTo(athleteId))
    }

    /** `duplicatePlan`: the copy handed to `addPlan`, or 'Plan not found'. */
    function DuplicatePlan(id: string): (r: Result<NutritionPlan, string>)
      reads this
      ensures r.Failure? <==> forall k :: 0 <= k < |plans| ==> plans[k].id != id
      ensures r.Failure? ==> r.error == "Plan not found"
      ensures forall k :: 0 <= k < |plans| && plans[k].id == id && (forall j :: 0 <= j < k ==> plans[j].id != id) ==>
        r == Success(Duplicate(plans[k]))
    {
      match Find(plans, (p: NutritionPlan) => p.id == id)
      case None => Failure("Plan not found")
      case Some(p) => Success(Duplicate(p))
    }
  }

  /** `plan => plan.athleteId === id`. */
  function AssignedTo(id: string): NutritionPlan -> bool
  {
    (p: NutritionPlan) => p.athleteId == Some(id)
  }

  /** `plan => plan.coachId === id`. */
  function CoachedBy(id: string): NutritionPlan -> bool
  {
    (p: NutritionPlan) => p.coachId == id
  }

  /** The local list after `deletePlan`: exactly the plans with another id,
      in their order. */
  function WithoutPlan(plans: seq<NutritionPlan>, id: string): (r: seq<NutritionPlan>)
    ensures forall k :: 0 <= k < |r| ==> r[k].id != id
    ensures forall k :: 0 <= k < |plans| && plans[k].id != id ==> plans[k] in r
    ensures IsSubsequence(r, plans)
    ensures forall x :: multiset(r)[x] == (if x.id == id then 0 else multiset(plans)[x])
  {
    var keep := (p: NutritionPlan) => p.id != id;
    FilterIsSubsequence(plans, keep);
    FilterMultiset(plans, keep);
    Filter(plans, keep)
  }
}
