/** The training-plan store (store/trainingPlans.ts): plans and their
    week-grouped workout schedules, the conversion between the flat
    `workout_schedule` rows of the database and the nested schedule, plan
    duplication, and the completion-update rule. The database calls
    themselves are not modelled; their inputs and outputs are. The nutrition
    store (store/nutritionPlans.ts) is a near copy of this file, and the
    NutritionPlans module mirrors this one member for member, so some
    members here and there share their shape. */
module TrainingPlans {
  import opened Wrappers
  import opened Seqs
  import opened Time

  datatype ScheduledWorkout = ScheduledWorkout(
    workoutId: string, dayOfWeek: int, completed: bool, completedAt: Option<Instant>)

  datatype WeekSchedule = WeekSchedule(weekNumber: int, workouts: seq<ScheduledWorkout>)

  datatype TrainingPlan = TrainingPlan(
    id: string, name: string, description: Option<string>, weeks: int, startDate: Instant,
    coachId: string, athleteId: Option<string>, workoutSchedule: seq<WeekSchedule>)

  /** A `workout_schedule` row. Rows inserted by `addPlan` carry no
      `completed_at`, which the database then holds as null. */
  datatype WorkoutRow = WorkoutRow(
    trainingPlanId: string, weekNumber: int, workoutId: string, dayOfWeek: int,
    completed: bool, completedAt: Option<Instant>)

  /** A `training_plans` row joined with its `workout_schedule` rows. */
  datatype PlanRow = PlanRow(
    id: string, name: string, description: Option<string>, weeks: int, startDate: Instant,
    coachId: string, athleteId: Option<string>, scheduleRows: seq<WorkoutRow>)

  /** The header row `addPlan` inserts; the database assigns its id. */
  datatype PlanHeaderRow = PlanHeaderRow(
    name: string, description: Option<string>, weeks: int, startDate: Instant,
    coachId: string, athleteId: Option<string>)

  /** What `addPlan` sends: the header, and the schedule rows when the
      schedule is non-empty (`None`: no schedule insert is made). */
  datatype PlanInsert = PlanInsert(header: PlanHeaderRow, scheduleRows: Option<seq<WorkoutRow>>)

  // ---------------------------------------------------------------------
  // Grouping the fetched rows into weeks (fetchPlans)
  // ---------------------------------------------------------------------

  function ToScheduled(row: WorkoutRow): (w: ScheduledWorkout)
  {
    ScheduledWorkout(row.workoutId, row.dayOfWeek, row.completed, row.completedAt)
  }

  /** One scheduled workout per row, copying exactly the row's workout id,
      day, completion flag and completion time. */
  function ScheduledOf(rows: seq<WorkoutRow>): (ws: seq<ScheduledWorkout>)
    ensures |ws| == |rows|
    ensures forall i :: 0 <= i < |rows| ==>
      ws[i].workoutId == rows[i].workoutId && ws[i].dayOfWeek == rows[i].dayOfWeek
      && ws[i].completed == rows[i].completed && ws[i].completedAt == rows[i].completedAt
  {
    seq(|rows|, i requires 0 <= i < |rows| => ToScheduled(rows[i]))
  }

  function WeekNumbers(s: seq<WeekSchedule>): (ns: seq<int>)
    ensures |ns| == |s|
  {
    seq(|s|, i requires 0 <= i < |s| => s[i].weekNumber)
  }

  function RowWeekNumbers(rows: seq<WorkoutRow>): (ns: seq<int>)
    ensures |ns| == |rows|
  {
    seq(|rows|, i requires 0 <= i < |rows| => rows[i].weekNumber)
  }

  /** The rows of week `n`, in row order. */
  function RowsOfWeek(rows: seq<WorkoutRow>, n: int): seq<WorkoutRow>
  {
    Filter(rows, (r: WorkoutRow) => r.weekNumber == n)
  }

  /** `acc.findIndex(w => w.weekNumber === n)`. */
  function WeekIndex(acc: seq<WeekSchedule>, n: int): (i: int)
    ensures -1 <= i < |acc|
    ensures i == -1 <==> n !in WeekNumbers(acc)
    ensures 0 <= i ==> acc[i].weekNumber == n && forall k :: 0 <= k < i ==> acc[k].weekNumber != n
  {
    var i := FindIndex(acc, (w: WeekSchedule) => w.weekNumber == n);
    assert i == -1 ==> forall k :: 0 <= k < |acc| ==> WeekNumbers(acc)[k] != n;
    assert i != -1 ==> WeekNumbers(acc)[i] == n;
    i
  }

  /** One step of the `reduce`: a row whose week is already present is
      appended to that week, otherwise a new week holding just this row is
      appended. */
  function AddRow(acc: seq<WeekSchedule>, row: WorkoutRow): seq<WeekSchedule>
  {
    var i := WeekIndex(acc, row.weekNumber);
    if i == -1 then acc + [WeekSchedule(row.weekNumber, [ToScheduled(row)])]
    else acc[i := acc[i].(workouts := acc[i].workouts + [ToScheduled(row)])]
  }

  function GroupInto(acc: seq<WeekSchedule>, rows: seq<WorkoutRow>): seq<WeekSchedule>
    decreases |rows|
  {
    if |rows| == 0 then acc
    else AddRow(GroupInto(acc, rows[..|rows| - 1]), rows[|rows| - 1])
  }

  /** The schedule `fetchPlans` builds from a plan's rows. */
  function Grouped(rows: seq<WorkoutRow>): seq<WeekSchedule>
  {
    GroupInto([], rows)
  }

  /** The `reduce` itself, written as the loop it performs. */
  method GroupSchedule(rows: seq<WorkoutRow>) returns (acc: seq<WeekSchedule>)
    ensures acc == Grouped(rows)
  {
    acc := [];
    var k := 0;
    while k < |rows|
      invariant 0 <= k <= |rows|
      invariant acc == GroupInto([], rows[..k])
    {
      var row := rows[k];
      var weekIndex := WeekIndex(acc, row.weekNumber);
      var workoutData := ScheduledWorkout(row.workoutId, row.dayOfWeek, row.completed, row.completedAt);
      if weekIndex == -1 {
        acc := acc + [WeekSchedule(row.weekNumber, [workoutData])];
      } else {
        acc := acc[weekIndex := acc[weekIndex].(workouts := acc[weekIndex].workouts + [workoutData])];
      }
      assert rows[..k + 1][..k] == rows[..k];
      k := k + 1;
    }
    assert rows[..k] == rows;
  }

  lemma RowsOfWeekSnoc(rows: seq<WorkoutRow>, r: WorkoutRow, n: int)
    ensures RowsOfWeek(rows + [r], n) == RowsOfWeek(rows, n) + (if r.weekNumber == n then [r] else [])
  {
    FilterAppend(rows, [r], (x: WorkoutRow) => x.weekNumber == n);
    assert [r][1..] == [];
  }

  lemma RowWeekNumbersSnoc(rows: seq<WorkoutRow>, r: WorkoutRow)
    ensures RowWeekNumbers(rows + [r]) == RowWeekNumbers(rows) + [r.weekNumber]
  {
  }

  lemma NoRowOfWeek(rows: seq<WorkoutRow>, n: int)
    requires n !in RowWeekNumbers(rows)
    ensures RowsOfWeek(rows, n) == []
  {
    assert forall j :: 0 <= j < |rows| ==> RowWeekNumbers(rows)[j] == rows[j].weekNumber;
    FilterNone(rows, (x: WorkoutRow) => x.weekNumber == n);
  }

  /** `g` is the grouping of `rows`: its weeks are the distinct week numbers
      of the rows in first-occurrence order, and each week holds, in row
      order, the workouts of the rows with its number. */
  predicate GroupsRows(rows: seq<WorkoutRow>, g: seq<WeekSchedule>)
  {
    WeekNumbers(g) == Dedup(RowWeekNumbers(rows)) &&
    forall k :: 0 <= k < |g| ==> g[k].workouts == ScheduledOf(RowsOfWeek(rows, g[k].weekNumber))
  }

  lemma AddRowNewWeek(pre: seq<WorkoutRow>, g0: seq<WeekSchedule>, r: WorkoutRow)
    requires GroupsRows(pre, g0)
    requires r.weekNumber !in RowWeekNumbers(pre)
    ensures GroupsRows(pre + [r], g0 + [WeekSchedule(r.weekNumber, [ToScheduled(r)])])
  {
    var n := r.weekNumber;
    var g := g0 + [WeekSchedule(n, [ToScheduled(r)])];
    RowWeekNumbersSnoc(pre, r);
    DedupSnoc(RowWeekNumbers(pre), n);
    assert WeekNumbers(g) == WeekNumbers(g0) + [n];
    DedupMembers(RowWeekNumbers(pre));
    forall k | 0 <= k < |g|
      ensures g[k].workouts == ScheduledOf(RowsOfWeek(pre + [r], g[k].weekNumber))
    {
      NewWeekEntry(pre, g0, r, k);
    }
  }

  /** Week `k` after the row opened a new week at the end. */
  lemma NewWeekEntry(pre: seq<WorkoutRow>, g0: seq<WeekSchedule>, r: WorkoutRow, k: nat)
    requires GroupsRows(pre, g0) && forall x :: x in Dedup(RowWeekNumbers(pre)) <==> x in RowWeekNumbers(pre)
    requires r.weekNumber !in RowWeekNumbers(pre) && k <= |g0|
    ensures var g := g0 + [WeekSchedule(r.weekNumber, [ToScheduled(r)])];
      g[k].workouts == ScheduledOf(RowsOfWeek(pre + [r], g[k].weekNumber))
  {
    var n := r.weekNumber;
    var g := g0 + [WeekSchedule(n, [ToScheduled(r)])];
    RowsOfWeekSnoc(pre, r, g[k].weekNumber);
    if k < |g0| {
      assert g[k] == g0[k];
      assert WeekNumbers(g0)[k] == g0[k].weekNumber;
      assert g0[k].weekNumber in RowWeekNumbers(pre);
    } else {
      NoRowOfWeek(pre, n);
      assert RowsOfWeek(pre + [r], n) == [r];
    }
  }

  lemma AddRowExistingWeek(pre: seq<WorkoutRow>, g0: seq<WeekSchedule>, r: WorkoutRow, i: nat)
    requires GroupsRows(pre, g0)
    requires i < |g0| && g0[i].weekNumber == r.weekNumber
    ensures GroupsRows(pre + [r], g0[i := g0[i].(workouts := g0[i].workouts + [ToScheduled(r)])])
  {
    var g := g0[i := g0[i].(workouts := g0[i].workouts + [ToScheduled(r)])];
    ExistingWeekNumbers(pre, g0, r, i);
    forall k | 0 <= k < |g|
      ensures g[k].workouts == ScheduledOf(RowsOfWeek(pre + [r], g[k].weekNumber))
    {
      ExistingWeekEntry(pre, g0, r, i, k);
    }
  }

  /** Adding a row of a week already present keeps the week numbers. */
  lemma ExistingWeekNumbers(pre: seq<WorkoutRow>, g0: seq<WeekSchedule>, r: WorkoutRow, i: nat)
    requires GroupsRows(pre, g0)
    requires i < |g0| && g0[i].weekNumber == r.weekNumber
    ensures Distinct(WeekNumbers(g0))
    ensures WeekNumbers(g0[i := g0[i].(workouts := g0[i].workouts + [ToScheduled(r)])])
      == Dedup(RowWeekNumbers(pre + [r]))
  {
    var n := r.weekNumber;
    RowWeekNumbersSnoc(pre, r);
    DedupSnoc(RowWeekNumbers(pre), n);
    DedupMembers(RowWeekNumbers(pre));
    assert WeekNumbers(g0)[i] == n;
  }

  /** Week `k` after adding the row to week `i`. */
  lemma ExistingWeekEntry(pre: seq<WorkoutRow>, g0: seq<WeekSchedule>, r: WorkoutRow, i: nat, k: nat)
    requires GroupsRows(pre, g0) && Distinct(WeekNumbers(g0))
    requires i < |g0| && g0[i].weekNumber == r.weekNumber && k < |g0|
    ensures var g := g0[i := g0[i].(workouts := g0[i].workouts + [ToScheduled(r)])];
      g[k].workouts == ScheduledOf(RowsOfWeek(pre + [r], g[k].weekNumber))
  {
    RowsOfWeekSnoc(pre, r, g0[k].weekNumber);
    if k != i {
      assert WeekNumbers(g0)[k] != WeekNumbers(g0)[i];
    } else {
      var n := r.weekNumber;
      assert ScheduledOf(RowsOfWeek(pre, n) + [r]) == ScheduledOf(RowsOfWeek(pre, n)) + [ToScheduled(r)];
    }
  }

  /** What grouping computes: the weeks appear in the order their number
      first occurs in the rows, and each week holds, in row order, exactly
      the workouts of the rows with its number. */
  lemma {:induction false} GroupedShape(rows: seq<WorkoutRow>)
    ensures GroupsRows(rows, Grouped(rows))
    decreases |rows|
  {
    if |rows| == 0 {
      assert Dedup(RowWeekNumbers(rows)) == [];
    } else {
      var pre, r := rows[..|rows| - 1], rows[|rows| - 1];
      assert rows == pre + [r];
      GroupedShape(pre);
      var g0 := Grouped(pre);
      var i := WeekIndex(g0, r.weekNumber);
      DedupMembers(RowWeekNumbers(pre));
      if i == -1 {
        AddRowNewWeek(pre, g0, r);
      } else {
        AddRowExistingWeek(pre, g0, r, i);
      }
    }
  }

  /** After grouping, week numbers are distinct and no week is empty. */
  lemma GroupedWeeksDistinctNonEmpty(rows: seq<WorkoutRow>)
    ensures Distinct(WeekNumbers(Grouped(rows)))
    ensures forall k :: 0 <= k < |Grouped(rows)| ==> |Grouped(rows)[k].workouts| > 0
  {
    GroupedShape(rows);
    DedupMembers(RowWeekNumbers(rows));
    var g := Grouped(rows);
    forall k | 0 <= k < |g|
      ensures |g[k].workouts| > 0
    {
      var n := g[k].weekNumber;
      assert n == WeekNumbers(g)[k];
      assert n in RowWeekNumbers(rows);
      var j :| 0 <= j < |rows| && rows[j].weekNumber == n;
      assert rows[j] in RowsOfWeek(rows, n);
    }
  }

  /** Sum of the week lengths: `reduce((acc, week) => acc + week.workouts.length, 0)`. */
  function TotalWorkouts(s: seq<WeekSchedule>): nat
  {
    if |s| == 0 then 0 else TotalWorkouts(s[..|s| - 1]) + |s[|s| - 1].workouts|
  }

  predicate IsCompleted(w: ScheduledWorkout)
  {
    w.completed
  }

  /** Number of completed workouts:
      `reduce((acc, week) => acc + week.workouts.filter(w => w.completed).length, 0)`. */
  function CompletedWorkouts(s: seq<WeekSchedule>): nat
  {
    if |s| == 0 then 0
    else CompletedWorkouts(s[..|s| - 1]) + Count(s[|s| - 1].workouts, IsCompleted)
  }

  lemma {:induction false} CompletedAtMostTotal(s: seq<WeekSchedule>)
    ensures CompletedWorkouts(s) <= TotalWorkouts(s)
  {
    if |s| > 0 {
      CompletedAtMostTotal(s[..|s| - 1]);
    }
  }

  lemma {:induction false} TotalWorkoutsUpdate(s: seq<WeekSchedule>, i: nat, w: WeekSchedule)
    requires i < |s|
    ensures TotalWorkouts(s[i := w]) + |s[i].workouts| == TotalWorkouts(s) + |w.workouts|
  {
    var t := s[i := w];
    if i < |s| - 1 {
      assert t[..|t| - 1] == s[..|s| - 1][i := w];
      TotalWorkoutsUpdate(s[..|s| - 1], i, w);
    } else {
      assert t[..|t| - 1] == s[..|s| - 1];
    }
  }

  /** Grouping keeps every row: the grouped weeks hold as many workouts as
      there were rows. */
  lemma {:induction false} GroupedKeepsEveryRow(rows: seq<WorkoutRow>)
    ensures TotalWorkouts(Grouped(rows)) == |rows|
    decreases |rows|
  {
    if |rows| > 0 {
      var pre, r := rows[..|rows| - 1], rows[|rows| - 1];
      GroupedKeepsEveryRow(pre);
      var g0 := Grouped(pre);
      var i := WeekIndex(g0, r.weekNumber);
      if i == -1 {
        var g := g0 + [WeekSchedule(r.weekNumber, [ToScheduled(r)])];
        assert g[..|g| - 1] == g0;
      } else {
        TotalWorkoutsUpdate(g0, i, g0[i].(workouts := g0[i].workouts + [ToScheduled(r)]));
      }
    }
  }

  // ---------------------------------------------------------------------
  // Flattening a schedule into rows (addPlan)
  // ---------------------------------------------------------------------

  /** The rows of one week: `week.workouts.map(...)`, each tagged with the new
      plan id and the enclosing week's number, and never completed. */
  function WeekRows(planId: string, w: WeekSchedule): (rows: seq<WorkoutRow>)
    ensures |rows| == |w.workouts|
  {
    seq(|w.workouts|, j requires 0 <= j < |w.workouts| =>
      WorkoutRow(planId, w.weekNumber, w.workouts[j].workoutId, w.workouts[j].dayOfWeek, false, None))
  }

  /** `workoutSchedule.flatMap(week => week.workouts.map(...))`. */
  function ScheduleRows(planId: string, s: seq<WeekSchedule>): (rows: seq<WorkoutRow>)
    ensures |rows| == TotalWorkouts(s)
    ensures forall i :: 0 <= i < |rows| ==>
      rows[i].trainingPlanId == planId && !rows[i].completed && rows[i].completedAt.None?
    ensures forall i :: 0 <= i < |rows| ==> rows[i].weekNumber in WeekNumbers(s)
  {
    if |s| == 0 then []
    else
      var pre := ScheduleRows(planId, s[..|s| - 1]);
      assert WeekNumbers(s[..|s| - 1]) == WeekNumbers(s)[..|s| - 1];
      assert WeekNumbers(s)[|s| - 1] == s[|s| - 1].weekNumber;
      pre + WeekRows(planId, s[|s| - 1])
  }

  /** Where each workout lands: workout `j` of week `k` comes after all the
      workouts of the earlier weeks, as a pending row under that week's
      number. */
  lemma {:induction false} ScheduleRowAt(planId: string, s: seq<WeekSchedule>, k: nat, j: nat)
    requires k < |s| && j < |s[k].workouts|
    ensures TotalWorkouts(s[..k]) + j < |ScheduleRows(planId, s)|
    ensures ScheduleRows(planId, s)[TotalWorkouts(s[..k]) + j] ==
      WorkoutRow(planId, s[k].weekNumber, s[k].workouts[j].workoutId, s[k].workouts[j].dayOfWeek, false, None)
    decreases |s|
  {
    var pre := s[..|s| - 1];
    ScheduleRowsSnoc(planId, s);
    if k == |s| - 1 {
      assert s[..k] == pre;
      assert WeekRows(planId, s[k])[j] ==
        WorkoutRow(planId, s[k].weekNumber, s[k].workouts[j].workoutId, s[k].workouts[j].dayOfWeek, false, None);
    } else {
      assert pre[..k] == s[..k] && pre[k] == s[k];
      ScheduleRowAt(planId, pre, k, j);
    }
  }

  lemma ScheduleRowsSnoc(planId: string, s: seq<WeekSchedule>)
    requires |s| > 0
    ensures ScheduleRows(planId, s) == ScheduleRows(planId, s[..|s| - 1]) + WeekRows(planId, s[|s| - 1])
  {
  }

  /** The schedule with every workout's completion reset. */
  function ResetSchedule(s: seq<WeekSchedule>): (r: seq<WeekSchedule>)
  {
    seq(|s|, k requires 0 <= k < |s| => s[k].(workouts := ResetWorkouts(s[k].workouts)))
  }

  function ResetWorkouts(ws: seq<ScheduledWorkout>): seq<ScheduledWorkout>
  {
    seq(|ws|, j requires 0 <= j < |ws| => ws[j].(completed := false, completedAt := None))
  }

  /** No workout in the schedule is completed or carries a completion time. */
  predicate AllPending(s: seq<WeekSchedule>)
  {
    forall k, j :: 0 <= k < |s| && 0 <= j < |s[k].workouts| ==>
      !s[k].workouts[j].completed && s[k].workouts[j].completedAt.None?
  }

  /** Same weeks in the same order, each with the same workouts (id and day)
      in the same order; completion may differ. */
  predicate SameShape(a: seq<WeekSchedule>, b: seq<WeekSchedule>)
  {
    |a| == |b| && forall k :: 0 <= k < |a| ==>
      a[k].weekNumber == b[k].weekNumber && |a[k].workouts| == |b[k].workouts| &&
      forall j :: 0 <= j < |a[k].workouts| ==>
        a[k].workouts[j].workoutId == b[k].workouts[j].workoutId &&
        a[k].workouts[j].dayOfWeek == b[k].workouts[j].dayOfWeek
  }

  lemma ResetWorkoutsIdempotent(ws: seq<ScheduledWorkout>)
    ensures ResetWorkouts(ResetWorkouts(ws)) == ResetWorkouts(ws)
    ensures (forall j :: 0 <= j < |ws| ==> !ws[j].completed && ws[j].completedAt.None?) ==> ResetWorkouts(ws) == ws
  {
  }

  /** Resetting leaves every workout pending and the shape as it was; it is
      idempotent and changes nothing in a schedule that is already pending. */
  lemma ResetScheduleMeaning(s: seq<WeekSchedule>)
    ensures AllPending(ResetSchedule(s)) && SameShape(ResetSchedule(s), s)
    ensures ResetSchedule(ResetSchedule(s)) == ResetSchedule(s)
    ensures AllPending(s) ==> ResetSchedule(s) == s
  {
    var r := ResetSchedule(s);
    forall k | 0 <= k < |s|
      ensures ResetSchedule(r)[k] == r[k]
      ensures AllPending(s) ==> r[k] == s[k]
    {
      ResetWorkoutsIdempotent(s[k].workouts);
    }
  }

  /** Flattening ignores completion, so a reset schedule is inserted as the
      same rows as the original. */
  lemma {:induction false} ScheduleRowsIgnoreCompletion(planId: string, s: seq<WeekSchedule>)
    ensures ScheduleRows(planId, ResetSchedule(s)) == ScheduleRows(planId, s)
    decreases |s|
  {
    if |s| > 0 {
      var r := ResetSchedule(s);
      assert r[..|r| - 1] == ResetSchedule(s[..|s| - 1]);
      ScheduleRowsIgnoreCompletion(planId, s[..|s| - 1]);
      assert WeekRows(planId, r[|r| - 1]) == WeekRows(planId, s[|s| - 1]);
    }
  }

  lemma {:induction false} GroupIntoAppend(acc: seq<WeekSchedule>, xs: seq<WorkoutRow>, ys: seq<WorkoutRow>)
    ensures GroupInto(acc, xs + ys) == GroupInto(GroupInto(acc, xs), ys)
    decreases |ys|
  {
    if |ys| == 0 {
      assert xs + ys == xs;
    } else {
      assert (xs + ys)[..|xs + ys| - 1] == xs + ys[..|ys| - 1];
      GroupIntoAppend(acc, xs, ys[..|ys| - 1]);
    }
  }

  /** Rows that all belong to a week not yet present become one new week at
      the end. */
  lemma {:induction false} GroupIntoNewWeek(acc: seq<WeekSchedule>, n: int, ys: seq<WorkoutRow>)
    requires n !in WeekNumbers(acc)
    requires |ys| > 0 && forall i :: 0 <= i < |ys| ==> ys[i].weekNumber == n
    ensures GroupInto(acc, ys) == acc + [WeekSchedule(n, ScheduledOf(ys))]
    decreases |ys|
  {
    var pre := ys[..|ys| - 1];
    if |ys| == 1 {
      assert pre == [];
      assert ScheduledOf(ys) == [ToScheduled(ys[0])];
    } else {
      GroupIntoNewWeek(acc, n, pre);
      WeekIndexOfLast(acc, n, ScheduledOf(pre));
      ScheduledOfSnoc(ys);
    }
  }

  /** A week appended behind weeks of other numbers is found at the end. */
  lemma WeekIndexOfLast(acc: seq<WeekSchedule>, n: int, ws: seq<ScheduledWorkout>)
    requires n !in WeekNumbers(acc)
    ensures WeekIndex(acc + [WeekSchedule(n, ws)], n) == |acc|
  {
    var g := acc + [WeekSchedule(n, ws)];
    assert WeekNumbers(g)[|acc|] == n;
    assert forall k :: 0 <= k < |acc| ==> g[k].weekNumber == WeekNumbers(acc)[k];
  }

  lemma ScheduledOfSnoc(ys: seq<WorkoutRow>)
    requires |ys| > 0
    ensures ScheduledOf(ys) == ScheduledOf(ys[..|ys| - 1]) + [ToScheduled(ys[|ys| - 1])]
  {
  }

  predicate NoEmptyWeek(s: seq<WeekSchedule>)
  {
    forall k :: 0 <= k < |s| ==> |s[k].workouts| > 0
  }

  /** Persisting a schedule and reading it back: when week numbers are
      distinct and every week has a workout, grouping the inserted rows gives
      the same schedule with every completion reset. */
  lemma {:induction false} GroupedScheduleRows(planId: string, s: seq<WeekSchedule>)
    requires Distinct(WeekNumbers(s)) && NoEmptyWeek(s)
    ensures Grouped(ScheduleRows(planId, s)) == ResetSchedule(s)
    decreases |s|
  {
    if |s| > 0 {
      var pre, w := s[..|s| - 1], s[|s| - 1];
      LastWeekIsNew(s);
      GroupedScheduleRows(planId, pre);
      var ys := WeekRows(planId, w);
      GroupIntoAppend([], ScheduleRows(planId, pre), ys);
      GroupIntoNewWeek(ResetSchedule(pre), w.weekNumber, ys);
      ResetScheduleSnoc(planId, s);
      ScheduleRowsSnoc(planId, s);
    }
  }

  predicate HasWorkouts(w: WeekSchedule)
  {
    |w.workouts| > 0
  }

  /** The weeks that insert at least one row, in order. */
  function NonEmptyWeeks(s: seq<WeekSchedule>): seq<WeekSchedule>
  {
    Filter(s, HasWorkouts)
  }

  /** Persisting a schedule that may hold empty weeks (the form pads its
      schedule with them) and reading it back: an empty week inserts no row,
      so it is gone after the refetch, and the other weeks come back in order
      with every completion reset. */
  lemma GroupedScheduleRowsDropsEmpty(planId: string, s: seq<WeekSchedule>)
    requires Distinct(WeekNumbers(s))
    ensures Grouped(ScheduleRows(planId, s)) == ResetSchedule(NonEmptyWeeks(s))
    ensures |Grouped(ScheduleRows(planId, s))| == |NonEmptyWeeks(s)|
  {
    ScheduleRowsSkipEmpty(planId, s);
    NonEmptyWeeksDistinct(s);
    GroupedScheduleRows(planId, NonEmptyWeeks(s));
  }

  lemma NonEmptyWeeksSnoc(s: seq<WeekSchedule>)
    requires |s| > 0
    ensures NonEmptyWeeks(s) ==
      NonEmptyWeeks(s[..|s| - 1]) + (if HasWorkouts(s[|s| - 1]) then [s[|s| - 1]] else [])
  {
    var pre, w := s[..|s| - 1], s[|s| - 1];
    FrontLast(s);
    FilterAppend(pre, [w], HasWorkouts);
    assert [w][1..] == [];
  }

  /** Leaving out the empty weeks does not change the inserted rows. */
  lemma {:induction false} ScheduleRowsSkipEmpty(planId: string, s: seq<WeekSchedule>)
    ensures ScheduleRows(planId, NonEmptyWeeks(s)) == ScheduleRows(planId, s)
    decreases |s|
  {
    if |s| == 0 {
      assert NonEmptyWeeks(s) == [];
    } else {
      var pre, w := s[..|s| - 1], s[|s| - 1];
      var f := NonEmptyWeeks(pre);
      NonEmptyWeeksSnoc(s);
      ScheduleRowsSkipEmpty(planId, pre);
      ScheduleRowsSnoc(planId, s);
      if HasWorkouts(w) {
        ScheduleRowsAppendWeek(planId, f, w);
        assert NonEmptyWeeks(s) == f + [w];
      } else {
        assert NonEmptyWeeks(s) == f;
        assert WeekRows(planId, w) == [];
      }
    }
  }

  lemma ScheduleRowsAppendWeek(planId: string, s: seq<WeekSchedule>, w: WeekSchedule)
    ensures ScheduleRows(planId, s + [w]) == ScheduleRows(planId, s) + WeekRows(planId, w)
  {
    var g := s + [w];
    assert g[..|g| - 1] == s;
    ScheduleRowsSnoc(planId, g);
  }

  /** The non-empty weeks of a schedule with distinct week numbers have
      distinct week numbers; none of them is empty. */
  lemma {:induction false} NonEmptyWeeksDistinct(s: seq<WeekSchedule>)
    requires Distinct(WeekNumbers(s))
    ensures Distinct(WeekNumbers(NonEmptyWeeks(s))) && NoEmptyWeek(NonEmptyWeeks(s))
    decreases |s|
  {
    if |s| == 0 {
      assert NonEmptyWeeks(s) == [];
    } else {
      var pre, w := s[..|s| - 1], s[|s| - 1];
      var f := NonEmptyWeeks(pre);
      NonEmptyWeeksSnoc(s);
      assert WeekNumbers(pre) == WeekNumbers(s)[..|s| - 1];
      NonEmptyWeeksDistinct(pre);
      if HasWorkouts(w) {
        LastWeekNumberIsNew(s);
        FilteredWeekNumbers(pre, HasWorkouts);
        DistinctSnocWeek(f, w);
        assert NonEmptyWeeks(s) == f + [w];
      } else {
        assert NonEmptyWeeks(s) == f;
      }
    }
  }

  lemma LastWeekNumberIsNew(s: seq<WeekSchedule>)
    requires |s| > 0 && Distinct(WeekNumbers(s))
    ensures s[|s| - 1].weekNumber !in WeekNumbers(s[..|s| - 1])
  {
    var pre := s[..|s| - 1];
    assert WeekNumbers(pre) == WeekNumbers(s)[..|s| - 1];
    assert forall k :: 0 <= k < |pre| ==> WeekNumbers(s)[k] != WeekNumbers(s)[|s| - 1];
  }

  /** The week numbers of a filtered schedule come from the schedule. */
  lemma FilteredWeekNumbers(s: seq<WeekSchedule>, p: WeekSchedule -> bool)
    ensures forall n :: n in WeekNumbers(Filter(s, p)) ==> n in WeekNumbers(s)
  {
    var f := Filter(s, p);
    forall n | n in WeekNumbers(f)
      ensures n in WeekNumbers(s)
    {
      var k :| 0 <= k < |f| && WeekNumbers(f)[k] == n;
      assert f[k] in s;
      var m :| 0 <= m < |s| && s[m] == f[k];
      assert WeekNumbers(s)[m] == n;
    }
  }

  lemma DistinctSnocWeek(f: seq<WeekSchedule>, w: WeekSchedule)
    requires Distinct(WeekNumbers(f)) && NoEmptyWeek(f) && w.weekNumber !in WeekNumbers(f) && HasWorkouts(w)
    ensures Distinct(WeekNumbers(f + [w])) && NoEmptyWeek(f + [w])
  {
    assert WeekNumbers(f + [w]) == WeekNumbers(f) + [w.weekNumber];
  }

  /** The last week's number is not among the earlier ones, even after a
      reset; the earlier weeks keep both properties. */
  lemma LastWeekIsNew(s: seq<WeekSchedule>)
    requires |s| > 0 && Distinct(WeekNumbers(s)) && NoEmptyWeek(s)
    ensures Distinct(WeekNumbers(s[..|s| - 1])) && NoEmptyWeek(s[..|s| - 1])
    ensures s[|s| - 1].weekNumber !in WeekNumbers(ResetSchedule(s[..|s| - 1]))
  {
    var pre := s[..|s| - 1];
    assert WeekNumbers(pre) == WeekNumbers(s)[..|s| - 1];
    assert WeekNumbers(ResetSchedule(pre)) == WeekNumbers(pre);
    assert forall k :: 0 <= k < |pre| ==> WeekNumbers(s)[k] != WeekNumbers(s)[|s| - 1];
  }

  /** The last week's rows come back as its reset workouts. */
  lemma ResetScheduleSnoc(planId: string, s: seq<WeekSchedule>)
    requires |s| > 0
    ensures ResetSchedule(s) == ResetSchedule(s[..|s| - 1]) +
      [WeekSchedule(s[|s| - 1].weekNumber, ScheduledOf(WeekRows(planId, s[|s| - 1])))]
  {
    var w := s[|s| - 1];
    assert ScheduledOf(WeekRows(planId, w)) == ResetWorkouts(w.workouts);
  }

  /** The inserts `addPlan` performs: a header with a falsy athlete id sent as
      null, and, only for a non-empty schedule, its rows under the id the
      database gave the header. */
  function AddPlanRequest(plan: TrainingPlan, newPlanId: string): (r: PlanInsert)
    ensures r.scheduleRows.None? <==> |plan.workoutSchedule| == 0
    ensures r.header.athleteId.None? <==> !Truthy(plan.athleteId)
    ensures r.header.athleteId.Some? ==> r.header.athleteId == plan.athleteId
    ensures r.header.name == plan.name && r.header.weeks == plan.weeks && r.header.description == plan.description
    ensures r.header.coachId == plan.coachId && r.header.startDate == plan.startDate
    ensures r.scheduleRows.Some? ==> r.scheduleRows.value == ScheduleRows(newPlanId, plan.workoutSchedule)
    ensures r.scheduleRows.Some? ==> |r.scheduleRows.value| == TotalWorkouts(plan.workoutSchedule)
  {
    PlanInsert(
      PlanHeaderRow(plan.name, plan.description, plan.weeks, plan.startDate, plan.coachId,
        if Truthy(plan.athleteId) then plan.athleteId else None),
      if |plan.workoutSchedule| > 0 then Some(ScheduleRows(newPlanId, plan.workoutSchedule)) else None)
  }

  /** The copy `duplicatePlan` hands to `addPlan`. */
  function Duplicate(p: TrainingPlan): (c: TrainingPlan)
    ensures c.name == p.name + " (Copy)" && c.athleteId.None?
    ensures AllPending(c.workoutSchedule) && SameShape(c.workoutSchedule, p.workoutSchedule)
    ensures c.weeks == p.weeks && c.coachId == p.coachId && c.startDate == p.startDate
    ensures c.description == p.description && c.id == p.id
  {
    ResetScheduleMeaning(p.workoutSchedule);
    p.(name := p.name + " (Copy)", athleteId := None, workoutSchedule := ResetSchedule(p.workoutSchedule))
  }

  /** Duplicating changes nothing about the rows that get inserted: the copy's
      schedule rows are the original's. */
  lemma DuplicateInsertsSameRows(p: TrainingPlan, newPlanId: string)
    ensures AddPlanRequest(Duplicate(p), newPlanId).scheduleRows == AddPlanRequest(p, newPlanId).scheduleRows
    ensures AddPlanRequest(Duplicate(p), newPlanId).header.athleteId.None?
  {
    ScheduleRowsIgnoreCompletion(newPlanId, p.workoutSchedule);
  }

  // ---------------------------------------------------------------------
  // The completion update (updateWorkoutStatus)
  // ---------------------------------------------------------------------

  predicate StatusKeyMatches(row: WorkoutRow, planId: string, weekNumber: int, workoutId: string)
  {
    row.trainingPlanId == planId && row.weekNumber == weekNumber && row.workoutId == workoutId
  }

  function SetStatus(row: WorkoutRow, completed: bool, now: Instant): WorkoutRow
  {
    row.(completed := completed, completedAt := if completed then Some(now) else None)
  }

  /** The `update ... eq(...)` of `updateWorkoutStatus` applied to the table:
      every row matching the key gets the new flag, stamped with `now` when
      completed and cleared otherwise; every other row is left alone. */
  function UpdateWorkoutStatus(rows: seq<WorkoutRow>, planId: string, weekNumber: int, workoutId: string,
                               completed: bool, now: Instant): (r: seq<WorkoutRow>)
    ensures |r| == |rows|
    ensures forall i :: 0 <= i < |r| ==>
      r[i].trainingPlanId == rows[i].trainingPlanId && r[i].weekNumber == rows[i].weekNumber &&
      r[i].workoutId == rows[i].workoutId && r[i].dayOfWeek == rows[i].dayOfWeek
    ensures forall i :: 0 <= i < |r| && StatusKeyMatches(rows[i], planId, weekNumber, workoutId) ==>
      r[i].completed == completed && (r[i].completedAt.Some? <==> completed)
    ensures forall i :: 0 <= i < |r| && !StatusKeyMatches(rows[i], planId, weekNumber, workoutId) ==>
      r[i] == rows[i]
  {
    seq(|rows|, i requires 0 <= i < |rows| =>
      if StatusKeyMatches(rows[i], planId, weekNumber, workoutId) then SetStatus(rows[i], completed, now)
      else rows[i])
  }

  lemma {:induction false} RowsOfWeekUpdate(rows: seq<WorkoutRow>, planId: string, weekNumber: int,
                                           workoutId: string, completed: bool, now: Instant, n: int)
    ensures RowsOfWeek(UpdateWorkoutStatus(rows, planId, weekNumber, workoutId, completed, now), n) ==
      UpdateWorkoutStatus(RowsOfWeek(rows, n), planId, weekNumber, workoutId, completed, now)
    decreases |rows|
  {
    if |rows| > 0 {
      var pre, r := rows[..|rows| - 1], rows[|rows| - 1];
      assert rows == pre + [r];
      RowsOfWeekUpdate(pre, planId, weekNumber, workoutId, completed, now, n);
      RowsOfWeekUpdateStep(pre, r, planId, weekNumber, workoutId, completed, now, n);
    } else {
      assert RowsOfWeek(rows, n) == [];
    }
  }

  /** The update distributes over concatenation. */
  lemma UpdateWorkoutStatusAppend(a: seq<WorkoutRow>, b: seq<WorkoutRow>, planId: string, weekNumber: int,
                                  workoutId: string, completed: bool, now: Instant)
    ensures UpdateWorkoutStatus(a + b, planId, weekNumber, workoutId, completed, now) ==
      UpdateWorkoutStatus(a, planId, weekNumber, workoutId, completed, now) +
      UpdateWorkoutStatus(b, planId, weekNumber, workoutId, completed, now)
  {
  }

  /** One row more behind `pre`, for which the statement already holds. */
  lemma RowsOfWeekUpdateStep(pre: seq<WorkoutRow>, r: WorkoutRow, planId: string, weekNumber: int,
                             workoutId: string, completed: bool, now: Instant, n: int)
    requires RowsOfWeek(UpdateWorkoutStatus(pre, planId, weekNumber, workoutId, completed, now), n) ==
      UpdateWorkoutStatus(RowsOfWeek(pre, n), planId, weekNumber, workoutId, completed, now)
    ensures RowsOfWeek(UpdateWorkoutStatus(pre + [r], planId, weekNumber, workoutId, completed, now), n) ==
      UpdateWorkoutStatus(RowsOfWeek(pre + [r], n), planId, weekNumber, workoutId, completed, now)
  {
    var tail := if r.weekNumber == n then [r] else [];
    var last := UpdateWorkoutStatus([r], planId, weekNumber, workoutId, completed, now);
    UpdateWorkoutStatusAppend(pre, [r], planId, weekNumber, workoutId, completed, now);
    RowsOfWeekSnoc(UpdateWorkoutStatus(pre, planId, weekNumber, workoutId, completed, now), last[0], n);
    RowsOfWeekSnoc(pre, r, n);
    UpdateWorkoutStatusAppend(RowsOfWeek(pre, n), tail, planId, weekNumber, workoutId, completed, now);
    assert last == [last[0]] && last[0].weekNumber == r.weekNumber;
    assert UpdateWorkoutStatus(tail, planId, weekNumber, workoutId, completed, now) ==
      (if r.weekNumber == n then last else []);
  }

  /** After the update and the refetch, the plan has the same weeks as before,
      and in the updated week every workout with that id carries the new
      flag, with a completion time exactly when it is completed. */
  lemma StatusUpdateSeenAfterRefetch(rows: seq<WorkoutRow>, planId: string, weekNumber: int,
                                     workoutId: string, completed: bool, now: Instant)
    requires forall i :: 0 <= i < |rows| ==> rows[i].trainingPlanId == planId
    ensures WeekNumbers(Grouped(UpdateWorkoutStatus(rows, planId, weekNumber, workoutId, completed, now)))
      == WeekNumbers(Grouped(rows))
    ensures forall k, j ::
      var g := Grouped(UpdateWorkoutStatus(rows, planId, weekNumber, workoutId, completed, now));
      0 <= k < |g| && g[k].weekNumber == weekNumber && 0 <= j < |g[k].workouts| &&
      g[k].workouts[j].workoutId == workoutId ==>
        g[k].workouts[j].completed == completed && (g[k].workouts[j].completedAt.Some? <==> completed)
  {
    var u := UpdateWorkoutStatus(rows, planId, weekNumber, workoutId, completed, now);
    GroupedShape(rows);
    GroupedShape(u);
    assert RowWeekNumbers(u) == RowWeekNumbers(rows);
    var g := Grouped(u);
    forall k, j | 0 <= k < |g| && g[k].weekNumber == weekNumber && 0 <= j < |g[k].workouts| &&
        g[k].workouts[j].workoutId == workoutId
      ensures g[k].workouts[j].completed == completed && (g[k].workouts[j].completedAt.Some? <==> completed)
    {
      RowsOfWeekUpdate(rows, planId, weekNumber, workoutId, completed, now, weekNumber);
      var week := RowsOfWeek(u, weekNumber);
      assert g[k].workouts == ScheduledOf(week);
      var src := RowsOfWeek(rows, weekNumber);
      assert week == UpdateWorkoutStatus(src, planId, weekNumber, workoutId, completed, now);
      assert src[j] in rows;
      assert src[j].weekNumber == weekNumber;
      assert StatusKeyMatches(src[j], planId, weekNumber, workoutId);
    }
  }

  // ---------------------------------------------------------------------
  // The store
  // ---------------------------------------------------------------------

  function PlanOfRow(row: PlanRow): (p: TrainingPlan)
  {
    TrainingPlan(row.id, row.name, row.description, row.weeks, row.startDate, row.coachId, row.athleteId,
      Grouped(row.scheduleRows))
  }

  class TrainingPlanStore {
    var plans: seq<TrainingPlan>

    constructor ()
      ensures plans == []
    {
      plans := [];
    }

    /** `fetchPlans`: the plans are replaced by the fetched rows, each with its
        schedule grouped into weeks. */
    method FetchPlans(data: seq<PlanRow>)
      modifies this
      ensures |plans| == |data|
      ensures forall i :: 0 <= i < |data| ==> plans[i] == PlanOfRow(data[i])
    {
      plans := seq(|data|, i requires 0 <= i < |data| => PlanOfRow(data[i]));
    }

    /** `deletePlan` after the database delete: every plan with that id is
        dropped, the others keep their order. */
    method DeletePlan(id: string)
      modifies this
      ensures plans == WithoutPlan(old(plans), id)
    {
      plans := WithoutPlan(plans, id);
    }

    /** `getAthleteActivePlan`: the first plan assigned to that athlete. */
    function GetAthleteActivePlan(athleteId: string): (r: Option<TrainingPlan>)
      reads this
      ensures r.None? <==> forall k :: 0 <= k < |plans| ==> plans[k].athleteId != Some(athleteId)
      ensures r.Some? ==> r.value.athleteId == Some(athleteId)
      ensures r.Some? ==> exists k :: (0 <= k < |plans| && plans[k] == r.value &&
        forall m :: 0 <= m < k ==> plans[m].athleteId != Some(athleteId))
    {
      Find(plans, AssignedTo(athleteId))
    }

    /** `duplicatePlan`: the copy handed to `addPlan`, or the error
        'Plan not found' when no plan has that id. */
    function DuplicatePlan(id: string): (r: Result<TrainingPlan, string>)
      reads this
      ensures r.Failure? <==> forall k :: 0 <= k < |plans| ==> plans[k].id != id
      ensures r.Failure? ==> r.error == "Plan not found"
      ensures forall k :: 0 <= k < |plans| && plans[k].id == id && (forall j :: 0 <= j < k ==> plans[j].id != id) ==>
        r == Success(Duplicate(plans[k]))
    {
      match Find(plans, (p: TrainingPlan) => p.id == id)
      case None => Failure("Plan not found")
      case Some(p) => Success(Duplicate(p))
    }
  }

  /** `plan => plan.athleteId === id`. */
  function AssignedTo(id: string): TrainingPlan -> bool
  {
    (p: TrainingPlan) => p.athleteId == Some(id)
  }

  /** `plan => plan.coachId === id`. */
  function CoachedBy(id: string): TrainingPlan -> bool
  {
    (p: TrainingPlan) => p.coachId == id
  }

  /** The local list after `deletePlan`: exactly the plans with another id,
      in their order. */
  function WithoutPlan(plans: seq<TrainingPlan>, id: string): (r: seq<TrainingPlan>)
    ensures forall k :: 0 <= k < |r| ==> r[k].id != id
    ensures forall k :: 0 <= k < |plans| && plans[k].id != id ==> plans[k] in r
    ensures IsSubsequence(r, plans)
    ensures forall x :: multiset(r)[x] == (if x.id == id then 0 else multiset(plans)[x])
  {
    var keep := (p: TrainingPlan) => p.id != id;
    FilterIsSubsequence(plans, keep);
    FilterMultiset(plans, keep);
    Filter(plans, keep)
  }
}
