/** The workout schedule editor (components/training/WorkoutScheduleEditor.tsx).

    The editor's state starts as the plan's own week list, and every handler
    copies only the outer list before changing a week object in place. So
    the weeks are objects here (`WeekEntry`), shared with whoever handed them
    in, and each handler modifies exactly one of them. Each handler is
    specified by a function on schedule values, and the properties of the
    editor are lemmas about those functions. */
module WorkoutScheduleEditor {
  import opened Wrappers
  import opened Seqs
  import opened Catalog
  import opened TrainingPlans

  /** A week of the schedule, updated in place. */
  class WeekEntry {
    const weekNumber: int
    var workouts: seq<ScheduledWorkout>

    constructor (w: WeekSchedule)
      ensures weekNumber == w.weekNumber && workouts == w.workouts
    {
      weekNumber := w.weekNumber;
      workouts := w.workouts;
    }

    function Value(): (w: WeekSchedule)
      reads this
    {
      WeekSchedule(weekNumber, workouts)
    }
  }

  // ---------------------------------------------------------------------
  // The handlers on schedule values
  // ---------------------------------------------------------------------

  /** `workouts.some((w, i) => i !== j && w.workoutId === id)`: another slot
      of the week already holds that workout. */
  predicate SlotTaken(ws: seq<ScheduledWorkout>, j: int, id: string)
  {
    exists i :: 0 <= i < |ws| && i != j && ws[i].workoutId == id
  }

  function WorkoutIds(ws: seq<ScheduledWorkout>): (ids: seq<string>)
    ensures |ids| == |ws|
  {
    seq(|ws|, i requires 0 <= i < |ws| => ws[i].workoutId)
  }

  /** No workout appears twice in the week. */
  predicate DistinctWorkouts(ws: seq<ScheduledWorkout>)
  {
    Distinct(WorkoutIds(ws))
  }

  /** `handleWorkoutChange`: a workout held by another slot of the week is
      rejected and nothing changes; otherwise only the chosen slot's workout
      id changes. */
  function ChangeWorkout(s: seq<WeekSchedule>, wi: nat, j: nat, id: string): (r: seq<WeekSchedule>)
    requires wi < |s| && j < |s[wi].workouts|
    ensures SlotTaken(s[wi].workouts, j, id) ==> r == s
    ensures !SlotTaken(s[wi].workouts, j, id) ==>
      |r| == |s| && (forall k :: 0 <= k < |s| && k != wi ==> r[k] == s[k]) &&
      r[wi].weekNumber == s[wi].weekNumber && |r[wi].workouts| == |s[wi].workouts| &&
      r[wi].workouts[j] == s[wi].workouts[j].(workoutId := id) &&
      forall m :: 0 <= m < |s[wi].workouts| && m != j ==> r[wi].workouts[m] == s[wi].workouts[m]
  {
    var ws := s[wi].workouts;
    if SlotTaken(ws, j, id) then s
    else s[wi := s[wi].(workouts := ws[j := ws[j].(workoutId := id)])]
  }

  predicate InWeek(ws: seq<ScheduledWorkout>, w: Workout)
  {
    exists i :: 0 <= i < |ws| && ws[i].workoutId == w.id
  }

  /** `workouts.find(workout => !week.workouts.some(w => w.workoutId === workout.id))`. */
  function FirstUnscheduled(catalog: seq<Workout>, ws: seq<ScheduledWorkout>): (r: Option<Workout>)
    ensures r.None? <==> forall k :: 0 <= k < |catalog| ==> InWeek(ws, catalog[k])
    ensures r.Some? ==> !InWeek(ws, r.value) && exists k :: (0 <= k < |catalog| && catalog[k] == r.value &&
      forall m :: 0 <= m < k ==> InWeek(ws, catalog[m]))
  {
    Find(catalog, (w: Workout) => !InWeek(ws, w))
  }

  /** `addWorkout`: the first catalog workout not yet in the week is appended
      on day 0, not completed; when every catalog workout is there already,
      nothing changes. */
  function AddWorkoutTo(s: seq<WeekSchedule>, wi: nat, catalog: seq<Workout>): (r: seq<WeekSchedule>)
    requires wi < |s|
    ensures |r| == |s| && forall k :: 0 <= k < |s| && k != wi ==> r[k] == s[k]
    ensures r[wi].weekNumber == s[wi].weekNumber
    ensures FirstUnscheduled(catalog, s[wi].workouts).None? ==> r == s
    ensures FirstUnscheduled(catalog, s[wi].workouts).Some? ==>
      r[wi].workouts == s[wi].workouts +
        [ScheduledWorkout(FirstUnscheduled(catalog, s[wi].workouts).value.id, 0, false, None)]
  {
    match FirstUnscheduled(catalog, s[wi].workouts)
    case None => s
    case Some(w) => s[wi := s[wi].(workouts := s[wi].workouts + [ScheduledWorkout(w.id, 0, false, None)])]
  }

  /** `removeWorkout`: `splice(j, 1)` on the week; the week itself stays, even
      when it becomes empty. */
  function RemoveWorkoutFrom(s: seq<WeekSchedule>, wi: nat, j: nat): (r: seq<WeekSchedule>)
    requires wi < |s|
    ensures |r| == |s| && forall k :: 0 <= k < |s| && k != wi ==> r[k] == s[k]
    ensures r[wi] == s[wi].(workouts := RemoveAt(s[wi].workouts, j))
  {
    s[wi := s[wi].(workouts := RemoveAt(s[wi].workouts, j))]
  }

  /** `handleDayChange`: only that slot's day changes. */
  function ChangeDay(s: seq<WeekSchedule>, wi: nat, j: nat, day: int): (r: seq<WeekSchedule>)
    requires wi < |s| && j < |s[wi].workouts|
    ensures |r| == |s| && forall k :: 0 <= k < |s| && k != wi ==> r[k] == s[k]
    ensures r[wi].weekNumber == s[wi].weekNumber && |r[wi].workouts| == |s[wi].workouts|
    ensures r[wi].workouts[j] == s[wi].workouts[j].(dayOfWeek := day)
    ensures forall m :: 0 <= m < |s[wi].workouts| && m != j ==> r[wi].workouts[m] == s[wi].workouts[m]
  {
    var ws := s[wi].workouts;
    s[wi := s[wi].(workouts := ws[j := ws[j].(dayOfWeek := day)])]
  }

  // ---------------------------------------------------------------------
  // Properties of the handlers
  // ---------------------------------------------------------------------

  /** A change is accepted exactly when no other slot holds the workout. */
  lemma ChangeAcceptedIff(s: seq<WeekSchedule>, wi: nat, j: nat, id: string)
    requires wi < |s| && j < |s[wi].workouts|
    requires s[wi].workouts[j].workoutId != id
    ensures ChangeWorkout(s, wi, j, id) == s <==> SlotTaken(s[wi].workouts, j, id)
  {
    if !SlotTaken(s[wi].workouts, j, id) {
      assert ChangeWorkout(s, wi, j, id)[wi].workouts[j].workoutId == id;
    }
  }

  /** Choosing a workout keeps a week free of duplicates. */
  lemma ChangeKeepsDistinct(s: seq<WeekSchedule>, wi: nat, j: nat, id: string)
    requires wi < |s| && j < |s[wi].workouts|
    requires DistinctWorkouts(s[wi].workouts)
    ensures DistinctWorkouts(ChangeWorkout(s, wi, j, id)[wi].workouts)
  {
    var ws := s[wi].workouts;
    if !SlotTaken(ws, j, id) {
      var nw := ChangeWorkout(s, wi, j, id)[wi].workouts;
      forall a, b | 0 <= a < b < |nw|
        ensures WorkoutIds(nw)[a] != WorkoutIds(nw)[b]
      {
        if a == j {
          assert ws[b].workoutId != id;
        } else if b == j {
          assert ws[a].workoutId != id;
        } else {
          assert WorkoutIds(ws)[a] != WorkoutIds(ws)[b];
        }
      }
    }
  }

  /** Adding a workout keeps a week free of duplicates. */
  lemma AddKeepsDistinct(s: seq<WeekSchedule>, wi: nat, catalog: seq<Workout>)
    requires wi < |s|
    requires DistinctWorkouts(s[wi].workouts)
    ensures DistinctWorkouts(AddWorkoutTo(s, wi, catalog)[wi].workouts)
  {
    var ws := s[wi].workouts;
    match FirstUnscheduled(catalog, ws)
    case None =>
    case Some(w) =>
      var nw := ws + [ScheduledWorkout(w.id, 0, false, None)];
      forall a, b | 0 <= a < b < |nw|
        ensures WorkoutIds(nw)[a] != WorkoutIds(nw)[b]
      {
        if b == |ws| {
          assert ws[a].workoutId != w.id;
        } else {
          assert WorkoutIds(ws)[a] != WorkoutIds(ws)[b];
        }
      }
  }

  /** Removing a slot keeps a week free of duplicates. */
  lemma RemoveKeepsDistinct(s: seq<WeekSchedule>, wi: nat, j: nat)
    requires wi < |s|
    requires DistinctWorkouts(s[wi].workouts)
    ensures DistinctWorkouts(RemoveWorkoutFrom(s, wi, j)[wi].workouts)
  {
    var ws := s[wi].workouts;
    var nw := RemoveAt(ws, j);
    if j < |ws| {
      forall a, b | 0 <= a < b < |nw|
        ensures WorkoutIds(nw)[a] != WorkoutIds(nw)[b]
      {
        var a', b' := if a < j then a else a + 1, if b < j then b else b + 1;
        assert WorkoutIds(ws)[a'] != WorkoutIds(ws)[b'];
      }
    }
  }

  /** Every day in the schedule is a weekday index 0..6. */
  predicate DaysInWeek(s: seq<WeekSchedule>)
  {
    forall k, m :: 0 <= k < |s| && 0 <= m < |s[k].workouts| ==> 0 <= s[k].workouts[m].dayOfWeek <= 6
  }

  /** With the day taken from the selector's options 0..6, and workouts added
      on day 0, every day stays a weekday index. */
  lemma HandlersKeepDaysInWeek(s: seq<WeekSchedule>, wi: nat, j: nat, id: string, day: int, catalog: seq<Workout>)
    requires DaysInWeek(s) && wi < |s| && 0 <= day <= 6
    ensures DaysInWeek(AddWorkoutTo(s, wi, catalog))
    ensures DaysInWeek(RemoveWorkoutFrom(s, wi, j))
    ensures j < |s[wi].workouts| ==> DaysInWeek(ChangeWorkout(s, wi, j, id)) && DaysInWeek(ChangeDay(s, wi, j, day))
  {
    WeekDaysKept(s, wi, AddWorkoutTo(s, wi, catalog));
    RemoveKeepsDays(s, wi, j);
    if j < |s[wi].workouts| {
      WeekDaysKept(s, wi, ChangeWorkout(s, wi, j, id));
      WeekDaysKept(s, wi, ChangeDay(s, wi, j, day));
    }
  }

  /** A schedule that differs from one with days in 0..6 only in week `wi`,
      where it keeps those days, has its days in 0..6. */
  lemma WeekDaysKept(s: seq<WeekSchedule>, wi: nat, r: seq<WeekSchedule>)
    requires DaysInWeek(s) && wi < |s| && |r| == |s|
    requires forall k :: 0 <= k < |s| && k != wi ==> r[k] == s[k]
    requires forall m :: 0 <= m < |r[wi].workouts| ==> 0 <= r[wi].workouts[m].dayOfWeek <= 6
    ensures DaysInWeek(r)
  {
  }

  lemma RemoveKeepsDays(s: seq<WeekSchedule>, wi: nat, j: nat)
    requires DaysInWeek(s) && wi < |s|
    ensures DaysInWeek(RemoveWorkoutFrom(s, wi, j))
  {
    var r := RemoveWorkoutFrom(s, wi, j);
    var ws := s[wi].workouts;
    forall m | 0 <= m < |r[wi].workouts|
      ensures 0 <= r[wi].workouts[m].dayOfWeek <= 6
    {
      if j < |ws| {
        assert r[wi].workouts[m] == ws[if m < j then m else m + 1];
      }
    }
    WeekDaysKept(s, wi, r);
  }

  /** No handler changes the number of weeks, any week number, or any other
      week's workouts. */
  lemma HandlersKeepOtherWeeks(s: seq<WeekSchedule>, wi: nat, j: nat, id: string, day: int, catalog: seq<Workout>)
    requires wi < |s|
    ensures WeekNumbers(AddWorkoutTo(s, wi, catalog)) == WeekNumbers(s)
    ensures WeekNumbers(RemoveWorkoutFrom(s, wi, j)) == WeekNumbers(s)
    ensures j < |s[wi].workouts| ==>
      WeekNumbers(ChangeWorkout(s, wi, j, id)) == WeekNumbers(s) && WeekNumbers(ChangeDay(s, wi, j, day)) == WeekNumbers(s)
  {
  }

  // ---------------------------------------------------------------------
  // The editor
  // ---------------------------------------------------------------------

  class Editor {
    var schedule: seq<WeekEntry>
    /** The workout catalog of the workout store. */
    const catalog: seq<Workout>

    /** The week entries are distinct objects. */
    predicate Valid()
      reads this
    {
      forall i, j :: 0 <= i < j < |schedule| ==> schedule[i] != schedule[j]
    }

    /** The schedule the editor shows and `onSave` receives. */
    function View(): (v: seq<WeekSchedule>)
      reads this, schedule
      ensures |v| == |schedule|
    {
      seq(|schedule|, i reads this, schedule requires 0 <= i < |schedule| => schedule[i].Value())
    }

    /** `useState(plan.workoutSchedule)`: the plan's own week objects. */
    constructor (weeks: seq<WeekEntry>, workouts: seq<Workout>)
      requires forall i, j :: 0 <= i < j < |weeks| ==> weeks[i] != weeks[j]
      ensures schedule == weeks && catalog == workouts
      ensures Valid()
    {
      schedule := weeks;
      catalog := workouts;
    }

    method HandleWorkoutChange(weekIndex: nat, workoutIndex: nat, workoutId: string) returns (accepted: bool)
      requires Valid() && weekIndex < |schedule| && workoutIndex < |schedule[weekIndex].workouts|
      modifies schedule[weekIndex]
      ensures Valid() && schedule == old(schedule)
      ensures accepted <==> !SlotTaken(old(View())[weekIndex].workouts, workoutIndex, workoutId)
      ensures View() == ChangeWorkout(old(View()), weekIndex, workoutIndex, workoutId)
    {
      var week := schedule[weekIndex];
      var isDuplicate := exists i :: 0 <= i < |week.workouts| && i != workoutIndex && week.workouts[i].workoutId == workoutId;
      if isDuplicate {
        accepted := false;
        return;
      }
      week.workouts := week.workouts[workoutIndex := week.workouts[workoutIndex].(workoutId := workoutId)];
      accepted := true;
      assert forall k :: 0 <= k < |schedule| && k != weekIndex ==> schedule[k] != week;
    }

    method AddWorkout(weekIndex: nat) returns (added: Option<string>)
      requires Valid() && weekIndex < |schedule|
      modifies schedule[weekIndex]
      ensures Valid() && schedule == old(schedule)
      ensures added == (match FirstUnscheduled(catalog, old(View())[weekIndex].workouts)
        case None => None case Some(w) => Some(w.id))
      ensures View() == AddWorkoutTo(old(View()), weekIndex, catalog)
    {
      var week := schedule[weekIndex];
      var availableWorkout := FirstUnscheduled(catalog, week.workouts);
      if availableWorkout.None? {
        added := None;
        return;
      }
      week.workouts := week.workouts + [ScheduledWorkout(availableWorkout.value.id, 0, false, None)];
      added := Some(availableWorkout.value.id);
      assert forall k :: 0 <= k < |schedule| && k != weekIndex ==> schedule[k] != week;
    }

    method RemoveWorkout(weekIndex: nat, workoutIndex: nat)
      requires Valid() && weekIndex < |schedule|
      modifies schedule[weekIndex]
      ensures Valid() && schedule == old(schedule)
      ensures View() == RemoveWorkoutFrom(old(View()), weekIndex, workoutIndex)
    {
      var week := schedule[weekIndex];
      week.workouts := RemoveAt(week.workouts, workoutIndex);
      assert forall k :: 0 <= k < |schedule| && k != weekIndex ==> schedule[k] != week;
    }

    method HandleDayChange(weekIndex: nat, workoutIndex: nat, day: int)
      requires Valid() && weekIndex < |schedule| && workoutIndex < |schedule[weekIndex].workouts|
      modifies schedule[weekIndex]
      ensures Valid() && schedule == old(schedule)
      ensures View() == ChangeDay(old(View()), weekIndex, workoutIndex, day)
    {
      var week := schedule[weekIndex];
      week.workouts := week.workouts[workoutIndex := week.workouts[workoutIndex].(dayOfWeek := day)];
      assert forall k :: 0 <= k < |schedule| && k != weekIndex ==> schedule[k] != week;
    }
  }
}
