/** The workout form (components/workouts/WorkoutForm.tsx): the list of
    exercises being put together, the picker that adds to it, and the record
    the form submits. The list is React state that each handler replaces. */
module WorkoutForm {
  import opened Wrappers
  import opened Seqs
  import opened Text
  import opened Catalog
  import CatalogViews

  // ---------------------------------------------------------------------
  // Values the handlers compute
  // ---------------------------------------------------------------------

  /** `workout?.exercises || []`: an array is always truthy, so an edited
      workout's list is taken as it is, even when empty. */
  function InitialSelection(workout: Option<Workout>): (r: seq<WorkoutExercise>)
    ensures workout.None? ==> r == []
    ensures workout.Some? ==> r == workout.value.exercises
  {
    match workout
    case None => []
    case Some(w) => w.exercises
  }

  /** `defaultValue={workout?.duration || 45}`: a new workout, or one whose
      duration is 0, starts the field at 45. */
  function InitialDuration(workout: Option<Workout>): (d: int)
    ensures d == 45 <==> workout.None? || workout.value.duration == 0 || workout.value.duration == 45
    ensures workout.Some? && workout.value.duration != 0 ==> d == workout.value.duration
  {
    if workout.None? || workout.value.duration == 0 then 45 else workout.value.duration
  }

  /** The entry `handleExerciseSelect` appends: the exercise's id and its
      default sets, reps, weight and rest; no duration. */
  function DefaultEntry(e: Exercise): (x: WorkoutExercise)
    ensures x.exerciseId == e.id && x.duration.None?
    ensures x.sets == e.defaultSets && x.reps == e.defaultReps && x.weight == e.defaultWeight
      && x.restBetweenSets == e.restBetweenSets
  {
    WorkoutExercise(e.id, e.defaultSets, e.defaultReps, e.defaultWeight, e.restBetweenSets, None)
  }

  /** `updatedExercises[index] = { ...updatedExercises[index], ...updates }`
      on a copy: the entry at the index merged, every other entry as it
      was. */
  function UpdatedAt(selection: seq<WorkoutExercise>, index: nat, updates: WorkoutExercisePatch)
    : (r: seq<WorkoutExercise>)
    requires index < |selection|
    ensures |r| == |selection| && r[index] == MergeWorkoutExercise(selection[index], updates)
    ensures forall i :: 0 <= i < |r| && i != index ==> r[i] == selection[i]
  {
    selection[index := MergeWorkoutExercise(selection[index], updates)]
  }

  /** `selectedExercises.map(e => e.exerciseId)`: what the picker is told
      is already chosen. */
  function SelectedIds(selection: seq<WorkoutExercise>): (ids: seq<string>)
    ensures |ids| == |selection|
    ensures forall i :: 0 <= i < |ids| ==> ids[i] == selection[i].exerciseId
  {
    seq(|selection|, i requires 0 <= i < |selection| => selection[i].exerciseId)
  }

  /** What `handleSubmit` hands on: the named inputs as strings, the
      duration through `parseInt(..., 10)` (`None` for `NaN`), and the
      current selection in order. */
  datatype WorkoutDraft = WorkoutDraft(
    name: string, description: string, workoutType: string, difficulty: string,
    duration: Option<int>, exercises: seq<WorkoutExercise>)

  datatype WorkoutFields = WorkoutFields(
    name: string, description: string, workoutType: string, difficulty: string, duration: string)

  function Submission(fields: WorkoutFields, selection: seq<WorkoutExercise>): (d: WorkoutDraft)
    ensures d.exercises == selection && d.duration == ParseInt(fields.duration)
    ensures d.name == fields.name && d.description == fields.description
      && d.workoutType == fields.workoutType && d.difficulty == fields.difficulty
  {
    WorkoutDraft(fields.name, fields.description, fields.workoutType, fields.difficulty,
      ParseInt(fields.duration), selection)
  }

  // ---------------------------------------------------------------------
  // The form's state
  // ---------------------------------------------------------------------

  class WorkoutEditor {
    var selectedExercises: seq<WorkoutExercise>
    var showExerciseSelector: bool

    constructor (workout: Option<Workout>)
      ensures selectedExercises == InitialSelection(workout) && !showExerciseSelector
    {
      selectedExercises := InitialSelection(workout);
      showExerciseSelector := false;
    }

    /** Either of the two "Add Exercise" buttons. */
    method OpenSelector()
      modifies this
      ensures showExerciseSelector && selectedExercises == old(selectedExercises)
    {
      showExerciseSelector := true;
    }

    /** The picker's close button. */
    method CloseSelector()
      modifies this
      ensures !showExerciseSelector && selectedExercises == old(selectedExercises)
    {
      showExerciseSelector := false;
    }

    /** `handleExerciseSelect`: append the default entry, close the picker. */
    method SelectExercise(e: Exercise)
      modifies this
      ensures selectedExercises == old(selectedExercises) + [DefaultEntry(e)]
      ensures !showExerciseSelector
    {
      selectedExercises := selectedExercises + [DefaultEntry(e)];
      showExerciseSelector := false;
    }

    /** `handleExerciseUpdate`: copy the list, merge into the entry at the
      index, store the copy. The index is that of a rendered entry. */
    method UpdateExercise(index: nat, updates: WorkoutExercisePatch)
      requires index < |selectedExercises|
      modifies this
      ensures selectedExercises == UpdatedAt(old(selectedExercises), index, updates)
      ensures showExerciseSelector == old(showExerciseSelector)
    {
      var current := selectedExercises;
      var copy := new WorkoutExercise[|current|](i requires 0 <= i < |current| => current[i]);
      copy[index] := MergeWorkoutExercise(copy[index], updates);
      selectedExercises := copy[..];
    }

    /** `handleExerciseRemove`: `filter((_, i) => i !== index)`. */
    method RemoveExercise(index: nat)
      modifies this
      ensures selectedExercises == RemoveAt(old(selectedExercises), index)
      ensures showExerciseSelector == old(showExerciseSelector)
    {
      selectedExercises := RemoveAt(selectedExercises, index);
    }

    /** The ids passed to the picker. */
    function SelectorExclusions(): (ids: seq<string>)
      reads this
      ensures ids == SelectedIds(selectedExercises)
    {
      SelectedIds(selectedExercises)
    }

    function Submit(fields: WorkoutFields): (d: WorkoutDraft)
      reads this
      ensures d == Submission(fields, selectedExercises)
    {
      Submission(fields, selectedExercises)
    }
  }

  // ---------------------------------------------------------------------
  // How the handlers relate
  // ---------------------------------------------------------------------

  /** Selecting adds exactly the exercise's id at the end of what the picker
      excludes, so the exercise just picked is not offered again, and
      removing the new last entry restores the list. */
  lemma SelectThenRemove(selection: seq<WorkoutExercise>, e: Exercise, library: seq<Exercise>, term: string)
    ensures SelectedIds(selection + [DefaultEntry(e)]) == SelectedIds(selection) + [e.id]
    ensures e !in CatalogViews.OfferedExercises(library, term, SelectedIds(selection + [DefaultEntry(e)]))
    ensures RemoveAt(selection + [DefaultEntry(e)], |selection|) == selection
  {
    var after := selection + [DefaultEntry(e)];
    assert SelectedIds(after) == SelectedIds(selection) + [e.id];
    assert e.id in SelectedIds(after) by {
      assert SelectedIds(after)[|selection|] == e.id;
    }
    assert after[..|selection|] == selection;
  }

  /** No exercise whose id is already in the workout is offered. */
  lemma SelectedNotOffered(selection: seq<WorkoutExercise>, library: seq<Exercise>, term: string)
    ensures forall k, i :: (0 <= k < |CatalogViews.OfferedExercises(library, term, SelectedIds(selection))|
                            && 0 <= i < |selection|) ==>
      CatalogViews.OfferedExercises(library, term, SelectedIds(selection))[k].id != selection[i].exerciseId
  {
    var ids := SelectedIds(selection);
    forall i | 0 <= i < |selection|
      ensures selection[i].exerciseId in ids
    {
      assert ids[i] == selection[i].exerciseId;
    }
  }

  /** An update that names no new exercise keeps the ids the picker
      excludes; an update with no keys changes nothing. */
  lemma UpdateKeepsExclusions(selection: seq<WorkoutExercise>, index: nat, updates: WorkoutExercisePatch)
    requires index < |selection|
    ensures updates.exerciseId.None? ==> SelectedIds(UpdatedAt(selection, index, updates)) == SelectedIds(selection)
    ensures UpdatedAt(selection, index, NoWorkoutExerciseChange) == selection
  {
    MergeWorkoutExerciseLaws(selection[index], updates);
    MergeWorkoutExerciseLaws(selection[index], NoWorkoutExerciseChange);
  }

  /** Removing an entry removes its id from the exclusions, at its place;
      the others keep their order. */
  lemma RemoveKeepsOtherIds(selection: seq<WorkoutExercise>, index: nat)
    requires index < |selection|
    ensures SelectedIds(RemoveAt(selection, index)) == RemoveAt(SelectedIds(selection), index)
  {
  }

  /** A duration typed as a decimal number is submitted as that number, and
      an untouched field submits the duration it started with. */
  lemma DurationReadsBack(n: int, workout: Option<Workout>, fields: WorkoutFields, selection: seq<WorkoutExercise>)
    ensures fields.duration == DecimalString(n) ==> Submission(fields, selection).duration == Some(n)
    ensures fields.duration == DecimalString(InitialDuration(workout)) ==>
      Submission(fields, selection).duration == Some(InitialDuration(workout))
  {
    ParseIntOfDecimalString(n);
    ParseIntOfDecimalString(InitialDuration(workout));
  }

  /** A workout opened for editing and submitted untouched carries its own
      exercises again. */
  lemma EditSubmitsSameExercises(w: Workout, fields: WorkoutFields)
    ensures Submission(fields, InitialSelection(Some(w))).exercises == w.exercises
  {
  }
}
