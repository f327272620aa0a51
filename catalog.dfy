/** The catalog records (types/index.ts) and the object-spread merge
    `{ ...x, ...updates }` with a `Partial<...>` of them.

    A patch field is `None` when the key is absent from the partial object
    and `Some(v)` when it is present; for an optional field `v` is itself an
    `Option`, so a present key holding `undefined` is `Some(None)` and clears
    the field. */
module Catalog {
  import opened Wrappers

  /** A row of the user directory. `role` is 'coach' or 'athlete'. */
  datatype User = User(id: string, username: string, role: string)

  /** An exercise. `category` and `difficulty` are the union strings of the
      declared type; `assignedTo` is the list of user ids the exercise store
      keeps, absent until the first assignment. The numeric fields are
      JavaScript numbers, held as exact reals. */
  datatype Exercise = Exercise(
    id: string, name: string, description: string, category: string, difficulty: string,
    muscleGroups: seq<string>, equipment: seq<string>, instructions: seq<string>,
    videoUrl: Option<string>, creatorId: string,
    defaultWeight: Option<real>, defaultReps: Option<real>, defaultSets: Option<real>,
    weightIncrement: Option<real>, restBetweenSets: Option<real>,
    assignedTo: Option<seq<string>>)

  /** One exercise inside a workout. */
  datatype WorkoutExercise = WorkoutExercise(
    exerciseId: string, sets: Option<real>, reps: Option<real>, weight: Option<real>,
    restBetweenSets: Option<real>, duration: Option<real>)

  /** A workout; `workoutType` is the `type` field. */
  datatype Workout = Workout(
    id: string, name: string, description: string, exercises: seq<WorkoutExercise>,
    duration: int, difficulty: string, workoutType: string)

  /** `Partial<Exercise>`. */
  datatype ExercisePatch = ExercisePatch(
    id: Option<string>, name: Option<string>, description: Option<string>,
    category: Option<string>, difficulty: Option<string>,
    muscleGroups: Option<seq<string>>, equipment: Option<seq<string>>, instructions: Option<seq<string>>,
    videoUrl: Option<Option<string>>, creatorId: Option<string>,
    defaultWeight: Option<Option<real>>, defaultReps: Option<Option<real>>, defaultSets: Option<Option<real>>,
    weightIncrement: Option<Option<real>>, restBetweenSets: Option<Option<real>>,
    assignedTo: Option<Option<seq<string>>>)

  /** `Partial<Workout>`. */
  datatype WorkoutPatch = WorkoutPatch(
    id: Option<string>, name: Option<string>, description: Option<string>,
    exercises: Option<seq<WorkoutExercise>>, duration: Option<int>,
    difficulty: Option<string>, workoutType: Option<string>)

  /** `Partial<WorkoutExercise>`. */
  datatype WorkoutExercisePatch = WorkoutExercisePatch(
    exerciseId: Option<string>, sets: Option<Option<real>>, reps: Option<Option<real>>,
    weight: Option<Option<real>>, restBetweenSets: Option<Option<real>>, duration: Option<Option<real>>)

  const NoExerciseChange := ExercisePatch(None, None, None, None, None, None, None, None,
    None, None, None, None, None, None, None, None)

  const NoWorkoutChange := WorkoutPatch(None, None, None, None, None, None, None)

  const NoWorkoutExerciseChange := WorkoutExercisePatch(None, None, None, None, None, None)

  /** `{ ...e, ...p }`: every key present in the patch replaces the field. */
  function MergeExercise(e: Exercise, p: ExercisePatch): Exercise
  {
    Exercise(p.id.GetOr(e.id), p.name.GetOr(e.name), p.description.GetOr(e.description),
      p.category.GetOr(e.category), p.difficulty.GetOr(e.difficulty),
      p.muscleGroups.GetOr(e.muscleGroups), p.equipment.GetOr(e.equipment),
      p.instructions.GetOr(e.instructions), p.videoUrl.GetOr(e.videoUrl), p.creatorId.GetOr(e.creatorId),
      p.defaultWeight.GetOr(e.defaultWeight), p.defaultReps.GetOr(e.defaultReps),
      p.defaultSets.GetOr(e.defaultSets), p.weightIncrement.GetOr(e.weightIncrement),
      p.restBetweenSets.GetOr(e.restBetweenSets), p.assignedTo.GetOr(e.assignedTo))
  }

  function MergeWorkout(w: Workout, p: WorkoutPatch): Workout
  {
    Workout(p.id.GetOr(w.id), p.name.GetOr(w.name), p.description.GetOr(w.description),
      p.exercises.GetOr(w.exercises), p.duration.GetOr(w.duration),
      p.difficulty.GetOr(w.difficulty), p.workoutType.GetOr(w.workoutType))
  }

  function MergeWorkoutExercise(x: WorkoutExercise, p: WorkoutExercisePatch): WorkoutExercise
  {
    WorkoutExercise(p.exerciseId.GetOr(x.exerciseId), p.sets.GetOr(x.sets), p.reps.GetOr(x.reps),
      p.weight.GetOr(x.weight), p.restBetweenSets.GetOr(x.restBetweenSets), p.duration.GetOr(x.duration))
  }

  /** The patch holding every field of `e`: spreading it replaces the whole
      record. */
  function ExerciseAsPatch(e: Exercise): ExercisePatch
  {
    ExercisePatch(Some(e.id), Some(e.name), Some(e.description), Some(e.category), Some(e.difficulty),
      Some(e.muscleGroups), Some(e.equipment), Some(e.instructions), Some(e.videoUrl), Some(e.creatorId),
      Some(e.defaultWeight), Some(e.defaultReps), Some(e.defaultSets), Some(e.weightIncrement),
      Some(e.restBetweenSets), Some(e.assignedTo))
  }

  /** Spreading: the empty partial changes nothing, spreading the same partial
      twice is spreading it once, a complete object replaces the target, and
      an absent key keeps the old value (shown here for `id`). */
  lemma MergeExerciseLaws(e: Exercise, p: ExercisePatch, f: Exercise)
    ensures MergeExercise(e, NoExerciseChange) == e
    ensures MergeExercise(MergeExercise(e, p), p) == MergeExercise(e, p)
    ensures MergeExercise(e, ExerciseAsPatch(f)) == f
    ensures p.id.None? ==> MergeExercise(e, p).id == e.id
    ensures p.id.Some? ==> MergeExercise(e, p).id == p.id.value
  {
  }

  lemma MergeWorkoutLaws(w: Workout, p: WorkoutPatch)
    ensures MergeWorkout(w, NoWorkoutChange) == w
    ensures MergeWorkout(MergeWorkout(w, p), p) == MergeWorkout(w, p)
    ensures p.id.None? ==> MergeWorkout(w, p).id == w.id
    ensures p.id.Some? ==> MergeWorkout(w, p).id == p.id.value
  {
  }

  lemma MergeWorkoutExerciseLaws(x: WorkoutExercise, p: WorkoutExercisePatch)
    ensures MergeWorkoutExercise(x, NoWorkoutExerciseChange) == x
    ensures MergeWorkoutExercise(MergeWorkoutExercise(x, p), p) == MergeWorkoutExercise(x, p)
    ensures p.exerciseId.None? ==> MergeWorkoutExercise(x, p).exerciseId == x.exerciseId
  {
  }
}
