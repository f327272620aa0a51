/** The catalog's cards and lists: the exercise card
    (components/exercises/ExerciseCard.tsx), the workout card
    (components/workouts/WorkoutCard.tsx), the two searchable lists
    (components/exercises/ExerciseList.tsx, components/workouts/WorkoutList.tsx)
    and the exercise picker of the workout form
    (components/workouts/ExerciseSelector.tsx). The two cards duplicate
    their item in the same way, so `WorkoutCopyDraft` has the shape of
    `ExerciseCopyDraft`. */
module CatalogViews {
  import opened Wrappers
  import opened Seqs
  import opened Text
  import opened Catalog
  import ExerciseStore
  import WorkoutStore

  // ---------------------------------------------------------------------
  // The exercise card
  // ---------------------------------------------------------------------

  /** `exercise.assignedTo?.includes(user.id)`: an absent list includes no
      one. */
  function IsAssigned(assignedTo: Option<seq<string>>): User -> bool
  {
    (u: User) => assignedTo.Some? && u.id in assignedTo.value
  }

  /** `assignedUsers`: the directory users whose id is in the exercise's
      assignment list, in directory order; none when the list is absent. */
  function AssignedUsers(users: seq<User>, e: Exercise): (r: seq<User>)
    ensures IsSubsequence(r, users)
    ensures e.assignedTo.None? ==> r == []
    ensures forall k :: 0 <= k < |r| ==> e.assignedTo.Some? && r[k].id in e.assignedTo.value
    ensures forall k :: 0 <= k < |users| && e.assignedTo.Some? && users[k].id in e.assignedTo.value ==> users[k] in r
  {
    var keep := IsAssigned(e.assignedTo);
    FilterIsSubsequence(users, keep);
    if e.assignedTo.None? then
      FilterNone(users, keep);
      Filter(users, keep)
    else
      Filter(users, keep)
  }

  /** `handleDuplicate`: every field but the id spread into a new draft,
      with ' (Copy)' appended to the name. The id is dropped, so the draft's
      is irrelevant; this one keeps the original's. */
  function ExerciseCopyDraft(e: Exercise): (d: Exercise)
    ensures d.name == e.name + " (Copy)" && d.(name := e.name) == e
  {
    e.(name := e.name + " (Copy)")
  }

  /** What the store appends for a duplicated exercise: the fresh id, the
      copied name, the store's creator '2', and every other field, the
      assignment list included, as on the original. */
  lemma DuplicatedExercise(e: Exercise, freshId: string)
    ensures var c := ExerciseStore.NewExercise(ExerciseCopyDraft(e), freshId);
      c.id == freshId && c.name == e.name + " (Copy)" && c.creatorId == "2"
      && c.assignedTo == e.assignedTo
      && c.(id := e.id, name := e.name, creatorId := e.creatorId) == e
  {
  }

  /** Duplicating into a library whose ids are all different from the fresh
      one makes the copy retrievable under that id, and under the original's
      id the lookup still finds what it found before. */
  lemma DuplicateThenLookUp(list: seq<Exercise>, e: Exercise, freshId: string)
    requires forall k :: 0 <= k < |list| ==> list[k].id != freshId
    requires freshId != e.id
    ensures var after := list + [ExerciseStore.NewExercise(ExerciseCopyDraft(e), freshId)];
      ExerciseStore.FirstWithId(after, freshId) == Some(ExerciseStore.NewExercise(ExerciseCopyDraft(e), freshId))
      && (ExerciseStore.FirstWithId(list, e.id).Some? ==>
            ExerciseStore.FirstWithId(after, e.id) == ExerciseStore.FirstWithId(list, e.id))
  {
    ExerciseStore.GetAfterAdd(list, ExerciseCopyDraft(e), freshId);
    var after := list + [ExerciseStore.NewExercise(ExerciseCopyDraft(e), freshId)];
    var before := ExerciseStore.FirstWithId(list, e.id);
    if before.Some? {
      var k :| 0 <= k < |list| && list[k] == before.value && before.value.id == e.id
        && forall m :: 0 <= m < k ==> list[m].id != e.id;
      ExerciseStore.FirstWithIdAt(after, e.id, k);
    }
  }

  /** The card's delete button removes the card's own exercise and every other
      entry with its id, and nothing else. */
  lemma DeleteFromCard(list: seq<Exercise>, e: Exercise)
    requires e in list
    ensures var r := ExerciseStore.RemoveEntries(list, e.id);
      e !in r && ExerciseStore.FirstWithId(r, e.id).None?
      && forall k :: 0 <= k < |list| && list[k].id != e.id ==> list[k] in r
  {
  }

  // ---------------------------------------------------------------------
  // The workout card
  // ---------------------------------------------------------------------

  /** `handleDuplicate` on a workout. */
  function WorkoutCopyDraft(w: Workout): (d: Workout)
    ensures d.name == w.name + " (Copy)" && d.(name := w.name) == w
  {
    w.(name := w.name + " (Copy)")
  }

  /** `{workout.exercises.length} exercises`. */
  function ExerciseCount(w: Workout): (n: nat)
    ensures n == 0 <==> w.exercises == []
  {
    |w.exercises|
  }

  /** What `addWorkout` appends for a duplicated workout: the fresh id, the
      copied name, and the same exercises in the same order, the same
      duration, difficulty and type, so the card shows the same count. */
  lemma DuplicatedWorkout(w: Workout, freshId: string)
    ensures var c := WorkoutCopyDraft(w).(id := freshId);
      c.id == freshId && c.name == w.name + " (Copy)"
      && c.exercises == w.exercises && c.duration == w.duration
      && c.difficulty == w.difficulty && c.workoutType == w.workoutType
      && c.description == w.description && ExerciseCount(c) == ExerciseCount(w)
  {
  }

  /** The card's edit form merges into its own workout: the merged entry
      keeps the card's id when the submission carries none, and every entry
      of another id is left as it was. */
  lemma EditFromCard(list: seq<Workout>, w: Workout, p: WorkoutPatch)
    requires p.id.None?
    ensures var r := WorkoutStore.UpdateEntries(list, w.id, p);
      |r| == |list|
      && (forall k :: 0 <= k < |list| && list[k].id == w.id ==> r[k].id == w.id && r[k] == MergeWorkout(list[k], p))
      && (forall k :: 0 <= k < |list| && list[k].id != w.id ==> r[k] == list[k])
  {
  }

  // ---------------------------------------------------------------------
  // The searchable lists
  // ---------------------------------------------------------------------

  /** `name` or `description` contains the term, both lower-cased. */
  predicate MatchesText(name: string, description: string, term: string)
  {
    Includes(ToLower(name), ToLower(term)) || Includes(ToLower(description), ToLower(term))
  }

  /** `!filter || value === filter`: an empty dropdown passes everything. */
  predicate FilterPasses(filter: string, value: string)
  {
    filter == "" || value == filter
  }

  predicate ExerciseMatches(e: Exercise, term: string, category: string, difficulty: string)
  {
    MatchesText(e.name, e.description, term) && FilterPasses(category, e.category)
    && FilterPasses(difficulty, e.difficulty)
  }

  function ExerciseMatcher(term: string, category: string, difficulty: string): Exercise -> bool
  {
    (e: Exercise) => ExerciseMatches(e, term, category, difficulty)
  }

  /** `filteredExercises`: exactly the exercises that match, in order; the
      header's "n of m" never has n above m. */
  function FilteredExercises(exercises: seq<Exercise>, term: string, category: string, difficulty: string)
    : (r: seq<Exercise>)
    ensures IsSubsequence(r, exercises) && |r| <= |exercises|
    ensures forall k :: 0 <= k < |r| ==> ExerciseMatches(r[k], term, category, difficulty)
    ensures forall k :: 0 <= k < |exercises| && ExerciseMatches(exercises[k], term, category, difficulty) ==>
      exercises[k] in r
  {
    FilterIsSubsequence(exercises, ExerciseMatcher(term, category, difficulty));
    Filter(exercises, ExerciseMatcher(term, category, difficulty))
  }

  /** An empty search with both dropdowns on "all" lists every exercise. */
  lemma NoFiltersListsAllExercises(exercises: seq<Exercise>)
    ensures FilteredExercises(exercises, "", "", "") == exercises
  {
    forall k | 0 <= k < |exercises|
      ensures ExerciseMatcher("", "", "")(exercises[k])
    {
      IncludesEmpty(ToLower(exercises[k].name));
    }
    FilterAll(exercises, ExerciseMatcher("", "", ""));
  }

  /** A category filter keeps only exercises of that category. */
  lemma CategoryFilterSelects(exercises: seq<Exercise>, term: string, category: string, difficulty: string)
    requires category != ""
    ensures forall k :: 0 <= k < |FilteredExercises(exercises, term, category, difficulty)| ==>
      FilteredExercises(exercises, term, category, difficulty)[k].category == category
  {
  }

  predicate WorkoutMatches(w: Workout, term: string, workoutType: string, difficulty: string)
  {
    MatchesText(w.name, w.description, term) && FilterPasses(workoutType, w.workoutType)
    && FilterPasses(difficulty, w.difficulty)
  }

  function WorkoutMatcher(term: string, workoutType: string, difficulty: string): Workout -> bool
  {
    (w: Workout) => WorkoutMatches(w, term, workoutType, difficulty)
  }

  /** `filteredWorkouts` over the store's workouts. */
  function FilteredWorkouts(workouts: seq<Workout>, term: string, workoutType: string, difficulty: string)
    : (r: seq<Workout>)
    ensures IsSubsequence(r, workouts) && |r| <= |workouts|
    ensures forall k :: 0 <= k < |r| ==> WorkoutMatches(r[k], term, workoutType, difficulty)
    ensures forall k :: 0 <= k < |workouts| && WorkoutMatches(workouts[k], term, workoutType, difficulty) ==>
      workouts[k] in r
  {
    FilterIsSubsequence(workouts, WorkoutMatcher(term, workoutType, difficulty));
    Filter(workouts, WorkoutMatcher(term, workoutType, difficulty))
  }

  lemma NoFiltersListsAllWorkouts(workouts: seq<Workout>)
    ensures FilteredWorkouts(workouts, "", "", "") == workouts
  {
    forall k | 0 <= k < |workouts|
      ensures WorkoutMatcher("", "", "")(workouts[k])
    {
      IncludesEmpty(ToLower(workouts[k].name));
    }
    FilterAll(workouts, WorkoutMatcher("", "", ""));
  }

  // ---------------------------------------------------------------------
  // The exercise picker of the workout form
  // ---------------------------------------------------------------------

  predicate Offered(e: Exercise, term: string, selected: seq<string>)
  {
    Includes(ToLower(e.name), ToLower(term)) && e.id !in selected
  }

  function OfferedIn(term: string, selected: seq<string>): Exercise -> bool
  {
    (e: Exercise) => Offered(e, term, selected)
  }

  /** `filteredExercises`: the library exercises whose name contains the term
      and whose id is not among the ids already in the workout, in library
      order. */
  function OfferedExercises(exercises: seq<Exercise>, term: string, selected: seq<string>): (r: seq<Exercise>)
    ensures IsSubsequence(r, exercises)
    ensures forall k :: 0 <= k < |r| ==> Includes(ToLower(r[k].name), ToLower(term)) && r[k].id !in selected
    ensures forall k :: (0 <= k < |exercises| && Includes(ToLower(exercises[k].name), ToLower(term))
                         && exercises[k].id !in selected) ==> exercises[k] in r
  {
    FilterIsSubsequence(exercises, OfferedIn(term, selected));
    Filter(exercises, OfferedIn(term, selected))
  }

  /** With no search and nothing selected the whole library is offered. */
  lemma EverythingOfferedAtFirst(exercises: seq<Exercise>)
    ensures OfferedExercises(exercises, "", []) == exercises
  {
    forall k | 0 <= k < |exercises|
      ensures OfferedIn("", [])(exercises[k])
    {
      IncludesEmpty(ToLower(exercises[k].name));
    }
    FilterAll(exercises, OfferedIn("", []));
  }

  /** Selecting more never offers more: whatever is offered against a larger
      selection is also offered against the smaller one. */
  lemma OfferedShrinksWithSelection(exercises: seq<Exercise>, term: string, selected: seq<string>, more: seq<string>)
    ensures forall k :: 0 <= k < |OfferedExercises(exercises, term, selected + more)| ==>
      OfferedExercises(exercises, term, selected + more)[k] in OfferedExercises(exercises, term, selected)
  {
    var big := OfferedExercises(exercises, term, selected + more);
    forall k | 0 <= k < |big|
      ensures big[k] in OfferedExercises(exercises, term, selected)
    {
      var x := big[k];
      assert x.id !in selected + more;
      assert x in exercises;
    }
  }
}
