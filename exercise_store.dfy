/** The exercise library store (store/exercises.ts): an in-memory list of
    exercises replaced wholesale by each action. Fresh ids
    (`crypto.randomUUID()`) are parameters; the sample and template data are
    constructor and method parameters. */
module ExerciseStore {
  import opened Wrappers
  import opened Seqs
  import opened Catalog

  /** The exercise `addExercise` appends for `draft`: the passed id and
      creator are replaced by the fresh id and the creator '2'. */
  function NewExercise(draft: Exercise, freshId: string): (e: Exercise)
    ensures e.id == freshId && e.creatorId == "2"
    ensures e.(id := draft.id, creatorId := draft.creatorId) == draft
  {
    draft.(id := freshId, creatorId := "2")
  }

  function WithCreator(list: seq<Exercise>, creatorId: string): (r: seq<Exercise>)
    ensures |r| == |list|
    ensures forall i :: 0 <= i < |r| ==> r[i] == list[i].(creatorId := creatorId)
  {
    seq(|list|, i requires 0 <= i < |list| => list[i].(creatorId := creatorId))
  }

  predicate HasId(e: Exercise, id: string)
  {
    e.id == id
  }

  /** `exercises.find(e => e.id === id)`. */
  function FirstWithId(list: seq<Exercise>, id: string): (r: Option<Exercise>)
    ensures r.None? <==> forall k :: 0 <= k < |list| ==> list[k].id != id
    ensures r.Some? ==> exists k :: (0 <= k < |list| && list[k] == r.value && r.value.id == id &&
      forall m :: 0 <= m < k ==> list[m].id != id)
  {
    Find(list, (e: Exercise) => HasId(e, id))
  }

  /** `updateExercise`: every entry with the id gets the fields merged in. */
  function UpdateEntries(list: seq<Exercise>, id: string, p: ExercisePatch): (r: seq<Exercise>)
    ensures |r| == |list|
    ensures forall i :: 0 <= i < |r| && list[i].id == id ==> r[i] == MergeExercise(list[i], p)
    ensures forall i :: 0 <= i < |r| && list[i].id != id ==> r[i] == list[i]
  {
    seq(|list|, i requires 0 <= i < |list| => if list[i].id == id then MergeExercise(list[i], p) else list[i])
  }

  /** `deleteExercise`: every entry with the id is gone, the rest stay in order. */
  function RemoveEntries(list: seq<Exercise>, id: string): (r: seq<Exercise>)
    ensures forall k :: 0 <= k < |r| ==> r[k].id != id
    ensures forall k :: 0 <= k < |list| && list[k].id != id ==> list[k] in r
    ensures IsSubsequence(r, list)
    ensures forall x :: multiset(r)[x] == (if x.id == id then 0 else multiset(list)[x])
  {
    var keep := (e: Exercise) => e.id != id;
    FilterIsSubsequence(list, keep);
    FilterMultiset(list, keep);
    Filter(list, keep)
  }

  /** The assignment list after adding `userId`: appended, no dedup. */
  function WithUser(current: Option<seq<string>>, userId: string): (r: Option<seq<string>>)
    ensures r.Some? && r.value == current.GetOr([]) + [userId]
  {
    Some(current.GetOr([]) + [userId])
  }

  /** The assignment list after removing `userId`: every occurrence goes, an
      absent list stays absent. */
  function WithoutUser(current: Option<seq<string>>, userId: string): (r: Option<seq<string>>)
    ensures r.None? <==> current.None?
    ensures r.Some? ==> userId !in r.value && IsSubsequence(r.value, current.value)
    ensures r.Some? ==> forall k :: 0 <= k < |current.value| && current.value[k] != userId ==>
      current.value[k] in r.value
    ensures r.Some? ==> forall x :: multiset(r.value)[x] == (if x == userId then 0 else multiset(current.value)[x])
  {
    match current
    case None => None
    case Some(ids) =>
      FilterIsSubsequence(ids, Other(userId));
      FilterMultiset(ids, Other(userId));
      Some(Filter(ids, Other(userId)))
  }

  /** `uid => uid !== userId`. */
  function Other(userId: string): string -> bool
  {
    (u: string) => u != userId
  }

  function AssignUser(list: seq<Exercise>, id: string, userId: string): (r: seq<Exercise>)
    ensures |r| == |list|
    ensures forall i :: 0 <= i < |r| && list[i].id == id ==>
      r[i] == list[i].(assignedTo := WithUser(list[i].assignedTo, userId))
    ensures forall i :: 0 <= i < |r| && list[i].id != id ==> r[i] == list[i]
  {
    seq(|list|, i requires 0 <= i < |list| =>
      if list[i].id == id then list[i].(assignedTo := WithUser(list[i].assignedTo, userId)) else list[i])
  }

  function UnassignUser(list: seq<Exercise>, id: string, userId: string): (r: seq<Exercise>)
    ensures |r| == |list|
    ensures forall i :: 0 <= i < |r| && list[i].id == id ==>
      r[i] == list[i].(assignedTo := WithoutUser(list[i].assignedTo, userId))
    ensures forall i :: 0 <= i < |r| && list[i].id != id ==> r[i] == list[i]
  {
    seq(|list|, i requires 0 <= i < |list| =>
      if list[i].id == id then list[i].(assignedTo := WithoutUser(list[i].assignedTo, userId)) else list[i])
  }

  /** `importTemplate`: the templates appended in order, each under its fresh
      id and creator '1'. */
  function ImportTemplates(list: seq<Exercise>, templates: seq<Exercise>, freshIds: seq<string>): (r: seq<Exercise>)
    requires |freshIds| == |templates|
    ensures |r| == |list| + |templates| && r[..|list|] == list
    ensures forall k :: 0 <= k < |templates| ==>
      r[|list| + k] == templates[k].(id := freshIds[k], creatorId := "1")
  {
    list + seq(|templates|, k requires 0 <= k < |templates| => templates[k].(id := freshIds[k], creatorId := "1"))
  }

  /** `getMyExercises`: exactly the entries made by `userId`, in order. */
  function CreatedBy(list: seq<Exercise>, userId: string): (r: seq<Exercise>)
    ensures forall k :: 0 <= k < |r| ==> r[k].creatorId == userId
    ensures forall k :: 0 <= k < |list| && list[k].creatorId == userId ==> list[k] in r
    ensures IsSubsequence(r, list)
  {
    var mine := (e: Exercise) => e.creatorId == userId;
    FilterIsSubsequence(list, mine);
    Filter(list, mine)
  }

  class ExerciseLibrary {
    var exercises: seq<Exercise>
    /** `initialExercises`: the sample exercises, all credited to creator '1'. */
    const initialExercises: seq<Exercise>

    constructor (sample: seq<Exercise>)
      ensures initialExercises == WithCreator(sample, "1")
      ensures exercises == initialExercises
    {
      initialExercises := WithCreator(sample, "1");
      exercises := WithCreator(sample, "1");
    }

    method AddExercise(draft: Exercise, freshId: string)
      modifies this
      ensures exercises == old(exercises) + [NewExercise(draft, freshId)]
    {
      exercises := exercises + [NewExercise(draft, freshId)];
    }

    method UpdateExercise(id: string, p: ExercisePatch)
      modifies this
      ensures exercises == UpdateEntries(old(exercises), id, p)
    {
      exercises := UpdateEntries(exercises, id, p);
    }

    method DeleteExercise(id: string)
      modifies this
      ensures exercises == RemoveEntries(old(exercises), id)
    {
      exercises := RemoveEntries(exercises, id);
    }

    function GetExercise(id: string): (r: Option<Exercise>)
      reads this
      ensures r == FirstWithId(exercises, id)
    {
      FirstWithId(exercises, id)
    }

    method AssignExercise(id: string, userId: string)
      modifies this
      ensures exercises == AssignUser(old(exercises), id, userId)
    {
      exercises := AssignUser(exercises, id, userId);
    }

    method UnassignExercise(id: string, userId: string)
      modifies this
      ensures exercises == UnassignUser(old(exercises), id, userId)
    {
      exercises := UnassignUser(exercises, id, userId);
    }

    method ResetLibrary()
      modifies this
      ensures exercises == initialExercises
    {
      exercises := initialExercises;
    }

    method ImportTemplate(templates: seq<Exercise>, freshIds: seq<string>)
      requires |freshIds| == |templates|
      modifies this
      ensures exercises == ImportTemplates(old(exercises), templates, freshIds)
    {
      exercises := ImportTemplates(exercises, templates, freshIds);
    }

    function GetMyExercises(userId: string): (r: seq<Exercise>)
      reads this
      ensures r == CreatedBy(exercises, userId)
    {
      CreatedBy(exercises, userId)
    }
  }

  // ---------------------------------------------------------------------
  // How the actions relate
  // ---------------------------------------------------------------------

  /** An added exercise can be looked up under its fresh id, and it is what
      the draft said apart from the id and creator. */
  lemma GetAfterAdd(list: seq<Exercise>, draft: Exercise, freshId: string)
    requires forall k :: 0 <= k < |list| ==> list[k].id != freshId
    ensures FirstWithId(list + [NewExercise(draft, freshId)], freshId) == Some(NewExercise(draft, freshId))
  {
    var r := list + [NewExercise(draft, freshId)];
    assert forall k :: 0 <= k < |list| ==> r[k] == list[k];
    assert r[|list|].id == freshId;
  }

  /** After a delete nothing has that id; lookups of other ids are unchanged. */
  lemma GetAfterDelete(list: seq<Exercise>, id: string, other: string)
    requires other != id
    ensures FirstWithId(RemoveEntries(list, id), id).None?
    ensures FirstWithId(RemoveEntries(list, id), other) == FirstWithId(list, other)
  {
    FindAfterFilter(list, (e: Exercise) => e.id != id, (e: Exercise) => HasId(e, other));
  }

  /** A lookup after an update sees the merged entry, as long as the patch
      keeps the id. */
  lemma GetAfterUpdate(list: seq<Exercise>, id: string, p: ExercisePatch)
    requires p.id.None?
    ensures FirstWithId(UpdateEntries(list, id, p), id).None? <==> FirstWithId(list, id).None?
    ensures FirstWithId(list, id).Some? ==>
      FirstWithId(UpdateEntries(list, id, p), id) == Some(MergeExercise(FirstWithId(list, id).value, p))
  {
    var r := UpdateEntries(list, id, p);
    assert forall k :: 0 <= k < |list| ==> (r[k].id == id <==> list[k].id == id);
    if FirstWithId(list, id).Some? {
      var k :| 0 <= k < |list| && list[k] == FirstWithId(list, id).value && list[k].id == id &&
        forall m :: 0 <= m < k ==> list[m].id != id;
      FirstWithIdAt(r, id, k);
    }
  }

  /** The first entry with the id is the one at `k` when no earlier entry
      has it. */
  lemma FirstWithIdAt(list: seq<Exercise>, id: string, k: nat)
    requires k < |list| && list[k].id == id
    requires forall m :: 0 <= m < k ==> list[m].id != id
    ensures FirstWithId(list, id) == Some(list[k])
  {
    var j :| 0 <= j < |list| && list[j] == FirstWithId(list, id).value && list[j].id == id &&
      forall m :: 0 <= m < j ==> list[m].id != id;
    assert j == k;
  }


  /** Assignment does not deduplicate: assigning the same user twice lists
      them twice. */
  lemma AssignTwiceDuplicates(list: seq<Exercise>, id: string, userId: string)
    ensures forall i :: 0 <= i < |list| && list[i].id == id ==>
      AssignUser(AssignUser(list, id, userId), id, userId)[i].assignedTo ==
        Some(list[i].assignedTo.GetOr([]) + [userId, userId])
  {
    var once := AssignUser(list, id, userId);
    forall i | 0 <= i < |list| && list[i].id == id
      ensures AssignUser(once, id, userId)[i].assignedTo == Some(list[i].assignedTo.GetOr([]) + [userId, userId])
    {
      assert once[i].id == id;
      assert list[i].assignedTo.GetOr([]) + [userId] + [userId] == list[i].assignedTo.GetOr([]) + [userId, userId];
    }
  }

  /** On one list: removing a user just appended leaves them off, and gives
      back the list when they were not on it. */
  lemma WithoutUserAfterWithUser(current: Option<seq<string>>, userId: string)
    ensures WithoutUser(WithUser(current, userId), userId).Some?
    ensures userId !in WithoutUser(WithUser(current, userId), userId).value
    ensures current.Some? && userId !in current.value ==> WithoutUser(WithUser(current, userId), userId) == current
  {
    if current.Some? && userId !in current.value {
      var ids := current.value;
      var keep := Other(userId);
      FilterAppend(ids, [userId], keep);
      FilterAll(ids, keep);
      assert Filter([userId], keep) == [];
      assert WithUser(current, userId) == Some(ids + [userId]);
      assert Filter(ids + [userId], keep) == ids;
    }
  }

  /** Unassigning after assigning leaves the user off the list, and it undoes
      the assignment when the user was not assigned before. */
  lemma UnassignAfterAssign(list: seq<Exercise>, id: string, userId: string)
    ensures forall i :: 0 <= i < |list| && list[i].id == id ==>
      var a := UnassignUser(AssignUser(list, id, userId), id, userId)[i].assignedTo;
      a.Some? && userId !in a.value
    ensures (forall i :: 0 <= i < |list| && list[i].id == id ==>
        list[i].assignedTo.Some? && userId !in list[i].assignedTo.value) ==>
      UnassignUser(AssignUser(list, id, userId), id, userId) == list
  {
    var once := AssignUser(list, id, userId);
    var r := UnassignUser(once, id, userId);
    forall i | 0 <= i < |list| && list[i].id == id
      ensures r[i] == list[i].(assignedTo := WithoutUser(WithUser(list[i].assignedTo, userId), userId))
    {
      assert once[i].id == id;
    }
    forall i | 0 <= i < |list| && list[i].id == id
      ensures r[i].assignedTo.Some? && userId !in r[i].assignedTo.value
      ensures list[i].assignedTo.Some? && userId !in list[i].assignedTo.value ==> r[i] == list[i]
    {
      WithoutUserAfterWithUser(list[i].assignedTo, userId);
    }
  }

  /** Unassigning twice is unassigning once. */
  lemma UnassignIdempotent(list: seq<Exercise>, id: string, userId: string)
    ensures UnassignUser(UnassignUser(list, id, userId), id, userId) == UnassignUser(list, id, userId)
  {
    var once := UnassignUser(list, id, userId);
    forall i | 0 <= i < |list| && list[i].id == id && once[i].assignedTo.Some?
      ensures WithoutUser(once[i].assignedTo, userId) == once[i].assignedTo
    {
      FilterAll(once[i].assignedTo.value, Other(userId));
    }
  }

  /** The new exercise is the only one added to the '2' list. */
  lemma CreatedByAfterAdd(list: seq<Exercise>, draft: Exercise, freshId: string)
    ensures CreatedBy(list + [NewExercise(draft, freshId)], "2") == CreatedBy(list, "2") + [NewExercise(draft, freshId)]
    ensures forall u :: u != "2" ==> CreatedBy(list + [NewExercise(draft, freshId)], u) == CreatedBy(list, u)
  {
    forall u
      ensures CreatedBy(list + [NewExercise(draft, freshId)], u) ==
        CreatedBy(list, u) + (if u == "2" then [NewExercise(draft, freshId)] else [])
    {
      var mine := (e: Exercise) => e.creatorId == u;
      FilterAppend(list, [NewExercise(draft, freshId)], mine);
      assert [NewExercise(draft, freshId)][1..] == [];
    }
  }
}
