/** The workout library store (store/workouts.ts): an in-memory list of
    workouts replaced wholesale by each action. Fresh ids are parameters and
    the sample workouts are the constructor's argument. */
module WorkoutStore {
  import opened Wrappers
  import opened Seqs
  import opened Catalog

  predicate HasId(w: Workout, id: string)
  {
    w.id == id
  }

  /** `workouts.find(w => w.id === id)`. */
  function FirstWithId(list: seq<Workout>, id: string): (r: Option<Workout>)
    ensures r.None? <==> forall k :: 0 <= k < |list| ==> list[k].id != id
    ensures r.Some? ==> exists k :: (0 <= k < |list| && list[k] == r.value && r.value.id == id &&
      forall m :: 0 <= m < k ==> list[m].id != id)
  {
    Find(list, (w: Workout) => HasId(w, id))
  }

  /** `updateWorkout`: every entry with the id gets the fields merged in. */
  function UpdateEntries(list: seq<Workout>, id: string, p: WorkoutPatch): (r: seq<Workout>)
    ensures |r| == |list|
    ensures forall i :: 0 <= i < |r| && list[i].id == id ==> r[i] == MergeWorkout(list[i], p)
    ensures forall i :: 0 <= i < |r| && list[i].id != id ==> r[i] == list[i]
  {
    seq(|list|, i requires 0 <= i < |list| => if list[i].id == id then MergeWorkout(list[i], p) else list[i])
  }

  /** `deleteWorkout`: every entry with the id is gone, the rest stay in order. */
  function RemoveEntries(list: seq<Workout>, id: string): (r: seq<Workout>)
    ensures forall k :: 0 <= k < |r| ==> r[k].id != id
    ensures forall k :: 0 <= k < |list| && list[k].id != id ==> list[k] in r
    ensures IsSubsequence(r, list)
    ensures forall x :: multiset(r)[x] == (if x.id == id then 0 else multiset(list)[x])
  {
    var keep := (w: Workout) => w.id != id;
    FilterIsSubsequence(list, keep);
    FilterMultiset(list, keep);
    Filter(list, keep)
  }

  class WorkoutLibrary {
    var workouts: seq<Workout>

    constructor (sample: seq<Workout>)
      ensures workouts == sample
    {
      workouts := sample;
    }

    /** `addWorkout`: the draft under a fresh id, appended. */
    method AddWorkout(draft: Workout, freshId: string)
      modifies this
      ensures workouts == old(workouts) + [draft.(id := freshId)]
    {
      workouts := workouts + [draft.(id := freshId)];
    }

    method UpdateWorkout(id: string, p: WorkoutPatch)
      modifies this
      ensures workouts == UpdateEntries(old(workouts), id, p)
    {
      workouts := UpdateEntries(workouts, id, p);
    }

    method DeleteWorkout(id: string)
      modifies this
      ensures workouts == RemoveEntries(old(workouts), id)
    {
      workouts := RemoveEntries(workouts, id);
    }

    function GetWorkout(id: string): (r: Option<Workout>)
      reads this
      ensures r == FirstWithId(workouts, id)
    {
      FirstWithId(workouts, id)
    }
  }

  /** An added workout can be looked up under its fresh id. */
  lemma GetAfterAdd(list: seq<Workout>, draft: Workout, freshId: string)
    requires forall k :: 0 <= k < |list| ==> list[k].id != freshId
    ensures FirstWithId(list + [draft.(id := freshId)], freshId) == Some(draft.(id := freshId))
  {
    var r := list + [draft.(id := freshId)];
    assert forall k :: 0 <= k < |list| ==> r[k] == list[k];
    assert r[|list|].id == freshId;
  }

  /** After a delete nothing has that id; lookups of other ids are unchanged. */
  lemma GetAfterDelete(list: seq<Workout>, id: string, other: string)
    requires other != id
    ensures FirstWithId(RemoveEntries(list, id), id).None?
    ensures FirstWithId(RemoveEntries(list, id), other) == FirstWithId(list, other)
  {
    FindAfterFilter(list, (w: Workout) => w.id != id, (w: Workout) => HasId(w, other));
  }

  /** A lookup after an update sees the merged entry, as long as the patch
      keeps the id. */
  lemma GetAfterUpdate(list: seq<Workout>, id: string, p: WorkoutPatch)
    requires p.id.None?
    ensures FirstWithId(UpdateEntries(list, id, p), id).None? <==> FirstWithId(list, id).None?
    ensures FirstWithId(list, id).Some? ==>
      FirstWithId(UpdateEntries(list, id, p), id) == Some(MergeWorkout(FirstWithId(list, id).value, p))
  {
    var r := UpdateEntries(list, id, p);
    assert forall k :: 0 <= k < |list| ==> (r[k].id == id <==> list[k].id == id);
    if FirstWithId(list, id).Some? {
      var k :| 0 <= k < |list| && list[k] == FirstWithId(list, id).value && list[k].id == id &&
        forall m :: 0 <= m < k ==> list[m].id != id;
      FirstWithIdAt(r, id, k);
    }
  }

  /** The first entry with the id is the one at `k` when no earlier entry
      has it. */
  lemma FirstWithIdAt(list: seq<Workout>, id: string, k: nat)
    requires k < |list| && list[k].id == id
    requires forall m :: 0 <= m < k ==> list[m].id != id
    ensures FirstWithId(list, id) == Some(list[k])
  {
    var j :| 0 <= j < |list| && list[j] == FirstWithId(list, id).value && list[j].id == id &&
      forall m :: 0 <= m < j ==> list[m].id != id;
    assert j == k;
  }

}
