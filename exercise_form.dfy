/** The exercise form (components/exercises/ExerciseForm.tsx) and its list
    editors (components/exercises/form/ExerciseInstructions.tsx,
    ExerciseEquipment.tsx, ExerciseAssignment.tsx): how the submitted record
    is normalised from the form fields, and how the string lists are edited. */
module ExerciseForm {
  import opened Wrappers
  import opened Seqs
  import opened Text
  import opened Catalog
  import ExerciseStore

  // ---------------------------------------------------------------------
  // The form's state and fields
  // ---------------------------------------------------------------------

  /** The named inputs read through `FormData`; `get` gives `null` (`None`)
      for a name the form does not hold. */
  datatype FormFields = FormFields(
    name: string, description: string, category: string, difficulty: string,
    muscleGroups: Option<string>,
    defaultWeight: Option<string>, defaultReps: Option<string>, defaultSets: Option<string>,
    weightIncrement: Option<string>, restBetweenSets: Option<string>)

  /** The three pieces of React state; they start from the edited exercise,
      or `['']`, `['']` and `''` for a new one. */
  datatype FormState = FormState(instructions: seq<string>, equipment: seq<string>, videoUrl: string)

  /** `exercise?.x || default`: an array is always truthy, so an existing
      exercise's lists are taken as they are, even when empty; an empty
      stored URL falls back to ''. */
  function InitialState(exercise: Option<Exercise>): (st: FormState)
    ensures exercise.None? ==> st == FormState([""], [""], "")
    ensures exercise.Some? ==>
      (st.instructions == exercise.value.instructions
       && st.equipment == exercise.value.equipment
       && (st.videoUrl == "" <==> exercise.value.videoUrl.None? || exercise.value.videoUrl == Some("")))
  {
    match exercise
    case None => FormState([""], [""], "")
    case Some(e) => FormState(e.instructions, e.equipment, e.videoUrl.GetOr(""))
  }

  // ---------------------------------------------------------------------
  // Normalising the submitted fields
  // ---------------------------------------------------------------------

  /** `Number(field) || undefined`: a missing field (`Number(null)` is 0), a
      value that is 0 or blank, and one that is not a number are all left
      undefined. */
  function SubmittedNumber(field: Option<string>): (r: Option<real>)
    ensures r.Some? ==> field.Some? && NumberValue(field.value) == r && r.value != 0.0
    ensures r.None? <==> field.None? || NumberValue(field.value).None? || NumberValue(field.value) == Some(0.0)
  {
    if field.None? then None
    else
      match NumberValue(field.value)
      case None => None
      case Some(v) => if v == 0.0 then None else Some(v)
  }

  /** A number written by `toString` is submitted as that number, unless it
      is 0; a blank field is submitted as undefined. */
  lemma SubmittedNumberReadsBack(n: int, blank: string)
    requires forall i :: 0 <= i < |blank| ==> IsWhitespace(blank[i])
    ensures SubmittedNumber(Some(DecimalString(n))) == (if n == 0 then None else Some(n as real))
    ensures SubmittedNumber(Some(blank)) == None
  {
    NumberValueOfDecimalString(n);
    TrimEmptyIffBlank(blank);
  }

  /** A weight typed with a fraction, as the half-step weight fields allow,
      is submitted as its value. */
  lemma SubmittedFraction(whole: string, frac: string)
    requires AllDigits(whole) && AllDigits(frac) && |whole| + |frac| > 0
    requires DecimalValue(whole, frac) != 0.0
    ensures SubmittedNumber(Some(whole + "." + frac)) == Some(DecimalValue(whole, frac))
  {
    NumberValueOfFraction(whole, frac);
  }

  /** `'2.5'` in the weight field is submitted as 2.5. */
  lemma SubmittedHalfStep()
    ensures SubmittedNumber(Some("2.5")) == Some(2.5)
  {
    assert DigitsValue("2") == 2 && DigitsValue("5") == 5 && Pow10(1) == 10;
    assert DecimalValue("2", "5") == 2.5;
    assert "2" + "." + "5" == "2.5";
    SubmittedFraction("2", "5");
  }

  /** `field?.toString().split(',').map(m => m.trim()) || []`: no field gives
      no groups; otherwise one trimmed group per comma-separated piece, so
      never none. */
  function MuscleGroups(field: Option<string>): (r: seq<string>)
    ensures field.None? ==> r == []
    ensures field.Some? ==> |r| == |Split(field.value, ',')| >= 1
  {
    match field
    case None => []
    case Some(s) => TrimEach(Split(s, ','))
  }

  /** A present but empty field is not an empty list: it is one empty
      group. */
  lemma EmptyFieldGivesOneEmptyGroup()
    ensures MuscleGroups(Some("")) == [""]
  {
    assert ',' !in "";
  }

  /** The input starts out as `muscleGroups.join(', ')`
      (components/exercises/form/ExerciseMuscleGroups.tsx); submitting it
      unchanged gives the groups back, provided there is at least one, none
      contains a comma and none has whitespace at either end. */
  lemma MuscleGroupsRoundTrip(groups: seq<string>)
    requires |groups| >= 1
    requires forall i :: 0 <= i < |groups| ==> ',' !in groups[i] && Trimmed(groups[i])
    ensures MuscleGroups(Some(Join(groups, ", "))) == groups
  {
    TrimmedSplitOfJoin("", groups);
    assert "" + Join(groups, ", ") == Join(groups, ", ");
  }

  /** An entry the submission keeps: not blank after trimming. */
  predicate IsFilled(x: string)
  {
    Trim(x) != ""
  }

  /** `list.filter(x => x.trim() !== '')`: the entries that are not blank
      after trimming, in their order. */
  function NonBlank(list: seq<string>): (r: seq<string>)
    ensures IsSubsequence(r, list)
    ensures forall k :: 0 <= k < |r| ==> Trim(r[k]) != ""
    ensures forall k :: 0 <= k < |list| && Trim(list[k]) != "" ==> list[k] in r
    ensures forall x :: multiset(r)[x] == (if Trim(x) != "" then multiset(list)[x] else 0)
  {
    FilterIsSubsequence(list, IsFilled);
    FilterMultiset(list, IsFilled);
    Filter(list, IsFilled)
  }

  /** An entry survives exactly when it holds a character other than
      whitespace. */
  lemma NonBlankKeepsNonWhitespace(list: seq<string>, x: string)
    requires x in list
    ensures x in NonBlank(list) <==> exists i :: 0 <= i < |x| && !IsWhitespace(x[i])
  {
    TrimEmptyIffBlank(x);
    var k :| 0 <= k < |list| && list[k] == x;
    if x in NonBlank(list) {
      var j :| 0 <= j < |NonBlank(list)| && NonBlank(list)[j] == x;
    }
  }

  /** The submitted record's keys: every field of `Exercise` except `id` and
      `assignedTo`, which are absent and so left alone by a merge; the creator
      is always '1' and an empty URL becomes undefined. */
  function Submission(fields: FormFields, st: FormState): (p: ExercisePatch)
    ensures p.id.None? && p.assignedTo.None? && p.creatorId == Some("1")
    ensures p.name == Some(fields.name) && p.description == Some(fields.description)
      && p.category == Some(fields.category) && p.difficulty == Some(fields.difficulty)
    ensures p.muscleGroups == Some(MuscleGroups(fields.muscleGroups))
    ensures p.equipment == Some(NonBlank(st.equipment)) && p.instructions == Some(NonBlank(st.instructions))
    ensures p.videoUrl.Some? && (p.videoUrl.value.None? <==> st.videoUrl == "")
      && (st.videoUrl != "" ==> p.videoUrl.value == Some(st.videoUrl))
    ensures p.defaultWeight == Some(SubmittedNumber(fields.defaultWeight))
      && p.defaultReps == Some(SubmittedNumber(fields.defaultReps))
      && p.defaultSets == Some(SubmittedNumber(fields.defaultSets))
      && p.weightIncrement == Some(SubmittedNumber(fields.weightIncrement))
      && p.restBetweenSets == Some(SubmittedNumber(fields.restBetweenSets))
  {
    ExercisePatch(None, Some(fields.name), Some(fields.description), Some(fields.category), Some(fields.difficulty),
      Some(MuscleGroups(fields.muscleGroups)), Some(NonBlank(st.equipment)), Some(NonBlank(st.instructions)),
      Some(if st.videoUrl == "" then None else Some(st.videoUrl)), Some("1"),
      Some(SubmittedNumber(fields.defaultWeight)), Some(SubmittedNumber(fields.defaultReps)),
      Some(SubmittedNumber(fields.defaultSets)), Some(SubmittedNumber(fields.weightIncrement)),
      Some(SubmittedNumber(fields.restBetweenSets)), None)
  }

  /** Editing through the card (`updateExercise(exercise.id, submitted)`)
      keeps the exercise's id and its assignments, credits it to creator '1',
      and keeps a non-empty video URL that was not touched. */
  lemma EditKeepsIdentity(list: seq<Exercise>, e: Exercise, fields: FormFields)
    requires e in list
    ensures var st := InitialState(Some(e));
      var r := ExerciseStore.UpdateEntries(list, e.id, Submission(fields, st));
      |r| == |list|
      && forall k :: 0 <= k < |list| && list[k].id == e.id ==>
           r[k].id == e.id && r[k].assignedTo == list[k].assignedTo && r[k].creatorId == "1"
           && (e.videoUrl.Some? && e.videoUrl.value != "" ==> r[k].videoUrl == e.videoUrl)
  {
  }

  // ---------------------------------------------------------------------
  // The instruction and equipment list editors
  // ---------------------------------------------------------------------

  /** The '+' button: `[...list, '']`. */
  function AddEntry(list: seq<string>): (r: seq<string>)
    ensures |r| == |list| + 1 && r[..|list|] == list && r[|list|] == ""
  {
    list + [""]
  }

  /** The '−' button: `list.filter((_, i) => i !== index)`. */
  function RemoveEntry(list: seq<string>, index: nat): (r: seq<string>)
    ensures index < |list| ==> |r| == |list| - 1 && r == list[..index] + list[index + 1..]
    ensures index >= |list| ==> r == list
  {
    RemoveAt(list, index)
  }

  /** Typing into an entry: copy the array, assign at the index, hand the
      copy on. The index is that of a rendered entry. */
  method EditEntry(list: seq<string>, index: nat, value: string) returns (r: seq<string>)
    requires index < |list|
    ensures |r| == |list| && r[index] == value
    ensures forall i :: 0 <= i < |list| && i != index ==> r[i] == list[i]
  {
    var copy := new string[|list|](i requires 0 <= i < |list| => list[i]);
    copy[index] := value;
    r := copy[..];
  }

  /** A freshly added entry is blank, so it changes nothing in what is
      submitted until something is typed into it. */
  lemma {:induction false} AddedEntryNotSubmitted(list: seq<string>)
    ensures NonBlank(AddEntry(list)) == NonBlank(list)
  {
    FilterAppend(list, [""], IsFilled);
    assert Trim("") == "";
    assert Filter([""], IsFilled) == [];
  }

  /** Submitting twice filters nothing more away. */
  lemma NonBlankIdempotent(list: seq<string>)
    ensures NonBlank(NonBlank(list)) == NonBlank(list)
  {
    var r := NonBlank(list);
    FilterAll(r, IsFilled);
  }

  // ---------------------------------------------------------------------
  // The assignment checkboxes
  // ---------------------------------------------------------------------

  /** `checked={selectedUsers.includes(user.id)}`. */
  predicate IsChecked(selected: seq<string>, userId: string)
  {
    userId in selected
  }

  /** Checking appends the id at the end; unchecking drops every occurrence
      and keeps the other ids in order. */
  function ToggleUser(selected: seq<string>, userId: string, checked: bool): (r: seq<string>)
    ensures checked ==> r == selected + [userId]
    ensures !checked ==>
      (IsSubsequence(r, selected) && userId !in r
       && forall k :: 0 <= k < |selected| && selected[k] != userId ==> selected[k] in r)
    ensures !checked ==> forall x :: multiset(r)[x] == (if x == userId then 0 else multiset(selected)[x])
  {
    if checked then selected + [userId]
    else
      FilterIsSubsequence(selected, ExerciseStore.Other(userId));
      FilterMultiset(selected, ExerciseStore.Other(userId));
      Filter(selected, ExerciseStore.Other(userId))
  }

  /** After the click the box shows what was clicked, and the change is the
      same one the store's assign and unassign make on an assignment list. */
  lemma ToggleShowsClick(selected: seq<string>, userId: string, checked: bool)
    ensures IsChecked(ToggleUser(selected, userId, checked), userId) <==> checked
    ensures checked ==> Some(ToggleUser(selected, userId, checked)) == ExerciseStore.WithUser(Some(selected), userId)
    ensures !checked ==> Some(ToggleUser(selected, userId, checked)) == ExerciseStore.WithoutUser(Some(selected), userId)
  {
    if checked {
      assert ToggleUser(selected, userId, checked)[|selected|] == userId;
    }
  }

  /** Checking a box that was not checked and unchecking it again restores
      the selection. */
  lemma {:induction false} CheckThenUncheck(selected: seq<string>, userId: string)
    requires !IsChecked(selected, userId)
    ensures ToggleUser(ToggleUser(selected, userId, true), userId, false) == selected
  {
    ExerciseStore.WithoutUserAfterWithUser(Some(selected), userId);
  }
}
