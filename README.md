# A verified model of the fitness app's data layer

The application is a coach/athlete fitness app. Coaches keep a library of
exercises and workouts. They build multi-week training plans (workouts on
days of the week) and nutrition plans (meals), and assign each plan to an
athlete. Athletes follow their plan and tick workouts and meals off as
completed. Both sides chat with each other.

The React pages sit on a data-model layer made of Zustand stores over a
hosted database, plus the pure derivations the pages compute. This project
models that layer in Dafny, one module per source file or concern:

- **Plan schedules**
  - `TrainingPlans`, `NutritionPlans`: the stores. Fetched flat schedule
    rows are grouped into weeks by a loop, proved equal to a fold. A
    schedule is flattened back into insert rows. Also modelled:
    duplication, the completion update, the local delete and the
    active-plan lookup.
  - `WorkoutScheduleEditor`, `MealScheduleEditor`: the editors, as classes
    whose week-entry objects are changed in place.
  - `TrainingPlanForm`, `NutritionPlanForm`: the forms that build the
    submitted plan.
  - `SampleTrainingPlan`, `SampleNutritionPlan`: the default 8-week plans.
- **Plan derivations**
  - `PlanStatus`: upcoming/active/completed, the end date, progress and
    the athlete's "current week".
  - `PlanVisibility`: role-based plan lists and the athlete pages.
  - `PlanLists`: the coach's list filters.
  - `PlanDetailViews`: the filtered week views and the toggle requests.
- **Catalog**
  - `ExerciseStore`, `WorkoutStore`: classes over a `seq` field.
  - `WorkoutForm`: a class holding the selected exercises.
  - `ExerciseForm`: submit normalisation and the list-editing helpers.
  - `CatalogViews`: cards, lists and the exercise selector.
  - `AthleteSearch`: the athlete picker.
- **Messaging**
  - `Messages`: the message store.
  - `Chat`: chat partners, the conversation and the composer.
  - `ChatUserList`: last messages and the newest-first sort.
- **Parsers and guards**
  - `YouTube`: the id-extracting regular expression, modelled as a search
    over positions.
  - `Routing`: the route guard and the route table.
  - `AuthModal`: the sign-in dialog.
- **Helper modules**: `Wrappers` (Option, Result), `Seqs` (filter, find,
  first-occurrence dedup, subsequences), `Text` (JavaScript `trim`,
  `split`, `includes`, ASCII lower-casing, decimal strings, `parseInt`,
  UTF-16 length), `Time` (instants in milliseconds) and `Catalog` (the
  entity records).

Database calls, clocks and `crypto.randomUUID` are not modelled as
effects. What a call returns, the current instant and the fresh ids are
parameters. The stores' transformations of those values are modelled
exactly.

Where the original's pieces interact, the model proves the interaction
rather than restating each piece:
- saving a schedule whose week numbers are distinct and fetching it
  back yields its non-empty weeks, in order, with completion reset; a
  week without workouts inserts no row and is gone after the refetch,
  which the form's padding to the week count makes common (a default
  plan grown to ten weeks comes back with eight);
- a completion update is seen after the refetch;
- the editors keep week numbers distinct and weeks free of duplicate
  workouts;
- the route guard settles every signed-in coach or athlete within two
  redirects.

The proofs also bring out behaviour of the code that a reader might not
expect (`Routing.RedirectCycle`, `ChatUserList.EmptyListWithoutNotice`,
`AuthModal.UsernameCheck`, `AuthModal.AuthDialog.HandleSubmit`,
`Messages.MarkReadIgnoresReceiver`):
- a visitor who opens the sign-in dialog sees the routes, where the index
  route sends them to the training plans and the guard sends them back;
  no number of redirects reaches a page, and the same holds for a
  profile whose role is neither coach nor athlete;
- the conversation list hides "No conversations yet" whenever there are
  partners, even when none of them is in the user directory and the list
  is empty;
- the username check counts UTF-16 code units, so two emoji pass it;
- a failed sign-in or sign-up shows no message: the store's `loading`
  flag unmounts the dialog during the call, and the dialog that comes
  back is a fresh one in login mode with empty fields;
- the local read-marking marks every message from the partner, also
  those the partner sent to other users.

Some behaviours of the code are easy to miss; the model follows the
code:
- duplicating an exercise keeps its `assignedTo` list, because the card
  spreads every field;
- the local `markAsRead` ignores the receiver;
- the unread count is what the database procedure returns (0 when it
  returns nothing), not a count over the local messages;
- at the start instant the current week is 0, so no week is shown; there
  is no clamping to week 1;
- `addExercise` sets creator '2', while the exercise form submits
  creator '1' and the templates carry creator '1'.

## Model

| member | source | states |
|---|---|---|
| TrainingPlans.GroupSchedule | src/store/trainingPlans.ts:43-61 | the `reduce` loop (find the week, push a new week or push onto the found one) computes exactly the fold `Grouped` of the rows |
| TrainingPlans.GroupInto | src/store/trainingPlans.ts:44-58 | the `reduce` as a fold: each row goes onto the week with its number, or starts a new trailing week; its meaning is stated by GroupedShape, GroupIntoAppend and GroupIntoNewWeek |
| TrainingPlans.Grouped | src/store/trainingPlans.ts:43-61 | the schedule `fetchPlans` builds from one plan's rows, the fold from no weeks; GroupedShape and GroupedScheduleRows say what it holds |
| TrainingPlans.GroupedShape | src/store/trainingPlans.ts:44-58 | the grouped weeks are the distinct row week numbers in first-occurrence order, and each week holds, in row order, the workouts of exactly the rows with its number |
| TrainingPlans.GroupedWeeksDistinctNonEmpty | src/store/trainingPlans.ts:44-58 | after grouping no two weeks share a week number and every week holds at least one workout |
| TrainingPlans.GroupedKeepsEveryRow | src/store/trainingPlans.ts:43-61 | the grouped weeks hold as many workouts in total as there were rows |
| TrainingPlans.ScheduledOf | src/store/trainingPlans.ts:45-50 | one scheduled workout per row, copying the workout id, day, completion flag and completion time of that row |
| TrainingPlans.WeekIndex | src/store/trainingPlans.ts:44 | `findIndex`: -1 exactly when no week has the number, otherwise the first week with it |
| TrainingPlans.TotalWorkouts | src/pages/AthleteTrainingPlan.tsx:45-48 | the sum of the week lengths; GroupedKeepsEveryRow and TotalWorkoutsUpdate relate it to the rows and to an edited week |
| TrainingPlans.CompletedWorkouts | src/pages/AthleteTrainingPlan.tsx:49-52 | the sum over the weeks of their completed workouts; CompletedAtMostTotal bounds it by the total |
| TrainingPlans.CompletedAtMostTotal | src/pages/AthleteTrainingPlan.tsx:45-52 | the completed count never exceeds the total count of workouts |
| TrainingPlans.TotalWorkoutsUpdate | src/pages/AthleteTrainingPlan.tsx:45-47 | replacing one week changes the total by the difference of the two weeks' lengths |
| TrainingPlans.ScheduleRows | src/store/trainingPlans.ts:89-98 | the flattened insert rows number exactly the workouts of the schedule; each carries the new plan id, a week number of the schedule and completed false |
| TrainingPlans.ScheduleRowAt | src/store/trainingPlans.ts:90-98 | workout j of week k becomes the row right after all the workouts of the earlier weeks, with that week's number, the workout's id and day, and completed false |
| TrainingPlans.ResetScheduleMeaning | src/store/trainingPlans.ts:157-164 | the reset schedule has every workout pending with no completion time and otherwise the same weeks, ids and days; resetting is idempotent and leaves an all-pending schedule as it is |
| TrainingPlans.ResetWorkoutsIdempotent | src/store/trainingPlans.ts:159-163 | resetting one week's workouts twice is resetting once, and pending workouts are left unchanged |
| TrainingPlans.ScheduleRowsIgnoreCompletion | src/store/trainingPlans.ts:90-98 | flattening ignores completion: a reset schedule inserts the same rows as the original |
| TrainingPlans.GroupIntoAppend | src/store/trainingPlans.ts:43-61 | the fold over a concatenation is the fold over the second part started from the fold of the first |
| TrainingPlans.GroupIntoNewWeek | src/store/trainingPlans.ts:52-58 | rows that all belong to a week not yet present become exactly one new week at the end, holding their workouts in row order |
| TrainingPlans.GroupedScheduleRows | src/store/trainingPlans.ts:43-61 | saving a schedule whose week numbers are distinct and whose weeks are non-empty and then fetching it back gives the same schedule with every completion reset |
| TrainingPlans.GroupedScheduleRowsDropsEmpty | src/store/trainingPlans.ts:43-61 | saving a schedule whose week numbers are distinct, empty weeks allowed, and fetching it back gives its non-empty weeks in order with every completion reset |
| TrainingPlans.ScheduleRowsSkipEmpty | src/store/trainingPlans.ts:89-98 | an empty week inserts no row: the non-empty weeks alone insert the same rows |
| TrainingPlans.NonEmptyWeeksDistinct | src/store/trainingPlans.ts:89-98 | leaving out the empty weeks keeps week numbers distinct and leaves no empty week |
| TrainingPlans.AddPlanRequest | src/store/trainingPlans.ts:74-105 | the header carries name, description, weeks, start date and coach id, and a falsy athlete id as null; schedule rows are inserted only for a non-empty schedule, and then they are exactly the plan's flattened schedule rows under the new id, one per workout |
| TrainingPlans.Duplicate | src/store/trainingPlans.ts:153-165 | the copy is named name + " (Copy)" with no athlete; it has the same weeks and workouts (ids and days) in the same order, all pending, and keeps id, description, weeks, coach and start |
| TrainingPlans.DuplicateInsertsSameRows | src/store/trainingPlans.ts:153-165 | saving the duplicate inserts exactly the schedule rows the original would, with a null athlete id |
| TrainingPlans.UpdateWorkoutStatus | src/store/trainingPlans.ts:179-189 | every row matching (plan id, week number, workout id) gets the new flag, and a completion time exactly when the flag is set; every other row is unchanged, and no key field or day changes |
| TrainingPlans.RowsOfWeekUpdate | src/store/trainingPlans.ts:183-189 | the update commutes with selecting one week's rows |
| TrainingPlans.UpdateWorkoutStatusAppend | src/store/trainingPlans.ts:183-189 | the update distributes over concatenation of row lists |
| TrainingPlans.StatusUpdateSeenAfterRefetch | src/store/trainingPlans.ts:179-192 | after the update and the refetch the plan has the same weeks, and in the updated week every workout with that id shows the new flag, with a completion time exactly when completed |
| TrainingPlans.TrainingPlanStore.constructor | src/store/trainingPlans.ts:19 | the store starts with no plans |
| TrainingPlans.TrainingPlanStore.FetchPlans | src/store/trainingPlans.ts:35-64 | the plans are replaced by one plan per fetched row, in order, each with its schedule grouped |
| TrainingPlans.TrainingPlanStore.DeletePlan | src/store/trainingPlans.ts:138-140 | the local plans become those with another id |
| TrainingPlans.WithoutPlan | src/store/trainingPlans.ts:139 | no plan with the id is left, every copy of every plan with another id is kept, and the result is an order-preserving subsequence |
| TrainingPlans.TrainingPlanStore.GetAthleteActivePlan | src/store/trainingPlans.ts:175-177 | none exactly when no plan is assigned to the athlete, otherwise the first plan assigned to them |
| TrainingPlans.TrainingPlanStore.DuplicatePlan | src/store/trainingPlans.ts:150-165 | fails with 'Plan not found' exactly when no plan has the id, otherwise yields the duplicate of the first plan with that id |
| NutritionPlans.GroupMealSchedule | src/store/nutritionPlans.ts:43-70 | the `reduce` loop computes exactly the fold `Grouped` of the meal rows |
| NutritionPlans.GroupInto | src/store/nutritionPlans.ts:44-68 | the `reduce` as a fold over the meal rows: each row goes onto the week with its number, or starts a new trailing week |
| NutritionPlans.Grouped | src/store/nutritionPlans.ts:43-70 | the meal schedule `fetchPlans` builds from one plan's rows; GroupedShape says what it holds |
| NutritionPlans.ToMealCopiesRow | src/store/nutritionPlans.ts:45-59 | the row-to-meal copy is field-for-field and has an inverse, so no field (macros, completion, time) is lost or altered |
| NutritionPlans.MealsOf | src/store/nutritionPlans.ts:45-59 | one meal per row, from which its row reads back unchanged |
| NutritionPlans.WeekIndex | src/store/nutritionPlans.ts:44 | -1 exactly when no week has the number, otherwise the first week with it |
| NutritionPlans.TotalMeals | src/pages/MyNutritionPlan.tsx:42-45 | the sum of the week lengths; GroupedKeepsEveryRow and TotalMealsUpdate relate it to the rows and to an edited week |
| NutritionPlans.CompletedMeals | src/pages/MyNutritionPlan.tsx:46-49 | the sum over the weeks of their completed meals; CompletedMealsAtMostTotal bounds it by the total |
| NutritionPlans.GroupedShape | src/store/nutritionPlans.ts:44-68 | weeks are the distinct row week numbers in first-occurrence order, and each holds, in row order, the meals of exactly the rows with its number |
| NutritionPlans.GroupedWeeksDistinctNonEmpty | src/store/nutritionPlans.ts:44-68 | grouped week numbers are distinct and every week has at least one meal |
| NutritionPlans.GroupedKeepsEveryRow | src/store/nutritionPlans.ts:43-70 | the grouped weeks hold as many meals as there were rows |
| NutritionPlans.CompletedMealsAtMostTotal | src/pages/MyNutritionPlan.tsx:42-49 | the completed meal count never exceeds the total |
| NutritionPlans.TotalMealsUpdate | src/pages/MyNutritionPlan.tsx:42-44 | replacing one week changes the total by the difference of the two weeks' lengths |
| NutritionPlans.MealInsertRows | src/store/nutritionPlans.ts:98-113 | one insert row per meal, each with the new plan id, the enclosing week's number and completed false, and no meal id |
| NutritionPlans.MealInsertRowAt | src/store/nutritionPlans.ts:99-113 | meal j of week k becomes the row right after all meals of the earlier weeks, with that week's number |
| NutritionPlans.ResetMealScheduleMeaning | src/store/nutritionPlans.ts:172-179 | every meal is pending with no completion time, everything else about weeks and meals is unchanged; idempotent, and a pending schedule is left as it is |
| NutritionPlans.ResetMealsIdempotent | src/store/nutritionPlans.ts:174-178 | resetting one week's meals twice is resetting once, and pending meals are unchanged |
| NutritionPlans.MealInsertRowsIgnoreCompletion | src/store/nutritionPlans.ts:99-113 | a reset schedule inserts the same rows as the original |
| NutritionPlans.AddPlanRequest | src/store/nutritionPlans.ts:83-120 | the header copies the plan with a falsy athlete id as null; meal rows are sent only for a non-empty schedule, and then they are exactly the plan's meal insert rows under the new id, one per meal |
| NutritionPlans.Duplicate | src/store/nutritionPlans.ts:168-180 | name + " (Copy)", no athlete, same weeks and meals in order, all pending |
| NutritionPlans.DuplicateInsertsSameRows | src/store/nutritionPlans.ts:168-180 | the duplicate inserts exactly the meal rows of the original, with a null athlete id |
| NutritionPlans.UpdateMealStatus | src/store/nutritionPlans.ts:194-204 | rows matching (plan id, week number, meal id) get the flag and a completion time exactly when set; other rows are unchanged |
| NutritionPlans.RowsOfWeekUpdate | src/store/nutritionPlans.ts:198-204 | the update commutes with selecting one week's rows |
| NutritionPlans.UpdateMealStatusAppend | src/store/nutritionPlans.ts:198-204 | the update distributes over concatenation |
| NutritionPlans.MealStatusSeenAfterRefetch | src/store/nutritionPlans.ts:194-207 | after the update and refetch the weeks are the same and the meal with that id in that week shows the new flag, with a time exactly when completed |
| NutritionPlans.NutritionPlanStore.constructor | src/store/nutritionPlans.ts:19 | the store starts with no plans |
| NutritionPlans.NutritionPlanStore.FetchPlans | src/store/nutritionPlans.ts:35-73 | one plan per fetched row, in order, with its meals grouped |
| NutritionPlans.NutritionPlanStore.DeletePlan | src/store/nutritionPlans.ts:153-155 | the local plans become those with another id |
| NutritionPlans.WithoutPlan | src/store/nutritionPlans.ts:154 | no plan with the id is left, every copy of every other plan is kept, in order |
| NutritionPlans.NutritionPlanStore.GetAthleteActivePlan | src/store/nutritionPlans.ts:190-192 | none exactly when no plan is assigned to the athlete, otherwise the first such plan |
| NutritionPlans.NutritionPlanStore.DuplicatePlan | src/store/nutritionPlans.ts:165-180 | 'Plan not found' exactly when no plan has the id, otherwise the duplicate of the first plan with it |
| PlanStatus.StatusName | src/pages/TrainingPlans.tsx:17-19 | a status is spelled as one of the three values the status filter compares with |
| PlanStatus.EndDate | src/pages/TrainingPlans.tsx:14-15 | the start moved on by seven days per week of the plan |
| PlanStatus.PlanStatusAt | src/pages/TrainingPlans.tsx:11-20 | upcoming before the start, completed after the end date, active otherwise; StatusIntervals turns this into three intervals of time |
| PlanStatus.StatusIntervals | src/pages/TrainingPlans.tsx:11-20 | for a plan of zero or more weeks: upcoming exactly before the start, completed exactly after start + 7·weeks days, active in between with both ends included |
| PlanStatus.NegativeWeeksNeverActive | src/pages/TrainingPlans.tsx:14-19 | a negative week count makes the end precede the start, so the plan is never active and is completed from the start on |
| PlanStatus.StatusMonotone | src/pages/TrainingPlans.tsx:17-19 | as time passes the status only moves forward: upcoming, active, completed |
| PlanStatus.ProgressOf | src/components/training/TrainingPlanStatus.tsx:15 | a positive total gives a percentage in 0..100 when completed is at most the total, 100 exactly when all are done and 0 exactly when none is; a zero total gives NaN for 0/0 and Infinity otherwise |
| PlanStatus.StatusPanel | src/components/training/TrainingPlanStatus.tsx:12-17 | the panel's end date is 7·weeks days after the start, its own status expression agrees with the pages' status function, and its progress is the JavaScript quotient |
| PlanStatus.CeilDiv | src/components/chat/AthleteTrainingPlan.tsx:87-88 | `Math.ceil(a / b)`: the least r with r·b at least a |
| PlanStatus.CeilDivUnique | src/components/chat/AthleteTrainingPlan.tsx:87-88 | any r with the two ceiling properties is the ceiling |
| PlanStatus.CurrentWeekIsWeeksElapsed | src/components/chat/AthleteTrainingPlan.tsx:83-88 | rounding the distance up to days and then to weeks is rounding it up to weeks |
| PlanStatus.CurrentWeekNumber | src/components/chat/AthleteTrainingPlan.tsx:86-88 | the distance from the start rounded up to whole days and then to whole weeks; CurrentWeekNumberIff and CurrentWeekNumberLaws characterise it |
| PlanStatus.CurrentWeekNumberIff | src/components/chat/AthleteTrainingPlan.tsx:83-88 | the week number is n (n at least 1) exactly when the distance from the start is more than n-1 and at most n weeks |
| PlanStatus.CurrentWeekNumberLaws | src/components/chat/AthleteTrainingPlan.tsx:86-88 | the number is 0 exactly at the start, the same before and after the start, 1 exactly within seven days on either side, and monotone in the distance |
| PlanStatus.CurrentWeek | src/components/chat/AthleteTrainingPlan.tsx:83-91 | none exactly when no week has the computed number, otherwise the first week with it |
| PlanStatus.NoCurrentWeekAtStart | src/components/chat/AthleteTrainingPlan.tsx:86-90 | exactly at the start no week numbered from 1 on is shown |
| PlanVisibility.VisibleTrainingPlans | src/hooks/useTrainingPlans.ts:16-22 | nothing without a profile; otherwise an order-preserving subsequence holding exactly the plans the user coaches (coach) or is assigned to (any other role) |
| PlanVisibility.VisibleNutritionPlans | src/hooks/useNutritionPlans.ts:16-20 | the same rule for nutrition plans |
| PlanVisibility.AthleteTrainingPage | src/pages/AthleteTrainingPlan.tsx:24-66 | the no-plan message exactly when no plan is visible, otherwise the first visible plan with its start, weeks and workout counts, completed at most total |
| PlanVisibility.AthletePageShowsActivePlan | src/pages/AthleteTrainingPlan.tsx:24-43 | for an athlete the page shows the plan the store's `getAthleteActivePlan` returns, and the message exactly when it returns none |
| PlanVisibility.MyNutritionPage | src/pages/MyNutritionPlan.tsx:21-49 | no plan without a profile; a shown plan is one of the plans, assigned to the user, with its start, weeks and meal counts, completed at most total |
| PlanVisibility.MyNutritionPageShowsActivePlan | src/pages/MyNutritionPlan.tsx:21-40 | for an athlete the page shows the store's active plan and the message exactly when there is none; a coach only sees a plan they both coach and are assigned to |
| PlanLists.CoachPlans | src/pages/TrainingPlans.tsx:37-40 | nothing without a profile id; otherwise an order-preserving subsequence holding exactly the plans the profile coaches |
| PlanLists.CoachPlansOfVisible | src/pages/TrainingPlans.tsx:33-40 | for a coach the page's own coach filter leaves the hook's list unchanged |
| PlanLists.FilteredTrainingPlans | src/pages/TrainingPlans.tsx:43-56 | an order-preserving subsequence of the coach's plans holding exactly those matching the search and all three filters; its count is at most the coach's count |
| PlanLists.NoFiltersKeepsTrainingPlans | src/pages/TrainingPlans.tsx:43-56 | an empty search with every filter empty keeps every plan |
| PlanLists.FilteredNutritionPlans | src/pages/NutritionPlans.tsx:24-35 | an order-preserving subsequence holding exactly the plans matching the search and all filters |
| PlanLists.NoFiltersKeepsNutritionPlans | src/pages/NutritionPlans.tsx:24-35 | an empty search with every filter empty keeps every plan |
| PlanLists.SearchWithoutDescription | src/pages/TrainingPlans.tsx:45-47 | without a description only the lower-cased name can match |
| PlanLists.DecimalStringInjective | src/pages/TrainingPlans.tsx:49 | different week counts never print the same |
| PlanLists.WeeksFilterSelects | src/pages/TrainingPlans.tsx:49 | the weeks filter `n.toString()` keeps exactly the plans of n weeks |
| PlanLists.StatusFilterSelects | src/pages/TrainingPlans.tsx:50 | a status name keeps exactly the plans in that status; a value naming no status keeps nothing |
| PlanLists.AssignmentFilterSelects | src/pages/TrainingPlans.tsx:51-52 | 'assigned' keeps plans with a non-empty athlete id; any other non-empty value keeps those with a null or empty one |
| PlanDetailViews.SelectTrainingWeeks | src/components/training/DetailedTrainingPlan.tsx:33 | no selection or the falsy week 0 keeps every week; otherwise an order-preserving subsequence of exactly the weeks with the selected number |
| PlanDetailViews.FilterWorkoutsIn | src/components/training/DetailedTrainingPlan.tsx:34-47 | the same weeks with the same numbers, each keeping, in order, exactly its workouts that pass the test |
| PlanDetailViews.DetailedTrainingSchedule | src/components/training/DetailedTrainingPlan.tsx:32-47 | the selected weeks, each keeping exactly the workouts found in the catalog whose name matches the search and whose type and completion match the filters; nothing missing from the catalog is shown |
| PlanDetailViews.DanglingWorkoutsDropped | src/components/training/DetailedTrainingPlan.tsx:37-38 | with no search and no filters a scheduled workout is shown exactly when the catalog has its workout |
| PlanDetailViews.ToggleWorkoutRequest | src/components/training/DetailedTrainingPlan.tsx:108-112 | the toggle asks for the opposite of the current flag, for that plan, week and workout |
| PlanDetailViews.ToggleWorkoutSeenAfterRefetch | src/components/training/DetailedTrainingPlan.tsx:49-53 | carrying out the toggle and refetching keeps the weeks and shows the flipped flag on that workout |
| PlanDetailViews.StatusManagerSchedule | src/components/training/WorkoutStatusManager.tsx:18-25 | the selected weeks, each keeping, in order, exactly the workouts whose id contains the search term, case-insensitively, or all of them for an empty search |
| PlanDetailViews.StatusManagerEmptySearch | src/components/training/WorkoutStatusManager.tsx:22-24 | an empty search shows the selected weeks whole |
| PlanDetailViews.CompletionDateAfterUpdate | src/components/training/WorkoutStatusManager.tsx:59 | after a status update the completion date is shown exactly when the workout is completed |
| PlanDetailViews.SelectMealWeeks | src/components/nutrition/DetailedNutritionPlan.tsx:29 | the week selector on meal weeks, with the same meaning as for training weeks |
| PlanDetailViews.DetailedMealSchedule | src/components/nutrition/DetailedNutritionPlan.tsx:28-40 | the selected weeks, each keeping, in order, exactly the meals whose name matches the search and whose type and completion match the filters |
| PlanDetailViews.NoMealFiltersShowsAll | src/components/nutrition/DetailedNutritionPlan.tsx:28-40 | an empty search and no filters show every meal of the selected weeks |
| PlanDetailViews.ToggleMealRequest | src/components/nutrition/DetailedNutritionPlan.tsx:97-101 | the toggle asks for the opposite of the meal's flag, for that plan, week and meal |
| PlanDetailViews.ToggleMealSeenAfterRefetch | src/components/nutrition/DetailedNutritionPlan.tsx:42-46 | carrying out the toggle and refetching keeps the weeks and shows the flipped flag on that meal |
| TrainingPlanForm.InitialWeeks | src/components/training/TrainingPlanForm.tsx:18 | an edited plan keeps its week count unless it is the falsy 0; a new plan, or one of 0 weeks, starts at 4 |
| TrainingPlanForm.InitialAthlete | src/components/training/TrainingPlanForm.tsx:19 | the edited plan's athlete when it has a non-empty one, otherwise none selected |
| TrainingPlanForm.InitialSchedule | src/components/training/TrainingPlanForm.tsx:20-31 | an edited plan keeps its schedule; a new plan gets the default schedule once a user is signed in, and is empty before |
| TrainingPlanForm.WeekOrEmpty | src/components/training/TrainingPlanForm.tsx:53-57 | week n is the first entry numbered n, or an empty week numbered n when there is none |
| TrainingPlanForm.FullSchedule | src/components/training/TrainingPlanForm.tsx:52-58 | exactly weeks 1..weeks in order (none for a negative count), each the first existing entry with its number or an empty week |
| TrainingPlanForm.FullScheduleOfComplete | src/components/training/TrainingPlanForm.tsx:52-58 | a schedule that already is weeks 1..weeks in order is submitted unchanged |
| TrainingPlanForm.FullScheduleIdempotent | src/components/training/TrainingPlanForm.tsx:52-58 | padding twice is padding once |
| TrainingPlanForm.FullScheduleAddsNoWorkout | src/components/training/TrainingPlanForm.tsx:52-58 | every submitted week is either empty or one of the edited schedule's entries |
| TrainingPlanForm.FullScheduleRefetch | src/components/training/TrainingPlanForm.tsx:52-58 | the padded schedule, saved and fetched back, comes back as its non-empty weeks with completion reset; the padding weeks are lost |
| TrainingPlanForm.BuildPlan | src/components/training/TrainingPlanForm.tsx:60-68 | the coach is the profile, the athlete is null exactly when none is selected, the text fields are copied and the schedule is the padded one |
| TrainingPlanForm.SubmittedPlanInsert | src/components/training/TrainingPlanForm.tsx:60-70 | through `addPlan`, the plan is inserted with a null athlete exactly when none is selected, and makes a schedule insert exactly when the week count is positive |
| TrainingPlanForm.LabelIffWorkouts | src/components/training/TrainingPlanForm.tsx:172 | the button reads 'Edit Schedule' exactly when the schedule holds at least one workout |
| NutritionPlanForm.InitialWeeks | src/components/nutrition/NutritionPlanForm.tsx:17 | an edited plan keeps its week count unless it is 0; otherwise 4 |
| NutritionPlanForm.InitialAthlete | src/components/nutrition/NutritionPlanForm.tsx:18 | the edited plan's non-empty athlete, otherwise none selected |
| NutritionPlanForm.InitialSchedule | src/components/nutrition/NutritionPlanForm.tsx:19-30 | an edited plan keeps its meals; a new plan gets the default schedule once a user is signed in, and is empty before |
| NutritionPlanForm.BuildPlan | src/components/nutrition/NutritionPlanForm.tsx:50-58 | the schedule exactly as edited (not padded), the state's week count, the profile as coach, and a null athlete exactly when none is selected |
| NutritionPlanForm.SubmittedPlanInsert | src/components/nutrition/NutritionPlanForm.tsx:50-60 | through `addPlan`, no meal insert is made exactly when the schedule is empty, whatever the week count, and the athlete is null exactly when none is selected |
| NutritionPlanForm.LabelIffMeals | src/components/nutrition/NutritionPlanForm.tsx:162 | the button reads 'Edit Schedule' exactly when some week has a meal |
| SampleTrainingPlan.DefaultAthleteId | src/utils/sampleTrainingPlan.ts:6-30 | over the user store's list at the call (the awaited fetch does not reach it): '' when no user there is an athlete; otherwise exactly the id of the first user whose role is athlete |
| SampleTrainingPlan.CatalogIdAt | src/utils/sampleTrainingPlan.ts:35-40 | the id of catalog entry k, or '' past the end |
| SampleTrainingPlan.DefaultSchedule | src/utils/sampleTrainingPlan.ts:31-45 | eight weeks, week i+1 in position i |
| SampleTrainingPlan.DefaultTrainingPlan | src/utils/sampleTrainingPlan.ts:24-46 | 8 weeks with 8 schedule entries numbered 1..8, the given coach and the first athlete of the store's list at the call |
| SampleTrainingPlan.EmptyStoreGivesNoAthlete | src/utils/sampleTrainingPlan.ts:6-14 | with the user store empty at the call, the default plan has no athlete |
| SampleTrainingPlan.DefaultWeeksShape | src/utils/sampleTrainingPlan.ts:31-45 | every week holds exactly two pending workouts, the first catalog workout on day 1 and the second on day 3 ('' for a missing one), so all weeks are alike |
| SampleTrainingPlan.DefaultCounts | src/utils/sampleTrainingPlan.ts:31-45 | the default plan holds sixteen workouts, none completed |
| SampleTrainingPlan.DefaultSurvivesPadding | src/utils/sampleTrainingPlan.ts:27-45 | the form's padding to 8 weeks submits the default schedule unchanged |
| SampleTrainingPlan.DefaultRoundTrip | src/utils/sampleTrainingPlan.ts:31-45 | saving the default schedule and fetching it back gives the same schedule |
| SampleTrainingPlan.DefaultGrownToTenWeeks | src/components/training/TrainingPlanForm.tsx:52-58 | the default padded to ten weeks is submitted with ten weeks and fetched back as the eight default weeks |
| SampleTrainingPlan.DefaultWeekDistinctIff | src/utils/sampleTrainingPlan.ts:35-40 | the default week lists each workout at most once exactly when the catalog's first two ids differ, or it has one workout with a non-empty id |
| SampleNutritionPlan.DefaultMealSchedule | src/utils/sampleNutritionPlan.ts:29-61 | eight weeks, week i+1 in position i, built from the ids drawn for it |
| SampleNutritionPlan.DefaultNutritionPlan | src/utils/sampleNutritionPlan.ts:22-62 | 8 weeks with 8 entries, the given coach and the first athlete of the store's list at the call, as the training default picks it |
| SampleNutritionPlan.EmptyStoreGivesNoAthlete | src/utils/sampleNutritionPlan.ts:4-12 | with the user store empty at the call, the default plan has no athlete |
| SampleNutritionPlan.DefaultWeekIsDefault | src/utils/sampleNutritionPlan.ts:29-61 | week i+1 holds the 400 kcal breakfast then the 500 kcal lunch with their macros, both on day 1, pending, with the week's number and an empty plan id |
| SampleNutritionPlan.DefaultWeeksShape | src/utils/sampleNutritionPlan.ts:29-61 | every week of the default plan has that shape |
| SampleNutritionPlan.DefaultMealIds | src/utils/sampleNutritionPlan.ts:33-47 | meal j of week i takes the id drawn in position 2i+j |
| SampleNutritionPlan.DefaultMealIdsDistinct | src/utils/sampleNutritionPlan.ts:33-47 | distinct draws give every generated meal its own id |
| SampleNutritionPlan.DefaultWeekCounts | src/utils/sampleNutritionPlan.ts:31-59 | a default week has two meals, none completed |
| SampleNutritionPlan.DefaultCounts | src/utils/sampleNutritionPlan.ts:29-61 | the default plan holds sixteen meals, none completed |
| SampleNutritionPlan.DefaultIsWellFormed | src/utils/sampleNutritionPlan.ts:29-61 | the default schedule has distinct week numbers and no empty week, the shape the meal editor keeps |
| SampleNutritionPlan.DefaultInsertRows | src/utils/sampleNutritionPlan.ts:29-61 | saving it inserts sixteen rows, and each row's week number equals the one its meal carries |
| WorkoutScheduleEditor.WeekEntry.constructor | src/components/training/WorkoutScheduleEditor.tsx:13 | a week object holds the given week's number and workouts |
| WorkoutScheduleEditor.ChangeWorkout | src/components/training/WorkoutScheduleEditor.tsx:16-30 | a workout held by another slot of the week leaves the schedule unchanged; otherwise only the chosen slot's workout id changes |
| WorkoutScheduleEditor.FirstUnscheduled | src/components/training/WorkoutScheduleEditor.tsx:37-39 | none exactly when every catalog workout is in the week, otherwise the first catalog workout not in it |
| WorkoutScheduleEditor.AddWorkoutTo | src/components/training/WorkoutScheduleEditor.tsx:32-53 | the first catalog workout not yet in the week is appended on day 0, pending; with none left nothing changes; other weeks are untouched |
| WorkoutScheduleEditor.RemoveWorkoutFrom | src/components/training/WorkoutScheduleEditor.tsx:55-59 | only that week changes, losing the slot at the index (nothing for an index past the end); the week stays even when empty |
| WorkoutScheduleEditor.ChangeDay | src/components/training/WorkoutScheduleEditor.tsx:61-65 | only that slot's day changes |
| WorkoutScheduleEditor.ChangeAcceptedIff | src/components/training/WorkoutScheduleEditor.tsx:19-26 | an actual change is rejected exactly when another slot holds the workout |
| WorkoutScheduleEditor.ChangeKeepsDistinct | src/components/training/WorkoutScheduleEditor.tsx:16-30 | choosing a workout keeps a week free of duplicate workouts |
| WorkoutScheduleEditor.AddKeepsDistinct | src/components/training/WorkoutScheduleEditor.tsx:32-53 | adding a workout keeps a week free of duplicates |
| WorkoutScheduleEditor.RemoveKeepsDistinct | src/components/training/WorkoutScheduleEditor.tsx:55-59 | removing a slot keeps a week free of duplicates |
| WorkoutScheduleEditor.HandlersKeepDaysInWeek | src/components/training/WorkoutScheduleEditor.tsx:132-138 | with the day taken from the selector's options, every handler keeps all days in 0..6 |
| WorkoutScheduleEditor.WeekDaysKept | src/components/training/WorkoutScheduleEditor.tsx:17-65 | a handler that touches only one week keeps days in 0..6 when that week's are |
| WorkoutScheduleEditor.RemoveKeepsDays | src/components/training/WorkoutScheduleEditor.tsx:55-59 | removing a slot keeps days in 0..6 |
| WorkoutScheduleEditor.HandlersKeepOtherWeeks | src/components/training/WorkoutScheduleEditor.tsx:16-65 | no handler changes the number of weeks or any week number |
| WorkoutScheduleEditor.Editor.constructor | src/components/training/WorkoutScheduleEditor.tsx:13-14 | the editor holds the plan's own week objects and the store's catalog |
| WorkoutScheduleEditor.Editor.HandleWorkoutChange | src/components/training/WorkoutScheduleEditor.tsx:16-30 | accepted exactly when no other slot holds the workout; the shown schedule becomes `ChangeWorkout` of the old one, only the chosen week object is modified |
| WorkoutScheduleEditor.Editor.AddWorkout | src/components/training/WorkoutScheduleEditor.tsx:32-53 | reports the workout added, if any; the schedule becomes `AddWorkoutTo` of the old one |
| WorkoutScheduleEditor.Editor.RemoveWorkout | src/components/training/WorkoutScheduleEditor.tsx:55-59 | the schedule becomes `RemoveWorkoutFrom` of the old one |
| WorkoutScheduleEditor.Editor.HandleDayChange | src/components/training/WorkoutScheduleEditor.tsx:61-65 | the schedule becomes `ChangeDay` of the old one |
| MealScheduleEditor.MealWeekEntry.constructor | src/components/nutrition/MealScheduleEditor.tsx:12 | a week object holds the given week's number and meals |
| MealScheduleEditor.AddMealTo | src/components/nutrition/MealScheduleEditor.tsx:14-44 | a week without an entry gets a new entry at the end holding just the new meal; otherwise the new meal is appended to the first entry with that number and nothing else changes |
| MealScheduleEditor.UpdateMealIn | src/components/nutrition/MealScheduleEditor.tsx:46-56 | a week without an entry leaves the schedule alone; otherwise only meal j of that week changes, to the old meal with the patch's fields laid over it |
| MealScheduleEditor.RemoveMealFrom | src/components/nutrition/MealScheduleEditor.tsx:58-68 | a week without an entry leaves the schedule alone; otherwise meal j is spliced out and the entry itself goes when no meal is left |
| MealScheduleEditor.AddMealCounts | src/components/nutrition/MealScheduleEditor.tsx:14-44 | adding makes exactly one more meal, the named week then has an entry, and distinct week numbers stay distinct |
| MealScheduleEditor.UpdateMealCounts | src/components/nutrition/MealScheduleEditor.tsx:46-56 | updating keeps the week numbers and the number of meals |
| MealScheduleEditor.TotalMealsRemoveAt | src/components/nutrition/MealScheduleEditor.tsx:64 | dropping a week entry removes exactly its meals from the total |
| MealScheduleEditor.RemoveMealCounts | src/components/nutrition/MealScheduleEditor.tsx:58-68 | an index in range removes exactly one meal; an index past the end removes nothing, except that an entry already holding no meals is dropped |
| MealScheduleEditor.DistinctRemoveAt | src/components/nutrition/MealScheduleEditor.tsx:64 | splicing out an element keeps a list free of duplicates |
| MealScheduleEditor.WeekNumbersRemoveAt | src/components/nutrition/MealScheduleEditor.tsx:64 | splicing out a week splices out its number |
| MealScheduleEditor.HandlersKeepWellFormed | src/components/nutrition/MealScheduleEditor.tsx:14-68 | a schedule with distinct week numbers and no empty week keeps that shape under all three handlers |
| MealScheduleEditor.RemoveKeepsWellFormed | src/components/nutrition/MealScheduleEditor.tsx:58-68 | removing a meal keeps the schedule well formed |
| MealScheduleEditor.DropWeekWellFormed | src/components/nutrition/MealScheduleEditor.tsx:64 | dropping a week keeps the schedule well formed |
| MealScheduleEditor.ReplaceWeekWellFormed | src/components/nutrition/MealScheduleEditor.tsx:62 | replacing a week by a non-empty one with the same number keeps it well formed |
| MealScheduleEditor.GroupedIsWellFormed | src/store/nutritionPlans.ts:43-70 | the schedule grouping produces is well formed, so the editor starts well formed on a fetched plan |
| MealScheduleEditor.Editor.constructor | src/components/nutrition/MealScheduleEditor.tsx:12 | the editor holds the plan's own week objects and the plan id |
| MealScheduleEditor.Editor.AddMeal | src/components/nutrition/MealScheduleEditor.tsx:14-44 | the shown schedule becomes `AddMealTo` of the old one; either the same week objects or one fresh object appended |
| MealScheduleEditor.Editor.UpdateMeal | src/components/nutrition/MealScheduleEditor.tsx:46-56 | the shown schedule becomes `UpdateMealIn` of the old one, with the same week objects |
| MealScheduleEditor.Editor.RemoveMeal | src/components/nutrition/MealScheduleEditor.tsx:58-68 | the shown schedule becomes `RemoveMealFrom` of the old one; either the same week objects or one of them spliced out |
| MealScheduleEditor.Editor.DropWeek | src/components/nutrition/MealScheduleEditor.tsx:64 | the week objects lose the one at the index, and the shown schedule loses that week and keeps the rest in order |
| ExerciseStore.NewExercise | src/store/exercises.ts:28-34 | the appended exercise has the fresh id and creator '2' and is otherwise the draft |
| ExerciseStore.WithCreator | src/store/exercises.ts:20-23 | the sample list, entry for entry, with the creator replaced |
| ExerciseStore.FirstWithId | src/store/exercises.ts:46 | none exactly when no entry has the id, otherwise the first entry with it |
| ExerciseStore.UpdateEntries | src/store/exercises.ts:36-40 | every entry with the id gets the patch laid over it; all others are unchanged, in place |
| ExerciseStore.RemoveEntries | src/store/exercises.ts:42-44 | no entry with the id is left, every copy of every other entry is kept, in order |
| ExerciseStore.WithUser | src/store/exercises.ts:51 | the user is appended to the list, an absent list counting as empty, with no deduplication |
| ExerciseStore.WithoutUser | src/store/exercises.ts:59 | an absent list stays absent; otherwise every occurrence of the user goes and every copy of every other id stays, in order |
| ExerciseStore.AssignUser | src/store/exercises.ts:48-54 | only the entries with the id get the user appended |
| ExerciseStore.UnassignUser | src/store/exercises.ts:56-62 | only the entries with the id lose the user |
| ExerciseStore.ImportTemplates | src/store/exercises.ts:66-75 | the old list followed by the templates in order, each under its fresh id and creator '1' |
| ExerciseStore.CreatedBy | src/store/exercises.ts:77 | exactly the entries made by the user, in order |
| ExerciseStore.ExerciseLibrary.constructor | src/store/exercises.ts:20-26 | the library starts as the sample list credited to creator '1', which is also what reset restores |
| ExerciseStore.ExerciseLibrary.AddExercise | src/store/exercises.ts:28-34 | the list gains the new exercise at the end |
| ExerciseStore.ExerciseLibrary.UpdateExercise | src/store/exercises.ts:36-40 | the list becomes its patched version |
| ExerciseStore.ExerciseLibrary.DeleteExercise | src/store/exercises.ts:42-44 | the list loses the entries with the id |
| ExerciseStore.ExerciseLibrary.GetExercise | src/store/exercises.ts:46 | the first entry with the id, or none |
| ExerciseStore.ExerciseLibrary.AssignExercise | src/store/exercises.ts:48-54 | the entries with the id get the user appended |
| ExerciseStore.ExerciseLibrary.UnassignExercise | src/store/exercises.ts:56-62 | the entries with the id lose the user |
| ExerciseStore.ExerciseLibrary.ResetLibrary | src/store/exercises.ts:64 | the list is the initial one again |
| ExerciseStore.ExerciseLibrary.ImportTemplate | src/store/exercises.ts:66-75 | the templates are appended under fresh ids with creator '1' |
| ExerciseStore.ExerciseLibrary.GetMyExercises | src/store/exercises.ts:77 | the user's own exercises, in order |
| ExerciseStore.GetAfterAdd | src/store/exercises.ts:28-46 | an added exercise can be looked up under its fresh id, when that id was unused |
| ExerciseStore.GetAfterDelete | src/store/exercises.ts:42-46 | after a delete nothing has the id, and lookups of other ids are unchanged |
| ExerciseStore.GetAfterUpdate | src/store/exercises.ts:36-46 | with a patch that keeps the id, the lookup finds something exactly when it did before, and then the merged entry |
| ExerciseStore.FirstWithIdAt | src/store/exercises.ts:46 | the lookup returns the entry at k when no earlier entry has the id |
| ExerciseStore.AssignTwiceDuplicates | src/store/exercises.ts:48-54 | assigning the same user twice lists them twice |
| ExerciseStore.WithoutUserAfterWithUser | src/store/exercises.ts:48-62 | removing a just-appended user leaves them off, and restores the list when they were not on it |
| ExerciseStore.UnassignAfterAssign | src/store/exercises.ts:48-62 | unassigning after assigning leaves the user off, and undoes the assignment when the user was not on a present list before |
| ExerciseStore.UnassignIdempotent | src/store/exercises.ts:56-62 | unassigning twice is unassigning once |
| ExerciseStore.CreatedByAfterAdd | src/store/exercises.ts:28-34 | an added exercise is appended to creator '2's list and changes nobody else's |
| WorkoutStore.FirstWithId | src/store/workouts.ts:69 | none exactly when no workout has the id, otherwise the first one with it |
| WorkoutStore.UpdateEntries | src/store/workouts.ts:61-63 | every workout with the id gets the patch laid over it; all others are unchanged, in place |
| WorkoutStore.RemoveEntries | src/store/workouts.ts:65-67 | no workout with the id is left, every copy of every other is kept, in order |
| WorkoutStore.WorkoutLibrary.constructor | src/store/workouts.ts:55 | the library starts with the sample workouts |
| WorkoutStore.WorkoutLibrary.AddWorkout | src/store/workouts.ts:57-59 | the draft is appended under the fresh id |
| WorkoutStore.WorkoutLibrary.UpdateWorkout | src/store/workouts.ts:61-63 | the list becomes its patched version |
| WorkoutStore.WorkoutLibrary.DeleteWorkout | src/store/workouts.ts:65-67 | the list loses the workouts with the id |
| WorkoutStore.WorkoutLibrary.GetWorkout | src/store/workouts.ts:69 | the first workout with the id, or none |
| WorkoutStore.GetAfterAdd | src/store/workouts.ts:57-69 | an added workout can be looked up under its fresh id, when that id was unused |
| WorkoutStore.GetAfterDelete | src/store/workouts.ts:65-69 | after a delete nothing has the id, and lookups of other ids are unchanged |
| WorkoutStore.GetAfterUpdate | src/store/workouts.ts:61-69 | with a patch that keeps the id, the lookup finds something exactly when it did before, and then the merged workout |
| WorkoutStore.FirstWithIdAt | src/store/workouts.ts:69 | the lookup returns the workout at k when no earlier one has the id |
| WorkoutForm.InitialSelection | src/components/workouts/WorkoutForm.tsx:16-18 | a new workout starts with no exercises; an edited one with its own list, even an empty one |
| WorkoutForm.InitialDuration | src/components/workouts/WorkoutForm.tsx:142 | the field starts at 45 exactly for a new workout or a duration of 0 or 45; otherwise at the workout's duration |
| WorkoutForm.DefaultEntry | src/components/workouts/WorkoutForm.tsx:37-43 | the picked exercise's id with its default sets, reps, weight and rest, and no duration |
| WorkoutForm.UpdatedAt | src/components/workouts/WorkoutForm.tsx:49-53 | only the entry at the index changes, to the old entry with the updates laid over it |
| WorkoutForm.SelectedIds | src/components/workouts/WorkoutForm.tsx:202 | the ids of the selected entries, in order |
| WorkoutForm.Submission | src/components/workouts/WorkoutForm.tsx:21-34 | the named inputs unchanged, the duration as `parseInt(..., 10)` reads it (none for NaN), and the selection in order |
| WorkoutForm.WorkoutEditor.constructor | src/components/workouts/WorkoutForm.tsx:15-18 | the picker is closed and the selection is the initial one |
| WorkoutForm.WorkoutEditor.OpenSelector | src/components/workouts/WorkoutForm.tsx:157-179 | the picker opens; the selection is unchanged |
| WorkoutForm.WorkoutEditor.CloseSelector | src/components/workouts/WorkoutForm.tsx:194 | the picker closes; the selection is unchanged |
| WorkoutForm.WorkoutEditor.SelectExercise | src/components/workouts/WorkoutForm.tsx:36-47 | the default entry is appended and the picker closes |
| WorkoutForm.WorkoutEditor.UpdateExercise | src/components/workouts/WorkoutForm.tsx:49-53 | the selection becomes `UpdatedAt` of the old one, through a copied array |
| WorkoutForm.WorkoutEditor.RemoveExercise | src/components/workouts/WorkoutForm.tsx:55-57 | the entry at the index goes (none for an index past the end), the rest keep their order |
| WorkoutForm.WorkoutEditor.SelectorExclusions | src/components/workouts/WorkoutForm.tsx:202 | the ids of the current selection |
| WorkoutForm.WorkoutEditor.Submit | src/components/workouts/WorkoutForm.tsx:21-34 | the submission built from the current selection |
| WorkoutForm.SelectThenRemove | src/components/workouts/WorkoutForm.tsx:36-57 | picking adds exactly the exercise's id at the end of the exclusions, so it is not offered again, and removing the new last entry restores the list |
| WorkoutForm.SelectedNotOffered | src/components/workouts/WorkoutForm.tsx:200-203 | no exercise whose id is already in the workout is offered by the picker |
| WorkoutForm.UpdateKeepsExclusions | src/components/workouts/WorkoutForm.tsx:49-53 | an update naming no new exercise keeps the exclusions, and an empty update changes nothing |
| WorkoutForm.RemoveKeepsOtherIds | src/components/workouts/WorkoutForm.tsx:55-57 | removing an entry removes its id from the exclusions, at its place |
| WorkoutForm.DurationReadsBack | src/components/workouts/WorkoutForm.tsx:31 | a duration typed as a decimal number is submitted as that number, and an untouched field submits the initial duration |
| WorkoutForm.EditSubmitsSameExercises | src/components/workouts/WorkoutForm.tsx:16-32 | a workout opened for editing and submitted untouched carries its own exercises again |
| ExerciseForm.InitialState | src/components/exercises/ExerciseForm.tsx:18-20 | a new exercise starts with one blank instruction, one blank equipment entry and no URL; an edited one keeps its lists as they are, and its URL unless absent or empty |
| ExerciseForm.SubmittedNumber | src/components/exercises/ExerciseForm.tsx:36-40 | a missing field, one that is not a number and one whose value is 0 are all submitted as undefined; any other is submitted as its number, fractions included |
| ExerciseForm.SubmittedNumberReadsBack | src/components/exercises/ExerciseForm.tsx:36-40 | a number written in decimal is submitted as itself unless it is 0, and a blank field as undefined |
| ExerciseForm.SubmittedFraction | src/components/exercises/ExerciseForm.tsx:36-39 | a weight with a fraction, as the half-step weight inputs allow, is submitted as its exact value |
| ExerciseForm.SubmittedHalfStep | src/components/exercises/ExerciseForm.tsx:36-39 | `'2.5'` in a weight field is submitted as 2.5 |
| ExerciseForm.MuscleGroups | src/components/exercises/ExerciseForm.tsx:32 | no field gives no groups; otherwise one trimmed group per comma-separated piece, so at least one |
| ExerciseForm.EmptyFieldGivesOneEmptyGroup | src/components/exercises/ExerciseForm.tsx:32 | a present but empty field is one empty group, not none |
| ExerciseForm.MuscleGroupsRoundTrip | src/components/exercises/form/ExerciseMuscleGroups.tsx:17 | the input prefilled with the groups joined by ', ' gives them back on submit, when there is at least one group and none holds a comma or edge whitespace |
| ExerciseForm.NonBlank | src/components/exercises/ExerciseForm.tsx:33-34 | an order-preserving subsequence holding exactly the entries that are not blank after trimming, each as many times as in the list |
| ExerciseForm.NonBlankKeepsNonWhitespace | src/components/exercises/ExerciseForm.tsx:33-34 | an entry survives exactly when it holds a character other than whitespace |
| ExerciseForm.Submission | src/components/exercises/ExerciseForm.tsx:27-42 | the record names every field but the id and the assignments, credits creator '1', turns an empty URL into undefined, and normalises the lists and numbers as above |
| ExerciseForm.EditKeepsIdentity | src/components/exercises/ExerciseForm.tsx:27-42 | an edit saved through the store keeps the exercise's id and assignments, credits it to '1', and keeps an untouched non-empty URL |
| ExerciseForm.AddEntry | src/components/exercises/form/ExerciseInstructions.tsx:10 | the list with one blank entry appended (the equipment editor's button at ExerciseEquipment.tsx line 10 is the same) |
| ExerciseForm.RemoveEntry | src/components/exercises/form/ExerciseInstructions.tsx:11-13 | the entry at the index goes and the rest keep their order; an index past the end changes nothing |
| ExerciseForm.EditEntry | src/components/exercises/form/ExerciseInstructions.tsx:32-36 | only the entry at the index changes, to the typed value, through a copied array |
| ExerciseForm.AddedEntryNotSubmitted | src/components/exercises/ExerciseForm.tsx:33-34 | a freshly added entry changes nothing in what is submitted |
| ExerciseForm.NonBlankIdempotent | src/components/exercises/ExerciseForm.tsx:33-34 | filtering twice is filtering once |
| ExerciseForm.ToggleUser | src/components/exercises/form/ExerciseAssignment.tsx:40-47 | checking appends the id; unchecking drops every occurrence and keeps every copy of the other ids, in order |
| ExerciseForm.ToggleShowsClick | src/components/exercises/form/ExerciseAssignment.tsx:40-47 | after the click the box shows what was clicked, and the change is the one the store's assign and unassign make |
| ExerciseForm.CheckThenUncheck | src/components/exercises/form/ExerciseAssignment.tsx:40-47 | checking an unchecked box and unchecking it restores the selection |
| CatalogViews.AssignedUsers | src/components/exercises/ExerciseCard.tsx:17 | an order-preserving subsequence of the directory holding exactly the users on the exercise's assignment list; none when the list is absent |
| CatalogViews.ExerciseCopyDraft | src/components/exercises/ExerciseCard.tsx:19-25 | the exercise with ' (Copy)' appended to its name and nothing else changed |
| CatalogViews.DuplicatedExercise | src/components/exercises/ExerciseCard.tsx:19-25 | the store appends a copy with the fresh id, the copied name, creator '2' and every other field, the assignments included, as on the original |
| CatalogViews.DuplicateThenLookUp | src/components/exercises/ExerciseCard.tsx:19-25 | with an unused fresh id the copy is found under it, and a lookup of the original's id still finds what it found before |
| CatalogViews.DeleteFromCard | src/components/exercises/ExerciseCard.tsx:48 | the card's delete removes its own exercise and every entry with its id, and nothing else |
| CatalogViews.WorkoutCopyDraft | src/components/workouts/WorkoutCard.tsx:15-21 | the workout with ' (Copy)' appended to its name and nothing else changed |
| CatalogViews.ExerciseCount | src/components/workouts/WorkoutCard.tsx:65 | the count is 0 exactly when the workout has no exercises |
| CatalogViews.DuplicatedWorkout | src/components/workouts/WorkoutCard.tsx:15-21 | the store appends a copy with the fresh id, the copied name and the same exercises, duration, difficulty, type and description |
| CatalogViews.EditFromCard | src/components/workouts/WorkoutCard.tsx:73-75 | an edit without an id merges into the card's workout, keeps its id and leaves every other workout alone |
| CatalogViews.FilteredExercises | src/components/exercises/ExerciseList.tsx:19-37 | an order-preserving subsequence holding exactly the exercises whose name or description contains the term and whose category and difficulty pass the dropdowns; the count shown is at most the total |
| CatalogViews.NoFiltersListsAllExercises | src/components/exercises/ExerciseList.tsx:19-30 | an empty search with both dropdowns on all lists every exercise |
| CatalogViews.CategoryFilterSelects | src/components/exercises/ExerciseList.tsx:25 | a category filter keeps only exercises of that category |
| CatalogViews.FilteredWorkouts | src/components/workouts/WorkoutList.tsx:16-35 | the same rule on workouts, by type and difficulty |
| CatalogViews.NoFiltersListsAllWorkouts | src/components/workouts/WorkoutList.tsx:16-26 | an empty search with both dropdowns on all lists every workout |
| CatalogViews.OfferedExercises | src/components/workouts/ExerciseSelector.tsx:15-18 | an order-preserving subsequence of the library holding exactly the exercises whose name contains the term and whose id is not already selected |
| CatalogViews.EverythingOfferedAtFirst | src/components/workouts/ExerciseSelector.tsx:15-18 | with no search and nothing selected the whole library is offered |
| CatalogViews.OfferedShrinksWithSelection | src/components/workouts/ExerciseSelector.tsx:17 | selecting more never offers more |
| Catalog.MergeExerciseLaws | src/store/exercises.ts:38 | spreading an empty partial changes nothing, spreading the same partial twice is spreading it once, a complete object replaces the target, and an absent id keeps the old one |
| Catalog.MergeWorkoutLaws | src/store/workouts.ts:62 | the same spreading laws for workouts |
| Catalog.MergeWorkoutExerciseLaws | src/components/workouts/WorkoutForm.tsx:51 | the same spreading laws for a workout's exercise entries |
| Catalog.MergeExercise | src/store/exercises.ts:38 | `{ ...exercise, ...updates }`: each field present in the partial replaces the exercise's, every other field is kept |
| Catalog.MergeWorkout | src/store/workouts.ts:62 | `{ ...workout, ...updates }` field by field |
| Catalog.MergeWorkoutExercise | src/components/workouts/WorkoutForm.tsx:51 | `{ ...entry, ...updates }` field by field |
| AthleteSearch.OfferedAthletes | src/components/training/AthleteSearch.tsx:21-24 | an order-preserving subsequence of the directory holding exactly the athletes whose username contains the term, case-insensitively |
| AthleteSearch.OnlyAthletesOffered | src/components/training/AthleteSearch.tsx:21-24 | a coach is never offered, and with an empty search every athlete is |
| AthleteSearch.SelectedAthlete | src/components/training/AthleteSearch.tsx:27 | none exactly when no user has the id, otherwise the first user with it, whatever the role |
| AthleteSearch.SelectedIgnoresRole | src/components/training/AthleteSearch.tsx:27 | a coach's id shows the coach as selected |
| AthleteSearch.Placeholder | src/components/training/AthleteSearch.tsx:46 | the selected user's name, or 'Search athletes...' when the id matches no one |
| AthleteSearch.DropdownView | src/components/training/AthleteSearch.tsx:57-86 | closed exactly when not open, a spinner exactly when open and loading, otherwise the offered athletes when there are any and 'No athletes found' exactly when there are none |
| AthleteSearch.AthletePicker.constructor | src/components/training/AthleteSearch.tsx:11-12 | an empty search and a closed list |
| AthleteSearch.AthletePicker.Type | src/components/training/AthleteSearch.tsx:48-51 | the search follows the input and the list opens |
| AthleteSearch.AthletePicker.Focus | src/components/training/AthleteSearch.tsx:52 | the list opens; the search is unchanged |
| AthleteSearch.AthletePicker.ClickOutside | src/components/training/AthleteSearch.tsx:30-38 | the list closes; the search is unchanged |
| AthleteSearch.AthletePicker.Pick | src/components/training/AthleteSearch.tsx:68-72 | the athlete's id is reported, the search is cleared and the list closes |
| AthleteSearch.PickShowsAthlete | src/components/training/AthleteSearch.tsx:27-69 | after a pick the placeholder names the athlete picked, when no earlier user has the same id |
| Messages.MessageOfRow | src/store/messages.ts:41-48 | every field of the row is copied to the message of the same name |
| Messages.MessagesOfRows | src/store/messages.ts:41-48 | one message per row, in query order |
| Messages.RowMappingRoundTrip | src/store/messages.ts:41-48 | the mapping loses nothing: the rows read back from the messages, and a message survives the trip to a row and back |
| Messages.SendPayload | src/store/messages.ts:62-69 | the insert has the given sender, receiver and content and is always unread |
| Messages.MarkRead | src/store/messages.ts:90-94 | every message from the sender becomes read, whoever received it; every other message is unchanged |
| Messages.MarkReadLaws | src/store/messages.ts:90-94 | marking twice is marking once, afterwards no message from the sender is unread, and no field but the flag changes |
| Messages.MarkReadIgnoresReceiver | src/store/messages.ts:91-93 | a message from the sender to a third user is marked too |
| Messages.RecountUser | src/store/messages.ts:97-100 | the receiver of the first message not received by the sender, when that receiver is non-empty; none when every message was received by the sender or that receiver is empty |
| Messages.RecountUserUnchangedByMarking | src/store/messages.ts:90-97 | the recount user is the same looked up before or after the local update |
| Messages.FindIndexCongruent | src/store/messages.ts:97 | lists the test judges alike element by element have their first match at the same index |
| Messages.UnreadCountOf | src/store/messages.ts:114 | a missing count reads as 0, a present one as itself |
| Messages.MessageStore.constructor | src/store/messages.ts:25-28 | no messages, not loading, no error, count 0 |
| Messages.MessageStore.BeginFetch | src/store/messages.ts:31 | loading with the error cleared; messages and count unchanged |
| Messages.MessageStore.FetchSucceeded | src/store/messages.ts:41-50 | the messages become the mapped rows and loading ends |
| Messages.MessageStore.FetchFailed | src/store/messages.ts:54-57 | the old messages stay, the error is stored and loading ends |
| Messages.MessageStore.MarkAsRead | src/store/messages.ts:89-100 | the messages become `MarkRead` of the old ones, and the user to recount is looked up in the updated list |
| Messages.MessageStore.SetUnreadCount | src/store/messages.ts:114 | the count becomes the returned one, 0 when missing; nothing else changes |
| Chat.PlanAthletes | src/pages/Chat.tsx:39-41 | exactly the non-empty athlete ids of the plans |
| Chat.PlanCoaches | src/pages/Chat.tsx:43-45 | exactly the coach ids of the plans assigned to the athlete |
| Chat.ChatPartners | src/pages/Chat.tsx:38-46 | no partner twice, listed in the order of each partner's first plan; a coach's partners are exactly the athletes of the plans, anyone else's the coaches of the plans assigned to them |
| Chat.PartnersOfVisiblePlans | src/pages/Chat.tsx:12-46 | over the plans the page is shown, a coach's partners are exactly the athletes assigned to the plans they coach, an athlete's exactly the coaches of their plans |
| Chat.CoachPartners | src/pages/Chat.tsx:38-42 | the coach half of `PartnersOfVisiblePlans` |
| Chat.AthletePartners | src/pages/Chat.tsx:43-46 | the athlete half of `PartnersOfVisiblePlans` |
| Chat.MarkOnSelect | src/pages/Chat.tsx:24-28 | a sender is marked read exactly when a non-empty partner is selected and a profile is present, and it is that partner |
| Chat.SendFromPage | src/pages/Chat.tsx:71-78 | the insert is the store's send payload from the profile to the selected partner, then the profile's messages are refetched |
| Chat.ChatPage.constructor | src/pages/Chat.tsx:15 | nobody selected |
| Chat.ChatPage.SelectUser | src/pages/Chat.tsx:24-28 | the clicked partner becomes selected; messages are marked read only when the selection changed |
| Chat.Conversation | src/components/chat/ChatWindow.tsx:25-28 | an order-keeping sub-list of the messages holding exactly those between the two users |
| Chat.ConversationSymmetric | src/components/chat/ChatWindow.tsx:25-28 | both users see the same conversation, and marking read keeps its size |
| Chat.MarkedFilterLength | src/components/chat/ChatWindow.tsx:25-28 | a filter blind to the read flag keeps as many messages after marking as before |
| Chat.SentMessageShows | src/pages/Chat.tsx:71-78 | a sent message, once in the refetched list, is in the conversation with its receiver |
| Chat.BubbleSide | src/components/chat/ChatWindow.tsx:66-73 | on the right exactly when the current user sent the message |
| Chat.LeftBubblesAreReceived | src/components/chat/ChatWindow.tsx:25-66 | every left bubble of a conversation came from the other user to the current one |
| Chat.Outgoing | src/components/chat/ChatWindow.tsx:38-42 | nothing while sending or for a blank input, otherwise the trimmed input |
| Chat.SendDisabled | src/components/chat/ChatWindow.tsx:97 | the button is disabled exactly when a submit would send nothing |
| Chat.OutgoingIsTrimmed | src/components/chat/ChatWindow.tsx:38-42 | what is sent is non-empty, has no white space at either end, and would be sent unchanged again |
| Chat.Composer.constructor | src/components/chat/ChatWindow.tsx:19-20 | empty input, not sending |
| Chat.Composer.Type | src/components/chat/ChatWindow.tsx:90 | the input becomes the typed text |
| Chat.Composer.Submit | src/components/chat/ChatWindow.tsx:36-49 | sends `Outgoing` of the old state, clears the input only after a delivered send, and ends not sending as it began |
| ChatUserList.LastMessage | src/components/chat/ChatUserList.tsx:17-20 | none exactly when no message involves the user; otherwise a message the user sent or received with none such after it |
| ChatUserList.LastMessages | src/components/chat/ChatUserList.tsx:16-22 | one entry per partner and no other, each holding that partner's last message |
| ChatUserList.LookUp | src/components/chat/ChatUserList.tsx:37 | a partner without an entry has no last message |
| ChatUserList.SortKey | src/components/chat/ChatUserList.tsx:26-27 | the last message's timestamp, the empty string without one |
| ChatUserList.LexTotal | src/components/chat/ChatUserList.tsx:28 | any two keys compare one way or the other |
| ChatUserList.LexTransitive | src/components/chat/ChatUserList.tsx:28 | the key order chains |
| ChatUserList.LexLessEq | src/components/chat/ChatUserList.tsx:28 | comparison of two timestamps by character code, the empty string lowest; LexTotal and LexTransitive make it a total order |
| ChatUserList.SortedNewestFirst | src/components/chat/ChatUserList.tsx:25-29 | every user's key is not before the key of any user after them |
| ChatUserList.InsertByKey | src/components/chat/ChatUserList.tsx:25-29 | one insertion step: the user goes ahead of the first user whose key is not later than theirs |
| ChatUserList.InsertByKeyMembers | src/components/chat/ChatUserList.tsx:25-29 | an insertion step adds its one user and loses none |
| ChatUserList.InsertByKeySorted | src/components/chat/ChatUserList.tsx:25-29 | an insertion step keeps the list newest first |
| ChatUserList.InsertAtFrontSorted | src/components/chat/ChatUserList.tsx:25-29 | a user not older than the head may go in front |
| ChatUserList.InsertBehindSorted | src/components/chat/ChatUserList.tsx:25-29 | a user older than the head may go behind it |
| ChatUserList.HeadNotAfterInserted | src/components/chat/ChatUserList.tsx:25-29 | the head a user sorts behind is not older than anything in the rest after the insertion |
| ChatUserList.SortedUsersCorrect | src/components/chat/ChatUserList.tsx:25-29 | the order is a permutation of the partners, newest last message first |
| ChatUserList.SortedUsers | src/components/chat/ChatUserList.tsx:25-29 | `[...users].sort(...)` as an insertion sort; SortedUsersCorrect and SortedUsersStable say what order it yields |
| ChatUserList.InsertByKeyKeepsTies | src/components/chat/ChatUserList.tsx:25-29 | an insertion step puts the new user ahead of the users with the same key and leaves their order alone |
| ChatUserList.SortedUsersStable | src/components/chat/ChatUserList.tsx:25-29 | the sort is stable: the users sharing a key come out in the order the partner list has them |
| ChatUserList.SilentPartnersLast | src/components/chat/ChatUserList.tsx:25-29 | partners with no last message come after every partner with a timestamped one |
| ChatUserList.Rows | src/components/chat/ChatUserList.tsx:35-68 | at most one row per partner; each shows a directory user who is a partner, that partner's last message, and is highlighted exactly when selected |
| ChatUserList.RowCovers | src/components/chat/ChatUserList.tsx:35-39 | every partner the directory knows draws a row showing the first directory user with that id |
| ChatUserList.RowsStep | src/components/chat/ChatUserList.tsx:35-39 | a known head draws the first row ahead of the rest's rows; an unknown head draws nothing |
| ChatUserList.ShowsNoConversations | src/components/chat/ChatUserList.tsx:70-74 | the notice shows exactly when there are no partners |
| ChatUserList.EmptyListWithoutNotice | src/components/chat/ChatUserList.tsx:35-74 | when no partner is in the directory no row is drawn and yet the notice is hidden |
| ChatUserList.NoRowsForUnknown | src/components/chat/ChatUserList.tsx:35-39 | partners all unknown to the directory draw no rows |
| YouTube.Run | src/utils/youtube.ts:11 | `([^&?]+)`: a slice of the text made of id characters that cannot be extended |
| YouTube.RunIsUnique | src/utils/youtube.ts:11 | any unextendable run of id characters is the one the capture takes |
| YouTube.RunIsMaximal | src/utils/youtube.ts:11 | the capture is a maximal run |
| YouTube.Capture | src/utils/youtube.ts:11 | the group fails exactly when no id character follows, and is never empty |
| YouTube.AfterLiteral | src/utils/youtube.ts:11 | a literal alternative matches exactly when it stands there and an id character follows it |
| YouTube.ReachOfDot | src/utils/youtube.ts:11 | `.+` reaches up to the first line terminator |
| YouTube.LastAmpV | src/utils/youtube.ts:11 | `.+&v=` takes the last `&v=` within reach that an id character follows, and fails exactly when there is none |
| YouTube.WatchAmpAlternative | src/utils/youtube.ts:11 | the `watch?.+&v=` alternative matches exactly when some `&v=` after at least one non-terminator is followed by an id character |
| YouTube.WatchAmpFound | src/utils/youtube.ts:11 | a match of that alternative ends at such an `&v=` |
| YouTube.WatchAmpMissing | src/utils/youtube.ts:11 | when it fails no such `&v=` exists |
| YouTube.HostsExclusive | src/utils/youtube.ts:11 | the two hosts never stand at one position |
| YouTube.LongHostMeaning | src/utils/youtube.ts:11 | behind `youtube.com/` the alternatives match exactly when a long prefix is followed by an id character, and capture the run after one |
| YouTube.ShortHostOnly | src/utils/youtube.ts:11 | where `youtu.be/` stands no other prefix does |
| YouTube.MatchAtMeaning | src/utils/youtube.ts:11 | at one position, the pattern matches exactly when some prefix is followed by an id character, and captures the maximal run after one |
| YouTube.SearchFromMeaning | src/utils/youtube.ts:11 | the unanchored search finds the leftmost position where a match can start, and fails exactly when there is none |
| YouTube.GetYouTubeId | src/utils/youtube.ts:10-13 | `getYouTubeId`: the capture of the leftmost match, or null; YouTubeIdMeaning states what that is in terms of the text |
| YouTube.YouTubeIdMeaning | src/utils/youtube.ts:10-13 | `null` exactly when no prefix in the text is followed by an id character; otherwise the maximal run after a prefix at the leftmost possible match |
| YouTube.YouTubeIdShape | src/utils/youtube.ts:10-13 | a returned id is non-empty and holds neither '&' nor '?' |
| YouTube.ShortLinkStopsAtQuery | src/utils/youtube.ts:11 | 'youtu.be/abc?t=1' gives 'abc' |
| YouTube.WatchFirstVWins | src/utils/youtube.ts:11 | 'youtube.com/watch?v=a&v=b' gives 'a' |
| YouTube.GetYouTubeEmbedUrl | src/utils/youtube.ts:1-8 | no address exactly when there is no id; otherwise the embed address of the id with the origin |
| YouTube.PlayerUrl | src/components/exercises/form/ExerciseVideo.tsx:10 | an empty field shows no player; any other shows the embed address |
| YouTube.SearchSkipsNonY | src/utils/youtube.ts:11 | positions that hold no 'y' never start a match |
| YouTube.EmbedUrlRoundTrip | src/utils/youtube.ts:1-13 | reading the id from an embed address gives back the id of the link it was built from |
| YouTube.EmbedIdReadsBack | src/utils/youtube.ts:4-11 | any id without '&' or '?' is read back from its embed address |
| YouTube.IdAfterEmbedHost | src/utils/youtube.ts:4-11 | on an embed address the match starts at its host and captures the id |
| Routing.PathsRoundTrip | src/App.tsx:275-310 | every route has its own path, and a path in the table names one route |
| Routing.PageAt | src/App.tsx:275-310 | the route whose path is the given one, or none for a path outside the table |
| Routing.AllowedRoles | src/App.tsx:286-310 | the library and plan editors admit coaches only, the athlete's plan pages athletes only, and the chat and the index anyone |
| Routing.ProtectedRoute | src/App.tsx:15-44 | the spinner until the store is ready; home without a profile; a role redirect (athletes to their plan, others home) when the role is not allowed; otherwise exactly the page asked for |
| Routing.IndexElement | src/App.tsx:276-285 | athletes go to their plan, everyone else, signed in or not, to the training plans |
| Routing.Visit | src/App.tsx:275-310 | the index route redirects by role; every other route goes through the guard with its own roles |
| Routing.RedirectsStayInTable | src/App.tsx:15-44 | every redirect targets a route of the table |
| Routing.SignedInSettles | src/App.tsx:275-310 | a ready coach or athlete reaches within two hops a page their role may see; an allowed page shows as asked, and an athlete asking for anything but the chat or their nutrition ends on their plan |
| Routing.RedirectCycle | src/App.tsx:276-285 | without a profile, or with a role other than coach or athlete, the index and the training plans redirect to each other and no number of hops shows a page |
| Routing.AppScreen | src/App.tsx:54-62 | the spinner exactly until the store is ready; the landing page exactly for a visitor without the dialog; otherwise the routes, with the dialog when it is open |
| Routing.VisitorWithDialogCycles | src/App.tsx:276-285 | a visitor who opens the dialog reaches the routes, where the index route never settles |
| AuthModal.Request | src/components/auth/AuthModal.tsx:28-42 | login always signs in with the email and password; register fails with the username message when the username is under three UTF-16 code units, and otherwise signs up with all four fields |
| AuthModal.UsernameCheck | src/components/auth/AuthModal.tsx:28-34 | login ignores the username; any username of three characters or more passes, and so do two characters outside the Basic Multilingual Plane |
| AuthModal.AuthDialog.constructor | src/components/auth/AuthModal.tsx:12-18 | login mode, empty fields, the athlete role, no error, not busy |
| AuthModal.AuthDialog.HandleSubmit | src/components/auth/AuthModal.tsx:22-51 | the store call made is the request when it succeeds and none otherwise; the dialog closes exactly when the call was made and resolved; a failed username check shows its message with the fields kept; after a store call the dialog on screen is a fresh one (login mode, empty fields, no error); never left busy |
| AuthModal.StoreCallRemountsDialog | src/App.tsx:54-62 | while the store is loading the app shows only the spinner, and a signed-out visitor with `showAuth` set then gets the routes with the dialog again |
| AuthModal.AuthDialog.ToggleMode | src/components/auth/AuthModal.tsx:166-170 | the other mode, the error cleared, everything else unchanged |
| Seqs.Filter | src/pages/Chat.tsx:40 | every kept element comes from the input and satisfies the test, and every element that does is kept; the number of copies is FilterMultiset's |
| Seqs.FilterMultiset | src/pages/Chat.tsx:40 | a passing value is kept as often as it occurs, a failing one not at all |
| Seqs.FilterIsSubsequence | src/components/chat/ChatWindow.tsx:25 | the kept elements are in their original order |
| Seqs.FilterAll | src/components/exercises/ExerciseList.tsx:22-23 | a test that holds everywhere keeps everything |
| Seqs.FilterNone | src/components/chat/ChatUserList.tsx:17-19 | a test that holds nowhere keeps nothing |
| Seqs.FilterCongruent | src/components/chat/ChatWindow.tsx:25-28 | tests that agree on every element keep the same elements |
| Seqs.FilterAppend | src/pages/Chat.tsx:40 | filtering distributes over concatenation |
| Seqs.FilterEmptyIff | src/components/chat/ChatUserList.tsx:17-20 | nothing is kept exactly when no element passes |
| Seqs.FilterLast | src/components/chat/ChatUserList.tsx:17-20 | the last kept element is the last passing element of the input |
| Seqs.FilterLastIndex | src/components/chat/ChatUserList.tsx:17-20 | the position of that element, with no passing element after it |
| Seqs.FindIndex | src/store/trainingPlans.ts:44 | -1 exactly when no element passes; otherwise the first passing index |
| Seqs.Find | src/components/chat/ChatUserList.tsx:36 | none exactly when no element passes; otherwise the first passing element |
| Seqs.FindCons | src/components/chat/ChatUserList.tsx:36 | find looks at the head first, then the tail |
| Seqs.FilterHeadIsFind | src/components/chat/ChatUserList.tsx:36 | the first element a filter keeps is what find returns |
| Seqs.FindAfterFilter | src/components/chat/ChatUserList.tsx:36 | removing only elements the test rejects does not change what find returns |
| Seqs.FindOfKeptHead | src/components/chat/ChatUserList.tsx:36 | a kept head is looked at first |
| Seqs.IndexOf | src/pages/Chat.tsx:42 | -1 exactly when the value is absent; otherwise its first index |
| Seqs.RemoveAt | src/components/training/WorkoutScheduleEditor.tsx:57 | `splice(i, 1)` removes the element at an index in range, shifting the rest down, and leaves the array alone past its end |
| Seqs.FirstOccurrencesFromMembers | src/pages/Chat.tsx:42 | the dedup from a position holds exactly the values whose first occurrence is there or later |
| Seqs.FirstOccurrencesFromAreFirst | src/pages/Chat.tsx:42 | every value kept from a position first occurs there or later |
| Seqs.FirstOccurrencesFromDistinct | src/pages/Chat.tsx:42 | the dedup from a position holds no value twice |
| Seqs.DedupMembers | src/pages/Chat.tsx:42 | the dedup holds exactly the values of the input, each once |
| Seqs.Dedup | src/pages/Chat.tsx:42 | `filter((id, index, self) => self.indexOf(id) === index)`: the elements that are the first occurrence of their value |
| Seqs.DedupOrder | src/pages/Chat.tsx:42 | the dedup lists its values in the order of their first occurrence in the input |
| Seqs.DedupIsSubsequence | src/pages/Chat.tsx:42 | the dedup keeps first occurrences in their order |
| Seqs.FirstOccurrencesSubsequence | src/pages/Chat.tsx:42 | the dedup from a position is an order-keeping selection of the suffix |
| Seqs.DedupSnoc | src/pages/Chat.tsx:42 | appending a value grows the dedup by it exactly when it is new |
| Seqs.IndexOfSnoc | src/pages/Chat.tsx:42 | appending does not move the first index of a value already present |
| Seqs.FirstOccurrencesSnoc | src/pages/Chat.tsx:42 | appending a value adds it to the dedup from any position exactly when it is new |
| Text.ToLower | src/components/exercises/ExerciseList.tsx:22-23 | same length, each ASCII capital lowered and every other character kept |
| Text.Includes | src/components/exercises/ExerciseList.tsx:22-23 | `includes`: the needle stands at some position of the text; IncludesAt and IncludesEmpty give its cases |
| Text.IncludesAt | src/components/exercises/ExerciseList.tsx:22-23 | a needle found at some position is included |
| Text.IncludesEmpty | src/components/exercises/ExerciseList.tsx:22-23 | the empty search term is in every string |
| Text.TrimStart | src/components/chat/ChatWindow.tsx:38 | a suffix with no leading white space, only white space removed |
| Text.TrimEnd | src/components/chat/ChatWindow.tsx:38 | a prefix with no trailing white space, only white space removed |
| Text.Trim | src/components/chat/ChatWindow.tsx:38 | `trim`: both ends stripped of white space; TrimIsSlice, TrimBounds and TrimEmptyIffBlank say what remains |
| Text.TrimIsSlice | src/components/chat/ChatWindow.tsx:38 | `trim` leaves a contiguous slice that starts and ends with non-white-space, and removes only white space |
| Text.TrimBounds | src/components/chat/ChatWindow.tsx:38 | where `trim` cuts, with only white space outside |
| Text.TrimEnds | src/components/chat/ChatWindow.tsx:38 | a non-empty trimmed string starts and ends with non-white-space |
| Text.TrimEmptyIffBlank | src/components/chat/ChatWindow.tsx:38 | trimming leaves nothing exactly when every character is white space |
| Text.Split | src/components/exercises/ExerciseForm.tsx:32 | at least one piece and no piece holds the separator |
| Text.FirstIndexOf | src/components/exercises/ExerciseForm.tsx:32 | the first position of the character |
| Text.Join | src/components/exercises/form/ExerciseMuscleGroups.tsx:17 | `join`: the pieces with the separator between neighbours; SplitJoin and TrimmedSplitOfJoin invert it |
| Text.SplitJoin | src/components/exercises/ExerciseForm.tsx:32 | joining the pieces with the separator gives the input back |
| Text.FirstIndexOfAt | src/components/exercises/ExerciseForm.tsx:32 | a position with the character and none before it is the first |
| Text.TrimEach | src/components/exercises/ExerciseForm.tsx:32 | each piece trimmed, one for one |
| Text.TrimOfTrimmed | src/components/exercises/ExerciseForm.tsx:32 | trimming gives back a string without outer white space, also from behind one space |
| Text.TrimmedSplitOfJoin | src/components/exercises/ExerciseForm.tsx:32 | splitting groups joined with ', ' at the commas and trimming gives the groups back when none holds a comma or outer white space |
| Text.DecimalStringOfNat | src/components/workouts/WorkoutExerciseList.tsx:46 | a natural number is written as a non-empty run of digits whose value it is |
| Text.DecimalString | src/pages/TrainingPlans.tsx:49 | `toString` of an integer: a minus sign for a negative number, then its decimal digits |
| Text.NumberValue | src/components/exercises/ExerciseForm.tsx:36-40 | `Number` of a string: an all-blank string is 0, and a string read as a number holds, after trimming, only digits and decimal points, with an optional sign in front |
| Text.NumberValueOfDecimalString | src/components/exercises/ExerciseForm.tsx:36-40 | `Number` reads back what `toString` writes |
| Text.NumberValueOfFraction | src/components/exercises/ExerciseForm.tsx:36-40 | `Number` of `whole.frac` is the whole digits' value plus the fraction digits' value over 10 to the power of their count |
| Text.DigitPrefix | src/components/workouts/WorkoutForm.tsx:31 | the longest leading run of digits |
| Text.ParseInt | src/components/workouts/WorkoutForm.tsx:31 | `parseInt(s, 10)`: leading white space skipped, an optional sign, then the longest run of digits, NaN when there is none; ParseIntOfDigits and ParseIntOfDecimalString give its values |
| Text.ParseIntOfDigits | src/components/workouts/WorkoutForm.tsx:31 | `parseInt` of a run of digits is its value |
| Text.ParseIntOfNegativeDigits | src/components/workouts/WorkoutForm.tsx:31 | `parseInt` of '-' and a run of digits is minus its value |
| Text.ParseIntOfDecimalString | src/components/workouts/WorkoutForm.tsx:31 | `parseInt` reads back what `toString` writes |
| Text.Utf16Length | src/components/auth/AuthModal.tsx:32 | between one and two units per character, one per character within the Basic Multilingual Plane |

## Left out

- Database and auth I/O: every query, insert, update and delete, the read-marking and unread-count procedures, and session handling are not modelled as effects. What a call returns is a parameter, and so is whether it failed.
- `updatePlan` in both plan stores: it only forwards the update to the database and refetches, so it has no local logic to model.
- The retrying fetch helper and its network-error test: they depend on timers, randomness and a foreign library's error objects.
- React effects and async ordering: how refetches interleave with user actions, and spinners other than the route guard's.
- The plan stores' `loading` and `error` fields: `TrainingPlans.TrainingPlanStore` and `NutritionPlans.NutritionPlanStore` hold only the plans. The failure path of their `fetchPlans` is left out with them; it stores the error, ends loading and keeps the plans as they were. Only the message store models its `loading` and `error`.
- Calendar arithmetic: instants are integer milliseconds and a day is 86 400 000 ms. Local time, daylight saving and the sample plans' "start tomorrow" date are left out; the start date is a parameter.
- Floating point: the progress percentage is an exact real, and `NaN`/`Infinity` stand for the division by zero. Rounding is not modelled.
- `Number(...)` reads optionally signed decimal literals with or without a fraction (`2`, `2.5`, `.5`, `5.`) as exact reals. Exponents, hexadecimal and `Infinity` give `NaN` in the model, whereas JavaScript reads them as numbers; the form's number inputs do not produce them.
- Unicode: `toLowerCase` lowers ASCII letters only, and `localeCompare` on the timestamps is plain character-code order. Both are exact for the ISO timestamps and ASCII names the app stores.
- `window.location.origin` is a parameter of the embed address.
- The `catch` in `getYouTubeEmbedUrl` is not modelled, because no step inside it can throw.
- Input and focus handlers: the modelled ones are `AthleteSearch.AthletePicker.Type`, `Focus` and `ClickOutside`, `ExerciseForm.EditEntry` (the instruction and equipment lines), `ExerciseForm.ToggleUser` (the assignment boxes), `WorkoutForm.WorkoutEditor.UpdateExercise` (the entry's number inputs, with the update as a parameter), `WorkoutScheduleEditor.Editor.HandleWorkoutChange` and `HandleDayChange`, `MealScheduleEditor.Editor.UpdateMeal` and `Chat.Composer.Type`; the search boxes and filter dropdowns of the list views enter as those views' parameters. Left out are the setters that only copy a field into component state (the dialog's username, email, password and role, the video address, the plan forms' weeks and text fields) and the chat window's scroll to the newest message.
- Routing.Follow: redirects are followed for a given number of hops, so the model states that no number of hops settles rather than that the browser loops.
- The duplicate route guard in the second app shell, the mock exercise selector, the dashboard mock data and the purely presentational components: they carry no logic beyond what is modelled here.
- `crypto.randomUUID` and the database-assigned ids are parameters. Where freshness matters it is a precondition.
- PlanVisibility.MyNutritionPage: for a coach it states what a shown plan is, but not when no plan is shown.
- MealScheduleEditor.UpdateMealIn: requires the meal index to be in range, and so does `MealScheduleEditor.Editor.UpdateMeal`. Past the end of the list the source would write a partial meal.
- WorkoutForm.UpdatedAt: requires an index the form rendered, and so does `WorkoutForm.WorkoutEditor.UpdateExercise`. The source's handler is only reachable from a rendered entry; past the end it would add a partial entry.
- ExerciseForm.EditEntry: requires the index of a rendered entry, for the same reason.
- WorkoutScheduleEditor.Editor.HandleWorkoutChange: requires in-range week and slot indexes, as do `AddWorkout`, `RemoveWorkout` and `HandleDayChange`, because the source calls them only from rendered slots.
- SampleTrainingPlan.DefaultAthleteId: the fetched directory never reaches the default plan. `getDefaultTrainingPlan` and `getDefaultNutritionPlan` read the users from a store snapshot taken before they await `fetchUsers`, and the fetch replaces the store's state rather than the snapshot. The model's `users` is therefore the store's list at the call; with an empty store the athlete is `''` whatever the fetch loads (`EmptyStoreGivesNoAthlete`). Only the schedule of the default plan is used by the plan forms.
- AuthModal.AuthDialog.HandleSubmit: the browser's constraint validation on the inputs (`required` on all three, `minLength` 3 on the username and 6 on the password, `type="email"`) is not modelled. It stops a submit before the handler runs, so the username-too-short message of `AuthModal.Request` and `AuthModal.UsernameCheck` is not reachable through a browser submit.
- WorkoutForm.Submission: the duration is `Option<int>`, with `None` for the `NaN` that `parseInt` gives on a blank field. The browser's `required` check that prevents this is not modelled.
- TrainingPlanForm.BuildPlan: the weeks value is an integer. A cleared weeks field makes `parseInt` give `NaN`, which would be submitted as the week count with an empty schedule; that case is not modelled, because the browser's `required` check blocks the submit.
- NutritionPlanForm.BuildPlan: the weeks value is an integer. A cleared weeks field's `NaN` would be submitted as the week count; that case is not modelled, for the same reason.

