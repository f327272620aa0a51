/** Time-dependent derivations of a plan: its status (upcoming, active,
    completed) as the training and nutrition plan pages and the status panel
    compute it, the progress percentage of the panel, and the "current week"
    the chat view shows an athlete. The clock is a parameter `now`. */
module PlanStatus {
  import opened Wrappers
  import opened Seqs
  import opened Time
  import opened TrainingPlans

  datatype Status = Upcoming | Active | Completed

  /** The status as the filter dropdowns spell it. */
  function StatusName(s: Status): (name: string)
    ensures name in {"upcoming", "active", "completed"}
  {
    match s
    case Upcoming => "upcoming"
    case Active => "active"
    case Completed => "completed"
  }

  /** Position in the life of a plan, for stating monotonicity. */
  function Rank(s: Status): nat
  {
    match s
    case Upcoming => 0
    case Active => 1
    case Completed => 2
  }

  const WEEK_MS: int := 7 * DAY_MS

  /** `endDate.setDate(endDate.getDate() + weeks * 7)` in whole days of
      24 hours. */
  function EndDate(start: Instant, weeks: int): Instant
  {
    start + weeks * WEEK_MS
  }

  /** `getTrainingPlanStatus` and `getPlanStatus`: upcoming before the start,
      completed after the end, active otherwise. */
  function PlanStatusAt(now: Instant, start: Instant, weeks: int): Status
  {
    if now < start then Upcoming
    else if now > EndDate(start, weeks) then Completed
    else Active
  }

  /** For a plan of at least zero weeks each status is an interval of time,
      and both boundary instants are active. */
  lemma StatusIntervals(now: Instant, start: Instant, weeks: int)
    requires weeks >= 0
    ensures PlanStatusAt(now, start, weeks) == Upcoming <==> now < start
    ensures PlanStatusAt(now, start, weeks) == Active <==> start <= now <= start + weeks * 7 * DAY_MS
    ensures PlanStatusAt(now, start, weeks) == Completed <==> now > start + weeks * 7 * DAY_MS
    ensures PlanStatusAt(start, start, weeks) == Active
    ensures PlanStatusAt(start + weeks * 7 * DAY_MS, start, weeks) == Active
  {
  }

  /** A plan with a negative number of weeks ends before it starts, so it is
      never active: it goes straight from upcoming to completed. */
  lemma NegativeWeeksNeverActive(now: Instant, start: Instant, weeks: int)
    requires weeks < 0
    ensures PlanStatusAt(now, start, weeks) != Active
    ensures PlanStatusAt(now, start, weeks) == Completed <==> now >= start
  {
  }

  /** As time passes the status only moves forward:
      upcoming, then active, then completed. */
  lemma StatusMonotone(now1: Instant, now2: Instant, start: Instant, weeks: int)
    requires now1 <= now2
    ensures Rank(PlanStatusAt(now1, start, weeks)) <= Rank(PlanStatusAt(now2, start, weeks))
  {
  }

  // ---------------------------------------------------------------------
  // The status panel (components/training/TrainingPlanStatus.tsx)
  // ---------------------------------------------------------------------

  /** `(completed / total) * 100` as a JavaScript number, taken exactly:
      dividing by a zero total gives `NaN` for 0/0 and `Infinity` otherwise. */
  datatype Progress = Percent(value: real) | NaN | Infinity

  function ProgressOf(completed: nat, total: nat): (p: Progress)
    ensures total == 0 ==> (p == NaN <==> completed == 0) && (p == Infinity <==> completed > 0)
    ensures total > 0 ==> p.Percent?
    ensures total > 0 && completed <= total ==> 0.0 <= p.value <= 100.0
    ensures total > 0 ==> (p.value == 100.0 <==> completed == total)
    ensures total > 0 ==> (p.value == 0.0 <==> completed == 0)
  {
    if total == 0 then (if completed == 0 then NaN else Infinity)
    else
      var t := total as real;
      var v := (completed as real / t) * 100.0;
      assert v * t == completed as real * 100.0;
      Percent(v)
  }

  datatype Panel = Panel(endDate: Instant, progress: Progress, status: Status)

  /** What the panel derives from its four props. Its status is the
      component's own conditional expression, which agrees with the
      pages' status function. */
  function StatusPanel(now: Instant, startDate: Instant, weeks: int, completed: nat, total: nat): (p: Panel)
    ensures p.endDate == startDate + weeks * 7 * DAY_MS
    ensures p.status == PlanStatusAt(now, startDate, weeks)
    ensures p.progress == ProgressOf(completed, total)
  {
    var endDate := startDate + weeks * 7 * DAY_MS;
    Panel(endDate, ProgressOf(completed, total),
          if now < startDate then Upcoming else if now > endDate then Completed else Active)
  }

  // ---------------------------------------------------------------------
  // The current week (components/chat/AthleteTrainingPlan.tsx)
  // ---------------------------------------------------------------------

  /** `Math.ceil(a / b)` for a non-negative integer `a`. */
  function CeilDiv(a: nat, b: nat): (r: nat)
    requires b > 0
    ensures r * b >= a
    ensures r == 0 || (r - 1) * b < a
  {
    (a + b - 1) / b
  }

  /** A value with the two properties of `CeilDiv` is the ceiling. */
  lemma CeilDivUnique(a: nat, b: nat, r: nat)
    requires b > 0 && r * b >= a && (r == 0 || (r - 1) * b < a)
    ensures r == CeilDiv(a, b)
  {
    var c := CeilDiv(a, b);
    if r < c {
      assert r <= c - 1;
      MulMonotone(r, c - 1, b);
    } else if r > c {
      assert c <= r - 1;
      MulMonotone(c, r - 1, b);
    }
  }

  lemma CeilDivZero(b: nat)
    requires b > 0
    ensures CeilDiv(0, b) == 0
  {
    var r := CeilDiv(0, b);
    if r > 0 {
      MulMonotone(0, r - 1, b);
    }
  }

  lemma MulMonotone(x: nat, y: nat, b: nat)
    requires x <= y
    ensures x * b <= y * b
  {
  }

  lemma CeilDivMonotone(a1: nat, a2: nat, b: nat)
    requires b > 0 && a1 <= a2
    ensures CeilDiv(a1, b) <= CeilDiv(a2, b)
  {
    var c1, c2 := CeilDiv(a1, b), CeilDiv(a2, b);
    if c1 > c2 {
      assert c2 <= c1 - 1;
      MulMonotone(c2, c1 - 1, b);
    }
  }

  function Abs(x: int): nat
  {
    if x < 0 then -x else x
  }

  /** `getCurrentWeek`'s arithmetic: whole days since (or until) the start,
      rounded up, then whole weeks, rounded up. */
  function CurrentWeekNumber(now: Instant, start: Instant): nat
  {
    CeilDiv(CeilDiv(Abs(now - start), DAY_MS), 7)
  }

  /** Rounding up to days and then to weeks is rounding up to weeks. */
  lemma CurrentWeekIsWeeksElapsed(now: Instant, start: Instant)
    ensures CurrentWeekNumber(now, start) == CeilDiv(Abs(now - start), WEEK_MS)
  {
    var a := Abs(now - start);
    var d := CeilDiv(a, DAY_MS);
    var w := CeilDiv(d, 7);
    assert w * WEEK_MS >= a by {
      MulMonotone(d, w * 7, DAY_MS);
    }
    if w > 0 {
      assert (w - 1) * WEEK_MS < a by {
        assert (w - 1) * 7 <= d - 1;
        MulMonotone((w - 1) * 7, d - 1, DAY_MS);
      }
    }
    CeilDivUnique(a, WEEK_MS, w);
  }

  /** Week `n` (from 1 on) is the `n`-th block of seven days on either side
      of the start, the later end included. */
  lemma CurrentWeekNumberIff(now: Instant, start: Instant, n: nat)
    requires n >= 1
    ensures CurrentWeekNumber(now, start) == n <==> (n - 1) * WEEK_MS < Abs(now - start) <= n * WEEK_MS
  {
    CurrentWeekIsWeeksElapsed(now, start);
    var a := Abs(now - start);
    if (n - 1) * WEEK_MS < a <= n * WEEK_MS {
      CeilDivUnique(a, WEEK_MS, n);
    }
  }

  /** The properties of the computed week number: 0 exactly at the start,
      the same k ms before as k ms after the start, 1 exactly within the first
      seven days on either side, and never smaller for a larger distance. */
  lemma CurrentWeekNumberLaws(now: Instant, now2: Instant, start: Instant, k: nat)
    ensures CurrentWeekNumber(now, start) == 0 <==> now == start
    ensures CurrentWeekNumber(start + k, start) == CurrentWeekNumber(start - k, start)
    ensures CurrentWeekNumber(now, start) == 1 <==> 0 < Abs(now - start) <= 7 * DAY_MS
    ensures Abs(now - start) <= Abs(now2 - start) ==> CurrentWeekNumber(now, start) <= CurrentWeekNumber(now2, start)
  {
    CurrentWeekIsWeeksElapsed(now, start);
    CurrentWeekIsWeeksElapsed(now2, start);
    CurrentWeekNumberIff(now, start, 1);
    if Abs(now - start) <= Abs(now2 - start) {
      CeilDivMonotone(Abs(now - start), Abs(now2 - start), WEEK_MS);
    }
  }

  /** `workoutSchedule.find(week => week.weekNumber === currentWeekNumber)`:
      the first entry for the computed week, or none. */
  function CurrentWeek(schedule: seq<WeekSchedule>, now: Instant, start: Instant): (r: Option<WeekSchedule>)
    ensures var n := CurrentWeekNumber(now, start);
      (r.None? <==> n !in WeekNumbers(schedule))
      && (r.Some? ==> exists i :: (0 <= i < |schedule| && schedule[i] == r.value && r.value.weekNumber == n
                                   && forall k :: 0 <= k < i ==> schedule[k].weekNumber != n))
  {
    var i := WeekIndex(schedule, CurrentWeekNumber(now, start));
    if i == -1 then None else Some(schedule[i])
  }

  /** Exactly at the start the week number is 0, a number no schedule entry
      built by the forms or the store carries, so no week is shown. */
  lemma NoCurrentWeekAtStart(schedule: seq<WeekSchedule>, start: Instant)
    requires forall k :: 0 <= k < |schedule| ==> schedule[k].weekNumber >= 1
    ensures CurrentWeek(schedule, start, start).None?
  {
    CeilDivZero(DAY_MS);
    CeilDivZero(7);
    assert CurrentWeekNumber(start, start) == 0;
    assert forall k :: 0 <= k < |schedule| ==> WeekNumbers(schedule)[k] >= 1;
  }
}
