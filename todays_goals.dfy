/**
 * The daily goal card of src/components/dashboard/todays-goals.tsx: today's goal or a default one,
 * the two progress ratios and the empty-state rule.
 */
module TodaysGoals {
  import opened Lookup
  import opened Types
  import Data

  /** The number of topics the default goal asks for. */
  const DefaultTopicsToComplete: int := 2

  /** The goal shown when none is dated today. */
  function DefaultGoal(today: int, settings: Settings): DailyGoal {
    DailyGoal(today, settings.dailyStudyHoursGoal, DefaultTopicsToComplete, false, 0.0, 0)
  }

  /** `todaysGoal`: the first daily goal dated today, or the default one. */
  function TodaysGoal(goals: Goals, settings: Settings, today: int): (g: DailyGoal)
    ensures g.date == today
    ensures (exists k :: 0 <= k < |goals.daily| && goals.daily[k].date == today) ==>
      exists k :: 0 <= k < |goals.daily| && goals.daily[k] == g && forall j :: 0 <= j < k ==> goals.daily[j].date != today
    ensures (forall k :: 0 <= k < |goals.daily| ==> goals.daily[k].date != today) ==> g == DefaultGoal(today, settings)
  {
    match Find(goals.daily, (d: DailyGoal) => d.date == today)
    case Some(d) => d
    case None => DefaultGoal(today, settings)
  }

  /** Progress towards an hours target: 100 when there is no positive target. */
  function HoursProgress(g: DailyGoal): (r: real)
    ensures g.studyHours > 0.0 ==> r * g.studyHours == g.actualHours * 100.0
    ensures g.studyHours <= 0.0 ==> r == 100.0
  {
    if g.studyHours > 0.0 then (g.actualHours / g.studyHours) * 100.0 else 100.0
  }

  /** Progress towards a topics target, by the same rule. */
  function TopicsProgress(g: DailyGoal): (r: real)
    ensures g.topicsToComplete > 0 ==> r * g.topicsToComplete as real == g.actualTopics as real * 100.0
    ensures g.topicsToComplete <= 0 ==> r == 100.0
  {
    if g.topicsToComplete > 0 then (g.actualTopics as real / g.topicsToComplete as real) * 100.0 else 100.0
  }

  /** The ratios are not clamped: below, at and above the target they read below, exactly and
      above 100. */
  lemma ProgressAgainstTarget(g: DailyGoal)
    ensures g.studyHours > 0.0 ==>
      (HoursProgress(g) < 100.0 <==> g.actualHours < g.studyHours)
      && (HoursProgress(g) == 100.0 <==> g.actualHours == g.studyHours)
      && (HoursProgress(g) > 100.0 <==> g.actualHours > g.studyHours)
    ensures g.topicsToComplete > 0 ==>
      (TopicsProgress(g) < 100.0 <==> g.actualTopics < g.topicsToComplete)
      && (TopicsProgress(g) == 100.0 <==> g.actualTopics == g.topicsToComplete)
      && (TopicsProgress(g) > 100.0 <==> g.actualTopics > g.topicsToComplete)
  {
    if g.studyHours > 0.0 {
      ScaledCompare(HoursProgress(g), g.studyHours, g.actualHours);
    }
    if g.topicsToComplete > 0 {
      ScaledCompare(TopicsProgress(g), g.topicsToComplete as real, g.actualTopics as real);
    }
  }

  /** If `r * target == actual * 100` with a positive target, `r` compares with 100 as `actual`
      compares with `target`. */
  lemma ScaledCompare(r: real, target: real, actual: real)
    requires target > 0.0 && r * target == actual * 100.0
    ensures r < 100.0 <==> actual < target
    ensures r == 100.0 <==> actual == target
  {
    assert (r - 100.0) * target == (actual - target) * 100.0;
    if r < 100.0 {
      assert (r - 100.0) * target < 0.0;
    } else if r > 100.0 {
      assert (r - 100.0) * target > 0.0;
    }
  }

  /** The card shows "You haven't set any goals for today." exactly when both targets are 0. */
  predicate ShowsEmptyState(g: DailyGoal) {
    g.studyHours == 0.0 && g.topicsToComplete == 0
  }

  /** The default goal always asks for two topics, so a day without a goal never shows the empty
      state; with the default settings it asks for six hours. */
  lemma DefaultGoalIsNeverEmpty(goals: Goals, settings: Settings, today: int)
    requires forall k :: 0 <= k < |goals.daily| ==> goals.daily[k].date != today
    ensures !ShowsEmptyState(TodaysGoal(goals, settings, today))
    ensures TodaysGoal(goals, settings, today).topicsToComplete == 2
    ensures TopicsProgress(TodaysGoal(goals, settings, today)) == 0.0
    ensures TodaysGoal(goals, Data.DefaultSettings, today).studyHours == 6.0
  {
  }
}
