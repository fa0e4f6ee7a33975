/**
 * The weekly goal card of src/components/dashboard/weekly-goals.tsx: the goal of the current
 * Saturday-first week and its chapter targets.
 */
module WeeklyGoals {
  import opened Lookup
  import opened Types
  import Dates
  import Data

  /** `currentWeeklyGoal`: the first weekly goal whose week starts on this week's Saturday. */
  function CurrentWeeklyGoal(goals: Goals, today: int): (r: Option<WeeklyGoal>)
    ensures r.Some? ==> r.value in goals.weekly && r.value.weekStart == Dates.WeekStart(today)
    ensures r.Some? ==> exists k :: 0 <= k < |goals.weekly| && goals.weekly[k] == r.value
                                  && forall j :: 0 <= j < k ==> goals.weekly[j].weekStart != Dates.WeekStart(today)
    ensures r.None? <==> forall g :: g in goals.weekly ==> g.weekStart != Dates.WeekStart(today)
  {
    Find(goals.weekly, (g: WeeklyGoal) => g.weekStart == Dates.WeekStart(today))
  }

  /** A chapter target row: the subject's name and colour and the chapter count. */
  datatype TargetRow = TargetRow(name: string, color: string, chaptersToComplete: int)

  /** The target list: the "No chapter targets set." text, or one row per target (nothing for a
      target whose subject is missing). */
  datatype TargetList = NoTargets | Rows(rows: seq<Option<TargetRow>>)

  datatype WeeklyCard = NoWeeklyGoal | WeeklyView(targets: TargetList, revisionHours: int, mockTests: int)

  function Row(t: ChapterTarget, subjects: seq<Subject>): (r: Option<TargetRow>)
    ensures r.None? <==> forall s :: s in subjects ==> s.id != t.subjectId
    ensures r.Some? ==> r.value.chaptersToComplete == t.chaptersToComplete
    ensures r.Some? ==> exists s :: s in subjects && s.id == t.subjectId && s.name == r.value.name && s.color == r.value.color
  {
    match Find(subjects, (s: Subject) => s.id == t.subjectId)
    case None => None
    case Some(s) => Some(TargetRow(s.name, s.color, t.chaptersToComplete))
  }

  function Card(goals: Goals, subjects: seq<Subject>, today: int): (c: WeeklyCard)
    ensures c.NoWeeklyGoal? <==> CurrentWeeklyGoal(goals, today).None?
    ensures c.WeeklyView? ==>
      var g := CurrentWeeklyGoal(goals, today).value;
      && c.revisionHours == g.revisionHours && c.mockTests == g.mockTests
      && (c.targets.NoTargets? <==> g.targets == [])
      && (c.targets.Rows? ==> |c.targets.rows| == |g.targets|)
      && (c.targets.Rows? ==> forall i :: 0 <= i < |g.targets| ==> c.targets.rows[i] == Row(g.targets[i], subjects))
  {
    match CurrentWeeklyGoal(goals, today)
    case None => NoWeeklyGoal
    case Some(g) =>
      var targets := if |g.targets| > 0 then Rows(seq(|g.targets|, i requires 0 <= i < |g.targets| => Row(g.targets[i], subjects)))
                     else NoTargets;
      WeeklyView(targets, g.revisionHours, g.mockTests)
  }

  /** The default goals, created on any day of a week, are this week's goal on every day of that
      week: the card shows 5 revision hours, 1 mock test and no chapter targets. */
  lemma DefaultGoalsFillTheWeek(created: int, today: int, subjects: seq<Subject>)
    requires Dates.WeekStart(created) <= today < Dates.WeekStart(created) + 7
    ensures Card(Data.DefaultGoals(created), subjects, today) == WeeklyView(NoTargets, 5, 1)
  {
    Dates.WeekStartIsShared(created, today);
  }

  /** A week later, the default goal no longer applies and the card shows its empty state. */
  lemma DefaultGoalsExpire(created: int, subjects: seq<Subject>)
    ensures Card(Data.DefaultGoals(created), subjects, created + 7) == NoWeeklyGoal
  {
    var s := Dates.WeekStart(created);
    var s' := Dates.WeekStart(created + 7);
    assert s' > s;
  }
}
