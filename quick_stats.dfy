/**
 * The three figures of src/components/dashboard/quick-stats.tsx: overall topic completion, the
 * minutes studied since the start of the (Saturday-first) week, and the daily-goal streak.
 */
module QuickStats {
  import opened Lookup
  import opened Types
  import opened Sorting
  import Dates
  import JsMath
  import SubjectProgress

  // ---------------------------------------------------------------- overall completion

  /** The topics of a list of chapters, chapter by chapter. */
  function ChapterTopics(chapters: seq<Chapter>): (r: seq<Topic>)
    ensures |r| == SubjectProgress.TotalTopics(chapters)
  {
    if chapters == [] then [] else chapters[0].topics + ChapterTopics(chapters[1..])
  }

  /** `subjects.flatMap(s => s.chapters.flatMap(c => c.topics))`. */
  function AllTopics(subjects: seq<Subject>): seq<Topic> {
    if subjects == [] then [] else ChapterTopics(subjects[0].chapters) + AllTopics(subjects[1..])
  }

  /** Flattening is in order: the topics of two subject lists are those of the first, then
      those of the second. */
  lemma {:induction false} AllTopicsAppend(a: seq<Subject>, b: seq<Subject>)
    ensures AllTopics(a + b) == AllTopics(a) + AllTopics(b)
  {
    if a != [] {
      assert (a + b)[1..] == a[1..] + b;
      AllTopicsAppend(a[1..], b);
    } else {
      assert a + b == b;
    }
  }

  /** Every topic of every chapter of every subject appears, exactly as often as it occurs. */
  lemma {:induction false} AllTopicsCounts(subjects: seq<Subject>)
    ensures |AllTopics(subjects)| == TotalOver(subjects)
  {
    if subjects != [] {
      AllTopicsCounts(subjects[1..]);
    }
  }

  /** The sum of the per-subject topic totals of the subject list. */
  function TotalOver(subjects: seq<Subject>): nat {
    if subjects == [] then 0 else SubjectProgress.TotalTopics(subjects[0].chapters) + TotalOver(subjects[1..])
  }

  /** `progress[t.id]?.status === 'completed'`: topics missing from the map are not completed. */
  predicate CompletedIn(progress: UserProgress, t: Topic) {
    t.id in progress && progress[t.id].status == Completed
  }

  function CountCompleted(progress: UserProgress, topics: seq<Topic>): (n: nat)
    ensures n <= |topics|
    ensures n == 0 <==> forall i :: 0 <= i < |topics| ==> !CompletedIn(progress, topics[i])
    ensures n == |topics| <==> forall i :: 0 <= i < |topics| ==> CompletedIn(progress, topics[i])
  {
    if topics == [] then 0
    else (if CompletedIn(progress, topics[0]) then 1 else 0) + CountCompleted(progress, topics[1..])
  }

  /** `overallCompletion`: the rounded percentage of topics the progress map marks completed. */
  function OverallCompletion(subjects: seq<Subject>, progress: UserProgress): (r: int)
    ensures 0 <= r <= 100
  {
    var all := AllTopics(subjects);
    if |all| == 0 then 0 else JsMath.RoundPercent(CountCompleted(progress, all), |all|)
  }

  /** No topics reads 0%; otherwise the figure is the rounded share of completed topics; it is
      100% when every topic is completed in the map and 0% when none is. */
  lemma OverallCompletionMeaning(subjects: seq<Subject>, progress: UserProgress)
    ensures var all := AllTopics(subjects);
      var r := OverallCompletion(subjects, progress);
      var c := CountCompleted(progress, all);
      && (|all| == 0 ==> r == 0)
      && (|all| > 0 ==> r * (2 * |all|) <= 200 * c + |all| < (r + 1) * (2 * |all|))
      && (|all| > 0 && (forall i :: 0 <= i < |all| ==> CompletedIn(progress, all[i])) ==> r == 100)
      && ((forall i :: 0 <= i < |all| ==> !CompletedIn(progress, all[i])) ==> r == 0)
  {
  }

  /** Only the progress map counts: a topic's own status field plays no part, so an empty map
      reads 0% whatever the subjects say. */
  lemma OverallCompletionIgnoresTopicStatus(subjects: seq<Subject>)
    ensures OverallCompletion(subjects, map[]) == 0
  {
    var all := AllTopics(subjects);
    assert forall i :: 0 <= i < |all| ==> !CompletedIn(map[], all[i]);
  }

  // ---------------------------------------------------------------- weekly hours

  /** The timestamp of the start of the current week: midnight of its Saturday. */
  function WeekStartMs(nowMs: int): int {
    Dates.MidnightOf(Dates.WeekStart(Dates.DayOf(nowMs)))
  }

  /** Minutes of the sessions dated from `weekStart` on. */
  function MinutesSince(sessions: seq<StudySession>, weekStart: int): int {
    if sessions == [] then 0
    else (if sessions[0].date >= weekStart then sessions[0].duration else 0) + MinutesSince(sessions[1..], weekStart)
  }

  /** `totalMinutes`; nothing before the page runs on the client or while sessions are missing. */
  function WeeklyMinutes(sessions: Option<seq<StudySession>>, isClient: bool, nowMs: int): (r: int)
    ensures !isClient || sessions.None? ==> r == 0
    ensures isClient && sessions.Some? ==> r == MinutesSince(sessions.value, WeekStartMs(nowMs))
  {
    if !isClient || sessions.None? then 0 else MinutesSince(sessions.value, WeekStartMs(nowMs))
  }

  /** The week total adds up over a split of the session list. */
  lemma {:induction false} MinutesSinceAppend(a: seq<StudySession>, b: seq<StudySession>, weekStart: int)
    ensures MinutesSince(a + b, weekStart) == MinutesSince(a, weekStart) + MinutesSince(b, weekStart)
  {
    if a != [] {
      assert (a + b)[1..] == a[1..] + b;
      MinutesSinceAppend(a[1..], b, weekStart);
    } else {
      assert a + b == b;
    }
  }

  function AllMinutes(sessions: seq<StudySession>): int {
    if sessions == [] then 0 else sessions[0].duration + AllMinutes(sessions[1..])
  }

  /** Sessions before the week start count for nothing; with non-negative durations the total is
      between 0 and the sum of all durations, and an earlier week start never counts less. */
  lemma {:induction false} MinutesSinceBounds(sessions: seq<StudySession>, weekStart: int, earlier: int)
    requires earlier <= weekStart
    ensures (forall i :: 0 <= i < |sessions| ==> sessions[i].date < weekStart) ==> MinutesSince(sessions, weekStart) == 0
    ensures (forall i :: 0 <= i < |sessions| ==> sessions[i].duration >= 0) ==>
      0 <= MinutesSince(sessions, weekStart) <= MinutesSince(sessions, earlier) <= AllMinutes(sessions)
  {
    if sessions != [] {
      MinutesSinceBounds(sessions[1..], weekStart, earlier);
    }
  }

  // ---------------------------------------------------------------- study streak

  /** The loop over goals sorted most recent first. `currentMs` is the moving `currentDate`: a
      completed goal dated on its day extends the streak and moves it back one day; any other
      goal dated before it stops the loop; goals dated after it are passed over. */
  function Streak(sorted: seq<DailyGoal>, currentMs: int): nat {
    if sorted == [] then 0
    else
      var g := sorted[0];
      if g.completed && g.date == Dates.DayOf(currentMs) then 1 + Streak(sorted[1..], currentMs - Dates.MillisPerDay)
      else if Dates.MidnightOf(g.date) < currentMs then 0
      else Streak(sorted[1..], currentMs)
  }

  /** The sort key: a goal's date. */
  function GoalDate(g: DailyGoal): int {
    g.date
  }

  /** `studyStreak`: 0 without daily goals, otherwise the loop over a sorted copy. */
  function StudyStreakOf(goals: Option<Goals>, nowMs: int): nat {
    if goals.None? || |goals.value.daily| == 0 then 0
    else Streak(SortDesc(goals.value.daily, GoalDate), nowMs)
  }

  lemma {:induction false} StreakBound(sorted: seq<DailyGoal>, currentMs: int)
    ensures Streak(sorted, currentMs) <= |sorted|
  {
    if sorted != [] {
      StreakBound(sorted[1..], currentMs - Dates.MillisPerDay);
      StreakBound(sorted[1..], currentMs);
    }
  }

  lemma DayBefore(ms: int)
    ensures Dates.DayOf(ms - Dates.MillisPerDay) == Dates.DayOf(ms) - 1
  {
  }

  /** A streak of `n` means a completed goal on each of the `n` days ending with the current one. */
  lemma {:induction false} StreakWitnessed(sorted: seq<DailyGoal>, currentMs: int, k: nat)
    requires k < Streak(sorted, currentMs)
    ensures exists i :: 0 <= i < |sorted| && sorted[i].completed && sorted[i].date == Dates.DayOf(currentMs) - k
  {
    var g := sorted[0];
    if g.completed && g.date == Dates.DayOf(currentMs) {
      if k == 0 {
        assert sorted[0].completed && sorted[0].date == Dates.DayOf(currentMs) - k;
      } else {
        StreakWitnessed(sorted[1..], currentMs - Dates.MillisPerDay, k - 1);
        DayBefore(currentMs);
        var i :| 0 <= i < |sorted[1..]| && sorted[1..][i].completed
          && sorted[1..][i].date == Dates.DayOf(currentMs - Dates.MillisPerDay) - (k - 1);
        assert sorted[i + 1] == sorted[1..][i];
      }
    } else {
      StreakWitnessed(sorted[1..], currentMs, k);
      var i :| 0 <= i < |sorted[1..]| && sorted[1..][i].completed && sorted[1..][i].date == Dates.DayOf(currentMs) - k;
      assert sorted[i + 1] == sorted[1..][i];
    }
  }

  /** The streak never exceeds the number of daily goals, and each of its days, counting back from
      today, has a completed goal. */
  lemma StudyStreakMeaning(goals: Goals, nowMs: int, k: nat)
    ensures StudyStreakOf(Some(goals), nowMs) <= |goals.daily|
    ensures k < StudyStreakOf(Some(goals), nowMs) ==>
      exists g :: g in goals.daily && g.completed && g.date == Dates.DayOf(nowMs) - k
  {
    if |goals.daily| > 0 {
      var sorted := SortDesc(goals.daily, GoalDate);
      SortDescPermutes(goals.daily, GoalDate);
      StreakBound(sorted, nowMs);
      if k < StudyStreakOf(Some(goals), nowMs) {
        StreakWitnessed(sorted, nowMs, k);
        var i :| 0 <= i < |sorted| && sorted[i].completed && sorted[i].date == Dates.DayOf(nowMs) - k;
        assert sorted[i] in multiset(goals.daily);
      }
    }
  }

  /** `studyStreak`: a sorted copy of the daily goals, then the loop over it. */
  method StudyStreak(goals: Option<Goals>, nowMs: int) returns (streak: nat)
    ensures streak == StudyStreakOf(goals, nowMs)
  {
    if goals.None? || |goals.value.daily| == 0 {
      return 0;
    }
    var daily := goals.value.daily;
    var sorted := new DailyGoal[|daily|](i requires 0 <= i < |daily| => daily[i]);
    assert sorted[..] == daily;
    SortByKeyDesc(sorted, GoalDate);
    streak := StreakLoop(sorted, nowMs);
  }

  /** The `for` loop of `studyStreak` with its `break`. */
  method StreakLoop(sorted: array<DailyGoal>, nowMs: int) returns (streak: nat)
    ensures streak == Streak(sorted[..], nowMs)
  {
    assert sorted[0..] == sorted[..];
    streak := 0;
    var currentMs := nowMs;
    var i := 0;
    while i < sorted.Length
      invariant 0 <= i <= sorted.Length
      invariant streak + Streak(sorted[i..], currentMs) == Streak(sorted[..], nowMs)
    {
      var g := sorted[i];
      assert sorted[i..][1..] == sorted[i + 1..];
      if g.completed && g.date == Dates.DayOf(currentMs) {
        streak := streak + 1;
        currentMs := currentMs - Dates.MillisPerDay;
      } else if Dates.MidnightOf(g.date) < currentMs {
        break;
      }
      i := i + 1;
    }
  }
}
