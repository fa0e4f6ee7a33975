/**
 * The default records of src/lib/data.ts. Values computed from the clock there take today's
 * day number as a parameter here, and the random subject ids an id source.
 */
module Data {
  import opened Lookup
  import opened Types
  import Dates
  import Constants

  /** Days from today to the default exam date. */
  const ExamLeadDays: int := 180

  function DefaultProfile(today: int): UserProfile {
    UserProfile("Loading...", 5.0, Some(today + ExamLeadDays))
  }

  const DefaultSettings: Settings := Settings(
    dailyStudyHoursGoal := 6.0,
    pomodoro := Pomodoro(work := 25, shortBreak := 5, longBreak := 15),
    spacedRepetitionIntervals := [1, 3, 7, 15, 30])

  /** `defaultGoals`: one weekly goal for the current (Saturday-start) week, nothing else. */
  function DefaultGoals(today: int): (g: Goals)
    ensures g.daily == [] && g.monthly == [] && |g.weekly| == 1
    ensures g.weekly[0].weekStart <= today < g.weekly[0].weekStart + 7
    ensures Dates.DayOfWeek(g.weekly[0].weekStart) == Dates.SaturdayIndex
    ensures g.weekly[0].targets == [] && g.weekly[0].revisionHours == 5 && g.weekly[0].mockTests == 1
    ensures g.exam.examDate == today + ExamLeadDays
  {
    Goals(
      daily := [],
      weekly := [WeeklyGoal(Dates.WeekStart(today), [], 5, 1)],
      monthly := [],
      exam := ExamGoal(5.0, today + ExamLeadDays, []))
  }

  function WithId(t: Constants.SubjectTemplate, id: string): Subject {
    Subject(id, t.name, t.color, t.totalChapters, t.chapters)
  }

  /** `sampleSubjects`: the first three curriculum subjects, the i-th with id `newId(i)`. */
  function SampleSubjects(newId: nat -> string): (r: seq<Subject>)
    ensures |r| == 3
    ensures forall i :: 0 <= i < 3 ==>
      var t := Constants.NctbSubjects[i];
      r[i].id == newId(i) && r[i].name == t.name && r[i].color == t.color
      && r[i].totalChapters == t.totalChapters && r[i].chapters == t.chapters
  {
    seq(3, i requires 0 <= i < 3 => WithId(Constants.NctbSubjects[i], newId(i)))
  }

  const DefaultSubjects: seq<Subject> := []

  const DefaultStudySessions: seq<StudySession> := []

  /** `defaultRoutine`: an empty day for each entry of `WEEK_DAYS`, in that order. */
  function DefaultRoutine(): (r: Routine)
    ensures |r.weekSchedule| == |Constants.WeekDays|
    ensures forall i :: 0 <= i < |r.weekSchedule| ==>
      r.weekSchedule[i].day == Constants.WeekDays[i] && r.weekSchedule[i].slots == []
  {
    Routine(seq(|Constants.WeekDays|, i requires 0 <= i < |Constants.WeekDays| => DailyRoutine(Constants.WeekDays[i], [])))
  }
}
