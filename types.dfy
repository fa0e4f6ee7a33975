/**
 * The application's records (the shapes of src/lib/types.ts). Dates are day numbers
 * (days since 1970-01-01) and timestamps are epoch milliseconds.
 */
module Types {
  import opened Lookup

  datatype TopicStatus = NotStarted | InProgress | Completed | Revision
  datatype Priority = High | Medium | Low
  datatype Difficulty = Easy | Medium | Hard

  /** A topic as the syllabus generators create it: its own study fields travel with it. */
  datatype Topic = Topic(
    id: string,
    name: string,
    status: TopicStatus,
    priority: Priority,
    difficulty: Option<Difficulty>,
    completedDate: Option<int>,
    revisionDates: seq<int>,
    timeSpent: int,
    notes: string)

  datatype Chapter = Chapter(id: string, name: string, topics: seq<Topic>)

  datatype Subject = Subject(id: string, name: string, color: string, totalChapters: int, chapters: seq<Chapter>)

  /** One entry of the `UserProgress` dictionary, keyed by topic id. */
  datatype TopicProgress = TopicProgress(
    status: TopicStatus,
    priority: Priority,
    difficulty: Option<Difficulty>,
    completedDate: Option<int>,
    revisionDates: seq<int>,
    timeSpent: int,
    notes: string)

  type UserProgress = map<string, TopicProgress>

  /** A daily goal; `date` is the day number that the stored 'yyyy-MM-dd' string names. */
  datatype DailyGoal = DailyGoal(
    date: int,
    studyHours: real,
    topicsToComplete: int,
    completed: bool,
    actualHours: real,
    actualTopics: int)

  datatype ChapterTarget = ChapterTarget(subjectId: string, chaptersToComplete: int)

  /** A weekly goal; `weekStart` is the day number of the week's first (Saturday) day. */
  datatype WeeklyGoal = WeeklyGoal(weekStart: int, targets: seq<ChapterTarget>, revisionHours: int, mockTests: int)

  datatype Milestone = Milestone(subjectId: string, targetCompletion: int)

  /** A monthly goal; `month` is the 'yyyy-MM' key. */
  datatype MonthlyGoal = MonthlyGoal(month: string, milestones: seq<Milestone>)

  datatype SubjectTarget = SubjectTarget(subjectId: string, targetMarks: int)

  datatype ExamGoal = ExamGoal(targetGPA: real, examDate: int, subjectTargets: seq<SubjectTarget>)

  datatype Goals = Goals(daily: seq<DailyGoal>, weekly: seq<WeeklyGoal>, monthly: seq<MonthlyGoal>, exam: ExamGoal)

  datatype SessionKind = Study | Revision | Practice

  /** A logged study session; `date` is an epoch-millisecond timestamp, `duration` minutes. */
  datatype StudySession = StudySession(
    id: string,
    date: int,
    subjectId: string,
    topicId: string,
    duration: int,
    sessionType: SessionKind,
    notes: string,
    productive: bool)

  datatype Activity = Study | Revision | Practice | Break | Prayer | Other

  datatype RoutineSlot = RoutineSlot(
    id: string,
    startTime: string,
    endTime: string,
    subjectId: string,
    activity: Activity,
    isFlexible: bool)

  datatype WeekDay = Saturday | Sunday | Monday | Tuesday | Wednesday | Thursday | Friday

  datatype DailyRoutine = DailyRoutine(day: WeekDay, slots: seq<RoutineSlot>)

  datatype Routine = Routine(weekSchedule: seq<DailyRoutine>)

  /** The profile; `examDate` is absent when the stored string is empty. */
  datatype UserProfile = UserProfile(name: string, targetGPA: real, examDate: Option<int>)

  /** Pomodoro lengths in minutes. */
  datatype Pomodoro = Pomodoro(work: int, shortBreak: int, longBreak: int)

  datatype Settings = Settings(dailyStudyHoursGoal: real, pomodoro: Pomodoro, spacedRepetitionIntervals: seq<int>)
}
