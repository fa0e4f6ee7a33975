/**
 * The seed data generators and fixed lists of src/lib/constants.ts. The random `nanoid()` ids
 * of generated topics and chapters are not modelled: they are left empty.
 */
module Constants {
  import opened Lookup
  import opened Types
  import opened Text

  /** A subject record before it is given an id (`Omit<Subject, 'id'>`). */
  datatype SubjectTemplate = SubjectTemplate(name: string, color: string, totalChapters: int, chapters: seq<Chapter>)

  /** `generateTopics(count, prefix)`, built up one topic at a time. */
  function GenerateTopics(count: nat, prefix: string): (r: seq<Topic>)
    ensures |r| == count
    ensures forall i :: 0 <= i < count ==> r[i].name == prefix + " Topic " + NatToString(i + 1)
    ensures forall t :: t in r ==>
      && t.status == NotStarted && t.priority == Priority.Medium && t.difficulty == None
      && t.completedDate == None && t.revisionDates == [] && t.timeSpent == 0 && t.notes == ""
  {
    if count == 0 then []
    else
      GenerateTopics(count - 1, prefix)
        + [Topic("", prefix + " Topic " + NatToString(count), NotStarted, Priority.Medium, None, None, [], 0, "")]
  }

  /** Topics per generated chapter. */
  const TopicsPerChapter: nat := 5

  /** `generateChapters(chapterNames, topicPrefix)`; the topics take the chapter's own name as
      their prefix, and `topicPrefix` is never read. */
  function GenerateChapters(chapterNames: seq<string>, topicPrefix: string): (r: seq<Chapter>)
    ensures |r| == |chapterNames|
    ensures forall i :: 0 <= i < |r| ==>
      r[i].name == chapterNames[i] && r[i].topics == GenerateTopics(TopicsPerChapter, chapterNames[i])
  {
    seq(|chapterNames|, i requires 0 <= i < |chapterNames| =>
      Chapter("", chapterNames[i], GenerateTopics(TopicsPerChapter, chapterNames[i])))
  }

  /** `[...Array(n).keys()].map(i => `${subject} Chapter ${i + 1}`)`. */
  function ChapterNames(subject: string, n: nat): (r: seq<string>)
    ensures |r| == n
    ensures forall i :: 0 <= i < n ==> r[i] == subject + " Chapter " + NatToString(i + 1)
  {
    seq(n, i requires 0 <= i < n => subject + " Chapter " + NatToString(i + 1))
  }

  /** A subject whose chapter count is its number of chapters, each with five topics. */
  predicate WellFormed(t: SubjectTemplate) {
    && t.totalChapters == |t.chapters|
    && forall c :: 0 <= c < |t.chapters| ==> |t.chapters[c].topics| == TopicsPerChapter
  }

  function Nctb(name: string, color: string, n: nat): (t: SubjectTemplate)
    ensures WellFormed(t)
    ensures t.name == name && t.color == color && t.totalChapters == n && |t.chapters| == n
    ensures forall c :: 0 <= c < n ==>
      t.chapters[c].name == name + " Chapter " + NatToString(c + 1) && |t.chapters[c].topics| == TopicsPerChapter
  {
    SubjectTemplate(name, color, n, GenerateChapters(ChapterNames(name, n), name))
  }

  /** `NCTB_SUBJECTS`: the five national-curriculum science subjects. */
  const NctbSubjects: seq<SubjectTemplate> := [
    Nctb("Physics", "#3498db", 12),
    Nctb("Chemistry", "#e74c3c", 11),
    Nctb("Biology", "#2ecc71", 12),
    Nctb("Higher Math", "#9b59b6", 11),
    Nctb("ICT", "#f1c40f", 6)
  ]

  /** Each subject's declared chapter count is the number of chapters it was generated with,
      each of them with five fresh topics; the counts are 12, 11, 12, 11 and 6. */
  lemma NctbChapterCounts()
    ensures |NctbSubjects| == 5
    ensures WellFormed(NctbSubjects[0]) && NctbSubjects[0].totalChapters == 12
    ensures WellFormed(NctbSubjects[1]) && NctbSubjects[1].totalChapters == 11
    ensures WellFormed(NctbSubjects[2]) && NctbSubjects[2].totalChapters == 12
    ensures WellFormed(NctbSubjects[3]) && NctbSubjects[3].totalChapters == 11
    ensures WellFormed(NctbSubjects[4]) && NctbSubjects[4].totalChapters == 6
  {
  }

  /** `WEEK_DAYS`: the days of the week, Saturday first. */
  const WeekDays: seq<WeekDay> := [Saturday, Sunday, Monday, Tuesday, Wednesday, Thursday, Friday]

  lemma WeekDaysAreTheWeek()
    ensures |WeekDays| == 7 && WeekDays[0] == Saturday && WeekDays[6] == Friday
    ensures forall i, j :: 0 <= i < j < |WeekDays| ==> WeekDays[i] != WeekDays[j]
    ensures forall d: WeekDay :: d in WeekDays
  {
    forall d: WeekDay ensures d in WeekDays {
      match d
      case Saturday => assert WeekDays[0] == d;
      case Sunday => assert WeekDays[1] == d;
      case Monday => assert WeekDays[2] == d;
      case Tuesday => assert WeekDays[3] == d;
      case Wednesday => assert WeekDays[4] == d;
      case Thursday => assert WeekDays[5] == d;
      case Friday => assert WeekDays[6] == d;
    }
  }
}
