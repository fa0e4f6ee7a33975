/**
 * The recent-sessions list of src/components/dashboard/recent-sessions.tsx: the session array is
 * sorted in place, latest first; the first ten are joined with their subject and topic.
 */
module RecentSessions {
  import opened Lookup
  import opened Types
  import opened Text
  import opened Sorting
  import QuickStats

  /** How many sessions the card lists. */
  const Shown: nat := 10

  /** The sort key: the session's timestamp. */
  function SessionDate(s: StudySession): int {
    s.date
  }

  /** A session with the names and colour the card shows for it. */
  datatype RecentSession = RecentSession(
    session: StudySession,
    subjectName: Option<string>,
    topicName: Option<string>,
    subjectColor: Option<string>)

  /** The join: the subject with the session's subject id, and the topic with its topic id
      searched among that subject's topics only. */
  function Join(session: StudySession, subjects: seq<Subject>): (r: RecentSession)
    ensures r.session == session
    ensures r.subjectName.None? <==> forall s :: s in subjects ==> s.id != session.subjectId
    ensures r.subjectName.Some? ==>
      exists s :: s in subjects && s.id == session.subjectId
        && r.subjectName == Some(s.name) && r.subjectColor == Some(s.color)
        && (r.topicName.None? <==> forall t :: t in QuickStats.ChapterTopics(s.chapters) ==> t.id != session.topicId)
        && (r.topicName.Some? ==> exists t :: t in QuickStats.ChapterTopics(s.chapters) && t.id == session.topicId
                                           && r.topicName == Some(t.name))
    ensures r.subjectName.None? ==> r.topicName.None? && r.subjectColor.None?
  {
    match Find(subjects, (s: Subject) => s.id == session.subjectId)
    case None => RecentSession(session, None, None, None)
    case Some(s) =>
      var topic := Find(QuickStats.ChapterTopics(s.chapters), (t: Topic) => t.id == session.topicId);
      RecentSession(session, Some(s.name), if topic.Some? then Some(topic.value.name) else None, Some(s.color))
  }

  /** `slice(0, 10)` of the sorted sessions, each joined. */
  function Recent(sorted: seq<StudySession>, subjects: seq<Subject>): (r: seq<RecentSession>)
    ensures |r| == if |sorted| < Shown then |sorted| else Shown
    ensures forall i :: 0 <= i < |r| ==> r[i] == Join(sorted[i], subjects)
  {
    var n := if |sorted| < Shown then |sorted| else Shown;
    seq(n, i requires 0 <= i < n => Join(sorted[i], subjects))
  }

  /** What the sorted list offers the card: at most ten sessions, none of them older than any
      session left out, newest first, taken from the input and nothing else. */
  lemma TopTenAreMostRecent(sessions: seq<StudySession>)
    ensures var sorted := SortDesc(sessions, SessionDate);
      var n := if |sessions| < Shown then |sessions| else Shown;
      && |sorted| == |sessions|
      && multiset(sorted) == multiset(sessions)
      && multiset(sorted[..n]) <= multiset(sessions)
      && (forall i, j :: 0 <= i < j < n ==> sorted[i].date >= sorted[j].date)
      && (forall i, j :: 0 <= i < n <= j < |sorted| ==> sorted[i].date >= sorted[j].date)
  {
    var sorted := SortDesc(sessions, SessionDate);
    SortDescPermutes(sessions, SessionDate);
    SortDescIsSorted(sessions, SessionDate);
    var n := if |sessions| < Shown then |sessions| else Shown;
    assert sorted == sorted[..n] + sorted[n..];
    assert multiset(sorted) == multiset(sorted[..n]) + multiset(sorted[n..]);
  }

  /** `recentSessions`. Missing sessions or subjects give `[]` and nothing is sorted; otherwise
      the session array itself is left sorted, latest first, and the ten latest are joined. */
  method RecentSessionsOf(sessions: array?<StudySession>, subjects: Option<seq<Subject>>) returns (r: seq<RecentSession>)
    modifies sessions
    ensures sessions == null || subjects.None? ==> r == []
    ensures sessions != null && subjects.None? ==> sessions[..] == old(sessions[..])
    ensures sessions != null && subjects.Some? ==>
      sessions[..] == SortDesc(old(sessions[..]), SessionDate) && r == Recent(sessions[..], subjects.value)
  {
    if sessions == null || subjects.None? {
      return [];
    }
    SortByKeyDesc(sessions, SessionDate);
    r := Recent(sessions[..], subjects.value);
  }

  /** A name as the card prints it: a missing or empty name falls back. */
  function ShowName(name: Option<string>, fallback: string): (r: string)
    ensures name.None? ==> r == fallback
    ensures name.Some? && name.value != "" ==> r == name.value
    ensures name.Some? && name.value == "" ==> r == fallback
  {
    if name.None? then fallback else OrElse(name.value, fallback)
  }

  /** A session of an unknown subject shows both fallbacks; a known topic shows its name. */
  lemma LabelsOfAJoin(session: StudySession, subjects: seq<Subject>)
    ensures var r := Join(session, subjects);
      && ShowName(r.topicName, "Unknown Topic") != ""
      && ShowName(r.subjectName, "Unknown Subject") != ""
      && ((forall s :: s in subjects ==> s.id != session.subjectId) ==>
            ShowName(r.topicName, "Unknown Topic") == "Unknown Topic"
            && ShowName(r.subjectName, "Unknown Subject") == "Unknown Subject")
  {
  }
}
