/**
 * Per-subject topic completion, as src/components/dashboard/subject-progress-list.tsx computes it:
 * topic totals and completed counts summed over chapters, and the rounded percentage.
 */
module SubjectProgress {
  import opened Lookup
  import opened Types
  import JsMath

  /** Topics whose own status is 'completed'. */
  function CompletedIn(topics: seq<Topic>): (n: nat)
    ensures n <= |topics|
    ensures n == |topics| <==> forall i :: 0 <= i < |topics| ==> topics[i].status == Completed
    ensures n == 0 <==> forall i :: 0 <= i < |topics| ==> topics[i].status != Completed
  {
    if topics == [] then 0
    else (if topics[0].status == Completed then 1 else 0) + CompletedIn(topics[1..])
  }

  /** `chapters.reduce((acc, chap) => acc + chap.topics.length, 0)`. */
  function TotalTopics(chapters: seq<Chapter>): nat {
    if chapters == [] then 0 else |chapters[0].topics| + TotalTopics(chapters[1..])
  }

  /** The number of completed topics, summed chapter by chapter. */
  function CompletedTopics(chapters: seq<Chapter>): (n: nat)
    ensures n <= TotalTopics(chapters)
  {
    if chapters == [] then 0 else CompletedIn(chapters[0].topics) + CompletedTopics(chapters[1..])
  }

  /** Every topic of every chapter is completed. */
  predicate AllCompleted(chapters: seq<Chapter>) {
    forall c, i :: 0 <= c < |chapters| && 0 <= i < |chapters[c].topics| ==>
      chapters[c].topics[i].status == Completed
  }

  lemma {:induction false} CompletedTopicsWhenAllCompleted(chapters: seq<Chapter>)
    ensures CompletedTopics(chapters) == TotalTopics(chapters) <==> AllCompleted(chapters)
  {
    if chapters != [] {
      CompletedTopicsWhenAllCompleted(chapters[1..]);
      assert AllCompleted(chapters) <==>
        (forall i :: 0 <= i < |chapters[0].topics| ==> chapters[0].topics[i].status == Completed)
        && AllCompleted(chapters[1..]) by {
        if AllCompleted(chapters[1..]) && forall i :: 0 <= i < |chapters[0].topics| ==> chapters[0].topics[i].status == Completed {
          forall c, i | 0 <= c < |chapters| && 0 <= i < |chapters[c].topics|
            ensures chapters[c].topics[i].status == Completed
          {
            if c > 0 {
              assert chapters[c] == chapters[1..][c - 1];
            }
          }
        }
        if AllCompleted(chapters) {
          forall c, i | 0 <= c < |chapters[1..]| && 0 <= i < |chapters[1..][c].topics|
            ensures chapters[1..][c].topics[i].status == Completed
          {
            assert chapters[1..][c] == chapters[c + 1];
          }
        }
      }
    }
  }

  /** The progress bar value: rounded percent of completed topics, 0 for a subject with none. */
  function Progress(completed: nat, total: nat): (r: int)
    requires completed <= total
    ensures total == 0 ==> r == 0
    ensures 0 <= r <= 100
    ensures total > 0 ==> r * (2 * total) <= 200 * completed + total < (r + 1) * (2 * total)
    ensures total > 0 && completed == total ==> r == 100
  {
    if total > 0 then JsMath.RoundPercent(completed, total) else 0
  }

  /** A subject with its three derived fields. */
  datatype SubjectWithProgress = SubjectWithProgress(
    subject: Subject, progress: int, completedTopics: nat, totalTopics: nat)

  function WithProgress(s: Subject): (r: SubjectWithProgress)
    ensures r.subject == s
    ensures r.totalTopics == TotalTopics(s.chapters) && r.completedTopics == CompletedTopics(s.chapters)
    ensures r.completedTopics <= r.totalTopics && 0 <= r.progress <= 100
  {
    var total := TotalTopics(s.chapters);
    var completed := CompletedTopics(s.chapters);
    SubjectWithProgress(s, Progress(completed, total), completed, total)
  }

  /** `subjectsWithProgress`: one entry per subject, in order; none when subjects are missing. */
  function SubjectsWithProgress(subjects: Option<seq<Subject>>): (r: seq<SubjectWithProgress>)
    ensures subjects.None? ==> r == []
    ensures subjects.Some? ==> |r| == |subjects.value|
    ensures subjects.Some? ==> forall i :: 0 <= i < |r| ==> r[i] == WithProgress(subjects.value[i])
  {
    match subjects
    case None => []
    case Some(xs) => seq(|xs|, i requires 0 <= i < |xs| => WithProgress(xs[i]))
  }

  /** A subject without topics reads 0%, and one whose topics are all completed reads 100%. A
      reading of 100% needs topics, but only 99.5% of them completed, since the figure is rounded. */
  lemma FullProgress(s: Subject)
    ensures var r := WithProgress(s);
      && (r.totalTopics == 0 ==> r.progress == 0)
      && (r.totalTopics > 0 && AllCompleted(s.chapters) ==> r.progress == 100)
      && (r.progress == 100 ==> r.totalTopics > 0 && r.completedTopics * 200 >= r.totalTopics * 199)
  {
    CompletedTopicsWhenAllCompleted(s.chapters);
  }
}
