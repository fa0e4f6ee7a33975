/**
 * The monthly milestone card of src/components/dashboard/monthly-goals.tsx: this month's goal,
 * the per-subject completion dictionary it reads, and the rule for each milestone row.
 */
module MonthlyGoals {
  import opened Lookup
  import opened Types
  import QuickStats

  /** `currentMonthlyGoal`; `monthKey` is today's 'yyyy-MM'. */
  function CurrentMonthlyGoal(goals: Goals, monthKey: string): (r: Option<MonthlyGoal>)
    ensures r.Some? ==> r.value in goals.monthly && r.value.month == monthKey
    ensures r.Some? ==> exists k :: 0 <= k < |goals.monthly| && goals.monthly[k] == r.value
                                  && forall j :: 0 <= j < k ==> goals.monthly[j].month != monthKey
    ensures r.None? <==> forall g :: g in goals.monthly ==> g.month != monthKey
  {
    Find(goals.monthly, (g: MonthlyGoal) => g.month == monthKey)
  }

  /** The unrounded percentage of a subject's topics the progress map marks completed. */
  function SubjectPercent(s: Subject, progress: UserProgress): (r: real)
    ensures 0.0 <= r <= 100.0
    ensures QuickStats.ChapterTopics(s.chapters) == [] ==> r == 0.0
    ensures QuickStats.ChapterTopics(s.chapters) != [] ==>
      r == QuickStats.CountCompleted(progress, QuickStats.ChapterTopics(s.chapters)) as real
             / |QuickStats.ChapterTopics(s.chapters)| as real * 100.0
  {
    var all := QuickStats.ChapterTopics(s.chapters);
    if |all| == 0 then 0.0
    else
      var c := QuickStats.CountCompleted(progress, all);
      RatioIsAFraction(c, |all|);
      (c as real / |all| as real) * 100.0
  }

  /** A subject whose topics are all completed in the map reads 100%; one with none completed
      reads 0%. */
  lemma SubjectPercentExtremes(s: Subject, progress: UserProgress)
    ensures var all := QuickStats.ChapterTopics(s.chapters);
      && (all != [] && (forall i :: 0 <= i < |all| ==> QuickStats.CompletedIn(progress, all[i])) ==>
            SubjectPercent(s, progress) == 100.0)
      && ((forall i :: 0 <= i < |all| ==> !QuickStats.CompletedIn(progress, all[i])) ==>
            SubjectPercent(s, progress) == 0.0)
  {
    var all := QuickStats.ChapterTopics(s.chapters);
    if all != [] {
      var c := QuickStats.CountCompleted(progress, all);
      if c == |all| {
        WholeIsAHundred(c);
      }
    }
  }

  lemma WholeIsAHundred(n: nat)
    requires n > 0
    ensures (n as real / n as real) * 100.0 == 100.0
  {
  }

  lemma RatioIsAFraction(c: nat, n: nat)
    requires c <= n && n > 0
    ensures 0.0 <= (c as real / n as real) * 100.0 <= 100.0
  {
    var q := c as real / n as real;
    assert q * n as real == c as real;
    if q > 1.0 || q < 0.0 {
      assert false;
    }
  }

  /** The dictionary after `forEach` has written `data[subject.id]` for each subject in turn. */
  function ProgressData(subjects: seq<Subject>, progress: UserProgress): map<string, real>
    decreases |subjects|
  {
    if subjects == [] then map[]
    else
      var last := subjects[|subjects| - 1];
      ProgressData(subjects[..|subjects| - 1], progress)[last.id := SubjectPercent(last, progress)]
  }

  /** Every subject id gets exactly one entry, the value of the last subject with that id, and
      every value is a percentage. */
  lemma ProgressDataEntries(subjects: seq<Subject>, progress: UserProgress)
    ensures ProgressData(subjects, progress).Keys == set s | s in subjects :: s.id
    ensures forall id :: id in ProgressData(subjects, progress) ==> 0.0 <= ProgressData(subjects, progress)[id] <= 100.0
    ensures forall k :: 0 <= k < |subjects| && (forall j :: k < j < |subjects| ==> subjects[j].id != subjects[k].id) ==>
      ProgressData(subjects, progress)[subjects[k].id] == SubjectPercent(subjects[k], progress)
  {
    ProgressDataKeys(subjects, progress);
    ProgressDataRange(subjects, progress);
    forall k | 0 <= k < |subjects| && (forall j :: k < j < |subjects| ==> subjects[j].id != subjects[k].id)
      ensures ProgressData(subjects, progress)[subjects[k].id] == SubjectPercent(subjects[k], progress)
    {
      ProgressDataLastWins(subjects, progress, k);
    }
  }

  lemma {:induction false} ProgressDataKeys(subjects: seq<Subject>, progress: UserProgress)
    ensures ProgressData(subjects, progress).Keys == set s | s in subjects :: s.id
    decreases |subjects|
  {
    if subjects != [] {
      var init := subjects[..|subjects| - 1];
      ProgressDataKeys(init, progress);
      assert subjects == init + [subjects[|subjects| - 1]];
    }
  }

  lemma {:induction false} ProgressDataRange(subjects: seq<Subject>, progress: UserProgress)
    ensures forall id :: id in ProgressData(subjects, progress) ==> 0.0 <= ProgressData(subjects, progress)[id] <= 100.0
    decreases |subjects|
  {
    if subjects != [] {
      ProgressDataRange(subjects[..|subjects| - 1], progress);
    }
  }

  lemma {:induction false} ProgressDataLastWins(subjects: seq<Subject>, progress: UserProgress, k: int)
    requires 0 <= k < |subjects| && forall j :: k < j < |subjects| ==> subjects[j].id != subjects[k].id
    ensures subjects[k].id in ProgressData(subjects, progress)
    ensures ProgressData(subjects, progress)[subjects[k].id] == SubjectPercent(subjects[k], progress)
    decreases |subjects|
  {
    var init := subjects[..|subjects| - 1];
    if k < |init| {
      assert init[k] == subjects[k];
      assert forall j :: k < j < |init| ==> init[j] == subjects[j];
      ProgressDataLastWins(init, progress, k);
    }
  }

  /** `subjectProgressData`: `{}` while subjects are missing, else the `forEach` fill. */
  method SubjectProgressData(subjects: Option<seq<Subject>>, progress: UserProgress) returns (data: map<string, real>)
    ensures subjects.None? ==> data == map[]
    ensures subjects.Some? ==> data == ProgressData(subjects.value, progress)
  {
    if subjects.None? {
      return map[];
    }
    var xs := subjects.value;
    data := map[];
    var i := 0;
    while i < |xs|
      invariant 0 <= i <= |xs|
      invariant data == ProgressData(xs[..i], progress)
    {
      ProgressDataSnoc(xs, i, progress);
      var subject := xs[i];
      data := data[subject.id := SubjectPercent(subject, progress)];
      i := i + 1;
    }
    assert xs[..i] == xs;
  }

  /** One more subject writes one more entry. */
  lemma ProgressDataSnoc(xs: seq<Subject>, i: int, progress: UserProgress)
    requires 0 <= i < |xs|
    ensures ProgressData(xs[..i + 1], progress) == ProgressData(xs[..i], progress)[xs[i].id := SubjectPercent(xs[i], progress)]
  {
    assert xs[..i + 1][..i] == xs[..i];
    assert xs[..i + 1][i] == xs[i];
  }

  /** One milestone row: the subject's name and colour, its current percentage and the target. */
  datatype MilestoneRow = MilestoneRow(name: string, color: string, current: real, target: int)

  /** A milestone whose subject is missing renders nothing; a missing value reads 0. */
  function Row(m: Milestone, subjects: seq<Subject>, data: map<string, real>): (r: Option<MilestoneRow>)
    ensures r.None? <==> forall s :: s in subjects ==> s.id != m.subjectId
    ensures r.Some? ==> r.value.target == m.targetCompletion
    ensures r.Some? ==> r.value.current == (if m.subjectId in data then data[m.subjectId] else 0.0)
    ensures r.Some? ==> exists s :: s in subjects && s.id == m.subjectId && s.name == r.value.name && s.color == r.value.color
  {
    match Find(subjects, (s: Subject) => s.id == m.subjectId)
    case None => None
    case Some(s) => Some(MilestoneRow(s.name, s.color, if m.subjectId in data then data[m.subjectId] else 0.0,
                                      m.targetCompletion))
  }

  /** What the card shows: `None` is the "No milestones set for this month." state. */
  function MonthlyCard(goals: Goals, monthKey: string, subjects: seq<Subject>, data: map<string, real>): (r: Option<seq<Option<MilestoneRow>>>)
    ensures r.None? <==> CurrentMonthlyGoal(goals, monthKey).None?
    ensures r.Some? ==> |r.value| == |CurrentMonthlyGoal(goals, monthKey).value.milestones|
    ensures r.Some? ==> forall i :: 0 <= i < |r.value| ==>
      r.value[i] == Row(CurrentMonthlyGoal(goals, monthKey).value.milestones[i], subjects, data)
  {
    match CurrentMonthlyGoal(goals, monthKey)
    case None => None
    case Some(g) => Some(seq(|g.milestones|, i requires 0 <= i < |g.milestones| => Row(g.milestones[i], subjects, data)))
  }

  /** The card as the dashboard computes it: every milestone row that shows, shows its subject's
      percentage, between 0 and 100, against the milestone's own target. */
  lemma MonthlyCardShowsProgress(goals: Goals, monthKey: string, subjects: seq<Subject>, progress: UserProgress, i: int)
    ensures var r := MonthlyCard(goals, monthKey, subjects, ProgressData(subjects, progress));
      r.Some? && 0 <= i < |r.value| && r.value[i].Some? ==>
        var m := CurrentMonthlyGoal(goals, monthKey).value.milestones[i];
        && 0.0 <= r.value[i].value.current <= 100.0
        && r.value[i].value.target == m.targetCompletion
  {
    var r := MonthlyCard(goals, monthKey, subjects, ProgressData(subjects, progress));
    if r.Some? && 0 <= i < |r.value| && r.value[i].Some? {
      RowsShowPercentages(CurrentMonthlyGoal(goals, monthKey).value.milestones[i], subjects, progress);
    }
  }

  /** With the dictionary the card computes, every milestone for a known subject shows that
      subject's percentage, between 0 and 100. */
  lemma RowsShowPercentages(m: Milestone, subjects: seq<Subject>, progress: UserProgress)
    ensures var r := Row(m, subjects, ProgressData(subjects, progress));
      r.Some? ==> 0.0 <= r.value.current <= 100.0 && m.subjectId in ProgressData(subjects, progress)
  {
    ProgressDataEntries(subjects, progress);
    var r := Row(m, subjects, ProgressData(subjects, progress));
    if r.Some? {
      var s :| s in subjects && s.id == m.subjectId;
      assert s.id in set t | t in subjects :: t.id;
    }
  }
}
