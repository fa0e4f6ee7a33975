/**
 * The routine card of src/components/dashboard/todays-routine.tsx: today's schedule, the subject
 * each slot names (or a reserved activity), and the display fallbacks.
 */
module TodaysRoutine {
  import opened Lookup
  import opened Types
  import opened Text
  import Dates
  import Data
  import Constants

  /** `todaysSchedule`: the first day entry for today's weekday. */
  function TodaysSchedule(routine: Routine, today: int): (r: Option<DailyRoutine>)
    ensures r.Some? ==> r.value in routine.weekSchedule && r.value.day == Dates.WeekDayOf(today)
    ensures r.Some? ==> exists k :: 0 <= k < |routine.weekSchedule| && routine.weekSchedule[k] == r.value
                                  && forall j :: 0 <= j < k ==> routine.weekSchedule[j].day != Dates.WeekDayOf(today)
    ensures r.None? <==> forall d :: d in routine.weekSchedule ==> d.day != Dates.WeekDayOf(today)
  {
    Find(routine.weekSchedule, (d: DailyRoutine) => d.day == Dates.WeekDayOf(today))
  }

  /** The ids a slot may name instead of a subject. */
  const ReservedIds: seq<string> := ["break", "prayer", "other"]

  /** `charAt(0).toUpperCase() + slice(1)`. */
  function Capitalize(s: string): (r: string)
    ensures |r| == |s|
    ensures s != [] ==> r[0] == UpperChar(s[0]) && r[1..] == s[1..]
  {
    if s == [] then [] else [UpperChar(s[0])] + s[1..]
  }

  /** What a slot shows of its subject. */
  datatype SlotSubject = SlotSubject(name: string, color: string)

  /** `getSubject`: a reserved id becomes its capitalised name in grey without any lookup;
      any other id is looked up among the subjects and may be missing. */
  function GetSubject(subjectId: string, subjects: seq<Subject>): (r: Option<SlotSubject>)
    ensures subjectId in ReservedIds ==> r == Some(SlotSubject(Capitalize(subjectId), "#888"))
    ensures subjectId !in ReservedIds ==>
      (r.None? <==> forall s :: s in subjects ==> s.id != subjectId)
      && (r.Some? ==> exists s :: s in subjects && s.id == subjectId && r.value == SlotSubject(s.name, s.color))
  {
    if subjectId in ReservedIds then Some(SlotSubject(Capitalize(subjectId), "#888"))
    else
      match Find(subjects, (s: Subject) => s.id == subjectId)
      case None => None
      case Some(s) => Some(SlotSubject(s.name, s.color))
  }

  /** The reserved names as shown, and that they win over a subject with the same id. */
  lemma ReservedNames(subjects: seq<Subject>)
    ensures GetSubject("break", subjects) == Some(SlotSubject("Break", "#888"))
    ensures GetSubject("prayer", subjects) == Some(SlotSubject("Prayer", "#888"))
    ensures GetSubject("other", subjects) == Some(SlotSubject("Other", "#888"))
  {
    assert Capitalize("break") == "Break";
    assert Capitalize("prayer") == "Prayer";
    assert Capitalize("other") == "Other";
  }

  /** The border colour and name a slot shows: `'#ccc'` and `'Unnamed Activity'` stand in for a
      missing subject as for an empty colour or name. */
  datatype SlotView = SlotView(border: string, name: string, startTime: string, endTime: string, activity: Activity)

  function ShowSlot(slot: RoutineSlot, subjects: seq<Subject>): (v: SlotView)
    ensures v.border != "" && v.name != ""
    ensures GetSubject(slot.subjectId, subjects).None? ==> v.border == "#ccc" && v.name == "Unnamed Activity"
    ensures GetSubject(slot.subjectId, subjects).Some? ==>
      var s := GetSubject(slot.subjectId, subjects).value;
      v.border == OrElse(s.color, "#ccc") && v.name == OrElse(s.name, "Unnamed Activity")
    ensures v.startTime == slot.startTime && v.endTime == slot.endTime && v.activity == slot.activity
  {
    var s := GetSubject(slot.subjectId, subjects);
    var color := if s.Some? then s.value.color else "";
    var name := if s.Some? then s.value.name else "";
    SlotView(OrElse(color, "#ccc"), OrElse(name, "Unnamed Activity"), slot.startTime, slot.endTime, slot.activity)
  }

  /** The card: `None` is the "no routine scheduled" state, shown when today has no entry or an
      entry without slots; otherwise one view per slot, in order. */
  function RoutineCard(routine: Routine, subjects: seq<Subject>, today: int): (r: Option<seq<SlotView>>)
    ensures r.None? <==> TodaysSchedule(routine, today).None? || TodaysSchedule(routine, today).value.slots == []
    ensures r.Some? ==> var slots := TodaysSchedule(routine, today).value.slots;
      |r.value| == |slots| && forall i :: 0 <= i < |slots| ==> r.value[i] == ShowSlot(slots[i], subjects)
  {
    match TodaysSchedule(routine, today)
    case None => None
    case Some(d) =>
      if |d.slots| == 0 then None
      else Some(seq(|d.slots|, i requires 0 <= i < |d.slots| => ShowSlot(d.slots[i], subjects)))
  }

  /** The default routine has an entry for every weekday, all empty, so every day shows the
      empty state. */
  lemma DefaultRoutineIsEmptyEveryDay(subjects: seq<Subject>, today: int)
    ensures TodaysSchedule(Data.DefaultRoutine(), today).Some?
    ensures RoutineCard(Data.DefaultRoutine(), subjects, today).None?
  {
    var r := Data.DefaultRoutine();
    Constants.WeekDaysAreTheWeek();
    var w := Dates.WeekDayOf(today);
    assert w in Constants.WeekDays;
    var k :| 0 <= k < |Constants.WeekDays| && Constants.WeekDays[k] == w;
    assert r.weekSchedule[k].day == w;
    assert r.weekSchedule[k] in r.weekSchedule;
  }
}
