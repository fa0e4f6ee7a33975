/**
 * The floating timer widget of src/components/persistent-timer.tsx: the MM:SS clock, the label
 * table, the visibility gate and the two buttons. Dragging is not modelled.
 */
module PersistentTimer {
  import opened Lookup
  import opened Types
  import opened Text
  import opened Timer
  import opened JsMath

  /** `formatTime`: the floor of the minutes and the JavaScript remainder of the seconds, each
      rendered with `toString` and left-padded with '0' to two characters. */
  function FormatTime(seconds: int): string {
    Pad2(IntToString(seconds / 60)) + ":" + Pad2(IntToString(JsRem(seconds, 60)))
  }

  predicate AllDigits(s: string) {
    forall i :: 0 <= i < |s| ==> IsDigit(s[i])
  }

  /** Reads a clock back: digits, a colon, exactly two digits; `None` for anything else. */
  function ParseTime(r: string): Option<int> {
    if |r| < 3 || r[|r| - 3] != ':' then None
    else
      var minutes := r[..|r| - 3];
      var secs := r[|r| - 2..];
      if AllDigits(minutes) && AllDigits(secs) then Some(DigitsValue(minutes) * 60 + DigitsValue(secs))
      else None
  }

  /** For a non-negative count both fields are plain digits. */
  lemma FormatTimeOfNat(s: int)
    requires s >= 0
    ensures FormatTime(s) == Pad2(NatToString(s / 60)) + ":" + Pad2(NatToString(s % 60))
  {
    assert JsRem(s, 60) == s % 60;
    assert IntToString(s / 60) == NatToString(s / 60);
    assert IntToString(s % 60) == NatToString(s % 60);
  }

  /** Reading back a clock built from two digit fields. */
  lemma ParseFields(m: string, sec: string)
    requires AllDigits(m) && AllDigits(sec) && |sec| == 2
    ensures ParseTime(m + ":" + sec) == Some(DigitsValue(m) * 60 + DigitsValue(sec))
  {
    var r := m + ":" + sec;
    assert r[|r| - 3] == ':';
    assert r[..|r| - 3] == m;
    assert r[|r| - 2..] == sec;
  }

  /** For a non-negative count, reading the clock back gives the count. */
  lemma FormatTimeRoundTrip(s: int)
    requires s >= 0
    ensures ParseTime(FormatTime(s)) == Some(s)
  {
    var m, sec := ClockFields(s);
    ParseFields(m, sec);
  }

  /** For a non-negative count the clock is two digit fields around a colon, the second of
      exactly two digits, that together spell the count. */
  lemma ClockFields(s: int) returns (m: string, sec: string)
    requires s >= 0
    ensures FormatTime(s) == m + ":" + sec
    ensures AllDigits(m) && AllDigits(sec) && |sec| == 2
    ensures DigitsValue(m) * 60 + DigitsValue(sec) == s
  {
    FormatTimeOfNat(s);
    FieldFacts(s / 60);
    FieldFacts(s % 60);
    m, sec := Pad2(NatToString(s / 60)), Pad2(NatToString(s % 60));
  }

  /** A clock field is digits reading back as its value, exactly two of them below 100. */
  lemma FieldFacts(n: nat)
    ensures var r := Pad2(NatToString(n));
      AllDigits(r) && DigitsValue(r) == n && (n < 100 ==> |r| == 2)
  {
    Pad2Digits(n);
  }

  /** The clock is exactly five characters below 100 minutes; `padStart` never truncates, so from
      100 minutes on the minutes field grows. */
  lemma FormatTimeLength(s: int)
    ensures 0 <= s < 6000 ==> |FormatTime(s)| == 5
    ensures s >= 6000 ==> |FormatTime(s)| > 5
  {
    if s >= 0 {
      FormatTimeOfNat(s);
      var m, sec := NatToString(s / 60), NatToString(s % 60);
      assert |Pad2(sec)| == 2;
      if s < 6000 {
        assert s / 60 < 100;
        assert |Pad2(m)| == 2;
      } else {
        assert s / 60 >= 100;
        assert |Pad2(m)| >= 3;
      }
    }
  }

  /** A negative count shows the JavaScript operators at work: floor for the minutes, a negative
      remainder for the seconds. For instance -5 shows as "-1:-5" and -65 as "-2:-5". */
  lemma FormatTimeOfNegative(s: int, m: int, r: int)
    requires 0 < m < 10 && 0 < r < 10 && s == -((m - 1) * 60 + r)
    ensures FormatTime(s) == ['-', DigitChar(m), ':', '-', DigitChar(r)]
  {
    assert s / 60 == -m;
    assert JsRem(s, 60) == -r;
    assert IntToString(-m) == ['-', DigitChar(m)];
    assert IntToString(-r) == ['-', DigitChar(r)];
  }

  /** The label and the text colour of the widget. */
  datatype SessionInfo = SessionInfo(name: string, color: string)

  function SessionTypeInfo(t: SessionType): SessionInfo {
    match t
    case Work => SessionInfo("Focus", "text-primary")
    case ShortBreak => SessionInfo("Break", "text-green-500")
    case LongBreak => SessionInfo("Break", "text-blue-500")
  }

  /** The label says only whether this is a work phase; the colour tells all three phases apart. */
  lemma SessionTypeInfoTells(t: SessionType, t': SessionType)
    ensures SessionTypeInfo(t).name == "Focus" <==> t == Work
    ensures t != Work ==> SessionTypeInfo(t).name == "Break"
    ensures SessionTypeInfo(t).color == SessionTypeInfo(t').color <==> t == t'
  {
  }

  /** What the widget shows: label, clock and whether the first button is a pause button. */
  datatype WidgetView = WidgetView(info: SessionInfo, clock: string, showsPause: bool)

  function Widget(m: Machine): (v: Option<WidgetView>)
    ensures v.None? <==> !m.visible
  {
    if !m.visible then None
    else Some(WidgetView(SessionTypeInfo(m.state.sessionType), FormatTime(m.timeLeft), m.state.isActive))
  }

  /** Starting a run shows the widget; resetting hides it; skipping a break hides it. */
  lemma WidgetFollowsTheTimer(m: Machine, p: Pomodoro, now: int)
    ensures Duration(m.state, p) > 0 && !m.state.isActive ==>
      var v := Widget(Start(m, p, now));
      v.Some? && v.value.showsPause && v.value.info == SessionTypeInfo(m.state.sessionType)
    ensures Widget(Reset(m, p)).None?
    ensures m.state.sessionType != Work ==> Widget(Skip(m)).None?
    ensures Widget(EndWork(m, now)).Some? && Widget(EndWork(m, now)).value.info.name == "Break"
  {
  }

  datatype Button = PlayPause | SkipForward

  /** The widget's click handlers: play/pause calls `pauseTimer` on an active timer and
      `startTimer` otherwise; the skip button always calls `skipTimer`. */
  function Press(m: Machine, b: Button, p: Pomodoro, now: int): Machine {
    match b
    case PlayPause => if m.state.isActive then Pause(m, now) else Start(m, p, now)
    case SkipForward => Skip(m)
  }

  /** Play then pause on an idle phase with a real clock reading folds exactly the seconds in
      between into `elapsedTime`, leaving the timer idle and the widget shown. */
  lemma PlayThenPause(m: Machine, p: Pomodoro, t0: int, t1: int)
    requires !m.state.isActive && Duration(m.state, p) > 0 && t0 != 0
    ensures var r := Press(Press(m, PlayPause, p, t0), PlayPause, p, t1);
      && !r.state.isActive && r.state.startTime == None && r.visible
      && r.state.elapsedTime == m.state.elapsedTime + (t1 - t0) / 1000
      && r.state.sessionType == m.state.sessionType && r.state.sessionCount == m.state.sessionCount
  {
  }

  /** Play/pause on an active timer is a pause: it stops the run, or changes nothing when the
      run has no start time to fold. Skipping during work changes nothing. */
  lemma PressGuards(m: Machine, p: Pomodoro, now: int)
    ensures m.state.isActive ==> Press(m, PlayPause, p, now) == Pause(m, now)
    ensures m.state.isActive ==> !Press(m, PlayPause, p, now).state.isActive || Press(m, PlayPause, p, now) == m
    ensures m.state.sessionType == Work ==> Press(m, SkipForward, p, now) == m
  {
  }

  /** A click on the widget, as the hook's methods perform it. */
  method PressButton(t: StudyTimer, b: Button, p: Pomodoro, now: int)
    modifies t
    ensures t.Model() == Press(old(t.Model()), b, p, now)
  {
    match b
    case PlayPause =>
      if t.isActive {
        t.PauseTimer(now);
      } else {
        t.StartTimer(p, now);
      }
    case SkipForward =>
      t.SkipTimer();
  }
}
