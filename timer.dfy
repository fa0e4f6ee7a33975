/**
 * The Pomodoro study timer of src/hooks/use-timer.tsx.
 *
 * The hook keeps one `TimerState` record plus `timeLeft` and `isTimerVisible`. Every operation
 * is written twice: as a pure transition on `Machine` (the specification, about which the
 * lemmas below are proved) and as a method of the class `StudyTimer`, which updates its fields in
 * place and is proved to perform exactly that transition. Wall-clock time `now` (epoch
 * milliseconds) and the Pomodoro settings are parameters.
 */
module Timer {
  import opened Lookup
  import opened Types
  import Data

  datatype SessionType = Work | ShortBreak | LongBreak

  datatype TimerState = TimerState(
    sessionType: SessionType,
    isActive: bool,
    sessionCount: int,
    manualDuration: int,   // minutes of the next work session
    startTime: Option<int>, // epoch milliseconds of the current run, or null
    elapsedTime: int,      // seconds folded in by earlier pauses
    sessionCompleted: bool)

  /** Everything the hook exposes: the state record, the derived `timeLeft` and the widget flag. */
  datatype Machine = Machine(state: TimerState, timeLeft: int, visible: bool)

  /** The persisted record: `sessionCompleted` is never saved, and any field may be missing. */
  datatype StoredTimerState = StoredTimerState(
    sessionType: Option<SessionType>,
    isActive: Option<bool>,
    sessionCount: Option<int>,
    manualDuration: Option<int>,
    startTime: Option<int>,
    elapsedTime: Option<int>)

  /** JavaScript truthiness of a number that may be null: 0 is falsy. */
  predicate Truthy(n: Option<int>) {
    n.Some? && n.value != 0
  }

  /** The invariant every operation keeps: a run is in progress exactly when a start time is set. */
  predicate Consistent(s: TimerState) {
    s.isActive <==> s.startTime.Some?
  }

  /** The guard wall-clock arithmetic runs under (`state.isActive && state.startTime`). */
  predicate Counting(s: TimerState) {
    s.isActive && Truthy(s.startTime)
  }

  // ---------------------------------------------------------------- restoring and saving

  /** `getInitialState`: each field of the stored record, or its `||` fallback. */
  function InitialState(stored: StoredTimerState): (s: TimerState)
    ensures !s.sessionCompleted
    ensures s.manualDuration != 0 && s.startTime != Some(0)
  {
    TimerState(
      sessionType := stored.sessionType.GetOr(Work),
      isActive := stored.isActive.GetOr(false),
      sessionCount := stored.sessionCount.GetOr(0),
      manualDuration := if Truthy(stored.manualDuration) then stored.manualDuration.value
                        else Data.DefaultSettings.pomodoro.work,
      startTime := if Truthy(stored.startTime) then stored.startTime else None,
      elapsedTime := stored.elapsedTime.GetOr(0),
      sessionCompleted := false)
  }

  /** The snapshot the persistence effect writes: the state without `sessionCompleted`. */
  function Saved(s: TimerState): StoredTimerState {
    StoredTimerState(Some(s.sessionType), Some(s.isActive), Some(s.sessionCount),
                     Some(s.manualDuration), s.startTime, Some(s.elapsedTime))
  }

  /** Restoring what was saved gives the state back (with the completion flag cleared) exactly
      when no saved number is a falsy 0 that `||` would replace. */
  lemma RestoreSaved(s: TimerState)
    ensures InitialState(Saved(s)) == s.(sessionCompleted := false)
        <==> s.manualDuration != 0 && s.startTime != Some(0)
  {
  }

  /** What is restored from an empty store. */
  lemma RestoreFromEmptyStore()
    ensures var s := InitialState(StoredTimerState(None, None, None, None, None, None));
      s == TimerState(Work, false, 0, 25, None, 0, false) && Consistent(s)
  {
  }

  /** A stored record can restore to a state that is active with no start time. */
  lemma RestoreMayBeInconsistent()
    ensures exists stored :: !Consistent(InitialState(stored))
  {
    var stored := StoredTimerState(None, Some(true), None, None, None, None);
    assert !Consistent(InitialState(stored));
  }

  /** A saved consistent state with a real start time restores to a consistent state. */
  lemma RestoreKeepsConsistency(s: TimerState)
    requires Consistent(s) && s.startTime != Some(0)
    ensures Consistent(InitialState(Saved(s)))
  {
  }

  // ---------------------------------------------------------------- derived time

  /** `getTimerDuration`: the length of the current phase in seconds. */
  function Duration(s: TimerState, p: Pomodoro): int {
    match s.sessionType
    case Work => s.manualDuration * 60
    case ShortBreak => p.shortBreak * 60
    case LongBreak => p.longBreak * 60
  }

  /** Whole seconds since `start`: `Math.floor((now - start) / 1000)`. */
  function SecondsSince(start: int, now: int): int {
    (now - start) / 1000
  }

  /** The remaining seconds of a counting run. */
  function Remaining(s: TimerState, p: Pomodoro, now: int): int
    requires s.startTime.Some?
  {
    Duration(s, p) - (s.elapsedTime + SecondsSince(s.startTime.value, now))
  }

  /** `calculateTimeLeft`, run on every tick and whenever its inputs change. */
  function Tick(m: Machine, p: Pomodoro, now: int): Machine {
    if !Counting(m.state) then
      m.(timeLeft := Duration(m.state, p) - m.state.elapsedTime)
    else
      var remaining := Remaining(m.state, p, now);
      if remaining <= 0 then
        m.(timeLeft := 0,
           state := m.state.(isActive := false, startTime := None, elapsedTime := 0, sessionCompleted := true))
      else
        m.(timeLeft := remaining)
  }

  // ---------------------------------------------------------------- operations

  function Start(m: Machine, p: Pomodoro, now: int): Machine {
    if Duration(m.state, p) > 0 && !m.state.isActive then
      m.(state := m.state.(isActive := true, startTime := Some(now)), visible := true)
    else m
  }

  function Pause(m: Machine, now: int): Machine {
    if !Counting(m.state) then m
    else
      m.(state := m.state.(isActive := false, startTime := None,
                           elapsedTime := m.state.elapsedTime + SecondsSince(m.state.startTime.value, now)))
  }

  /** The state `resetTimer` writes, whatever came before. */
  function ResetState(p: Pomodoro): TimerState {
    TimerState(Work, false, 0, p.work, None, 0, false)
  }

  function Reset(m: Machine, p: Pomodoro): Machine {
    m.(state := ResetState(p), visible := false)
  }

  /** The break that follows the `count`-th completed work session. */
  function BreakAfter(count: int): SessionType {
    if count % 4 == 0 then LongBreak else ShortBreak
  }

  function EndWork(m: Machine, now: int): Machine {
    var count := m.state.sessionCount + 1;
    m.(state := m.state.(isActive := true, sessionType := BreakAfter(count), sessionCount := count,
                         startTime := Some(now), elapsedTime := 0),
       visible := true)
  }

  function Skip(m: Machine): Machine {
    if m.state.sessionType != Work then
      m.(state := m.state.(isActive := false, sessionType := Work, startTime := None, elapsedTime := 0),
         visible := false)
    else m
  }

  function ChangeManualDuration(m: Machine, minutes: int): Machine {
    if !m.state.isActive then m.(state := m.state.(manualDuration := minutes, elapsedTime := 0)) else m
  }

  function ChangeSessionType(m: Machine, t: SessionType): Machine {
    if !m.state.isActive then m.(state := m.state.(sessionType := t, elapsedTime := 0)) else m
  }

  function ClearCompleted(m: Machine): Machine {
    m.(state := m.state.(sessionCompleted := false))
  }

  function SetVisible(m: Machine, v: bool): Machine {
    m.(visible := v)
  }

  /** The body of the settings-sync effect (use-timer.tsx, lines 119-127). */
  function Sync(m: Machine, p: Pomodoro): Machine {
    if m.state.isActive then m
    else if m.state.sessionType == Work then m.(state := m.state.(manualDuration := p.work, elapsedTime := 0))
    else m.(state := m.state.(elapsedTime := 0))
  }

  /** Every operation the hook exposes, plus the tick and the settings-sync effect. */
  datatype Op =
    | StartOp | PauseOp | ResetOp | EndWorkOp(wasCompleted: bool) | SkipOp
    | SetManualDurationOp(minutes: int) | SetSessionTypeOp(t: SessionType)
    | ClearSessionCompletedOp | SetVisibleOp(v: bool) | SyncOp | TickOp

  function Apply(m: Machine, op: Op, p: Pomodoro, now: int): Machine {
    match op
    case StartOp => Start(m, p, now)
    case PauseOp => Pause(m, now)
    case ResetOp => Reset(m, p)
    case EndWorkOp(_) => EndWork(m, now)
    case SkipOp => Skip(m)
    case SetManualDurationOp(d) => ChangeManualDuration(m, d)
    case SetSessionTypeOp(t) => ChangeSessionType(m, t)
    case ClearSessionCompletedOp => ClearCompleted(m)
    case SetVisibleOp(v) => SetVisible(m, v)
    case SyncOp => Sync(m, p)
    case TickOp => Tick(m, p, now)
  }

  /** An arbitrary run of operations, each with its own settings and clock reading. */
  function Run(m: Machine, ops: seq<(Op, Pomodoro, int)>): Machine
    decreases |ops|
  {
    if ops == [] then m else Run(Apply(m, ops[0].0, ops[0].1, ops[0].2), ops[1..])
  }

  // ---------------------------------------------------------------- properties

  /** A work phase lasts the manual duration whatever the settings; a break lasts what the
      settings say whatever the manual duration. */
  lemma DurationSources(s: TimerState, p: Pomodoro, s': TimerState, p': Pomodoro)
    requires s.sessionType == s'.sessionType
    ensures s.sessionType == Work && s.manualDuration == s'.manualDuration ==> Duration(s, p) == Duration(s', p')
    ensures s.sessionType == ShortBreak && p.shortBreak == p'.shortBreak ==> Duration(s, p) == Duration(s', p')
    ensures s.sessionType == LongBreak && p.longBreak == p'.longBreak ==> Duration(s, p) == Duration(s', p')
    ensures Duration(s, p) % 60 == 0
  {
  }

  /** While nothing is counting, the clock is not read: time left is frozen at duration minus
      the folded seconds, and the state is untouched. */
  lemma TickWhileIdle(m: Machine, p: Pomodoro, now: int, later: int)
    requires !Counting(m.state)
    ensures Tick(m, p, now) == Tick(m, p, later)
    ensures Tick(m, p, now).state == m.state && Tick(m, p, now).visible == m.visible
    ensures Tick(m, p, now).timeLeft == Duration(m.state, p) - m.state.elapsedTime
  {
  }

  /** While counting, time left is the phase duration minus the folded and the live seconds, never
      below zero; reaching zero completes the phase and stops the run. */
  lemma TickWhileCounting(m: Machine, p: Pomodoro, now: int)
    requires Counting(m.state)
    ensures var r := Tick(m, p, now);
      var remaining := Duration(m.state, p) - m.state.elapsedTime - (now - m.state.startTime.value) / 1000;
      && r.timeLeft == (if remaining <= 0 then 0 else remaining)
      && r.visible == m.visible
      && (remaining > 0 ==> r.state == m.state)
      && (remaining <= 0 ==> r.state == m.state.(isActive := false, startTime := None, elapsedTime := 0,
                                                 sessionCompleted := true))
  {
  }

  /** Counting down: a later reading never shows more time left. */
  lemma TickIsMonotone(m: Machine, p: Pomodoro, now: int, later: int)
    requires Counting(m.state) && now <= later
    ensures Tick(m, p, later).timeLeft <= Tick(m, p, now).timeLeft
  {
    var st := m.state.startTime.value;
    assert (now - st) / 1000 <= (later - st) / 1000 by {
      DivIsMonotone(now - st, later - st, 1000);
    }
  }

  lemma DivIsMonotone(a: int, b: int, d: int)
    requires a <= b && d > 0
    ensures a / d <= b / d
  {
    if a / d > b / d {
      assert d * (a / d) + a % d == a && d * (b / d) + b % d == b;
      assert d * (a / d) >= d * (b / d) + d by {
        assert a / d >= b / d + 1;
        MulIsMonotone(d, b / d + 1, a / d);
      }
    }
  }

  lemma MulIsMonotone(d: int, x: int, y: int)
    requires d > 0 && x <= y
    ensures d * x <= d * y
  {
  }

  /** One more second of wall-clock time takes exactly one second off a running countdown. */
  lemma TickLosesOneSecondPerSecond(m: Machine, p: Pomodoro, now: int)
    requires Counting(m.state)
    ensures Tick(m, p, now + 1000).timeLeft == if Tick(m, p, now).timeLeft <= 1 then 0 else Tick(m, p, now).timeLeft - 1
  {
    var st := m.state.startTime.value;
    assert (now + 1000 - st) / 1000 == (now - st) / 1000 + 1;
  }

  /** `startTimer` changes something exactly when the phase has a positive length and nothing is
      running; it then starts the run now and shows the widget. */
  lemma StartGuard(m: Machine, p: Pomodoro, now: int)
    ensures Start(m, p, now) != m <==> Duration(m.state, p) > 0 && !m.state.isActive
    ensures Start(m, p, now) != m ==>
      Start(m, p, now) == m.(state := m.state.(isActive := true, startTime := Some(now)), visible := true)
  {
  }

  /** Pausing twice is pausing once. */
  lemma PauseIsIdempotent(m: Machine, now: int, later: int)
    ensures Pause(Pause(m, now), later) == Pause(m, now)
  {
  }

  /** A pause folds the live seconds into `elapsedTime` and stops the run, so the time left
      shown right after it is the time left shown right before it. */
  lemma PauseFoldsElapsedTime(m: Machine, p: Pomodoro, now: int)
    requires Counting(m.state)
    ensures var r := Pause(m, now);
      && !r.state.isActive && r.state.startTime == None && r.visible == m.visible
      && r.state.elapsedTime == m.state.elapsedTime + (now - m.state.startTime.value) / 1000
      && (Remaining(m.state, p, now) > 0 ==> Tick(r, p, now).timeLeft == Tick(m, p, now).timeLeft)
  {
  }

  /** A pause guards on the start time as well as on `isActive`: an active state restored without
      a start time can be neither paused nor started, and its clock shows a frozen value. */
  lemma ActiveWithoutStartIsStuck(m: Machine, p: Pomodoro, now: int, later: int)
    requires m.state.isActive && m.state.startTime.None?
    ensures Pause(m, now) == m && Start(m, p, now) == m
    ensures Tick(m, p, now).timeLeft == Tick(m, p, later).timeLeft
  {
  }

  /** `resetTimer` forgets everything: any two machines reset to the same state, hidden, and the
      next tick shows a full work session of the configured length. */
  lemma ResetForgets(m: Machine, m': Machine, p: Pomodoro, now: int)
    ensures Reset(m, p).state == Reset(m', p).state && Reset(m, p).visible == Reset(m', p).visible
    ensures var s := Reset(m, p).state;
      && s.sessionType == Work && s.sessionCount == 0 && s.elapsedTime == 0 && !s.isActive
      && s.startTime == None && !s.sessionCompleted && s.manualDuration == p.work && !Reset(m, p).visible
    ensures Tick(Reset(m, p), p, now).timeLeft == p.work * 60
  {
  }

  /** `endWorkSession` counts the session, picks the break by `count % 4` and starts it right
      away; the `wasCompleted` argument has no influence. */
  lemma EndWorkStartsBreak(m: Machine, now: int)
    ensures var r := EndWork(m, now);
      && r.state.sessionCount == m.state.sessionCount + 1
      && (r.state.sessionType == LongBreak <==> r.state.sessionCount % 4 == 0)
      && (r.state.sessionType == ShortBreak <==> r.state.sessionCount % 4 != 0)
      && r.state.isActive && r.state.startTime == Some(now) && r.state.elapsedTime == 0 && r.visible
      && r.state.manualDuration == m.state.manualDuration && r.state.sessionCompleted == m.state.sessionCompleted
    ensures forall b, b' :: Apply(m, EndWorkOp(b), Data.DefaultSettings.pomodoro, now)
                         == Apply(m, EndWorkOp(b'), Data.DefaultSettings.pomodoro, now)
  {
  }

  /** `n` work sessions, each ended and its break skipped. */
  function Sessions(m: Machine, n: nat, now: int): Machine {
    if n == 0 then m else Skip(EndWork(Sessions(m, n - 1, now), now))
  }

  lemma {:induction false} SessionsCount(m: Machine, n: nat, now: int)
    ensures Sessions(m, n, now).state.sessionCount == m.state.sessionCount + n
  {
    if n > 0 {
      SessionsCount(m, n - 1, now);
    }
  }

  /** From a reset, the n-th completed work session is followed by a long break exactly when n is
      a multiple of four: short, short, short, long, short, short, short, long, ... */
  lemma LongBreakEveryFourth(m: Machine, p: Pomodoro, n: nat, now: int)
    requires n >= 1
    ensures var r := EndWork(Sessions(Reset(m, p), n - 1, now), now);
      r.state.sessionCount == n && r.state.sessionType == (if n % 4 == 0 then LongBreak else ShortBreak)
  {
    SessionsCount(Reset(m, p), n - 1, now);
  }

  /** `skipTimer` only ends breaks: in a work phase it changes nothing; in a break it goes back to
      an idle, hidden work phase without touching the session count. */
  lemma SkipOnlyEndsBreaks(m: Machine)
    ensures m.state.sessionType == Work ==> Skip(m) == m
    ensures m.state.sessionType != Work ==>
      var r := Skip(m);
      && r.state.sessionType == Work && !r.state.isActive && r.state.startTime == None
      && r.state.elapsedTime == 0 && !r.visible
      && r.state.sessionCount == m.state.sessionCount && r.state.manualDuration == m.state.manualDuration
  {
  }

  /** The two setters are ignored while a run is active; otherwise they set their field and
      discard the folded seconds. */
  lemma SettersRespectActiveRun(m: Machine, minutes: int, t: SessionType)
    ensures m.state.isActive ==> ChangeManualDuration(m, minutes) == m && ChangeSessionType(m, t) == m
    ensures !m.state.isActive ==>
      ChangeManualDuration(m, minutes) == m.(state := m.state.(manualDuration := minutes, elapsedTime := 0))
      && ChangeSessionType(m, t) == m.(state := m.state.(sessionType := t, elapsedTime := 0))
  {
  }

  /** The settings-sync effect leaves a running timer alone; an idle one loses its folded
      seconds, and an idle work phase takes the configured work length. */
  lemma SyncRebasesIdlePhase(m: Machine, p: Pomodoro)
    ensures m.state.isActive ==> Sync(m, p) == m
    ensures !m.state.isActive ==> Sync(m, p).state.elapsedTime == 0
    ensures !m.state.isActive && m.state.sessionType == Work ==> Sync(m, p).state.manualDuration == p.work
    ensures Sync(m, p).state.sessionType == m.state.sessionType && Sync(m, p).state.isActive == m.state.isActive
  {
  }

  /** Every operation, the tick and the settings sync keep `isActive` true exactly when a start
      time is set. */
  lemma ApplyKeepsConsistency(m: Machine, op: Op, p: Pomodoro, now: int)
    requires Consistent(m.state)
    ensures Consistent(Apply(m, op, p, now).state)
  {
  }

  lemma {:induction false} RunKeepsConsistency(m: Machine, ops: seq<(Op, Pomodoro, int)>)
    requires Consistent(m.state)
    ensures Consistent(Run(m, ops).state)
    decreases |ops|
  {
    if ops != [] {
      ApplyKeepsConsistency(m, ops[0].0, ops[0].1, ops[0].2);
      RunKeepsConsistency(Apply(m, ops[0].0, ops[0].1, ops[0].2), ops[1..]);
    }
  }

  /** Only `endWorkSession` and `resetTimer` change the session count: by one and to zero. */
  lemma {:induction false} RunCountsSessions(m: Machine, ops: seq<(Op, Pomodoro, int)>)
    ensures m.state.sessionCount >= 0 ==> Run(m, ops).state.sessionCount >= 0
    ensures (forall k :: 0 <= k < |ops| ==> !ops[k].0.EndWorkOp? && !ops[k].0.ResetOp?) ==>
      Run(m, ops).state.sessionCount == m.state.sessionCount
    decreases |ops|
  {
    if ops != [] {
      var m' := Apply(m, ops[0].0, ops[0].1, ops[0].2);
      RunCountsSessions(m', ops[1..]);
      if forall k :: 0 <= k < |ops| ==> !ops[k].0.EndWorkOp? && !ops[k].0.ResetOp? {
        assert !ops[0].0.EndWorkOp? && !ops[0].0.ResetOp?;
        assert forall k :: 0 <= k < |ops[1..]| ==> ops[1..][k] == ops[k + 1];
      }
    }
  }

  // ---------------------------------------------------------------- scenarios

  /** A 25-minute session started at `t0` has run out 1500 seconds later; ending it starts a
      five-minute short break, and skipping that break leaves an idle 25-minute work phase. */
  lemma DefaultPomodoroScenario(m: Machine, t0: int, t1: int)
    requires t0 != 0 && t1 != 0
    ensures var p := Data.DefaultSettings.pomodoro;
      var started := Start(Reset(m, p), p, t0);
      var done := Tick(started, p, t0 + 1_500_000);
      var onBreak := EndWork(done, t1);
      && started.state.isActive && started.visible
      && done.timeLeft == 0 && done.state.sessionCompleted && !done.state.isActive
      && onBreak.state.sessionCount == 1 && onBreak.state.sessionType == ShortBreak && onBreak.state.isActive
      && Tick(onBreak, p, t1).timeLeft == 300
      && Tick(Skip(onBreak), p, t1).timeLeft == 1500 && !Skip(onBreak).state.isActive
  {
  }

  // ---------------------------------------------------------------- when the sync effect runs

  /** The dependencies of the settings-sync effect as written: any Pomodoro length, the phase,
      and `isActive`. */
  predicate SyncDueAsWritten(before: TimerState, after: TimerState, p: Pomodoro, p': Pomodoro) {
    p != p' || before.sessionType != after.sessionType || before.isActive != after.isActive
  }

  /** After a change from `before` to `after` (and from settings `p` to `p'`), the effect
      runs if its dependencies changed. */
  function SettleAsWritten(before: Machine, after: Machine, p: Pomodoro, p': Pomodoro): Machine {
    if SyncDueAsWritten(before.state, after.state, p, p') then Sync(after, p') else after
  }

  /** As written, pausing flips `isActive`, so the effect runs right after the pause and
      throws away the seconds the pause just folded in: 10 minutes into a 25-minute session,
      the time left jumps back from 15:00 to 25:00. */
  lemma PauseLosesProgressAsWritten()
    ensures var p := Data.DefaultSettings.pomodoro;
      var started := Start(Machine(ResetState(p), 0, false), p, 1000);
      var paused := Pause(started, 601_000);
      && Tick(started, p, 601_000).timeLeft == 900
      && Tick(paused, p, 601_000).timeLeft == 900
      && Tick(SettleAsWritten(started, paused, p, p), p, 601_000).timeLeft == 1500
  {
  }

  /** The evident intent ("update duration when settings change and timer isn't running"): the
      effect rebases an idle phase when the settings or the phase change, not when a run stops.
      This also drops what the `isActive` dependency does when a run stops: it applies settings
      that were changed during the run (`SettingsOfARunWaitForTheNextChange`). */
  predicate SyncDue(before: TimerState, after: TimerState, p: Pomodoro, p': Pomodoro) {
    p != p' || before.sessionType != after.sessionType
  }

  function Settle(before: Machine, after: Machine, p: Pomodoro, p': Pomodoro): Machine {
    if SyncDue(before.state, after.state, p, p') then Sync(after, p') else after
  }

  /** With the intended trigger, a pause keeps every second of progress: the time left after the
      pause has settled is the time left just before it. */
  lemma PauseKeepsProgress(m: Machine, p: Pomodoro, now: int)
    requires Counting(m.state) && Remaining(m.state, p, now) > 0
    ensures Settle(m, Pause(m, now), p, p) == Pause(m, now)
    ensures Tick(Settle(m, Pause(m, now), p, p), p, now).timeLeft == Tick(m, p, now).timeLeft
  {
    PauseFoldsElapsedTime(m, p, now);
  }

  /** With the intended trigger, a change of settings still rebases an idle work phase. */
  lemma SettingsChangeRebasesIdleWork(m: Machine, p: Pomodoro, p': Pomodoro)
    requires p != p' && !m.state.isActive && m.state.sessionType == Work
    ensures Settle(m, m, p, p').state == m.state.(manualDuration := p'.work, elapsedTime := 0)
  {
  }

  /** A work run started under an older work length: as written, stopping it applies the
      current settings at once; with the intended trigger the old length stays until the
      settings or the phase change again. */
  lemma SettingsOfARunWaitForTheNextChange(m: Machine, p: Pomodoro, now: int)
    requires Counting(m.state) && m.state.sessionType == Work
    ensures SettleAsWritten(m, Pause(m, now), p, p).state.manualDuration == p.work
    ensures SettleAsWritten(m, Pause(m, now), p, p).state.elapsedTime == 0
    ensures Settle(m, Pause(m, now), p, p).state.manualDuration == m.state.manualDuration
  {
  }

  // ---------------------------------------------------------------- mounting

  /** React runs every effect once after the first render, so mounting the provider also runs
      the settings sync on the restored state, whichever trigger is used. */
  function Mounted(stored: StoredTimerState, storedVisible: Option<bool>, p: Pomodoro): Machine {
    Sync(Machine(InitialState(stored), 0, storedVisible.GetOr(false)), p)
  }

  /** A restored run is left alone; a restored idle phase loses its folded seconds, and an idle
      work phase takes the configured work length. */
  lemma MountForgetsIdleProgress(stored: StoredTimerState, storedVisible: Option<bool>, p: Pomodoro)
    ensures var s := InitialState(stored);
      var m := Mounted(stored, storedVisible, p);
      && m.timeLeft == 0 && m.visible == storedVisible.GetOr(false)
      && (s.isActive ==> m.state == s)
      && (!s.isActive && s.sessionType == Work ==> m.state == s.(manualDuration := p.work, elapsedTime := 0))
      && (!s.isActive && s.sessionType != Work ==> m.state == s.(elapsedTime := 0))
  {
  }

  /** So a reload throws away a paused session's progress: paused at 15:00 of a 25-minute
      session, the saved state is restored exactly, and after mounting the clock reads 25:00. */
  lemma ReloadLosesPausedProgress()
    ensures var p := Data.DefaultSettings.pomodoro;
      var started := Start(Machine(ResetState(p), 0, false), p, 1000);
      var paused := Pause(started, 601_000);
      && Tick(paused, p, 601_000).timeLeft == 900
      && InitialState(Saved(paused.state)) == paused.state
      && Tick(Mounted(Saved(paused.state), Some(true), p), p, 700_000).timeLeft == 1500
  {
  }

  // ---------------------------------------------------------------- the hook's state, in place

  /** The provider's state: the fields it updates through `setState`, `setTimeLeft` and
      `setIsTimerVisible`. */
  class StudyTimer {
    var sessionType: SessionType
    var isActive: bool
    var sessionCount: int
    var manualDuration: int
    var startTime: Option<int>
    var elapsedTime: int
    var sessionCompleted: bool
    var timeLeft: int
    var isTimerVisible: bool

    function State(): TimerState
      reads this
    {
      TimerState(sessionType, isActive, sessionCount, manualDuration, startTime, elapsedTime, sessionCompleted)
    }

    function Model(): Machine
      reads this
    {
      Machine(State(), timeLeft, isTimerVisible)
    }

    /** Mounting the provider: the restored state, `timeLeft` 0, the stored visibility or false. */
    constructor (stored: StoredTimerState, storedVisible: Option<bool>)
      ensures Model() == Machine(InitialState(stored), 0, storedVisible.GetOr(false))
    {
      var s := InitialState(stored);
      sessionType, isActive, sessionCount := s.sessionType, s.isActive, s.sessionCount;
      manualDuration, startTime, elapsedTime := s.manualDuration, s.startTime, s.elapsedTime;
      sessionCompleted := false;
      timeLeft := 0;
      isTimerVisible := storedVisible.GetOr(false);
    }

    method CalculateTimeLeft(p: Pomodoro, now: int)
      modifies this
      ensures Model() == Tick(old(Model()), p, now)
    {
      var duration := Duration(State(), p);
      if !isActive || !Truthy(startTime) {
        timeLeft := duration - elapsedTime;
        return;
      }
      var currentElapsed := (now - startTime.value) / 1000;
      var remaining := duration - (elapsedTime + currentElapsed);
      if remaining <= 0 {
        timeLeft := 0;
        isActive, startTime, elapsedTime, sessionCompleted := false, None, 0, true;
      } else {
        timeLeft := remaining;
      }
    }

    method StartTimer(p: Pomodoro, now: int)
      modifies this
      ensures Model() == Start(old(Model()), p, now)
    {
      var duration := Duration(State(), p);
      if duration > 0 && !isActive {
        isActive, startTime := true, Some(now);
        isTimerVisible := true;
      }
    }

    method PauseTimer(now: int)
      modifies this
      ensures Model() == Pause(old(Model()), now)
    {
      if !isActive || !Truthy(startTime) {
        return;
      }
      var currentElapsed := (now - startTime.value) / 1000;
      isActive, startTime, elapsedTime := false, None, elapsedTime + currentElapsed;
    }

    method ResetTimer(p: Pomodoro)
      modifies this
      ensures Model() == Reset(old(Model()), p)
    {
      manualDuration, sessionType, sessionCount, elapsedTime := p.work, Work, 0, 0;
      isActive, startTime, sessionCompleted := false, None, false;
      isTimerVisible := false;
    }

    /** `wasCompleted` is accepted and ignored, as in the hook. */
    method EndWorkSession(wasCompleted: bool, now: int)
      modifies this
      ensures Model() == EndWork(old(Model()), now)
    {
      var newSessionCount := sessionCount + 1;
      var nextSessionType := if newSessionCount % 4 == 0 then LongBreak else ShortBreak;
      isActive, sessionType, sessionCount := true, nextSessionType, newSessionCount;
      startTime, elapsedTime := Some(now), 0;
      isTimerVisible := true;
    }

    method SkipTimer()
      modifies this
      ensures Model() == Skip(old(Model()))
    {
      if sessionType != Work {
        isActive, sessionType, startTime, elapsedTime := false, Work, None, 0;
        isTimerVisible := false;
      }
    }

    method SetManualDuration(duration: int)
      modifies this
      ensures Model() == ChangeManualDuration(old(Model()), duration)
    {
      if !isActive {
        manualDuration, elapsedTime := duration, 0;
      }
    }

    method SetSessionType(t: SessionType)
      modifies this
      ensures Model() == ChangeSessionType(old(Model()), t)
    {
      if !isActive {
        sessionType, elapsedTime := t, 0;
      }
    }

    method ClearSessionCompleted()
      modifies this
      ensures Model() == ClearCompleted(old(Model()))
    {
      sessionCompleted := false;
    }

    method SetIsTimerVisible(v: bool)
      modifies this
      ensures Model() == SetVisible(old(Model()), v)
    {
      isTimerVisible := v;
    }

    /** The body of the settings-sync effect. */
    method SyncSettings(p: Pomodoro)
      modifies this
      ensures Model() == Sync(old(Model()), p)
    {
      if !isActive {
        if sessionType == Work {
          manualDuration, elapsedTime := p.work, 0;
        } else {
          elapsedTime := 0;
        }
      }
    }

    /** Runs the settings-sync effect if a change from `before` (under settings `p`) to the
        current state (under `p'`) calls for it, with the intended trigger. */
    method SettleChange(before: Machine, p: Pomodoro, p': Pomodoro)
      modifies this
      ensures Model() == Settle(before, old(Model()), p, p')
    {
      if SyncDue(before.state, State(), p, p') {
        SyncSettings(p');
      }
    }
  }

  /** Mounting the provider: the restored fields, then the settings-sync effect's first run. */
  method Mount(stored: StoredTimerState, storedVisible: Option<bool>, p: Pomodoro) returns (t: StudyTimer)
    ensures fresh(t)
    ensures t.Model() == Mounted(stored, storedVisible, p)
  {
    t := new StudyTimer(stored, storedVisible);
    t.SyncSettings(p);
  }
}
