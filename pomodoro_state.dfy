/**
 * The state of the timer screen as one record, and one pure transition per
 * event handler. React runs an effect that reloads `timeLeft` with the full
 * duration of the current session whenever the session kind or the committed
 * settings change; each transition that changes either of them includes it.
 */
module PomodoroState {
  import opened Session

  datatype State = State(
    timeLeft: int,            // seconds left in the current session
    isActive: bool,           // whether the countdown is running
    sessionType: SessionKind,
    pomodoroCount: int,       // completed focus sessions, as displayed
    sessionCount: int,        // completed focus sessions, for long-break eligibility
    settings: Settings,       // committed settings
    tempSettings: Settings,   // the draft the settings editor works on
    showSettings: bool,       // whether the settings editor is open
    pendingStarts: nat)       // one-second auto-start timeouts scheduled and not yet fired

  /** The state the component mounts with. */
  const Initial: State := State(25 * 60, false, Focus, 0, 0, Defaults, Defaults, false, 0)

  /** Seconds in a whole session of the current kind, under the committed settings. */
  function FullTime(s: State): int {
    Duration(s.sessionType, s.settings) * 60
  }

  /**
   * What every reachable state satisfies: the two counters agree, no
   * numeric setting (committed or draft) is zero, and the clock never shows
   * more than a whole session nor rests at zero or below unless the session
   * itself is that long.
   */
  predicate Inv(s: State) {
    && s.pomodoroCount == s.sessionCount
    && s.sessionCount >= 0
    && NonZero(s.settings)
    && NonZero(s.tempSettings)
    && s.timeLeft <= FullTime(s)
    && (s.timeLeft > 0 || s.timeLeft == FullTime(s))
  }

  /** A tick is scheduled only while running with time left; the one at 1 (or below) completes the session. */
  predicate TickCompletes(s: State) {
    s.isActive && 0 < s.timeLeft <= 1
  }

  /** `handleSessionComplete`, followed by the effect its change of session kind triggers. */
  function HandleSessionComplete(s: State): (r: State)
    ensures Inv(s) ==> Inv(r)
    ensures !r.isActive && r.sessionType != s.sessionType && r.timeLeft == FullTime(r)
    ensures r.settings == s.settings && r.tempSettings == s.tempSettings && r.showSettings == s.showSettings
    ensures r.pendingStarts == if s.settings.autoTransition then s.pendingStarts + 1 else s.pendingStarts
    ensures s.sessionType != Focus ==>
      r.sessionType == Focus && r.sessionCount == s.sessionCount && r.pomodoroCount == s.pomodoroCount
    ensures s.sessionType == Focus ==>
      r.sessionCount == s.sessionCount + 1 && r.pomodoroCount == s.pomodoroCount + 1
    ensures s.sessionType == Focus && s.sessionCount >= 0 ==>
      var k := s.settings.longBreakInterval;
      (r.sessionType == LongBreak <==> k != 0 && r.sessionCount % Abs(k) == 0)
  {
    var focus := s.sessionType == Focus;
    var newSessionCount := if focus then s.sessionCount + 1 else s.sessionCount;
    var next := NextKind(s.sessionType, newSessionCount, s.settings.longBreakInterval);
    s.(
      isActive := false,
      pomodoroCount := if focus then s.pomodoroCount + 1 else s.pomodoroCount,
      sessionCount := newSessionCount,
      sessionType := next,
      timeLeft := Duration(next, s.settings) * 60,
      pendingStarts := if s.settings.autoTransition then s.pendingStarts + 1 else s.pendingStarts)
  }

  /**
   * One firing of the one-second interval. The interval runs only while
   * `isActive && timeLeft > 0`, so any other state is left as it is. The
   * updater's 0 is replaced at once by the session-kind effect.
   */
  function TickOnce(s: State): (r: State)
    ensures Inv(s) ==> Inv(r)
    ensures !(s.isActive && s.timeLeft > 0) ==> r == s
    ensures s.isActive && s.timeLeft > 1 ==> r.isActive && r.timeLeft == s.timeLeft - 1
    ensures TickCompletes(s) ==> !r.isActive && r.sessionType != s.sessionType
  {
    if !(s.isActive && s.timeLeft > 0) then s
    else if s.timeLeft <= 1 then HandleSessionComplete(s)
    else s.(timeLeft := s.timeLeft - 1)
  }

  /**
   * The tick as the source runs it. The interval is re-armed only when
   * `isActive` or `timeLeft` change, so its callback keeps the
   * `handleSessionComplete` of the render that armed it, and that copy reads
   * the counters of that render (`armedPomodoros`, `armedSessions`). Every
   * other intent that could change what the completion reads also stops the
   * clock, which re-arms the interval; only a clear can slip in between.
   */
  function TickOnceAsWritten(s: State, armedPomodoros: int, armedSessions: int): (r: State)
    ensures armedPomodoros == s.pomodoroCount && armedSessions == s.sessionCount ==> r == TickOnce(s)
  {
    if !(s.isActive && s.timeLeft > 0) then s
    else if s.timeLeft <= 1 then
      HandleSessionComplete(s.(pomodoroCount := armedPomodoros, sessionCount := armedSessions))
    else s.(timeLeft := s.timeLeft - 1)
  }

  /**
   * A clear in the final second of a focus session is undone by the
   * completing tick as written: with seven pomodoros counted, the counters
   * come back as 8 and a long break follows, where the clear should leave 1
   * and a short break.
   */
  lemma ClearInFinalSecondIsUndone()
    ensures var armed := Initial.(isActive := true, timeLeft := 1, pomodoroCount := 7, sessionCount := 7);
      var cleared := ResetPomodoros(armed);
      var asWritten := TickOnceAsWritten(cleared, armed.pomodoroCount, armed.sessionCount);
      && Inv(armed) && Inv(cleared)
      && asWritten.pomodoroCount == 8 && asWritten.sessionCount == 8 && asWritten.sessionType == LongBreak
      && TickOnce(cleared).pomodoroCount == 1 && TickOnce(cleared).sessionCount == 1
      && TickOnce(cleared).sessionType == ShortBreak
  {
  }

  /** The auto-start timeout firing; the timers it belongs to are never cancelled. */
  function FireAutoStart(s: State): (r: State)
    ensures Inv(s) ==> Inv(r)
  {
    if s.pendingStarts == 0 then s
    else s.(isActive := true, pendingStarts := s.pendingStarts - 1)
  }

  /** `toggleTimer`. */
  function ToggleTimer(s: State): (r: State)
    ensures Inv(s) ==> Inv(r)
  {
    s.(isActive := !s.isActive)
  }

  /** `resetTimer`. */
  function ResetTimer(s: State): (r: State)
    ensures Inv(s) ==> Inv(r)
    ensures !r.isActive && r.timeLeft == FullTime(r)
    ensures r.sessionType == s.sessionType && r.settings == s.settings
    ensures r.sessionCount == s.sessionCount && r.pomodoroCount == s.pomodoroCount
  {
    s.(isActive := false, timeLeft := Duration(s.sessionType, s.settings) * 60)
  }

  /** `changeSession(kind)`. */
  function ChangeSession(s: State, kind: SessionKind): (r: State)
    ensures Inv(s) ==> Inv(r)
    ensures !r.isActive && r.sessionType == kind && r.timeLeft == FullTime(r)
    ensures r.settings == s.settings
    ensures r.sessionCount == s.sessionCount && r.pomodoroCount == s.pomodoroCount
  {
    s.(isActive := false, sessionType := kind, timeLeft := Duration(kind, s.settings) * 60)
  }

  /** `resetPomodoros`. */
  function ResetPomodoros(s: State): (r: State)
    ensures Inv(s) ==> Inv(r)
  {
    s.(pomodoroCount := 0, sessionCount := 0)
  }

  /** `openSettings`: the draft becomes a copy of the committed settings. */
  function OpenSettings(s: State): (r: State)
    ensures Inv(s) ==> Inv(r)
  {
    s.(tempSettings := s.settings, showSettings := true)
  }

  /** One of the draft field handlers of the settings editor. */
  function EditDraft(s: State, e: DraftEdit): (r: State)
    ensures Inv(s) ==> Inv(r)
  {
    s.(tempSettings := ApplyEdit(s.tempSettings, e))
  }

  /**
   * `saveSettings` with the effect its change of settings triggers: the
   * handler loads the duration under the settings it closed over, and the
   * effect then reloads it under the settings just committed.
   */
  function SaveSettings(s: State): (r: State)
    ensures Inv(s) ==> Inv(r)
    ensures r.settings == s.tempSettings && !r.showSettings && !r.isActive
    ensures r.timeLeft == FullTime(r)
    ensures r.sessionType == s.sessionType
    ensures r.sessionCount == s.sessionCount && r.pomodoroCount == s.pomodoroCount
  {
    s.(settings := s.tempSettings, showSettings := false, isActive := false,
       timeLeft := Duration(s.sessionType, s.tempSettings) * 60)
  }

  /** Closing the editor without saving (the cancel button and the back gesture). */
  function CancelSettings(s: State): (r: State)
    ensures Inv(s) ==> Inv(r)
  {
    s.(showSettings := false)
  }
}
