/**
 * The timer screen's component as an object: its state variables are
 * fields, and each event handler is a method that assigns them in the order
 * the handler does. Each method is specified by the matching transition of
 * PomodoroState, whose properties PomodoroTraces proves.
 */
module PomodoroApp {
  import opened Session
  import PomodoroState
  import TimeFormat
  import opened Wrappers

  class App {
    var timeLeft: int
    var isActive: bool
    var sessionType: SessionKind
    var pomodoroCount: int
    var sessionCount: int
    var settings: Settings
    var showSettings: bool
    var tempSettings: Settings
    var pendingStarts: nat

    /** The component state as one value. */
    function Snapshot(): PomodoroState.State
      reads this
    {
      PomodoroState.State(timeLeft, isActive, sessionType, pomodoroCount, sessionCount,
                          settings, tempSettings, showSettings, pendingStarts)
    }

    ghost predicate Valid()
      reads this
    {
      PomodoroState.Inv(Snapshot())
    }

    /** The initial values of the component's state hooks. */
    constructor ()
      ensures Valid()
      ensures Snapshot() == PomodoroState.Initial
    {
      timeLeft := 25 * 60;
      isActive := false;
      sessionType := Focus;
      pomodoroCount := 0;
      sessionCount := 0;
      settings := Defaults;
      showSettings := false;
      tempSettings := settings;
      pendingStarts := 0;
    }

    method HandleSessionComplete()
      requires Valid()
      modifies this
      ensures Valid()
      ensures Snapshot() == PomodoroState.HandleSessionComplete(old(Snapshot()))
    {
      isActive := false;
      if sessionType == Focus {
        var newPomodoroCount := pomodoroCount + 1;
        var newSessionCount := sessionCount + 1;
        pomodoroCount := newPomodoroCount;
        sessionCount := newSessionCount;
        if JsRem(newSessionCount, settings.longBreakInterval) == 0 {
          sessionType := LongBreak;
        } else {
          sessionType := ShortBreak;
        }
      } else {
        sessionType := Focus;
      }
      if settings.autoTransition {
        pendingStarts := pendingStarts + 1;
      }
      // the session kind has changed, so the effect at lines 56-59 reloads the clock
      var duration := Duration(sessionType, settings);
      timeLeft := duration * 60;
    }

    /** One firing of the one-second interval; reports whether it completed the session. */
    method Tick() returns (completed: bool)
      requires Valid()
      modifies this
      ensures Valid()
      ensures completed == PomodoroState.TickCompletes(old(Snapshot()))
      ensures Snapshot() == PomodoroState.TickOnce(old(Snapshot()))
    {
      completed := false;
      if isActive && timeLeft > 0 {
        if timeLeft <= 1 {
          // the updater's 0 is overwritten by the effect HandleSessionComplete triggers
          HandleSessionComplete();
          completed := true;
        } else {
          timeLeft := timeLeft - 1;
        }
      }
    }

    /** The one-second auto-start timeout scheduled by a completion fires. */
    method FireAutoStart()
      requires Valid()
      modifies this
      ensures Valid()
      ensures Snapshot() == PomodoroState.FireAutoStart(old(Snapshot()))
    {
      if pendingStarts > 0 {
        pendingStarts := pendingStarts - 1;
        isActive := true;
      }
    }

    method ToggleTimer()
      requires Valid()
      modifies this
      ensures Valid()
      ensures Snapshot() == PomodoroState.ToggleTimer(old(Snapshot()))
    {
      isActive := !isActive;
    }

    method ResetTimer()
      requires Valid()
      modifies this
      ensures Valid()
      ensures Snapshot() == PomodoroState.ResetTimer(old(Snapshot()))
    {
      isActive := false;
      var duration := Duration(sessionType, settings);
      timeLeft := duration * 60;
    }

    method ChangeSession(kind: SessionKind)
      requires Valid()
      modifies this
      ensures Valid()
      ensures Snapshot() == PomodoroState.ChangeSession(old(Snapshot()), kind)
    {
      isActive := false;
      sessionType := kind;
      var duration := Duration(kind, settings);
      timeLeft := duration * 60;
    }

    method ResetPomodoros()
      requires Valid()
      modifies this
      ensures Valid()
      ensures Snapshot() == PomodoroState.ResetPomodoros(old(Snapshot()))
    {
      pomodoroCount := 0;
      sessionCount := 0;
    }

    method OpenSettings()
      requires Valid()
      modifies this
      ensures Valid()
      ensures Snapshot() == PomodoroState.OpenSettings(old(Snapshot()))
    {
      tempSettings := settings;
      showSettings := true;
    }

    /** The change handler of one field of the settings editor. */
    method EditDraft(e: DraftEdit)
      requires Valid()
      modifies this
      ensures Valid()
      ensures Snapshot() == PomodoroState.EditDraft(old(Snapshot()), e)
    {
      tempSettings := ApplyEdit(tempSettings, e);
    }

    method SaveSettings()
      requires Valid()
      modifies this
      ensures Valid()
      ensures Snapshot() == PomodoroState.SaveSettings(old(Snapshot()))
    {
      // the handler reads the duration under the settings it closed over
      var duration := Duration(sessionType, settings);
      settings := tempSettings;
      showSettings := false;
      isActive := false;
      timeLeft := duration * 60;
      // the committed settings have changed, so the effect at lines 56-59 reloads the clock
      var newDuration := Duration(sessionType, settings);
      timeLeft := newDuration * 60;
    }

    /** The cancel button and the editor's close request. */
    method CancelSettings()
      requires Valid()
      modifies this
      ensures Valid()
      ensures Snapshot() == PomodoroState.CancelSettings(old(Snapshot()))
    {
      showSettings := false;
    }

    /** The digits shown on the clock face. */
    method ClockFace() returns (text: string)
      requires Valid()
      requires timeLeft >= 0
      ensures TimeFormat.ParseTime(text) == Some(timeLeft)
    {
      text := TimeFormat.FormatTime(timeLeft);
    }
  }
}
