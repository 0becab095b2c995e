/**
 * Sequences of events delivered to the timer screen: user intents, the
 * one-second ticks and the auto-start timeouts, and what holds along them.
 */
module PomodoroTraces {
  import opened Session
  import opened PomodoroState

  datatype Event =
    | Toggle
    | Reset
    | Switch(kind: SessionKind)
    | ClearCounters
    | Open
    | Edit(edit: DraftEdit)
    | Save
    | Cancel
    | Tick
    | AutoStart

  /**
   * The state after one event. The editor's field handlers and its save and
   * cancel buttons are on screen only while the editor is open, so those
   * events change nothing while it is closed.
   */
  function Apply(s: State, ev: Event): (r: State)
    ensures Inv(s) ==> Inv(r)
    ensures (ev.Edit? || ev.Save? || ev.Cancel?) && !s.showSettings ==> r == s
  {
    if (ev.Edit? || ev.Save? || ev.Cancel?) && !s.showSettings then s
    else
    match ev
    case Toggle => ToggleTimer(s)
    case Reset => ResetTimer(s)
    case Switch(k) => ChangeSession(s, k)
    case ClearCounters => ResetPomodoros(s)
    case Open => OpenSettings(s)
    case Edit(e) => EditDraft(s, e)
    case Save => SaveSettings(s)
    case Cancel => CancelSettings(s)
    case Tick => TickOnce(s)
    case AutoStart => FireAutoStart(s)
  }

  /** The state after the events, applied in order. */
  function Run(s: State, evs: seq<Event>): State
    decreases |evs|
  {
    if evs == [] then s else Apply(Run(s, evs[..|evs| - 1]), evs[|evs| - 1])
  }

  /** The event completes a session. */
  predicate CompletesAt(s: State, ev: Event) {
    ev == Tick && TickCompletes(s)
  }

  /** The event completes a focus session. */
  predicate FocusCompletesAt(s: State, ev: Event) {
    CompletesAt(s, ev) && s.sessionType == Focus
  }

  /** How many of the events complete a session. */
  function Completions(s: State, evs: seq<Event>): nat
    decreases |evs|
  {
    if evs == [] then 0
    else
      var before := evs[..|evs| - 1];
      Completions(s, before) + if CompletesAt(Run(s, before), evs[|evs| - 1]) then 1 else 0
  }

  /** How many of the events complete a focus session. */
  function FocusCompletions(s: State, evs: seq<Event>): nat
    decreases |evs|
  {
    if evs == [] then 0
    else
      var before := evs[..|evs| - 1];
      FocusCompletions(s, before) + if FocusCompletesAt(Run(s, before), evs[|evs| - 1]) then 1 else 0
  }

  function Ticks(n: nat): seq<Event> {
    seq(n, _ => Tick)
  }

  function Edits(es: seq<DraftEdit>): seq<Event> {
    seq(|es|, i requires 0 <= i < |es| => Edit(es[i]))
  }

  predicate IsDraftEvent(ev: Event) {
    ev.Open? || ev.Edit? || ev.Cancel?
  }

  lemma {:induction false} RunAppend(s: State, a: seq<Event>, b: seq<Event>)
    ensures Run(s, a + b) == Run(Run(s, a), b)
    decreases |b|
  {
    if b == [] {
      assert a + b == a;
    } else {
      RunAppend(s, a, b[..|b| - 1]);
      assert (a + b)[..|a + b| - 1] == a + b[..|b| - 1];
    }
  }

  /** Every state reachable from one satisfying the invariant satisfies it. */
  lemma {:induction false} RunPreservesInv(s: State, evs: seq<Event>)
    requires Inv(s)
    ensures Inv(Run(s, evs))
    decreases |evs|
  {
    if evs != [] {
      RunPreservesInv(s, evs[..|evs| - 1]);
    }
  }

  /** The component mounts in a state satisfying the invariant, so every state it reaches does. */
  lemma ReachableStatesAreValid(evs: seq<Event>)
    ensures Inv(Run(Initial, evs))
  {
    RunPreservesInv(Initial, evs);
  }

  /** Ticks on a running clock with more than n seconds left take exactly n seconds off and change nothing else. */
  lemma {:induction false} TicksCountDown(s: State, n: nat)
    requires s.isActive && s.timeLeft > n
    ensures Run(s, Ticks(n)) == s.(timeLeft := s.timeLeft - n)
    ensures Completions(s, Ticks(n)) == 0
    decreases n
  {
    if n > 0 {
      TicksCountDown(s, n - 1);
      assert Ticks(n)[..n - 1] == Ticks(n - 1);
    }
  }

  /** A clock that is not running, or has no time left, ignores every tick. */
  lemma {:induction false} StoppedClockIgnoresTicks(s: State, n: nat)
    requires !(s.isActive && s.timeLeft > 0)
    ensures Run(s, Ticks(n)) == s
    ensures Completions(s, Ticks(n)) == 0
    decreases n
  {
    if n > 0 {
      StoppedClockIgnoresTicks(s, n - 1);
      assert Ticks(n)[..n - 1] == Ticks(n - 1);
    }
  }

  /** Counting down from r > 0 seconds, the r-th tick completes the session, and it is the only one that does. */
  lemma CompletionAtZero(s: State)
    requires s.isActive && s.timeLeft > 0
    ensures Run(s, Ticks(s.timeLeft)) == HandleSessionComplete(s.(timeLeft := 1))
    ensures Completions(s, Ticks(s.timeLeft)) == 1
  {
    var r := s.timeLeft;
    var a := Ticks(r - 1);
    assert Ticks(r)[..r - 1] == a;
    TicksCountDown(s, r - 1);
    assert Run(s, a) == s.(timeLeft := 1);
  }

  /**
   * No run of ticks completes a session more than once: completion stops
   * the clock, and only a user intent or an auto-start restarts it.
   */
  lemma ExactlyOneCompletion(s: State, n: nat)
    requires s.isActive && s.timeLeft > 0
    ensures Completions(s, Ticks(n)) == if n < s.timeLeft then 0 else 1
  {
    var r := s.timeLeft;
    if n < r {
      TicksCountDown(s, n);
    } else {
      assert Ticks(n) == Ticks(r) + Ticks(n - r);
      CompletionAtZero(s);
      CompletionsAppend(s, Ticks(r), Ticks(n - r));
      StoppedClockIgnoresTicks(Run(s, Ticks(r)), n - r);
    }
  }

  lemma {:induction false} CompletionsAppend(s: State, a: seq<Event>, b: seq<Event>)
    ensures Completions(s, a + b) == Completions(s, a) + Completions(Run(s, a), b)
    decreases |b|
  {
    if b == [] {
      assert a + b == a;
    } else {
      var init := b[..|b| - 1];
      CompletionsAppend(s, a, init);
      assert (a + b)[..|a + b| - 1] == a + init;
      RunAppend(s, a, init);
    }
  }

  /** Only a clear and a focus completion touch the counters. */
  lemma CountersStep(s: State, ev: Event)
    requires ev != ClearCounters
    ensures var n := if FocusCompletesAt(s, ev) then 1 else 0;
      Apply(s, ev).sessionCount == s.sessionCount + n && Apply(s, ev).pomodoroCount == s.pomodoroCount + n
  {
  }

  /** Without a clear, both counters advance by exactly the number of focus sessions completed. */
  lemma {:induction false} CountersFollowFocusCompletions(s: State, evs: seq<Event>)
    requires ClearCounters !in evs
    ensures Run(s, evs).sessionCount == s.sessionCount + FocusCompletions(s, evs)
    ensures Run(s, evs).pomodoroCount == s.pomodoroCount + FocusCompletions(s, evs)
    decreases |evs|
  {
    if evs != [] {
      var init, last := evs[..|evs| - 1], evs[|evs| - 1];
      assert evs == init + [last];
      CountersFollowFocusCompletions(s, init);
      CountersStep(Run(s, init), last);
    }
  }

  /** One more event on a prefix: Run and FocusCompletions take one more step. */
  lemma PrefixStep(s: State, evs: seq<Event>, i: nat)
    requires i < |evs|
    ensures Run(s, evs[..i + 1]) == Apply(Run(s, evs[..i]), evs[i])
    ensures FocusCompletions(s, evs[..i + 1]) ==
      FocusCompletions(s, evs[..i]) + if FocusCompletesAt(Run(s, evs[..i]), evs[i]) then 1 else 0
  {
    assert evs[..i + 1][..i] == evs[..i];
  }

  /** A focus completion from a valid state: long break exactly when the incremented count is a multiple of the interval. */
  lemma FocusCompletionStep(before: State)
    requires Inv(before) && FocusCompletesAt(before, Tick)
    ensures var after := Apply(before, Tick);
      var j, k := before.sessionCount + 1, before.settings.longBreakInterval;
      && after.sessionCount == j && k != 0
      && (after.sessionType == LongBreak <==> j % Abs(k) == 0)
      && (after.sessionType == ShortBreak <==> j % Abs(k) != 0)
  {
  }

  /**
   * The long-break cadence: counting from a clear, the j-th completed focus
   * session is followed by a long break exactly when j is a multiple of the
   * interval in force (the count is not reset by the long break itself).
   */
  lemma LongBreakCadence(s: State, evs: seq<Event>, i: nat)
    requires Inv(s) && s.sessionCount == 0
    requires ClearCounters !in evs
    requires i < |evs| && FocusCompletesAt(Run(s, evs[..i]), evs[i])
    ensures var j := FocusCompletions(s, evs[..i + 1]);
      var k := Run(s, evs[..i]).settings.longBreakInterval;
      && j >= 1 && k != 0
      && (Run(s, evs[..i + 1]).sessionType == LongBreak <==> j % Abs(k) == 0)
      && (Run(s, evs[..i + 1]).sessionType == ShortBreak <==> j % Abs(k) != 0)
  {
    var pre := evs[..i];
    var before := Run(s, pre);
    assert ClearCounters !in pre;
    CountersFollowFocusCompletions(s, pre);
    RunPreservesInv(s, pre);
    PrefixStep(s, evs, i);
    FocusCompletionStep(before);
    assert FocusCompletions(s, evs[..i + 1]) == before.sessionCount + 1;
  }

  /** Opening, editing and closing the draft never touch the committed settings or the clock. */
  lemma {:induction false} DraftIsolation(s: State, evs: seq<Event>)
    requires forall i :: 0 <= i < |evs| ==> IsDraftEvent(evs[i])
    ensures var r := Run(s, evs);
      r == s.(tempSettings := r.tempSettings, showSettings := r.showSettings)
    decreases |evs|
  {
    if evs != [] {
      DraftIsolation(s, evs[..|evs| - 1]);
    }
  }

  /** Edits after opening the editor build the draft from the committed settings, field by field. */
  lemma {:induction false} OpenThenEdit(s: State, es: seq<DraftEdit>)
    ensures Run(s, [Open] + Edits(es)) == OpenSettings(s).(tempSettings := ApplyEdits(s.settings, es))
    decreases |es|
  {
    if es == [] {
      assert [Open] + Edits(es) == [Open];
      assert [Open][..0] == [];
    } else {
      var init := es[..|es| - 1];
      OpenThenEdit(s, init);
      assert ([Open] + Edits(es))[..|es|] == [Open] + Edits(init);
    }
  }

  /**
   * Saving commits the whole draft at once: after opening, editing and
   * saving, the committed settings are the edited copy of the old ones, the
   * clock is stopped, the editor is closed and the clock holds a whole
   * session of the current kind under the new settings.
   */
  lemma EditThenSave(s: State, es: seq<DraftEdit>)
    ensures var r := Run(s, [Open] + Edits(es) + [Save]);
      var d := ApplyEdits(s.settings, es);
      && r.settings == d && r.tempSettings == d
      && !r.isActive && !r.showSettings
      && r.timeLeft == Duration(s.sessionType, d) * 60
      && r.sessionType == s.sessionType
      && r.pomodoroCount == s.pomodoroCount && r.sessionCount == s.sessionCount
      && r.pendingStarts == s.pendingStarts
  {
    var evs := [Open] + Edits(es);
    OpenThenEdit(s, es);
    RunAppend(s, evs, [Save]);
    assert [Save][..0] == [];
  }

  /** Opening and cancelling (with any edits between) leaves the committed settings as they were. */
  lemma EditThenCancel(s: State, es: seq<DraftEdit>)
    ensures Run(s, [Open] + Edits(es) + [Cancel]).settings == s.settings
  {
    var evs := [Open] + Edits(es) + [Cancel];
    forall i | 0 <= i < |evs| ensures IsDraftEvent(evs[i]) {
      if 0 < i < |evs| - 1 {
        assert evs[i] == Edits(es)[i - 1];
      }
    }
    DraftIsolation(s, evs);
  }

  lemma RunPair(s: State, a: Event, b: Event)
    ensures Run(s, [a, b]) == Apply(Apply(s, a), b)
  {
    assert [a, b][..1] == [a];
    assert [a][..0] == [];
    assert Run(s, [a]) == Apply(s, a);
  }

  /** Reset, switch and save are idempotent as events, and toggling twice changes nothing. */
  lemma IntentsIdempotent(s: State, kind: SessionKind)
    ensures Run(s, [Reset, Reset]) == Run(s, [Reset])
    ensures Run(s, [Switch(kind), Switch(kind)]) == Run(s, [Switch(kind)])
    ensures Run(s, [Save, Save]) == Run(s, [Save])
    ensures Run(s, [Toggle, Toggle]) == s
  {
    RunPair(s, Reset, Reset);
    RunPair(s, Switch(kind), Switch(kind));
    RunPair(s, Save, Save);
    RunPair(s, Toggle, Toggle);
    assert [Reset][..0] == [] && [Switch(kind)][..0] == [] && [Save][..0] == [];
  }

  /** Only an auto-start consumes a scheduled one: no user intent or tick cancels it. */
  lemma {:induction false} PendingStartsSurvive(s: State, evs: seq<Event>)
    requires AutoStart !in evs
    ensures Run(s, evs).pendingStarts >= s.pendingStarts
    decreases |evs|
  {
    if evs != [] {
      var init, last := evs[..|evs| - 1], evs[|evs| - 1];
      assert evs == init + [last];
      PendingStartsSurvive(s, init);
      var t := Run(s, init);
      assert Apply(t, last).pendingStarts >= t.pendingStarts by {
        match last
        case Tick => {
          if TickCompletes(t) {
            assert Apply(t, last) == HandleSessionComplete(t);
          }
        }
        case _ => {}
      }
    }
  }

  /**
   * A scheduled auto-start still starts the clock whatever the user does in
   * the meantime: pause, reset, switch, clear, or open, edit, save or cancel
   * the settings.
   */
  lemma AutoStartSurvivesIntents(s: State, evs: seq<Event>)
    requires s.pendingStarts > 0
    requires AutoStart !in evs
    ensures Run(s, evs + [AutoStart]).isActive
  {
    PendingStartsSurvive(s, evs);
    assert (evs + [AutoStart])[..|evs|] == evs;
  }

  /** From mount, starting and letting 25 minutes pass completes the first pomodoro and loads a 5-minute break. */
  lemma FirstPomodoro()
    ensures var r := Run(Initial, [Toggle] + Ticks(1500));
      && r.sessionType == ShortBreak && r.timeLeft == 300
      && r.pomodoroCount == 1 && r.sessionCount == 1
      && !r.isActive && r.pendingStarts == 1
      && Completions(ToggleTimer(Initial), Ticks(1500)) == 1
  {
    var started := ToggleTimer(Initial);
    assert [Toggle][..0] == [];
    assert Run(Initial, [Toggle]) == started;
    RunAppend(Initial, [Toggle], Ticks(1500));
    CompletionAtZero(started);
  }
}
