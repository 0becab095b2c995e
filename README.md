# Pomodoro timer: session state machine

This project models the state machine behind the single timer screen of a
Pomodoro app (`App.tsx`). The timer alternates focus sessions with short and
long breaks. A one-second tick counts the clock down. When it runs out, the
screen moves to the next session, decides between a short and a long break
from the running focus count, and may schedule an automatic restart. The
settings editor works on a draft and copies it, whole, to the committed
settings on save.

Modules:

- `Wrappers`: `Option`, used for JavaScript's `NaN`.
- `TimeFormat`: `formatTime` (seconds to "MM:SS"), and `ParseTime`, an independent reader of that format used to state that the rendering loses nothing.
- `Session`: session kinds, the settings record and its defaults, `getSessionDuration`, JavaScript's truncating `%`, the next-session rule, and the coercion the draft field handlers apply.
- `PomodoroState`: the component's state hooks as one record, and one pure transition per handler. The React effect that reloads `timeLeft` when the session kind or the committed settings change (lines 56-59) is folded into the transitions that make such a change.
- `PomodoroTraces`: event sequences (user intents, ticks, auto-start timeouts) and the properties that hold along them.
- `PomodoroApp`: class `App`, whose fields are the state hooks and whose methods assign them as the handlers do. Each method is specified by the matching `PomodoroState` transition.

The model follows the code where it departs from the usual description of the technique:

- A draft field whose text parses to `NaN` or 0 gets that field's fixed default (25, 5, 15 or 4). It does not keep its previous value.
- The focus counter used for long-break eligibility (`sessionCount`) is not reset when a long break starts. The choice is made on the running count modulo the interval, and only "reset pomodoros" zeroes it.
- The one-second auto-start timeout is never cancelled. No other event stops it: a pause, reset, session switch, clear, settings edit, save or tick in the meantime leaves it pending (`AutoStartSurvivesIntents`).
- Durations and the interval are plain integers. `parseInt` accepts a sign and the handlers do not reject negative results. The model proves that no numeric setting is ever 0. Positivity holds only for number-pad input without a sign (`ApplyEditsPositive`).

## Model

| member | source | states |
|---|---|---|
| TimeFormat.NatToString | App.tsx:220 | `toString()` of a non-negative integer: at least one character, all decimal digits, no leading zero, one digit exactly below 10 and at most two below 100 |
| TimeFormat.PadStart2 | App.tsx:220 | `padStart(2, '0')`: a string of two or more characters is kept; a shorter one gets '0's on the left up to length 2 and ends with the original |
| TimeFormat.FormatTime | App.tsx:217-221 | `formatTime`: reading the result back with an independent reader, as minutes × 60 + seconds, gives exactly the number of seconds formatted |
| TimeFormat.FormatTimeShape | App.tsx:217-221 | the clock face is at least two digits of minutes, a colon and two digits of seconds, the first at most '5'; it is exactly 5 characters iff seconds < 6000 |
| TimeFormat.DigitsValueOfNatToString | App.tsx:220 | the decimal rendering of n has value n |
| Session.Duration | App.tsx:115-126 | each kind maps to its own field: focus to `focusTime`, short break to `shortBreakTime`, long break to `longBreakTime`; nonzero and positive settings give a nonzero and positive duration |
| Session.JsRem | App.tsx:153 | JavaScript's `%`: smaller in magnitude than the divisor, the dividend's sign, equal to Euclidean remainder by the divisor's magnitude for a non-negative dividend |
| Session.NextKind | App.tsx:146-160 | the next kind always differs from the current one; after a break it is focus; after focus with a non-negative count it is a long break iff the interval is nonzero and divides the incremented count, otherwise a short break |
| Session.OrDefault | App.tsx:540-545 | `parseInt(text)` or else the fallback: a nonzero parsed value is stored; `NaN` or 0 yields the fixed fallback, whatever the field held; a nonzero fallback never yields 0 |
| Session.ApplyEdit | App.tsx:480-635 | one field handler of the editor replaces exactly its own field of the draft (switches store the new boolean, number fields the coerced value) and keeps every other field; it never makes a field 0 |
| Session.ApplyEditsNonZero | App.tsx:540-635 | any sequence of edits to a draft without zero fields leaves no zero field |
| Session.ApplyEditsPositive | App.tsx:540-637 | edits from unsigned number-pad input keep a positive draft positive |
| PomodoroState.HandleSessionComplete | App.tsx:128-167 | completion together with the effect at 56-59: the clock stops and the kind changes. After focus both counters grow by 1, and with a non-negative count the next kind is a long break iff the interval divides the new count. After a break the next kind is focus and the counters are kept. One more auto-start is pending iff auto-transition is on. `timeLeft` is a whole session of the new kind. Settings and draft are kept, and the state invariant (counters equal, no zero setting, clock within a whole session) is preserved |
| PomodoroState.TickOnce | App.tsx:62-80 | a tick on a clock that is stopped or at/below 0 changes nothing; on a running clock with more than 1 second left it takes off one second and keeps running; a completing tick stops the clock and changes the kind; every tick preserves the state invariant |
| PomodoroState.TickOnceAsWritten | App.tsx:62-80 | the tick with the counters the interval's callback closed over; when those equal the current counters it is exactly `TickOnce` |
| PomodoroState.ClearInFinalSecondIsUndone | App.tsx:62-80 | with 7 pomodoros, 1 second left and a clear in between, the tick as written gives counters 8 and a long break, `TickOnce` gives 1 and a short break |
| PomodoroState.FireAutoStart | App.tsx:163-166 | the auto-start timeout firing preserves the state invariant |
| PomodoroState.ToggleTimer | App.tsx:170-171 | the toggle preserves the state invariant |
| PomodoroState.ResetTimer | App.tsx:180-183 | stopped, `timeLeft` a whole session of the current kind, kind, settings and counters kept; preserves the state invariant |
| PomodoroState.ChangeSession | App.tsx:192-197 | stopped, kind set to the one asked for, `timeLeft` a whole session of it, settings and counters kept; preserves the state invariant |
| PomodoroState.ResetPomodoros | App.tsx:199-202 | the clear preserves the state invariant |
| PomodoroState.OpenSettings | App.tsx:204-207 | opening the editor preserves the state invariant |
| PomodoroState.EditDraft | App.tsx:540-545 | a draft edit preserves the state invariant |
| PomodoroState.SaveSettings | App.tsx:209-215 | saving together with the effect at 56-59: the committed settings become the draft, the editor closes, the clock stops and `timeLeft` is a whole session of the current kind under the new settings; kind and counters kept; preserves the state invariant |
| PomodoroState.CancelSettings | App.tsx:663 | cancelling preserves the state invariant |
| PomodoroTraces.Apply | App.tsx:446-663 | every event the screen reacts to preserves the state invariant; draft edits, save and cancel change nothing while the editor is closed, since only the open modal shows them |
| PomodoroTraces.RunPreservesInv | App.tsx:128-215 | every state reached by any sequence of events from a valid state is valid |
| PomodoroTraces.ReachableStatesAreValid | App.tsx:31-47 | the mount state is valid, so every reachable state has equal counters, no zero setting and a clock within a whole session that never rests at 0 |
| PomodoroTraces.TicksCountDown | App.tsx:62-80 | n ticks on a running clock with more than n seconds left take off exactly n seconds, change nothing else and complete nothing |
| PomodoroTraces.StoppedClockIgnoresTicks | App.tsx:65 | ticks on a clock that is stopped or has no time left change nothing and complete nothing |
| PomodoroTraces.CompletionAtZero | App.tsx:67-71 | on a running clock with r > 0 seconds left, the r-th tick runs the completion exactly once, from the state with 1 second left |
| PomodoroTraces.ExactlyOneCompletion | App.tsx:62-80 | any number n of ticks from r > 0 seconds complete no session if n < r and exactly one otherwise |
| PomodoroTraces.CountersStep | App.tsx:146-150 | only a clear and a focus completion change the counters; a focus completion adds exactly 1 to each |
| PomodoroTraces.CountersFollowFocusCompletions | App.tsx:146-150 | with no clear among the events, both counters grow by exactly the number of focus completions |
| PomodoroTraces.FocusCompletionStep | App.tsx:146-157 | a focus completion from a valid state sets the count to j = old count + 1 and picks a long break iff j is a multiple of the interval, otherwise a short break |
| PomodoroTraces.LongBreakCadence | App.tsx:146-157 | counting from a clear, the j-th focus completion (j >= 1) is followed by a long break iff j is a multiple of the interval in force, and by a short break otherwise |
| PomodoroTraces.DraftIsolation | App.tsx:204-206 | opening, editing and cancelling change only the draft and the editor flag: committed settings, clock, kind, counters and pending timeouts are untouched |
| PomodoroTraces.OpenThenEdit | App.tsx:204-206 | after opening, the draft is the committed settings with the edits applied in order |
| PomodoroTraces.EditThenSave | App.tsx:209-215 | open, edits, save: the committed settings become the whole edited draft, the clock stops, the editor closes, `timeLeft` is the current kind's duration × 60 under the new settings, and kind, counters and pending timeouts are kept |
| PomodoroTraces.EditThenCancel | App.tsx:663 | open, edits, cancel: the committed settings are unchanged |
| PomodoroTraces.IntentsIdempotent | App.tsx:170-215 | as events: reset twice equals reset once, switching to a kind twice equals once, saving twice equals once (the second save finds the editor closed), and toggling twice changes nothing |
| PomodoroTraces.PendingStartsSurvive | App.tsx:163-166 | no event other than an auto-start lowers the number of scheduled auto-starts |
| PomodoroTraces.AutoStartSurvivesIntents | App.tsx:163-166 | a scheduled auto-start still starts the clock after any events in between that are not themselves auto-starts |
| PomodoroTraces.FirstPomodoro | App.tsx:31-47 | from mount, start plus 1500 ticks gives one completion, counters 1, a stopped short break of 300 seconds and one pending auto-start |
| PomodoroApp.App.constructor | App.tsx:31-47 | the state hooks start at 1500 seconds, stopped, focus, counters 0, default settings (25/5/15, interval 4, auto-transition and dark mode on) as committed and draft, editor closed |
| PomodoroApp.App.HandleSessionComplete | App.tsx:128-167 | the state after completion and the effect: stopped, focus counts +1 after focus, next kind by the cadence rule, one more pending auto-start iff auto-transition, `timeLeft` the new kind's duration × 60 |
| PomodoroApp.App.Tick | App.tsx:62-80 | a tick while running with more than 1 second left takes off one second; at 1 it completes (reported as `completed`); otherwise nothing changes |
| PomodoroApp.App.FireAutoStart | App.tsx:164-166 | a pending auto-start sets `isActive` and is consumed; with none pending nothing changes |
| PomodoroApp.App.ToggleTimer | App.tsx:170-171 | only `isActive` is negated |
| PomodoroApp.App.ResetTimer | App.tsx:180-183 | stopped, `timeLeft` the current kind's duration × 60, everything else kept |
| PomodoroApp.App.ChangeSession | App.tsx:192-197 | stopped, kind set, `timeLeft` that kind's duration × 60, everything else kept |
| PomodoroApp.App.ResetPomodoros | App.tsx:199-202 | both counters 0, everything else kept |
| PomodoroApp.App.OpenSettings | App.tsx:204-207 | the draft is a copy of the committed settings and the editor is open |
| PomodoroApp.App.EditDraft | App.tsx:540-545 | only the draft changes, by one field edit |
| PomodoroApp.App.SaveSettings | App.tsx:209-215 | committed settings become the draft, editor closed, stopped, `timeLeft` the current kind's duration × 60 under the new settings |
| PomodoroApp.App.CancelSettings | App.tsx:663 | only the editor flag is cleared |
| PomodoroApp.App.ClockFace | App.tsx:386 | the text shown on the clock face reads back as exactly `timeLeft` |

## Left out

- Rendering, theme colours (`getThemeColors`), the session label, the modal's markup and the style sheet: presentation only. `darkMode` is kept as an opaque field of the settings.
- Animations (`Animated.*`): visual side effects with no influence on the state.
- `progress` (line 223): a floating-point ratio used only for drawing.
- Real timers: `setInterval`/`clearInterval` become one `Tick` event per second, and the 1000 ms `setTimeout` becomes a count of pending auto-starts that the host fires with `FireAutoStart`. The wall-clock delay itself is not modelled.
- PomodoroState.TickOnce: the completing tick reads the current counters. The source's interval callback reads the counters of the render that armed it, and these differ only after a clear in the session's final second. That case is modelled separately by `TickOnceAsWritten` (see Findings). The rest of the model uses the intended behaviour.
- Main-screen intents (start/pause, reset, switch, clear, open settings) are accepted while the editor is open, although the modal normally hides them. The model therefore admits more event sequences than the screen offers, and every property proved over all sequences still holds for that reason. The class methods `EditDraft`, `SaveSettings` and `CancelSettings` model the handlers themselves, which carry no guard. Only the event model `Apply` ignores them while the editor is closed.
- React scheduling: batching and render order are not modelled. The only effect that matters, the reload of `timeLeft` on a change of session kind or settings, is applied within the transition that causes it. React compares settings by object identity. A save whose draft equals the committed settings gives the same `timeLeft` with or without the effect, so identity is not modelled.
- The updater's transient `0` at the end of a session is not a separate state. The effect replaces it at once, because completion always changes the session kind (`Session.NextKind` ensures this).
- `parseInt` itself (whitespace, signs in text, radix, the 3- and 2-character input limits): the draft handlers take `parseInt`'s result as an `Option<int>`, with `None` for `NaN`.
- ClockFace: requires `timeLeft >= 0`. `formatTime` of a negative number (reachable only through negative settings) is not modelled.
- Persistence, notifications and background execution: the app has none in this file.

## Findings

| source | as written | input that shows it | evidently intended | confidence | as-written member | corrected member |
|---|---|---|---|---|---|---|
| App.tsx:62-80 | the interval is re-armed only when `isActive` or `timeLeft` change, so its callback keeps the `handleSessionComplete` of the render that armed it, and that copy reads the counters from before a clear made in the final second | running focus session, counts 7, 1 second left, press "reset pomodoros", then the tick | the clear takes effect: counters 1 and a short break, so the j-th focus completion after a clear picks a long break iff j is a multiple of the interval (`LongBreakCadence`) | high; not executed | PomodoroState.ClearInFinalSecondIsUndone | PomodoroState.TickOnce |
