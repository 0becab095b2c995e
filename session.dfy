/**
 * Session kinds, the settings record, and the pure rules the timer screen
 * applies to them: how long a session lasts, which session follows a
 * completed one, and how a draft field edit is coerced.
 */
module Session {
  import opened Wrappers

  datatype SessionKind = Focus | ShortBreak | LongBreak

  /**
   * Durations are minutes; `longBreakInterval` is the number of completed
   * focus sessions between long breaks. `darkMode` only affects rendering.
   * The fields are plain integers: the draft editor stores whatever
   * `parseInt` returns, signs included.
   */
  datatype Settings = Settings(
    focusTime: int,
    shortBreakTime: int,
    longBreakTime: int,
    autoTransition: bool,
    darkMode: bool,
    longBreakInterval: int)

  const DEFAULT_FOCUS_TIME := 25
  const DEFAULT_SHORT_BREAK_TIME := 5
  const DEFAULT_LONG_BREAK_TIME := 15
  const DEFAULT_LONG_BREAK_INTERVAL := 4

  /** The settings the component starts with. */
  const Defaults: Settings := Settings(
    DEFAULT_FOCUS_TIME, DEFAULT_SHORT_BREAK_TIME, DEFAULT_LONG_BREAK_TIME, true, true,
    DEFAULT_LONG_BREAK_INTERVAL)

  /** No numeric field holds 0: the editor never stores one. */
  predicate NonZero(s: Settings) {
    s.focusTime != 0 && s.shortBreakTime != 0 && s.longBreakTime != 0 && s.longBreakInterval != 0
  }

  /** Every numeric field is positive, as the number-pad editor intends. */
  predicate Positive(s: Settings) {
    s.focusTime > 0 && s.shortBreakTime > 0 && s.longBreakTime > 0 && s.longBreakInterval > 0
  }

  /** `getSessionDuration`: the minutes of a session of the given kind under `s`. */
  function Duration(kind: SessionKind, s: Settings): (minutes: int)
    ensures kind == Focus ==> minutes == s.focusTime
    ensures kind == ShortBreak ==> minutes == s.shortBreakTime
    ensures kind == LongBreak ==> minutes == s.longBreakTime
    ensures NonZero(s) ==> minutes != 0
    ensures Positive(s) ==> minutes > 0
  {
    match kind
    case Focus => s.focusTime
    case ShortBreak => s.shortBreakTime
    case LongBreak => s.longBreakTime
  }

  function Abs(a: int): nat {
    if a < 0 then -a else a
  }

  /** JavaScript's `%`: truncating division, so the remainder takes the sign of the dividend. */
  function JsRem(a: int, b: int): (r: int)
    requires b != 0
    ensures Abs(r) < Abs(b)
    ensures a >= 0 ==> r == a % Abs(b)
    ensures a < 0 ==> r == -(Abs(a) % Abs(b))
  {
    var m := Abs(a) % Abs(b);
    if a < 0 then -m else m
  }

  /**
   * The session that follows a completed one. `newCount` is the focus count
   * after it has been incremented for this completion. A zero interval would
   * make JavaScript's remainder `NaN`, which is never `=== 0`.
   */
  function NextKind(current: SessionKind, newCount: int, interval: int): (next: SessionKind)
    ensures next != current
    ensures next == Focus <==> current != Focus
    ensures current == Focus && newCount >= 0 ==>
      (next == LongBreak <==> interval != 0 && newCount % Abs(interval) == 0)
  {
    if current != Focus then Focus
    else if interval != 0 && JsRem(newCount, interval) == 0 then LongBreak
    else ShortBreak
  }

  /**
   * `parseInt(text) || fallback`, given what `parseInt` returned (`None` for
   * `NaN`): both `NaN` and 0 are falsy, so either yields the fixed fallback;
   * the value the field held before plays no part.
   */
  function OrDefault(parsed: Option<int>, fallback: int): (v: int)
    ensures parsed.Some? && parsed.value != 0 ==> v == parsed.value
    ensures parsed.None? || parsed.value == 0 ==> v == fallback
    ensures fallback != 0 ==> v != 0
    ensures fallback > 0 && (parsed.None? || parsed.value >= 0) ==> v > 0
  {
    match parsed
    case Some(n) => if n != 0 then n else fallback
    case None => fallback
  }

  /** One change the settings editor makes to the draft. */
  datatype DraftEdit =
    | SetDarkMode(on: bool)
    | SetAutoTransition(on: bool)
    | SetFocusTime(parsed: Option<int>)
    | SetShortBreakTime(parsed: Option<int>)
    | SetLongBreakTime(parsed: Option<int>)
    | SetLongBreakInterval(parsed: Option<int>)

  /** The draft after one edit: the edited field is replaced, every other field is kept. */
  function ApplyEdit(draft: Settings, e: DraftEdit): (d: Settings)
    ensures d.focusTime == if e.SetFocusTime? then OrDefault(e.parsed, DEFAULT_FOCUS_TIME) else draft.focusTime
    ensures d.shortBreakTime ==
      if e.SetShortBreakTime? then OrDefault(e.parsed, DEFAULT_SHORT_BREAK_TIME) else draft.shortBreakTime
    ensures d.longBreakTime ==
      if e.SetLongBreakTime? then OrDefault(e.parsed, DEFAULT_LONG_BREAK_TIME) else draft.longBreakTime
    ensures d.longBreakInterval ==
      if e.SetLongBreakInterval? then OrDefault(e.parsed, DEFAULT_LONG_BREAK_INTERVAL) else draft.longBreakInterval
    ensures d.darkMode == if e.SetDarkMode? then e.on else draft.darkMode
    ensures d.autoTransition == if e.SetAutoTransition? then e.on else draft.autoTransition
    ensures NonZero(draft) ==> NonZero(d)
  {
    match e
    case SetDarkMode(on) => draft.(darkMode := on)
    case SetAutoTransition(on) => draft.(autoTransition := on)
    case SetFocusTime(p) => draft.(focusTime := OrDefault(p, DEFAULT_FOCUS_TIME))
    case SetShortBreakTime(p) => draft.(shortBreakTime := OrDefault(p, DEFAULT_SHORT_BREAK_TIME))
    case SetLongBreakTime(p) => draft.(longBreakTime := OrDefault(p, DEFAULT_LONG_BREAK_TIME))
    case SetLongBreakInterval(p) => draft.(longBreakInterval := OrDefault(p, DEFAULT_LONG_BREAK_INTERVAL))
  }

  /** The draft after a sequence of edits, applied in order. */
  function ApplyEdits(draft: Settings, es: seq<DraftEdit>): Settings
    decreases |es|
  {
    if es == [] then draft else ApplyEdit(ApplyEdits(draft, es[..|es| - 1]), es[|es| - 1])
  }

  /** Edits never produce a zero field, however many are applied. */
  lemma {:induction false} ApplyEditsNonZero(draft: Settings, es: seq<DraftEdit>)
    requires NonZero(draft)
    ensures NonZero(ApplyEdits(draft, es))
    decreases |es|
  {
    if es != [] {
      ApplyEditsNonZero(draft, es[..|es| - 1]);
    }
  }

  /** With number-pad input (no minus sign), edits keep every numeric field positive. */
  lemma {:induction false} ApplyEditsPositive(draft: Settings, es: seq<DraftEdit>)
    requires Positive(draft)
    requires forall i :: 0 <= i < |es| ==> NonNegativeInput(es[i])
    ensures Positive(ApplyEdits(draft, es))
    decreases |es|
  {
    if es != [] {
      ApplyEditsPositive(draft, es[..|es| - 1]);
    }
  }

  /** The edit came from text that `parseInt` read as NaN or as a number of no sign. */
  predicate NonNegativeInput(e: DraftEdit) {
    (e.SetDarkMode? || e.SetAutoTransition?) || e.parsed.None? || e.parsed.value >= 0
  }
}
