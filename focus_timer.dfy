/**
 * The focus (pomodoro) timer shared by the whole application (src/contexts/focus-timer-context.tsx).
 *
 * The provider's seven state variables are the fields of `FocusTimerProvider`; its handlers and
 * effects are methods, each specified by a function from the old state (`Timer`) to the new one.
 * The one-second interval becomes the `Tick` method, called once per elapsed second while the
 * interval would be armed; the effect that reacts to the time running out is `Settle`. Local
 * storage is passed in as the three stored strings (`None` where nothing is stored).
 */
module FocusTimer {
  import opened Wrappers
  import opened Text

  const DefaultFocusMinutes: int := 25
  const DefaultBreakMinutes: int := 5
  const DefaultFocusSeconds: int := DefaultFocusMinutes * 60
  const DefaultBreakSeconds: int := DefaultBreakMinutes * 60

  /** The timer's state; every duration and time is in seconds. */
  datatype Timer = Timer(
    timeLeft: int,
    isRunning: bool,
    isBreakTime: bool,
    problemsSolvedThisSession: int,
    focusDuration: int,
    breakDuration: int,
    totalFocusTime: int)

  /** The state before the settings are read: the defaults, stopped, in focus mode. */
  function Initial(): (s: Timer)
    ensures s.focusDuration == 1500 && s.breakDuration == 300 && s.timeLeft == s.focusDuration
    ensures !s.isRunning && !s.isBreakTime && s.problemsSolvedThisSession == 0 && s.totalFocusTime == 0
  {
    Timer(DefaultFocusSeconds, false, false, 0, DefaultFocusSeconds, DefaultBreakSeconds, 0)
  }

  /** The full length of the current mode. */
  function ModeDuration(s: Timer): int {
    if s.isBreakTime then s.breakDuration else s.focusDuration
  }

  /** The label of the current mode. */
  function ModeDisplay(s: Timer): string {
    if s.isBreakTime then "休息中" else "專注中"
  }

  /** The states the provider can reach when every duration it is given is positive. */
  predicate Sane(s: Timer) {
    s.focusDuration > 0 && s.breakDuration > 0 && s.timeLeft >= 0 && s.totalFocusTime >= 0 && s.problemsSolvedThisSession >= 0
  }

  // ---------------------------------------------------------------------------
  // Settings in local storage
  // ---------------------------------------------------------------------------

  /** `parseInt` of a stored string; nothing stored reads as `NaN`. */
  function StoredNumber(stored: Option<string>): Option<int> {
    if stored.Some? then ParseInt(stored.value) else None
  }

  /** A stored duration is adopted only when it reads as a positive integer; otherwise the default stays. */
  function StoredDuration(stored: Option<string>, default: int): (d: int)
    ensures d == default || (StoredNumber(stored) == Some(d) && d > 0)
    ensures StoredNumber(stored).Some? && StoredNumber(stored).value > 0 ==> d == StoredNumber(stored).value
  {
    var p := StoredNumber(stored);
    if p.Some? && p.value > 0 then p.value else default
  }

  /**
   * The stored total focus time: adopted when it reads as an integer of at least zero, zero when
   * something else is stored, and the current total when nothing (or the empty string) is stored.
   */
  function StoredTotal(stored: Option<string>, current: int): (t: int)
    ensures stored.None? || stored.value == "" ==> t == current
    ensures stored.Some? && stored.value != "" ==> t == if StoredNumber(stored).Some? && StoredNumber(stored).value >= 0 then StoredNumber(stored).value else 0
  {
    if stored.None? || stored.value == "" then current
    else
      var p := StoredNumber(stored);
      if p.Some? && p.value >= 0 then p.value else 0
  }

  /** The mount effect: durations and total from storage, and the time left set to the current mode's duration. */
  function LoadedSettings(s: Timer, storedFocus: Option<string>, storedBreak: Option<string>, storedTotal: Option<string>): (r: Timer)
    ensures r.focusDuration == StoredDuration(storedFocus, DefaultFocusSeconds)
    ensures r.breakDuration == StoredDuration(storedBreak, DefaultBreakSeconds)
    ensures r.totalFocusTime == StoredTotal(storedTotal, s.totalFocusTime)
    ensures r.timeLeft == ModeDuration(r)
    ensures r.isRunning == s.isRunning && r.isBreakTime == s.isBreakTime && r.problemsSolvedThisSession == s.problemsSolvedThisSession
  {
    var focus := StoredDuration(storedFocus, DefaultFocusSeconds);
    var brk := StoredDuration(storedBreak, DefaultBreakSeconds);
    s.(focusDuration := focus, breakDuration := brk,
       totalFocusTime := StoredTotal(storedTotal, s.totalFocusTime),
       timeLeft := if s.isBreakTime then brk else focus)
  }

  /** What the persisting effects write: each number's `toString()`. */
  datatype PersistedSettings = PersistedSettings(focusDuration: string, breakDuration: string, totalFocusTime: string)

  function Persisted(s: Timer): PersistedSettings {
    PersistedSettings(IntToString(s.focusDuration), IntToString(s.breakDuration), IntToString(s.totalFocusTime))
  }

  /** Settings written by a sane timer are read back as they were on the next mount. */
  lemma SettingsRoundTrip(s: Timer, next: Timer)
    requires Sane(s)
    ensures var p := Persisted(s);
      var r := LoadedSettings(next, Some(p.focusDuration), Some(p.breakDuration), Some(p.totalFocusTime));
      r.focusDuration == s.focusDuration && r.breakDuration == s.breakDuration && r.totalFocusTime == s.totalFocusTime
  {
    IntToStringRoundTrip(s.focusDuration);
    IntToStringRoundTrip(s.breakDuration);
    IntToStringRoundTrip(s.totalFocusTime);
  }

  /** Whatever storage holds, the loaded timer is sane, starting from a sane state. */
  lemma LoadedSettingsSane(s: Timer, storedFocus: Option<string>, storedBreak: Option<string>, storedTotal: Option<string>)
    requires Sane(s)
    ensures Sane(LoadedSettings(s, storedFocus, storedBreak, storedTotal))
  {
  }

  // ---------------------------------------------------------------------------
  // Handlers
  // ---------------------------------------------------------------------------

  /** `setFocusDuration(minutes)`: the new duration, and the time left too when stopped in focus mode; nothing else. */
  function WithFocusMinutes(s: Timer, minutes: int): (r: Timer)
    ensures r.focusDuration == minutes * 60
    ensures r.timeLeft == if !s.isRunning && !s.isBreakTime then minutes * 60 else s.timeLeft
    ensures r.(focusDuration := s.focusDuration, timeLeft := s.timeLeft) == s
  {
    s.(focusDuration := minutes * 60, timeLeft := if !s.isRunning && !s.isBreakTime then minutes * 60 else s.timeLeft)
  }

  /** `setBreakDuration(minutes)`: the new duration, and the time left too when stopped in break mode; nothing else. */
  function WithBreakMinutes(s: Timer, minutes: int): (r: Timer)
    ensures r.breakDuration == minutes * 60
    ensures r.timeLeft == if !s.isRunning && s.isBreakTime then minutes * 60 else s.timeLeft
    ensures r.(breakDuration := s.breakDuration, timeLeft := s.timeLeft) == s
  {
    s.(breakDuration := minutes * 60, timeLeft := if !s.isRunning && s.isBreakTime then minutes * 60 else s.timeLeft)
  }

  /** `incrementProblemsSolved`: exactly one more, nothing else. */
  function WithProblemSolved(s: Timer): (r: Timer)
    ensures r.problemsSolvedThisSession == s.problemsSolvedThisSession + 1
    ensures r.(problemsSolvedThisSession := s.problemsSolvedThisSession) == s
  {
    s.(problemsSolvedThisSession := s.problemsSolvedThisSession + 1)
  }

  /** `startTimer`: running; a used-up time is first refilled with the current mode's duration. */
  function Started(s: Timer): (r: Timer)
    ensures r.isRunning
    ensures r.timeLeft == if s.timeLeft <= 0 then ModeDuration(s) else s.timeLeft
    ensures r.(isRunning := s.isRunning, timeLeft := s.timeLeft) == s
  {
    s.(isRunning := true, timeLeft := if s.timeLeft <= 0 then ModeDuration(s) else s.timeLeft)
  }

  /** `pauseTimer`: stopped, nothing else. */
  function Paused(s: Timer): (r: Timer)
    ensures !r.isRunning && r.(isRunning := s.isRunning) == s
  {
    s.(isRunning := false)
  }

  /**
   * `resetTimer(switchToFocus)`: stopped; with `true`, focus mode and the full focus duration;
   * with `false`, the mode is kept and its full duration restored.
   */
  function ResetTo(s: Timer, switchToFocus: bool): (r: Timer)
    ensures !r.isRunning
    ensures r.isBreakTime == (s.isBreakTime && !switchToFocus)
    ensures r.timeLeft == ModeDuration(r)
    ensures r.(isRunning := s.isRunning, isBreakTime := s.isBreakTime, timeLeft := s.timeLeft) == s
  {
    if switchToFocus then s.(isRunning := false, isBreakTime := false, timeLeft := s.focusDuration)
    else s.(isRunning := false, timeLeft := ModeDuration(s))
  }

  /** Resetting twice is resetting once. */
  lemma ResetIdempotent(s: Timer, switchToFocus: bool)
    ensures ResetTo(ResetTo(s, switchToFocus), switchToFocus) == ResetTo(s, switchToFocus)
  {
  }

  // ---------------------------------------------------------------------------
  // The running clock
  // ---------------------------------------------------------------------------

  /**
   * One second of the interval, which is armed only while running with time left: one second
   * less, never below zero, and one second more of focus time in focus mode.
   */
  function Ticked(s: Timer): (r: Timer)
    ensures !(s.isRunning && s.timeLeft > 0) ==> r == s
    ensures s.isRunning && s.timeLeft > 0 ==>
      && r.timeLeft == (if s.timeLeft - 1 <= 0 then 0 else s.timeLeft - 1)
      && r.totalFocusTime == (if s.isBreakTime then s.totalFocusTime else s.totalFocusTime + 1)
      && r.(timeLeft := s.timeLeft, totalFocusTime := s.totalFocusTime) == s
  {
    if s.isRunning && s.timeLeft > 0 then
      var newTime := s.timeLeft - 1;
      s.(totalFocusTime := if s.isBreakTime then s.totalFocusTime else s.totalFocusTime + 1,
         timeLeft := if newTime <= 0 then 0 else newTime)
    else s
  }

  /** The timer effect once the time has run out while running: the other mode, its full duration, stopped. */
  function Settled(s: Timer): (r: Timer)
    ensures !(s.isRunning && s.timeLeft <= 0) ==> r == s
    ensures s.isRunning && s.timeLeft <= 0 ==>
      && !r.isRunning && r.isBreakTime == !s.isBreakTime && r.timeLeft == ModeDuration(r)
      && r.(isRunning := s.isRunning, isBreakTime := s.isBreakTime, timeLeft := s.timeLeft) == s
  {
    if s.isRunning && s.timeLeft <= 0 then
      if !s.isBreakTime then s.(isBreakTime := true, timeLeft := s.breakDuration, isRunning := false)
      else s.(isBreakTime := false, timeLeft := s.focusDuration, isRunning := false)
    else s
  }

  /** `n` seconds of the interval. */
  function Ticks(s: Timer, n: nat): Timer
    decreases n
  {
    if n == 0 then s else Ticks(Ticked(s), n - 1)
  }

  /** Running for `n` seconds of a session with at least `n` seconds left counts them down and, in focus mode, adds them to the total. */
  lemma {:induction false} TicksCountDown(s: Timer, n: nat)
    requires s.isRunning && n <= s.timeLeft
    ensures Ticks(s, n) == s.(timeLeft := s.timeLeft - n, totalFocusTime := if s.isBreakTime then s.totalFocusTime else s.totalFocusTime + n)
    decreases n
  {
    if n > 0 {
      TicksCountDown(Ticked(s), n - 1);
    }
  }

  /**
   * A focus session run to its end: every second of it is added to the total focus time, and the
   * timer stops in break mode with the full break duration.
   */
  lemma FocusSessionEnds(s: Timer)
    requires s.isRunning && !s.isBreakTime && s.timeLeft >= 0
    ensures Settled(Ticks(s, s.timeLeft)) ==
      s.(isRunning := false, isBreakTime := true, timeLeft := s.breakDuration, totalFocusTime := s.totalFocusTime + s.timeLeft)
  {
    TicksCountDown(s, s.timeLeft);
  }

  /** A break run to its end adds nothing to the focus time and stops in focus mode with the full focus duration. */
  lemma BreakEnds(s: Timer)
    requires s.isRunning && s.isBreakTime && s.timeLeft >= 0
    ensures Settled(Ticks(s, s.timeLeft)) == s.(isRunning := false, isBreakTime := false, timeLeft := s.focusDuration)
  {
    TicksCountDown(s, s.timeLeft);
  }

  /** Every handler and the clock keep the timer sane, provided every new duration is a positive number of minutes. */
  lemma SaneInvariant(s: Timer, minutes: int, switchToFocus: bool)
    requires Sane(s) && minutes > 0
    ensures Sane(WithFocusMinutes(s, minutes)) && Sane(WithBreakMinutes(s, minutes)) && Sane(WithProblemSolved(s))
    ensures Sane(Started(s)) && Sane(Paused(s)) && Sane(ResetTo(s, switchToFocus))
    ensures Sane(Ticked(s)) && Sane(Settled(s))
  {
  }

  // ---------------------------------------------------------------------------
  // The provider
  // ---------------------------------------------------------------------------

  class FocusTimerProvider {
    var timeLeft: int
    var isRunning: bool
    var isBreakTime: bool
    var problemsSolvedThisSession: int
    var focusDuration: int
    var breakDuration: int
    var totalFocusTime: int

    function State(): Timer
      reads this
    {
      Timer(timeLeft, isRunning, isBreakTime, problemsSolvedThisSession, focusDuration, breakDuration, totalFocusTime)
    }

    /**
     * What the persisting effects have written for the current state: for a sane state, the next
     * mount reads back the same durations and total.
     */
    function Stored(): (p: PersistedSettings)
      reads this
      ensures Sane(State()) ==>
        var r := LoadedSettings(Initial(), Some(p.focusDuration), Some(p.breakDuration), Some(p.totalFocusTime));
        r.focusDuration == focusDuration && r.breakDuration == breakDuration && r.totalFocusTime == totalFocusTime
    {
      if Sane(State()) then
        SettingsRoundTrip(State(), Initial());
        Persisted(State())
      else
        Persisted(State())
    }

    constructor ()
      ensures State() == Initial()
    {
      timeLeft := DefaultFocusSeconds;
      isRunning := false;
      isBreakTime := false;
      problemsSolvedThisSession := 0;
      focusDuration := DefaultFocusSeconds;
      breakDuration := DefaultBreakSeconds;
      totalFocusTime := 0;
    }

    method Become(t: Timer)
      modifies this
      ensures State() == t
    {
      timeLeft, isRunning, isBreakTime := t.timeLeft, t.isRunning, t.isBreakTime;
      problemsSolvedThisSession, focusDuration := t.problemsSolvedThisSession, t.focusDuration;
      breakDuration, totalFocusTime := t.breakDuration, t.totalFocusTime;
    }

    /** The mount effect. */
    method LoadSettings(storedFocus: Option<string>, storedBreak: Option<string>, storedTotal: Option<string>)
      modifies this
      ensures State() == LoadedSettings(old(State()), storedFocus, storedBreak, storedTotal)
    {
      Become(LoadedSettings(State(), storedFocus, storedBreak, storedTotal));
    }

    method SetFocusDuration(minutes: int)
      modifies this
      ensures State() == WithFocusMinutes(old(State()), minutes)
    {
      Become(WithFocusMinutes(State(), minutes));
    }

    method SetBreakDuration(minutes: int)
      modifies this
      ensures State() == WithBreakMinutes(old(State()), minutes)
    {
      Become(WithBreakMinutes(State(), minutes));
    }

    method IncrementProblemsSolved()
      modifies this
      ensures State() == WithProblemSolved(old(State()))
    {
      problemsSolvedThisSession := problemsSolvedThisSession + 1;
    }

    method StartTimer()
      modifies this
      ensures State() == Started(old(State()))
    {
      if timeLeft <= 0 {
        timeLeft := ModeDuration(State());
      }
      isRunning := true;
    }

    method PauseTimer()
      modifies this
      ensures State() == Paused(old(State()))
    {
      isRunning := false;
    }

    method ResetTimer(switchToFocus: bool)
      modifies this
      ensures State() == ResetTo(old(State()), switchToFocus)
    {
      Become(ResetTo(State(), switchToFocus));
    }

    /** One second of the interval. */
    method Tick()
      modifies this
      ensures State() == Ticked(old(State()))
    {
      Become(Ticked(State()));
    }

    /** The timer effect after a change of state. */
    method Settle()
      modifies this
      ensures State() == Settled(old(State()))
    {
      Become(Settled(State()));
    }
  }
}
