/**
 * The Pomodoro timer's state machine, stated on values.
 *
 * The component keeps three pieces of state (`mode`, `timeLeft`, `isRunning`).
 * The user changes them through three handlers (toggle, reset, switch mode);
 * a one-second interval, armed by an effect, lowers `timeLeft`; and the same
 * effect, whenever it is evaluated with `timeLeft` at zero, stops the timer and
 * plays an alert. React evaluates the effect after every render in which one of
 * its dependencies (`isRunning`, `timeLeft`) changed, so the effect is modelled
 * as a function that is re-applied until the dependencies stop changing.
 */
module PomodoroState {

  datatype Mode = Work | Break

  /** Length of a work session: 25 minutes, in seconds. */
  const WorkTime: nat := 25 * 60
  /** Length of a break: 5 minutes, in seconds. */
  const BreakTime: nat := 5 * 60

  /** The session length of a mode; every later division by it is safe. */
  function Total(m: Mode): (r: nat)
    ensures 0 < r <= WorkTime
    ensures r % 60 == 0
  {
    if m == Work then WorkTime else BreakTime
  }

  /** The component state, one field per `useState`. */
  datatype State = State(mode: Mode, timeLeft: int, isRunning: bool)

  /** The state on mount: a work session, full time, not running. */
  const Initial: State := State(Work, WorkTime, false)

  /** What can happen to the component: one of the three handlers, or the interval firing. */
  datatype Event = Toggle | Reset | Switch(newMode: Mode) | IntervalFired

  /** The reachable-state invariant: the countdown stays within the session. */
  predicate Bounded(s: State) {
    0 <= s.timeLeft <= Total(s.mode)
  }

  /** The effect arms the one-second interval exactly in these states. */
  predicate Armed(s: State) {
    s.isRunning && s.timeLeft > 0
  }

  /** A state the effect leaves alone: the timer is never left running at zero. */
  predicate Settled(s: State) {
    s.isRunning ==> s.timeLeft != 0
  }

  /** The effect's dependency list; React re-runs the effect when it changes. */
  function Deps(s: State): (bool, int) {
    (s.isRunning, s.timeLeft)
  }

  /** `toggleTimer`: flips the run flag and nothing else. */
  function Toggled(s: State): (r: State)
    ensures r.isRunning != s.isRunning
    ensures Bounded(r) == Bounded(s)
  {
    s.(isRunning := !s.isRunning)
  }

  /** `resetTimer`: stops and restores the full time of the current mode. */
  function ResetState(s: State): (r: State)
    ensures Bounded(r) && !Armed(r) && Settled(r)
    ensures r.mode == s.mode
    ensures !r.isRunning && r.timeLeft == Total(r.mode)
  {
    State(s.mode, Total(s.mode), false)
  }

  /** `switchMode(newMode)`: selects the mode, stops, restores its full time. */
  function Switched(s: State, newMode: Mode): (r: State)
    ensures Bounded(r) && !Armed(r) && Settled(r)
    ensures r.mode == newMode
    ensures !r.isRunning && r.timeLeft == Total(r.mode)
  {
    State(newMode, Total(newMode), false)
  }

  /** The interval callback: it exists only while the state is armed, and takes one second off. */
  function Ticked(s: State): (r: State)
    ensures Bounded(s) ==> Bounded(r)
    ensures r.timeLeft <= s.timeLeft
  {
    if Armed(s) then s.(timeLeft := s.timeLeft - 1) else s
  }

  /** The state change of an event, before React re-evaluates the effect. */
  function Apply(s: State, e: Event): (r: State)
    ensures Bounded(s) ==> Bounded(r)
  {
    match e
    case Toggle => Toggled(s)
    case Reset => ResetState(s)
    case Switch(m) => Switched(s, m)
    case IntervalFired => Ticked(s)
  }

  /**
   * One evaluation of the effect body: the new state and the number of alerts
   * played. An armed state only (re)schedules the interval; at zero the timer
   * is stopped and the alert played, whether or not it was running.
   */
  function Effect(s: State): (r: (State, nat))
    ensures Settled(r.0)
    ensures r.0.mode == s.mode && r.0.timeLeft == s.timeLeft
    ensures r.0.isRunning ==> s.isRunning
    ensures r.1 <= 1 && (r.1 == 1 <==> s.timeLeft == 0)
    ensures s.timeLeft != 0 ==> r == (s, 0)
  {
    if s.isRunning && s.timeLeft > 0 then (s, 0)
    else if s.timeLeft == 0 then (s.(isRunning := false), 1)
    else (s, 0)
  }

  /**
   * React's re-evaluation of the effect after a render: the effect runs, and
   * runs again as long as its own state change altered a dependency.
   */
  function Settle(s: State): (r: (State, nat))
    decreases if s.isRunning then 1 else 0
    ensures Settled(r.0)
    ensures r.0.mode == s.mode && r.0.timeLeft == s.timeLeft
    ensures r.1 <= 2
    ensures r.1 > 0 <==> s.timeLeft == 0
    ensures s.timeLeft != 0 ==> r == (s, 0)
    ensures s.timeLeft == 0 ==> r.1 == (if s.isRunning then 2 else 1)
  {
    var first := Effect(s);
    if Deps(first.0) == Deps(s) then first
    else
      var rest := Settle(first.0);
      (rest.0, first.1 + rest.1)
  }

  /**
   * An event followed by what React does next: the effect is evaluated only
   * if the event changed one of its dependencies. Returns the new state and
   * the number of alerts played.
   */
  function Dispatch(s: State, e: Event): (r: (State, nat))
    ensures Bounded(s) ==> Bounded(r.0)
    ensures r.0.mode == Apply(s, e).mode && r.0.timeLeft == Apply(s, e).timeLeft
    ensures Deps(Apply(s, e)) != Deps(s) ==> Settled(r.0)
    ensures Apply(s, e).timeLeft != 0 ==> r == (Apply(s, e), 0)
    ensures Deps(Apply(s, e)) == Deps(s) ==> r == (Apply(s, e), 0)
    ensures r.1 <= 2
  {
    var next := Apply(s, e);
    if Deps(next) == Deps(s) then (next, 0) else Settle(next)
  }

  /** A sequence of events from a state: the final state and the alerts played on the way. */
  function Run(s: State, es: seq<Event>): (r: (State, nat))
    decreases |es|
  {
    if es == [] then (s, 0)
    else
      var first := Dispatch(s, es[0]);
      var rest := Run(first.0, es[1..]);
      (rest.0, first.1 + rest.1)
  }

  // ---------------------------------------------------------------------------
  // Properties of the handlers

  /** Toggling twice restores the state: toggle changes only the run flag. */
  lemma ToggleInvolution(s: State)
    ensures Toggled(s).mode == s.mode && Toggled(s).timeLeft == s.timeLeft
    ensures Toggled(Toggled(s)) == s
  {
  }

  /** Reset keeps the mode, stops, and is idempotent. */
  lemma ResetIdempotent(s: State)
    ensures ResetState(s) == State(s.mode, Total(s.mode), false)
    ensures ResetState(ResetState(s)) == ResetState(s)
  {
  }

  /**
   * Switching is a full reset even when the mode does not change: its result
   * does not depend on the state it starts from, and switching to the current
   * mode is the same as resetting.
   */
  lemma SwitchIsFullReset(s: State, t: State, m: Mode)
    ensures Switched(s, m) == Switched(t, m) == State(m, Total(m), false)
    ensures Switched(s, s.mode) == ResetState(s)
    ensures ResetState(Switched(s, m)) == Switched(s, m)
  {
  }

  /** An interval firing lowers the time by exactly one second, and only while armed. */
  lemma TickDecrements(s: State)
    ensures Armed(s) ==> Ticked(s) == s.(timeLeft := s.timeLeft - 1)
    ensures !Armed(s) ==> Ticked(s) == s
    ensures Bounded(s) ==> Ticked(s).timeLeft >= 0
  {
  }

  // ---------------------------------------------------------------------------
  // Properties of the effect and of whole runs

  /** One event keeps the invariant and leaves the timer settled. */
  lemma DispatchPreservesInvariant(s: State, e: Event)
    requires Bounded(s) && Settled(s)
    ensures Bounded(Dispatch(s, e).0) && Settled(Dispatch(s, e).0)
  {
  }

  /** Alerts are played exactly when an event changed a dependency and left the time at zero. */
  lemma AlertsExactlyAtZero(s: State, e: Event)
    ensures Dispatch(s, e).1 > 0 <==> Deps(Apply(s, e)) != Deps(s) && Apply(s, e).timeLeft == 0
    ensures Dispatch(s, e).1 > 0 ==> Dispatch(s, e).0.timeLeft == 0 && !Dispatch(s, e).0.isRunning
  {
  }

  /**
   * Every sequence of events keeps the invariant: from a bounded, settled
   * state the time stays within the session and the timer is never left
   * running at zero.
   */
  lemma {:induction false} RunPreservesInvariant(s: State, es: seq<Event>)
    requires Bounded(s) && Settled(s)
    ensures Bounded(Run(s, es).0) && Settled(Run(s, es).0)
    ensures Run(s, es).0.isRunning ==> Run(s, es).0.timeLeft > 0
    decreases |es|
  {
    if es != [] {
      DispatchPreservesInvariant(s, es[0]);
      RunPreservesInvariant(Dispatch(s, es[0]).0, es[1..]);
    }
  }

  /** Every state reachable from mount satisfies the invariant. */
  lemma ReachableInvariant(es: seq<Event>)
    ensures 0 <= Run(Initial, es).0.timeLeft <= Total(Run(Initial, es).0.mode)
    ensures Run(Initial, es).0.isRunning ==> Run(Initial, es).0.timeLeft > 0
  {
    RunPreservesInvariant(Initial, es);
  }

  /**
   * From any reachable state, an event that plays the alert plays it twice:
   * the effect sees the time at zero while the timer is still running, stops
   * it, and that stop re-triggers the effect, which plays the alert again.
   */
  lemma AlertsComeInPairs(s: State, e: Event)
    requires Bounded(s) && Settled(s) && Dispatch(s, e).1 > 0
    ensures Dispatch(s, e).1 == 2
  {
  }

  /** On mount the effect is evaluated once and changes nothing: no interval is armed and no alert plays. */
  lemma MountIsQuiet()
    ensures Bounded(Initial) && Settled(Initial) && !Armed(Initial)
    ensures Effect(Initial) == (Initial, 0)
  {
  }

  /** The interval callback changes the state exactly in the armed states. */
  lemma TickChangesExactlyWhenArmed(s: State)
    ensures Ticked(s) != s <==> Armed(s)
    ensures Deps(Ticked(s)) != Deps(s) <==> Armed(s)
  {
  }

  /**
   * The last second of a running countdown: the time reaches zero, the timer
   * stops, and the alert is played twice, once when the effect sees the time
   * at zero and once more when the stop itself re-triggers the effect.
   */
  lemma CompletionAlertsTwice(m: Mode)
    ensures Dispatch(State(m, 1, true), IntervalFired) == (State(m, 0, false), 2)
  {
  }

  /** Starting a stopped timer with time left arms the countdown: nothing else changes and no alert plays. */
  lemma StartWithTimeLeft(s: State)
    requires !s.isRunning && s.timeLeft > 0
    ensures Armed(Toggled(s))
    ensures Dispatch(s, Toggle) == (s.(isRunning := true), 0)
  {
  }

  /** Every second but the last takes one second off a running timer, which keeps running, silently. */
  lemma CountdownStep(s: State)
    requires s.isRunning && s.timeLeft > 1
    ensures Dispatch(s, IntervalFired) == (s.(timeLeft := s.timeLeft - 1), 0)
    ensures Armed(Dispatch(s, IntervalFired).0)
  {
  }

  /** Once finished, no interval is armed: a further tick changes nothing and plays nothing. */
  lemma FinishedIsQuiet(s: State)
    requires Settled(s) && s.timeLeft == 0
    ensures !Armed(s)
    ensures Dispatch(s, IntervalFired) == (s, 0)
  {
  }

  /** A toggle at zero schedules no tick: the effect immediately stops the timer again (and alerts twice). */
  lemma ToggleAtZeroUndone(m: Mode)
    ensures !Armed(Toggled(State(m, 0, false)))
    ensures Dispatch(State(m, 0, false), Toggle) == (State(m, 0, false), 2)
  {
  }

  /** Start a work session and let three seconds pass: 1497 seconds remain, still running. */
  lemma StartAndThreeTicks()
    ensures Run(Initial, [Toggle, IntervalFired, IntervalFired, IntervalFired]) == (State(Work, 1497, true), 0)
  {
  }

  /** Switching to a break in the middle of a running work session stops it at the break's full time. */
  lemma SwitchMidCountdown()
    ensures Dispatch(State(Work, 1000, true), Switch(Break)) == (State(Break, 300, false), 0)
  {
  }
}
