# Pomodoro timer: a Dafny model

The repository is one React component, `src/App.tsx`, a Pomodoro timer. It
offers a 25-minute work session and a 5-minute break. Four buttons: two
select the mode, one starts or pauses the countdown, one resets it. A ring shows the elapsed
fraction and a clock shows the time left as "MM:SS". An alert sound plays when
the countdown reaches zero. This project models the logic of that component
and proves properties of it:

- `state.dfy` (module `PomodoroState`) holds the state machine as values. It
  has the three pieces of component state (`mode`, `timeLeft`, `isRunning`),
  the three handlers and the interval callback as transition functions, and
  the effect body (`Effect`). `Settle` repeats the effect while its own stop
  changes one of its dependencies, because React re-runs an effect whenever a
  dependency (`isRunning`, `timeLeft`) changes. `Dispatch` applies an event
  and then lets React re-evaluate the effect; `Run` applies a sequence of
  events. The lemmas state the handler properties, the reachable-state
  invariant `0 <= timeLeft <= total(mode)`, and when the alert plays.
- `display.dfy` (module `PomodoroDisplay`) holds the values derived for
  display. `FormatTime` builds the "MM:SS" clock text from JavaScript's
  `Math.floor`, `%`, `toString` and `padStart`; the lemmas include a
  round trip through an independent parser `ParseClock`. `Progress` is the
  ring percentage, in exact rational arithmetic. `RemainingMinutes` is the
  "Remaining" figure, `Math.ceil(timeLeft / 60)`.
- `timer.dfy` (module `PomodoroTimer`) holds the component as an object. The
  class `Timer` has the three fields and a ghost alert counter. Its methods
  update the fields in place: the handlers, the interval tick, the completion
  branch, one evaluation of the effect (`RunEffect`), and `Handle`, an event
  followed by React's re-evaluation of the effect. The postconditions of the
  handlers, the tick, `RunEffect` and `Handle` tie the new fields to the
  matching function of `PomodoroState`. `Complete`, the completion branch on
  its own, has no such function; its postcondition states the stopped timer
  and the one extra alert directly.

In two places the code behaves differently from what a Pomodoro timer is usually taken to do. The model follows the code:

- One would expect the completion alert to play once per completion. In the
  code, the effect's completion branch runs on every evaluation of the
  effect in which `timeLeft` is 0. When the last second runs out, the branch
  runs once because `timeLeft` changed. It runs a second time because its own
  `setIsRunning(false)` changed `isRunning`, which is also a dependency. So
  the alert plays twice (`CompletionAlertsTwice`). Toggling at zero also plays
  it twice, and the timer stops again at once (`ToggleAtZeroUndone`).
- The interval callback decrements `timeLeft` without any check. It stays at
  or above zero only because the effect tears down the interval and re-arms
  it after every change of `timeLeft`, and arms it only while running with
  time left. The model therefore guards the tick with that arming condition
  (`Armed`).

## Model

| member | source | states |
|---|---|---|
| PomodoroState.Total | src/App.tsx:15 | a session lasts a positive whole number of minutes, at most the 25-minute work session |
| PomodoroState.Initial | src/App.tsx:10-12 | the mount state: a work session, the full 1500 seconds, not running (its properties are stated by `MountIsQuiet`) |
| PomodoroState.Armed | src/App.tsx:19 | the effect's guard `isRunning && timeLeft > 0`: the states in which the interval exists (characterised by `TickChangesExactlyWhenArmed`) |
| PomodoroState.Deps | src/App.tsx:34 | the effect's dependency array `[isRunning, timeLeft]`; `Dispatch` and `Settle` re-run the effect exactly when it changes |
| PomodoroState.Toggled | src/App.tsx:36-38 | toggling always flips the run flag and keeps the state within the session exactly when it was |
| PomodoroState.ResetState | src/App.tsx:40-43 | a reset keeps the mode and yields a stopped state whose time left is the mode's full length, inside the session, with no interval armed |
| PomodoroState.Switched | src/App.tsx:45-49 | a switch yields the requested mode, stopped, with time left equal to that mode's full length, with no interval armed |
| PomodoroState.Ticked | src/App.tsx:19-22 | an interval firing never raises the time and never takes it out of the session |
| PomodoroState.Apply | src/App.tsx:19-49 | every handler and the tick keep the time within the session |
| PomodoroState.Effect | src/App.tsx:18-27 | one effect evaluation leaves a state with time left unchanged and silent (it only arms the interval); at zero it stops the timer and plays the alert once |
| PomodoroState.Settle | src/App.tsx:18-34 | re-running the effect until its dependencies settle changes neither mode nor time, leaves a state with time left unchanged and silent, leaves the timer not running at zero, and at zero plays two alerts when the timer was running and one when it was stopped |
| PomodoroState.Dispatch | src/App.tsx:18-49 | an event plus React's re-evaluation keeps the invariant; when the event leaves time on the clock, or changes no dependency (`[isRunning, timeLeft]`), the result is exactly the event's own state change with no alert; at most two alerts play, and the timer is settled whenever a dependency changed |
| PomodoroState.ToggleInvolution | src/App.tsx:36-38 | toggling leaves mode and time alone, and toggling twice restores the state |
| PomodoroState.ResetIdempotent | src/App.tsx:40-43 | a reset gives the current mode at full time, stopped; resetting twice equals resetting once |
| PomodoroState.SwitchIsFullReset | src/App.tsx:45-49 | the result of a switch does not depend on the prior state; switching to the current mode equals a reset |
| PomodoroState.TickDecrements | src/App.tsx:19-22 | a tick lowers the time by exactly one second while armed and changes nothing otherwise; the time never goes below zero |
| PomodoroState.DispatchPreservesInvariant | src/App.tsx:10-34 | from a bounded, settled state every event leads to a bounded, settled state |
| PomodoroState.AlertsExactlyAtZero | src/App.tsx:23-26 | an event plays alerts if and only if it changed a dependency and left the time at zero; after alerts the timer is stopped at zero |
| PomodoroState.RunPreservesInvariant | src/App.tsx:10-34 | every event sequence keeps the time within the session and never leaves the timer running at zero |
| PomodoroState.ReachableInvariant | src/App.tsx:10-12 | every state reachable from mount has 0 <= timeLeft <= total(mode), and is running only with time left |
| PomodoroState.StartWithTimeLeft | src/App.tsx:18-38 | a toggle on a stopped timer with time left only starts it: the interval is armed, mode and time are unchanged, no alert |
| PomodoroState.CountdownStep | src/App.tsx:19-22 | a tick with more than one second left lowers the time by one, keeps the timer running and armed, and plays nothing |
| PomodoroState.AlertsComeInPairs | src/App.tsx:18-34 | from any bounded, settled state, an event that plays the alert plays it exactly twice |
| PomodoroState.MountIsQuiet | src/App.tsx:10-34 | the mount state is a work session at full time, stopped; the effect's first evaluation arms nothing and plays nothing |
| PomodoroState.TickChangesExactlyWhenArmed | src/App.tsx:19-22 | the interval callback changes the state, and a dependency of the effect, exactly in the states where the effect arms the interval (`isRunning && timeLeft > 0`) |
| PomodoroState.CompletionAlertsTwice | src/App.tsx:19-34 | the last tick of a running countdown leaves the timer stopped at zero and plays the alert twice |
| PomodoroState.FinishedIsQuiet | src/App.tsx:19-22 | at zero no interval is armed, so a further tick changes nothing and plays nothing |
| PomodoroState.ToggleAtZeroUndone | src/App.tsx:19-26 | a toggle at zero arms no interval and is immediately undone by the completion branch, which plays the alert twice |
| PomodoroState.StartAndThreeTicks | src/App.tsx:10-38 | from mount, a start and three ticks give a running work session with 1497 seconds left and no alert |
| PomodoroState.SwitchMidCountdown | src/App.tsx:45-49 | switching to a break from a running work session at 1000 seconds gives a stopped break at 300 seconds |
| PomodoroDisplay.NatToString | src/App.tsx:54 | `toString` of a non-negative number is a non-empty digit string, one digit below 10, two below 100 |
| PomodoroDisplay.NatToStringValue | src/App.tsx:54 | the digit string denotes the number and has no leading zero |
| PomodoroDisplay.IntToString | src/App.tsx:54 | `toString` of a non-negative integer is its numeral; of a negative one, '-' followed by the numeral of its magnitude |
| PomodoroDisplay.PadStart | src/App.tsx:54 | `padStart` yields the target width (or the string's own length if longer) by putting pad characters in front of the unchanged string |
| PomodoroDisplay.JsRem | src/App.tsx:53 | JavaScript `%` agrees with the mathematical remainder on non-negative operands; on a negative one it is `a + b * trunc(-a / b)`, non-positive and above -b |
| PomodoroDisplay.FormatTime | src/App.tsx:51-55 | the clock text always has at least five characters |
| PomodoroDisplay.FormatTimeNonNegative | src/App.tsx:51-55 | for a non-negative time the text is the padded minutes numeral, ':', and the padded seconds numeral |
| PomodoroDisplay.PaddedNumeral | src/App.tsx:54 | padding a numeral to two characters keeps it a numeral of the same value |
| PomodoroDisplay.FormatTimeDigits | src/App.tsx:51-55 | below 100 minutes the clock is exactly five characters: two minute digits, ':', two second digits |
| PomodoroDisplay.FormatParseRoundTrip | src/App.tsx:51-55 | parsing the clock text of any non-negative time gives back that time |
| PomodoroDisplay.FormatTimeInjective | src/App.tsx:51-55 | two different non-negative times never show the same clock text |
| PomodoroDisplay.FormatTimeMidWork | src/App.tsx:51-55 | 1497 seconds shows as "24:57" |
| PomodoroDisplay.FormatTimeShort | src/App.tsx:51-55 | 65 seconds shows as "01:05" and 5 seconds as "00:05" |
| PomodoroDisplay.FormatTimeFull | src/App.tsx:51-55 | the full sessions show as "25:00" and "05:00" |
| PomodoroDisplay.Progress | src/App.tsx:16 | within the session the percentage lies in [0, 100]; it is 0 exactly at full time and 100 exactly at zero |
| PomodoroDisplay.ProgressMonotone | src/App.tsx:16 | less time left means strictly more progress, and conversely |
| PomodoroDisplay.ProgressAcrossTick | src/App.tsx:16-22 | a tick never lowers the progress; an armed tick raises it by exactly one second's share of the session |
| PomodoroDisplay.ProgressExamples | src/App.tsx:16 | a full work session shows 0, an elapsed one 100, and half a break 50 |
| PomodoroDisplay.RemainingMinutes | src/App.tsx:162 | the figure is the least whole number of minutes covering the time left, as `Math.ceil(timeLeft / 60)` |
| PomodoroDisplay.RemainingMinutesZero | src/App.tsx:162 | for a non-negative time, zero minutes remain exactly when zero seconds remain |
| PomodoroDisplay.RemainingMinutesBounded | src/App.tsx:162 | in a bounded state the figure lies between 0 and the mode's length in minutes |
| PomodoroDisplay.ReachableRemainingMinutes | src/App.tsx:162 | in every state reachable from mount the figure lies between 0 and 25 |
| PomodoroTimer.Timer.constructor | src/App.tsx:10-12 | mount starts a work session at 1500 seconds, not running, with no alert played |
| PomodoroTimer.Timer.ToggleTimer | src/App.tsx:36-38 | flips `isRunning`; `mode`, `timeLeft` and the alerts are untouched; the invariant is kept |
| PomodoroTimer.Timer.ResetTimer | src/App.tsx:40-43 | stops and sets `timeLeft` to the current mode's total; `mode` is untouched |
| PomodoroTimer.Timer.SwitchMode | src/App.tsx:45-49 | sets the mode, stops, and sets `timeLeft` to the new mode's total, even when the mode is unchanged |
| PomodoroTimer.Timer.Tick | src/App.tsx:19-22 | fires exactly when running with time left and then takes off exactly one second; nothing else changes |
| PomodoroTimer.Timer.Complete | src/App.tsx:23-26 | at zero, stops the timer and plays the alert once |
| PomodoroTimer.Timer.RunEffect | src/App.tsx:18-27 | arms the interval exactly when running with time left, and completes exactly when the time is zero |
| PomodoroTimer.Timer.Handle | src/App.tsx:18-49 | an event and React's re-evaluation of the effect change the fields and the alert count as `Dispatch` does, keeping the invariant |
| PomodoroTimer.StartScenario | src/App.tsx:10-38 | mounting, starting and three ticks leave the object at work, 1497 seconds, running, with no alert played |

## Left out

- Rendering: the JSX, the Tailwind class strings and the lucide-react icons (src/App.tsx:61-170) are presentation only.
- The audio: the embedded WAV payload and `audio.play().catch(() => {})` (src/App.tsx:25-26) are a browser call. Each call is counted by the ghost field `alerts`; whether playback succeeds is not modelled.
- Scheduling: `window.setInterval`, `clearInterval`, `intervalRef` and the 1000 ms period (src/App.tsx:13, 18-34) are host runtime. An interval firing is the event `IntervalFired`, accepted in every state; outside the states where the effect arms the interval it changes nothing. Real time and the restart of the one-second period after each change are not modelled.
- The effect evaluation on mount is not modelled as a step. On the initial state it changes nothing.
- The ring geometry: `radius`, `circumference` and `strokeDashoffset` (src/App.tsx:57-59) are floating-point presentation math.
- Progress: the model uses exact rational arithmetic, not IEEE-754 rounding of the division.
- FormatTime: only integer inputs are modelled, because `timeLeft` only ever holds integers. JavaScript numbers are doubles; the model's unbounded integers agree with the source only below 2^53 in magnitude, and `toString` uses exponent notation from 1e21. `FormatParseRoundTrip` and `FormatTimeInjective` therefore speak of the model beyond those sizes. Reachable times are 0..1500, and negative ones never occur.
- RemainingMinutes: JavaScript's `-0` for times between -59 and -1 is modelled as 0, which is also how it is rendered.
