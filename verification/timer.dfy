/**
 * The timer component as an object: the three pieces of state are fields,
 * the handlers and the two halves of the effect (the interval callback and
 * the completion branch) are methods that update them in place. Each method
 * is tied to the value-level transition of the same name in PomodoroState,
 * whose properties are proved there.
 */
module PomodoroTimer {
  import opened PomodoroState

  class Timer {
    var mode: Mode
    var timeLeft: int
    var isRunning: bool
    /** How many times the alert sound has been started; stands in for `audio.play()`. */
    ghost var alerts: nat

    /** The fields as a state value. */
    function View(): State
      reads this
    {
      State(mode, timeLeft, isRunning)
    }

    /** The object invariant: the countdown stays within the current session. */
    ghost predicate Valid()
      reads this
    {
      Bounded(View())
    }

    /** Mount: a work session at full time, not running, no alert played. */
    constructor ()
      ensures Valid()
      ensures View() == Initial && alerts == 0
    {
      mode := Work;
      timeLeft := WorkTime;
      isRunning := false;
      alerts := 0;
    }

    /** `toggleTimer`: start or pause; the mode and the time left are untouched. */
    method ToggleTimer()
      requires Valid()
      modifies this
      ensures Valid()
      ensures isRunning == !old(isRunning)
      ensures mode == old(mode) && timeLeft == old(timeLeft) && alerts == old(alerts)
      ensures View() == Toggled(old(View()))
    {
      isRunning := !isRunning;
    }

    /** `resetTimer`: stop and restore the full time of the current mode. */
    method ResetTimer()
      modifies this
      ensures Valid()
      ensures !isRunning && timeLeft == Total(mode)
      ensures mode == old(mode) && alerts == old(alerts)
      ensures View() == ResetState(old(View()))
    {
      isRunning := false;
      timeLeft := Total(mode);
    }

    /** `switchMode(newMode)`: select a mode, stop, and restore its full time, even if it is the current mode. */
    method SwitchMode(newMode: Mode)
      modifies this
      ensures Valid()
      ensures mode == newMode && !isRunning && timeLeft == Total(newMode)
      ensures alerts == old(alerts)
      ensures View() == Switched(old(View()), newMode)
    {
      mode := newMode;
      isRunning := false;
      timeLeft := Total(newMode);
    }

    /**
     * One firing of the interval. The interval only exists while the effect
     * armed it (running with time left); its callback takes one second off.
     */
    method Tick() returns (fired: bool)
      requires Valid()
      modifies this
      ensures Valid()
      ensures fired == (old(isRunning) && old(timeLeft) > 0)
      ensures timeLeft == if fired then old(timeLeft) - 1 else old(timeLeft)
      ensures mode == old(mode) && isRunning == old(isRunning) && alerts == old(alerts)
      ensures View() == Ticked(old(View()))
    {
      fired := isRunning && timeLeft > 0;
      if fired {
        timeLeft := timeLeft - 1;
      }
    }

    /** The completion branch of the effect, reached with no time left: stop and play the alert. */
    method Complete()
      requires timeLeft == 0
      modifies this
      ensures !isRunning && timeLeft == 0 && mode == old(mode)
      ensures alerts == old(alerts) + 1
    {
      isRunning := false;
      alerts := alerts + 1;
    }

    /**
     * One evaluation of the effect: it arms the interval when running with time
     * left, and otherwise completes when the time is zero. Reports whether it
     * armed the interval and whether it played the alert.
     */
    method RunEffect() returns (armed: bool, alerted: bool)
      requires Valid()
      modifies this
      ensures Valid()
      ensures armed == Armed(old(View()))
      ensures alerted == (old(timeLeft) == 0)
      ensures View() == Effect(old(View())).0
      ensures alerts == old(alerts) + Effect(old(View())).1
    {
      armed, alerted := false, false;
      if isRunning && timeLeft > 0 {
        armed := true;
      } else if timeLeft == 0 {
        Complete();
        alerted := true;
      }
    }

    /**
     * An event followed by what React does after it: if the event changed a
     * dependency of the effect, the effect is evaluated, and evaluated again
     * if its own stop changed a dependency. Returns the alerts played.
     */
    method Handle(e: Event) returns (played: nat)
      requires Valid()
      modifies this
      ensures Valid()
      ensures View() == Dispatch(old(View()), e).0
      ensures played == Dispatch(old(View()), e).1
      ensures alerts == old(alerts) + played
    {
      var before := View();
      match e {
        case Toggle => ToggleTimer();
        case Reset => ResetTimer();
        case Switch(m) => SwitchMode(m);
        case IntervalFired => var _ := Tick();
      }
      assert View() == Apply(before, e);
      played := 0;
      if Deps(View()) != Deps(before) {
        var applied := View();
        var _, alerted := RunEffect();
        if alerted {
          played := 1;
        }
        if Deps(View()) != Deps(applied) {
          var stopped := View();
          var _, again := RunEffect();
          if again {
            played := played + 1;
          }
          assert Deps(View()) == Deps(stopped);
          assert Settle(stopped) == (View(), if again then 1 else 0);
        }
      }
    }
  }

  /** Mount, start, and three seconds: the clock reads 1497 seconds and no alert has played. */
  method StartScenario() returns (t: Timer)
    ensures t.View() == State(Work, 1497, true) && t.alerts == 0
  {
    t := new Timer();
    var played := t.Handle(Toggle);
    played := t.Handle(IntervalFired);
    played := t.Handle(IntervalFired);
    played := t.Handle(IntervalFired);
  }
}
