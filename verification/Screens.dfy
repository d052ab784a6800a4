/** The screens layer as the code keeps it: the stack, the runtime's choice and the wait's fields. */
module Screens {
  import opened Basics
  import opened Words
  import opened WaitMachine
  import opened WaitLaws
  import opened NavigationLaws

  class Screens {
    var stack: seq<nat>
    var transient: Option<nat>
    var onClose: bool
    var navigating: bool
    var alive: set<nat>
    var next: nat
    // The wait; without one `waiting` is false and the others have no meaning.
    var waiting: bool
    var origin: nat
    var alert: nat
    var timer: Option<nat>
    var begun: nat
    var shownAt: nat
    var shown: bool
    var ending: bool
    var cancel: bool
    var done: bool
    // History, and the runtime's code that waits for a callback.
    ghost var serial: nat
    ghost var begunTime: nat
    ghost var shownTime: nat
    ghost var serials: nat
    ghost var control: seq<Frame>
    ghost var log: seq<Event>

    ghost function TheWait(): Option<Wait>
      reads this
    {
      if waiting then
        Some(Wait(origin, alert, timer, begun, shownAt, shown, ending, cancel, done, serial, begunTime, shownTime))
      else None
    }

    /** The layer at a time. */
    ghost function State(now: nat): Layer
      reads this
    {
      Layer(stack, transient, onClose, navigating, alive, next, TheWait(), now, control, serials, log)
    }

    constructor ()
      ensures State(0) == Layer([], None, false, false, {}, 0, None, 0, [], 0, [])
    {
      stack, transient, onClose, navigating, alive, next := [], None, false, false, {}, 0;
      waiting, origin, alert, timer := false, 0, 0, None;
      begun, shownAt, shown, ending, cancel, done := 0, 0, false, false, false, false;
      serial, begunTime, shownTime, serials, control, log := 0, 0, 0, 0, [], [];
    }

    method Schedule(delay: nat, now: nat)
      requires waiting
      modifies this`timer
      ensures State(now) == Scheduled(old(State(now)), delay)
    {
      timer := Some(now + delay);
    }

    method IsTop(screen: nat) returns (top: bool)
      ensures top == (stack != [] && stack[|stack| - 1] == screen)
    {
      top := stack != [] && stack[|stack| - 1] == screen;
    }

    method WaitOnTop() returns (top: bool)
      requires waiting
      ensures top == (transient.None? && stack != []
                      && (stack[|stack| - 1] == origin || (shown && stack[|stack| - 1] == alert)))
    {
      if transient.Some? {
        return false;
      }
      top := IsTop(origin);
      if !top && shown {
        top := IsTop(alert);
      }
    }

    method WaitStackChanged(now: nat)
      modifies this`timer
      ensures State(now) == StackChanged(old(State(now)))
    {
      if waiting && timer.None? && (ending || !shown) {
        var top := WaitOnTop();
        if top {
          Schedule(0, now);
        }
      }
    }

    method DropWait(deleted: nat, now: nat)
      requires waiting && (deleted == origin || deleted == alert)
      modifies this`waiting, this`timer, this`alive
      ensures !waiting && (alive - {deleted}) == Deleted(old(State(now)), deleted).alive
      ensures State(now) == old(State(now)).(wait := None, alive := alive)
    {
      timer := None;
      waiting := false;
      if alert != deleted && alert !in stack {
        alive := alive - {alert};
      }
    }

    method DeleteScreen(screen: nat, now: nat)
      modifies this`waiting, this`timer, this`alive
      ensures State(now) == Deleted(old(State(now)), screen)
    {
      if waiting && (screen == origin || screen == alert) {
        DropWait(screen, now);
      }
      alive := alive - {screen};
    }

    method PushScreen(screen: nat, now: nat)
      modifies this`stack
      ensures State(now) == Pushed(old(State(now)), screen)
    {
      stack := stack + [screen];
    }

    method PopScreen(now: nat) returns (screen: nat)
      requires stack != []
      modifies this`stack
      ensures State(now) == Popped(old(State(now))) && screen == old(stack)[|old(stack)| - 1]
    {
      screen := stack[|stack| - 1];
      stack := stack[..|stack| - 1];
    }

    method MarkShown(now: nat)
      requires waiting
      modifies this`shown, this`shownAt, this`shownTime
      ensures TheWait() == Some(old(TheWait()).value.(shown := true, shownAt := now % WORD, shownTime := now))
    {
      shown := true;
      shownAt := now % WORD;
      shownTime := now;
    }

    method PushAlert(now: nat)
      requires waiting && transient.None? && !navigating
      modifies this`stack, this`navigating, this`shown, this`shownAt, this`shownTime
      ensures waiting && State(now) == AlertPushed(old(State(now)))
    {
      navigating := true;
      PushScreen(alert, now);
      MarkShown(now);
      navigating := false;
    }

    method ShowWaitAlert(now: nat)
      requires waiting && transient.None? && !navigating
      modifies this`stack, this`navigating, this`shown, this`shownAt, this`timer, this`shownTime, this`log
      ensures State(now) == ShowAlert(old(State(now)))
    {
      PushAlert(now);
      ghost var marked := State(now);
      WaitStackChanged(now);
      log := log + [Shown(serial, begunTime, now)];
      assert State(now) == Record(StackChanged(marked), Shown(serial, begunTime, now));
    }

    /** The wait is over: its alert goes. */
    method TakeOffAlert(now: nat)
      requires waiting
      modifies this`waiting, this`timer, this`stack, this`alive
      ensures State(now) == AlertTakenOff(old(State(now)))
    {
      var itsAlert := alert;
      waiting := false;
      timer := None;
      var top := IsTop(itsAlert);
      if top {
        var _ := PopScreen(now);
      }
      DeleteScreen(itsAlert, now);
    }

    /** True when the application's `done` runs now. */
    method FinishWait(now: nat) returns (call: bool)
      requires waiting
      modifies this`waiting, this`timer, this`stack, this`alive, this`control, this`log
      ensures State(now) == Finish(old(State(now))) && call == old(done)
    {
      ghost var w := TheWait().value;
      var itsDone := done;
      TakeOffAlert(now);
      log := log + [Finished(w.serial, w.shown, w.shownTime, now)];
      call := itsDone;
      if call {
        log := log + [Done(w.serial, w.origin, Top(State(now)), transient.Some?)];
        control := control + [Nothing];
      }
    }

    /** The timer's step; true when the application's `done` runs now. */
    method StepWait(now: nat) returns (call: bool)
      requires waiting && !navigating
      modifies this
      ensures State(now) == WaitStep(old(State(now)))
      ensures call ==> old(ending) && old(done) && !waiting
      ensures call && old(shown) ==> Elapsed(now, old(shownAt)) >= ALERT_MINIMUM
      ensures waiting && shown && !old(shown) ==> !ending && Elapsed(now, old(begun)) >= ALERT_DELAY
    {
      timer := None;
      if ending && shown {
        var elapsed := (now % WORD - shownAt) % WORD;
        if elapsed < ALERT_MINIMUM {
          Schedule(ALERT_MINIMUM - elapsed, now);
          return false;
        }
      } else if !ending && !shown {
        var elapsed := (now % WORD - begun) % WORD;
        if elapsed < ALERT_DELAY {
          Schedule(ALERT_DELAY - elapsed, now);
          return false;
        }
      }
      call := StepDue(now);
    }

    /** With something above, the next change of the stack looks again. */
    method StepDue(now: nat) returns (call: bool)
      requires waiting && !navigating
      modifies this
      ensures State(now) == DueStep(old(State(now)))
      ensures call ==> old(ending) && old(done) && !waiting
      ensures waiting && shown && !old(shown) ==> !ending
    {
      var top := WaitOnTop();
      call := false;
      if top {
        if ending {
          call := FinishWait(now);
        } else if !shown {
          ShowWaitAlert(now);
        }
      }
    }

    /** True when the application's `cancel` runs now. */
    method Cancel(now: nat) returns (call: bool)
      modifies this`cancel, this`control, this`log
      ensures State(now) == CancelWait(old(State(now)))
      ensures call == (old(TheWait()).Some? && old(TheWait()).value.cancel)
    {
      call := waiting && cancel;
      if call {
        cancel := false;
        log := log + [Cancelled(serial)];
        control := control + [Nothing];
      }
    }

    /** False without a wait, or when it ends already. */
    method End(callback: bool, now: nat) returns (ok: bool)
      modifies this`ending, this`cancel, this`done, this`timer, this`log
      ensures State(now) == WaitEnd(old(State(now)), callback)
      ensures ok ==> waiting && ending && !cancel && timer == Some(now) && stack == old(stack) && shown == old(shown)
      ensures !ok ==> State(now) == old(State(now))
      ensures ok == (old(TheWait()).Some? && !old(TheWait()).value.ending)
    {
      if !waiting || ending {
        return false;
      }
      ghost var l := State(now);
      ghost var w := TheWait().value;
      ending := true;
      // From here Back must not call the application.
      cancel := false;
      done := callback;
      log := log + [Ended(serial)];
      assert TheWait() == Some(w.(ending := true, cancel := false, done := callback));
      assert State(now) == Record(l.(wait := TheWait()), Ended(w.serial));
      Schedule(0, now);
      ok := true;
    }

    method StartWait(over: nat, its: nat, callback: bool, now: nat)
      modifies this`waiting, this`origin, this`alert, this`timer, this`begun, this`shownAt, this`shown
      modifies this`ending, this`cancel, this`done, this`serial, this`begunTime, this`shownTime, this`serials
      ensures TheWait() == Some(Wait(over, its, None, now % WORD, 0, false, false, callback, false, old(serials), now, 0))
      ensures serials == old(serials) + 1
    {
      waiting, origin, alert, timer := true, over, its, None;
      begun, shownAt, shown, ending, cancel, done := now % WORD, 0, false, false, callback, false;
      serial, begunTime, shownTime := serials, now, 0;
      serials := serials + 1;
    }

    /** wait_begin once no choice is open; false without a screen or during another wait. */
    method Begin(callback: bool, now: nat) returns (ok: bool)
      modifies this
      ensures State(now) == Begun(old(State(now)), callback)
      ensures ok ==> waiting && !shown && !ending && timer == Some(now + ALERT_DELAY) && alert == old(next)
      ensures ok ==> stack == old(stack) != [] && origin == stack[|stack| - 1]
      ensures !ok ==> State(now) == old(State(now))
      ensures ok == (old(stack) != [] && old(TheWait()).None?)
    {
      if stack == [] || waiting {
        return false;
      }
      var its := next;
      next := next + 1;
      alive := alive + {its};
      StartWait(stack[|stack| - 1], its, callback, now);
      Schedule(ALERT_DELAY, now);
      ok := true;
    }

    /** The loop of pop_to: screens go from the top down to the target. */
    method PopScreensTo(target: nat, now: nat)
      modifies this`stack, this`waiting, this`timer, this`alive
      ensures State(now) == PoppedTo(old(State(now)), target)
    {
      while stack != [] && stack[|stack| - 1] != target
        invariant PoppedTo(State(now), target) == PoppedTo(old(State(now)), target)
        decreases |stack|
      {
        var screen := PopScreen(now);
        DeleteScreen(screen, now);
      }
    }

    method ReplaceTop(screen: nat, now: nat)
      modifies this`stack, this`waiting, this`timer, this`alive
      ensures State(now) == Changed(old(State(now)), Replace(screen))
    {
      if stack != [] {
        var top := PopScreen(now);
        PushScreen(screen, now);
        DeleteScreen(top, now);
      } else {
        PushScreen(screen, now);
      }
    }

    method DropTop(now: nat)
      modifies this`stack, this`waiting, this`timer, this`alive
      ensures State(now) == Changed(old(State(now)), Navigation.Pop)
    {
      if stack != [] {
        var top := PopScreen(now);
        DeleteScreen(top, now);
      }
    }

    /** What a navigation asks for: sound screens, no choice open, and its own conditions. */
    ghost predicate Ready(n: Navigation, now: nat)
      reads this
    {
      Core(State(now)) && Available(State(now), n) && AvoidsAlert(State(now), n) && transient.None?
    }

    /** The body of a navigation, between begin_navigation and finish_navigation. */
    method ChangeScreens(n: Navigation, now: nat)
      modifies this`stack, this`waiting, this`timer, this`alive, this`transient, this`onClose, this`next
      ensures State(now) == Changed(old(State(now)), n)
      ensures old(Ready(n, now)) ==> Navigates(old(State(now)), n, State(now).(navigating := false), {})
    {
      if Ready(n, now) { ChangeMeans(State(now), n); }
      match n {
        case Push(screen) => PushScreen(screen, now);
        case Replace(screen) => ReplaceTop(screen, now);
        case Pop => DropTop(now);
        case PopTo(target) => PopScreensTo(target, now);
        case Choose(callback) =>
          transient, onClose := Some(next), callback;
          alive, next := alive + {next}, next + 1;
      }
    }

    method FinishNavigation(n: Navigation, now: nat)
      modifies this
      ensures State(now) == Navigated(old(State(now)), n)
    {
      ChangeScreens(n, now);
      navigating := false;
      WaitStackChanged(now);
    }

    /** Takes the alert off before its listener runs; true when the listener runs now. */
    method DismissAlert(screen: nat, listener: bool, now: nat) returns (call: bool)
      modifies this
      ensures State(now) == Dismiss(old(State(now)), screen, listener) && call == listener
    {
      var top := IsTop(screen);
      if !top {
        control := if listener then control + [Nothing] else control;
        return listener;
      }
      var _ := PopScreen(now);
      if listener {
        control := control + [Dismissed(screen)];
      } else {
        ForgetAlert(screen, now);
      }
      call := listener;
    }

    /** After the listener: the alert goes unless it was pushed again. */
    method ForgetAlert(screen: nat, now: nat)
      modifies this`waiting, this`timer, this`alive
      ensures State(now) == AfterListener(old(State(now)), screen)
    {
      if screen in alive && screen !in stack {
        DeleteScreen(screen, now);
      }
      if stack != [] {
        WaitStackChanged(now);
      }
    }
  }
}
