/**
 The screen stack and the wait machine: a wait shows a busy alert over the screen it began on, and
 finishes there once the work ends. Application callbacks may call back into the stack.

 The runtime's code that waits for a callback to return is a frame of `control`: while there are
 frames the application runs, and when it returns the last frame's code goes on. Timers and keys come
 only from the event loop, when `control` is empty. Screens are identities; `stack` has its top last.
 */
module WaitMachine {
  import opened Basics
  import opened Words

  const ALERT_DELAY: nat := 500
  const ALERT_MINIMUM: nat := 500

  /** `timer` is when it is due. `begun` and `shownAt` are tick words; `serial`, `begunTime` and
      `shownTime` are history. */
  datatype Wait = Wait(
    origin: nat, alert: nat, timer: Option<nat>, begun: nat, shownAt: nat,
    shown: bool, ending: bool, cancel: bool, done: bool,
    serial: nat, begunTime: nat, shownTime: nat)

  /** A navigation whose closing of a runtime choice calls back first. */
  datatype Navigation = Push(screen: nat) | Replace(screen: nat) | Pop | PopTo(target: nat) | Choose(callback: bool)

  /** What the runtime still has to do when a callback returns. */
  datatype Frame =
    | Navigate(navigation: Navigation)
    | Closed
    | BeginWait(cancel: bool)
    | Dismissed(alert: nat)
    | Nothing

  /** What happened, for the promises about callbacks and times. */
  datatype Event =
    | Cancelled(serial: nat)
    | Ended(serial: nat)
    | Done(serial: nat, origin: nat, top: Option<nat>, choice: bool)
    | Shown(serial: nat, begun: nat, at: nat)
    | Finished(serial: nat, shown: bool, since: nat, at: nat)

  datatype Layer = Layer(
    stack: seq<nat>, transient: Option<nat>, onClose: bool, navigating: bool,
    alive: set<nat>, next: nat, wait: Option<Wait>,
    now: nat, control: seq<Frame>, serials: nat, log: seq<Event>)

  // ---- The stack

  function Top(l: Layer): Option<nat> {
    if l.stack == [] then None else Some(l.stack[|l.stack| - 1])
  }

  function Popped(l: Layer): Layer
    requires l.stack != []
  {
    l.(stack := l.stack[..|l.stack| - 1])
  }

  function Pushed(l: Layer, screen: nat): Layer {
    l.(stack := l.stack + [screen])
  }

  /** Nothing covers the wait: its origin, or the alert it shows, is the top. */
  predicate OnTop(l: Layer, w: Wait) {
    l.transient == None && (Top(l) == Some(w.origin) || (w.shown && Top(l) == Some(w.alert)))
  }

  // ---- The wait's parts

  function Scheduled(l: Layer, delay: nat): Layer
    requires l.wait.Some?
  {
    l.(wait := Some(l.wait.value.(timer := Some(l.now + delay))))
  }

  /** wait_stack_changed: a wait that was held up by what covered it is scheduled anew. */
  function StackChanged(l: Layer): Layer {
    if l.wait.Some? && l.wait.value.timer == None
       && (l.wait.value.ending || !l.wait.value.shown) && OnTop(l, l.wait.value)
    then Scheduled(l, 0) else l
  }

  /** delete_screen; a wait does not outlive its origin or its alert. */
  function Deleted(l: Layer, screen: nat): Layer {
    var less := l.(alive := l.alive - {screen});
    if l.wait.Some? && (screen == l.wait.value.origin || screen == l.wait.value.alert) then
      var alert := l.wait.value.alert;
      var dropped := less.(wait := None);
      if alert != screen && alert !in l.stack then dropped.(alive := dropped.alive - {alert}) else dropped
    else less
  }

  /** Deletes from the top down to `target`. */
  function PoppedTo(l: Layer, target: nat): Layer
    decreases |l.stack|
  {
    if l.stack == [] || l.stack[|l.stack| - 1] == target then l
    else PoppedTo(Deleted(Popped(l), l.stack[|l.stack| - 1]), target)
  }

  function Record(l: Layer, e: Event): Layer {
    l.(log := l.log + [e])
  }

  function AlertPushed(l: Layer): Layer
    requires l.wait.Some?
  {
    var w := l.wait.value;
    Pushed(l, w.alert).(wait := Some(w.(shown := true, shownAt := l.now % WORD, shownTime := l.now)))
  }

  function ShowAlert(l: Layer): Layer
    requires l.wait.Some?
  {
    Record(StackChanged(AlertPushed(l)), Shown(l.wait.value.serial, l.wait.value.begunTime, l.now))
  }

  function AlertTakenOff(l: Layer): Layer
    requires l.wait.Some?
  {
    var cleared := l.(wait := None);
    var alert := l.wait.value.alert;
    Deleted(if Top(cleared) == Some(alert) then Popped(cleared) else cleared, alert)
  }

  /** finish_wait up to the call of `done`. */
  function Finish(l: Layer): Layer
    requires l.wait.Some?
  {
    var w := l.wait.value;
    var gone := Record(AlertTakenOff(l), Finished(w.serial, w.shown, w.shownTime, l.now));
    if w.done then
      Record(gone, Done(w.serial, w.origin, Top(gone), gone.transient.Some?)).(control := gone.control + [Nothing])
    else gone
  }

  function Elapsed(now: nat, since: nat): nat {
    (now % WORD - since) % WORD
  }

  /** wait_step, which the timer runs. */
  function WaitStep(l: Layer): Layer
    requires l.wait.Some?
  {
    var w := l.wait.value.(timer := None);
    var stopped := l.(wait := Some(w));
    if w.ending && w.shown && Elapsed(l.now, w.shownAt) < ALERT_MINIMUM then
      Scheduled(stopped, ALERT_MINIMUM - Elapsed(l.now, w.shownAt))
    else if !w.ending && !w.shown && Elapsed(l.now, w.begun) < ALERT_DELAY then
      Scheduled(stopped, ALERT_DELAY - Elapsed(l.now, w.begun))
    else DueStep(stopped)
  }

  /** A step whose time has come: nothing while the wait is covered. */
  function DueStep(l: Layer): Layer
    requires l.wait.Some?
  {
    var w := l.wait.value;
    if !OnTop(l, w) then l
    else if w.ending then Finish(l)
    else if !w.shown then ShowAlert(l)
    else l
  }

  /** cancel_wait: the callback runs at most once. */
  function CancelWait(l: Layer): Layer {
    if l.wait.None? || !l.wait.value.cancel then l
    else
      var w := l.wait.value;
      Record(l.(wait := Some(w.(cancel := false)), control := l.control + [Nothing]), Cancelled(w.serial))
  }

  function WaitEnd(l: Layer, done: bool): Layer {
    if l.wait.None? || l.wait.value.ending then l
    else
      var w := l.wait.value;
      Scheduled(Record(l.(wait := Some(w.(ending := true, cancel := false, done := done))), Ended(w.serial)), 0)
  }

  // ---- Navigation

  /** The change of the stack or of the choice. */
  function Changed(l: Layer, n: Navigation): Layer {
    match n
    case Push(screen) => Pushed(l, screen)
    case Replace(screen) =>
      if l.stack == [] then Pushed(l, screen)
      else Deleted(Pushed(Popped(l), screen), l.stack[|l.stack| - 1])
    case Pop => if l.stack == [] then l else Deleted(Popped(l), l.stack[|l.stack| - 1])
    case PopTo(target) => PoppedTo(l, target)
    case Choose(callback) =>
      l.(transient := Some(l.next), onClose := callback, alive := l.alive + {l.next}, next := l.next + 1)
  }

  /** After begin_navigation: the change, and finish_navigation. */
  function Navigated(l: Layer, n: Navigation): Layer {
    StackChanged(Changed(l, n).(navigating := false))
  }

  /** What a navigation asks of its screen and of the stack. */
  predicate Available(l: Layer, n: Navigation) {
    match n
    case Push(screen) => screen in l.alive && screen !in l.stack && l.transient != Some(screen)
    case Replace(screen) => screen in l.alive && screen !in l.stack && l.transient != Some(screen)
    case Pop => |l.stack| > 1
    case PopTo(target) => target in l.stack
    case Choose(_) => true
  }

  /** A choice that is open goes first; its callback, if it has one, runs before the frame. */
  function Choiceless(l: Layer, frame: Frame): Layer {
    if l.transient.None? then l
    else
      var gone := Deleted(l.(transient := None, onClose := false), l.transient.value);
      if l.onClose then gone.(control := gone.control + [frame]) else gone
  }

  function Navigating(l: Layer, n: Navigation): Layer {
    if l.navigating || !Available(l, n) then l
    else
      var closed := Choiceless(l.(navigating := true), Navigate(n));
      if l.transient.Some? && l.onClose then closed else Navigated(closed, n)
  }

  function CloseChoice(l: Layer): Layer {
    if l.transient.None? then l
    else
      var closed := Choiceless(l, Closed);
      if l.onClose then closed else StackChanged(closed)
  }

  // ---- Beginning a wait

  /** The rest of wait_begin once no choice is open. */
  function Begun(l: Layer, cancel: bool): Layer {
    if l.stack == [] || l.wait.Some? then l
    else
      var w := Wait(l.stack[|l.stack| - 1], l.next, None, l.now % WORD, 0, false, false, cancel, false,
                    l.serials, l.now, 0);
      Scheduled(l.(wait := Some(w), alive := l.alive + {l.next}, next := l.next + 1, serials := l.serials + 1),
                ALERT_DELAY)
  }

  function WaitBegin(l: Layer, cancel: bool): Layer {
    if l.navigating || l.wait.Some? then l
    else if l.transient.None? then Begun(l, cancel)
    else
      var closed := Choiceless(l, BeginWait(cancel));
      if l.onClose then closed else Begun(StackChanged(closed), cancel)
  }

  // ---- Dismissing an alert

  /** dismiss_alert after the listener: deleted unless pushed again. */
  function AfterListener(l: Layer, alert: nat): Layer {
    var kept := if alert in l.alive && alert !in l.stack then Deleted(l, alert) else l;
    if kept.stack == [] then kept else StackChanged(kept)
  }

  function Dismiss(l: Layer, alert: nat, listener: bool): Layer {
    if Top(l) != Some(alert) then
      if listener then l.(control := l.control + [Nothing]) else l
    else
      var off := Popped(l);
      if listener then off.(control := off.control + [Dismissed(alert)]) else AfterListener(off, alert)
  }

  // ---- Steps

  datatype Step =
    // The application, from the event loop or from any callback
    | Create
    | Call(navigation: Navigation)
    | CallClose
    | CallBegin(cancel: bool)
    | CallEnd(done: bool)
    | Return
    // The event loop
    | Tick(ms: nat)
    | Timer
    | BackKey
    | DismissKey(alert: nat, listener: bool)

  predicate Enabled(l: Layer, s: Step) {
    match s
    case Call(n) =>
      // The application must not navigate to a wait's alert.
      l.wait.Some? ==> n != Push(l.wait.value.alert) && n != Replace(l.wait.value.alert)
    case Return => l.control != []
    case Timer => l.control == [] && l.wait.Some? && l.wait.value.timer.Some? && l.wait.value.timer.value <= l.now
    // Back on a waiting origin, or Cancel on its alert.
    case BackKey =>
      && l.control == [] && l.wait.Some? && l.transient.None?
      && (Top(l) == Some(l.wait.value.origin) || Top(l) == Some(l.wait.value.alert))
    // A wait's own alert takes its key as BackKey.
    case DismissKey(alert, _) => l.control == [] && (l.wait.Some? ==> alert != l.wait.value.alert)
    case _ => true
  }

  function Next(l: Layer, s: Step): Layer
    requires Enabled(l, s)
  {
    match s
    case Create => l.(alive := l.alive + {l.next}, next := l.next + 1)
    case Call(n) => Navigating(l, n)
    case CallClose => CloseChoice(l)
    case CallBegin(cancel) => WaitBegin(l, cancel)
    case CallEnd(done) => WaitEnd(l, done)
    case Return => Returned(l.(control := l.control[..|l.control| - 1]), l.control[|l.control| - 1])
    case Tick(ms) => l.(now := l.now + ms)
    case Timer => WaitStep(l)
    case BackKey => CancelWait(l)
    case DismissKey(alert, listener) => Dismiss(l, alert, listener)
  }

  function Returned(l: Layer, frame: Frame): Layer {
    match frame
    case Navigate(n) => Navigated(l, n)
    case Closed => StackChanged(l)
    case BeginWait(cancel) => Begun(StackChanged(l), cancel)
    case Dismissed(alert) => AfterListener(l, alert)
    case Nothing => l
  }
}
