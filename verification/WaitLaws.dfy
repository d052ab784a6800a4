/** What every run of the screen stack and the wait machine keeps. */
module WaitLaws {
  import opened Basics
  import opened Words
  import opened WaitMachine

  // ---- The invariant

  ghost predicate StackOk(l: Layer) {
    && Distinct(l.stack) && (forall s :: s in l.stack ==> s in l.alive)
    && (forall s :: s in l.alive ==> s < l.next)
    && (l.transient.Some? ==> l.transient.value in l.alive && l.transient.value !in l.stack)
  }

  /** `b` lies directly above `a`. */
  predicate Above(stack: seq<nat>, a: nat, b: nat) {
    exists i :: 0 <= i < |stack| - 1 && stack[i] == a && stack[i + 1] == b
  }

  ghost predicate WaitOk(l: Layer) {
    l.wait.Some? ==>
      var w := l.wait.value;
      && w.origin != w.alert && w.alert in l.alive && w.alert < l.next && w.origin < l.next
      && l.transient != Some(w.alert)
      && (if w.shown then Above(l.stack, w.origin, w.alert) else w.alert !in l.stack)
      && w.begun == w.begunTime % WORD && w.begunTime <= l.now
      && (w.shown ==> w.shownAt == w.shownTime % WORD && w.shownTime <= l.now)
      && (w.ending ==> !w.cancel) && (!w.ending ==> !w.done) && w.serial < l.serials
  }

  /** What the documentation promises of a single event. */
  predicate EventOk(e: Event) {
    match e
    case Done(_, origin, top, choice) => top == Some(origin) && !choice
    case Shown(_, begun, at) => at >= begun + ALERT_DELAY
    case Finished(_, shown, since, at) => shown ==> at >= since + ALERT_MINIMUM
    case _ => true
  }

  /** Events of one wait that exclude each other, in this order. */
  predicate Excludes(e: Event, later: Event) {
    && e.serial == later.serial
    && ((e.Done? && later.Done?) || (e.Cancelled? && later.Cancelled?) || (e.Ended? && later.Ended?)
        || (e.Ended? && later.Cancelled?) || (e.Done? && later.Cancelled?) || (e.Finished? && later.Finished?))
  }

  ghost predicate LogOk(l: Layer) {
    && (forall e :: e in l.log ==> EventOk(e) && e.serial < l.serials)
    && (forall i, j :: 0 <= i < j < |l.log| ==> !Excludes(l.log[i], l.log[j]))
    && (l.wait.Some? ==>
          var w := l.wait.value;
          forall e :: e in l.log && e.serial == w.serial ==>
            && !e.Done? && !e.Finished? && (e.Ended? ==> w.ending) && (e.Cancelled? ==> !w.cancel))
  }

  predicate Rechecks(f: Frame) {
    !f.Nothing?
  }

  ghost predicate ControlOk(l: Layer) {
    && (forall f :: f in l.control && f.Dismissed? ==> f.alert < l.next && l.transient != Some(f.alert))
    && (forall i :: 0 <= i < |l.control| && l.control[i].Navigate? ==> i == |l.control| - 1 && l.navigating)
    && (l.navigating ==>
          && l.control != [] && l.control[|l.control| - 1].Navigate? && l.transient.None?
          && var n := l.control[|l.control| - 1].navigation;
             Available(l, n) && AvoidsAlert(l, n))
  }

  predicate AvoidsAlert(l: Layer, n: Navigation) {
    l.wait.Some? ==> n != Push(l.wait.value.alert) && n != Replace(l.wait.value.alert)
  }

  /** A wait that could go on has a timer; else it is shown and not ending, or covered. */
  predicate Moves(l: Layer) {
    l.wait.Some? && l.wait.value.timer.None? ==>
      (l.wait.value.shown && !l.wait.value.ending) || !OnTop(l, l.wait.value)
  }

  ghost predicate Attended(l: Layer) {
    Moves(l) || exists f :: f in l.control && Rechecks(f)
  }

  ghost predicate Core(l: Layer) {
    StackOk(l) && WaitOk(l) && LogOk(l)
  }

  ghost predicate Inv(l: Layer) {
    Core(l) && ControlOk(l) && Attended(l)
  }

  // ---- Parts

  lemma StackChangedMoves(l: Layer)
    requires Core(l)
    ensures Core(StackChanged(l)) && Moves(StackChanged(l))
    ensures StackChanged(l) == l.(wait := StackChanged(l).wait)
    ensures StackChanged(l).wait.Some? <==> l.wait.Some?
  {
  }

  lemma PushKeepsCore(l: Layer, screen: nat)
    requires Core(l) && screen in l.alive && screen !in l.stack && l.transient != Some(screen)
    requires l.wait.Some? ==> screen != l.wait.value.alert
    ensures Core(Pushed(l, screen))
  {
    if l.wait.Some? && l.wait.value.shown {
      var w := l.wait.value;
      var i :| 0 <= i < |l.stack| - 1 && l.stack[i] == w.origin && l.stack[i + 1] == w.alert;
      assert Pushed(l, screen).stack[i] == w.origin && Pushed(l, screen).stack[i + 1] == w.alert;
    }
  }

  lemma AboveWithoutTop(stack: seq<nat>, a: nat, b: nat)
    requires Distinct(stack) && Above(stack, a, b) && stack != []
    ensures a != stack[|stack| - 1] && a in stack && b in stack
    ensures b != stack[|stack| - 1] ==> Above(stack[..|stack| - 1], a, b)
  {
    var i :| 0 <= i < |stack| - 1 && stack[i] == a && stack[i + 1] == b;
    if b != stack[|stack| - 1] {
      assert i + 1 < |stack| - 1;
      assert stack[..|stack| - 1][i] == a && stack[..|stack| - 1][i + 1] == b;
    }
  }

  lemma TopIsNotBelow(stack: seq<nat>)
    requires Distinct(stack) && stack != []
    ensures stack[|stack| - 1] !in stack[..|stack| - 1]
    ensures forall s :: s in stack[..|stack| - 1] ==> s in stack
  {
  }

  /** Taking the top screen off and deleting it; the origin never lies on top below its alert. */
  lemma PopKeepsCore(l: Layer)
    requires Core(l) && l.stack != []
    ensures Core(Deleted(Popped(l), l.stack[|l.stack| - 1]))
  {
    var top := l.stack[|l.stack| - 1];
    TopIsNotBelow(l.stack);
    if l.wait.Some? && l.wait.value.shown {
      AboveWithoutTop(l.stack, l.wait.value.origin, l.wait.value.alert);
    }
    DeletedKeepsCore(Popped(l), top);
  }

  /** Deleting a screen that is not on the stack any more. */
  lemma DeletedKeepsCore(l: Layer, screen: nat)
    requires StackOk(l) && LogOk(l) && screen !in l.stack && l.transient != Some(screen)
    requires l.wait.Some? && screen != l.wait.value.alert && screen != l.wait.value.origin ==> WaitOk(l)
    requires l.wait.Some? ==> l.transient != Some(l.wait.value.alert)
    ensures Core(Deleted(l, screen))
  {
  }

  lemma {:induction false} PopToKeepsCore(l: Layer, target: nat)
    requires Core(l)
    ensures Core(PoppedTo(l, target)) && PoppedTo(l, target).control == l.control
    ensures PoppedTo(l, target).navigating == l.navigating
    decreases |l.stack|
  {
    if l.stack != [] && l.stack[|l.stack| - 1] != target {
      PopKeepsCore(l);
      PopToKeepsCore(Deleted(Popped(l), l.stack[|l.stack| - 1]), target);
    }
  }

  lemma ChoicelessKeepsCore(l: Layer, frame: Frame)
    requires Core(l)
    ensures Core(Choiceless(l, frame))
    ensures Choiceless(l, frame).transient.None? && Choiceless(l, frame).stack == l.stack
    ensures Choiceless(l, frame).navigating == l.navigating
    ensures Choiceless(l, frame).control == l.control + (if l.transient.Some? && l.onClose then [frame] else [])
    ensures forall s :: s in l.stack ==> s in Choiceless(l, frame).alive
    ensures Choiceless(l, frame).wait.Some? ==> Choiceless(l, frame).wait == l.wait
  {
  }

  lemma BegunKeepsCore(l: Layer, cancel: bool)
    requires Core(l)
    ensures Core(Begun(l, cancel))
    ensures Begun(l, cancel).control == l.control && Begun(l, cancel).navigating == l.navigating
    ensures Begun(l, cancel).transient == l.transient
    ensures Moves(l) ==> Moves(Begun(l, cancel))
  {
    if l.stack != [] && l.wait.None? {
      assert l.stack[|l.stack| - 1] in l.stack;
    }
  }

  lemma AfterListenerKeepsCore(l: Layer, alert: nat)
    requires Core(l) && l.transient != Some(alert)
    ensures Core(AfterListener(l, alert)) && Moves(AfterListener(l, alert))
    ensures AfterListener(l, alert).control == l.control && AfterListener(l, alert).navigating == l.navigating
    ensures AfterListener(l, alert).transient == l.transient && AfterListener(l, alert).next == l.next
  {
    var kept := if alert in l.alive && alert !in l.stack then Deleted(l, alert) else l;
    DismissedKeepsCore(l, alert);
    StackChangedMoves(kept);
  }

  lemma DismissedKeepsCore(l: Layer, alert: nat)
    requires Core(l) && l.transient != Some(alert)
    ensures Core(if alert in l.alive && alert !in l.stack then Deleted(l, alert) else l)
  {
  }

  /** An alert that is not a wait's leaves the top; its wait, if it is an origin, is not shown yet. */
  lemma PopAlertKeepsCore(l: Layer, alert: nat)
    requires Core(l) && Top(l) == Some(alert) && (l.wait.Some? ==> alert != l.wait.value.alert)
    ensures Core(Popped(l))
  {
    if l.wait.Some? && l.wait.value.shown {
      var w := l.wait.value;
      var i :| 0 <= i < |l.stack| - 1 && l.stack[i] == w.origin && l.stack[i + 1] == w.alert;
      assert i + 1 < |Popped(l).stack|;
      assert Popped(l).stack[i] == w.origin && Popped(l).stack[i + 1] == w.alert;
    }
  }

  /** Putting `screen` in place of the top screen. */
  lemma ReplaceKeepsCore(l: Layer, screen: nat)
    requires Core(l) && l.stack != [] && screen in l.alive && screen !in l.stack
    requires l.transient.None? && (l.wait.Some? ==> screen != l.wait.value.alert)
    ensures Core(Deleted(Pushed(Popped(l), screen), l.stack[|l.stack| - 1]))
  {
    var top := l.stack[|l.stack| - 1];
    PopKeepsCore(l);
    var popped := Deleted(Popped(l), top);
    TopIsNotBelow(l.stack);
    PushKeepsCore(popped, screen);
    assert Deleted(Pushed(Popped(l), screen), top) == Pushed(popped, screen);
  }

  lemma ChangedKeepsCore(l: Layer, n: Navigation)
    requires Core(l) && Available(l, n) && AvoidsAlert(l, n) && l.transient.None?
    ensures Core(Changed(l, n))
  {
    match n
    case Push(screen) => PushKeepsCore(l, screen);
    case Replace(screen) =>
      if l.stack == [] { PushKeepsCore(l, screen); } else { ReplaceKeepsCore(l, screen); }
    case Pop => PopKeepsCore(l);
    case PopTo(target) => PopToKeepsCore(l, target);
    case Choose(callback) =>
  }

  lemma ChangedKeepsTheRest(l: Layer, n: Navigation)
    ensures Changed(l, n).control == l.control && Changed(l, n).next >= l.next
    ensures Changed(l, n).transient == if n.Choose? then Some(l.next) else l.transient
  {
    if n.PopTo? { PopToKeepsTheRest(l, n.target); }
  }

  lemma NavigatedKeepsCore(l: Layer, n: Navigation)
    requires Core(l) && Available(l, n) && AvoidsAlert(l, n) && l.transient.None?
    ensures Core(Navigated(l, n)) && Moves(Navigated(l, n))
    ensures Navigated(l, n).control == l.control && !Navigated(l, n).navigating
    ensures Navigated(l, n).next >= l.next
    ensures Navigated(l, n).transient == if n.Choose? then Some(l.next) else None
  {
    ChangedKeepsCore(l, n);
    ChangedKeepsTheRest(l, n);
    StackChangedMoves(Changed(l, n).(navigating := false));
  }

  lemma {:induction false} PopToKeepsTheRest(l: Layer, target: nat)
    ensures PoppedTo(l, target).transient == l.transient && PoppedTo(l, target).next == l.next
    ensures PoppedTo(l, target).control == l.control
    decreases |l.stack|
  {
    if l.stack != [] && l.stack[|l.stack| - 1] != target {
      PopToKeepsTheRest(Deleted(Popped(l), l.stack[|l.stack| - 1]), target);
    }
  }

  // ---- Times

  /** What the tick words say has passed is never more than what has. */
  lemma ElapsedIsNotMore(now: nat, then_: nat)
    requires then_ <= now
    ensures Elapsed(now, then_ % WORD) <= now - then_
  {
    var d := now - then_;
    assert (now % WORD - then_ % WORD) % WORD == d % WORD;
  }

  // ---- Steps of the wait

  lemma FinishKeepsCore(l: Layer)
    requires Core(l) && l.wait.Some? && l.wait.value.ending && OnTop(l, l.wait.value)
    requires l.wait.value.shown ==> l.now >= l.wait.value.shownTime + ALERT_MINIMUM
    ensures Core(Finish(l)) && Finish(l).wait.None?
    ensures Finish(l).navigating == l.navigating && Finish(l).transient.None? && Finish(l).next == l.next
    ensures Finish(l).control == l.control + (if l.wait.value.done then [Nothing] else [])
  {
    TakingOffShowsTheOrigin(l);
    var w := l.wait.value;
    var off := AlertTakenOff(l);
    FinishedKeepsLog(l, Finished(w.serial, w.shown, w.shownTime, l.now));
  }

  /** Without its alert the finished wait leaves its origin on top. */
  lemma TakingOffShowsTheOrigin(l: Layer)
    requires Core(l) && l.wait.Some? && OnTop(l, l.wait.value)
    ensures var off := AlertTakenOff(l);
      && StackOk(off) && Top(off) == Some(l.wait.value.origin)
      && off == l.(wait := None, stack := off.stack, alive := off.alive)
  {
    var w := l.wait.value;
    if w.shown { AboveHasTwo(l.stack, w.origin, w.alert); }
    if Top(l) == Some(w.alert) {
      assert w.shown;
      AlertLiesOnTheOrigin(l.stack, w.origin, w.alert);
    }
    TopIsNotBelow(l.stack);
  }

  /** The wait's last events go with nothing that was recorded before. */
  lemma FinishedKeepsLog(l: Layer, finished: Event)
    requires LogOk(l) && l.wait.Some? && l.wait.value.ending && l.wait.value.serial < l.serials
    requires finished.Finished? && finished.serial == l.wait.value.serial && EventOk(finished)
    ensures LogOk(Record(l.(wait := None), finished))
    ensures forall top :: EventOk(Done(finished.serial, l.wait.value.origin, top, false)) ==>
      LogOk(Record(Record(l.(wait := None), finished), Done(finished.serial, l.wait.value.origin, top, false)))
  {
    forall i | 0 <= i < |l.log| ensures !Excludes(l.log[i], finished) { assert l.log[i] in l.log; }
    forall i, top | 0 <= i < |l.log|
      ensures !Excludes(l.log[i], Done(finished.serial, l.wait.value.origin, top, false))
    {
      assert l.log[i] in l.log;
    }
  }

  lemma AboveHasTwo(stack: seq<nat>, a: nat, b: nat)
    requires Distinct(stack) && Above(stack, a, b)
    ensures stack != [] && stack[|stack| - 1] != a
  {
    AboveWithoutTop(stack, a, b);
  }

  lemma AlertLiesOnTheOrigin(stack: seq<nat>, a: nat, b: nat)
    requires Distinct(stack) && Above(stack, a, b) && stack[|stack| - 1] == b
    ensures |stack| > 1 && stack[|stack| - 2] == a
  {
    var i :| 0 <= i < |stack| - 1 && stack[i] == a && stack[i + 1] == b;
    assert i + 1 == |stack| - 1;
  }

  lemma ShowAlertKeepsCore(l: Layer)
    requires Core(l) && l.wait.Some? && !l.wait.value.shown && !l.wait.value.ending && OnTop(l, l.wait.value)
    requires l.now >= l.wait.value.begunTime + ALERT_DELAY
    ensures Core(ShowAlert(l)) && Moves(ShowAlert(l))
    ensures ShowAlert(l).control == l.control && ShowAlert(l).navigating == l.navigating
    ensures ShowAlert(l).transient == l.transient && ShowAlert(l).next == l.next
  {
    var w := l.wait.value;
    var stack := l.stack + [w.alert];
    assert stack[|l.stack| - 1] == w.origin && stack[|l.stack|] == w.alert;
    assert Above(stack, w.origin, w.alert);
  }

  lemma WaitStepKeepsInv(l: Layer)
    requires Inv(l) && Enabled(l, Timer)
    ensures Inv(WaitStep(l))
  {
    var w := l.wait.value.(timer := None);
    var stopped := l.(wait := Some(w));
    ElapsedIsNotMore(l.now, w.begunTime);
    if w.shown { ElapsedIsNotMore(l.now, w.shownTime); }
    if w.ending && w.shown && Elapsed(l.now, w.shownAt) < ALERT_MINIMUM {
    } else if !w.ending && !w.shown && Elapsed(l.now, w.begun) < ALERT_DELAY {
    } else {
      DueStepKeepsInv(stopped);
    }
  }

  /** A step whose time has come and that finds the wait covered leaves it so; else the wait moves on. */
  lemma DueStepKeepsInv(l: Layer)
    requires Core(l) && ControlOk(l) && l.wait.Some? && l.control == []
    requires l.wait.value.ending && l.wait.value.shown ==> l.now >= l.wait.value.shownTime + ALERT_MINIMUM
    requires !l.wait.value.ending && !l.wait.value.shown ==> l.now >= l.wait.value.begunTime + ALERT_DELAY
    ensures Inv(DueStep(l))
  {
    var w := l.wait.value;
    if OnTop(l, w) {
      if w.ending {
        FinishKeepsCore(l);
      } else if !w.shown {
        ShowAlertKeepsCore(l);
      }
    }
  }

  // ---- Steps of the application

  lemma WithFrame(l: Layer, frame: Frame)
    requires Core(l) && ControlOk(l) && !l.navigating && !frame.Navigate?
    requires frame.Dismissed? ==> frame.alert < l.next && l.transient != Some(frame.alert)
    requires Attended(l) || Rechecks(frame)
    ensures Inv(l.(control := l.control + [frame]))
  {
    var now := l.(control := l.control + [frame]);
    if Attended(l) && !Moves(l) {
      var f :| f in l.control && Rechecks(f);
      assert f in now.control;
    }
    assert frame in now.control;
    assert forall f :: f in now.control ==> f in l.control || f == frame;
  }

  /** The layer in a navigation whose callback is about to run. */
  lemma NavigatingKeepsInv(l: Layer, n: Navigation)
    requires Inv(l) && AvoidsAlert(l, n)
    ensures Inv(Navigating(l, n))
  {
    if !l.navigating && Available(l, n) {
      if l.transient.Some? && l.onClose {
        ChoiceKeepsInv(l, n);
      } else {
        StraightNavigationKeepsInv(l, n);
      }
    }
  }

  lemma StraightNavigationKeepsInv(l: Layer, n: Navigation)
    requires Inv(l) && Available(l, n) && AvoidsAlert(l, n) && !l.navigating && (l.transient.None? || !l.onClose)
    ensures Inv(Navigated(Choiceless(l.(navigating := true), Navigate(n)), n))
  {
    var begun := l.(navigating := true);
    ChoicelessKeepsCore(begun, Navigate(n));
    NavigatedKeepsCore(Choiceless(begun, Navigate(n)), n);
  }

  /** The choice's callback runs during the navigation. */
  lemma ChoiceKeepsInv(l: Layer, n: Navigation)
    requires Inv(l) && Available(l, n) && AvoidsAlert(l, n) && !l.navigating && l.transient.Some? && l.onClose
    ensures Inv(Choiceless(l.(navigating := true), Navigate(n)))
  {
    var begun := l.(navigating := true);
    ChoicelessKeepsCore(begun, Navigate(n));
    var closed := Choiceless(begun, Navigate(n));
    assert closed.control == l.control + [Navigate(n)];
    assert closed.control[|closed.control| - 1] == Navigate(n);
    assert Navigate(n) in closed.control;
    assert forall f :: f in closed.control ==> f in l.control || f == Navigate(n);
  }

  lemma CloseChoiceKeepsInv(l: Layer)
    requires Inv(l)
    ensures Inv(CloseChoice(l))
  {
    if l.transient.Some? {
      ChoicelessKeepsCore(l, Closed);
      if l.onClose {
        ClosedWithFrame(l, Closed);
      } else {
        StackChangedMoves(Choiceless(l, Closed));
      }
    }
  }

  lemma ClosedWithFrame(l: Layer, frame: Frame)
    requires Inv(l) && l.transient.Some? && l.onClose && (frame.Closed? || frame.BeginWait?)
    ensures Inv(Choiceless(l, frame))
  {
    ChoicelessKeepsCore(l, frame);
    var gone := Choiceless(l, frame);
    assert frame in gone.control;
    assert forall f :: f in gone.control ==> f in l.control || f == frame;
  }

  lemma WaitBeginKeepsInv(l: Layer, cancel: bool)
    requires Inv(l)
    ensures Inv(WaitBegin(l, cancel))
  {
    if !l.navigating && l.wait.None? {
      if l.transient.None? {
        BegunKeepsCore(l, cancel);
      } else {
        var closed := Choiceless(l, BeginWait(cancel));
        ChoicelessKeepsCore(l, BeginWait(cancel));
        if l.onClose {
          ClosedWithFrame(l, BeginWait(cancel));
        } else {
          StackChangedMoves(closed);
          BegunKeepsCore(StackChanged(closed), cancel);
        }
      }
    }
  }

  lemma DismissKeepsInv(l: Layer, alert: nat, listener: bool)
    requires Inv(l) && Enabled(l, DismissKey(alert, listener))
    ensures Inv(Dismiss(l, alert, listener))
  {
    if Top(l) != Some(alert) {
      if listener { WithFrame(l, Nothing); }
    } else {
      PopAlertKeepsCore(l, alert);
      assert alert in l.stack;
      if listener {
        WithFrame(Popped(l), Dismissed(alert));
      } else {
        AfterListenerKeepsCore(Popped(l), alert);
      }
    }
  }

  /** The layer once the last frame is taken off; only a navigation's frame leaves `navigating` set. */
  lemma FrameTaken(l: Layer)
    requires Inv(l) && l.control != []
    ensures var rest := l.(control := l.control[..|l.control| - 1]);
            var frame := l.control[|l.control| - 1];
            && Core(rest)
            && (frame.Navigate? ==>
                  && l.navigating && l.transient.None?
                  && Available(rest, frame.navigation) && AvoidsAlert(rest, frame.navigation))
            && (!frame.Navigate? ==> !l.navigating)
            && ControlOk(rest.(navigating := false))
            && (frame.Dismissed? ==> l.transient != Some(frame.alert))
            && (!Rechecks(frame) ==> Attended(rest))
  {
    var frame := l.control[|l.control| - 1];
    var rest := l.(control := l.control[..|l.control| - 1]);
    assert forall f :: f in rest.control ==> f in l.control;
    assert frame in l.control;
    if !Rechecks(frame) && !Moves(l) {
      var f :| f in l.control && Rechecks(f);
      assert f in rest.control;
    }
  }

  lemma QuietControl(l: Layer, now: Layer)
    requires ControlOk(l) && !l.navigating && now.control == l.control && !now.navigating
    requires now.next >= l.next && (now.transient == l.transient || now.transient == None || now.transient == Some(l.next))
    ensures ControlOk(now)
  {
  }

  lemma ReturnKeepsInv(l: Layer)
    requires Inv(l) && l.control != []
    ensures Inv(Next(l, Return))
  {
    FrameTaken(l);
    var frame := l.control[|l.control| - 1];
    var rest := l.(control := l.control[..|l.control| - 1]);
    var now := Next(l, Return);
    match frame
    case Navigate(n) =>
      NavigatedKeepsCore(rest, n);
      QuietControl(rest.(navigating := false), now);
    case Closed =>
      StackChangedMoves(rest);
      QuietControl(rest, now);
    case BeginWait(cancel) =>
      StackChangedMoves(rest);
      BegunKeepsCore(StackChanged(rest), cancel);
      QuietControl(rest, now);
    case Dismissed(alert) =>
      AfterListenerKeepsCore(rest, alert);
      QuietControl(rest, now);
    case Nothing =>
  }

  lemma StepKeepsInv(l: Layer, s: Step)
    requires Inv(l) && Enabled(l, s)
    ensures Inv(Next(l, s))
  {
    match s
    case Create => QuietStep(l, Next(l, s));
    case Tick(ms) => QuietStep(l, Next(l, s));
    case Call(n) => NavigatingKeepsInv(l, n);
    case CallClose => CloseChoiceKeepsInv(l);
    case CallBegin(cancel) => WaitBeginKeepsInv(l, cancel);
    case CallEnd(done) => WaitEndKeepsInv(l, done);
    case Return => ReturnKeepsInv(l);
    case Timer => WaitStepKeepsInv(l);
    case BackKey => CancelKeepsInv(l);
    case DismissKey(alert, listener) => DismissKeepsInv(l, alert, listener);
  }

  lemma QuietStep(l: Layer, now: Layer)
    requires Inv(l)
    requires (now.now >= l.now && now == l.(now := now.now))
             || now == l.(alive := l.alive + {l.next}, next := l.next + 1)
    ensures Inv(now)
  {
  }

  lemma WaitEndKeepsInv(l: Layer, done: bool)
    requires Inv(l)
    ensures Inv(WaitEnd(l, done))
  {
  }

  lemma CancelKeepsInv(l: Layer)
    requires Inv(l) && l.control == []
    ensures Inv(CancelWait(l))
  {
    if l.wait.Some? && l.wait.value.cancel {
      var w := l.wait.value;
      var quiet := Record(l.(wait := Some(w.(cancel := false))), Cancelled(w.serial));
      assert Core(quiet);
      WithFrame(quiet, Nothing);
    }
  }

  // ---- Runs

  ghost predicate Possible(l: Layer, run: seq<Step>)
    decreases |run|
  {
    run == [] || (Enabled(l, run[0]) && Possible(Next(l, run[0]), run[1..]))
  }

  ghost function After(l: Layer, run: seq<Step>): Layer
    requires Possible(l, run)
    decreases |run|
  {
    if run == [] then l else After(Next(l, run[0]), run[1..])
  }

  const START := Layer([], None, false, false, {}, 0, None, 0, [], 0, [])

  lemma {:induction false} RunKeepsInv(l: Layer, run: seq<Step>)
    requires Inv(l) && Possible(l, run)
    ensures Inv(After(l, run))
    decreases |run|
  {
    if run != [] {
      StepKeepsInv(l, run[0]);
      RunKeepsInv(Next(l, run[0]), run[1..]);
    }
  }

  /** `done` runs at most once for a wait, on its origin, with no choice open. */
  lemma DoneRunsOnceOnTheOrigin(run: seq<Step>, i: nat)
    requires Possible(START, run) && i < |After(START, run).log| && After(START, run).log[i].Done?
    ensures var log := After(START, run).log;
            && log[i].top == Some(log[i].origin) && !log[i].choice
            && forall j :: 0 <= j < |log| && j != i && log[j].Done? ==> log[j].serial != log[i].serial
  {
    RunKeepsInv(START, run);
    var log := After(START, run).log;
    assert log[i] in log;
    forall j | 0 <= j < |log| && j != i && log[j].Done?
      ensures log[j].serial != log[i].serial
    {
      assert !Excludes(log[if i < j then i else j], log[if i < j then j else i]);
    }
  }

  /** `cancel` runs at most once for a wait, and never once the wait was ended or is done. */
  lemma CancelRunsOnceBeforeTheEnd(run: seq<Step>, i: nat, j: nat)
    requires Possible(START, run) && i < j < |After(START, run).log| && After(START, run).log[j].Cancelled?
    requires After(START, run).log[i].serial == After(START, run).log[j].serial
    ensures var e := After(START, run).log[i]; !e.Cancelled? && !e.Ended? && !e.Done?
  {
    RunKeepsInv(START, run);
    assert !Excludes(After(START, run).log[i], After(START, run).log[j]);
  }

  /**
   The alert appears only for a wait of at least half a second, and an alert that finishing removes
   has been shown for at least half a second, across any wrap of the tick counter.
   */
  lemma AlertsNeverFlash(run: seq<Step>, e: Event)
    requires Possible(START, run) && e in After(START, run).log
    ensures e.Shown? ==> e.at - e.begun >= ALERT_DELAY
    ensures e.Finished? && e.shown ==> e.at - e.since >= ALERT_MINIMUM
  {
    RunKeepsInv(START, run);
  }

  /**
   Between callbacks no wait is stuck: without a timer it is shown and its work goes on, or another
   screen or a choice covers it; and uncovering it starts the timer.
   */
  lemma NoWaitIsForgotten(run: seq<Step>)
    requires Possible(START, run) && After(START, run).control == []
    ensures var l := After(START, run);
            l.wait.Some? && l.wait.value.timer.None? ==>
              (l.wait.value.shown && !l.wait.value.ending) || !OnTop(l, l.wait.value)
  {
    RunKeepsInv(START, run);
  }

  /** A shown alert lies directly above its origin, and no screen is on the stack twice. */
  lemma ShownAlertLiesOnItsOrigin(run: seq<Step>)
    requires Possible(START, run)
    ensures var l := After(START, run);
            && Distinct(l.stack)
            && (l.wait.Some? && l.wait.value.shown ==> Above(l.stack, l.wait.value.origin, l.wait.value.alert))
  {
    RunKeepsInv(START, run);
  }
}
