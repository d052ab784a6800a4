/** How an uncovered wait goes on, from its begin to its end. */
module WaitCourse {
  import opened Basics
  import opened Words
  import opened WaitMachine
  import opened WaitLaws

  /** The timer's step is due, and nothing covers the wait. */
  ghost predicate Due(l: Layer) {
    Core(l) && Enabled(l, Timer) && OnTop(l, l.wait.value)
  }

  /** What the step must leave when the wait ends: its alert gone, its callback run on its origin. */
  ghost predicate Over(l: Layer, now: Layer)
    requires l.wait.Some? && l.stack != []
  {
    var w := l.wait.value;
    && now.wait.None? && now.alive == l.alive - {w.alert}
    && now.stack == (if w.shown then l.stack[..|l.stack| - 1] else l.stack) && Top(now) == Some(w.origin)
    && now.log == l.log + [Finished(w.serial, w.shown, w.shownTime, l.now)]
                  + (if w.done then [Done(w.serial, w.origin, Some(w.origin), false)] else [])
    && now.control == (if w.done then l.control + [Nothing] else l.control)
  }

  lemma FinishIsOver(l: Layer)
    requires Core(l) && l.wait.Some? && OnTop(l, l.wait.value)
    ensures Over(l, Finish(l))
  {
    var w := l.wait.value;
    TakingOffShowsTheOrigin(l);
    TopIsNotBelow(l.stack);
    if w.shown {
      AboveHasTwo(l.stack, w.origin, w.alert);
    }
    var log := l.log + [Finished(w.serial, w.shown, w.shownTime, l.now)];
    assert log + [] == log;
  }

  /** A wait whose work has ended is over, unless its alert is to be shown a while longer. */
  lemma EndedWaitGoesOn(l: Layer)
    requires Due(l) && l.wait.value.ending
    ensures var w, now := l.wait.value, Next(l, Timer);
      if w.shown && Elapsed(l.now, w.shownAt) < ALERT_MINIMUM
      then now == l.(wait := Some(w.(timer := Some(l.now + ALERT_MINIMUM - Elapsed(l.now, w.shownAt)))))
      else Over(l, now)
  {
    var w := l.wait.value;
    if !(w.shown && Elapsed(l.now, w.shownAt) < ALERT_MINIMUM) {
      FinishIsOver(l.(wait := Some(w.(timer := None))));
    }
  }

  /** A wait whose work goes on shows its alert over its origin, once its delay has passed. */
  lemma WorkingWaitGoesOn(l: Layer)
    requires Due(l) && !l.wait.value.ending
    ensures var w, now := l.wait.value, Next(l, Timer);
      if w.shown then now == l.(wait := Some(w.(timer := None)))
      else if Elapsed(l.now, w.begun) < ALERT_DELAY
      then now == l.(wait := Some(w.(timer := Some(l.now + ALERT_DELAY - Elapsed(l.now, w.begun)))))
      else
        && now.stack == l.stack + [w.alert] && now.alive == l.alive && now.control == l.control
        && now.wait == Some(w.(timer := None, shown := true, shownAt := l.now % WORD, shownTime := l.now))
        && now.log == l.log + [Shown(w.serial, w.begunTime, l.now)]
  {
  }

  // ---- Whole waits

  /** The event loop, with a screen, no choice and no wait. */
  ghost predicate Idle(l: Layer) {
    && Core(l) && l.control == [] && !l.navigating && l.transient.None? && l.wait.None? && l.stack != []
  }

  /** A wait that begins, and time that passes. */
  function Begin(l: Layer, cancel: bool, ms: nat): Layer {
    var begun := Next(l, CallBegin(cancel));
    Next(begun, Tick(ms))
  }

  /** The work ends, and the timer steps. */
  ghost function End(l: Layer, done: bool): Layer
    requires l.control == [] && l.wait.Some? && !l.wait.value.ending
  {
    Next(Next(l, CallEnd(done)), Timer)
  }

  lemma ElapsedIs(since: nat, ms: nat)
    ensures Elapsed(since + ms, since % WORD) == ms % WORD
  {
    assert ((since + ms) % WORD - since % WORD) % WORD == ms % WORD;
  }

  lemma BegunIsDue(l: Layer, cancel: bool, ms: nat)
    requires Idle(l)
    ensures var b := Begin(l, cancel, ms);
      && b == l.(wait := b.wait, alive := l.alive + {l.next}, next := l.next + 1, serials := l.serials + 1, now := l.now + ms)
      && b.wait == Some(Wait(l.stack[|l.stack| - 1], l.next, Some(l.now + ALERT_DELAY), l.now % WORD, 0,
                             false, false, cancel, false, l.serials, l.now, 0))
      && Core(b) && OnTop(b, b.wait.value) && (ms >= ALERT_DELAY ==> Due(b))
  {
    BegunKeepsCore(l, cancel);
  }

  /** Work that ends within the delay shows nothing: the wait is over at once. */
  lemma QuickWorkShowsNothing(l: Layer, cancel: bool, ms: nat, done: bool)
    requires Idle(l)
    ensures var e := End(Begin(l, cancel, ms), done);
      && e.stack == l.stack && e.alive == l.alive && e.wait.None? && e.control == (if done then [Nothing] else [])
      && e.log == l.log + [Ended(l.serials), Finished(l.serials, false, 0, l.now + ms)]
                  + (if done then [Done(l.serials, l.stack[|l.stack| - 1], Top(l), false)] else [])
  {
    BegunIsDue(l, cancel, ms);
    var b := Begin(l, cancel, ms);
    var ended := Next(b, CallEnd(done));
    WaitEndKeepsCore(b, done);
    EndedWaitGoesOn(ended);
    assert l.next !in l.alive;
    assert l.alive + {l.next} - {l.next} == l.alive;
    assert l.log + [Ended(l.serials)] + [Finished(l.serials, false, 0, l.now + ms)]
        == l.log + [Ended(l.serials), Finished(l.serials, false, 0, l.now + ms)];
    assert [] + [Nothing] == [Nothing];
  }

  lemma WaitEndKeepsCore(l: Layer, done: bool)
    requires Core(l) && l.wait.Some? && !l.wait.value.ending
    ensures Core(WaitEnd(l, done))
  {
    var w := l.wait.value;
    assert forall i :: 0 <= i < |l.log| ==> !Excludes(l.log[i], Ended(w.serial)) by {
      forall i | 0 <= i < |l.log| ensures !Excludes(l.log[i], Ended(w.serial)) { assert l.log[i] in l.log; }
    }
  }

  /** The alert as it is shown after the delay, over work that goes on. */
  lemma DelayShowsTheAlert(l: Layer, cancel: bool)
    requires Idle(l)
    ensures var s := Next(Begin(l, cancel, ALERT_DELAY), Timer);
      && s.stack == l.stack + [l.next] && s.alive == l.alive + {l.next} && s.control == []
      && s.log == l.log + [Shown(l.serials, l.now, l.now + ALERT_DELAY)]
      && s.now == l.now + ALERT_DELAY && s.serials == l.serials + 1
      && s.wait == Some(Wait(l.stack[|l.stack| - 1], l.next, None, l.now % WORD, s.now % WORD, true,
                             false, cancel, false, l.serials, l.now, s.now))
      && Core(s) && OnTop(s, s.wait.value)
  {
    BegunIsDue(l, cancel, ALERT_DELAY);
    var b := Begin(l, cancel, ALERT_DELAY);
    ElapsedIs(l.now, ALERT_DELAY);
    WorkingWaitGoesOn(b);
    ShowAlertKeepsCore(b.(wait := Some(b.wait.value.(timer := None))));
  }

  /** What is left of a slow wait when it is over. */
  ghost predicate SlowIsOver(l: Layer, now: Layer, shownAt: nat, done: bool)
    requires l.stack != []
  {
    && now.stack == l.stack && now.alive == l.alive && now.wait.None?
    && now.log == l.log + [Shown(l.serials, l.now, shownAt), Ended(l.serials), Finished(l.serials, true, shownAt, now.now)]
                  + (if done then [Done(l.serials, l.stack[|l.stack| - 1], Top(l), false)] else [])
  }

  /** The wait of slow work: shown since a time, ended, and its timer due. */
  ghost predicate SlowAndEnded(l: Layer, e: Layer, shownAt: nat, done: bool)
    requires l.stack != []
  {
    && e.stack == l.stack + [l.next] && e.alive == l.alive + {l.next} && Due(e) && e.control == []
    && e.log == l.log + [Shown(l.serials, l.now, shownAt), Ended(l.serials)]
    && var w := e.wait.value;
       && w.origin == l.stack[|l.stack| - 1] && w.alert == l.next && w.serial == l.serials && w.done == done
       && w.shown && w.ending && w.shownTime == shownAt && w.shownAt == shownAt % WORD
  }

  lemma SlowWorkEnds(l: Layer, cancel: bool, ms: nat, done: bool)
    requires Idle(l)
    ensures var s := Next(Begin(l, cancel, ALERT_DELAY), Timer);
      var e := Next(Next(s, Tick(ms)), CallEnd(done));
      SlowAndEnded(l, e, l.now + ALERT_DELAY, done) && e.now == l.now + ALERT_DELAY + ms
  {
    DelayShowsTheAlert(l, cancel);
    var t := Next(Next(Begin(l, cancel, ALERT_DELAY), Timer), Tick(ms));
    WaitEndKeepsCore(t, done);
  }

  lemma SlowFinishes(l: Layer, e: Layer, shownAt: nat, done: bool)
    requires Idle(l) && SlowAndEnded(l, e, shownAt, done) && Elapsed(e.now, e.wait.value.shownAt) >= ALERT_MINIMUM
    ensures SlowIsOver(l, Next(e, Timer), shownAt, done)
  {
    EndedWaitGoesOn(e);
    var w, log := e.wait.value, [Shown(l.serials, l.now, shownAt), Ended(l.serials)];
    assert e.stack[..|e.stack| - 1] == l.stack && e.alive - {l.next} == l.alive;
    assert l.log + log + [Finished(w.serial, true, shownAt, e.now)]
        == l.log + [Shown(l.serials, l.now, shownAt), Ended(l.serials), Finished(w.serial, true, shownAt, e.now)];
  }

  /** Some time later the same wait is still shown, and its timer due. */
  lemma SlowWaits(l: Layer, e: Layer, shownAt: nat, done: bool, left: nat)
    requires Idle(l) && SlowAndEnded(l, e, shownAt, done) && e.now >= shownAt
    requires Elapsed(e.now, e.wait.value.shownAt) < ALERT_MINIMUM && left == ALERT_MINIMUM - Elapsed(e.now, e.wait.value.shownAt)
    ensures var stepped := Next(e, Timer);
      && stepped == e.(wait := Some(e.wait.value.(timer := Some(e.now + left))))
      && SlowAndEnded(l, Next(stepped, Tick(left)), shownAt, done)
      && Elapsed(e.now + left, e.wait.value.shownAt) == ALERT_MINIMUM
  {
    EndedWaitGoesOn(e);
    ElapsedIs(shownAt, e.now - shownAt);
    ElapsedIs(shownAt, e.now - shownAt + left);
    ThenItIsEnough(e.now - shownAt);
  }

  lemma ThenItIsEnough(ms: nat)
    requires ms % WORD < ALERT_MINIMUM
    ensures (ms + (ALERT_MINIMUM - ms % WORD)) % WORD == ALERT_MINIMUM
  {
  }

  /** How a slow wait comes to its end: at once, or when its alert has been shown for its time. */
  ghost predicate SlowEnding(l: Layer, e: Layer, shownAt: nat, left: int, done: bool)
    requires l.stack != []
  {
    Enabled(e, Timer) &&
    var stepped := Next(e, Timer);
    if left <= 0 then SlowIsOver(l, stepped, shownAt, done)
    else
      && stepped.wait.Some? && stepped.wait.value.timer == Some(e.now + left) && stepped.stack == e.stack
      && var later := Next(stepped, Tick(left));
         Enabled(later, Timer) && SlowIsOver(l, Next(later, Timer), shownAt, done)
  }

  lemma SlowComesToItsEnd(l: Layer, e: Layer, shownAt: nat, done: bool, left: int)
    requires Idle(l) && SlowAndEnded(l, e, shownAt, done) && e.now >= shownAt
    requires left == ALERT_MINIMUM - Elapsed(e.now, e.wait.value.shownAt)
    ensures SlowEnding(l, e, shownAt, left, done)
  {
    if left <= 0 {
      SlowFinishes(l, e, shownAt, done);
    } else {
      SlowWaits(l, e, shownAt, done, left);
      SlowFinishes(l, Next(Next(e, Timer), Tick(left)), shownAt, done);
    }
  }

  lemma SlowComesFrom(l: Layer, e: Layer, ms: nat, done: bool)
    requires Idle(l) && SlowAndEnded(l, e, l.now + ALERT_DELAY, done) && e.now == l.now + ALERT_DELAY + ms
    ensures SlowEnding(l, e, l.now + ALERT_DELAY, ALERT_MINIMUM - ms % WORD, done)
  {
    ElapsedIs(l.now + ALERT_DELAY, ms);
    SlowComesToItsEnd(l, e, l.now + ALERT_DELAY, done, ALERT_MINIMUM - ms % WORD);
  }

  /** From the idle event loop to the end of work that outlasts the delay by some time. */
  ghost function Slow(l: Layer, cancel: bool, ms: nat, done: bool): Layer
    requires Idle(l)
  {
    DelayShowsTheAlert(l, cancel);
    Next(Next(Next(Begin(l, cancel, ALERT_DELAY), Timer), Tick(ms)), CallEnd(done))
  }

  /**
   Work that takes longer shows the alert after the delay. When the work ends, the alert goes at once
   if it has been shown long enough, and otherwise when it has; then the wait is over.
   */
  lemma SlowWorkShowsTheAlert(l: Layer, cancel: bool, ms: nat, done: bool)
    requires Idle(l)
    ensures SlowEnding(l, Slow(l, cancel, ms, done), l.now + ALERT_DELAY, ALERT_MINIMUM - ms % WORD, done)
  {
    SlowWorkEnds(l, cancel, ms, done);
    SlowComesFrom(l, Slow(l, cancel, ms, done), ms, done);
  }
}
