/** What a navigation does to the stack, to the screens and to a wait, place by place. */
module NavigationLaws {
  import opened Basics
  import opened WaitMachine
  import opened WaitLaws

  // ---- What each navigation promises

  /** The places of the stack before and after a navigation, from the bottom. */
  predicate Turns(was: seq<nat>, n: Navigation, now: seq<nat>) {
    match n
    case Push(screen) =>
      |now| == |was| + 1 && now[|was|] == screen && forall i :: 0 <= i < |was| ==> now[i] == was[i]
    case Pop =>
      |now| + 1 == |was| && forall i :: 0 <= i < |now| ==> now[i] == was[i]
    case Replace(screen) =>
      if was == [] then now == [screen]
      else
        |now| == |was| && now[|was| - 1] == screen && forall i :: 0 <= i < |was| - 1 ==> now[i] == was[i]
    case PopTo(target) =>
      0 < |now| <= |was| && now[|now| - 1] == target && forall i :: 0 <= i < |now| ==> now[i] == was[i]
    case Choose(_) => now == was
  }

  /** The screens that left the stack. */
  function Off(was: seq<nat>, now: seq<nat>): set<nat> {
    set s | s in was && s !in now
  }

  /** A wait does not outlive its origin or its alert. */
  predicate Drops(l: Layer, gone: set<nat>) {
    l.wait.Some? && (l.wait.value.origin in gone || l.wait.value.alert in gone)
  }

  /** Exactly these screens are deleted, and with a wait that goes also its alert. */
  predicate Deletes(l: Layer, now: Layer, gone: set<nat>, made: set<nat>) {
    && now.alive == l.alive + made - gone - (if Drops(l, gone) then {l.wait.value.alert} else {})
    && (if Drops(l, gone) || l.wait.None? then now.wait == None
        else now.wait.Some? && now.wait.value == l.wait.value.(timer := now.wait.value.timer))
  }

  /** A navigation from one layer to another, which also closes the choices named. */
  predicate Navigates(l: Layer, n: Navigation, now: Layer, closed: set<nat>) {
    && Turns(l.stack, n, now.stack)
    && Deletes(l, now, Off(l.stack, now.stack) + closed, if n.Choose? then {l.next} else {})
    && (if n.Choose? then now.transient == Some(l.next) && now.onClose == n.callback && now.next == l.next + 1
        else now.transient == None && now.next == l.next)
    && !now.navigating && now.log == l.log && now.now == l.now && now.serials == l.serials
  }

  // ---- One screen off the stack

  /** Deleting a screen that is off the stack; a wait over it has no alert left on the stack. */
  lemma DeletingMeans(l: Layer, screen: nat)
    requires l.wait.Some? && l.wait.value.origin == screen ==> l.wait.value.alert !in l.stack
    ensures Deletes(l, Deleted(l, screen), {screen}, {})
    ensures Deleted(l, screen) == l.(alive := Deleted(l, screen).alive, wait := Deleted(l, screen).wait)
  {
  }

  lemma OriginOnTopIsBare(l: Layer, rest: seq<nat>, top: nat)
    requires Core(l) && l.stack == rest + [top]
    ensures l.wait.Some? && l.wait.value.origin == top ==> l.wait.value.alert !in rest
  {
    if l.wait.Some? && l.wait.value.shown {
      AboveWithoutTop(l.stack, l.wait.value.origin, l.wait.value.alert);
    }
  }

  lemma OffTop(rest: seq<nat>, top: nat)
    requires Distinct(rest + [top])
    ensures Off(rest + [top], rest) == {top} && top !in rest
  {
    var all := rest + [top];
    forall i | 0 <= i < |rest| ensures rest[i] != top { assert all[i] != all[|rest|]; }
  }

  lemma PopMeans(l: Layer)
    requires Core(l) && l.stack != []
    ensures var top := l.stack[|l.stack| - 1];
            var now := Deleted(Popped(l), top);
            && now.stack == l.stack[..|l.stack| - 1] && Off(l.stack, now.stack) == {top}
            && Deletes(l, now, {top}, {}) && now == l.(stack := now.stack, alive := now.alive, wait := now.wait)
  {
    var top, rest := l.stack[|l.stack| - 1], l.stack[..|l.stack| - 1];
    assert l.stack == rest + [top];
    OffTop(rest, top);
    OriginOnTopIsBare(l, rest, top);
    DeletingMeans(Popped(l), top);
  }

  lemma DeletionsAdd(l: Layer, mid: Layer, now: Layer, a: set<nat>, b: set<nat>)
    requires Deletes(l, mid, a, {}) && Deletes(mid, now, b, {})
    ensures Deletes(l, now, a + b, {})
  {
  }

  /** Going back to a target takes off exactly the screens above it. */
  lemma {:induction false} PopToMeans(l: Layer, target: nat)
    requires Core(l) && target in l.stack
    ensures var now := PoppedTo(l, target);
            && Turns(l.stack, PopTo(target), now.stack) && Deletes(l, now, Off(l.stack, now.stack), {})
            && now == l.(stack := now.stack, alive := now.alive, wait := now.wait)
    decreases |l.stack|
  {
    var top := l.stack[|l.stack| - 1];
    if top == target {
      assert Off(l.stack, l.stack) == {};
    } else {
      PopMeans(l);
      PopKeepsCore(l);
      var mid := Deleted(Popped(l), top);
      assert l.stack == mid.stack + [top];
      PopToMeans(mid, target);
      var now := PoppedTo(l, target);
      DeletionsAdd(l, mid, now, {top}, Off(mid.stack, now.stack));
      OffMore(mid.stack, top, now.stack);
    }
  }

  lemma OffMore(rest: seq<nat>, top: nat, now: seq<nat>)
    requires top !in rest && |now| <= |rest| && forall i :: 0 <= i < |now| ==> now[i] == rest[i]
    ensures Off(rest + [top], now) == {top} + Off(rest, now)
  {
  }

  lemma ReplaceMeans(l: Layer, screen: nat)
    requires Core(l) && l.stack != [] && screen !in l.stack
    requires l.wait.Some? ==> screen != l.wait.value.alert
    ensures var top := l.stack[|l.stack| - 1];
            var now := Deleted(Pushed(Popped(l), screen), top);
            && Turns(l.stack, Replace(screen), now.stack) && Off(l.stack, now.stack) == {top}
            && Deletes(l, now, {top}, {}) && now == l.(stack := now.stack, alive := now.alive, wait := now.wait)
  {
    var top, rest := l.stack[|l.stack| - 1], l.stack[..|l.stack| - 1];
    assert l.stack == rest + [top];
    OffTop(rest, top);
    OffReplaced(rest, top, screen);
    OriginOnTopIsBare(l, rest, top);
    DeletingMeans(Pushed(Popped(l), screen), top);
  }

  lemma OffReplaced(rest: seq<nat>, top: nat, screen: nat)
    requires top !in rest && screen != top
    ensures Off(rest + [top], rest + [screen]) == {top}
  {
  }

  lemma ChangeMeans(l: Layer, n: Navigation)
    requires Core(l) && Available(l, n) && AvoidsAlert(l, n) && l.transient.None?
    ensures Navigates(l, n, Changed(l, n).(navigating := false), {})
  {
    match n
    case Push(screen) => StackOnly(l, n, Pushed(l, screen), {});
    case Replace(screen) =>
      if l.stack == [] { StackOnly(l, n, Pushed(l, screen), {}); } else { ReplacingMeans(l, screen); }
    case Pop => PoppingMeans(l);
    case PopTo(target) => PopToMeans(l, target); StackOnly(l, n, PoppedTo(l, target), Off(l.stack, PoppedTo(l, target).stack));
    case Choose(_) => ChoosingMeans(l, n);
  }

  lemma ReplacingMeans(l: Layer, screen: nat)
    requires Core(l) && l.stack != [] && screen !in l.stack && l.transient.None?
    requires l.wait.Some? ==> screen != l.wait.value.alert
    ensures Navigates(l, Replace(screen), Changed(l, Replace(screen)).(navigating := false), {})
  {
    ReplaceMeans(l, screen);
    StackOnly(l, Replace(screen), Changed(l, Replace(screen)), {l.stack[|l.stack| - 1]});
  }

  lemma PoppingMeans(l: Layer)
    requires Core(l) && l.stack != [] && l.transient.None?
    ensures Navigates(l, Pop, Changed(l, Pop).(navigating := false), {})
  {
    PopMeans(l);
    StackOnly(l, Pop, Changed(l, Pop), {l.stack[|l.stack| - 1]});
  }

  lemma StackOnly(l: Layer, n: Navigation, now: Layer, gone: set<nat>)
    requires !n.Choose? && l.transient.None? && Turns(l.stack, n, now.stack) && Off(l.stack, now.stack) == gone
    requires Deletes(l, now, gone, {}) && now == l.(stack := now.stack, alive := now.alive, wait := now.wait)
    ensures Navigates(l, n, now.(navigating := false), {})
  {
    assert Off(l.stack, now.stack) + {} == gone;
  }

  lemma ChoosingMeans(l: Layer, n: Navigation)
    requires n.Choose? && l.transient.None?
    ensures Navigates(l, n, Changed(l, n).(navigating := false), {})
  {
    assert Off(l.stack, l.stack) + {} == {};
  }

  // ---- The steps of the application

  /** A wait's timer apart, looking again changes nothing. */
  lemma LookingAgain(l: Layer, n: Navigation, now: Layer, closed: set<nat>)
    requires Navigates(l, n, now, closed)
    ensures Navigates(l, n, StackChanged(now), closed)
  {
  }

  /** An open choice is deleted first. */
  lemma ChoiceMeans(l: Layer, frame: Frame)
    requires Core(l) && l.transient.Some?
    ensures var now := Choiceless(l, frame);
            && Deletes(l, now, {l.transient.value}, {}) && now.transient.None?
            && now == l.(transient := None, onClose := false, alive := now.alive, wait := now.wait, control := now.control)
  {
  }

  lemma ClosedThenNavigates(l: Layer, mid: Layer, n: Navigation, now: Layer, choice: nat)
    requires Deletes(l, mid, {choice}, {}) && Navigates(mid, n, now, {})
    requires mid.stack == l.stack && mid.next == l.next && mid.log == l.log && mid.now == l.now && mid.serials == l.serials
    requires choice < l.next && (l.wait.Some? ==> l.wait.value.alert < l.next)
    ensures Navigates(l, n, now, {choice})
  {
    var off, made := Off(l.stack, now.stack), if n.Choose? then {l.next} else {};
    assert off + {} == off && off + {choice} == {choice} + off;
    DeletionsAndMade(l, mid, now, {choice}, off, made);
  }

  lemma DeletionsAndMade(l: Layer, mid: Layer, now: Layer, a: set<nat>, b: set<nat>, made: set<nat>)
    requires Deletes(l, mid, a, {}) && Deletes(mid, now, b, made)
    requires made !! a && (l.wait.Some? ==> l.wait.value.alert !in made)
    ensures Deletes(l, now, a + b, made)
  {
  }

  /**
   Every call of a navigation: it is refused and changes nothing; or an open choice's callback runs
   first, the choice being gone and the stack as it was; or it is done, place by place.
   */
  lemma NavigationMeans(l: Layer, n: Navigation)
    requires Inv(l) && Enabled(l, Call(n))
    ensures var now := Next(l, Call(n));
            if l.navigating || !Available(l, n) then now == l
            else if l.transient.Some? && l.onClose then
              && now.stack == l.stack && now.navigating && now.control == l.control + [Navigate(n)]
              && Deletes(l, now, {l.transient.value}, {}) && now.transient.None? && now.log == l.log
            else
              && Navigates(l, n, now, if l.transient.Some? then {l.transient.value} else {})
              && now.control == l.control
  {
    if !l.navigating && Available(l, n) {
      if l.transient.Some? && l.onClose {
        ChoiceMeans(l.(navigating := true), Navigate(n));
      } else {
        StraightNavigationMeans(l, n);
      }
    }
  }

  lemma StraightNavigationMeans(l: Layer, n: Navigation)
    requires Inv(l) && Available(l, n) && AvoidsAlert(l, n) && !l.navigating && (l.transient.None? || !l.onClose)
    ensures var now := Navigated(Choiceless(l.(navigating := true), Navigate(n)), n);
            && Navigates(l, n, now, if l.transient.Some? then {l.transient.value} else {})
            && now.control == l.control
  {
    var begun := l.(navigating := true);
    ChoicelessKeepsCore(begun, Navigate(n));
    var mid := Choiceless(begun, Navigate(n));
    StraightFrom(begun, mid, n);
    if l.transient.Some? {
      ChoiceMeans(begun, Navigate(n));
      ClosedThenNavigates(begun, mid, n, Navigated(mid, n), l.transient.value);
    }
  }

  lemma StraightFrom(begun: Layer, mid: Layer, n: Navigation)
    requires Core(mid) && mid.transient.None? && mid.stack == begun.stack && mid.control == begun.control
    requires Available(mid, n) && AvoidsAlert(mid, n)
    ensures Navigates(mid, n, Navigated(mid, n), {}) && Navigated(mid, n).control == begun.control
  {
    NavigatedMeans(mid, n);
    NavigatedKeepsCore(mid, n);
  }

  lemma NavigatedMeans(l: Layer, n: Navigation)
    requires Core(l) && Available(l, n) && AvoidsAlert(l, n) && l.transient.None?
    ensures Navigates(l, n, Navigated(l, n), {})
  {
    ChangeMeans(l, n);
    LookingAgain(l, n, Changed(l, n).(navigating := false), {});
  }

  /** When the choice's callback returns, the navigation that waited for it is done. */
  lemma WaitingNavigationMeans(l: Layer)
    requires Inv(l) && l.navigating
    ensures Enabled(l, Return) && l.control[|l.control| - 1].Navigate?
    ensures Navigates(l, l.control[|l.control| - 1].navigation, Next(l, Return), {})
  {
    var n := l.control[|l.control| - 1].navigation;
    NavigatedMeans(l.(control := l.control[..|l.control| - 1]), n);
  }

  /** Going back right after a push restores the stack and deletes the pushed screen. */
  lemma PopUndoesPush(l: Layer, screen: nat)
    requires Inv(l) && !l.navigating && l.transient.None? && l.stack != []
    requires Enabled(l, Call(Push(screen))) && Available(l, Push(screen))
    ensures var pushed := Next(l, Call(Push(screen)));
            Enabled(pushed, Call(Pop)) &&
            var now := Next(pushed, Call(Pop));
            && now.stack == l.stack && now.transient.None? && screen !in now.alive
            && (!Drops(l, {screen}) ==> now.alive == l.alive - {screen})
  {
    PushAllowsPop(l, screen);
    var pushed := Next(l, Call(Push(screen)));
    NavigationMeans(pushed, Pop);
    PushedThenPopped(l, screen, pushed, Next(pushed, Call(Pop)));
  }

  lemma PushAllowsPop(l: Layer, screen: nat)
    requires Inv(l) && !l.navigating && l.transient.None? && l.stack != []
    requires Enabled(l, Call(Push(screen))) && Available(l, Push(screen))
    ensures var pushed := Next(l, Call(Push(screen)));
            && Inv(pushed) && Navigates(l, Push(screen), pushed, {}) && Enabled(pushed, Call(Pop)) && Available(pushed, Pop)
  {
    NavigationMeans(l, Push(screen));
    StepKeepsInv(l, Call(Push(screen)));
  }

  lemma PushedThenPopped(l: Layer, screen: nat, mid: Layer, now: Layer)
    requires screen !in l.stack && Navigates(l, Push(screen), mid, {}) && Navigates(mid, Pop, now, {})
    ensures now.stack == l.stack && now.transient.None? && screen !in now.alive
    ensures !Drops(l, {screen}) ==> now.alive == l.alive - {screen}
  {
    assert mid.stack == l.stack + [screen];
    assert now.stack == l.stack;
    PushThenPop(l.stack, screen, mid.stack, now.stack);
    assert Off(mid.stack, now.stack) + {} == {screen} && Off(l.stack, mid.stack) + {} == {};
    DeletionsOfPushThenPop(l, screen, mid, now);
  }

  lemma PushThenPop(was: seq<nat>, screen: nat, mid: seq<nat>, now: seq<nat>)
    requires screen !in was && Turns(was, Push(screen), mid) && Turns(mid, Pop, now)
    ensures now == was && Off(was, mid) == {} && Off(mid, now) == {screen}
  {
    assert mid == was + [screen];
  }

  lemma DeletionsOfPushThenPop(l: Layer, screen: nat, mid: Layer, now: Layer)
    requires Deletes(l, mid, {}, {}) && Deletes(mid, now, {screen}, {})
    ensures screen !in now.alive && (!Drops(l, {screen}) ==> now.alive == l.alive - {screen})
  {
  }
}
