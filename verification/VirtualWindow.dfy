/**
 The window of a virtual list: a pool of at most `SLOTS_MAX` slots stands in for a list of any
 length. Rows lie below each other, `pitch` apart; a pooled row `r` is shown by slot `r % slots`.
 */
module VirtualWindow {
  import opened Arithmetic
  import opened IndexRules

  const SLOTS_MAX: nat := 16
  const COORD_MAX: int := 0x7FFF_FFFF

  /** The value of the window's fields; `bound[s]` is the row slot `s` shows, NONE for no row. */
  datatype Window = Window(
    count: nat, pitch: int, view: int, focus: nat, top: int,
    slots: nat, first: nat, bound: seq<nat>)

  /** A window and the slots, in ascending order, that the caller has to fill again. */
  datatype Update = Update(window: Window, rebind: seq<nat>)

  // ---- Scrolling

  function TopMax(w: Window): int {
    var over := w.count * w.pitch - w.view;
    if over > 0 then over else 0
  }

  function Clamp(x: int, high: int): int {
    if x < 0 then 0 else if x > high then high else x
  }

  /** The offset after the least scroll from `top` that shows the row at `row` wholly. */
  function Revealed(top: int, row: int, pitch: int, view: int): int {
    if row < top then row
    else if row + pitch > top + view then row + pitch - view
    else top
  }

  function ShowFocus(w: Window, target: int): Window {
    var top := Clamp(target, TopMax(w));
    w.(top := if w.focus == NONE then top else Revealed(top, w.focus * w.pitch, w.pitch, w.view))
  }

  function FocusOffset(w: Window): int {
    if w.focus == NONE then 0 else w.focus * w.pitch - w.top
  }

  function KeepFocus(w: Window, offset: int): Window {
    if w.focus == NONE then ShowFocus(w, 0) else ShowFocus(w, w.focus * w.pitch - offset)
  }

  // ---- The pool

  /** How many rows a view can touch, were the pool unlimited. */
  function RawSlots(pitch: int, view: int): nat
    requires pitch >= 1
  {
    if view > 0 then 1 + (view + pitch - 2) / pitch else 1
  }

  function PoolSize(w: Window): nat
    requires w.pitch >= 1
  {
    var capped := if RawSlots(w.pitch, w.view) > SLOTS_MAX then SLOTS_MAX else RawSlots(w.pitch, w.view);
    if capped < w.count then capped else w.count
  }

  function SlotRow(first: nat, slots: nat, slot: nat): nat
    requires slot < slots
  {
    first + (slot + slots - first % slots) % slots
  }

  function Bindings(first: nat, slots: nat): seq<nat> {
    seq(SLOTS_MAX, s requires 0 <= s => if s < slots then SlotRow(first, slots, s) else NONE)
  }

  function Rebound(w: Window): Window
    requires w.pitch >= 1 && w.top >= 0
  {
    var slots := PoolSize(w);
    var first := if w.top / w.pitch > w.count - slots then w.count - slots else w.top / w.pitch;
    w.(slots := slots, first := first, bound := Bindings(first, slots))
  }

  /** Slot `s` shows another row now, or its row is one of dirty .. dirty + changed - 1. */
  predicate NeedsFill(was: seq<nat>, now: seq<nat>, dirty: nat, changed: nat, s: nat)
    requires s < |was| && s < |now|
  {
    now[s] != was[s] || (now[s] != NONE && now[s] >= dirty && now[s] - dirty < changed)
  }

  /** The slots below `n` to fill again: ascending, all of them and no other. */
  function RebindList(was: seq<nat>, now: seq<nat>, dirty: nat, changed: nat, n: nat): (list: seq<nat>)
    requires n <= |was| && n <= |now|
    ensures forall s :: s in list <==> 0 <= s < n && NeedsFill(was, now, dirty, changed, s)
    ensures forall i, j :: 0 <= i < j < |list| ==> list[i] < list[j]
  {
    if n == 0 then []
    else
      var before := RebindList(was, now, dirty, changed, n - 1);
      assert forall i :: 0 <= i < |before| ==> before[i] in before;
      if NeedsFill(was, now, dirty, changed, n - 1) then before + [n - 1] else before
  }

  function Bind(w: Window, dirty: nat, changed: nat): Update
    requires w.pitch >= 1 && w.top >= 0 && |w.bound| == SLOTS_MAX
  {
    var after := Rebound(w);
    Update(after, RebindList(w.bound, after.bound, dirty, changed, SLOTS_MAX))
  }

  // ---- Operations

  predicate Shape(w: Window) {
    && w.pitch >= 1 && w.view >= 0 && w.top >= 0 && |w.bound| == SLOTS_MAX
    && (if w.count == 0 then w.focus == NONE else w.focus < w.count)
    && w.count < NONE
  }

  function AtLeast(x: int, least: int): int {
    if x > least then x else least
  }

  function Init(count: nat, pitch: int, view: int): Update
  {
    Bind(Window(count, AtLeast(pitch, 1), AtLeast(view, 0), if count > 0 then 0 else NONE, 0,
                0, 0, seq(SLOTS_MAX, _ => NONE)), 0, 0)
  }

  lemma ShowFocusKeepsTopNonNegative(w: Window, target: int)
    requires w.pitch >= 1
    ensures ShowFocus(w, target).top >= 0
  {
    assert w.focus * w.pitch >= 0;
  }

  function SetFocus(w: Window, focus: nat): Update
    requires Shape(w)
  {
    if focus >= w.count then Update(w, [])
    else
      var moved := w.(focus := focus);
      ShowFocusKeepsTopNonNegative(moved, w.top);
      Bind(ShowFocus(moved, w.top), 0, 0)
  }

  function SetTop(w: Window, row: nat): Update
    requires Shape(w)
  {
    if w.count == 0 then Update(w, [])
    else
      var at := if row >= w.count then w.count - 1 else row;
      ShowFocusKeepsTopNonNegative(w, at * w.pitch);
      Bind(ShowFocus(w, at * w.pitch), 0, 0)
  }

  function Grown(w: Window, at: nat, count: nat): Window {
    w.(count := w.count + count,
       focus := if w.focus == NONE then 0 else Inserted(w.focus, at, count))
  }

  function Shrunk(w: Window, at: nat, count: nat): Window
    requires at < w.count
  {
    var gone := if count > w.count - at then w.count - at else count;
    w.(count := w.count - gone, focus := FocusDeleted(w.focus, at, gone, w.count))
  }

  function Sized(w: Window, pitch: int, view: int): Window {
    w.(pitch := AtLeast(pitch, 1), view := AtLeast(view, 0))
  }

  /** The window `now`, scrolled so that the focus keeps the place in the view that it had in `w`. */
  function Refocused(w: Window, now: Window, dirty: nat, changed: nat): Update
    requires now.pitch >= 1 && |now.bound| == SLOTS_MAX
  {
    ShowFocusKeepsTopNonNegative(now, 0);
    ShowFocusKeepsTopNonNegative(now, now.focus * now.pitch - FocusOffset(w));
    Bind(KeepFocus(now, FocusOffset(w)), dirty, changed)
  }

  function RowsInserted(w: Window, at: nat, count: nat): Update
    requires Shape(w)
  {
    if count == 0 || at > w.count then Update(w, [])
    else Refocused(w, Grown(w, at, count), at, NONE)
  }

  function RowsDeleted(w: Window, at: nat, count: nat): Update
    requires Shape(w)
  {
    if count == 0 || at >= w.count then Update(w, [])
    else Refocused(w, Shrunk(w, at, count), at, NONE)
  }

  function Invalidate(w: Window, first: nat, count: nat): Update
    requires Shape(w)
  {
    Bind(w, first, count)
  }

  function Resize(w: Window, pitch: int, view: int): Update
    requires Shape(w)
  {
    Refocused(w, Sized(w, pitch, view), 0, if AtLeast(pitch, 1) != w.pitch then NONE else 0)
  }
}
