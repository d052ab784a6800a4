/** What the virtual window promises: layout, visibility, coverage and the cost of one step. */
module VirtualWindowLaws {
  import opened Arithmetic
  import opened IndexRules
  import opened VirtualWindow

  // ---- The invariant of every reachable window

  /** Whether row `r` lies wholly inside the view. */
  predicate WhollyVisible(w: Window, r: nat) {
    w.top <= r * w.pitch && r * w.pitch + w.pitch <= w.top + w.view
  }

  /**
   The scroll offset: inside the content, and showing the focused row wholly. A row taller than the
   view cannot be; then the view lies at its top or at its bottom.
   */
  predicate Scrolled(w: Window) {
    && 0 <= w.top <= TopMax(w)
    && (w.count > 0 ==>
          if w.pitch <= w.view then WhollyVisible(w, w.focus)
          else w.top == w.focus * w.pitch || w.top == w.focus * w.pitch + w.pitch - w.view)
  }

  /** The pool: consecutive rows, each in the slot given by its remainder, the other slots empty. */
  ghost predicate Laid(w: Window)
    requires Shape(w)
  {
    && w.slots == PoolSize(w)
    && w.first + w.slots <= w.count
    && w.first == (if w.top / w.pitch > w.count - w.slots then w.count - w.slots else w.top / w.pitch)
    && w.bound == Bindings(w.first, w.slots)
  }

  ghost predicate Inv(w: Window) {
    Shape(w) && Scrolled(w) && Laid(w)
  }

  // ---- Slots

  lemma SlotRowIsTheRowOfTheSlot(first: nat, slots: nat, slot: nat)
    requires slot < slots
    ensures first <= SlotRow(first, slots, slot) < first + slots
    ensures SlotRow(first, slots, slot) % slots == slot
  {
    var q, m := first / slots, first % slots;
    assert first == q * slots + m;
    if slot >= m {
      QuotientUnique(slot + slots - m, slots, 1);
      QuotientUnique(SlotRow(first, slots, slot), slots, q);
    } else {
      QuotientUnique(slot + slots - m, slots, 0);
      assert (q + 1) * slots == q * slots + slots;
      QuotientUnique(SlotRow(first, slots, slot), slots, q + 1);
    }
  }

  lemma RowsOfOneSlotDifferBySlots(a: nat, b: nat, slots: nat)
    requires 0 < slots && a % slots == b % slots && a < b
    ensures a + slots <= b
  {
    QuotientBounds(a, slots);
    QuotientBounds(b, slots);
    QuotientMonotone(a, b, slots);
    if a / slots < b / slots { MulLess(a / slots, b / slots, slots); }
  }

  /** The bound rows are exactly first .. first + slots - 1, row `r` in slot `r % slots`. */
  lemma PoolHoldsConsecutiveRows(w: Window, r: nat)
    requires Shape(w) && Laid(w) && w.first <= r < w.first + w.slots
    ensures r % w.slots < w.slots <= SLOTS_MAX && w.bound[r % w.slots] == r
    ensures forall s :: 0 <= s < SLOTS_MAX && w.bound[s] == r ==> s == r % w.slots
  {
    var s := r % w.slots;
    SlotRowIsTheRowOfTheSlot(w.first, w.slots, s);
    var x := SlotRow(w.first, w.slots, s);
    if x < r { RowsOfOneSlotDifferBySlots(x, r, w.slots); }
    if r < x { RowsOfOneSlotDifferBySlots(r, x, w.slots); }
    forall t | 0 <= t < SLOTS_MAX && w.bound[t] == r
      ensures t == s
    {
      if t < w.slots { SlotRowIsTheRowOfTheSlot(w.first, w.slots, t); }
    }
  }

  /** A slot shows a pooled row of its own remainder, or nothing. */
  lemma BoundRowsArePooled(w: Window, s: nat)
    requires Shape(w) && Laid(w) && s < SLOTS_MAX
    ensures s < w.slots ==> w.first <= w.bound[s] < w.first + w.slots && w.bound[s] % w.slots == s
    ensures s >= w.slots ==> w.bound[s] == NONE
  {
    if s < w.slots { SlotRowIsTheRowOfTheSlot(w.first, w.slots, s); }
  }

  // ---- Every operation keeps the invariant

  lemma ShowFocusShowsTheFocus(w: Window, target: int)
    requires Shape(w)
    ensures Scrolled(ShowFocus(w, target))
  {
    if w.focus != NONE {
      MulLess(w.focus, w.count, w.pitch);
    }
  }

  lemma ReboundIsLaid(w: Window)
    requires Shape(w)
    ensures Shape(Rebound(w)) && Laid(Rebound(w))
    ensures Scrolled(w) ==> Scrolled(Rebound(w))
  {
    if w.view > 0 { QuotientMonotone(0, w.view + w.pitch - 2, w.pitch); }
    assert PoolSize(w) <= w.count;
    QuotientMonotone(0, w.top, w.pitch);
  }

  lemma InitKeepsInv(count: nat, pitch: int, view: int)
    requires count < NONE
    ensures Inv(Init(count, pitch, view).window)
  {
    var w := Window(count, AtLeast(pitch, 1), AtLeast(view, 0), if count > 0 then 0 else NONE, 0,
                    0, 0, seq(SLOTS_MAX, _ => NONE));
    if count > 0 { MulMonotone(1, count, w.pitch); }
    ReboundIsLaid(w);
  }

  lemma RefocusedKeepsInv(w: Window, now: Window, dirty: nat, changed: nat)
    requires Shape(now)
    ensures Inv(Refocused(w, now, dirty, changed).window)
  {
    ShowFocusShowsTheFocus(now, 0);
    ShowFocusShowsTheFocus(now, now.focus * now.pitch - FocusOffset(w));
    ReboundIsLaid(KeepFocus(now, FocusOffset(w)));
  }

  lemma SetFocusKeepsInv(w: Window, focus: nat)
    requires Inv(w)
    ensures Inv(SetFocus(w, focus).window)
  {
    if focus < w.count {
      ShowFocusShowsTheFocus(w.(focus := focus), w.top);
      ReboundIsLaid(ShowFocus(w.(focus := focus), w.top));
    }
  }

  lemma SetTopKeepsInv(w: Window, row: nat)
    requires Inv(w)
    ensures Inv(SetTop(w, row).window)
  {
    if w.count > 0 {
      var at := if row >= w.count then w.count - 1 else row;
      ShowFocusShowsTheFocus(w, at * w.pitch);
      ReboundIsLaid(ShowFocus(w, at * w.pitch));
    }
  }

  lemma RowsInsertedKeepsInv(w: Window, at: nat, count: nat)
    requires Inv(w) && w.count + count < NONE
    ensures Inv(RowsInserted(w, at, count).window)
  {
    if count > 0 && at <= w.count {
      RefocusedKeepsInv(w, Grown(w, at, count), at, NONE);
    }
  }

  lemma ShrunkKeepsShape(w: Window, at: nat, count: nat)
    requires Shape(w) && at < w.count && count > 0
    ensures Shape(Shrunk(w, at, count))
  {
  }

  lemma RowsDeletedKeepsInv(w: Window, at: nat, count: nat)
    requires Inv(w)
    ensures Inv(RowsDeleted(w, at, count).window)
  {
    if count > 0 && at < w.count {
      ShrunkKeepsShape(w, at, count);
      RefocusedKeepsInv(w, Shrunk(w, at, count), at, NONE);
    }
  }

  lemma InvalidateKeepsInv(w: Window, first: nat, count: nat)
    requires Inv(w)
    ensures Invalidate(w, first, count).window == w
  {
    ReboundIsLaid(w);
  }

  lemma ResizeKeepsInv(w: Window, pitch: int, view: int)
    requires Inv(w)
    ensures Inv(Resize(w, pitch, view).window)
  {
    RefocusedKeepsInv(w, Sized(w, pitch, view), 0, if AtLeast(pitch, 1) != w.pitch then NONE else 0);
  }

  // ---- Scrolling

  /** The scroll is the least one: any other offset with the whole focused row in view is further from the target. */
  lemma ShowFocusIsTheLeastScroll(w: Window, target: int, other: int)
    requires Shape(w) && w.count > 0 && w.pitch <= w.view
    requires 0 <= other <= TopMax(w) && WhollyVisible(w.(top := other), w.focus)
    ensures var wanted := Clamp(target, TopMax(w));
            var top := ShowFocus(w, target).top;
            && 0 <= top <= TopMax(w) && WhollyVisible(w.(top := top), w.focus)
            && (if top <= wanted then wanted - top else top - wanted)
               <= (if other <= wanted then wanted - other else other - wanted)
  {
    ShowFocusShowsTheFocus(w, target);
  }

  /**
   An insertion or a deletion that the focused row survives, and a resize, keep the row's place in
   the view whenever the content can scroll there and the row is then wholly visible.
   */
  lemma FocusKeepsItsPlace(w: Window, now: Window, dirty: nat, changed: nat)
    requires Inv(w) && Shape(now) && w.count > 0 && now.count > 0
    ensures var top := now.focus * now.pitch - FocusOffset(w);
            var after := Refocused(w, now, dirty, changed).window;
            0 <= top <= TopMax(now) && WhollyVisible(now.(top := top), now.focus)
            ==> FocusOffset(after) == FocusOffset(w)
  {
  }

  // ---- Where each operation scrolls to

  function Distance(a: int, b: int): int { if a < b then b - a else a - b }

  /** Of all offsets inside the content that show the whole focused row, this is the one nearest to a place. */
  ghost predicate Nearest(w: Window, place: int, top: int) {
    && 0 <= top <= TopMax(w) && WhollyVisible(w.(top := top), w.focus)
    && forall other :: 0 <= other <= TopMax(w) && WhollyVisible(w.(top := other), w.focus) ==>
         Distance(top, place) <= Distance(other, place)
  }

  lemma ShowFocusIsNearest(w: Window, target: int)
    requires Shape(w) && w.count > 0 && w.pitch <= w.view
    ensures Nearest(w, target, ShowFocus(w, target).top)
  {
    ShowFocusShowsTheFocus(w, target);
    forall other | 0 <= other <= TopMax(w) && WhollyVisible(w.(top := other), w.focus)
      ensures Distance(ShowFocus(w, target).top, target) <= Distance(other, target)
    {
      ShowFocusIsTheLeastScroll(w, target, other);
    }
  }

  /** No two offsets are nearest, and a place that is inside and shows the focus is its own nearest. */
  lemma NearestIsUnique(w: Window, place: int, top: int, other: int)
    requires Nearest(w, place, top)
    ensures Nearest(w, place, other) ==> other == top
    ensures 0 <= place <= TopMax(w) && WhollyVisible(w.(top := place), w.focus) ==> top == place
  {
    var between := (top + other) / 2;
    if Nearest(w, place, other) && other != top {
      assert WhollyVisible(w.(top := between), w.focus);
    }
  }

  /** Bringing a row to the top moves nothing but the offset, to the row's place or as near as the focus allows. */
  lemma SetTopMeans(w: Window, row: nat)
    requires Inv(w) && w.count > 0
    ensures var after := SetTop(w, row).window;
            var place := (if row < w.count then row else w.count - 1) * w.pitch;
            && after.count == w.count && after.focus == w.focus && after.pitch == w.pitch && after.view == w.view
            && (w.pitch <= w.view ==> Nearest(w, place, after.top))
            && (w.pitch <= w.view && 0 <= place <= TopMax(w) && WhollyVisible(w.(top := place), w.focus) ==>
                  after.top == place)
  {
    var place := (if row < w.count then row else w.count - 1) * w.pitch;
    if w.pitch <= w.view {
      ShowFocusIsNearest(w, place);
      NearestIsUnique(w, place, ShowFocus(w, place).top, place);
    }
  }

  /** Moving the focus scrolls the least that shows it. */
  lemma SetFocusMeans(w: Window, focus: nat)
    requires Inv(w) && focus < w.count
    ensures var after := SetFocus(w, focus).window;
            && after.count == w.count && after.focus == focus && after.pitch == w.pitch && after.view == w.view
            && (w.pitch <= w.view ==> Nearest(w.(focus := focus), w.top, after.top))
  {
    if w.pitch <= w.view { ShowFocusIsNearest(w.(focus := focus), w.top); }
  }

  /** The place that a focused row has below the view's top. */
  function PlaceInView(w: Window): int {
    if w.count == 0 then 0 else w.focus * w.pitch - w.top
  }

  /** The offset is the one nearest to keeping the focused row where it was in the view. */
  ghost predicate KeepsPlace(was: Window, now: Window) {
    if now.count == 0 then now.top == 0
    else now.pitch <= now.view ==> Nearest(now, now.focus * now.pitch - PlaceInView(was), now.top)
  }

  lemma RefocusedKeepsPlace(w: Window, now: Window, dirty: nat, changed: nat)
    requires Shape(w) && Shape(now)
    ensures var after := Refocused(w, now, dirty, changed).window;
            && after.count == now.count && after.focus == now.focus && after.pitch == now.pitch && after.view == now.view
            && KeepsPlace(w, after)
  {
    if now.count > 0 && now.pitch <= now.view {
      ShowFocusIsNearest(now, now.focus * now.pitch - FocusOffset(w));
    }
  }

  lemma InsertionMeans(w: Window, at: nat, count: nat)
    requires Inv(w) && 0 < count && at <= w.count && w.count + count < NONE
    ensures var after := RowsInserted(w, at, count).window;
            && after.count == w.count + count && after.pitch == w.pitch && after.view == w.view
            && after.focus == (if w.count == 0 then 0 else if w.focus < at then w.focus else w.focus + count)
            && KeepsPlace(w, after)
  {
    RefocusedKeepsPlace(w, Grown(w, at, count), at, NONE);
  }

  lemma DeletionMeans(w: Window, at: nat, count: nat)
    requires Inv(w) && 0 < count && at < w.count
    ensures var after := RowsDeleted(w, at, count).window;
            var end := if count < w.count - at then at + count else w.count;
            && after.count == w.count - (end - at) && after.pitch == w.pitch && after.view == w.view
            && after.focus == (if after.count == 0 then NONE else if w.focus < at then w.focus
                               else if end <= w.focus then w.focus - (end - at)
                               else if at < after.count then at else after.count - 1)
            && KeepsPlace(w, after)
  {
    ShrunkKeepsShape(w, at, count);
    RefocusedKeepsPlace(w, Shrunk(w, at, count), at, NONE);
  }

  lemma ResizeMeans(w: Window, pitch: int, view: int)
    requires Inv(w)
    ensures var after := Resize(w, pitch, view).window;
            && after.count == w.count && after.focus == w.focus
            && after.pitch == (if pitch > 1 then pitch else 1) && after.view == (if view > 0 then view else 0)
            && KeepsPlace(w, after)
  {
    RefocusedKeepsPlace(w, Sized(w, pitch, view), 0, if AtLeast(pitch, 1) != w.pitch then NONE else 0);
  }

  // ---- Coverage

  /** Some pixel of the view, at content y `y`, belongs to row `r`. */
  predicate Shows(w: Window, y: int, r: nat) {
    w.top <= y < w.top + w.view && r * w.pitch <= y < r * w.pitch + w.pitch
  }

  ghost predicate Covers(w: Window) {
    forall y: int, r: nat {:trigger Shows(w, y, r)} ::
      r < w.count && Shows(w, y, r) ==> w.first <= r < w.first + w.slots
  }

  /** With at most sixteen slots wanted, or at most sixteen rows, every row in view is pooled. */
  lemma SmallPoolCovers(w: Window)
    requires Inv(w) && (RawSlots(w.pitch, w.view) <= SLOTS_MAX || w.count <= SLOTS_MAX)
    ensures Covers(w)
  {
    forall y: int, r: nat {:trigger Shows(w, y, r)} | r < w.count && Shows(w, y, r)
      ensures w.first <= r < w.first + w.slots
    {
      QuotientUnique(y, w.pitch, r);
      QuotientMonotone(w.top, y, w.pitch);
      QuotientBounds(w.top, w.pitch);
      var q := w.top / w.pitch;
      assert q * w.pitch == w.pitch * q;
      QuotientMonotone(y, q * w.pitch + (w.view + w.pitch - 2), w.pitch);
      QuotientShift(w.view + w.pitch - 2, q, w.pitch);
    }
  }

  // ---- The cost of one step

  lemma ShiftedPoolDiffersInOneSlot(first: nat, slots: nat, slot: nat)
    requires slot < slots && slot != first % slots
    ensures SlotRow(first, slots, slot) == SlotRow(first + 1, slots, slot)
  {
    SlotRowIsTheRowOfTheSlot(first, slots, slot);
    SlotRowIsTheRowOfTheSlot(first + 1, slots, slot);
    var x, y := SlotRow(first, slots, slot), SlotRow(first + 1, slots, slot);
    if x < y { RowsOfOneSlotDifferBySlots(x, y, slots); }
    if y < x { RowsOfOneSlotDifferBySlots(y, x, slots); }
  }

  lemma NearTopsHaveNearQuotients(a: int, b: int, c: int)
    requires 0 < c && a <= b <= a + c
    ensures a / c <= b / c <= a / c + 1
  {
    QuotientMonotone(a, b, c);
    QuotientMonotone(b, a + c, c);
    QuotientShift(a, 1, c);
  }

  lemma RevealingTheNextRow(top: int, row: int, next: int, pitch: int, view: int)
    requires pitch >= 1 && view >= 0 && (next == row + pitch || next == row - pitch)
    requires if pitch <= view then top <= row && row + pitch <= top + view
             else top == row || top == row + pitch - view
    ensures var to := Revealed(top, next, pitch, view);
            if pitch <= view then if next > row then top <= to <= top + pitch else to <= top <= to + pitch
            else view > 0 ==> row <= top < row + pitch && next <= to < next + pitch
  {
  }

  lemma ShownFromInside(w: Window, focus: nat)
    requires Shape(w) && Scrolled(w) && focus < w.count
    ensures ShowFocus(w.(focus := focus), w.top).top == Revealed(w.top, focus * w.pitch, w.pitch, w.view)
  {
  }

  lemma NextRow(a: nat, b: nat, pitch: int)
    requires a == b + 1 || a + 1 == b
    ensures a * pitch == if a == b + 1 then b * pitch + pitch else b * pitch - pitch
  {
    assert (b + 1) * pitch == b * pitch + pitch && (b - 1) * pitch == b * pitch - pitch;
  }

  lemma StepScrollsByOneRow(w: Window, focus: nat)
    requires Shape(w) && Scrolled(w) && focus < w.count && (focus == w.focus + 1 || focus + 1 == w.focus)
    ensures var top := ShowFocus(w.(focus := focus), w.top).top;
            if w.pitch <= w.view then
              if focus == w.focus + 1 then w.top <= top <= w.top + w.pitch
              else top <= w.top <= top + w.pitch
            else w.view > 0 ==>
              && w.focus * w.pitch <= w.top < w.focus * w.pitch + w.pitch
              && focus * w.pitch <= top < focus * w.pitch + w.pitch
  {
    ShownFromInside(w, focus);
    NextRow(focus, w.focus, w.pitch);
    RevealingTheNextRow(w.top, w.focus * w.pitch, focus * w.pitch, w.pitch, w.view);
  }

  lemma StepMovesTheQuotientByOne(w: Window, focus: nat, top: int)
    requires Shape(w) && Scrolled(w) && focus < w.count && (focus == w.focus + 1 || focus + 1 == w.focus)
    requires top == ShowFocus(w.(focus := focus), w.top).top && w.view > 0
    ensures -1 <= top / w.pitch - w.top / w.pitch <= 1
  {
    StepScrollsByOneRow(w, focus);
    if w.pitch <= w.view {
      if focus == w.focus + 1 {
        NearTopsHaveNearQuotients(w.top, top, w.pitch);
      } else {
        NearTopsHaveNearQuotients(top, w.top, w.pitch);
      }
    } else {
      QuotientUnique(w.top, w.pitch, w.focus);
      QuotientUnique(top, w.pitch, focus);
    }
  }

  lemma StepMovesTheWindowByOneRow(w: Window, focus: nat)
    requires Inv(w) && focus < w.count && (focus == w.focus + 1 || focus + 1 == w.focus)
    ensures var after := SetFocus(w, focus).window;
            && after.slots == w.slots
            && (w.slots <= 1 || after.first == w.first || after.first == w.first + 1
                || after.first + 1 == w.first)
  {
    var top := ShowFocus(w.(focus := focus), w.top).top;
    ShowFocusKeepsTopNonNegative(w.(focus := focus), w.top);
    if w.view > 0 { StepMovesTheQuotientByOne(w, focus, top); }
    StepOfQuotientIsStepOfFirst(w, focus, top);
  }

  /** Not more than one row apart, the two first rows stay so when held inside the content. */
  lemma StepOfQuotientIsStepOfFirst(w: Window, focus: nat, top: int)
    requires Inv(w) && focus < w.count && top == ShowFocus(w.(focus := focus), w.top).top >= 0
    requires w.view <= 0 || -1 <= top / w.pitch - w.top / w.pitch <= 1
    ensures var after := SetFocus(w, focus).window;
            && after.slots == w.slots
            && (w.slots <= 1 || -1 <= after.first - w.first <= 1)
  {
    var moved := w.(focus := focus);
    assert SetFocus(w, focus).window == Rebound(ShowFocus(moved, w.top));
    assert PoolSize(ShowFocus(moved, w.top)) == PoolSize(w);
  }

  lemma AscendingListHasTwoValues(list: seq<nat>)
    requires forall i, j :: 0 <= i < j < |list| ==> list[i] < list[j]
    requires |list| > 1
    ensures exists a, b :: a in list && b in list && a != b
  {
    assert list[0] in list && list[1] in list;
  }

  /** A step of one row costs one slot at most, whatever the pitch and the view. */
  lemma OneRowStepRebindsAtMostOneSlot(w: Window, focus: nat)
    requires Inv(w) && focus < w.count && (focus == w.focus + 1 || focus + 1 == w.focus)
    ensures |SetFocus(w, focus).rebind| <= 1
  {
    StepMovesTheWindowByOneRow(w, focus);
    var after := SetFocus(w, focus);
    var now := after.window;
    var low := if now.first < w.first then now.first else w.first;
    var slot := if w.slots == 0 then 0 else low % w.slots;
    forall s | s in after.rebind
      ensures s == slot
    {
      if s < w.slots && s != slot && w.first != now.first {
        ShiftedPoolDiffersInOneSlot(low, w.slots, s);
      }
    }
    if |after.rebind| > 1 { AscendingListHasTwoValues(after.rebind); }
  }
}
