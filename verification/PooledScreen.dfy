/**
 The pool refines the full list: over every run of window operations, a caller that fills exactly
 the slots it is told to fill always shows the current data of every pooled row at its place.
 */
module PooledScreen {
  import opened Arithmetic
  import opened IndexRules
  import opened VirtualWindow
  import opened VirtualWindowLaws

  /** What a pooled row shows: nothing, or a row's data at a content y. */
  datatype Cell<T> = Hidden | Shown(row: T, y: int)

  /** The window, the application's rows and the pooled rows as last filled. */
  datatype Screen<T> = Screen(window: Window, data: seq<T>, cells: seq<Cell<T>>)

  datatype Op<T> =
    | Focus(focus: nat)
    | Top(row: nat)
    | Insert(at: nat, added: seq<T>)
    | Delete(at: nat, count: nat)
    | Change(first: nat, count: nat, data: seq<T>)
    | Size(pitch: int, view: int)

  // ---- The caller

  /** What slot `slot` shows once it is filled. */
  function Fill<T>(w: Window, data: seq<T>, slot: nat): Cell<T>
    requires slot < |w.bound| && w.count == |data|
  {
    if w.bound[slot] < w.count then Shown(data[w.bound[slot]], w.bound[slot] * w.pitch) else Hidden
  }

  function Refilled<T>(u: Update, data: seq<T>, cells: seq<Cell<T>>): Screen<T>
    requires |u.window.bound| == |cells| == SLOTS_MAX && u.window.count == |data|
  {
    Screen(u.window, data,
           seq(SLOTS_MAX, s requires 0 <= s < SLOTS_MAX =>
             if s in u.rebind then Fill(u.window, data, s) else cells[s]))
  }

  function Start<T>(data: seq<T>, pitch: int, view: int): Screen<T> {
    Refilled(Init(|data|, pitch, view), data, seq(SLOTS_MAX, _ => Hidden))
  }

  /** The caller's data follows its own rows: see `fplinux_ui_listview_rows_inserted` and its kin. */
  function Edited<T>(data: seq<T>, op: Op<T>): seq<T> {
    match op
    case Insert(at, added) => if at <= |data| then InsertRows(data, at, added) else data
    case Delete(at, count) =>
      if at >= |data| then data
      else DeleteRows(data, at, if count > |data| - at then |data| - at else count)
    case Change(_, _, now) => if |now| == |data| then now else data
    case _ => data
  }

  function Updated<T>(w: Window, op: Op<T>): Update
    requires Shape(w)
  {
    match op
    case Focus(focus) => SetFocus(w, focus)
    case Top(row) => SetTop(w, row)
    case Insert(at, added) => RowsInserted(w, at, |added|)
    case Delete(at, count) => RowsDeleted(w, at, count)
    case Change(first, count, _) => Invalidate(w, first, count)
    case Size(pitch, view) => Resize(w, pitch, view)
  }

  /** The content fits the coordinates, which the window's interface asks of every caller. */
  predicate Fits(w: Window) {
    w.count * w.pitch <= COORD_MAX
  }

  /** What an operation asks: the content still fits, and only the rows named as changed changed. */
  predicate Allowed<T(==)>(s: Screen<T>, op: Op<T>)
    requires Shape(s.window)
  {
    && (op.Insert? ==> s.window.count + |op.added| < NONE)
    && Fits(Updated(s.window, op).window)
    && (op.Change? && |op.data| == |s.data| ==>
          forall r :: 0 <= r < |s.data| && !(op.first <= r < op.first + op.count) ==> op.data[r] == s.data[r])
  }

  function Apply<T>(s: Screen<T>, op: Op<T>): Screen<T>
    requires Ready(s)
  {
    Refilled(Updated(s.window, op), Edited(s.data, op), s.cells)
  }

  predicate Ready<T>(s: Screen<T>) {
    Shape(s.window) && |s.data| == s.window.count && |s.cells| == SLOTS_MAX
  }

  // ---- The refinement

  /** Every slot shows the present data of its row at its place, or is hidden without a row. */
  ghost predicate InSync<T>(s: Screen<T>) {
    && Ready(s) && Inv(s.window) && Fits(s.window)
    && forall slot :: 0 <= slot < SLOTS_MAX ==> s.cells[slot] == Fill(s.window, s.data, slot)
  }

  lemma UpdatedKeepsInv<T>(w: Window, op: Op<T>)
    requires Inv(w) && (op.Insert? ==> w.count + |op.added| < NONE)
    ensures Inv(Updated(w, op).window)
  {
    match op
    case Focus(focus) => SetFocusKeepsInv(w, focus);
    case Top(row) => SetTopKeepsInv(w, row);
    case Insert(at, added) => RowsInsertedKeepsInv(w, at, |added|);
    case Delete(at, count) => RowsDeletedKeepsInv(w, at, count);
    case Change(first, count, _) => InvalidateKeepsInv(w, first, count);
    case Size(pitch, view) => ResizeKeepsInv(w, pitch, view);
  }

  lemma UnlistedSlotOfBind(w: Window, now: Window, dirty: nat, changed: nat, slot: nat)
    requires now.pitch >= 1 && now.top >= 0 && w.bound == now.bound && |w.bound| == SLOTS_MAX
    requires slot < SLOTS_MAX && slot !in Bind(now, dirty, changed).rebind
    ensures var row := Bind(now, dirty, changed).window.bound[slot];
            row == w.bound[slot] && (row != NONE ==> !(dirty <= row < dirty + changed))
  {
  }

  lemma UnlistedSlotOfScroll(w: Window, now: Window, target: int, slot: nat)
    requires now.pitch >= 1 && w.bound == now.bound && |w.bound| == SLOTS_MAX && slot < SLOTS_MAX
    ensures ShowFocus(now, target).top >= 0
    ensures slot !in Bind(ShowFocus(now, target), 0, 0).rebind ==>
              Bind(ShowFocus(now, target), 0, 0).window.bound[slot] == w.bound[slot]
  {
    ShowFocusKeepsTopNonNegative(now, target);
  }

  lemma UnlistedSlotOfRefocus(w: Window, now: Window, dirty: nat, changed: nat, slot: nat)
    requires now.pitch >= 1 && w.bound == now.bound && |w.bound| == SLOTS_MAX && slot < SLOTS_MAX
    requires slot !in Refocused(w, now, dirty, changed).rebind
    ensures var row := Refocused(w, now, dirty, changed).window.bound[slot];
            row == w.bound[slot] && (row != NONE ==> !(dirty <= row < dirty + changed))
  {
    ShowFocusKeepsTopNonNegative(now, 0);
    ShowFocusKeepsTopNonNegative(now, now.focus * now.pitch - FocusOffset(w));
    UnlistedSlotOfBind(w, KeepFocus(now, FocusOffset(w)), dirty, changed, slot);
  }

  /** A slot that is not listed keeps its row and, when that is a row, the row was not changed. */
  lemma UnlistedSlotKeepsItsRow<T>(w: Window, op: Op<T>, slot: nat)
    requires Inv(w) && slot < SLOTS_MAX && slot !in Updated(w, op).rebind
    requires (op.Insert? ==> w.count + |op.added| < NONE)
    ensures Updated(w, op).window.bound[slot] == w.bound[slot]
    ensures w.bound[slot] < NONE ==>
              && Updated(w, op).window.pitch == w.pitch
              && (op.Insert? && op.added != [] && op.at <= w.count ==> w.bound[slot] < op.at)
              && (op.Delete? && op.count > 0 && op.at < w.count ==> w.bound[slot] < op.at)
              && (op.Change? ==> !(op.first <= w.bound[slot] < op.first + op.count))
  {
    match op
    case Focus(focus) => UnlistedSlotOfScroll(w, w.(focus := focus), w.top, slot);
    case Top(row) => UnlistedSlotOfScroll(w, w, (if row >= w.count then w.count - 1 else row) * w.pitch, slot);
    case Insert(at, added) =>
      if added != [] && at <= w.count {
        UnlistedSlotOfRefocus(w, Grown(w, at, |added|), at, NONE, slot);
      }
    case Delete(at, count) =>
      if count > 0 && at < w.count {
        UnlistedSlotOfRefocus(w, Shrunk(w, at, count), at, NONE, slot);
      }
    case Change(first, count, _) =>
      UnlistedSlotOfBind(w, w, first, count, slot);
    case Size(pitch, view) =>
      UnlistedSlotOfRefocus(w, Sized(w, pitch, view), 0, if AtLeast(pitch, 1) != w.pitch then NONE else 0, slot);
  }

  lemma UpdatedCountsTheRows<T>(w: Window, data: seq<T>, op: Op<T>)
    requires Shape(w) && |data| == w.count
    ensures Updated(w, op).window.count == |Edited(data, op)|
  {
  }

  /** A slot that is not listed keeps its row, the row's place and the row's data. */
  lemma UnlistedSlotIsUnchanged<T>(s: Screen<T>, op: Op<T>, slot: nat)
    requires InSync(s) && Allowed(s, op) && slot < SLOTS_MAX
    requires slot !in Updated(s.window, op).rebind
    ensures Updated(s.window, op).window.count == |Edited(s.data, op)|
    ensures Fill(Updated(s.window, op).window, Edited(s.data, op), slot) == Fill(s.window, s.data, slot)
  {
    var w, now := s.window, Updated(s.window, op).window;
    UnlistedSlotKeepsItsRow(w, op, slot);
    UpdatedCountsTheRows(w, s.data, op);
    UpdatedKeepsInv(w, op);
    BoundRowsArePooled(w, slot);
    BoundRowsArePooled(now, slot);
  }

  lemma StepKeepsInSync<T>(s: Screen<T>, op: Op<T>)
    requires InSync(s) && Allowed(s, op)
    ensures Ready(s) && InSync(Apply(s, op))
  {
    UpdatedKeepsInv(s.window, op);
    forall slot | 0 <= slot < SLOTS_MAX
      ensures Apply(s, op).cells[slot] == Fill(Apply(s, op).window, Apply(s, op).data, slot)
    {
      if slot !in Updated(s.window, op).rebind { UnlistedSlotIsUnchanged(s, op, slot); }
    }
  }

  // ---- Runs

  ghost predicate AllowedRun<T>(s: Screen<T>, ops: seq<Op<T>>)
    decreases |ops|
  {
    Ready(s) && (ops == [] || (Allowed(s, ops[0]) && AllowedRun(Apply(s, ops[0]), ops[1..])))
  }

  ghost function Run<T>(s: Screen<T>, ops: seq<Op<T>>): Screen<T>
    requires AllowedRun(s, ops)
    decreases |ops|
  {
    if ops == [] then s else Run(Apply(s, ops[0]), ops[1..])
  }

  predicate StartFits<T>(data: seq<T>, pitch: int) {
    |data| < NONE && |data| * AtLeast(pitch, 1) <= COORD_MAX
  }

  lemma StartIsInSync<T>(data: seq<T>, pitch: int, view: int)
    requires StartFits(data, pitch)
    ensures InSync(Start(data, pitch, view))
  {
    InitKeepsInv(|data|, pitch, view);
    var w := Init(|data|, pitch, view).window;
    forall slot | 0 <= slot < SLOTS_MAX
      ensures Start(data, pitch, view).cells[slot] == Fill(w, data, slot)
    {
      BoundRowsArePooled(w, slot);
    }
  }

  /** Over every run, filling exactly the listed slots keeps the pool showing the current rows. */
  lemma {:induction false} RunKeepsInSync<T>(s: Screen<T>, ops: seq<Op<T>>)
    requires InSync(s) && AllowedRun(s, ops)
    ensures InSync(Run(s, ops))
    decreases |ops|
  {
    if ops != [] {
      StepKeepsInSync(s, ops[0]);
      RunKeepsInSync(Apply(s, ops[0]), ops[1..]);
    }
  }

  /**
   The refinement as a reader of the full list sees it: after any run, a pooled row is shown by one
   slot, its own, with the row's current data at its place, and no other slot shows anything.
   */
  lemma PoolRefinesTheList<T>(data: seq<T>, pitch: int, view: int, ops: seq<Op<T>>)
    requires StartFits(data, pitch) && AllowedRun(Start(data, pitch, view), ops)
    ensures var s := Run(Start(data, pitch, view), ops);
            && |s.data| == s.window.count
            && (forall r :: s.window.first <= r < s.window.first + s.window.slots ==>
                  && r < |s.data| && r % s.window.slots < |s.cells|
                  && s.cells[r % s.window.slots] == Shown(s.data[r], r * s.window.pitch))
            && (forall slot :: s.window.slots <= slot < |s.cells| ==> s.cells[slot] == Hidden)
            && 0 <= s.window.top <= COORD_MAX
  {
    StartIsInSync(data, pitch, view);
    RunKeepsInSync(Start(data, pitch, view), ops);
    SyncShowsTheList(Run(Start(data, pitch, view), ops));
  }

  lemma SyncShowsTheList<T>(s: Screen<T>)
    requires InSync(s)
    ensures |s.data| == s.window.count && 0 <= s.window.top <= COORD_MAX
    ensures forall r :: s.window.first <= r < s.window.first + s.window.slots ==>
              && r < |s.data| && r % s.window.slots < |s.cells|
              && s.cells[r % s.window.slots] == Shown(s.data[r], r * s.window.pitch)
    ensures forall slot :: s.window.slots <= slot < |s.cells| ==> s.cells[slot] == Hidden
  {
    var w := s.window;
    forall r | w.first <= r < w.first + w.slots
      ensures r < |s.data| && r % w.slots < |s.cells|
              && s.cells[r % w.slots] == Shown(s.data[r], r * w.pitch)
    {
      PoolHoldsConsecutiveRows(w, r);
    }
    forall slot | w.slots <= slot < |s.cells|
      ensures s.cells[slot] == Hidden
    {
      BoundRowsArePooled(w, slot);
    }
  }

  // ---- Coverage over runs

  /** A run from a started list that ends with the given row height and view. */
  ghost predicate Reaches<T>(data: seq<T>, pitch: int, view: int, ops: seq<Op<T>>, p: int, v: int) {
    && StartFits(data, pitch) && AllowedRun(Start(data, pitch, view), ops)
    && Run(Start(data, pitch, view), ops).window.pitch == p
    && Run(Start(data, pitch, view), ops).window.view == v
  }

  lemma TwoSteps<T>(s: Screen<T>, a: Op<T>, b: Op<T>)
    requires Ready(s) && Allowed(s, a) && Ready(Apply(s, a)) && Allowed(Apply(s, a), b)
    requires Ready(Apply(Apply(s, a), b))
    ensures AllowedRun(s, [a, b]) && Run(s, [a, b]) == Apply(Apply(s, a), b)
  {
    assert [a, b][1..] == [b] && [b][1..] == [];
    assert AllowedRun(Apply(Apply(s, a), b), []);
    assert AllowedRun(Apply(s, a), [b]);
    assert Run(Apply(s, a), [b]) == Run(Apply(Apply(s, a), b), []);
    assert Run(s, [a, b]) == Run(Apply(s, a), [b]);
  }

  /** The second row focused below a view of one row and a pixel: all but a pixel of row 0 is cut. */
  lemma SecondRowInANarrowView(p: int)
    requires p >= 1
    ensures var w := Init(19, p, p + 1).window;
            && Shape(w) && w.count == 19 && w.pitch == p && w.view == p + 1
            && var after := SetFocus(w, 1).window;
               after.top == p - 1 && after.focus == 1 && after.count == 19 && after.pitch == p
  {
  }

  /** The same offset in a larger view of nineteen rows: row 16 shows, but the pool starts at row 0. */
  lemma LargerViewShowsRowSixteen(w: Window, v: int)
    requires Inv(w) && w.count == 19 && w.top == w.pitch - 1 && w.focus == 1
    requires v >= 0 && RawSlots(w.pitch, v) > SLOTS_MAX
    ensures !Covers(Resize(w, w.pitch, v).window)
  {
    var p := w.pitch;
    QuotientBounds(v + p - 2, p);
    MulMonotone(16, (v + p - 2) / p, p);
    var after := Resize(w, p, v).window;
    ResizeKeepsInv(w, p, v);
    assert after.top <= p - 1 && after.top + v > 16 * p;
    QuotientUnique(after.top, p, 0);
    assert Shows(after, 16 * p, 16);
  }

  lemma BigViewOutgrowsThePool(p: int, v: int) returns (data: seq<nat>, ops: seq<Op<nat>>)
    requires p >= 1 && v >= 0 && 19 * p <= COORD_MAX && RawSlots(p, v) > SLOTS_MAX
    ensures Reaches(data, p, p + 1, ops, p, v)
    ensures !Covers(Run(Start(data, p, p + 1), ops).window)
  {
    data := seq(19, i => i);
    ops := [Focus(1), Size(p, v)];
    var s0 := Start(data, p, p + 1);
    SecondRowInANarrowView(p);
    StartIsInSync(data, p, p + 1);
    StepKeepsInSync(s0, Focus(1));
    var s1 := Apply(s0, Focus(1));
    LargerViewShowsRowSixteen(s1.window, v);
    StepKeepsInSync(s1, Size(p, v));
    TwoSteps(s0, Focus(1), Size(p, v));
  }

  /**
   The pool covers the view in every run that ends with this row height and view exactly when the
   view never shows more than sixteen rows in part. Nineteen such rows must fit the coordinates.
   */
  lemma CoverageIsExact(p: int, v: int)
    requires p >= 1 && v >= 0 && 19 * p <= COORD_MAX
    ensures RawSlots(p, v) <= SLOTS_MAX
            <==> forall data: seq<nat>, pitch: int, view: int, ops: seq<Op<nat>> ::
                   Reaches(data, pitch, view, ops, p, v) ==> Covers(Run(Start(data, pitch, view), ops).window)
  {
    if RawSlots(p, v) <= SLOTS_MAX {
      forall data: seq<nat>, pitch: int, view: int, ops: seq<Op<nat>> | Reaches(data, pitch, view, ops, p, v)
        ensures Covers(Run(Start(data, pitch, view), ops).window)
      {
        StartIsInSync(data, pitch, view);
        RunKeepsInSync(Start(data, pitch, view), ops);
        SmallPoolCovers(Run(Start(data, pitch, view), ops).window);
      }
    } else {
      var data, ops := BigViewOutgrowsThePool(p, v);
    }
  }

  /** In every run the focused row is wholly visible exactly when a row fits the view. */
  lemma FocusIsVisibleExactlyWhenItFits<T>(data: seq<T>, pitch: int, view: int, ops: seq<Op<T>>)
    requires StartFits(data, pitch) && AllowedRun(Start(data, pitch, view), ops)
    ensures var w := Run(Start(data, pitch, view), ops).window;
            && 0 <= w.top <= TopMax(w)
            && (w.count > 0 ==> w.focus < w.count && (WhollyVisible(w, w.focus) <==> w.pitch <= w.view))
  {
    StartIsInSync(data, pitch, view);
    RunKeepsInSync(Start(data, pitch, view), ops);
  }
}
