/**
 The list view as the window's client: it fills the slots the window lists, grows and shrinks its
 pool, and owns the row height, which the first row with a detail changes.
 */
module ListView {
  import opened Arithmetic
  import opened IndexRules
  import W = VirtualWindow
  import opened VirtualWindowLaws
  import opened VirtualList
  import opened PooledScreen

  /** What the application's row callback answers for one row. */
  datatype Row = Row(text: string, detail: string)

  // ---- What the pooled row objects show

  /** Row object `s` shows its row's present data at its place. */
  predicate CellShows(w: W.Window, rows: seq<Row>, cells: seq<Cell<Row>>, s: nat) {
    && s < |cells| && s < |w.bound| && w.bound[s] < |rows|
    && cells[s] == Shown(rows[w.bound[s]], w.bound[s] * w.pitch)
  }

  /** Row objects stand for the window's slots one to one. */
  ghost predicate PoolShows(w: W.Window, rows: seq<Row>, cells: seq<Cell<Row>>) {
    |cells| == w.slots && forall s :: 0 <= s < |cells| ==> CellShows(w, rows, cells, s)
  }

  /** Every slot that is not listed shows its row already; a listed slot may be stale or missing. */
  ghost predicate OthersShow(w: W.Window, rows: seq<Row>, cells: seq<Cell<Row>>, rebind: seq<nat>) {
    forall s: nat :: s < w.slots && s !in rebind ==> CellShows(w, rows, cells, s)
  }

  /** Cell `s` shows its row, placed by one of the two heights. */
  predicate Filled(w: W.Window, rows: seq<Row>, cells: seq<Cell<Row>>, pitch: int, s: nat) {
    CellShows(w, rows, cells, s) || CellShows(w.(pitch := pitch), rows, cells, s)
  }

  lemma PooledRowsExist(w: W.Window, s: nat)
    requires Inv(w) && s < w.slots
    ensures s < |w.bound| && w.bound[s] < w.count
  {
    BoundRowsArePooled(w, s);
  }

  /** Slots a window operation does not list still show the present data of their row at its place. */
  lemma UnlistedSlotsStillShow(w: W.Window, data: seq<Row>, cells: seq<Cell<Row>>, op: Op<Row>)
    requires Inv(w) && |data| == w.count && Fits(w) && PoolShows(w, data, cells)
    requires Allowed(Screen(w, data, []), op)
    ensures var u := Updated(w, op);
            && Inv(u.window) && |Edited(data, op)| == u.window.count
            && OthersShow(u.window, Edited(data, op), cells, u.rebind)
  {
    var u := Updated(w, op);
    var now := Edited(data, op);
    var shown := Screen(w, data, seq(W.SLOTS_MAX, s requires 0 <= s < W.SLOTS_MAX => Fill(w, data, s)));
    UpdatedKeepsInv(w, op);
    UpdatedCountsTheRows(w, data, op);
    forall s: nat | s < u.window.slots && s !in u.rebind
      ensures CellShows(u.window, now, cells, s)
    {
      UnlistedSlotIsUnchanged(shown, op, s);
      PooledRowsExist(u.window, s);
      UnlistedSlotKeepsItsRow(w, op, s);
      BoundRowsArePooled(w, s);
      assert CellShows(w, data, cells, s);
    }
  }

  /** Unless the new height equals the old one, a resize lists every slot that has a row. */
  lemma ResizeListsMovedSlots(w: W.Window, rows: seq<Row>, cells: seq<Cell<Row>>, pitch: int)
    requires Inv(w) && pitch >= 1 && |rows| == w.count && |cells| == w.slots
    requires forall s :: 0 <= s < |cells| ==> Filled(w, rows, cells, pitch, s)
    ensures var u := W.Resize(w, pitch, w.view);
            && Inv(u.window) && u.window.pitch == pitch && u.window.view == w.view
            && u.window.focus == w.focus && u.window.count == w.count
            && OthersShow(u.window, rows, cells, u.rebind)
  {
    ResizeKeepsInv(w, pitch, w.view);
    var u := W.Resize(w, pitch, w.view);
    forall s: nat | s < u.window.slots && s !in u.rebind
      ensures CellShows(u.window, rows, cells, s)
    {
      UnlistedSlotKeepsItsRow(w, Op<Row>.Size(pitch, w.view), s);
      PooledRowsExist(u.window, s);
      BoundRowsArePooled(w, s);
      assert Filled(w, rows, cells, pitch, s);
    }
  }

  lemma ListingAllLeavesNone(w: W.Window, rows: seq<Row>, cells: seq<Cell<Row>>)
    ensures OthersShow(w, rows, cells, seq(w.slots, i => i))
  {
    var all := seq(w.slots, i => i);
    forall s: nat | s < w.slots
      ensures s in all
    {
      assert all[s] == s;
    }
  }

  // ---- The list

  /** How many of the rows to be deleted there are. */
  function Gone(at: nat, removed: nat, total: nat): nat {
    if at >= total then 0 else Min(removed, total - at)
  }

  lemma DeletionCounts(w: W.Window, at: nat, removed: nat, gone: nat)
    requires Inv(w) && at < w.count && removed > 0 && gone == Gone(at, removed, w.count)
    ensures var now := W.RowsDeleted(w, at, removed).window;
            && now.count == w.count - gone && now.focus == FocusDeleted(w.focus, at, gone, w.count)
            && now.pitch == w.pitch && now.view == w.view
  {
    RowsDeletedKeepsInv(w, at, removed);
  }

  class ListView {
    const rowHeight: int
    const detailHeight: int
    const inlineDetail: bool
    const window: VirtualList
    /** The rows as the callback answers now; the application changes them. */
    var rows: seq<Row>
    var count: nat
    var selected: nat
    var pitch: int
    var details: bool
    var started: bool
    var startFirst: nat
    /** The pooled row objects: what each shows and where. */
    var slots: seq<Cell<Row>>

    predicate Heights()
      reads this
    {
      && rowHeight >= 1 && detailHeight >= 1
      && pitch == (if details then detailHeight else rowHeight)
      && RowsFit(|rows|)
    }

    /** The content of that many rows fits the coordinates at either height. */
    predicate RowsFit(n: nat)
    {
      n < NONE && n * rowHeight <= W.COORD_MAX && n * detailHeight <= W.COORD_MAX
    }

    ghost predicate WindowValid()
      reads this, window, window.bound
    {
      window.Valid() && Heights() && window.count == |rows|
    }

    ghost predicate Valid()
      reads this, window, window.bound
    {
      && WindowValid() && window.pitch == pitch
      && count == |rows| && selected == Selection(window.focus)
      && (if started then PoolShows(window.Value(), rows, slots) else slots == [])
    }

    function Selection(focus: nat): nat {
      if focus == NONE then 0 else focus
    }

    constructor (data: seq<Row>, height: int, heightWithDetail: int, inlined: bool, view: int)
      requires height >= 1 && heightWithDetail >= 1 && |data| < NONE
      requires |data| * height <= W.COORD_MAX && |data| * heightWithDetail <= W.COORD_MAX
      ensures Valid() && fresh(window) && fresh(window.bound)
      ensures rows == data && !started && selected == 0
    {
      rowHeight := height;
      detailHeight := heightWithDetail;
      inlineDetail := inlined;
      window := new VirtualList(|data|, height, view);
      rows := data;
      count := |data|;
      selected := 0;
      pitch := height;
      details := false;
      started := false;
      startFirst := NONE;
      slots := [];
    }

    /** Fills one slot from the callback. The first detail under a row switches every row's height. */
    method BindSlot(slot: nat)
      requires Heights() && slot < |slots| && slot < window.bound.Length && window.bound[slot] < |rows|
      modifies this`slots, this`details, this`pitch
      ensures Heights() && (old(details) ==> details)
      ensures slots == old(slots)[slot := Shown(rows[window.bound[slot]], window.bound[slot] * old(pitch))]
    {
      var index := window.bound[slot];
      var data := rows[index];
      slots := slots[slot := Shown(data, index * pitch)];
      if data.detail != "" && !inlineDetail && !details {
        details := true;
        pitch := detailHeight;
      }
    }

    method SizePool()
      modifies this`slots
      ensures |slots| == window.slots
      ensures forall s :: 0 <= s < |slots| && s < old(|slots|) ==> slots[s] == old(slots)[s]
    {
      while |slots| < window.slots
        invariant |slots| <= window.slots || |slots| == old(|slots|)
        invariant |slots| >= old(|slots|)
        invariant forall s :: 0 <= s < old(|slots|) ==> slots[s] == old(slots)[s]
      {
        slots := slots + [Hidden];
      }
      while |slots| > window.slots
        invariant |slots| >= window.slots
        invariant forall s :: 0 <= s < |slots| && s < old(|slots|) ==> slots[s] == old(slots)[s]
      {
        slots := slots[..|slots| - 1];
      }
    }

    /** Fills the listed slots. Places follow the height in force when each slot was filled. */
    method FillSlots(rebind: seq<nat>)
      requires Heights() && window.pitch == pitch && |slots| == window.slots <= window.bound.Length
      requires forall s :: 0 <= s < window.slots ==> window.bound[s] < |rows|
      requires OthersShow(window.Value(), rows, slots, rebind)
      modifies this`slots, this`details, this`pitch
      ensures Heights() && |slots| == window.slots && (old(details) ==> details)
      ensures forall s :: 0 <= s < |slots| ==> Filled(window.Value(), rows, slots, pitch, s)
    {
      ghost var w := window.Value();
      for i := 0 to |rebind|
        invariant Heights() && |slots| == window.slots && (old(details) ==> details)
        invariant details == old(details) ==> pitch == w.pitch
        invariant forall s :: 0 <= s < |slots| && s !in rebind[i..] ==> Filled(w, rows, slots, pitch, s)
      {
        ghost var cells, was := slots, pitch;
        if rebind[i] < |slots| {
          BindSlot(rebind[i]);
        }
        forall s | 0 <= s < |slots| && s !in rebind[i + 1..]
          ensures Filled(w, rows, slots, pitch, s)
        {
          if s != rebind[i] {
            assert s !in rebind[i..];
            assert Filled(w, rows, cells, was, s);
          }
        }
      }
    }

    /** Applies the listed changes; called again, once, when a first detail changes the height. */
    method ApplyWindow(rebind: seq<nat>)
      requires WindowValid() && window.pitch == pitch
      requires if started then OthersShow(window.Value(), rows, slots, rebind) else slots == []
      modifies this`count, this`selected, this`slots, this`details, this`pitch, window, window.bound
      ensures Valid() && (old(details) ==> details)
      ensures details == old(details) ==> window.Value() == old(window.Value())
      ensures window.focus == old(window.focus) && window.view == old(window.view)
      decreases if details then 0 else 1, 1
    {
      count := window.count;
      selected := if window.focus == NONE then 0 else window.focus;
      if !started {
        return;
      }
      BindSlots(rebind);
    }

    method BindSlots(rebind: seq<nat>)
      requires WindowValid() && window.pitch == pitch && started
      requires OthersShow(window.Value(), rows, slots, rebind)
      requires count == |rows| && selected == Selection(window.focus)
      modifies this`count, this`selected, this`slots, this`details, this`pitch, window, window.bound
      ensures Valid() && (old(details) ==> details)
      ensures details == old(details) ==> window.Value() == old(window.Value())
      ensures window.focus == old(window.focus) && window.view == old(window.view)
      decreases if details then 0 else 1, 0
    {
      var had := details;
      forall s: nat | s < window.slots
        ensures s < window.bound.Length && window.bound[s] < |rows|
      {
        PooledRowsExist(window.Value(), s);
      }
      SizePool();
      FillSlots(rebind);
      if details && !had {
        var again := FitWindow();
        ApplyWindow(again);
        assert details;
      } else {
        ghost var w := window.Value();
        forall s | 0 <= s < |slots|
          ensures CellShows(w, rows, slots, s)
        {
          assert Filled(w, rows, slots, pitch, s);
        }
      }
    }

    /** Gives the window the new height; the slots it does not list are in place already. */
    method FitWindow() returns (rebind: seq<nat>)
      requires WindowValid() && |slots| == window.slots
      requires forall s :: 0 <= s < |slots| ==> Filled(window.Value(), rows, slots, pitch, s)
      modifies window, window.bound
      ensures WindowValid() && window.pitch == pitch
      ensures OthersShow(window.Value(), rows, slots, rebind)
      ensures window.focus == old(window.focus) && window.view == old(window.view)
    {
      ResizeListsMovedSlots(window.Value(), rows, slots, pitch);
      rebind := window.Resize(pitch, window.view);
    }

    // ---- What the application and the screen call

    /** Until a list is activated its callback stays unused; then all slots are filled. */
    method Activate()
      requires Valid() && !started
      modifies this, window, window.bound
      ensures Valid() && started && startFirst == NONE && rows == old(rows)
    {
      started := true;
      var rebind := seq(window.slots, i => i);
      ListingAllLeavesNone(window.Value(), rows, slots);
      ApplyWindow(rebind);
      if startFirst != NONE {
        var first := startFirst;
        startFirst := NONE;
        SetFirstVisible(first);
      }
    }

    method SetFirstVisible(row: nat)
      requires Valid()
      modifies this, window, window.bound
      ensures Valid() && started == old(started) && rows == old(rows)
      ensures startFirst == if !started && rows != [] then (if row >= |rows| then |rows| - 1 else row)
                            else old(startFirst)
      // A first detail in the rows that come into view makes all rows higher, as any other time.
      ensures started && rows != [] && details == old(details) && window.pitch <= window.view ==>
                Nearest(old(window.Value()), (if row < |rows| then row else |rows| - 1) * window.pitch, window.top)
      ensures window.focus == old(window.focus)
    {
      if count == 0 {
        return;
      }
      var index := if row >= count then count - 1 else row;
      if !started {
        startFirst := index;
        return;
      }
      SetTopMeans(window.Value(), index);
      ScrollTo(index);
    }

    method ScrollTo(index: nat)
      requires Valid() && started && index < |rows|
      modifies this, window, window.bound
      ensures Valid() && started && rows == old(rows) && startFirst == old(startFirst)
      ensures window.focus == old(window.focus)
      ensures details == old(details) ==> window.Value() == W.SetTop(old(window.Value()), index).window
    {
      SetTopKeepsInv(window.Value(), index);
      var top := window.top;
      ghost var was := window.Value();
      UnlistedSlotsStillShow(was, rows, slots, Op.Top(index));
      var rebind := window.SetTop(index);
      if window.top != top {
        ApplyWindow(rebind);
      } else {
        assert window.Value() == was;
      }
    }

    /** Moves the selection to another row. */
    method Select(index: nat)
      requires Valid()
      modifies this, window, window.bound
      ensures Valid() && started == old(started) && rows == old(rows)
      ensures selected == if index < |rows| then index else old(selected)
    {
      if index >= count || index == selected {
        return;
      }
      if started { UnlistedSlotsStillShow(window.Value(), rows, slots, Op.Focus(index)); }
      var rebind := window.SetFocus(index);
      ApplyWindow(rebind);
    }

    /**
     The application added rows; the selection stays on its row. Rows past the end are no rows: the
     list stays as it is, and so must the data.
     */
    method RowsInserted(at: nat, added: seq<Row>)
      requires Valid() && (at <= |rows| ==> RowsFit(|rows| + |added|))
      modifies this, window, window.bound
      ensures Valid() && started == old(started)
      ensures rows == if at <= old(|rows|) then InsertRows(old(rows), at, added) else old(rows)
      ensures old(rows) != [] ==> selected < |rows| && rows[selected] == old(rows[selected])
      ensures at > old(|rows|) || added == [] ==> window.Value() == old(window.Value()) && slots == old(slots)
    {
      if |added| == 0 {
        assert at <= |rows| ==> rows == InsertRows(rows, at, added);
      } else if at <= |rows| {
        InsertInside(at, added);
      } else {
        TellWindow(at, added);
      }
    }

    /** The window ignores rows past its end. */
    method TellWindow(at: nat, added: seq<Row>)
      requires Valid() && at > |rows|
      modifies this, window, window.bound
      ensures Valid() && started == old(started) && rows == old(rows) && selected == old(selected)
      ensures window.Value() == old(window.Value()) && slots == old(slots)
    {
      var nothing := window.RowsInserted(at, |added|);
      assert window.Value() == old(window.Value());
    }

    method InsertInside(at: nat, added: seq<Row>)
      requires Valid() && at <= |rows| && |added| > 0 && RowsFit(|rows| + |added|)
      modifies this, window, window.bound
      ensures Valid() && started == old(started) && rows == InsertRows(old(rows), at, added)
      ensures old(rows) != [] ==> selected < |rows| && rows[selected] == old(rows[selected])
    {
      ghost var data := rows;
      if rows != [] {
        InsertionFocus(window.Value(), at, |added|);
        InsertedNamesTheSameRow(rows, at, added, selected);
      }
      ShowInserted(at, added, W.RowsInserted(window.Value(), at, |added|).window.focus);
      assert data != [] ==> rows[selected] == data[old(selected)];
    }

    method ShowInserted(at: nat, added: seq<Row>, ghost focus: nat)
      requires Valid() && at <= |rows| && |added| > 0 && RowsFit(|rows| + |added|)
      requires focus == W.RowsInserted(window.Value(), at, |added|).window.focus
      modifies this, window, window.bound
      ensures Valid() && started == old(started) && rows == InsertRows(old(rows), at, added)
      ensures selected == Selection(focus)
    {
      ghost var was := window.Value();
      RowsInsertedKeepsInv(was, at, |added|);
      assert Fits(W.RowsInserted(was, at, |added|).window);
      if started { UnlistedSlotsStillShow(was, rows, slots, Insert(at, added)); }
      rows := InsertRows(rows, at, added);
      var rebind := window.RowsInserted(at, |added|);
      assert window.focus == focus;
      ApplyWindow(rebind);
    }

    /** The application removed rows, as many as there were; the selection follows `FocusDeleted`. */
    method RowsDeleted(at: nat, removed: nat)
      requires Valid()
      modifies this, window, window.bound
      ensures Valid() && started == old(started)
      ensures var gone := Gone(at, removed, old(|rows|));
        && rows == (if gone == 0 then old(rows) else DeleteRows(old(rows), at, gone))
        && (gone == 0 ==> window.Value() == old(window.Value()) && slots == old(slots) && selected == old(selected))
        && (gone > 0 && rows != [] ==> selected == FocusDeleted(old(selected), at, gone, old(|rows|)))
    {
      if removed == 0 {
      } else if at < |rows| {
        DeleteInside(at, removed, Gone(at, removed, |rows|));
      } else {
        var nothing := window.RowsDeleted(at, removed);
        assert window.Value() == old(window.Value());
      }
    }

    lemma InsertionFocus(w: W.Window, at: nat, n: nat)
      requires Inv(w) && 0 < w.count && at <= w.count && n > 0 && w.count + n < NONE
      ensures W.RowsInserted(w, at, n).window.focus == Inserted(w.focus, at, n) < NONE && w.focus < w.count
    {
    }

    method DeleteInside(at: nat, removed: nat, ghost gone: nat)
      requires Valid() && at < |rows| && removed > 0 && gone == Gone(at, removed, |rows|)
      modifies this, window, window.bound
      ensures Valid() && started == old(started) && rows == DeleteRows(old(rows), at, gone)
      ensures rows != [] ==> selected == FocusDeleted(old(selected), at, gone, old(|rows|))
    {
      DeletedRowsFit(at, gone);
      ghost var size := |rows|;
      ghost var focus := ShowDeleted(at, removed, gone);
      assert rows != [] ==> focus == FocusDeleted(old(selected), at, gone, size) < NONE;
    }

    method ShowDeleted(at: nat, removed: nat, ghost gone: nat) returns (ghost focus: nat)
      requires Valid() && at < |rows| && removed > 0 && gone == Gone(at, removed, |rows|) && RowsFit(|rows| - gone)
      modifies this, window, window.bound
      ensures Valid() && started == old(started) && rows == DeleteRows(old(rows), at, gone)
      ensures focus == FocusDeleted(old(window.focus), at, gone, old(|rows|)) && selected == Selection(focus)
    {
      focus := FocusDeleted(window.focus, at, gone, |rows|);
      DeletionCounts(window.Value(), at, removed, gone);
      if started { UnlistedSlotsStillShow(window.Value(), rows, slots, Delete(at, removed)); }
      rows := DropRows(at, removed);
      var rebind := window.RowsDeleted(at, removed);
      assert window.focus == focus;
      ApplyWindow(rebind);
    }

    /** The application's data without the rows. */
    function DropRows(at: nat, removed: nat): seq<Row>
      requires at < |rows|
      reads this
    {
      DeleteRows(rows, at, Gone(at, removed, |rows|))
    }

    lemma DeletedRowsFit(at: nat, gone: nat)
      requires Heights() && 0 < gone && at + gone <= |rows|
      ensures RowsFit(|rows| - gone)
    {
      MulMonotone(|rows| - gone, |rows|, rowHeight);
      MulMonotone(|rows| - gone, |rows|, detailHeight);
    }

    /** Rows from .. from + changed - 1 answer differently now. */
    method Invalidate(from: nat, changed: nat, now: seq<Row>)
      requires Valid() && |now| == |rows|
      requires forall r :: 0 <= r < |now| && !(from <= r < from + changed) ==> now[r] == rows[r]
      modifies this, window, window.bound
      ensures Valid() && started == old(started) && rows == now && selected == old(selected)
    {
      InvalidateKeepsInv(window.Value(), from, changed);
      if started { UnlistedSlotsStillShow(window.Value(), rows, slots, Change(from, changed, now)); }
      rows := now;
      var rebind := window.Invalidate(from, changed);
      ApplyWindow(rebind);
    }

    /** The rows got another height to be shown in. */
    method SizeChanged(view: int)
      requires Valid()
      modifies this, window, window.bound
      ensures Valid() && started == old(started) && rows == old(rows) && selected == old(selected)
      ensures window.view == if view > 0 then view else 0
    {
      if view == window.view {
        return;
      }
      ResizeKeepsInv(window.Value(), pitch, view);
      if started { UnlistedSlotsStillShow(window.Value(), rows, slots, Size(pitch, view)); }
      var rebind := window.Resize(pitch, view);
      ApplyWindow(rebind);
    }
  }
}
