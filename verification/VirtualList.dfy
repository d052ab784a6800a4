/** The virtual window as the code keeps it: fields updated in place and an array of bound rows. */
module VirtualList {
  import opened IndexRules
  import W = VirtualWindow
  import opened VirtualWindowLaws

  class VirtualList {
    var count: nat
    var slots: nat
    var pitch: int
    var view: int
    var focus: nat
    var top: int
    var first: nat
    const bound: array<nat>

    function Value(): W.Window
      reads this, bound
    {
      W.Window(count, pitch, view, focus, top, slots, first, bound[..])
    }

    ghost predicate Valid()
      reads this, bound
    {
      bound.Length == W.SLOTS_MAX && Inv(Value())
    }

    constructor (rows: nat, rowPitch: int, viewHeight: int)
      requires rows < NONE
      ensures fresh(bound) && Valid()
      ensures Value() == W.Init(rows, rowPitch, viewHeight).window
    {
      count := rows;
      slots := 0;
      pitch := if rowPitch > 0 then rowPitch else 1;
      view := if viewHeight > 0 then viewHeight else 0;
      focus := if rows > 0 then 0 else NONE;
      top := 0;
      first := 0;
      bound := new nat[W.SLOTS_MAX](_ => NONE);
      new;
      assert bound[..] == seq(W.SLOTS_MAX, _ => NONE);
      var _ := Bind(0, 0);
      InitKeepsInv(rows, rowPitch, viewHeight);
    }

    method ShowFocus(target: int)
      modifies this`top
      ensures Value() == W.ShowFocus(old(Value()), target)
    {
      var over := count * pitch - view;
      var high := if over > 0 then over else 0;
      var to := if target < 0 then 0 else if target > high then high else target;
      if focus != NONE {
        var row := focus * pitch;
        if row < to {
          to := row;
        } else if row + pitch > to + view {
          to := row + pitch - view;
        }
      }
      top := to;
    }

    method KeepFocus(offset: int)
      modifies this`top
      ensures Value() == W.KeepFocus(old(Value()), offset)
    {
      if focus == NONE {
        ShowFocus(0);
      } else {
        ShowFocus(focus * pitch - offset);
      }
    }

    /** The size of the pool and its first row. */
    method PlacePool()
      requires pitch >= 1 && top >= 0
      modifies this`slots, this`first
      ensures slots == W.Rebound(old(Value())).slots && first == W.Rebound(old(Value())).first
    {
      slots := W.PoolSize(Value());
      first := top / pitch;
      if first > count - slots {
        first := count - slots;
      }
    }

    method RowFor(slot: nat) returns (row: nat)
      requires slot < W.SLOTS_MAX
      ensures row == W.Bindings(first, slots)[slot]
    {
      row := NONE;
      if slot < slots {
        row := first + (slot + slots - first % slots) % slots;
      }
    }

    /** Sizes and places the pool; the slots it gives other rows or dirty ones come back in order. */
    method Bind(dirty: nat, changed: nat) returns (rebind: seq<nat>)
      requires bound.Length == W.SLOTS_MAX && pitch >= 1 && top >= 0
      modifies this`slots, this`first, bound
      ensures Value() == W.Bind(old(Value()), dirty, changed).window
      ensures rebind == W.Bind(old(Value()), dirty, changed).rebind
    {
      ghost var was := bound[..];
      ghost var after := W.Rebound(Value());
      PlacePool();
      ghost var now := after.bound;
      assert after == Value().(bound := now);
      rebind := [];
      for slot := 0 to W.SLOTS_MAX
        invariant first == after.first && slots == after.slots
        invariant forall k :: 0 <= k < slot ==> bound[k] == now[k]
        invariant forall k :: slot <= k < W.SLOTS_MAX ==> bound[k] == was[k]
        invariant rebind == W.RebindList(was, now, dirty, changed, slot)
      {
        var row := RowFor(slot);
        assert row == now[slot];
        if row != bound[slot] || (row != NONE && row >= dirty && row - dirty < changed) {
          rebind := rebind + [slot];
        }
        bound[slot] := row;
      }
      assert bound[..] == now;
    }

    method SetFocus(to: nat) returns (rebind: seq<nat>)
      requires Valid()
      modifies this`focus, this`top, this`slots, this`first, bound
      ensures Valid() && W.Update(Value(), rebind) == W.SetFocus(old(Value()), to)
    {
      SetFocusKeepsInv(Value(), to);
      if to >= count {
        return [];
      }
      W.ShowFocusKeepsTopNonNegative(Value().(focus := to), top);
      focus := to;
      ShowFocus(top);
      rebind := Bind(0, 0);
    }

    method SetTop(row: nat) returns (rebind: seq<nat>)
      requires Valid()
      modifies this`top, this`slots, this`first, bound
      ensures Valid() && W.Update(Value(), rebind) == W.SetTop(old(Value()), row)
    {
      SetTopKeepsInv(Value(), row);
      if count == 0 {
        return [];
      }
      var at := if row >= count then count - 1 else row;
      W.ShowFocusKeepsTopNonNegative(Value(), at * pitch);
      ShowFocus(at * pitch);
      rebind := Bind(0, 0);
    }

    /** How far below the view's top the focus lies. */
    method FocusOffset() returns (offset: int)
      ensures offset == W.FocusOffset(Value())
    {
      if focus == NONE {
        return 0;
      }
      offset := focus * pitch - top;
    }

    method RowsInserted(at: nat, added: nat) returns (rebind: seq<nat>)
      requires Valid() && (at <= count ==> count + added < NONE)
      modifies this`count, this`focus, this`top, this`slots, this`first, bound
      ensures Valid() && W.Update(Value(), rebind) == W.RowsInserted(old(Value()), at, added)
    {
      ghost var was := Value();
      var offset := FocusOffset();
      if added == 0 || at > count {
        return [];
      }
      RowsInsertedKeepsInv(was, at, added);
      count := count + added;
      focus := if focus == NONE then 0 else Inserted(focus, at, added);
      assert Value() == W.Grown(was, at, added);
      RefocusKeepsTopNonNegative(Value(), offset);
      KeepFocus(offset);
      rebind := Bind(at, NONE);
    }

    method RowsDeleted(at: nat, removed: nat) returns (rebind: seq<nat>)
      requires Valid()
      modifies this`count, this`focus, this`top, this`slots, this`first, bound
      ensures Valid() && W.Update(Value(), rebind) == W.RowsDeleted(old(Value()), at, removed)
    {
      ghost var was := Value();
      RowsDeletedKeepsInv(was, at, removed);
      var offset := FocusOffset();
      if removed == 0 || at >= count {
        return [];
      }
      var gone := if removed > count - at then count - at else removed;
      focus := FocusDeleted(focus, at, gone, count);
      count := count - gone;
      assert Value() == W.Shrunk(was, at, removed);
      RefocusKeepsTopNonNegative(Value(), offset);
      KeepFocus(offset);
      rebind := Bind(at, NONE);
    }

    method Invalidate(from: nat, changed: nat) returns (rebind: seq<nat>)
      requires Valid()
      modifies this`slots, this`first, bound
      ensures Valid() && W.Update(Value(), rebind) == W.Invalidate(old(Value()), from, changed)
    {
      InvalidateKeepsInv(Value(), from, changed);
      rebind := Bind(from, changed);
    }

    method Resize(rowPitch: int, viewHeight: int) returns (rebind: seq<nat>)
      requires Valid()
      modifies this`pitch, this`view, this`top, this`slots, this`first, bound
      ensures Valid() && W.Update(Value(), rebind) == W.Resize(old(Value()), rowPitch, viewHeight)
    {
      ghost var was := Value();
      ResizeKeepsInv(was, rowPitch, viewHeight);
      var offset := FocusOffset();
      var newPitch := if rowPitch > 0 then rowPitch else 1;
      var moved := newPitch != pitch;
      pitch := newPitch;
      view := if viewHeight > 0 then viewHeight else 0;
      assert Value() == W.Sized(was, rowPitch, viewHeight);
      RefocusKeepsTopNonNegative(Value(), offset);
      KeepFocus(offset);
      // With another pitch no row stays where it was.
      rebind := Bind(0, if moved then NONE else 0);
    }
  }

  lemma RefocusKeepsTopNonNegative(w: W.Window, offset: int)
    requires w.pitch >= 1
    ensures W.KeepFocus(w, offset).top >= 0
  {
    W.ShowFocusKeepsTopNonNegative(w, 0);
    W.ShowFocusKeepsTopNonNegative(w, w.focus * w.pitch - offset);
  }
}
