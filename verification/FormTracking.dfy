/** A form's focus and item commands through moves and deletions of its items. */
module FormTracking {
  import opened Basics
  import opened IndexRules
  import opened ItemCommands
  import opened RowTracking

  /** The item the focus passes to: the first focusable one at or after `from`, else the last before. */
  ghost predicate PassesTo(items: seq<nat>, focusable: set<nat>, from: nat, to: Option<nat>) {
    match to
    case None => forall i :: 0 <= i < |items| ==> items[i] !in focusable
    case Some(item) =>
      item in focusable
      && exists k :: 0 <= k < |items| && items[k] == item
           && (if k >= from then forall i :: from <= i < k ==> items[i] !in focusable
               else forall i :: 0 <= i < |items| && (i >= from || i > k) ==> items[i] !in focusable)
  }

  class Form {
    var items: seq<nat>
    /** NONE until an item takes the focus. */
    var focus: nat
    var editing: bool
    const table: CommandTable

    ghost predicate Valid()
      reads this, table
    {
      && |items| < NONE && Distinct(items) && InRange(table.commands, |items|)
      && (focus == NONE || focus < |items|)
    }

    ghost function Focused(): Option<nat>
      requires focus == NONE || focus < |items|
      reads this
    {
      if focus == NONE then None else Some(items[focus])
    }

    constructor (initial: seq<nat>)
      requires Distinct(initial) && |initial| < NONE
      ensures Valid() && items == initial && focus == NONE && fresh(table) && table.commands == []
    {
      items := initial;
      focus := NONE;
      editing := false;
      table := new CommandTable();
    }

    method FocusNext(from: nat, focusable: set<nat>) returns (index: nat)
      requires |items| < NONE
      ensures index == NONE || index < |items|
      ensures PassesTo(items, focusable, from, if index == NONE then None else Some(items[index]))
    {
      var i := from;
      while i < |items|
        invariant from <= i
        invariant forall k :: from <= k < i && k < |items| ==> items[k] !in focusable
      {
        if items[i] in focusable {
          return i;
        }
        i := i + 1;
      }
      i := if from < |items| then from else |items|;
      while i > 0
        invariant 0 <= i <= |items|
        invariant forall k :: 0 <= k < |items| && (k >= from || k >= i) ==> items[k] !in focusable
      {
        i := i - 1;
        if items[i] in focusable {
          assert i < from;
          return i;
        }
      }
      return NONE;
    }

    method PassFocus(from: nat, focusable: set<nat>)
      requires |items| < NONE
      modifies this`focus, this`editing
      ensures (focus == NONE || focus < |items|) && !editing
      ensures PassesTo(items, focusable, from, Focused())
    {
      var next := FocusNext(from, focusable);
      editing := false;
      focus := next;
    }

    /** The two memmoves. */
    method MoveItems(from: nat, to: nat)
      requires from < |items| && to < |items| && from != to
      modifies this`items
      ensures items == MoveRow(old(items), from, to)
    {
      ghost var was := items;
      var item := items[from];
      if from < to {
        items := items[..from] + items[from + 1..to + 1] + items[to..];
      } else {
        items := items[..to + 1] + items[to..from] + items[from + 1..];
      }
      items := items[to := item];
      assert items == MoveRow(was, from, to);
    }

    /** False for an index past the end. The focus and every command stay with their items. */
    method Move(from: nat, to: nat) returns (ok: bool)
      requires Valid()
      modifies this`items, this`focus, table
      ensures Valid() && ok == (from < old(|items|) && to < old(|items|))
      ensures items == if ok then MoveRow(old(items), from, to) else old(items)
      ensures Focused() == old(Focused())
      ensures Names(items, table.commands) == old(Names(items, table.commands))
    {
      if from >= |items| || to >= |items| {
        return false;
      }
      if from == to {
        assert MoveRow(items, from, to) == items;
        return true;
      }
      MovedCommandsKeepTheirRows(items, from, to, table.commands);
      MovingKeepsDistinct(items, from, to);
      if focus != NONE { MovedNamesTheSameRow(items, from, to, focus); }
      MoveItems(from, to);
      if focus != NONE {
        focus := Moved(focus, from, to);
      }
      table.RowMoved(from, to);
      ok := true;
    }

    /** False for an index past the end. The deleted item's commands go, and a lost focus passes on. */
    method Delete(item: nat, focusable: set<nat>) returns (ok: bool)
      requires Valid()
      modifies this`items, this`focus, this`editing, table
      ensures Valid() && ok == (item < old(|items|))
      ensures !ok ==> items == old(items) && focus == old(focus) && table.commands == old(table.commands)
      ensures ok ==>
                && items == DeleteRows(old(items), item, 1)
                && Names(items, table.commands)
                   == Without(old(Names(items, table.commands)), [old(items)[item]])
                && (old(focus) != item ==> Focused() == old(Focused()))
                && (old(focus) == item ==> PassesTo(items, focusable, item, Focused()))
    {
      if item >= |items| {
        return false;
      }
      DeletedCommandsKeepTheirRows(items, item, 1, table.commands);
      DeletionKeepsDistinct(items, item);
      assert items[item..item + 1] == [items[item]];
      var focused := focus == item;
      items := DeleteRows(items, item, 1);
      table.RowsDeleted(item, 1);
      if focused {
        PassFocus(item, focusable);
      } else if focus != NONE && focus > item {
        focus := focus - 1;
      }
      ok := true;
    }
  }

  lemma MovingKeepsDistinct(items: seq<nat>, from: nat, to: nat)
    requires Distinct(items) && from < |items| && to < |items|
    ensures Distinct(MoveRow(items, from, to))
  {
    var now := MoveRow(items, from, to);
    forall i, j | 0 <= i < j < |now| ensures now[i] != now[j] {
      MovedNamesTheSameRow(items, to, from, i);
      MovedNamesTheSameRow(items, to, from, j);
      MovedNamesTheSameRow(items, from, to, Moved(i, to, from));
      MovedNamesTheSameRow(items, from, to, Moved(j, to, from));
    }
  }
}
