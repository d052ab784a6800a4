/**
 A list's focus, its marks and its item commands, and a form's focus and item commands, followed by
 row instead of by index: whatever is inserted, deleted or moved, each keeps naming its own row.
 */
module RowTracking {
  import opened Basics
  import opened IndexRules
  import opened ItemCommands

  datatype Kind = Plain | Radio | Check

  /** A list by row: no index occurs in it. Rows are told apart by an identity. */
  datatype View = View(rows: seq<nat>, focus: Option<nat>, marked: set<nat>, commands: seq<(nat, int)>)

  // ---- What the operations mean

  function RowInserted(v: View, kind: Kind, at: nat, row: nat): View
    requires at <= |v.rows|
  {
    View(InsertRows(v.rows, at, [row]),
         if v.rows == [] then Some(row) else v.focus,
         if v.rows == [] && kind == Radio then {row} else v.marked,
         v.commands)
  }

  /** The row that takes the deleted row's place, else the new last row. */
  function Successor(rows: seq<nat>, at: nat): Option<nat> {
    if rows == [] then None else if at < |rows| then Some(rows[at]) else Some(rows[|rows| - 1])
  }

  function RowDeleted(v: View, kind: Kind, at: nat): View
    requires at < |v.rows|
  {
    var gone := v.rows[at];
    var left := DeleteRows(v.rows, at, 1);
    var focus := if v.focus == Some(gone) then Successor(left, at) else v.focus;
    View(left, focus,
         (v.marked - {gone}) + (if kind == Radio && gone in v.marked && focus.Some? then {focus.value} else {}),
         Without(v.commands, [gone]))
  }

  function RowMarked(v: View, kind: Kind, row: nat, on: bool): View {
    match kind
    case Plain => v
    case Radio => if on then v.(marked := {row}) else v
    case Check => v.(marked := if on then v.marked + {row} else v.marked - {row})
  }

  /** What the documentation promises of an exclusive list: one mark, on one of its rows. */
  predicate OneMark(v: View) {
    if v.rows == [] then v.marked == {} else exists r :: r in v.rows && v.marked == {r}
  }

  /** What each of a list's operations keeps. */
  predicate WellFormed(v: View, kind: Kind) {
    && Distinct(v.rows)
    && (v.rows == [] <==> v.focus == None) && (v.focus.Some? ==> v.focus.value in v.rows)
    && (forall r :: r in v.marked ==> r in v.rows)
    && (forall c :: c in v.commands ==> c.0 in v.rows)
    && (kind == Plain ==> v.marked == {}) && (kind == Radio ==> OneMark(v))
  }

  lemma {:induction false} WithoutDropsExactly<T>(names: seq<(T, int)>, gone: seq<T>, c: (T, int))
    ensures c in Without(names, gone) <==> c in names && c.0 !in gone
  {
    if names != [] {
      WithoutDropsExactly(names[1..], gone, c);
      assert names == [names[0]] + names[1..];
    }
  }

  lemma InsertionKeepsDistinct(rows: seq<nat>, at: nat, row: nat)
    requires Distinct(rows) && at <= |rows| && row !in rows
    ensures Distinct(InsertRows(rows, at, [row]))
    ensures forall r :: r in InsertRows(rows, at, [row]) <==> r in rows || r == row
  {
    var now := InsertRows(rows, at, [row]);
    assert now[at] == row;
    forall r | r in rows ensures r in now {
      var i :| 0 <= i < |rows| && rows[i] == r;
      assert now[Inserted(i, at, 1)] == r || i >= NONE;
      assert now[if i < at then i else i + 1] == r;
    }
  }

  lemma DeletionKeepsDistinct(rows: seq<nat>, at: nat)
    requires Distinct(rows) && at < |rows|
    ensures Distinct(DeleteRows(rows, at, 1))
    ensures forall r :: r in DeleteRows(rows, at, 1) <==> r in rows && r != rows[at]
  {
    var now := DeleteRows(rows, at, 1);
    forall r | r in rows && r != rows[at] ensures r in now {
      var i :| 0 <= i < |rows| && rows[i] == r;
      assert now[if i < at then i else i - 1] == r;
    }
  }

  lemma InsertionKeepsWellFormed(v: View, kind: Kind, at: nat, row: nat)
    requires WellFormed(v, kind) && at <= |v.rows| && row !in v.rows
    ensures WellFormed(RowInserted(v, kind, at, row), kind)
  {
    InsertionKeepsDistinct(v.rows, at, row);
    if kind == Radio { assert row in RowInserted(v, kind, at, row).rows; }
  }

  /** A deletion keeps the list well formed: the mark of an exclusive list moves on. */
  lemma DeletionKeepsWellFormed(v: View, kind: Kind, at: nat)
    requires WellFormed(v, kind) && at < |v.rows|
    ensures WellFormed(RowDeleted(v, kind, at), kind)
  {
    DeletionKeepsDistinct(v.rows, at);
    var now := RowDeleted(v, kind, at);
    forall c | c in now.commands ensures c.0 in now.rows {
      WithoutDropsExactly(v.commands, [v.rows[at]], c);
    }
    if kind == Radio {
      var r :| r in v.rows && v.marked == {r};
      if r == v.rows[at] {
        if now.rows != [] { assert now.marked == {now.focus.value}; }
        else { assert now.marked == {}; }
      } else {
        assert now.marked == {r} && r in now.rows;
      }
    }
  }

  lemma RowsComeBack(rows: seq<nat>, at: nat, row: nat)
    requires at <= |rows|
    ensures var all := InsertRows(rows, at, [row]);
      |all| == |rows| + 1 && all[at] == row && DeleteRows(all, at, 1) == rows
  {
    var all := InsertRows(rows, at, [row]);
    assert all[..at] == rows[..at] && all[at + 1..] == rows[at..];
  }

  /** A deleted row that nothing names leaves everything but the rows. */
  lemma DeletingAnUnnamedRow(v: View, kind: Kind, at: nat)
    requires at < |v.rows| && v.focus != Some(v.rows[at]) && v.rows[at] !in v.marked
    requires forall c :: c in v.commands ==> c.0 != v.rows[at]
    ensures RowDeleted(v, kind, at) == v.(rows := DeleteRows(v.rows, at, 1))
  {
    WithoutNothing(v.commands, v.rows[at]);
    assert v.marked - {v.rows[at]} == v.marked;
  }

  lemma DeletingTheOnlyRow(v: View, kind: Kind)
    requires |v.rows| == 1 && v.focus == Some(v.rows[0]) && v.marked <= {v.rows[0]}
    requires forall c :: c in v.commands ==> c.0 != v.rows[0]
    ensures RowDeleted(v, kind, 0) == View([], None, {}, v.commands)
  {
    WithoutNothing(v.commands, v.rows[0]);
    assert DeleteRows(v.rows, 0, 1) == [];
    assert v.marked - {v.rows[0]} == {};
  }

  /** Deleting a row right after inserting it restores the whole list. */
  lemma InsertThenDeleteIsTheIdentity(v: View, kind: Kind, at: nat, row: nat)
    requires WellFormed(v, kind) && at <= |v.rows| && row !in v.rows
    ensures RowDeleted(RowInserted(v, kind, at, row), kind, at) == v
  {
    RowsComeBack(v.rows, at, row);
    var inserted := RowInserted(v, kind, at, row);
    if v.rows == [] {
      assert v.marked == {};
      DeletingTheOnlyRow(inserted, kind);
    } else {
      DeletingAnUnnamedRow(inserted, kind, at);
    }
  }

  lemma {:induction false} WithoutNothing(names: seq<(nat, int)>, row: nat)
    requires forall c :: c in names ==> c.0 != row
    ensures Without(names, [row]) == names
  {
    if names != [] {
      assert names[0] in names && forall c :: c in names[1..] ==> c in names;
      WithoutNothing(names[1..], row);
    }
  }

  // ---- Runs

  datatype Op = Insert(at: nat, row: nat) | Delete(at: nat) | Mark(at: nat, on: bool) | Select(at: nat) | Command(at: nat, id: int)

  predicate Possible(v: View, op: Op) {
    match op
    case Insert(at, row) => at <= |v.rows| && row !in v.rows
    case _ => op.at < |v.rows|
  }

  function Step(v: View, kind: Kind, op: Op): View
    requires Possible(v, op)
  {
    match op
    case Insert(at, row) => RowInserted(v, kind, at, row)
    case Delete(at) => RowDeleted(v, kind, at)
    case Mark(at, on) => RowMarked(v, kind, v.rows[at], on)
    case Select(at) => v.(focus := Some(v.rows[at]))
    case Command(at, id) =>
      if (v.rows[at], id) in v.commands then v else v.(commands := v.commands + [(v.rows[at], id)])
  }

  lemma StepKeepsWellFormed(v: View, kind: Kind, op: Op)
    requires WellFormed(v, kind) && Possible(v, op)
    ensures WellFormed(Step(v, kind, op), kind)
  {
    match op
    case Insert(at, row) => InsertionKeepsWellFormed(v, kind, at, row);
    case Delete(at) => DeletionKeepsWellFormed(v, kind, at);
    case Mark(at, on) =>
      if kind == Radio { assert v.rows[at] in v.rows; }
    case _ =>
  }

  /** Until its row goes, and unless it is selected or marked away, each thing names the same row. */
  lemma StepKeepsNaming(v: View, kind: Kind, op: Op, row: nat)
    requires WellFormed(v, kind) && Possible(v, op) && row in v.rows
    requires op.Delete? ==> v.rows[op.at] != row
    ensures row in Step(v, kind, op).rows
    ensures v.focus == Some(row) && !op.Select? ==> Step(v, kind, op).focus == Some(row)
    ensures row in v.marked && !op.Mark? ==> row in Step(v, kind, op).marked
    ensures forall id :: (row, id) in v.commands ==> (row, id) in Step(v, kind, op).commands
    ensures forall id :: (row, id) in Step(v, kind, op).commands && !op.Command? ==> (row, id) in v.commands
  {
    match op
    case Insert(at, added) => InsertionKeepsDistinct(v.rows, at, added);
    case Delete(at) =>
      DeletionKeepsDistinct(v.rows, at);
      forall id {
        WithoutDropsExactly(v.commands, [v.rows[at]], (row, id));
      }
    case _ =>
  }

  /** A marking concerns one row; in an exclusive list the others lose theirs, and only a new mark takes it away. */
  lemma MarkMeans(v: View, kind: Kind, at: nat, on: bool)
    requires WellFormed(v, kind) && at < |v.rows|
    ensures var now, row := Step(v, kind, Mark(at, on)), v.rows[at];
      && (kind == Check ==> (row in now.marked <==> on))
      && (kind == Radio ==> (row in now.marked <==> on || row in v.marked))
      && (forall r :: r != row ==> (r in now.marked <==> r in v.marked && !(kind == Radio && on)))
      && now.rows == v.rows && now.focus == v.focus && now.commands == v.commands
  {
    assert kind == Plain ==> v.marked == {};
  }

  /** A mark that changed something is undone by the opposite one, or by marking the row that had it. */
  lemma MarkingBack(v: View, kind: Kind, at: nat, on: bool, back: nat)
    requires WellFormed(v, kind) && at < |v.rows| && back < |v.rows|
    ensures kind == Check && (v.rows[at] in v.marked) != on ==> Step(Step(v, kind, Mark(at, on)), kind, Mark(at, !on)) == v
    ensures kind == Radio && v.rows[back] in v.marked ==> Step(Step(v, kind, Mark(at, on)), kind, Mark(back, true)) == v
  {
    if kind == Check {
      var row := v.rows[at];
      assert on && row !in v.marked ==> (v.marked + {row}) - {row} == v.marked;
      assert !on && row in v.marked ==> (v.marked - {row}) + {row} == v.marked;
    }
  }

  /** The selected row has the focus, and nothing else changes. */
  lemma SelectMeans(v: View, kind: Kind, at: nat)
    requires WellFormed(v, kind) && at < |v.rows|
    ensures Step(v, kind, Select(at)) == View(v.rows, Some(v.rows[at]), v.marked, v.commands)
  {
  }

  /** A command is on its row, once and after those before it, and nothing else changes. */
  lemma CommandMeans(v: View, kind: Kind, at: nat, id: int)
    requires WellFormed(v, kind) && at < |v.rows|
    ensures var now, more := Step(v, kind, Command(at, id)), (v.rows[at], id);
      && more in now.commands && v.commands <= now.commands
      && |now.commands| == |v.commands| + (if more in v.commands then 0 else 1)
      && now.rows == v.rows && now.focus == v.focus && now.marked == v.marked
  {
    var now, more := Step(v, kind, Command(at, id)), (v.rows[at], id);
    assert more in v.commands || now.commands[|v.commands|] == more;
  }

  /**
   With a row go its mark and its commands and nothing else; the focus goes to the row after it, or to
   the one before it at the end, and an exclusive mark goes where the focus is.
   */
  lemma DeletionMeans(v: View, kind: Kind, at: nat)
    requires WellFormed(v, kind) && at < |v.rows|
    ensures var now, row, n := Step(v, kind, Delete(at)), v.rows[at], |v.rows|;
      && now.rows == v.rows[..at] + v.rows[at + 1..]
      && now.focus == (if v.focus != Some(row) then v.focus else if n == 1 then None
                       else if at + 1 < n then Some(v.rows[at + 1]) else Some(v.rows[at - 1]))
      && (forall c :: c in now.commands <==> c in v.commands && c.0 != row)
      && (forall r :: r in now.marked <==>
            (r != row && r in v.marked) || (kind == Radio && row in v.marked && now.focus == Some(r)))
  {
    var now := Step(v, kind, Delete(at));
    assert now.rows == v.rows[..at] + v.rows[at + 1..];
    forall c: (nat, int) {
      WithoutDropsExactly(v.commands, [v.rows[at]], c);
    }
  }

  ghost predicate PossibleRun(v: View, kind: Kind, ops: seq<Op>)
    decreases |ops|
  {
    ops == [] || (Possible(v, ops[0]) && PossibleRun(Step(v, kind, ops[0]), kind, ops[1..]))
  }

  ghost function Run(v: View, kind: Kind, ops: seq<Op>): View
    requires PossibleRun(v, kind, ops)
    decreases |ops|
  {
    if ops == [] then v else Run(Step(v, kind, ops[0]), kind, ops[1..])
  }

  /** In every run an exclusive list has exactly one mark, and focus, marks and commands name rows that exist. */
  lemma {:induction false} RunKeepsWellFormed(v: View, kind: Kind, ops: seq<Op>)
    requires WellFormed(v, kind) && PossibleRun(v, kind, ops)
    ensures WellFormed(Run(v, kind, ops), kind)
    decreases |ops|
  {
    if ops != [] {
      StepKeepsWellFormed(v, kind, ops[0]);
      RunKeepsWellFormed(Step(v, kind, ops[0]), kind, ops[1..]);
    }
  }

  /** The run never deletes the row. */
  ghost predicate Spares(v: View, kind: Kind, ops: seq<Op>, row: nat)
    requires PossibleRun(v, kind, ops)
    decreases |ops|
  {
    ops == []
    || ((ops[0].Delete? ==> v.rows[ops[0].at] != row) && Spares(Step(v, kind, ops[0]), kind, ops[1..], row))
  }

  /**
   In every run that spares a row, what named it goes on naming it: the focus until a selection, the
   mark until a marking, and its commands throughout; no others come to name it but by a command.
   */
  lemma {:induction false} RunKeepsNaming(v: View, kind: Kind, ops: seq<Op>, row: nat)
    requires WellFormed(v, kind) && PossibleRun(v, kind, ops) && Spares(v, kind, ops, row) && row in v.rows
    ensures var last := Run(v, kind, ops);
      && row in last.rows
      && (v.focus == Some(row) && (forall op :: op in ops ==> !op.Select?) ==> last.focus == Some(row))
      && (row in v.marked && (forall op :: op in ops ==> !op.Mark?) ==> row in last.marked)
      && (forall id :: (row, id) in v.commands ==> (row, id) in last.commands)
      && ((forall op :: op in ops ==> !op.Command?) ==>
            forall id :: (row, id) in last.commands ==> (row, id) in v.commands)
    decreases |ops|
  {
    if ops != [] {
      assert ops[0] in ops && forall op :: op in ops[1..] ==> op in ops;
      StepKeepsWellFormed(v, kind, ops[0]);
      StepKeepsNaming(v, kind, ops[0], row);
      RunKeepsNaming(Step(v, kind, ops[0]), kind, ops[1..], row);
    }
  }

  // ---- The list as the code keeps it

  class StoredList {
    const kind: Kind
    var rows: seq<nat>
    var selected: nat
    var radio: nat
    /** The rows whose objects have the marked state. */
    var marked: set<nat>
    const table: CommandTable

    ghost predicate Valid()
      reads this, table
    {
      && |rows| < NONE && Distinct(rows) && InRange(table.commands, |rows|)
      && (if rows == [] then selected == 0 else selected < |rows|)
      && (if kind == Radio && rows != [] then radio < |rows| && marked == {rows[radio]} else radio == NONE)
      && (kind == Radio && rows == [] ==> marked == {})
      && WellFormed(Abs(), kind)
    }

    ghost function Abs(): View
      requires |rows| < NONE && InRange(table.commands, |rows|)
      requires if rows == [] then selected == 0 else selected < |rows|
      reads this, table
    {
      View(rows, if rows == [] then None else Some(rows[selected]), marked, Names(rows, table.commands))
    }

    constructor (kind: Kind)
      ensures Valid() && this.kind == kind && fresh(table)
      ensures Abs() == View([], None, {}, [])
    {
      this.kind := kind;
      rows := [];
      selected := 0;
      radio := NONE;
      marked := {};
      table := new CommandTable();
    }

    method SetMarked(index: nat, on: bool)
      requires Valid()
      modifies this`radio, this`marked
      ensures Valid() && rows == old(rows)
      ensures Abs() == if index < |rows| then RowMarked(old(Abs()), kind, rows[index], on) else old(Abs())
    {
      ghost var was := Abs();
      if index >= |rows| || kind == Plain {
        return;
      }
      StepKeepsWellFormed(was, kind, Mark(index, on));
      if kind == Radio {
        if !on || index == radio {
          return;
        }
        if radio != NONE {
          marked := marked - {rows[radio]};
        }
        radio := index;
      }
      marked := if on then marked + {rows[index]} else marked - {rows[index]};
      assert Abs() == RowMarked(was, kind, rows[index], on);
    }

    /** Nothing for an index past the end. */
    method SelectRow(index: nat)
      requires Valid()
      modifies this`selected
      ensures Valid() && Abs() == if index < |rows| then Step(old(Abs()), kind, Select(index)) else old(Abs())
    {
      if index >= |rows| || index == selected {
        return;
      }
      StepKeepsWellFormed(Abs(), kind, Select(index));
      selected := index;
    }

    /** False for an index past the end. */
    method AddCommand(index: nat, id: int) returns (ok: bool)
      requires Valid() && |table.commands| < NONE
      modifies table
      ensures Valid() && ok == (index < |rows|)
      ensures Abs() == if ok then Step(old(Abs()), kind, Command(index, id)) else old(Abs())
    {
      if index >= |rows| {
        return false;
      }
      StepKeepsWellFormed(Abs(), kind, Command(index, id));
      AddingNamesTheRow(rows, table.commands, index, id);
      table.Add(index, id);
      ok := true;
    }

    method Append(row: nat)
      requires Valid() && row !in rows && |rows| + 1 < NONE
      modifies this`rows, this`radio, this`marked
      ensures Valid() && Abs() == RowInserted(old(Abs()), kind, old(|rows|), row)
      ensures table.commands == old(table.commands)
    {
      ghost var was := Abs();
      var index := |rows|;
      InsertionKeepsWellFormed(was, kind, index, row);
      InsertedCommandsKeepTheirRows(rows, index, [row], table.commands);
      AppendingMovesNoCommand(table.commands, index);
      rows := rows + [row];
      assert rows == InsertRows(was.rows, index, [row]);
      if index == 0 && kind == Radio {
        radio := 0;
        marked := marked + {row};
      }
      assert Abs() == RowInserted(was, kind, index, row);
    }

    /** False for an index past the end. */
    method Insert(index: nat, row: nat) returns (ok: bool)
      requires Valid() && row !in rows && |rows| + 1 < NONE
      modifies this`rows, this`selected, this`radio, this`marked, table
      ensures Valid() && ok == (index <= old(|rows|))
      ensures Abs() == if ok then RowInserted(old(Abs()), kind, index, row) else old(Abs())
    {
      if index > |rows| {
        return false;
      }
      ghost var was := Abs();
      ghost var commands := table.commands;
      if index == |rows| {
        AppendingMovesNoCommand(table.commands, index);
        Append(row);
      } else {
        InsertionKeepsWellFormed(was, kind, index, row);
        InsertedNamesTheSameRow(rows, index, [row], selected);
        if radio != NONE { InsertedNamesTheSameRow(rows, index, [row], radio); }
        rows := InsertRows(rows, index, [row]);
        selected := Inserted(selected, index, 1);
        if radio != NONE {
          radio := Inserted(radio, index, 1);
        }
      }
      InsertedCommandsKeepTheirRows(was.rows, index, [row], commands);
      table.RowsInserted(index, 1);
      ok := true;
    }

    /** The list view's part: the row object goes with its mark, and the indices follow. */
    method RemoveRow(index: nat)
      requires Valid() && index < |rows|
      modifies this`rows, this`selected, this`radio, this`marked
      ensures var now := RowDeleted(old(Abs()), kind, index);
              && rows == now.rows && marked == now.marked
              && (if rows == [] then selected == 0 && now.focus == None
                  else selected < |rows| && now.focus == Some(rows[selected]))
              && (if kind == Radio && rows != [] then radio < |rows| && marked == {rows[radio]} else radio == NONE)
    {
      RemovalByIndexIsByRow(Abs(), kind, index, selected, radio);
      var focus := selected;
      marked := marked - {rows[index]};
      rows := DeleteRows(rows, index, 1);
      selected := FocusDeleted(focus, index, 1, |rows| + 1);
      var mark := radio;
      radio := Deleted(mark, index, 1);
      if mark == index && selected != NONE {
        radio := selected;
        marked := marked + {rows[radio]};
      }
      if selected == NONE {
        selected := 0;
      }
    }

    /** False for an index past the end. */
    method Remove(index: nat) returns (ok: bool)
      requires Valid()
      modifies this`rows, this`selected, this`radio, this`marked, table
      ensures Valid() && ok == (index < old(|rows|))
      ensures Abs() == if ok then RowDeleted(old(Abs()), kind, index) else old(Abs())
    {
      if index >= |rows| {
        return false;
      }
      ghost var was, commands := Abs(), table.commands;
      DeletionKeepsWellFormed(was, kind, index);
      DeletedCommandsKeepTheirRow(rows, index, commands);
      RemoveRow(index);
      table.RowsDeleted(index, 1);
      ok := true;
    }
  }

  lemma DeletedCommandsKeepTheirRow(rows: seq<nat>, at: nat, commands: seq<ItemCommand>)
    requires at < |rows| < NONE && Distinct(rows) && InRange(commands, |rows|)
    ensures var left := DeletedCommands(commands, at, 1);
      InRange(left, |rows| - 1) && Names(DeleteRows(rows, at, 1), left) == Without(Names(rows, commands), [rows[at]])
  {
    DeletedCommandsKeepTheirRows(rows, at, 1, commands);
    assert rows[at..at + 1] == [rows[at]];
  }

  lemma {:induction false} NamedByIndex(rows: seq<nat>, cs: seq<ItemCommand>, index: nat, id: int)
    requires Distinct(rows) && InRange(cs, |rows|) && index < |rows|
    ensures (rows[index], id) in Names(rows, cs) <==> ItemCommand(index, id) in cs
  {
    if cs != [] {
      TailInRange(cs, |rows|);
      NamedByIndex(rows, cs[1..], index, id);
      assert Names(rows, cs)[1..] == Names(rows, cs[1..]);
      assert cs == [cs[0]] + cs[1..] && Names(rows, cs) == [Names(rows, cs)[0]] + Names(rows, cs)[1..];
      assert cs[0] in cs;
    }
  }

  lemma {:induction false} OneMoreName(rows: seq<nat>, cs: seq<ItemCommand>, c: ItemCommand)
    requires InRange(cs, |rows|) && c.index < |rows|
    ensures InRange(cs + [c], |rows|) && Names(rows, cs + [c]) == Names(rows, cs) + [(rows[c.index], c.id)]
  {
    if cs == [] {
      assert cs + [c] == [c];
    } else {
      TailInRange(cs, |rows|);
      OneMoreName(rows, cs[1..], c);
      assert (cs + [c])[1..] == cs[1..] + [c];
    }
  }

  lemma AddingNamesTheRow(rows: seq<nat>, cs: seq<ItemCommand>, index: nat, id: int)
    requires Distinct(rows) && InRange(cs, |rows|) && index < |rows|
    ensures (rows[index], id) in Names(rows, cs) <==> ItemCommand(index, id) in cs
    ensures var more := cs + [ItemCommand(index, id)];
      InRange(more, |rows|) && Names(rows, more) == Names(rows, cs) + [(rows[index], id)]
  {
    NamedByIndex(rows, cs, index, id);
    OneMoreName(rows, cs, ItemCommand(index, id));
  }

  /** The index rules, applied to the selection and to the radio mark, do what `RowDeleted` says. */
  lemma RemovalByIndexIsByRow(v: View, kind: Kind, at: nat, selected: nat, radio: nat)
    requires WellFormed(v, kind) && at < |v.rows| < NONE
    requires selected < |v.rows| && v.focus == Some(v.rows[selected])
    requires if kind == Radio then radio < |v.rows| && v.marked == {v.rows[radio]} else radio == NONE
    ensures var now := RowDeleted(v, kind, at);
            var f := FocusDeleted(selected, at, 1, |v.rows|);
            var r := if radio == at then f else Deleted(radio, at, 1);
            && |now.rows| + 1 == |v.rows|
            && (now.rows == [] <==> f == NONE)
            && (now.rows != [] ==> f < |now.rows| && now.focus == Some(now.rows[f]))
            && (now.rows == [] ==> now.focus == None)
            && (if kind == Radio && now.rows != [] then r < |now.rows| && now.marked == {now.rows[r]}
                else r == NONE)
            && now.marked == (v.marked - {v.rows[at]})
                             + (if radio == at && f != NONE then {now.rows[f]} else {})
  {
    FocusDeletedFollowsTheRow(v.rows, at, 1, selected);
    if kind == Radio {
      DeletedNamesTheSameRow(v.rows, at, 1, radio);
      assert v.rows[at] in v.marked <==> radio == at;
    }
    var now := RowDeleted(v, kind, at);
    var f := FocusDeleted(selected, at, 1, |v.rows|);
    if selected == at {
      assert now.focus == Successor(now.rows, at);
    } else {
      assert now.focus == v.focus && f != NONE && now.rows[f] == v.rows[selected];
    }
  }

  lemma AppendingMovesNoCommand(cs: seq<ItemCommand>, size: nat)
    requires InRange(cs, size)
    ensures InsertedCommands(cs, size, 1) == cs
  {
    forall i | 0 <= i < |cs|
      ensures InsertedCommands(cs, size, 1)[i] == cs[i]
    {
      assert cs[i] in cs;
    }
  }
}
