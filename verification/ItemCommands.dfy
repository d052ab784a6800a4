/**
 Item commands and options menu entries name their row by index. When rows come, go or move, the
 indices are rewritten; the commands keep naming the same rows.
 */
module ItemCommands {
  import opened Basics
  import opened IndexRules

  datatype ItemCommand = ItemCommand(index: nat, id: int)

  predicate InRange(cs: seq<ItemCommand>, size: nat) {
    forall c :: c in cs ==> c.index < size
  }

  // ---- The commands by row instead of by index

  function Names<T>(rows: seq<T>, cs: seq<ItemCommand>): seq<(T, int)>
    requires InRange(cs, |rows|)
  {
    if cs == [] then [] else
      assert forall c :: c in cs[1..] ==> c in cs;
      [(rows[cs[0].index], cs[0].id)] + Names(rows, cs[1..])
  }

  /** The named commands without those of rows in `gone`. */
  function Without<T(==)>(names: seq<(T, int)>, gone: seq<T>): seq<(T, int)> {
    if names == [] then []
    else (if names[0].0 in gone then [] else [names[0]]) + Without(names[1..], gone)
  }

  // ---- The commands by index

  function InsertedCommands(cs: seq<ItemCommand>, at: nat, count: nat): seq<ItemCommand> {
    seq(|cs|, i requires 0 <= i < |cs| => cs[i].(index := Inserted(cs[i].index, at, count)))
  }

  function DeletedCommands(cs: seq<ItemCommand>, at: nat, count: nat): seq<ItemCommand> {
    if cs == [] then []
    else
      var index := Deleted(cs[0].index, at, count);
      (if index == NONE then [] else [cs[0].(index := index)]) + DeletedCommands(cs[1..], at, count)
  }

  function MovedCommands(cs: seq<ItemCommand>, from: nat, to: nat): seq<ItemCommand> {
    seq(|cs|, i requires 0 <= i < |cs| => cs[i].(index := Moved(cs[i].index, from, to)))
  }

  lemma TailInRange(cs: seq<ItemCommand>, size: nat)
    requires InRange(cs, size) && cs != []
    ensures cs[0].index < size && InRange(cs[1..], size)
  {
    assert cs[0] in cs;
    assert forall c :: c in cs[1..] ==> c in cs;
  }

  /** An insertion changes no command's row. */
  lemma {:induction false} InsertedCommandsKeepTheirRows<T>(rows: seq<T>, at: nat, added: seq<T>, cs: seq<ItemCommand>)
    requires at <= |rows| && |rows| + |added| < NONE && InRange(cs, |rows|)
    ensures InRange(InsertedCommands(cs, at, |added|), |rows| + |added|)
    ensures Names(InsertRows(rows, at, added), InsertedCommands(cs, at, |added|)) == Names(rows, cs)
  {
    var now := InsertedCommands(cs, at, |added|);
    forall c | c in now ensures c.index < |rows| + |added| {
      var i :| 0 <= i < |now| && now[i] == c;
      assert cs[i] in cs;
    }
    if cs != [] {
      TailInRange(cs, |rows|);
      InsertedCommandsKeepTheirRows(rows, at, added, cs[1..]);
      assert now[1..] == InsertedCommands(cs[1..], at, |added|);
      InsertedNamesTheSameRow(rows, at, added, cs[0].index);
    }
  }

  /** A move changes no command's row. */
  lemma {:induction false} MovedCommandsKeepTheirRows<T>(rows: seq<T>, from: nat, to: nat, cs: seq<ItemCommand>)
    requires from < |rows| && to < |rows| && InRange(cs, |rows|)
    ensures InRange(MovedCommands(cs, from, to), |rows|)
    ensures Names(MoveRow(rows, from, to), MovedCommands(cs, from, to)) == Names(rows, cs)
  {
    var now := MovedCommands(cs, from, to);
    forall c | c in now ensures c.index < |rows| {
      var i :| 0 <= i < |now| && now[i] == c;
      assert cs[i] in cs;
    }
    if cs != [] {
      TailInRange(cs, |rows|);
      MovedCommandsKeepTheirRows(rows, from, to, cs[1..]);
      assert now[1..] == MovedCommands(cs[1..], from, to);
      MovedNamesTheSameRow(rows, from, to, cs[0].index);
    }
  }

  /** A deletion drops exactly the commands of the deleted rows and keeps the order of the others. */
  lemma {:induction false} DeletedCommandsKeepTheirRows<T>(rows: seq<T>, at: nat, count: nat, cs: seq<ItemCommand>)
    requires Distinct(rows) && at + count <= |rows| < NONE && InRange(cs, |rows|)
    ensures InRange(DeletedCommands(cs, at, count), |rows| - count)
    ensures Names(DeleteRows(rows, at, count), DeletedCommands(cs, at, count))
            == Without(Names(rows, cs), rows[at..at + count])
  {
    if cs != [] {
      TailInRange(cs, |rows|);
      DeletedCommandsKeepTheirRows(rows, at, count, cs[1..]);
      DeletedNamesTheSameRow(rows, at, count, cs[0].index);
      GoneExactlyInside(rows, at, count, cs[0].index);
      var index := Deleted(cs[0].index, at, count);
      var now := DeletedCommands(cs, at, count);
      if index != NONE {
        assert now[1..] == DeletedCommands(cs[1..], at, count);
      } else {
        assert now == DeletedCommands(cs[1..], at, count);
      }
      assert Names(rows, cs)[1..] == Names(rows, cs[1..]);
    }
  }

  lemma GoneExactlyInside<T>(rows: seq<T>, at: nat, count: nat, index: nat)
    requires Distinct(rows) && at + count <= |rows| && index < |rows|
    ensures rows[index] in rows[at..at + count] <==> at <= index < at + count
  {
    if at <= index < at + count {
      assert rows[at..at + count][index - at] == rows[index];
    }
  }

  /** Deleting what was inserted gives back every command with its old index. */
  lemma {:induction false} InsertThenDeleteRestoresCommands(cs: seq<ItemCommand>, at: nat, count: nat, size: nat)
    requires InRange(cs, size) && size + count < NONE
    ensures DeletedCommands(InsertedCommands(cs, at, count), at, count) == cs
  {
    if cs != [] {
      TailInRange(cs, size);
      InsertThenDeleteRestoresCommands(cs[1..], at, count, size);
      assert InsertedCommands(cs, at, count)[1..] == InsertedCommands(cs[1..], at, count);
    }
  }

  // ---- The tables as the screen keeps them

  /** One command more, going down: dropped, or renumbered in its place. */
  lemma OneMoreDeleted(cs: seq<ItemCommand>, i: nat, at: nat, count: nat)
    requires i < |cs|
    ensures var now := cs[..i + 1] + DeletedCommands(cs[i + 1..], at, count);
      var index := Deleted(cs[i].index, at, count);
      cs[..i] + DeletedCommands(cs[i..], at, count)
        == if index == NONE then now[..i] + now[i + 1..] else now[i := cs[i].(index := index)]
  {
    assert cs[i..][1..] == cs[i + 1..];
    var now := cs[..i + 1] + DeletedCommands(cs[i + 1..], at, count);
    assert now[..i] == cs[..i] && now[i + 1..] == DeletedCommands(cs[i + 1..], at, count);
  }

  class CommandTable {
    var commands: seq<ItemCommand>
    /** The rows that the open options menu's entries name, NONE for a row that went. */
    var menu: seq<nat>

    constructor ()
      ensures commands == [] && menu == []
    {
      commands := [];
      menu := [];
    }

    /** Where a command with this row and identity is, NONE without one. */
    method Find(index: nat, id: int) returns (at: nat)
      requires |commands| < NONE
      ensures at == NONE ==> ItemCommand(index, id) !in commands
      ensures at != NONE ==> at < |commands| && commands[at] == ItemCommand(index, id)
    {
      for i := 0 to |commands|
        invariant ItemCommand(index, id) !in commands[..i]
      {
        if commands[i].index == index && commands[i].id == id {
          return i;
        }
      }
      assert commands[..|commands|] == commands;
      return NONE;
    }

    /** A command of the same row and identity is replaced where it is. */
    method Add(index: nat, id: int)
      requires |commands| < NONE
      modifies this`commands
      ensures commands == if ItemCommand(index, id) in old(commands) then old(commands)
                          else old(commands) + [ItemCommand(index, id)]
    {
      var at := Find(index, id);
      if at == NONE {
        commands := commands + [ItemCommand(index, id)];
      } else {
        commands := commands[at := ItemCommand(index, id)];
      }
    }

    method Drop(at: nat)
      requires at < |commands|
      modifies this`commands
      ensures commands == old(commands)[..at] + old(commands)[at + 1..]
    {
      commands := commands[..at] + commands[at + 1..];
    }

    method RowsInserted(at: nat, count: nat)
      modifies this
      ensures commands == InsertedCommands(old(commands), at, count)
      ensures menu == seq(old(|menu|), i requires 0 <= i < old(|menu|) => Inserted(old(menu)[i], at, count))
    {
      ghost var was := commands;
      for i := 0 to |commands|
        invariant |commands| == |was| && commands[i..] == was[i..] && menu == old(menu)
        invariant forall k :: 0 <= k < i ==> commands[k] == InsertedCommands(was, at, count)[k]
      {
        assert commands[i] == commands[i..][0] == was[i];
        commands := commands[i := commands[i].(index := Inserted(commands[i].index, at, count))];
      }
      menu := seq(|menu|, i requires 0 <= i < |menu| reads this => Inserted(menu[i], at, count));
    }

    /** From the last command down, so that a drop moves only commands already seen. */
    method RowsDeleted(at: nat, count: nat)
      modifies this
      ensures commands == DeletedCommands(old(commands), at, count)
      ensures menu == seq(old(|menu|), i requires 0 <= i < old(|menu|) => Deleted(old(menu)[i], at, count))
    {
      ghost var was := commands;
      var i := |commands|;
      while i > 0
        invariant 0 <= i <= |was| && menu == old(menu)
        invariant commands == was[..i] + DeletedCommands(was[i..], at, count)
      {
        i := i - 1;
        OneMoreDeleted(was, i, at, count);
        assert commands[i] == was[i];
        var index := Deleted(commands[i].index, at, count);
        if index == NONE {
          Drop(i);
        } else {
          commands := commands[i := commands[i].(index := index)];
        }
      }
      assert was[0..] == was;
      menu := seq(|menu|, i requires 0 <= i < |menu| reads this => Deleted(menu[i], at, count));
    }

    method RowMoved(from: nat, to: nat)
      modifies this
      ensures commands == MovedCommands(old(commands), from, to)
      ensures menu == seq(old(|menu|), i requires 0 <= i < old(|menu|) => Moved(old(menu)[i], from, to))
    {
      ghost var was := commands;
      for i := 0 to |commands|
        invariant |commands| == |was| && commands[i..] == was[i..] && menu == old(menu)
        invariant forall k :: 0 <= k < i ==> commands[k] == MovedCommands(was, from, to)[k]
      {
        assert commands[i] == commands[i..][0] == was[i];
        commands := commands[i := commands[i].(index := Moved(commands[i].index, from, to))];
      }
      menu := seq(|menu|, i requires 0 <= i < |menu| reads this => Moved(menu[i], from, to));
    }
  }
}
