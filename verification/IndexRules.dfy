/**
 Where a row index goes when rows are inserted, deleted or moved: the rules shared by lists,
 virtual lists, forms and item commands.

 The meaning of an index is the row it names, so the rules are stated against the sequence of rows
 the index points into. An index that names nothing is `NONE`, the largest value of the phone's
 32-bit `size_t`.
 */
module IndexRules {

  const NONE: nat := 0xFFFF_FFFF

  // ---- The sequence of rows

  function InsertRows<T>(rows: seq<T>, at: nat, added: seq<T>): seq<T>
    requires at <= |rows|
  {
    rows[..at] + added + rows[at..]
  }

  function DeleteRows<T>(rows: seq<T>, at: nat, count: nat): seq<T>
    requires at + count <= |rows|
  {
    rows[..at] + rows[at + count..]
  }

  /** The row at `from` taken out and put back so that it is at `to`. */
  function MoveRow<T>(rows: seq<T>, from: nat, to: nat): seq<T>
    requires from < |rows| && to < |rows|
  {
    var rest := rows[..from] + rows[from + 1..];
    rest[..to] + [rows[from]] + rest[to..]
  }

  // ---- The index rules

  function Inserted(index: nat, at: nat, count: nat): nat {
    if index != NONE && index >= at then index + count else index
  }

  function Deleted(index: nat, at: nat, count: nat): nat {
    if index == NONE || index < at then index
    else if index - at < count then NONE else index - count
  }

  function FocusDeleted(focus: nat, at: nat, count: nat, size: nat): nat {
    if at >= size then focus
    else
      var gone := if count > size - at then size - at else count;
      if gone == size then NONE
      else
        var index := Deleted(focus, at, gone);
        if index != NONE || focus == NONE then index
        else if at < size - gone then at else size - gone - 1
  }

  function Moved(index: nat, from: nat, to: nat): nat {
    if index == from then to
    else if from < to && from < index <= to then index - 1
    else if to < from && to <= index < from then index + 1
    else index
  }

  // ---- What the rules mean

  lemma InsertedNamesTheSameRow<T>(rows: seq<T>, at: nat, added: seq<T>, index: nat)
    requires at <= |rows| && index < |rows| < NONE
    ensures Inserted(index, at, |added|) < |InsertRows(rows, at, added)|
    ensures InsertRows(rows, at, added)[Inserted(index, at, |added|)] == rows[index]
  {
  }

  /** A surviving index names its old row; an index becomes NONE exactly when its row went. */
  lemma DeletedNamesTheSameRow<T>(rows: seq<T>, at: nat, count: nat, index: nat)
    requires at + count <= |rows| < NONE && index < |rows|
    ensures Deleted(index, at, count) == NONE <==> at <= index < at + count
    ensures Deleted(index, at, count) != NONE ==>
              Deleted(index, at, count) < |DeleteRows(rows, at, count)|
              && DeleteRows(rows, at, count)[Deleted(index, at, count)] == rows[index]
  {
  }

  /**
   The focus after a deletion: its own row while that survives; otherwise the first row after the
   deleted ones, which is the row that takes the place at `at`, or the last row when none follows.
   */
  lemma FocusDeletedFollowsTheRow<T>(rows: seq<T>, at: nat, count: nat, focus: nat)
    requires |rows| < NONE && at < |rows| && focus < |rows|
    ensures var gone := if count > |rows| - at then |rows| - at else count;
            var left := DeleteRows(rows, at, gone);
            var f := FocusDeleted(focus, at, count, |rows|);
            && (left == [] <==> f == NONE)
            && (left != [] ==>
                  && f < |left|
                  && (!(at <= focus < at + gone) ==> left[f] == rows[focus])
                  && (at <= focus < at + gone && at + gone < |rows| ==> left[f] == rows[at + gone])
                  && (at <= focus < at + gone == |rows| ==> left[f] == left[|left| - 1]))
  {
  }

  lemma DeletingWhatWasInsertedIsTheIdentity<T>(rows: seq<T>, at: nat, added: seq<T>, index: nat)
    requires at <= |rows| && index <= |rows| && |rows| + |added| < NONE
    ensures DeleteRows(InsertRows(rows, at, added), at, |added|) == rows
    ensures Deleted(Inserted(index, at, |added|), at, |added|) == index
  {
  }

  /** `Moved` is the permutation that moving a row performs, and moving it back undoes it. */
  lemma MovedNamesTheSameRow<T>(rows: seq<T>, from: nat, to: nat, index: nat)
    requires from < |rows| && to < |rows| && index < |rows|
    ensures Moved(index, from, to) < |rows| == |MoveRow(rows, from, to)|
    ensures MoveRow(rows, from, to)[Moved(index, from, to)] == rows[index]
    ensures Moved(Moved(index, from, to), to, from) == index
  {
  }
}
