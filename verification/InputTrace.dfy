/**
 The events of an input session, seen by device id: a device is added, its keys and buttons go down and
 up in turn, everything still down is released, and it is removed. Nothing follows.
 */
module InputTrace {

  const KEY_COUNT: nat := 768

  datatype Event =
    | Added(id: nat)
    | Key(id: nat, code: nat, pressed: bool)
    | Motion(id: nat, dx: int, dy: int)
    | Wheel(id: nat, clicks: int)
    | Removed(id: nat)

  /** What the events so far say of one id. */
  datatype Life = Absent | Live(down: set<nat>) | Gone | Wrong

  function Step(life: Life, e: Event): Life {
    match e
    case Added(_) => if life.Absent? then Live({}) else Wrong
    case Key(_, code, pressed) =>
      if life.Live? && (code in life.down) != pressed
      then Live(if pressed then life.down + {code} else life.down - {code}) else Wrong
    case Motion(_, _, _) => if life.Live? then life else Wrong
    case Wheel(_, _) => if life.Live? then life else Wrong
    case Removed(_) => if life == Live({}) then Gone else Wrong
  }

  function LifeOf(trace: seq<Event>, id: nat): Life {
    if trace == [] then Absent
    else
      var before := LifeOf(trace[..|trace| - 1], id);
      var e := trace[|trace| - 1];
      if e.id == id then Step(before, e) else before
  }

  lemma LifeOfMore(trace: seq<Event>, e: Event, id: nat)
    ensures LifeOf(trace + [e], id) == if e.id == id then Step(LifeOf(trace, id), e) else LifeOf(trace, id)
  {
    assert (trace + [e])[..|trace|] == trace;
  }

  ghost predicate WellFormed(trace: seq<Event>) {
    forall id: nat :: LifeOf(trace, id) != Wrong
  }

  /** The events of one id. */
  function Of(trace: seq<Event>, id: nat): seq<Event> {
    if trace == [] then []
    else Of(trace[..|trace| - 1], id) + (if trace[|trace| - 1].id == id then [trace[|trace| - 1]] else [])
  }

  /** Only this id's events matter for its life. */
  lemma {:induction false} LifeOfItsEvents(trace: seq<Event>, id: nat)
    ensures LifeOf(trace, id) == LifeOf(Of(trace, id), id)
    ensures forall e :: e in Of(trace, id) ==> e.id == id
  {
    if trace != [] {
      var last := |trace| - 1;
      LifeOfItsEvents(trace[..last], id);
      LifeOfMore(Of(trace[..last], id), trace[last], id);
      assert Of(trace[..last], id) + [] == Of(trace[..last], id);
    }
  }

  /** What well-formedness says of an id's first, last and neighbouring events. */
  lemma {:induction false} LivesAreInOrder(events: seq<Event>, id: nat, i: nat)
    requires (forall e :: e in events ==> e.id == id) && LifeOf(events, id) != Wrong && i < |events|
    ensures events[i].Added? <==> i == 0
    ensures events[i].Removed? ==> i == |events| - 1
    ensures LifeOf(events[..i], id) != Wrong
    decreases |events|
  {
    var last := |events| - 1;
    assert events[last] in events && forall e :: e in events[..last] ==> e in events;
    if i < last {
      LivesAreInOrder(events[..last], id, i);
      assert events[..last][..i] == events[..i];
      if events[i].Removed? { EndsGone(events[..last], id); }
    } else if last > 0 {
      LivesAreInOrder(events[..last], id, 0);
      StaysStarted(events[..last], id);
    }
  }

  lemma EndsGone(events: seq<Event>, id: nat)
    requires (forall e :: e in events ==> e.id == id) && events != [] && events[|events| - 1].Removed?
    requires LifeOf(events, id) != Wrong
    ensures LifeOf(events, id) == Gone
  {
    assert events[|events| - 1] in events;
  }

  lemma {:induction false} StaysStarted(events: seq<Event>, id: nat)
    requires (forall e :: e in events ==> e.id == id) && events != [] && LifeOf(events, id) != Wrong
    ensures LifeOf(events, id) != Absent
  {
    assert events[|events| - 1] in events;
  }

  /** Between two events for one code, with none for it between them, the key turns the other way. */
  lemma {:induction false} PressesAndReleasesAlternate(trace: seq<Event>, id: nat, code: nat, i: nat, j: nat)
    requires WellFormed(trace) && i < j < |trace|
    requires trace[i].Key? && trace[i].id == id && trace[i].code == code
    requires trace[j].Key? && trace[j].id == id && trace[j].code == code
    requires forall k :: i < k < j ==> !(trace[k].Key? && trace[k].id == id && trace[k].code == code)
    ensures trace[j].pressed != trace[i].pressed
  {
    PrefixIsWellFormed(trace, j + 1);
    assert trace[..j + 1][..j] == trace[..j];
    assert LifeOf(trace[..j + 1], id) == Step(LifeOf(trace[..j], id), trace[j]);
    PrefixIsWellFormed(trace, j);
    KeyStays(trace, id, code, i, j);
  }

  lemma {:induction false} PrefixIsWellFormed(trace: seq<Event>, n: nat)
    requires WellFormed(trace) && n <= |trace|
    ensures WellFormed(trace[..n])
    decreases |trace| - n
  {
    if n == |trace| {
      assert trace[..n] == trace;
    } else {
      PrefixIsWellFormed(trace, n + 1);
      assert trace[..n + 1][..n] == trace[..n];
      forall id: nat ensures LifeOf(trace[..n], id) != Wrong {
        assert LifeOf(trace[..n + 1], id) != Wrong;
      }
    }
  }

  lemma {:induction false} KeyStays(trace: seq<Event>, id: nat, code: nat, i: nat, j: nat)
    requires i < j <= |trace| && WellFormed(trace[..j])
    requires trace[i].Key? && trace[i].id == id && trace[i].code == code
    requires forall k :: i < k < j ==> !(trace[k].Key? && trace[k].id == id && trace[k].code == code)
    ensures LifeOf(trace[..j], id).Live? || LifeOf(trace[..j], id).Gone?
    ensures LifeOf(trace[..j], id).Live? ==> (code in LifeOf(trace[..j], id).down) == trace[i].pressed
  {
    assert trace[..j][..j - 1] == trace[..j - 1] && trace[..j][j - 1] == trace[j - 1];
    assert LifeOf(trace[..j], id) != Wrong;
    if j > i + 1 {
      PrefixIsWellFormed(trace[..j], j - 1);
      KeyStays(trace, id, code, i, j - 1);
    }
  }
}
