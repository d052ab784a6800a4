/** The keyboard forwarder: batching lines, resynchronising after lost events, releasing at the end. */
module KeyboardForwarder {
  import opened Basics
  import opened KeyLines
  import opened KeyboardRuns

  /** The device's events have 16-bit types and codes and a 32-bit value. */
  predicate Raw(l: Line) {
    l.kind < 0x1_0000 && l.code < 0x1_0000 && -0x8000_0000 <= l.value < 0x8000_0000
  }

  class KeyboardForwarder {
    const buffer: array<char>
    var filled: nat
    const pressed: array<bool>
    const pending: array<bool>
    var dropping: bool
    /** The lines sent in whole, those in the buffer, and whether a send has failed. */
    ghost var sent: seq<Line>
    ghost var lines: seq<Line>
    ghost var broken: bool

    ghost predicate Shape()
    {
      && buffer.Length == BUFFER_SIZE && pressed.Length == pending.Length == KEY_COUNT && pressed != pending
    }

    /** `pressed` is what the receiver holds; `pending` is that plus the whole lines in the buffer. */
    ghost predicate Valid()
      reads this, buffer, pressed, pending
    {
      && Shape() && filled <= BUFFER_SIZE && buffer[..filled] == Texts(lines)
      && (!broken ==>
            && pressed[..] == Replay(ALL_UP, sent)
            && pending[..] == Replay(ALL_UP, sent + lines))
    }

    ghost function Now(): Wire
      reads this
    {
      Wire(sent, lines)
    }

    constructor ()
      ensures Valid() && !broken && sent == lines == [] && !dropping
      ensures fresh(buffer) && fresh(pressed) && fresh(pending)
    {
      buffer := new char[BUFFER_SIZE](_ => '\0');
      filled := 0;
      pressed := new bool[KEY_COUNT](_ => false);
      pending := new bool[KEY_COUNT](_ => false);
      dropping := false;
      sent, lines, broken := [], [], false;
      new;
      assert pressed[..] == ALL_UP && pending[..] == ALL_UP;
    }

    /** Sends the text of lines, or one that carries none; a failure leaves the receiver with an unknown part. */
    method SendBytes(text: string, ghost carried: seq<Line>) returns (ok: bool)
      requires if carried == [] then text == "\n" || (text == "reset\n" && sent == []) else text == Texts(carried)
      modifies this`broken, this`sent
      ensures broken == (old(broken) || !ok)
      ensures sent == if ok && carried != [] then old(sent) + carried else old(sent)
    {
      ok := *;
      broken := broken || !ok;
      if ok && carried != [] {
        sent := sent + carried;
      }
    }

    method Flush() returns (ok: bool)
      requires Valid() && !broken
      modifies this`filled, this`sent, this`lines, this`broken, pressed
      ensures Valid() && broken == !ok
      ensures ok ==> lines == [] && sent == old(sent + lines) && pressed[..] == pending[..]
    {
      if filled == 0 {
        TextsAreNotEmpty(lines);
        PressedIsPending();
        assert sent == sent + lines;
        return true;
      }
      TextsAreNotEmpty(lines);
      ok := SendBytes(buffer[..filled], lines);
      if ok {
        forall code | 0 <= code < KEY_COUNT {
          pressed[code] := pending[code];
        }
        assert sent + [] == sent;
        assert pressed[..] == pending[..];
      }
      filled, lines := 0, [];
    }

    lemma PressedIsPending()
      requires Valid() && !broken && lines == []
      ensures pressed[..] == pending[..]
    {
      assert sent + lines == sent;
    }

    method QueueEvent(l: Line) returns (ok: bool)
      requires Valid() && !broken && Raw(l)
      modifies this`filled, this`sent, this`lines, this`broken, buffer, pressed, pending
      ensures Valid() && broken == !ok
      ensures ok ==> Now() == Queued(old(Now()), l)
      ensures ok ==> sent + lines == old(sent + lines) + [l] && pending[..] == Apply(old(pending[..]), l)
      ensures ok ==> lines != []
    {
      var line := Text(l);
      TextIsShort(l);
      if |line| > BUFFER_SIZE - filled {
        var flushed := Flush();
        if !flushed {
          return false;
        }
        assert sent + lines == sent;
      }
      Buffer(l, line);
      ok := true;
    }

    /** As QueueEvent, where it does not matter when the buffer is sent. */
    method QueueLine(l: Line) returns (ok: bool)
      requires Valid() && !broken && Raw(l)
      modifies this`filled, this`sent, this`lines, this`broken, buffer, pressed, pending
      ensures Valid() && broken == !ok
      ensures ok ==> sent + lines == old(sent + lines) + [l] && pending[..] == Apply(old(pending[..]), l)
      ensures ok ==> lines != []
    {
      ok := QueueEvent(l);
    }

    /** The line goes to the buffer, and its key to what the receiver will hold. */
    method Buffer(l: Line, line: string)
      requires Valid() && !broken && Raw(l) && line == Text(l) && filled + |line| <= BUFFER_SIZE
      modifies this`filled, this`lines, buffer, pending
      ensures Valid() && lines == old(lines) + [l] && pending[..] == Apply(old(pending[..]), l)
    {
      LineMore(sent, lines, l);
      Append(line);
      lines := lines + [l];
      if l.kind == EV_KEY && l.code < KEY_COUNT && (l.value == 0 || l.value == 1) {
        pending[l.code] := l.value == 1;
      }
    }

    method Append(line: string)
      requires Shape() && filled + |line| <= BUFFER_SIZE
      modifies this`filled, buffer
      ensures filled == old(filled) + |line| && buffer[..filled] == old(buffer[..filled]) + line
    {
      for i := 0 to |line|
        invariant filled == old(filled) && buffer[..filled] == old(buffer[..filled])
        invariant buffer[filled..filled + i] == line[..i]
      {
        buffer[filled + i] := line[i];
      }
      filled := filled + |line|;
    }

    /** One phase: a line for each key of the class that the snapshot has otherwise. */
    method QueueStateChanges(physical: Keys, down: bool, modifiers: bool) returns (ok: bool)
      requires Valid() && !broken
      modifies this`filled, this`sent, this`lines, this`broken, buffer, pressed, pending
      ensures Valid() && broken == !ok
      ensures ok ==>
                && sent + lines == old(sent + lines) + PhaseLines(old(pending[..]), physical, down, modifiers, KEY_COUNT)
                && pending[..] == PhaseKeys(old(pending[..]), physical, down, modifiers)
    {
      ghost var keys := pending[..];
      ghost var log := sent + lines;
      for code := 0 to KEY_COUNT
        invariant Valid() && !broken
        invariant sent + lines == log + PhaseLines(keys, physical, down, modifiers, code)
        invariant pending[..] == Replay(keys, PhaseLines(keys, physical, down, modifiers, code))
      {
        PhaseMore(keys, physical, down, modifiers, code, log);
        assert pending[code] == pending[..][code] == keys[code];
        if physical[code] != down || pending[code] == down || Modifier(code) != modifiers {
          continue;
        }
        var queued := QueueLine(Line(EV_KEY, code, if down then 1 else 0));
        if !queued {
          return false;
        }
      }
      PhaseReplays(keys, physical, down, modifiers);
      ok := true;
    }

    /** Sends the difference to the snapshot; false when it cannot be read or a send fails. */
    method Resync(snapshot: Option<Keys>) returns (ok: bool, alive: bool)
      requires Valid() && !broken
      modifies this`filled, this`sent, this`lines, this`broken, buffer, pressed, pending
      ensures Valid() && alive == !broken && (ok ==> alive) && (ok || alive ==> snapshot.Some? == ok)
      ensures snapshot.None? ==> alive && Now() == old(Now())
      ensures ok ==>
                && lines == [] && pressed[..] == snapshot.value
                && Now() == Made(old(Now()), snapshot.value)
    {
      if snapshot.None? {
        return false, true;
      }
      var physical := snapshot.value;
      ok := QueueDifference(physical);
      if ok {
        ok := QueueLine(REPORT);
      }
      if ok {
        ok := Flush();
        assert ok ==> sent + lines == sent;
      }
      alive := ok;
    }

    /** The phases in their order: others up, modifiers up, modifiers down, others down. */
    method QueueDifference(physical: Keys) returns (ok: bool)
      requires Valid() && !broken
      modifies this`filled, this`sent, this`lines, this`broken, buffer, pressed, pending
      ensures Valid() && broken == !ok
      ensures ok ==> pending[..] == physical && sent + lines == old(sent + lines) + Resynced(old(pending[..]), physical)
    {
      ghost var keys: Keys := pending[..];
      ghost var k1 := PhaseKeys(keys, physical, false, false);
      ghost var k2 := PhaseKeys(k1, physical, false, true);
      ghost var k3 := PhaseKeys(k2, physical, true, true);
      ghost var log := sent + lines;
      ok := QueueStateChanges(physical, false, false);
      if !ok { return; }
      assert pending[..] == k1;
      ok := QueueStateChanges(physical, false, true);
      if !ok { return; }
      assert pending[..] == k2;
      ok := QueueStateChanges(physical, true, true);
      if !ok { return; }
      assert pending[..] == k3;
      ok := QueueStateChanges(physical, true, false);
      if !ok { return; }
      ReachesSnapshot(keys, physical);
      FourParts(log, PhaseLines(keys, physical, false, false, KEY_COUNT), PhaseLines(k1, physical, false, true, KEY_COUNT),
                PhaseLines(k2, physical, true, true, KEY_COUNT), PhaseLines(k3, physical, true, false, KEY_COUNT));
    }

    /** Forgets what is buffered and releases every key the receiver holds. */
    method Release() returns (ok: bool)
      requires Valid() && !broken
      modifies this`filled, this`sent, this`lines, this`broken, buffer, pressed, pending
      ensures Valid() && broken == !ok
      ensures ok ==> lines == [] && pressed[..] == ALL_UP && Replay(ALL_UP, sent) == ALL_UP
      ensures ok ==> sent == Ended(old(Now()))
    {
      Forget();
      ghost var log := sent;
      assert sent + lines == log;
      var any := false;
      for code := 0 to KEY_COUNT
        invariant any == exists c :: 0 <= c < code && pressed[c]
      {
        if pressed[code] {
          any := true;
          break;
        }
      }
      if !any {
        assert pressed[..] == ALL_UP;
        assert sent + [] == sent;
        return true;
      }
      assert pressed[..] != ALL_UP;
      ok := ReleaseHeld();
    }

    method ReleaseHeld() returns (ok: bool)
      requires Valid() && !broken && lines == []
      modifies this`filled, this`sent, this`lines, this`broken, buffer, pressed, pending
      ensures Valid() && broken == !ok
      ensures ok ==> lines == [] && pressed[..] == ALL_UP && sent == old(sent) + (Released(old(pending[..])) + [REPORT])
    {
      ghost var log := sent;
      ghost var keys := pending[..];
      assert sent + lines == log;
      ok := QueueReleases();
      if ok {
        ok := QueueLine(REPORT);
      }
      if ok {
        assert pending[..] == ALL_UP && sent + lines == log + (Released(keys) + [REPORT]);
        ok := Flush();
      }
    }

    /** The releases of all keys that are down, modifiers last. */
    method QueueReleases() returns (ok: bool)
      requires Valid() && !broken
      modifies this`filled, this`sent, this`lines, this`broken, buffer, pressed, pending
      ensures Valid() && broken == !ok
      ensures ok ==> pending[..] == ALL_UP && sent + lines == old(sent + lines) + Released(old(pending[..]))
    {
      ghost var keys: Keys := pending[..];
      ghost var k1 := PhaseKeys(keys, ALL_UP, false, false);
      ghost var log := sent + lines;
      ok := QueueStateChanges(ALL_UP, false, false);
      if !ok { return; }
      assert pending[..] == k1;
      ok := QueueStateChanges(ALL_UP, false, true);
      if !ok { return; }
      ReleasedAll(keys, pending[..]);
      TwoParts(log, PhaseLines(keys, ALL_UP, false, false, KEY_COUNT), PhaseLines(k1, ALL_UP, false, true, KEY_COUNT));
    }

    /** Drops the buffered lines. */
    method Forget()
      requires Valid() && !broken
      modifies this`filled, this`lines, pending
      ensures Valid() && lines == [] && filled == 0 && pending[..] == pressed[..] == old(pressed[..])
    {
      filled, lines := 0, [];
      forall code | 0 <= code < KEY_COUNT {
        pending[code] := pressed[code];
      }
      assert pending[..] == pressed[..];
      assert sent + lines == sent;
    }

    /**
     The whole run: reset, first resynchronisation, the loop over the input, and the release. Unless a
     send fails, what is sent is what the inputs say, up to the one that ends the loop. True when every
     step succeeded.
     */
    method Forward(first: Option<Keys>, inputs: seq<Input>) returns (ok: bool)
      requires Valid() && !broken && sent == lines == [] && !dropping
      requires forall e :: e in inputs && e.Event? ==> Raw(e.line)
      modifies this, buffer, pressed, pending
      ensures Valid() && (!broken ==> lines == [] && Replay(ALL_UP, sent) == ALL_UP)
      ensures ok ==> !broken
      ensures !broken ==> ok == (first.Some? && Reach(inputs, 0) == |inputs|)
      ensures !broken && first.Some? ==>
                sent == Ended(Ran(first.value, inputs[..Reach(inputs, 0)]))
      ensures !broken && first.None? ==> sent == []
    {
      ok := Begin(first);
      if ok {
        var transport;
        ok, transport := Follow(first.value, inputs);
        if transport {
          var released := Release();
          ok := ok && released;
        }
      }
    }

    /** Reset and first resynchronisation; without a snapshot nothing but the reset is sent. */
    method Begin(first: Option<Keys>) returns (ok: bool)
      requires Valid() && !broken && sent == lines == [] && !dropping
      modifies this`filled, this`sent, this`lines, this`broken, buffer, pressed, pending
      ensures Valid() && (ok ==> !broken) && (!broken ==> ok == first.Some?)
      ensures ok ==> Now() == Ran(first.value, [])
      ensures !broken && !ok ==> sent == lines == []
    {
      ok := SendBytes("reset\n", []);
      if ok {
        var transport;
        ok, transport := Resync(first);
      }
      if ok {
        RanFirst(first.value);
      }
    }

    /** The loop over the input, up to the one that ends it. */
    method Follow(ghost first: Keys, inputs: seq<Input>) returns (ok: bool, alive: bool)
      requires Valid() && !broken && Now() == Ran(first, []) && !dropping
      requires forall e :: e in inputs && e.Event? ==> Raw(e.line)
      modifies this`filled, this`sent, this`lines, this`broken, this`dropping, buffer, pressed, pending
      ensures Valid() && alive == !broken && (ok ==> alive)
      ensures alive ==> ok == (Reach(inputs, 0) == |inputs|) && Now() == Ran(first, inputs[..Reach(inputs, 0)])
    {
      ok, alive := true, true;
      var i := 0;
      assert inputs[..0] == [];
      while i < |inputs| && ok
        invariant Valid() && alive == !broken && (ok ==> alive)
        invariant i <= |inputs| && Reach(inputs, i) == Reach(inputs, 0)
        invariant alive ==> Now() == Ran(first, inputs[..i])
        invariant ok ==> dropping == Losing(inputs[..i])
        invariant !ok && alive ==> i < |inputs| && Reach(inputs, 0) == i
        decreases |inputs| - i, ok
      {
        assert inputs[i] in inputs;
        RanMore(first, inputs, i);
        ok, alive := Handle(inputs[i]);
        if ok {
          i := i + 1;
        }
      }
    }

    /** One round of the loop. */
    method Handle(input: Input) returns (ok: bool, alive: bool)
      requires Valid() && !broken && (input.Event? ==> Raw(input.line))
      modifies this`filled, this`sent, this`lines, this`broken, this`dropping, buffer, pressed, pending
      ensures Valid() && alive == !broken && (ok ==> alive)
      ensures alive ==> ok == !Ends(old(dropping), input)
      ensures alive && !ok ==> Now() == old(Now())
      ensures ok ==> Now() == Sent(old(Now()), old(dropping), input) && dropping == Loses(old(dropping), input)
    {
      match input {
        case Quiet =>
          ok := SendBytes("\n", []);
          alive := ok;
        case Gone =>
          ok, alive := false, true;
        case Event(line, snapshot) =>
          ok, alive := Take(line, snapshot);
      }
    }

    /** One event; lost events are made good when the report that ends them comes. */
    method Take(line: Line, snapshot: Option<Keys>) returns (ok: bool, alive: bool)
      requires Valid() && !broken && Raw(line)
      modifies this`filled, this`sent, this`lines, this`broken, this`dropping, buffer, pressed, pending
      ensures Valid() && alive == !broken && (ok ==> alive)
      ensures var input := Event(line, snapshot);
              && (alive ==> ok == !Ends(old(dropping), input))
              && (alive && !ok ==> Now() == old(Now()))
              && (ok ==> Now() == Sent(old(Now()), old(dropping), input) && dropping == Loses(old(dropping), input))
    {
      if dropping {
        if line.kind != EV_SYN || line.code != SYN_REPORT {
          return true, true;
        }
        dropping := false;
        ok, alive := Resync(snapshot);
        return;
      }
      if line.kind == EV_SYN && line.code == SYN_DROPPED {
        Forget();
        dropping := true;
        return true, true;
      }
      if (line.kind != EV_KEY && line.kind != EV_SYN) || (line.kind == EV_KEY && line.value == 2) {
        return true, true;
      }
      ok := Send(line);
      alive := ok;
    }

    /** A line to forward; a synchronisation event sends what is in the buffer. */
    method Send(line: Line) returns (ok: bool)
      requires Valid() && !broken && Raw(line)
      modifies this`filled, this`sent, this`lines, this`broken, buffer, pressed, pending
      ensures Valid() && broken == !ok
      ensures ok ==> Now() == var queued := Queued(old(Now()), line); if line.kind == EV_SYN then Flushed(queued) else queued
    {
      ok := QueueEvent(line);
      if ok && line.kind == EV_SYN {
        ok := Flush();
      }
    }
  }

  lemma FourParts(log: seq<Line>, a: seq<Line>, b: seq<Line>, c: seq<Line>, d: seq<Line>)
    ensures log + a + b + c + d == log + (a + b + c + d)
  {
  }

  lemma LineMore(sent: seq<Line>, lines: seq<Line>, l: Line)
    ensures Texts(lines + [l]) == Texts(lines) + Text(l)
    ensures Replay(ALL_UP, sent + (lines + [l])) == Apply(Replay(ALL_UP, sent + lines), l)
  {
    assert (lines + [l])[..|lines|] == lines;
    var log := sent + lines;
    assert sent + (lines + [l]) == log + [l] && (log + [l])[..|log|] == log;
  }

  lemma TwoParts(log: seq<Line>, a: seq<Line>, b: seq<Line>)
    ensures log + a + b == log + (a + b)
  {
  }

  lemma ReachesSnapshot(keys: Keys, physical: Keys)
    ensures var k1 := PhaseKeys(keys, physical, false, false);
            var k2 := PhaseKeys(k1, physical, false, true);
            var k3 := PhaseKeys(k2, physical, true, true);
            PhaseKeys(k3, physical, true, false) == physical
  {
  }

  lemma {:induction false} TextsAreNotEmpty(lines: seq<Line>)
    ensures Texts(lines) == "" <==> lines == []
  {
    if lines != [] {
      assert |Texts(lines)| >= |Text(lines[|lines| - 1])| >= 1;
    }
  }

  lemma ReleasedAll(keys: Keys, now: Keys)
    requires now == PhaseKeys(PhaseKeys(keys, ALL_UP, false, false), ALL_UP, false, true)
    ensures now == ALL_UP
  {
  }
}
