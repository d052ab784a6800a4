/** What the keyboard forwarder sends for the events it reads, and what the receiver then holds. */
module KeyboardRuns {
  import opened Basics
  import opened KeyLines

  const BUFFER_SIZE: nat := 512
  const REPORT := Line(EV_SYN, SYN_REPORT, 0)

  /** What a round of the loop finds: nothing for a while, an event with the snapshot that a
      resynchronisation right after it would read, or the end of the input. */
  datatype Input = Quiet | Event(line: Line, snapshot: Option<Keys>) | Gone

  predicate Is(l: Line, code: nat) {
    l.kind == EV_SYN && l.code == code
  }

  predicate Reads(input: Input, code: nat) {
    input.Event? && Is(input.line, code)
  }

  /** Key events other than repeats, and reports, are forwarded. */
  predicate Forwards(l: Line) {
    l.kind == EV_SYN || (l.kind == EV_KEY && l.value != 2)
  }

  // ---- The inputs alone

  /** A loss begins with the event that tells it, and lasts to the next report. */
  predicate Loses(losing: bool, input: Input) {
    Reads(input, SYN_DROPPED) || (losing && !Reads(input, SYN_REPORT))
  }

  /** Events were lost, and no report has ended the loss. */
  predicate Losing(inputs: seq<Input>) {
    inputs != [] && Loses(Losing(inputs[..|inputs| - 1]), inputs[|inputs| - 1])
  }

  /** The line that one input gives when nothing is lost. */
  function LineOf(input: Input): seq<Line> {
    if input.Event? && Forwards(input.line) then [input.line] else []
  }

  function LinesOf(inputs: seq<Input>): seq<Line> {
    if inputs == [] then [] else LinesOf(inputs[..|inputs| - 1]) + LineOf(inputs[|inputs| - 1])
  }

  /** The keys as the keyboard tells them: the last snapshot, changed by every event after it. */
  function Physical(first: Keys, inputs: seq<Input>): Keys
    decreases |inputs|
  {
    if inputs == [] then first
    else
      var before, last := inputs[..|inputs| - 1], inputs[|inputs| - 1];
      if !last.Event? then Physical(first, before)
      else if !Losing(before) then Apply(Physical(first, before), last.line)
      else if Reads(last, SYN_REPORT) && last.snapshot.Some? then last.snapshot.value
      else Physical(first, before)
  }

  /** An input that ends the loop: none follows, or a loss cannot be made good. */
  predicate Ends(losing: bool, input: Input) {
    input.Gone? || (losing && Reads(input, SYN_REPORT) && input.snapshot.None?)
  }

  predicate Stops(inputs: seq<Input>, n: nat)
    requires n < |inputs|
  {
    Ends(Losing(inputs[..n]), inputs[n])
  }

  /** How many inputs, from `n` on, the loop handles. */
  function Reach(inputs: seq<Input>, n: nat): (r: nat)
    requires n <= |inputs|
    ensures n <= r <= |inputs|
    ensures forall k :: n <= k < r ==> !Stops(inputs, k)
    ensures r < |inputs| ==> Stops(inputs, r)
    decreases |inputs| - n
  {
    if n == |inputs| || Stops(inputs, n) then n else Reach(inputs, n + 1)
  }

  /** The lines of the inputs since the last synchronisation event. */
  function SinceReport(inputs: seq<Input>): seq<Line> {
    if inputs == [] then []
    else
      var last := inputs[|inputs| - 1];
      if last.Event? && last.line.kind == EV_SYN then []
      else if Losing(inputs) then []
      else SinceReport(inputs[..|inputs| - 1]) + LineOf(last)
  }

  // ---- The lines sent

  /** The lines sent, and those in the buffer. */
  datatype Wire = Wire(sent: seq<Line>, waiting: seq<Line>)

  function Flushed(w: Wire): Wire {
    Wire(w.sent + w.waiting, [])
  }

  /** A line that does not fit sends what is in the buffer first. */
  function Queued(w: Wire, l: Line): Wire {
    var room := if |Texts(w.waiting)| + |Text(l)| > BUFFER_SIZE then Flushed(w) else w;
    room.(waiting := room.waiting + [l])
  }

  /** The keys that the receiver will hold. */
  function Held(w: Wire): Keys {
    Replay(ALL_UP, w.sent + w.waiting)
  }

  function Made(w: Wire, physical: Keys): Wire {
    Wire(w.sent + w.waiting + Resynced(Held(w), physical) + [REPORT], [])
  }

  /** What one input does, in or outside a loss. */
  function Sent(w: Wire, losing: bool, input: Input): Wire {
    if !input.Event? then w
    else if losing then
      if Reads(input, SYN_REPORT) && input.snapshot.Some? then Made(w, input.snapshot.value) else w
    else if Reads(input, SYN_DROPPED) then w.(waiting := [])
    else if !Forwards(input.line) then w
    else
      var queued := Queued(w, input.line);
      if input.line.kind == EV_SYN then Flushed(queued) else queued
  }

  /** From the first resynchronisation to the last input. */
  function Ran(first: Keys, inputs: seq<Input>): Wire
    decreases |inputs|
  {
    if inputs == [] then Made(Wire([], []), first)
    else Sent(Ran(first, inputs[..|inputs| - 1]), Losing(inputs[..|inputs| - 1]), inputs[|inputs| - 1])
  }

  lemma RanFirst(first: Keys)
    ensures Ran(first, []) == Made(Wire([], []), first)
  {
  }

  lemma RanMore(first: Keys, inputs: seq<Input>, n: nat)
    requires n < |inputs|
    ensures Ran(first, inputs[..n + 1]) == Sent(Ran(first, inputs[..n]), Losing(inputs[..n]), inputs[n])
    ensures Losing(inputs[..n + 1]) == Loses(Losing(inputs[..n]), inputs[n])
    ensures Reach(inputs, n) == if Ends(Losing(inputs[..n]), inputs[n]) then n else Reach(inputs, n + 1)
  {
    assert inputs[..n + 1][..n] == inputs[..n];
  }

  /** With the release at the end, if a key is down; what is in the buffer is not sent. */
  function Ended(w: Wire): seq<Line> {
    var keys := Replay(ALL_UP, w.sent);
    w.sent + if keys == ALL_UP then [] else Released(keys) + [REPORT]
  }

  // ---- What it comes to

  lemma MadeHolds(w: Wire, physical: Keys)
    ensures Held(Made(w, physical)) == physical
  {
    var log := w.sent + w.waiting;
    ResyncedKeys(Held(w), physical);
    ReplayConcat(ALL_UP, log, Resynced(Held(w), physical));
    AppliedLast(log + Resynced(Held(w), physical), REPORT);
    assert Made(w, physical).sent + [] == Made(w, physical).sent;
  }

  lemma AppliedLast(lines: seq<Line>, l: Line)
    ensures Replay(ALL_UP, lines + [l]) == Apply(Replay(ALL_UP, lines), l)
  {
    assert (lines + [l])[..|lines|] == lines;
  }

  lemma QueuedHolds(w: Wire, l: Line)
    ensures Queued(w, l).sent + Queued(w, l).waiting == w.sent + w.waiting + [l]
    ensures Held(Queued(w, l)) == Apply(Held(w), l)
  {
    AppliedLast(w.sent + w.waiting, l);
  }

  lemma FlushedHolds(w: Wire)
    ensures Flushed(w).sent + Flushed(w).waiting == w.sent + w.waiting && Held(Flushed(w)) == Held(w)
  {
    assert w.sent + w.waiting + [] == w.sent + w.waiting;
  }

  /** Outside a loss, one input changes the keys as its event says, and adds its own line. */
  lemma SentFollows(w: Wire, input: Input)
    requires !Reads(input, SYN_DROPPED)
    ensures var now := Sent(w, false, input);
      && now.sent + now.waiting == w.sent + w.waiting + LineOf(input)
      && Held(now) == (if input.Event? then Apply(Held(w), input.line) else Held(w))
      && (input.Event? && input.line.kind == EV_SYN ==> now.waiting == [])
  {
    assert w.sent + w.waiting + [] == w.sent + w.waiting;
    if input.Event? && Forwards(input.line) {
      QueuedHolds(w, input.line);
      FlushedHolds(Queued(w, input.line));
    }
  }

  /**
   Whatever was lost on the way: outside a loss the receiver's keys, with the lines in the buffer, are
   the physical ones, and after a report, the one that ends a loss included, nothing is left in the buffer.
   */
  lemma {:induction false} ReceiverFollowsTheKeyboard(first: Keys, inputs: seq<Input>)
    requires Reach(inputs, 0) == |inputs|
    ensures !Losing(inputs) ==> Held(Ran(first, inputs)) == Physical(first, inputs)
    ensures Losing(inputs) ==> Ran(first, inputs).waiting == []
    ensures inputs != [] && Reads(inputs[|inputs| - 1], SYN_REPORT) ==> !Losing(inputs) && Ran(first, inputs).waiting == []
    decreases |inputs|
  {
    if inputs == [] {
      MadeHolds(Wire([], []), first);
    } else {
      var before, last := inputs[..|inputs| - 1], inputs[|inputs| - 1];
      ReachOfPrefix(inputs);
      ReceiverFollowsTheKeyboard(first, before);
      var w := Ran(first, before);
      if !Losing(before) {
        if !Reads(last, SYN_DROPPED) { SentFollows(w, last); }
      } else if Reads(last, SYN_REPORT) {
        assert !Stops(inputs, |inputs| - 1);
        MadeHolds(w, last.snapshot.value);
      }
    }
  }

  lemma ReachOfPrefix(inputs: seq<Input>)
    requires inputs != [] && Reach(inputs, 0) == |inputs|
    ensures Reach(inputs[..|inputs| - 1], 0) == |inputs| - 1
  {
    var before := inputs[..|inputs| - 1];
    forall k | 0 <= k < |before| ensures !Stops(before, k) {
      assert before[..k] == inputs[..k] && !Stops(inputs, k);
    }
  }

  lemma Associates(a: seq<Line>, b: seq<Line>, c: seq<Line>)
    ensures a + b + c == a + (b + c)
  {
  }

  /** Without a loss, every key event that is no repeat and every report is sent, once and in order. */
  lemma {:induction false} EveryLineIsForwarded(first: Keys, inputs: seq<Input>)
    requires forall n :: 0 <= n < |inputs| ==> !Reads(inputs[n], SYN_DROPPED)
    ensures !Losing(inputs)
    ensures var w := Ran(first, inputs);
            w.sent + w.waiting == Resynced(ALL_UP, first) + [REPORT] + LinesOf(inputs)
    decreases |inputs|
  {
    if inputs != [] {
      var before, last := inputs[..|inputs| - 1], inputs[|inputs| - 1];
      EveryLineIsForwarded(first, before);
      SentFollows(Ran(first, before), last);
      Associates(Resynced(ALL_UP, first) + [REPORT], LinesOf(before), LineOf(last));
    }
  }

  /** A loss drops what was in the buffer, and nothing that comes before the report is sent. */
  lemma {:induction false} LossSendsNothing(first: Keys, before: seq<Input>, dropped: Input, lost: seq<Input>)
    requires !Losing(before) && Reads(dropped, SYN_DROPPED) && forall n :: 0 <= n < |lost| ==> !Reads(lost[n], SYN_REPORT)
    ensures Ran(first, before + [dropped] + lost) == Wire(Ran(first, before).sent, []) && Losing(before + [dropped] + lost)
    decreases |lost|
  {
    var all := before + [dropped] + lost;
    if lost == [] {
      assert all[..|all| - 1] == before;
    } else {
      var last := |lost| - 1;
      LossSendsNothing(first, before, dropped, lost[..last]);
      assert all[..|all| - 1] == before + [dropped] + lost[..last];
    }
  }

  /** The report that ends a loss sends the difference of what the receiver holds to the snapshot. */
  lemma LossIsMadeGood(first: Keys, before: seq<Input>, dropped: Input, lost: seq<Input>, report: Input)
    requires !Losing(before) && Reads(dropped, SYN_DROPPED) && Reads(report, SYN_REPORT) && report.snapshot.Some?
    requires forall n :: 0 <= n < |lost| ==> !Reads(lost[n], SYN_REPORT)
    ensures var sent := Ran(first, before).sent;
      Ran(first, before + [dropped] + lost + [report])
      == Wire(sent + Resynced(Replay(ALL_UP, sent), report.snapshot.value) + [REPORT], [])
  {
    var all := before + [dropped] + lost;
    LossSendsNothing(first, before, dropped, lost);
    assert (all + [report])[..|all|] == all;
    assert Ran(first, before).sent + [] == Ran(first, before).sent;
  }

  lemma {:induction false} NothingWaitsInALoss(first: Keys, inputs: seq<Input>)
    requires Losing(inputs)
    ensures Ran(first, inputs).waiting == []
    decreases |inputs|
  {
    var before, last := inputs[..|inputs| - 1], inputs[|inputs| - 1];
    if Losing(before) { NothingWaitsInALoss(first, before); }
  }

  /**
   What a loss drops: lines read since the last synchronisation event, all of them as long as they fit
   the buffer; when they do not, the first of them have been sent.
   */
  lemma {:induction false} BufferHoldsTheUnreported(first: Keys, inputs: seq<Input>)
    ensures EndOf(Ran(first, inputs).waiting, SinceReport(inputs))
    decreases |inputs|
  {
    if inputs != [] {
      BufferHoldsTheUnreported(first, inputs[..|inputs| - 1]);
      BufferHoldsOneMore(first, inputs);
    }
  }

  lemma BufferHoldsOneMore(first: Keys, inputs: seq<Input>)
    requires inputs != []
    requires EndOf(Ran(first, inputs[..|inputs| - 1]).waiting, SinceReport(inputs[..|inputs| - 1]))
    ensures EndOf(Ran(first, inputs).waiting, SinceReport(inputs))
  {
    var before, last := inputs[..|inputs| - 1], inputs[|inputs| - 1];
    if Losing(inputs) || (last.Event? && last.line.kind == EV_SYN) {
      NothingWaits(first, inputs);
    } else {
      SinceMore(first, inputs);
      QueuedHoldsTheUnreported(Ran(first, before), SinceReport(before), last);
    }
  }

  lemma SinceMore(first: Keys, inputs: seq<Input>)
    requires inputs != [] && !Losing(inputs)
    requires inputs[|inputs| - 1].Event? ==> inputs[|inputs| - 1].line.kind != EV_SYN
    ensures var before, last := inputs[..|inputs| - 1], inputs[|inputs| - 1];
      && SinceReport(inputs) == SinceReport(before) + LineOf(last)
      && Ran(first, inputs) == Sent(Ran(first, before), false, last)
  {
  }

  lemma NothingWaits(first: Keys, inputs: seq<Input>)
    requires inputs != []
    requires Losing(inputs) || (inputs[|inputs| - 1].Event? && inputs[|inputs| - 1].line.kind == EV_SYN)
    ensures Ran(first, inputs).waiting == [] && SinceReport(inputs) == []
  {
    var before := inputs[..|inputs| - 1];
    if Losing(before) { NothingWaitsInALoss(first, before); }
  }

  /** `waiting` is the end of `since`, and all of it as long as it fits the buffer. */
  predicate EndOf(waiting: seq<Line>, since: seq<Line>) {
    && |waiting| <= |since| && waiting == since[|since| - |waiting|..]
    && (|Texts(since)| <= BUFFER_SIZE ==> waiting == since)
  }

  lemma QueuedHoldsTheUnreported(w: Wire, since: seq<Line>, input: Input)
    requires EndOf(w.waiting, since) && (input.Event? ==> input.line.kind != EV_SYN)
    ensures EndOf(Sent(w, false, input).waiting, since + LineOf(input))
  {
    if LineOf(input) == [] {
      assert since + [] == since;
    } else {
      QueuedIsTheEnd(w, since, input.line);
    }
  }

  lemma QueuedIsTheEnd(w: Wire, since: seq<Line>, l: Line)
    requires EndOf(w.waiting, since)
    ensures EndOf(Queued(w, l).waiting, since + [l])
  {
    var all := since + [l];
    TextGrows(since, l);
    if |Texts(w.waiting)| + |Text(l)| > BUFFER_SIZE {
      assert [l] == all[|all| - 1..];
    } else {
      assert w.waiting + [l] == all[|all| - |w.waiting| - 1..];
    }
  }

  lemma TextGrows(lines: seq<Line>, l: Line)
    ensures |Texts(lines + [l])| == |Texts(lines)| + |Text(l)|
  {
    assert (lines + [l])[..|lines|] == lines;
  }
}
