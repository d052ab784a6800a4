/** The audio client's calls over the protocol: connecting, asking, waiting with a deadline, dispatching. */
module AudioClient {
  import opened Basics
  import opened AudioProtocol

  const STREAMS: nat := 4

  /** A place for a stream: free, with a live stream, or with one that a hang-up ended. */
  datatype Slot = Free | Live(id: nat) | Over(id: nat)

  /**
   What the surroundings do around one receive: the service's steps before it, whether the receive
   itself fails, whether an accepted descriptor can be mapped, whether a CLOSE can be sent, whether the
   deadline has passed when nothing arrived, and whether the poll then fails or reports a hang-up.
   */
  datatype Turn = Turn(served: seq<Step>, fault: bool, mapped: bool, sent: bool, expired: bool, broken: bool)

  /** The outcomes of connecting and of the two first sends, and then of each round. */
  datatype Script = Script(connects: bool, hello: bool, asked: bool, turns: seq<Turn>)

  datatype Got = Message(answer: Answer) | Nothing | Failed

  predicate ByService(s: Step) {
    s.ServeHello? || s.ServeOpen? || s.ServeClose? || s.EndStream? || s.HangUp?
  }

  predicate SameForClient(a: Audio, b: Audio) {
    && b.up == a.up && b.late == a.late && b.call == a.call && b.held == a.held
    && b.accepted == a.accepted && b.opens == a.opens && b.heard == a.heard
  }

  lemma ServiceStep(a: Audio, s: AudioProtocol.Step)
    requires Enabled(a, s) && ByService(s)
    ensures SameForClient(a, Next(a, s))
  {
  }

  /** The service's side of the connection moves on; what the client knows does not change. */
  function Served(a: Audio, steps: seq<Step>): (b: Audio)
    requires Inv(a)
    ensures Inv(b) && SameForClient(a, b)
    decreases |steps|
  {
    if steps == [] then a
    else if ByService(steps[0]) && a.up && Enabled(a, steps[0]) then
      StepKeepsInv(a, steps[0]);
      ServiceStep(a, steps[0]);
      Served(Next(a, steps[0]), steps[1..])
    else Served(a, steps[1..])
  }

  function LiveIds(slots: seq<Slot>): set<nat> {
    set i | 0 <= i < |slots| && slots[i].Live? :: slots[i].id
  }

  lemma LateAnswer(a: Audio, sent: bool)
    requires Inv(a) && a.up && !a.call.Asking? && a.answers != [] && a.late > 0
    ensures var now := Next(a, AudioProtocol.Step.Receive(false, sent));
            && Inv(now) && now.up && now.late == a.late - 1 && now.held == a.held && now.call == a.call
            && |now.answers| == |a.answers| - 1
  {
    ReceiveKeepsInv(a, false, sent);
    LateAnswerIsDropped(a, sent);
  }

  lemma LateAnswerIsDropped(a: Audio, sent: bool)
    requires a.up && !a.call.Asking? && a.answers != [] && a.late > 0
    ensures Next(a, AudioProtocol.Step.Receive(false, sent))
            == Drop(a.(answers := a.answers[1..], heard := a.heard + 1, late := a.late - 1), a.answers[0], sent)
  {
  }

  lemma AcceptedAnswer(a: Audio, sent: bool)
    requires Inv(a) && a.up && a.call.Waiting? && a.answers != [] && a.late == 0
    requires a.answers[0].Opened? && a.answers[0].stream != 0
    ensures var now := Next(a, AudioProtocol.Step.Receive(true, sent));
            && Inv(now) && now.up && now.late == 0 && now.call == NoCall
            && now.held == a.held + {a.answers[0].stream} && a.answers[0].stream !in a.held
            && now.accepted == a.accepted + [(now.opens - 1, now.opens - 1)]
  {
    ReceiveKeepsInv(a, true, sent);
    PoppedKeeps(a);
  }

  lemma UselessAnswer(a: Audio, sent: bool)
    requires Inv(a) && a.up && a.call.Waiting? && a.answers != [] && a.late == 0
    requires a.answers[0].Refused? ==> a.answers[0].error > 0 && !a.call.isNew
    ensures var now := Next(a, AudioProtocol.Step.Receive(false, sent));
            Inv(now) && now.up && now.late == 0 && now.call == NoCall && now.held == a.held
  {
    ReceiveKeepsInv(a, false, sent);
    UselessAnswerIsDropped(a, sent);
  }

  lemma UselessAnswerIsDropped(a: Audio, sent: bool)
    requires a.up && a.call.Waiting? && a.answers != [] && a.late == 0
    requires a.answers[0].Refused? ==> a.answers[0].error > 0 && !a.call.isNew
    ensures Next(a, AudioProtocol.Step.Receive(false, sent)) == Drop(Popped(a), a.answers[0], sent)
  {
  }

  /** With no call waiting, no answer comes that is not late. */
  lemma EveryAnswerIsLate(a: Audio)
    requires Inv(a) && a.up && a.call.NoCall? && a.answers != []
    ensures a.late > 0
  {
  }

  predicate HasFree(slots: seq<Slot>) {
    exists i :: 0 <= i < |slots| && slots[i].Free?
  }

  /** Nothing but an open fills a free place. */
  predicate FreeStaysFree(was: seq<Slot>, now: seq<Slot>) {
    |was| == |now| && forall i :: 0 <= i < |was| && was[i].Free? ==> now[i].Free?
  }

  // ---- What becomes of one OPEN

  /** The answer to the OPEN itself, a deadline that passed without one, or a connection that is no good. */
  datatype Fate = Answered(answer: Answer, mapped: bool) | TimedOut | Broken

  /** After the script time has passed: the deadline is over and the service does no more. */
  const LAST := Turn([], false, true, true, true, false)

  lemma OlderAnswerIsLate(a: Audio)
    requires Inv(a) && a.up && a.call.Waiting? && a.answers != []
    ensures a.answers[0].tag == a.call.tag <==> a.late == 0
  {
  }

  /** What one turn brings: the end of the wait, or the system in which the wait goes on. */
  datatype Round = Ends(fate: Fate) | GoesOn(world: Audio)

  /** The service moves, and at most one answer is read; one to another OPEN is dropped. */
  function RoundOf(a: Audio, turn: Turn): (r: Round)
    requires Inv(a) && a.up && a.call.Waiting?
    ensures r.GoesOn? ==> Inv(r.world) && r.world.up && r.world.call.Waiting? && r.world.accepted == a.accepted
    ensures r.GoesOn? && turn == LAST ==> |r.world.answers| < |a.answers|
  {
    var b := Served(a, turn.served);
    if turn.fault then Ends(Broken)
    else if b.answers != [] then
      OlderAnswerIsLate(b);
      if b.answers[0].tag == b.call.tag then Ends(Answered(b.answers[0], turn.mapped))
      else
        LateAnswer(b, turn.sent);
        LateAnswerKeepsAccepted(b, turn.sent);
        GoesOn(Next(b, AudioProtocol.Step.Receive(false, turn.sent)))
    else if !b.serving then Ends(Broken)
    else if turn.expired then Ends(TimedOut)
    else if turn.broken then Ends(Broken)
    else GoesOn(b)
  }

  lemma LateAnswerKeepsAccepted(a: Audio, sent: bool)
    requires a.up && !a.call.Asking? && a.answers != [] && a.late > 0
    ensures Next(a, AudioProtocol.Step.Receive(false, sent)).accepted == a.accepted
  {
  }

  /** What the script of turns brings for the OPEN that waits. */
  function FateOf(a: Audio, turns: seq<Turn>): Fate
    requires Inv(a) && a.up && a.call.Waiting?
    decreases |turns|, |a.answers|
  {
    match RoundOf(a, if turns == [] then LAST else turns[0])
    case Ends(fate) => fate
    case GoesOn(b) => FateOf(b, if turns == [] then [] else turns[1..])
  }

  /** The stream that the application gets. */
  function Granted(fate: Fate): Option<nat> {
    if fate.Answered? && fate.answer.Opened? && fate.mapped && fate.answer.stream != 0
    then Some(fate.answer.stream) else None
  }

  /** Every answer is read, and with no call waiting dropped; None when the connection is no good. */
  function Emptied(a: Audio, turns: seq<Turn>): (r: Option<Audio>)
    requires Inv(a) && a.up && a.call.NoCall?
    ensures r.Some? ==>
              && Inv(r.value) && r.value.up && r.value.call.NoCall? && r.value.answers == []
              && r.value.held == a.held && r.value.accepted == a.accepted
    decreases |turns|, |a.answers|
  {
    var turn := if turns == [] then LAST else turns[0];
    var b := Served(a, turn.served);
    if turn.fault || (b.answers == [] && !b.serving) then None
    else if b.answers == [] then Some(b)
    else
      EveryAnswerIsLate(b);
      LateAnswer(b, turn.sent);
      LateAnswerKeepsAccepted(b, turn.sent);
      Emptied(Next(b, AudioProtocol.Step.Receive(false, turn.sent)), if turns == [] then [] else turns[1..])
  }

  /** What a hang-up leaves in a place. */
  function HungUp(slot: Slot): Slot {
    if slot.Live? then Over(slot.id) else slot
  }

  /** A call records what it accepted: the answer to its own OPEN, or nothing. */
  predicate Records(before: Audio, stream: Option<nat>, now: Audio) {
    now.accepted == before.accepted + if stream.Some? then [(now.opens - 1, now.opens - 1)] else []
  }

  /** Whether the connection can be used again. */
  predicate Survives(fate: Fate, isNew: bool) {
    match fate
    case Answered(answer, _) => answer.Opened? || (answer.error > 0 && !isNew)
    case TimedOut => true
    case Broken => false
  }

  /** The system once the OPEN is sent, on the present connection or on a new one. */
  function Asked(a: Audio): Audio
    requires Inv(a) && a.call.NoCall?
    ensures Inv(Asked(a)) && Asked(a).up && Asked(a).call.Waiting? && Asked(a).call.isNew == !a.up
    ensures Asked(a).accepted == a.accepted
  {
    var ready := Next(a, if a.up then Reuse else Connect);
    StepKeepsInv(a, if a.up then Reuse else Connect);
    StepKeepsInv(ready, Ask);
    Next(ready, Ask)
  }

  /** What one request gets: nothing without a connection, a HELLO and an OPEN that are sent. */
  function Requested(a: Audio, script: Script): Option<nat>
    requires Inv(a) && a.call.NoCall?
  {
    if !script.asked || (!a.up && !(script.connects && script.hello)) then None
    else Granted(FateOf(Asked(a), script.turns))
  }

  /** A present connection on which the OPEN cannot be sent is given up, and a new one asked. */
  function Obtained(a: Audio, script: Script, again: Script): Option<nat>
    requires Inv(a) && a.call.NoCall?
  {
    if a.up && !script.asked then Requested(Disconnected(a), again) else Requested(a, script)
  }

  lemma ServedTwice(a: Audio, first: Step, second: Step)
    requires Inv(a) && a.up && Enabled(a, first) && Enabled(Next(a, first), second) && Next(a, first).up
    requires ByService(first) && ByService(second)
    ensures Served(a, [first, second]) == Next(Next(a, first), second)
  {
    StepKeepsInv(a, first);
    StepKeepsInv(Next(a, first), second);
    assert [first, second][1..] == [second] && [second][1..] == [];
    assert Served(Next(a, first), [second]) == Served(Next(Next(a, first), second), []);
  }

  lemma NewOpenIsAsked(ids: nat, accepted: seq<(nat, nat)>)
    requires Inv(Started(ids, accepted))
    ensures Asked(Started(ids, accepted))
         == Audio(true, 0, Waiting(true, 0), {}, [Hello, Open(0)], [], true, {}, ids, 1, 0, {}, accepted)
  {
  }

  /** A new connection whose HELLO and OPEN the service accepts at once gives the service's next stream. */
  lemma AcceptedOpenIsGranted(ids: nat, accepted: seq<(nat, nat)>, error: int, more: seq<Turn>, again: Script)
    requires Inv(Started(ids, accepted))
    ensures var turn := Turn([ServeHello(true, error), ServeOpen(true, error)], false, true, true, false, false);
            Obtained(Started(ids, accepted), Script(true, true, true, [turn] + more), again) == Some(ids)
  {
    var turn := Turn([ServeHello(true, error), ServeOpen(true, error)], false, true, true, false, false);
    NewOpenIsAsked(ids, accepted);
    var a := Asked(Started(ids, accepted));
    AcceptedIsAnswered(a, turn, error);
    assert ([turn] + more)[0] == turn;
  }

  lemma AcceptedIsAnswered(a: Audio, turn: Turn, error: int)
    requires Inv(a) && a.up && a.call == Waiting(true, 0) && a.requests == [Hello, Open(0)] && a.answers == [] && a.serving
    requires turn == Turn([ServeHello(true, error), ServeOpen(true, error)], false, true, true, false, false)
    ensures RoundOf(a, turn) == Ends(Answered(Opened(a.ids, 0), true)) && a.ids > 0
  {
    var greeted := Next(a, ServeHello(true, error));
    assert greeted == a.(requests := [Open(0)]);
    ServedTwice(a, ServeHello(true, error), ServeOpen(true, error));
    var served := Next(greeted, ServeOpen(true, error));
    assert served.answers == [Opened(a.ids, 0)] && served.call == a.call;
  }

  class AudioClient {
    var connected: bool
    var late: nat
    const streams: array<Slot>
    /** The rest of the system. The client looks only at the first answer under way to it. */
    var world: Audio

    /** Between receives: `held` streams beyond those in the slots belong to a call under way. */
    ghost predicate Matches(held: set<nat>)
      reads this, streams
    {
      && streams.Length == STREAMS && Inv(world)
      && world.up == connected && world.late == late && world.held == LiveIds(streams[..]) + held
      && held !! LiveIds(streams[..])
      && forall i, j :: 0 <= i < j < STREAMS && streams[i].Live? && streams[j].Live? ==> streams[i].id != streams[j].id
    }

    ghost predicate Valid()
      reads this, streams
    {
      Matches({}) && world.call.NoCall?
    }

    constructor ()
      ensures Valid() && !connected && world == Started(1, []) && fresh(streams)
      ensures forall i :: 0 <= i < STREAMS ==> streams[i] == Free
    {
      connected := false;
      late := 0;
      streams := new Slot[STREAMS](_ => Free);
      world := Started(1, []);
    }

    method HangUp()
      requires Matches({})
      modifies this`connected, this`late, this`world, streams
      ensures Valid() && !connected && late == 0
      ensures forall i :: 0 <= i < STREAMS ==>
                streams[i] == HungUp(old(streams[i]))
      ensures world == Disconnected(old(world))
    {
      for i := 0 to STREAMS
        invariant world == old(world) && connected == old(connected) && late == old(late)
        invariant forall k :: 0 <= k < i ==>
                    streams[k] == if old(streams[k]).Live? then Over(old(streams[k]).id) else old(streams[k])
        invariant forall k :: i <= k < STREAMS ==> streams[k] == old(streams[k])
      {
        if streams[i].Live? {
          streams[i] := Over(streams[i].id);
        }
      }
      connected := false;
      late := 0;
      world := Disconnected(world);
      assert LiveIds(streams[..]) == {};
    }

    /** Nothing changes but the service's side; the head of the queue is taken by `Next`. */
    method Receive(turn: Turn) returns (got: Got)
      requires Matches({}) && connected
      modifies this`world
      ensures Matches({}) && world == Served(old(world), turn.served)
      ensures got.Message? ==> world.answers != [] && got.answer == world.answers[0]
      ensures got == Nothing ==> world.answers == [] && world.serving && !turn.fault
      ensures got == Failed ==> turn.fault || (world.answers == [] && !world.serving)
      ensures got.Message? ==> !turn.fault
    {
      world := Served(world, turn.served);
      if turn.fault {
        return Failed;
      }
      if world.answers != [] {
        return Message(world.answers[0]);
      }
      // A closed peer reads as a failure, an open one as nothing yet.
      return if world.serving then Nothing else Failed;
    }

    /**
     One OPEN and its answer. The call ends by itself: in the end the deadline passes. A stream that is
     returned came with the answer to this very OPEN.
     */
    method RequestStream(script: Script) returns (stream: Option<nat>, retry: bool)
      requires Valid()
      modifies this`connected, this`late, this`world, streams
      ensures Ended(stream)
      ensures retry <==> old(connected) && !script.asked
      ensures retry ==> !connected && stream == None && world == Disconnected(old(world))
      ensures stream == Requested(old(world), script)
      ensures Records(old(world), stream, world)
      ensures FreeStaysFree(old(streams[..]), streams[..])
    {
      stream, retry := None, false;
      var isNew := !connected;
      if isNew {
        if !script.connects {
          return;
        }
        StepKeepsInv(world, Connect);
        world := Next(world, Connect);
        connected := true;
        if !script.hello {
          HangUp();
          return;
        }
      } else {
        StepKeepsInv(world, Reuse);
        world := Next(world, Reuse);
      }
      if !script.asked {
        // On a new connection an ERROR that refuses the HELLO may be waiting; the end is the same.
        retry := !isNew;
        HangUp();
        return;
      }
      StepKeepsInv(world, Ask);
      world := Next(world, Ask);
      stream := AwaitAnswer(script.turns, isNew);
    }

    /** A call is over: no stream, or one that came with the answer to the OPEN it sent. */
    ghost predicate Ended(stream: Option<nat>)
      reads this, streams
    {
      && world.call.NoCall?
      && (stream.None? ==> Matches({}))
      && (stream.Some? ==>
            && Matches({stream.value}) && connected && world.accepted != []
            && world.accepted[|world.accepted| - 1] == (world.opens - 1, world.opens - 1))
    }

    ghost predicate Awaits(isNew: bool)
      reads this, streams
    {
      Matches({}) && connected && world.call.Waiting? && world.call.isNew == isNew
    }

    method AwaitAnswer(turns: seq<Turn>, isNew: bool) returns (stream: Option<nat>)
      requires Awaits(isNew)
      modifies this`connected, this`late, this`world, streams
      ensures Ended(stream) && FreeStaysFree(old(streams[..]), streams[..])
      ensures var fate := FateOf(old(world), turns);
              stream == Granted(fate) && connected == Survives(fate, isNew)
      ensures Records(old(world), stream, world)
    {
      var rest := turns;
      while true
        invariant Awaits(isNew) && streams[..] == old(streams[..])
        invariant FateOf(world, rest) == FateOf(old(world), turns) && world.accepted == old(world).accepted
        decreases |rest|, |world.answers|
      {
        var done;
        stream, done := AwaitRound(if rest == [] then LAST else rest[0], isNew);
        if done {
          return;
        }
        rest := if rest == [] then [] else rest[1..];
      }
    }

    /** One receive, and what follows from it. */
    method AwaitRound(turn: Turn, isNew: bool) returns (stream: Option<nat>, done: bool)
      requires Awaits(isNew)
      modifies this`connected, this`late, this`world, streams
      ensures done <==> RoundOf(old(world), turn).Ends?
      ensures !done ==> Awaits(isNew) && streams[..] == old(streams[..]) && world == RoundOf(old(world), turn).world
      ensures done ==> Ended(stream) && FreeStaysFree(old(streams[..]), streams[..])
      ensures done ==> stream == Granted(RoundOf(old(world), turn).fate)
      ensures done ==> connected == Survives(RoundOf(old(world), turn).fate, isNew)
      ensures done ==> Records(old(world), stream, world)
    {
      ghost var round := RoundOf(world, turn);
      var got := Receive(turn);
      if got.Failed? {
        HangUp();
        return None, true;
      }
      if got.Message? {
        OlderAnswerIsLate(world);
        stream, done := TakeAnswer(turn, got.answer, isNew);
        return;
      }
      if turn.expired {
        GiveUp();
        return None, true;
      }
      if turn.broken {
        HangUp();
        return None, true;
      }
      return None, false;
    }

    /** The deadline passed: the answer, if it comes, belongs to nobody. */
    method GiveUp()
      requires Matches({}) && connected && world.call.Waiting? && world.answers == []
      modifies this`late, this`world
      ensures Valid() && connected && late == old(late) + 1 && world.accepted == old(world).accepted
    {
      StepKeepsInv(world, TimeOut);
      late := late + 1;
      world := Next(world, TimeOut);
    }

    /** One answer while waiting: dropped while older OPENs are unanswered, else this OPEN's. */
    method TakeAnswer(turn: Turn, answer: Answer, isNew: bool) returns (stream: Option<nat>, done: bool)
      requires Awaits(isNew) && world.answers != [] && answer == world.answers[0]
      modifies this`connected, this`late, this`world, streams
      ensures done == (old(late) == 0)
      ensures !done ==> stream.None? && Awaits(isNew) && streams[..] == old(streams[..])
                        && world == Next(old(world), AudioProtocol.Step.Receive(false, turn.sent))
      ensures done ==> Ended(stream) && FreeStaysFree(old(streams[..]), streams[..])
      ensures done ==> stream == Granted(Answered(answer, turn.mapped))
                       && connected == Survives(Answered(answer, turn.mapped), isNew)
      ensures Records(old(world), stream, world)
    {
      if late > 0 {
        TakeLate(turn.sent);
        return None, false;
      }
      if answer.Opened? {
        if turn.mapped && answer.stream != 0 {
          TakeStream(turn.sent);
          return Some(answer.stream), true;
        }
        TakeUseless(turn.sent);
        return None, true;
      }
      if answer.error <= 0 || isNew {
        HangUp();
      } else {
        TakeUseless(turn.sent);
      }
      return None, true;
    }

    /** An answer that nobody waits for any more; its stream is closed. */
    method TakeLate(sent: bool)
      requires Matches({}) && connected && !world.call.Asking? && world.answers != [] && late > 0
      modifies this`late, this`world
      ensures Matches({}) && connected && world.call == old(world.call)
      ensures late == old(late) - 1 && |world.answers| == old(|world.answers|) - 1
      ensures world == Next(old(world), AudioProtocol.Step.Receive(false, sent)) && world.accepted == old(world).accepted
    {
      LateAnswer(world, sent);
      late := late - 1;
      world := Next(world, AudioProtocol.Step.Receive(false, sent));
    }

    /** The answer to this OPEN, with a stream that can be used. */
    method TakeStream(sent: bool)
      requires Matches({}) && connected && world.call.Waiting? && world.answers != [] && late == 0
      requires world.answers[0].Opened? && world.answers[0].stream != 0
      modifies this`world
      ensures Records(old(world), Some(0), world) && connected
      ensures Ended(Some(old(world.answers)[0].stream))
    {
      AcceptedAnswer(world, sent);
      world := Next(world, AudioProtocol.Step.Receive(true, sent));
    }

    /** The answer to this OPEN, without a stream that can be used; the connection stays. */
    method TakeUseless(sent: bool)
      requires Matches({}) && connected && world.call.Waiting? && world.answers != [] && late == 0
      requires world.answers[0].Refused? ==> world.answers[0].error > 0 && !world.call.isNew
      modifies this`world
      ensures Ended(None) && connected && world.accepted == old(world).accepted
    {
      UselessAnswer(world, sent);
      world := Next(world, AudioProtocol.Step.Receive(false, sent));
    }

    // ---- What the application calls

    /** A free slot, or STREAMS without one. */
    method FreeSlot() returns (slot: nat)
      requires streams.Length == STREAMS
      ensures slot <= STREAMS && (slot < STREAMS ==> streams[slot].Free?)
      ensures slot < STREAMS <==> HasFree(streams[..])
    {
      slot := 0;
      while slot < STREAMS
        invariant slot <= STREAMS && forall i :: 0 <= i < slot ==> !streams[i].Free?
      {
        if streams[slot].Free? {
          assert streams[..][slot].Free?;
          return;
        }
        slot := slot + 1;
      }
    }

    /** The request, and once more when the present connection is found dead. */
    method RequestTwice(script: Script, again: Script) returns (stream: Option<nat>)
      requires Valid()
      modifies this`connected, this`late, this`world, streams
      ensures Ended(stream) && FreeStaysFree(old(streams[..]), streams[..])
      ensures stream == Obtained(old(world), script, again)
      ensures Records(old(world), stream, world)
    {
      var retry;
      stream, retry := RequestStream(script);
      if stream.None? && retry {
        stream, retry := RequestStream(again);
      }
    }

    /** Opens a stream; a connection found dead on use is replaced and asked once more. */
    method OpenStream(script: Script, again: Script) returns (slot: Option<nat>)
      requires Valid()
      modifies this`connected, this`late, this`world, streams
      ensures Valid()
      ensures slot.Some? <==> Obtained(old(world), script, again).Some? && HasFree(old(streams[..]))
      ensures slot.Some? ==>
                slot.value < STREAMS && streams[slot.value] == Live(Obtained(old(world), script, again).value)
      ensures !HasFree(old(streams[..])) ==> world == old(world)
      ensures Records(old(world), if slot.Some? then Some(0) else None, world)
      ensures slot.Some? ==>
                && slot.value < STREAMS && old(streams[slot.value]).Free? && streams[slot.value].Live?
                && connected && world.accepted != []
                && world.accepted[|world.accepted| - 1] == (world.opens - 1, world.opens - 1)
    {
      var free := FreeSlot();
      if free == STREAMS {
        return None;
      }
      var ok := OpenIn(free, script, again);
      return if ok then Some(free) else None;
    }

    /** With a free slot at hand; false when no stream comes. */
    method OpenIn(free: nat, script: Script, again: Script) returns (ok: bool)
      requires Valid() && free < STREAMS && streams[free].Free?
      modifies this`connected, this`late, this`world, streams
      ensures Valid() && ok == Obtained(old(world), script, again).Some?
      ensures ok ==> streams[free] == Live(Obtained(old(world), script, again).value) && connected
      ensures Records(old(world), if ok then Some(0) else None, world)
    {
      var stream := RequestTwice(script, again);
      ok := stream.Some?;
      if ok {
        Hold(free, stream.value);
      }
    }

    /** The stream of a call that is over gets a place. */
    method Hold(free: nat, stream: nat)
      requires Ended(Some(stream)) && free < STREAMS && streams[free].Free?
      modifies streams
      ensures Valid() && streams[free] == Live(stream)
    {
      ghost var before := streams[..];
      streams[free] := Live(stream);
      AddedId(before, free, stream);
      assert streams[..] == before[free := Live(stream)];
    }

    /** Gives a stream up; one that has ended has nothing left at the service. */
    method CloseStream(slot: nat, sent: bool)
      requires Valid() && slot < STREAMS && !streams[slot].Free?
      modifies this`world, streams
      ensures Valid() && connected == old(connected)
      ensures streams[..] == old(streams[..])[slot := Free]
      ensures old(streams[slot]).Live? ==>
                && Enabled(old(world), CloseHeld(old(streams[slot]).id, sent))
                && world == Next(old(world), CloseHeld(old(streams[slot]).id, sent))
      ensures !old(streams[slot]).Live? ==> world == old(world)
    {
      ghost var before := streams[..];
      RemovedId(before, slot);
      if streams[slot].Live? {
        assert before[slot] == streams[slot];
        assert streams[slot].id in LiveIds(before);
        CloseHeldKeepsInv(world, streams[slot].id, sent);
        world := Next(world, CloseHeld(streams[slot].id, sent));
      }
      streams[slot] := Free;
      assert streams[..] == before[slot := Free];
    }

    /** Takes every answer that has come, all late ones; a hang-up or a failure ends every stream. */
    method Dispatch(turns: seq<Turn>, readable: bool, hung: bool)
      requires Valid()
      modifies this`connected, this`late, this`world, streams
      ensures Valid()
      ensures !old(connected) ==> world == old(world) && streams[..] == old(streams[..])
      ensures old(connected) ==>
                var read := if readable then Emptied(old(world), turns) else Some(old(world));
                if hung || read.None?
                then !connected && forall i :: 0 <= i < STREAMS ==> streams[i] == HungUp(old(streams[i]))
                else connected && world == read.value && streams[..] == old(streams[..])
    {
      if !connected {
        return;
      }
      if readable {
        var read := TakeAll(turns);
        if !read {
          return;
        }
      }
      if hung {
        HangUp();
      }
    }

    /** False when the connection was no good and is given up. */
    method TakeAll(turns: seq<Turn>) returns (ok: bool)
      requires Valid() && connected
      modifies this`connected, this`late, this`world, streams
      ensures Valid() && connected == ok == Emptied(old(world), turns).Some?
      ensures ok ==> world == Emptied(old(world), turns).value && streams[..] == old(streams[..])
      ensures !ok ==> forall i :: 0 <= i < STREAMS ==> streams[i] == HungUp(old(streams[i]))
    {
      var rest := turns;
      while true
        invariant Valid() && connected && streams[..] == old(streams[..])
        invariant Emptied(world, rest) == Emptied(old(world), turns)
        decreases |rest|, |world.answers|
      {
        var turn := if rest == [] then LAST else rest[0];
        var got := Receive(turn);
        if got.Failed? {
          HangUp();
          return false;
        }
        if got.Nothing? {
          return true;
        }
        // The code's test whether an answer is late never fails here.
        EveryAnswerIsLate(world);
        TakeLate(turn.sent);
        rest := if rest == [] then [] else rest[1..];
      }
    }
  }

  lemma AddedId(slots: seq<Slot>, slot: nat, id: nat)
    requires slot < |slots| && slots[slot].Free?
    ensures LiveIds(slots[slot := Live(id)]) == LiveIds(slots) + {id}
  {
    var now := slots[slot := Live(id)];
    assert now[slot].Live?;
    forall x | x in LiveIds(slots) ensures x in LiveIds(now) {
      var i :| 0 <= i < |slots| && slots[i].Live? && slots[i].id == x;
      assert now[i].Live? && now[i].id == x;
    }
  }

  lemma RemovedId(slots: seq<Slot>, slot: nat)
    requires slot < |slots|
    requires forall i, j :: 0 <= i < j < |slots| && slots[i].Live? && slots[j].Live? ==> slots[i].id != slots[j].id
    ensures LiveIds(slots[slot := Free]) == LiveIds(slots) - (if slots[slot].Live? then {slots[slot].id} else {})
  {
    var now := slots[slot := Free];
    forall x | x in LiveIds(slots) && !(slots[slot].Live? && slots[slot].id == x) ensures x in LiveIds(now) {
      var i :| 0 <= i < |slots| && slots[i].Live? && slots[i].id == x;
      assert now[i].Live? && now[i].id == x;
    }
  }
}
