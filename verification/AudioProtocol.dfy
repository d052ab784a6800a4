/**
 The audio client and the service over one socket: requests one way, answers the other way in order,
 with timeouts, late answers, refused connections and reconnects.

 Every OPEN carries a number and every answer the number of the OPEN it answers. Neither side sees
 these: they, and the fields from `opens` on, are history.
 */
module AudioProtocol {

  datatype Request = Hello | Open(tag: nat) | Close(stream: nat)

  datatype Answer = Opened(stream: nat, tag: nat) | Refused(error: int, tag: nat)

  /** Whether a call of request_stream runs: before its OPEN is sent, or waiting for the answer. */
  datatype Call = NoCall | Asking(isNew: bool) | Waiting(isNew: bool, tag: nat)

  datatype Audio = Audio(
    // The client: connected, late answers expected, streams it holds that have not ended
    up: bool, late: nat, call: Call, held: set<nat>,
    // The connection and the service's end of it
    requests: seq<Request>, answers: seq<Answer>, serving: bool, open: set<nat>, ids: nat,
    // History: OPENs sent and answers received on this connection, streams whose CLOSE was not sent,
    // and for each accepted answer the OPEN that was waiting and the OPEN it answers
    opens: nat, heard: nat, lost: set<nat>, accepted: seq<(nat, nat)>)

  datatype Step =
    // The client
    | Connect
    | Reuse
    | Ask
    | Receive(mapped: bool, sent: bool)
    | TimeOut
    | Break
    | CloseHeld(stream: nat, sent: bool)
    // The service
    | ServeHello(accept: bool, error: int)
    | ServeOpen(grant: bool, error: int)
    | ServeClose
    | EndStream(stream: nat)
    | HangUp

  // ---- Steps

  function Started(ids: nat, accepted: seq<(nat, nat)>): Audio {
    Audio(false, 0, NoCall, {}, [], [], false, {}, ids, 0, 0, {}, accepted)
  }

  /** hang_up: every stream has ended, and no answer is expected any more. */
  function Disconnected(a: Audio): Audio {
    Started(a.ids, a.accepted)
  }

  /** A message reaches the service unless it has hung up; a failed send leaves the stream behind. */
  function SendClose(a: Audio, stream: nat, sent: bool): Audio {
    if !sent then a.(lost := a.lost + {stream})
    else if a.serving then a.(requests := a.requests + [Close(stream)])
    else a
  }

  function Drop(a: Audio, answer: Answer, sent: bool): Audio {
    if answer.Opened? && answer.stream != 0 then SendClose(a, answer.stream, sent) else a
  }

  predicate Enabled(a: Audio, s: Step) {
    match s
    case Connect => !a.up && a.call.NoCall?
    case Reuse => a.up && a.call.NoCall?
    case Ask => a.up && a.call.Asking?
    case Receive(_, _) => a.up && !a.call.Asking? && a.answers != []
    case TimeOut => a.up && a.call.Waiting? && a.answers == []
    case Break => a.up
    case CloseHeld(stream, _) => a.up && stream in a.held
    case ServeHello(_, error) => a.serving && a.requests != [] && a.requests[0].Hello?
    case ServeOpen(_, _) => a.serving && a.requests != [] && a.requests[0].Open?
    case ServeClose => a.serving && a.requests != [] && a.requests[0].Close?
    case EndStream(_) => a.serving
    case HangUp => a.serving
  }

  function Next(a: Audio, s: Step): Audio
    requires Enabled(a, s)
  {
    match s
    case Connect => Audio(true, 0, Asking(true), {}, [Hello], [], true, {}, a.ids, 0, 0, {}, a.accepted)
    case Reuse => a.(call := Asking(false))
    case Ask =>
      a.(call := Waiting(a.call.isNew, a.opens), opens := a.opens + 1,
         requests := if a.serving then a.requests + [Open(a.opens)] else a.requests)
    case Receive(mapped, sent) => Received(a.(answers := a.answers[1..], heard := a.heard + 1), a.answers[0], mapped, sent)
    case TimeOut => a.(late := a.late + 1, call := NoCall)
    case Break => Disconnected(a)
    case CloseHeld(stream, sent) => SendClose(a.(held := a.held - {stream}), stream, sent)
    case ServeHello(accept, error) =>
      if accept then a.(requests := a.requests[1..])
      else a.(answers := a.answers + [Refused(error, 0)], requests := [], serving := false, open := {})
    case ServeOpen(grant, error) =>
      var tag := a.requests[0].tag;
      if grant then a.(requests := a.requests[1..], answers := a.answers + [Opened(a.ids, tag)],
                       open := a.open + {a.ids}, ids := a.ids + 1)
      else a.(requests := a.requests[1..], answers := a.answers + [Refused(error, tag)])
    case ServeClose => a.(requests := a.requests[1..], open := a.open - {a.requests[0].stream})
    case EndStream(stream) => a.(open := a.open - {stream})
    case HangUp => a.(requests := [], serving := false, open := {})
  }

  /** What the client does with one answer: in order, answers to abandoned OPENs come first. */
  function Received(a: Audio, answer: Answer, mapped: bool, sent: bool): Audio {
    if a.late > 0 then Drop(a.(late := a.late - 1), answer, sent)
    else if a.call.NoCall? then Drop(a, answer, sent)
    else if answer.Opened? then
      var done := a.(call := NoCall);
      if mapped && answer.stream != 0 then
        done.(held := a.held + {answer.stream},
              accepted := a.accepted + [(if a.call.Waiting? then a.call.tag else 0, answer.tag)])
      else Drop(done, answer, sent)
    else if answer.error <= 0 || a.call.isNew then Disconnected(a)
    else a.(call := NoCall)
  }

  // ---- What every run keeps

  function OpenTags(requests: seq<Request>): seq<nat> {
    if requests == [] then []
    else (if requests[0].Open? then [requests[0].tag] else []) + OpenTags(requests[1..])
  }

  function ClosingStreams(requests: seq<Request>): multiset<nat> {
    if requests == [] then multiset{}
    else Closing(requests[0]) + ClosingStreams(requests[1..])
  }

  function UndeliveredStreams(answers: seq<Answer>): multiset<nat> {
    if answers == [] then multiset{}
    else (if answers[0].Opened? then multiset{answers[0].stream} else multiset{}) + UndeliveredStreams(answers[1..])
  }

  /** Where each stream of the connection is accounted for. */
  function Places(a: Audio): multiset<nat> {
    multiset(a.held) + UndeliveredStreams(a.answers) + ClosingStreams(a.requests) + multiset(a.lost)
  }

  /** OPENs sent whose answer the client has not received. */
  function Unanswered(a: Audio): int {
    a.opens - a.heard
  }

  ghost predicate Ordered(a: Audio) {
    && Unanswered(a) == a.late + (if a.call.Waiting? then 1 else 0)
    && (a.call.Waiting? ==> a.call.tag + 1 == a.opens)
    && (a.opens == 0 ==> a.call.Asking?)
    // Only a refused HELLO is answered before an OPEN was sent.
    && a.heard + |a.answers| <= (if a.opens == 0 then 1 else a.opens)
    && (forall i :: 0 <= i < |a.answers| ==> a.answers[i].tag == a.heard + i)
    && (a.serving ==>
          var tags := OpenTags(a.requests);
          && a.heard + |a.answers| + |tags| == a.opens
          && forall i :: 0 <= i < |tags| ==> tags[i] == a.heard + |a.answers| + i)
    && (!a.serving ==> a.requests == [] && a.open == {})
    && (forall i :: 0 <= i < |a.requests| && a.requests[i].Hello? ==> i == 0 && a.heard == 0 && a.answers == [])
  }

  /** No stream is in two places, and each was given out by the service. */
  ghost predicate Single(places: multiset<nat>, ids: nat) {
    forall id :: id in places ==> places[id] == 1 && 0 < id < ids
  }

  ghost predicate Placed(a: Audio) {
    Single(Places(a), a.ids) && forall id :: id in a.open ==> id in Places(a)
  }

  ghost predicate Inv(a: Audio) {
    && a.ids > 0
    && (forall p :: p in a.accepted ==> p.0 == p.1)
    && (if a.up then Ordered(a) && Placed(a) else a == Disconnected(a))
  }

  // ---- Adding to a queue

  lemma TagsOfMore(requests: seq<Request>, r: Request)
    ensures OpenTags(requests + [r]) == OpenTags(requests) + (if r.Open? then [r.tag] else [])
    ensures ClosingStreams(requests + [r]) == ClosingStreams(requests) + (if r.Close? then multiset{r.stream} else multiset{})
  {
    OneMoreOpen(requests, r);
    OneMoreClose(requests, r);
  }

  lemma {:induction false} OneMoreOpen(requests: seq<Request>, r: Request)
    ensures OpenTags(requests + [r]) == OpenTags(requests) + (if r.Open? then [r.tag] else [])
  {
    var all := requests + [r];
    if requests == [] {
      assert all == [r] && all[1..] == [];
    } else {
      OneMoreOpen(requests[1..], r);
      assert all[1..] == requests[1..] + [r] && all[0] == requests[0];
    }
  }

  function Closing(r: Request): multiset<nat> {
    if r.Close? then multiset{r.stream} else multiset{}
  }

  lemma {:induction false} OneMoreClose(requests: seq<Request>, r: Request)
    ensures ClosingStreams(requests + [r]) == ClosingStreams(requests) + Closing(r)
  {
    var all := requests + [r];
    if requests == [] {
      assert all[1..] == [] && all[0] == r;
    } else {
      OneMoreClose(requests[1..], r);
      assert all[1..] == requests[1..] + [r] && all[0] == requests[0];
      Associate(Closing(requests[0]), ClosingStreams(requests[1..]), Closing(r));
    }
  }

  lemma Associate(a: multiset<nat>, b: multiset<nat>, c: multiset<nat>)
    ensures a + (b + c) == a + b + c
  {
  }

  lemma {:induction false} StreamsOfMore(answers: seq<Answer>, x: Answer)
    ensures UndeliveredStreams(answers + [x]) == UndeliveredStreams(answers) + (if x.Opened? then multiset{x.stream} else multiset{})
  {
    if answers == [] {
      assert answers + [x] == [x] && [x][1..] == [];
    } else {
      StreamsOfMore(answers[1..], x);
      assert (answers + [x])[1..] == answers[1..] + [x];
    }
  }

  // ---- Each step keeps the invariant

  lemma FewerPlaces(few: multiset<nat>, many: multiset<nat>, ids: nat)
    requires few <= many && Single(many, ids)
    ensures Single(few, ids)
  {
    forall id | id in few ensures few[id] == 1 && 0 < id < ids {
      assert id in many;
    }
  }

  lemma OneMorePlace(places: multiset<nat>, id: nat, ids: nat)
    requires Single(places, ids) && id !in places && 0 < id < ids
    ensures Single(places + multiset{id}, ids)
  {
  }

  lemma SendClosePlaces(a: Audio, stream: nat, sent: bool)
    requires stream !in Places(a)
    ensures Places(SendClose(a, stream, sent))
            == Places(a) + (if sent && !a.serving then multiset{} else multiset{stream})
  {
    if !sent {
      assert stream !in a.lost;
      assert multiset(a.lost + {stream}) == multiset(a.lost) + multiset{stream};
    } else if a.serving {
      OneMoreClose(a.requests, Close(stream));
    }
  }

  /** A stream taken from where it was and closed is accounted for once, as before. */
  lemma SendCloseKeepsPlaced(a: Audio, stream: nat, sent: bool)
    requires Single(Places(a), a.ids) && stream !in Places(a) && 0 < stream < a.ids
    requires forall id :: id in a.open ==> id in Places(a) || id == stream
    requires !a.serving ==> a.open == {}
    ensures Placed(SendClose(a, stream, sent))
  {
    SendClosePlaces(a, stream, sent);
    OneMorePlace(Places(a), stream, a.ids);
  }

  lemma SendCloseKeepsOrdered(a: Audio, stream: nat, sent: bool)
    requires Ordered(a)
    ensures Ordered(SendClose(a, stream, sent))
  {
    TagsOfMore(a.requests, Close(stream));
  }

  /** Taking an answer off the queue takes the stream it names, if any, out of its place. */
  lemma PopPlaces(a: Audio)
    requires a.answers != []
    ensures var x := a.answers[0];
            Places(a) == Places(a.(answers := a.answers[1..]))
                         + (if x.Opened? then multiset{x.stream} else multiset{})
  {
  }

  /** The state between taking the front answer and dealing with it. */
  function Popped(a: Audio): Audio
    requires a.answers != []
  {
    var rest := a.(answers := a.answers[1..], heard := a.heard + 1);
    if a.late > 0 then rest.(late := a.late - 1) else rest.(call := NoCall)
  }

  lemma PoppedIsOrdered(a: Audio)
    requires Ordered(a) && !a.call.Asking? && a.answers != []
    ensures Ordered(Popped(a))
    ensures a.late == 0 ==> a.call.Waiting? && a.call.tag == a.answers[0].tag
  {
  }

  lemma OneLess(many: multiset<nat>, few: multiset<nat>, id: nat, ids: nat)
    requires Single(many, ids) && many == few + multiset{id}
    ensures id !in few && 0 < id < ids
  {
    assert id in many && many[id] == few[id] + 1;
  }

  lemma PoppedKeeps(a: Audio)
    requires Inv(a) && a.up && !a.call.Asking? && a.answers != []
    ensures Ordered(Popped(a))
    ensures a.late == 0 ==> a.call.Waiting? && a.call.tag == a.answers[0].tag
    ensures Places(Popped(a)) <= Places(a) && Single(Places(Popped(a)), a.ids)
    ensures var x := a.answers[0];
            x.Opened? ==> x.stream !in Places(Popped(a)) && 0 < x.stream < a.ids
                          && Places(a) == Places(Popped(a)) + multiset{x.stream}
    ensures a.answers[0].Refused? ==> Places(a) == Places(Popped(a))
  {
    PoppedIsOrdered(a);
    PopPlaces(a);
    var x := a.answers[0];
    var few := Places(Popped(a));
    assert few == Places(a.(answers := a.answers[1..]));
    FewerPlaces(few, Places(a), a.ids);
    if x.Opened? { OneLess(Places(a), few, x.stream, a.ids); }
  }

  lemma AcceptKeepsInv(a: Audio)
    requires Inv(a) && a.up && a.call.Waiting? && a.answers != [] && a.late == 0 && a.answers[0].Opened?
    ensures var x := a.answers[0];
            Inv(Popped(a).(held := a.held + {x.stream}, accepted := a.accepted + [(a.call.tag, x.tag)]))
  {
    PoppedKeeps(a);
    var x := a.answers[0];
    var now := Popped(a).(held := a.held + {x.stream}, accepted := a.accepted + [(a.call.tag, x.tag)]);
    assert x.stream !in a.held;
    assert multiset(now.held) == multiset(a.held) + multiset{x.stream};
    assert Places(now) == Places(a);
    assert Ordered(now) && Placed(now);
  }

  lemma DropKeepsInv(a: Audio, sent: bool)
    requires Inv(a) && a.up && !a.call.Asking? && a.answers != [] && a.answers[0].Opened?
    ensures Inv(SendClose(Popped(a), a.answers[0].stream, sent))
  {
    PoppedKeeps(a);
    SendCloseKeepsOrdered(Popped(a), a.answers[0].stream, sent);
    SendCloseKeepsPlaced(Popped(a), a.answers[0].stream, sent);
  }

  lemma ReceiveKeepsInv(a: Audio, mapped: bool, sent: bool)
    requires Inv(a) && Enabled(a, Receive(mapped, sent))
    ensures Inv(Next(a, Receive(mapped, sent)))
  {
    PoppedKeeps(a);
    var x := a.answers[0];
    var now := Next(a, Receive(mapped, sent));
    if x.Opened? && a.late == 0 && mapped {
      AcceptKeepsInv(a);
    } else if x.Opened? {
      DropKeepsInv(a, sent);
      assert now == SendClose(Popped(a), x.stream, sent);
    } else {
      RefusedKeepsInv(a, mapped, sent);
    }
  }

  lemma RefusedKeepsInv(a: Audio, mapped: bool, sent: bool)
    requires Inv(a) && Enabled(a, Receive(mapped, sent)) && a.answers[0].Refused?
    ensures Inv(Next(a, Receive(mapped, sent)))
  {
    PoppedKeeps(a);
    var now := Next(a, Receive(mapped, sent));
    assert now == Popped(a) || now == Disconnected(now);
  }

  lemma CloseHeldKeepsInv(a: Audio, stream: nat, sent: bool)
    requires Inv(a) && Enabled(a, CloseHeld(stream, sent))
    ensures Inv(Next(a, CloseHeld(stream, sent)))
  {
    var less := a.(held := a.held - {stream});
    NotHeldPlaces(a, stream);
    FewerPlaces(Places(less), Places(a), a.ids);
    OneLess(Places(a), Places(less), stream, a.ids);
    SendCloseKeepsOrdered(less, stream, sent);
    SendCloseKeepsPlaced(less, stream, sent);
  }

  lemma NotHeldPlaces(a: Audio, stream: nat)
    requires stream in a.held
    ensures Places(a) == Places(a.(held := a.held - {stream})) + multiset{stream}
  {
    assert multiset(a.held) == multiset(a.held - {stream}) + multiset{stream};
  }

  lemma AskKeepsInv(a: Audio)
    requires Inv(a) && Enabled(a, Ask)
    ensures Inv(Next(a, Ask))
  {
    AskKeepsOrdered(a);
    OneMoreClose(a.requests, Open(a.opens));
    assert Places(Next(a, Ask)) == Places(a);
  }

  lemma AskKeepsOrdered(a: Audio)
    requires Ordered(a) && Enabled(a, Ask)
    ensures Ordered(Next(a, Ask))
  {
    OneMoreOpen(a.requests, Open(a.opens));
  }

  lemma ServeHelloKeepsInv(a: Audio, accept: bool, error: int)
    requires Inv(a) && Enabled(a, ServeHello(accept, error)) && a.up
    ensures Inv(Next(a, ServeHello(accept, error)))
  {
    var now := Next(a, ServeHello(accept, error));
    StreamsOfMore(a.answers, Refused(error, 0));
    ServeHelloKeepsOrdered(a, accept, error);
    if accept {
      assert Places(now) == Places(a);
    } else {
      FewerPlaces(Places(now), Places(a), a.ids);
    }
  }

  lemma ServeHelloKeepsOrdered(a: Audio, accept: bool, error: int)
    requires Ordered(a) && Enabled(a, ServeHello(accept, error))
    ensures Ordered(Next(a, ServeHello(accept, error)))
  {
    assert accept ==> OpenTags(Next(a, ServeHello(accept, error)).requests) == OpenTags(a.requests);
  }

  lemma ServeOpenKeepsOrdered(a: Audio, grant: bool, error: int)
    requires Ordered(a) && Enabled(a, ServeOpen(grant, error))
    ensures Ordered(Next(a, ServeOpen(grant, error)))
  {
    var now := Next(a, ServeOpen(grant, error));
    assert OpenTags(a.requests)[0] == a.requests[0].tag;
    assert OpenTags(a.requests)[1..] == OpenTags(now.requests);
  }

  lemma ServeOpenKeepsPlaced(a: Audio, grant: bool, error: int)
    requires Placed(a) && a.ids > 0 && Enabled(a, ServeOpen(grant, error))
    ensures Placed(Next(a, ServeOpen(grant, error)))
  {
    ServeOpenPlaces(a, grant, error);
    if grant {
      NewIdHasNoPlace(Places(a), a.ids);
      OneMorePlace(Places(a), a.ids, a.ids + 1);
    }
  }

  lemma ServeOpenPlaces(a: Audio, grant: bool, error: int)
    requires Enabled(a, ServeOpen(grant, error))
    ensures Places(Next(a, ServeOpen(grant, error))) == Places(a) + (if grant then multiset{a.ids} else multiset{})
  {
    var now := Next(a, ServeOpen(grant, error));
    StreamsOfMore(a.answers, if grant then Opened(a.ids, a.requests[0].tag) else Refused(error, a.requests[0].tag));
    assert ClosingStreams(now.requests) == ClosingStreams(a.requests);
  }

  lemma NewIdHasNoPlace(places: multiset<nat>, ids: nat)
    requires Single(places, ids)
    ensures ids !in places && Single(places, ids + 1)
  {
  }

  lemma ServeCloseKeepsInv(a: Audio)
    requires Inv(a) && Enabled(a, ServeClose) && a.up
    ensures Inv(Next(a, ServeClose))
  {
    var now := Next(a, ServeClose);
    ServeCloseKeepsOrdered(a);
    assert Places(a) == Places(now) + multiset{a.requests[0].stream};
    FewerPlaces(Places(now), Places(a), a.ids);
  }

  lemma ServeCloseKeepsOrdered(a: Audio)
    requires Ordered(a) && Enabled(a, ServeClose)
    ensures Ordered(Next(a, ServeClose))
  {
    assert OpenTags(Next(a, ServeClose).requests) == OpenTags(a.requests);
  }

  lemma HangUpKeepsInv(a: Audio)
    requires Inv(a) && a.serving
    ensures Inv(Next(a, HangUp))
  {
    FewerPlaces(Places(Next(a, HangUp)), Places(a), a.ids);
  }

  lemma StepKeepsInv(a: Audio, s: Step)
    requires Inv(a) && Enabled(a, s)
    ensures Inv(Next(a, s))
  {
    match s
    case Receive(mapped, sent) => ReceiveKeepsInv(a, mapped, sent);
    case CloseHeld(stream, sent) => CloseHeldKeepsInv(a, stream, sent);
    case Ask => AskKeepsInv(a);
    case ServeHello(accept, error) => ServeHelloKeepsInv(a, accept, error);
    case ServeOpen(grant, error) => ServeOpenKeepsOrdered(a, grant, error); ServeOpenKeepsPlaced(a, grant, error);
    case ServeClose => ServeCloseKeepsInv(a);
    case HangUp => HangUpKeepsInv(a);
    case EndStream(stream) => EndStreamKeepsInv(a, stream);
    case TimeOut => CallKeepsInv(a, s);
    case Reuse => CallKeepsInv(a, s);
    case Connect => ConnectionKeepsInv(a, s);
    case Break => ConnectionKeepsInv(a, s);
  }

  lemma EndStreamKeepsInv(a: Audio, stream: nat)
    requires Inv(a) && a.serving
    ensures Inv(Next(a, EndStream(stream)))
  {
    assert Places(Next(a, EndStream(stream))) == Places(a);
  }

  lemma CallKeepsInv(a: Audio, s: Step)
    requires Inv(a) && Enabled(a, s) && (s.TimeOut? || s.Reuse?)
    ensures Inv(Next(a, s))
  {
    assert Places(Next(a, s)) == Places(a);
  }

  lemma ConnectionKeepsInv(a: Audio, s: Step)
    requires Inv(a) && Enabled(a, s) && (s.Connect? || s.Break?)
    ensures Inv(Next(a, s))
  {
  }

  // ---- Runs

  ghost predicate Possible(a: Audio, run: seq<Step>)
    decreases |run|
  {
    run == [] || (Enabled(a, run[0]) && Possible(Next(a, run[0]), run[1..]))
  }

  ghost function After(a: Audio, run: seq<Step>): Audio
    requires Possible(a, run)
    decreases |run|
  {
    if run == [] then a else After(Next(a, run[0]), run[1..])
  }

  lemma {:induction false} RunKeepsInv(a: Audio, run: seq<Step>)
    requires Inv(a) && Possible(a, run)
    ensures Inv(After(a, run))
    decreases |run|
  {
    if run != [] {
      StepKeepsInv(a, run[0]);
      RunKeepsInv(Next(a, run[0]), run[1..]);
    }
  }

  /** In every run, each answer that was accepted answered the OPEN that was waiting for it. */
  lemma AcceptedAnswersAnswerTheirOpen(run: seq<Step>)
    requires Possible(Started(1, []), run)
    ensures forall p :: p in After(Started(1, []), run).accepted ==> p.0 == p.1
  {
    RunKeepsInv(Started(1, []), run);
  }

  /**
   While connected, `late` is the number of OPENs that were given up and not answered: those sent,
   less those whose answer arrived, less the one being waited for. When no call waits, no answer
   arrives unexpected: the answers under way are no more than `late`.
   */
  lemma LateCountsAbandonedOpens(run: seq<Step>)
    requires Possible(Started(1, []), run)
    ensures var a := After(Started(1, []), run);
            a.up ==>
              && a.late == a.opens - a.heard - (if a.call.Waiting? then 1 else 0)
              && (a.call.NoCall? ==> |a.answers| <= a.late)
  {
    RunKeepsInv(Started(1, []), run);
  }

  /**
   Every stream open at the service is held by the client, in an answer under way, in a CLOSE under
   way, or was given up by a CLOSE whose send failed; and it is in one of these places only.
   */
  lemma OpenStreamsAreAccountedFor(run: seq<Step>, stream: nat)
    requires Possible(Started(1, []), run) && stream in After(Started(1, []), run).open
    ensures var a := After(Started(1, []), run);
            && Places(a)[stream] == 1
            && (stream in a.held || stream in UndeliveredStreams(a.answers)
                || stream in ClosingStreams(a.requests) || stream in a.lost)
  {
    RunKeepsInv(Started(1, []), run);
  }

  // ---- Streams that nobody closes

  /** The step closes a stream and cannot send the CLOSE. */
  predicate FailsClose(a: Audio, s: Step, stream: nat)
    requires Enabled(a, s)
  {
    match s
    case CloseHeld(held, sent) => held == stream && !sent
    case Receive(mapped, sent) =>
      && a.answers[0] == Opened(stream, a.answers[0].tag) && stream != 0
      && (a.late > 0 || a.call.NoCall? || !mapped) && !sent
    case _ => false
  }

  /** The step leaves the connection, or begins one. */
  predicate EndsConnection(a: Audio, s: Step)
    requires Enabled(a, s)
  {
    match s
    case Connect => true
    case Break => true
    case Receive(_, _) =>
      a.late == 0 && a.call.Waiting? && a.answers[0].Refused? && (a.answers[0].error <= 0 || a.call.isNew)
    case _ => false
  }

  lemma LostByStep(a: Audio, s: Step, stream: nat)
    requires Enabled(a, s)
    ensures stream in Next(a, s).lost <==> FailsClose(a, s, stream) || (stream in a.lost && !EndsConnection(a, s))
  {
  }

  lemma {:induction false} OneStepMore(a: Audio, run: seq<Step>, n: nat)
    requires Possible(a, run) && n < |run|
    ensures Possible(a, run[..n]) && Possible(a, run[..n + 1])
    ensures Enabled(After(a, run[..n]), run[n])
    ensures After(a, run[..n + 1]) == Next(After(a, run[..n]), run[n])
    decreases n
  {
    assert run[..n + 1][0] == run[0] && run[..n + 1][1..] == run[1..][..n];
    if n > 0 {
      OneStepMore(Next(a, run[0]), run[1..], n - 1);
      assert run[..n][1..] == run[1..][..n - 1];
    }
  }

  lemma PrefixIsPossible(a: Audio, run: seq<Step>, n: nat)
    requires Possible(a, run) && n <= |run|
    ensures Possible(a, run[..n]) && (n < |run| ==> Enabled(After(a, run[..n]), run[n]))
  {
    if n < |run| { OneStepMore(a, run, n); } else { assert run[..n] == run; }
  }

  /** The state before step `n` of a run. */
  ghost function Before(a: Audio, run: seq<Step>, n: nat): (b: Audio)
    requires Possible(a, run) && n <= |run|
    ensures n < |run| ==> Enabled(b, run[n])
  {
    PrefixIsPossible(a, run, n);
    After(a, run[..n])
  }

  /** Step `k` could not send a CLOSE of the stream, and before step `n` the connection did not end. */
  ghost predicate CloseFailed(a: Audio, run: seq<Step>, k: nat, n: nat, stream: nat)
    requires Possible(a, run) && n <= |run|
  {
    && k < n && FailsClose(Before(a, run, k), run[k], stream)
    && forall m :: k < m < n ==> !EndsConnection(Before(a, run, m), run[m])
  }

  lemma {:induction false} LostIsWhatFailed(a: Audio, run: seq<Step>, n: nat, stream: nat)
    requires Possible(a, run) && n <= |run| && a.lost == {}
    ensures stream in Before(a, run, n).lost <==> exists k: nat :: CloseFailed(a, run, k, n, stream)
  {
    if n > 0 {
      OneStepMore(a, run, n - 1);
      LostByStep(Before(a, run, n - 1), run[n - 1], stream);
      LostIsWhatFailed(a, run, n - 1, stream);
      FailedEarlierOrNow(a, run, n - 1, n, stream);
    }
  }

  lemma FailedEarlierOrNow(a: Audio, run: seq<Step>, n: nat, next: nat, stream: nat)
    requires Possible(a, run) && n < |run| && next == n + 1
    ensures (exists k: nat :: CloseFailed(a, run, k, next, stream)) <==>
      || FailsClose(Before(a, run, n), run[n], stream)
      || (!EndsConnection(Before(a, run, n), run[n]) && exists k: nat :: CloseFailed(a, run, k, n, stream))
  {
    if FailsClose(Before(a, run, n), run[n], stream) {
      assert CloseFailed(a, run, n, next, stream);
    } else if k: nat :| CloseFailed(a, run, k, next, stream) {
      assert CloseFailed(a, run, k, n, stream);
    }
    if k: nat :| CloseFailed(a, run, k, n, stream) && !EndsConnection(Before(a, run, n), run[n]) {
      assert CloseFailed(a, run, k, next, stream);
    }
  }

  /**
   Exactly when somebody still answers for a stream that is open at the service: in every run it is
   held, or in an OPENED or a CLOSE under way, if and only if no CLOSE of it failed to be sent on this
   connection.
   */
  lemma OpenStreamIsOrphanedExactly(run: seq<Step>, stream: nat)
    requires Possible(Started(1, []), run) && stream in After(Started(1, []), run).open
    ensures var a := After(Started(1, []), run);
            (stream in a.held || stream in UndeliveredStreams(a.answers) || stream in ClosingStreams(a.requests))
              <==> !exists k: nat :: CloseFailed(Started(1, []), run, k, |run|, stream)
  {
    OpenStreamsAreAccountedFor(run, stream);
    assert run[..|run|] == run;
    LostIsWhatFailed(Started(1, []), run, |run|, stream);
    OnePlaceOnly(After(Started(1, []), run), stream);
  }

  lemma OnePlaceOnly(a: Audio, stream: nat)
    requires Places(a)[stream] == 1
    ensures (stream in a.held || stream in UndeliveredStreams(a.answers) || stream in ClosingStreams(a.requests))
              <==> stream !in a.lost
  {
  }

  /** Steps whose send of a CLOSE, if they make one, succeeds. */
  predicate SendsSucceed(run: seq<Step>) {
    forall s :: s in run ==> (s.Receive? ==> s.sent) && (s.CloseHeld? ==> s.sent)
  }

  /** In particular, when every CLOSE is sent, every stream open at the service is answered for. */
  lemma ClosedStreamsAreClosed(run: seq<Step>, stream: nat)
    requires Possible(Started(1, []), run) && SendsSucceed(run)
    requires stream in After(Started(1, []), run).open
    ensures var a := After(Started(1, []), run);
            stream in a.held || stream in UndeliveredStreams(a.answers) || stream in ClosingStreams(a.requests)
  {
    OpenStreamIsOrphanedExactly(run, stream);
    forall k: nat ensures !CloseFailed(Started(1, []), run, k, |run|, stream) {
      if k < |run| { assert run[k] in run; }
    }
  }

  lemma {:induction false} NothingIsLost(a: Audio, run: seq<Step>)
    requires Possible(a, run) && SendsSucceed(run) && a.lost == {}
    ensures After(a, run).lost == {}
    decreases |run|
  {
    if run != [] {
      assert run[0] in run && forall s :: s in run[1..] ==> s in run;
      NothingIsLost(Next(a, run[0]), run[1..]);
    }
  }

  /** One step before a run. */
  lemma OneStepBefore(a: Audio, s: Step, run: seq<Step>)
    requires Enabled(a, s) && Possible(Next(a, s), run)
    ensures Possible(a, [s] + run) && After(a, [s] + run) == After(Next(a, s), run)
  {
    assert ([s] + run)[1..] == run;
  }

  /** A CLOSE that is not sent leaves its stream open at the service with nobody to close it. */
  lemma FailedCloseOrphansTheStream() returns (run: seq<Step>)
    ensures Possible(Started(1, []), run)
    ensures var a := After(Started(1, []), run);
            a.up && 1 in a.open && a.held == {} && a.answers == [] && a.requests == []
  {
    var a0 := Started(1, []);
    var a1 := Next(a0, Connect);
    var a2 := Next(a1, Ask);
    var a3 := Next(a2, ServeHello(true, 0));
    var a4 := Next(a3, ServeOpen(true, 0));
    var a5 := Next(a4, Receive(true, true));
    run := [CloseHeld(1, false)] + [];
    OneStepBefore(a5, CloseHeld(1, false), []);
    OneStepBefore(a4, Receive(true, true), run);
    run := [Receive(true, true)] + run;
    OneStepBefore(a3, ServeOpen(true, 0), run);
    run := [ServeOpen(true, 0)] + run;
    OneStepBefore(a2, ServeHello(true, 0), run);
    run := [ServeHello(true, 0)] + run;
    OneStepBefore(a1, Ask, run);
    run := [Ask] + run;
    OneStepBefore(a0, Connect, run);
    run := [Connect] + run;
  }
}
