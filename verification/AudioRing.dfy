/**
 One stream's shared ring, with the client's write and the service's reads cut into the single loads,
 stores and frame copies that may interleave, and the sleep hand-off between the two sides.

 Counters in shared memory are 32-bit words. The fields `accepted`, `consumed`, `cursor`, `bound`,
 `output` and `writes` are history: no step of either side looks at them.
 */
module AudioRing {
  import opened Arithmetic
  import opened Basics
  import opened Words

  /** Where the client is in a write. */
  datatype Client<F> =
    | Idle
    | Copying(input: seq<F>, loaded: nat, copied: nat)
    | Stored(loaded: nat)
    | Asked(loaded: nat, asleep: bool)

  /** What a finished write did about the service's sleep. */
  datatype Outcome = NotNeeded | KickSent | KickFailed | Suppressed

  /** A finished write: frames accepted by then, the `read` word it loaded, what `sleeping` said. */
  datatype Finished = Finished(end: nat, loaded: nat, asleep: bool, outcome: Outcome)

  /** `Deciding` lies between storing `sleeping` and loading `write` again. */
  datatype Service = Awake | Deciding | Asleep

  datatype Ring<F> = Ring(
    capacity: nat,
    // Shared memory
    frames: seq<F>, write: nat, read: nat, sleeping: bool,
    // The client's own
    written: nat, kicked: bool, kickRead: nat, client: Client<F>,
    // The service's own
    position: nat, limit: nat, service: Service,
    // History
    accepted: seq<F>, consumed: nat, cursor: nat, bound: nat, output: seq<F>,
    writes: seq<Finished>)

  // ---- Steps

  datatype Step<F> =
    | Begin(input: seq<F>)
    | Copy
    | Store
    | Ask
    | Answer(sent: bool)
    | Look
    | Take
    | Release
    | Drowse
    | Settle(stay: bool)
    | Wake

  function Index(counter: nat, capacity: nat): nat
    requires capacity >= 1
  {
    And(counter, capacity - 1)
  }

  /** How many of `count` frames fit beside those the loaded `read` says are outstanding. */
  function Room(written: nat, read: nat, capacity: nat, count: nat): nat {
    var used := (written - read) % WORD;
    var free := if used >= capacity then 0 else capacity - used;
    if free > count then count else free
  }

  predicate Enabled<F>(r: Ring<F>, s: Step<F>) {
    match s
    case Begin(_) => r.client.Idle?
    case Copy => r.client.Copying? && r.client.copied < |r.client.input|
    case Store => r.client.Copying? && r.client.copied == |r.client.input|
    case Ask => r.client.Stored?
    case Answer(_) => r.client.Asked?
    // The service looks at the ring only while it is awake.
    case Look => r.service.Awake?
    case Take => r.service.Awake? && r.position != r.limit
    case Release => r.service.Awake?
    case Drowse => r.service.Awake?
    case Settle(_) => r.service.Deciding?
    case Wake => r.service.Asleep?
  }

  ghost predicate Shape<F>(r: Ring<F>) {
    && 1 <= r.capacity == |r.frames|
    && (forall n: nat :: Index(n, r.capacity) < r.capacity)
  }

  function Next<F>(r: Ring<F>, s: Step<F>): Ring<F>
    requires Shape(r) && Enabled(r, s)
  {
    match s
    case Begin(input) =>
      var taken := Room(r.written, r.read, r.capacity, |input|);
      if taken == 0 then r else r.(client := Copying(input[..taken], r.read, 0))
    case Copy =>
      var c := r.client;
      r.(frames := r.frames[Index((r.written + c.copied) % WORD, r.capacity) := c.input[c.copied]],
         client := c.(copied := c.copied + 1))
    case Store =>
      var written := (r.written + |r.client.input|) % WORD;
      r.(written := written, write := written, client := Stored(r.client.loaded),
         accepted := r.accepted + r.client.input)
    case Ask => r.(client := Asked(r.client.loaded, r.sleeping))
    case Answer(sent) => Answered(r, sent)
    case Look => r.(limit := r.write, bound := |r.accepted|)
    case Take =>
      r.(output := r.output + [r.frames[Index(r.position, r.capacity)]],
         position := (r.position + 1) % WORD, cursor := r.cursor + 1)
    case Release => r.(read := r.position, consumed := r.cursor)
    case Drowse => r.(sleeping := true, service := Deciding)
    case Settle(stay) =>
      var looked := r.(limit := r.write, bound := |r.accepted|);
      if stay then looked.(service := Asleep) else looked.(sleeping := false, service := Awake)
    case Wake => r.(sleeping := false, service := Awake)
  }

  /** The client's decision whether to send a KICK, and what the send said. */
  function Answered<F>(r: Ring<F>, sent: bool): Ring<F>
    requires r.client.Asked?
  {
    var loaded := r.client.loaded;
    if !r.client.asleep then Finish(r.(kicked := false), NotNeeded)
    else if r.kicked && loaded == r.kickRead then Finish(r, Suppressed)
    else if !sent then Finish(r, KickFailed)
    else Finish(r.(kicked := true, kickRead := loaded), KickSent)
  }

  function Finish<F>(r: Ring<F>, outcome: Outcome): Ring<F>
    requires r.client.Asked?
  {
    r.(client := Idle,
       writes := r.writes + [Finished(|r.accepted|, r.client.loaded, r.client.asleep, outcome)])
  }

  // ---- What every run keeps

  /** Frames of a write in progress that are in the ring but not yet published. */
  function InFlight<F>(c: Client<F>): seq<F> {
    if c.Copying? then c.input else []
  }

  /** Frame `n` of the stream lies at its place in the ring. */
  ghost predicate Holds<F>(r: Ring<F>, n: nat, f: F)
    requires r.capacity >= 1 && |r.frames| == r.capacity
  {
    r.frames[n % r.capacity] == f
  }

  /** The words are the history's counters, and reads never pass what was published. */
  predicate Counts<F>(r: Ring<F>) {
    && r.write == r.written == |r.accepted| % WORD && r.read == r.consumed % WORD
    && r.position == r.cursor % WORD && r.limit == r.bound % WORD
    && r.consumed <= r.cursor <= r.bound <= |r.accepted|
    && |r.accepted| + |InFlight(r.client)| <= r.consumed + r.capacity
  }

  /** No frame that the service may still read has been overwritten, and it read what was accepted. */
  ghost predicate Keeps<F>(r: Ring<F>)
    requires r.capacity >= 1 && |r.frames| == r.capacity
  {
    && (forall n: nat :: r.consumed <= n < |r.accepted| ==> Holds(r, n, r.accepted[n]))
    && (r.client.Copying? ==>
          && r.client.copied <= |r.client.input|
          && forall i: nat :: i < r.client.copied ==> Holds(r, |r.accepted| + i, r.client.input[i]))
    && r.cursor <= |r.accepted| && r.output == r.accepted[..r.cursor]
  }

  /** A service asleep over frames it has not seen: every write of such frames saw it sleep. */
  ghost predicate Sleeps<F>(r: Ring<F>) {
    && (r.service.Asleep? ==> r.sleeping)
    && (r.service.Deciding? ==> r.sleeping)
    && (r.service.Asleep? && r.client.Asked? && |r.accepted| > r.bound ==> r.client.asleep)
    && (forall w :: w in r.writes ==> w.end <= |r.accepted|)
    && (forall w :: w in r.writes && r.service.Asleep? && w.end > r.bound ==> w.asleep)
  }

  /**
   The `read` word of the KICK that still stands after these writes: the last one sent, unless a write
   since then saw the service awake.
   */
  function StandingKick(writes: seq<Finished>): Option<nat> {
    if writes == [] then None
    else
      var last := writes[|writes| - 1];
      if last.outcome.KickSent? then Some(last.loaded)
      else if !last.asleep then None
      else StandingKick(writes[..|writes| - 1])
  }

  /** A write that saw the service sleep left its KICK out exactly when one stood for the same word. */
  predicate Ruled(writes: seq<Finished>, j: nat)
    requires j < |writes|
  {
    var w := writes[j];
    && (w.asleep <==> w.outcome != NotNeeded)
    && (w.asleep ==> (w.outcome.Suppressed? <==> StandingKick(writes[..j]) == Some(w.loaded)))
  }

  /** The client's two fields are the standing KICK, and every write kept to the rule. */
  ghost predicate Kicks<F>(r: Ring<F>) {
    && StandingKick(r.writes) == (if r.kicked then Some(r.kickRead) else None)
    && forall j :: 0 <= j < |r.writes| ==> Ruled(r.writes, j)
  }

  ghost predicate Inv<F>(r: Ring<F>) {
    && IsPow2(r.capacity) && r.capacity < WORD && |r.frames| == r.capacity
    && Counts(r) && Keeps(r) && Sleeps(r) && Kicks(r)
  }

  lemma IndexIsRemainder(n: nat, capacity: nat)
    requires IsPow2(capacity)
    ensures Index(n, capacity) == n % capacity < capacity
    ensures Index(n % WORD, capacity) == n % capacity
  {
    var k: nat :| k <= 31 && Pow2(k) == capacity;
    MaskIsRemainder(n, k);
    MaskIsRemainder(n % WORD, k);
    WordKeepsRemainder(n, capacity);
  }

  lemma InvHasShape<F>(r: Ring<F>)
    requires Inv(r)
    ensures Shape(r)
  {
    forall n: nat ensures Index(n, r.capacity) < r.capacity {
      IndexIsRemainder(n, r.capacity);
    }
  }

  /** The client never believes there is more room than there is: the loaded `read` may only be old. */
  lemma BeginLeavesRoom<F>(r: Ring<F>, input: seq<F>)
    requires Inv(r) && r.client.Idle?
    ensures var taken := Room(r.written, r.read, r.capacity, |input|);
            && taken <= |input| && |r.accepted| + taken <= r.consumed + r.capacity
            && (taken < |input| ==> |r.accepted| + taken == r.consumed + r.capacity)
  {
    WordDifference(|r.accepted|, r.consumed);
  }

  /** Writing frame `n` leaves every other frame less than a ring away where it is. */
  lemma WritingElsewhere<F>(frames: seq<F>, m: nat, n: nat, f: F)
    requires m < n < m + |frames|
    ensures frames[n % |frames| := f][m % |frames|] == frames[m % |frames|]
  {
    NearRemaindersDiffer(m, n, |frames|);
  }

  lemma CopyKeepsFrames<F>(r: Ring<F>, now: Ring<F>)
    requires r.capacity == |r.frames| >= 1 && Counts(r) && Keeps(r) && Enabled(r, Copy)
    requires var n := |r.accepted| + r.client.copied;
             now == r.(frames := r.frames[n % r.capacity := r.client.input[r.client.copied]],
                       client := r.client.(copied := r.client.copied + 1))
    ensures Keeps(now)
  {
    var c := r.client;
    var n := |r.accepted| + c.copied;
    forall m: nat | r.consumed <= m < |r.accepted|
      ensures Holds(now, m, r.accepted[m])
    {
      assert Holds(r, m, r.accepted[m]);
      WritingElsewhere(r.frames, m, n, c.input[c.copied]);
    }
    forall i: nat | i < c.copied + 1
      ensures Holds(now, |r.accepted| + i, c.input[i])
    {
      if i < c.copied {
        assert Holds(r, |r.accepted| + i, c.input[i]);
        WritingElsewhere(r.frames, |r.accepted| + i, n, c.input[c.copied]);
      }
    }
  }

  lemma CopyKeepsInv<F>(r: Ring<F>)
    requires Inv(r) && Enabled(r, Copy) && Shape(r)
    ensures Inv(Next(r, Copy))
  {
    var now := Next(r, Copy);
    CopyWritesTheNextFrame(r);
    CopyKeepsFrames(r, now);
    CopyKeepsTheRest(r, now);
  }

  lemma CopyWritesTheNextFrame<F>(r: Ring<F>)
    requires Shape(r) && Enabled(r, Copy) && IsPow2(r.capacity) && r.written == |r.accepted| % WORD
    ensures var n := |r.accepted| + r.client.copied;
            Next(r, Copy) == r.(frames := r.frames[n % r.capacity := r.client.input[r.client.copied]],
                                client := r.client.(copied := r.client.copied + 1))
  {
    NextFrameIsAt(|r.accepted|, r.client.copied, r.capacity);
  }

  lemma NextFrameIsAt(accepted: nat, copied: nat, capacity: nat)
    requires IsPow2(capacity)
    ensures Index((accepted % WORD + copied) % WORD, capacity) == (accepted + copied) % capacity
  {
    WordSum(accepted, copied);
    IndexIsRemainder(accepted + copied, capacity);
  }

  lemma CopyKeepsTheRest<F>(r: Ring<F>, now: Ring<F>)
    requires r.client.Copying? && Counts(r) && Sleeps(r) && Kicks(r)
    requires now == r.(frames := now.frames, client := r.client.(copied := r.client.copied + 1))
    ensures Counts(now) && Sleeps(now) && Kicks(now)
  {
  }

  lemma StoreKeepsFrames<F>(r: Ring<F>)
    requires Inv(r) && Enabled(r, Store) && Shape(r)
    ensures Keeps(Next(r, Store))
  {
    var now := Next(r, Store);
    forall n: nat | now.consumed <= n < |now.accepted|
      ensures Holds(now, n, now.accepted[n])
    {
      if n < |r.accepted| {
        assert Holds(r, n, r.accepted[n]);
      } else {
        assert Holds(r, |r.accepted| + (n - |r.accepted|), r.client.input[n - |r.accepted|]);
      }
    }
    assert now.accepted[..r.cursor] == r.accepted[..r.cursor];
  }

  lemma StoreKeepsInv<F>(r: Ring<F>)
    requires Inv(r) && Enabled(r, Store) && Shape(r)
    ensures Inv(Next(r, Store))
  {
    StoreKeepsFrames(r);
    WordSum(|r.accepted|, |r.client.input|);
    var now := Next(r, Store);
    assert Counts(now) && Sleeps(now) && Kicks(now);
  }

  lemma TakeKeepsInv<F>(r: Ring<F>)
    requires Inv(r) && Enabled(r, Take) && Shape(r)
    ensures Inv(Next(r, Take))
  {
    var now := Next(r, Take);
    assert r.cursor < r.bound;
    IndexIsRemainder(r.cursor, r.capacity);
    WordSum(r.cursor, 1);
    assert Holds(r, r.cursor, r.accepted[r.cursor]);
    assert r.accepted[..r.cursor + 1] == r.accepted[..r.cursor] + [r.accepted[r.cursor]];
    TakeKeepsFrames(r);
    assert Counts(now) && Sleeps(now) && Kicks(now);
  }

  lemma TakeKeepsFrames<F>(r: Ring<F>)
    requires Inv(r) && Enabled(r, Take) && Shape(r) && r.cursor < |r.accepted|
    requires Next(r, Take).output == r.accepted[..r.cursor + 1]
    ensures Keeps(Next(r, Take))
  {
    var now := Next(r, Take);
    forall n: nat | now.consumed <= n < |now.accepted|
      ensures Holds(now, n, now.accepted[n])
    {
      assert Holds(r, n, r.accepted[n]);
    }
    forall i: nat | r.client.Copying? && i < r.client.copied
      ensures Holds(now, |r.accepted| + i, r.client.input[i])
    {
      assert Holds(r, |r.accepted| + i, r.client.input[i]);
    }
  }

  lemma StepKeepsInv<F>(r: Ring<F>, s: Step<F>)
    requires Inv(r) && Enabled(r, s)
    ensures Shape(r) && Inv(Next(r, s))
  {
    InvHasShape(r);
    match s
    case Begin(input) => BeginLeavesRoom(r, input);
    case Copy => CopyKeepsInv(r);
    case Store => StoreKeepsInv(r);
    case Take => TakeKeepsInv(r);
    case Answer(sent) => AnswerKeepsInv(r, sent);
    case _ => QuietStepKeepsInv(r, s);
  }

  lemma AnswerKeepsInv<F>(r: Ring<F>, sent: bool)
    requires Inv(r) && r.client.Asked?
    ensures Inv(Answered(r, sent))
  {
    AnswerKeepsKicks(r, sent);
    SameFramesKeep(r, Answered(r, sent));
  }

  /** Frames that stay in the ring stay what they are; releasing some asks for less. */
  lemma SameFramesKeep<F>(r: Ring<F>, now: Ring<F>)
    requires r.capacity == |r.frames| >= 1 && Keeps(r)
    requires now.capacity == r.capacity && now.frames == r.frames && now.accepted == r.accepted
    requires now.consumed >= r.consumed && now.cursor == r.cursor && now.output == r.output
    requires now.client.Copying? ==> now.client == r.client
    ensures Keeps(now)
  {
    forall n: nat | now.consumed <= n < |now.accepted|
      ensures Holds(now, n, now.accepted[n])
    {
      assert Holds(r, n, r.accepted[n]);
    }
    forall i: nat | now.client.Copying? && i < now.client.copied
      ensures Holds(now, |now.accepted| + i, now.client.input[i])
    {
      assert Holds(r, |r.accepted| + i, r.client.input[i]);
    }
  }

  lemma RuledMore(writes: seq<Finished>, w: Finished)
    requires forall j :: 0 <= j < |writes| ==> Ruled(writes, j)
    requires w.asleep <==> w.outcome != NotNeeded
    requires w.asleep ==> (w.outcome.Suppressed? <==> StandingKick(writes) == Some(w.loaded))
    ensures forall j :: 0 <= j < |writes + [w]| ==> Ruled(writes + [w], j)
  {
    var more := writes + [w];
    forall j | 0 <= j < |more| ensures Ruled(more, j) {
      if j < |writes| {
        assert Ruled(writes, j) && more[..j] == writes[..j];
      } else {
        assert more[..j] == writes;
      }
    }
  }

  lemma StandingMore(writes: seq<Finished>, w: Finished)
    ensures StandingKick(writes + [w])
            == if w.outcome.KickSent? then Some(w.loaded) else if !w.asleep then None else StandingKick(writes)
  {
    assert (writes + [w])[..|writes|] == writes;
  }

  lemma AnswerKeepsKicks<F>(r: Ring<F>, sent: bool)
    requires Kicks(r) && r.client.Asked?
    ensures Kicks(Answered(r, sent))
  {
    var now := Answered(r, sent);
    var w := now.writes[|r.writes|];
    StandingMore(r.writes, w);
    RuledMore(r.writes, w);
    assert now.writes == r.writes + [w];
  }

  lemma QuietStepKeepsInv<F>(r: Ring<F>, s: Step<F>)
    requires Inv(r) && Enabled(r, s) && Shape(r)
    requires s.Ask? || s.Look? || s.Release? || s.Drowse? || s.Settle? || s.Wake?
    ensures Inv(Next(r, s))
  {
    SameFramesKeep(r, Next(r, s));
  }

  // ---- Runs

  ghost predicate Possible<F>(r: Ring<F>, run: seq<Step<F>>)
    decreases |run|
  {
    Shape(r) && (run == [] || (Enabled(r, run[0]) && Possible(Next(r, run[0]), run[1..])))
  }

  ghost function After<F>(r: Ring<F>, run: seq<Step<F>>): Ring<F>
    requires Possible(r, run)
    decreases |run|
  {
    if run == [] then r else After(Next(r, run[0]), run[1..])
  }

  /** A new ring, whose counters may start anywhere; the client takes `written` from the ring. */
  function Fresh<F>(frames: seq<F>, start: seq<F>): Ring<F> {
    var word := |start| % WORD;
    Ring(|frames|, frames, word, word, false, word, false, 0, Idle, word, word, Awake,
         start, |start|, |start|, |start|, start, [])
  }

  lemma FreshHasInv<F>(frames: seq<F>, start: seq<F>)
    requires IsPow2(|frames|) && |frames| < WORD
    ensures Inv(Fresh(frames, start))
  {
  }

  lemma {:induction false} RunKeepsInv<F>(r: Ring<F>, run: seq<Step<F>>)
    requires Inv(r) && Possible(r, run)
    ensures Inv(After(r, run))
    decreases |run|
  {
    if run != [] {
      StepKeepsInv(r, run[0]);
      RunKeepsInv(Next(r, run[0]), run[1..]);
    }
  }

  /**
   In every interleaving, wherever the counters started: the service has read a prefix of the frames
   the client accepted, in order; no more than `capacity` frames are outstanding, so the service,
   which ends a stream whose `write` runs further ahead, never sees that; and every accepted frame it
   has not read is still at its place.
   */
  lemma ServiceReadsWhatWasAccepted<F>(frames: seq<F>, start: seq<F>, run: seq<Step<F>>)
    requires IsPow2(|frames|) && |frames| < WORD && Possible(Fresh(frames, start), run)
    ensures var r := After(Fresh(frames, start), run);
            && r.output <= r.accepted
            && |r.accepted| - r.consumed <= r.capacity
            && (r.write - r.position) % WORD <= r.capacity
            && forall n: nat :: r.cursor <= n < |r.accepted| ==>
                 |r.frames| > 0 && r.frames[n % |r.frames|] == r.accepted[n]
  {
    FreshHasInv(frames, start);
    RunKeepsInv(Fresh(frames, start), run);
    InvReadsWhatWasAccepted(After(Fresh(frames, start), run));
  }

  lemma InvReadsWhatWasAccepted<F>(r: Ring<F>)
    requires Inv(r)
    ensures r.output <= r.accepted && |r.accepted| - r.consumed <= r.capacity
    ensures (r.write - r.position) % WORD <= r.capacity
    ensures forall n: nat :: r.cursor <= n < |r.accepted| ==>
              |r.frames| > 0 && r.frames[n % |r.frames|] == r.accepted[n]
  {
    WordDifference(|r.accepted|, r.cursor);
    forall n: nat | r.cursor <= n < |r.accepted|
      ensures |r.frames| > 0 && r.frames[n % |r.frames|] == r.accepted[n]
    {
      assert Holds(r, n, r.accepted[n]);
    }
  }

  // ---- The sleep hand-off

  /** Write `i` sent a KICK, and up to write `j` every write saw the service sleep and sent none. */
  ghost predicate Stands(writes: seq<Finished>, i: nat, j: nat) {
    && i < j <= |writes| && writes[i].outcome.KickSent?
    && forall k :: i < k < j ==> writes[k].asleep && !writes[k].outcome.KickSent?
  }

  lemma {:induction false} StandingKickStands(writes: seq<Finished>, j: nat, loaded: nat)
    requires j <= |writes|
    ensures StandingKick(writes[..j]) == Some(loaded) <==>
      exists i: nat :: Stands(writes, i, j) && writes[i].loaded == loaded
  {
    if j > 0 {
      var last := writes[j - 1];
      assert writes[..j][..j - 1] == writes[..j - 1];
      if last.outcome.KickSent? {
        assert Stands(writes, j - 1, j);
      } else if last.asleep {
        StandingKickStands(writes, j - 1, loaded);
        assert forall i: nat :: Stands(writes, i, j) <==> Stands(writes, i, j - 1);
      }
    }
  }

  /**
   When a KICK is left out, exactly: in every interleaving, a finished write that saw the service
   sleep sent none of its own accord if and only if an earlier write sent one after loading the same
   `read` word, and every write between them saw the service sleep and sent none.
   */
  lemma KickIsLeftOutExactly<F>(frames: seq<F>, start: seq<F>, run: seq<Step<F>>, j: nat)
    requires IsPow2(|frames|) && |frames| < WORD && Possible(Fresh(frames, start), run)
    requires var writes := After(Fresh(frames, start), run).writes;
             j < |writes| && writes[j].asleep
    ensures var writes := After(Fresh(frames, start), run).writes;
            && writes[j].outcome != NotNeeded
            && (writes[j].outcome == Suppressed <==>
                  exists i: nat :: Stands(writes, i, j) && writes[i].loaded == writes[j].loaded)
  {
    FreshHasInv(frames, start);
    RunKeepsInv(Fresh(frames, start), run);
    var writes := After(Fresh(frames, start), run).writes;
    assert Ruled(writes, j);
    StandingKickStands(writes, j, writes[j].loaded);
  }

  /**
   If the service stays asleep without having seen the frames of a finished write, that write loaded
   `sleeping` as nonzero, so it tried to send a KICK unless an earlier one stood for it.
   */
  lemma SleepingServiceWasKicked<F>(frames: seq<F>, start: seq<F>, run: seq<Step<F>>, j: nat)
    requires IsPow2(|frames|) && |frames| < WORD && Possible(Fresh(frames, start), run)
    requires var r := After(Fresh(frames, start), run);
             r.service.Asleep? && j < |r.writes| && r.writes[j].end > r.bound
    ensures var writes := After(Fresh(frames, start), run).writes;
            && writes[j].asleep
            && (writes[j].outcome.KickSent? || writes[j].outcome.KickFailed?
                || exists i: nat :: Stands(writes, i, j) && writes[i].loaded == writes[j].loaded)
  {
    FreshHasInv(frames, start);
    RunKeepsInv(Fresh(frames, start), run);
    assert After(Fresh(frames, start), run).writes[j] in After(Fresh(frames, start), run).writes;
    KickIsLeftOutExactly(frames, start, run, j);
  }

  /** One step before a run. */
  lemma OneStepBefore<F>(r: Ring<F>, s: Step<F>, run: seq<Step<F>>)
    requires Shape(r) && Enabled(r, s) && Possible(Next(r, s), run)
    ensures Possible(r, [s] + run) && After(r, [s] + run) == After(Next(r, s), run)
  {
    assert ([s] + run)[1..] == run;
  }

  lemma {:induction false} RunsJoin<F>(r: Ring<F>, a: seq<Step<F>>, b: seq<Step<F>>)
    requires Possible(r, a) && Possible(After(r, a), b)
    ensures Possible(r, a + b) && After(r, a + b) == After(After(r, a), b)
    decreases |a|
  {
    if a == [] {
      assert a + b == b;
    } else {
      RunsJoin(Next(r, a[0]), a[1..], b);
      assert a + b == [a[0]] + (a[1..] + b);
      OneStepBefore(r, a[0], a[1..] + b);
    }
  }

  function FallAsleep<F>(): seq<Step<F>> {
    [Drowse] + ([Settle(true)] + [])
  }

  function Publish<F>(): seq<Step<F>> {
    [Store] + ([Ask] + ([Answer(true)] + []))
  }

  function WriteOne<F>(frame: F): seq<Step<F>> {
    [Begin([frame])] + ([Copy] + Publish())
  }

  lemma PublishingOne<F>(r: Ring<F>, frame: F)
    requires Shape(r) && r.sleeping && r.client.Copying? && r.client == Copying([frame], r.client.loaded, 1)
    ensures Possible(r, Publish())
    ensures var now := After(r, Publish());
            && now == r.(write := now.write, written := now.written, kicked := true, client := Idle,
                         kickRead := r.client.loaded, accepted := r.accepted + [frame],
                         writes := r.writes + [Finished(|r.accepted| + 1, r.client.loaded, true,
                                                        KickOutcome(r, r.client.loaded))])
  {
    var stored := Next(r, Store);
    var asked := Next(stored, Ask);
    OneStepBefore(asked, Answer(true), []);
    OneStepBefore(stored, Ask, [Answer(true)] + []);
    OneStepBefore(r, Store, [Ask] + ([Answer(true)] + []));
  }

  lemma FallingAsleep<F>(r: Ring<F>)
    requires Inv(r) && r.service.Awake?
    ensures Possible(r, FallAsleep())
    ensures After(r, FallAsleep())
            == r.(sleeping := true, limit := r.write, bound := |r.accepted|, service := Asleep)
  {
    InvHasShape(r);
    var drowsy := Next(r, Drowse);
    OneStepBefore(drowsy, Settle(true), []);
    OneStepBefore(r, Drowse, [Settle(true)] + []);
  }

  lemma BeginningOne<F>(r: Ring<F>, frame: F)
    requires Inv(r) && Shape(r) && r.client.Idle? && |r.accepted| < r.consumed + r.capacity
    ensures Next(r, Begin([frame])) == r.(client := Copying([frame], r.read, 0))
  {
    BeginLeavesRoom(r, [frame]);
    assert [frame][..1] == [frame];
  }

  /** One frame written to a ring with room, whose service sleeps. */
  lemma WritingOne<F>(r: Ring<F>, frame: F)
    requires Inv(r) && r.sleeping && r.client.Idle? && |r.accepted| < r.consumed + r.capacity
    ensures Possible(r, WriteOne(frame))
    ensures var now := After(r, WriteOne(frame));
            && now == r.(frames := now.frames, write := now.write, written := now.written,
                         kicked := true, kickRead := r.read, accepted := r.accepted + [frame],
                         writes := r.writes + [Finished(|r.accepted| + 1, r.read, true, KickOutcome(r, r.read))])
  {
    InvHasShape(r);
    BeginningOne(r, frame);
    var begun := Next(r, Begin([frame]));
    PublishingOne(Next(begun, Copy), frame);
    OneStepBefore(begun, Copy, Publish());
    OneStepBefore(r, Begin([frame]), [Copy] + Publish());
  }

  function KickOutcome<F>(r: Ring<F>, loaded: nat): Outcome {
    if r.kicked && loaded == r.kickRead then Suppressed else KickSent
  }

  lemma SleepingThroughAWrite<F>(r: Ring<F>, frame: F) returns (run: seq<Step<F>>)
    requires Inv(r) && r.service.Awake? && r.client.Idle? && |r.accepted| < r.consumed + r.capacity
    ensures Possible(r, run)
    ensures var now := After(r, run);
            && Inv(now) && now.service.Asleep? && now.client.Idle? && now.capacity == r.capacity
            && now.accepted == r.accepted + [frame] && now.bound == |r.accepted| && now.consumed == r.consumed
            && now.read == r.read && now.kicked && now.kickRead == r.read
            && now.writes == r.writes + [Finished(|r.accepted| + 1, r.read, true, KickOutcome(r, r.read))]
  {
    FallingAsleep(r);
    RunKeepsInv(r, FallAsleep());
    var asleep := After(r, FallAsleep());
    WritingOne(asleep, frame);
    RunKeepsInv(asleep, WriteOne(frame));
    RunsJoin(r, FallAsleep(), WriteOne(frame));
    run := FallAsleep() + WriteOne(frame);
  }

  /**
   A KICK left out can be missed: the service sleeps through a write and is sent a KICK, wakes without
   reading, and sleeps through the next write, which sends none.
   */
  lemma LeftOutKickIsMissed() returns (run: seq<Step<int>>)
    ensures IsPow2(2) && Possible(Fresh([0, 0], []), run)
    ensures var r := After(Fresh([0, 0], []), run);
            && r.service.Asleep? && |r.writes| == 2 && r.writes[1].end > r.bound
            && r.writes[1].outcome == Suppressed
  {
    assert Pow2(1) == 2;
    var r: Ring<int> := Fresh([0, 0], []);
    FreshHasInv<int>([0, 0], []);
    var first := SleepingThroughAWrite(r, 5);
    var kicked := After(r, first);
    InvHasShape(kicked);
    StepKeepsInv(kicked, Wake);
    var woken := Next(kicked, Wake);
    var second := SleepingThroughAWrite(woken, 6);
    OneStepBefore(kicked, Wake, second);
    RunsJoin(r, first, [Wake] + second);
    run := first + ([Wake] + second);
  }
}
