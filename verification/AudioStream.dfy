/** The client's end of a stream: the write and the queue length, as straight code over the ring. */
module AudioStream {
  import opened Arithmetic
  import opened Words
  import opened AudioRing

  const HALF_WORD: nat := 0x8000_0000

  datatype WriteResult = Taken(frames: nat) | Ended

  /** The client's steps of one write, with what its later load of `sleeping` said. */
  ghost function ClientWrite<F>(r: Ring<F>, input: seq<F>, asleep: bool, sent: bool): Ring<F>
    requires Inv(r) && r.client.Idle?
  {
    InvHasShape(r);
    var begun := Next(r, Begin(input));
    if begun.client.Idle? then begun
    else
      var stored := Next(CopyAll(begun), Store);
      Answered(Next(stored.(sleeping := asleep), Ask), sent)
  }

  ghost function CopyAll<F>(r: Ring<F>): (copied: Ring<F>)
    requires Shape(r) && r.client.Copying? && r.client.copied <= |r.client.input|
    ensures copied == r.(frames := copied.frames, client := r.client.(copied := |r.client.input|))
    ensures Shape(copied) && Enabled(copied, Store)
    decreases |r.client.input| - r.client.copied
  {
    if r.client.copied == |r.client.input| then r else CopyAll(Next(r, Copy))
  }

  /** The ring's frames after `input` has been put at the places of frames `counter`, `counter` + 1, ... */
  function Poured<F>(frames: seq<F>, counter: nat, input: seq<F>): (to: seq<F>)
    requires |frames| > 0
    ensures |to| == |frames|
  {
    if input == [] then frames
    else
      var last := |input| - 1;
      Poured(frames, counter, input[..last])[(counter + last) % |frames| := input[last]]
  }

  lemma {:induction false} CopyAllPours<F>(r: Ring<F>, was: seq<F>)
    requires Shape(r) && IsPow2(r.capacity) && |was| == r.capacity
    requires r.client.Copying? && r.client.copied <= |r.client.input|
    requires r.frames == Poured(was, r.written, r.client.input[..r.client.copied])
    ensures CopyAll(r).frames == Poured(was, r.written, r.client.input)
    decreases |r.client.input| - r.client.copied
  {
    var c := r.client;
    if c.copied == |c.input| {
      assert c.input[..c.copied] == c.input;
    } else {
      IndexIsRemainder(r.written + c.copied, r.capacity);
      assert c.input[..c.copied + 1][..c.copied] == c.input[..c.copied];
      CopyAllPours(Next(r, Copy), was);
    }
  }

  lemma PouredNext<F>(frames: seq<F>, counter: nat, input: seq<F>, i: nat, index: nat)
    requires |frames| > 0 && i < |input| && index == (counter + i) % |frames|
    ensures Poured(frames, counter, input[..i + 1]) == Poured(frames, counter, input[..i])[index := input[i]]
  {
    assert input[..i + 1][..i] == input[..i];
  }

  /** Within one ring's length the place wraps at most once. */
  lemma PlaceWrapsOnce(counter: nat, capacity: nat, i: nat)
    requires 0 < capacity && i < capacity
    ensures var start := counter % capacity;
            (counter + i) % capacity == if start + i < capacity then start + i else start + i - capacity
  {
    var q := counter / capacity;
    QuotientBounds(counter, capacity);
    assert (q + 1) * capacity == q * capacity + capacity;
    QuotientUnique(counter + i, capacity, if counter % capacity + i < capacity then q else q + 1);
  }

  /** What the client's steps of a write come to. */
  lemma ClientWriteInOne<F>(r: Ring<F>, input: seq<F>, asleep: bool, sent: bool)
    requires Inv(r) && r.client.Idle?
    ensures var now := ClientWrite(r, input, asleep, sent);
            var taken := Room(r.written, r.read, r.capacity, |input|);
            && taken <= |input| && taken <= r.capacity && now.capacity == r.capacity
            && (taken == 0 ==> now == r)
            && (taken > 0 ==>
                  && now.frames == Poured(r.frames, r.written, input[..taken])
                  && now.written == now.write == (r.written + taken) % WORD
                  && (!asleep ==> !now.kicked && now.kickRead == r.kickRead)
                  && (asleep ==>
                        if (!r.kicked || r.read != r.kickRead) && sent then now.kicked && now.kickRead == r.read
                        else now.kicked == r.kicked && now.kickRead == r.kickRead))
  {
    InvHasShape(r);
    BeginLeavesRoom(r, input);
    var taken := Room(r.written, r.read, r.capacity, |input|);
    if taken > 0 {
      CopyAllPours(Next(r, Begin(input)), r.frames);
    }
  }

  class AudioStream<F> {
    const capacity: nat
    /** The shared ring's frames, and its `write` word. */
    const frames: array<F>
    var write: nat
    var written: nat
    var kicked: bool
    var kickRead: nat
    var ended: bool

    /** The client's side of a ring with the same memory. */
    ghost predicate Matches(r: Ring<F>)
      reads this, frames
    {
      && r.capacity == capacity == frames.Length && r.frames == frames[..]
      && r.written == written && r.write == write && r.kicked == kicked && r.kickRead == kickRead
    }

    constructor (memory: array<F>, word: nat)
      requires word < WORD
      ensures frames == memory && capacity == memory.Length && write == written == word
      ensures !kicked && kickRead == 0 && !ended
    {
      capacity := memory.Length;
      frames := memory;
      write := word;
      written := word;
      kicked := false;
      kickRead := 0;
      ended := false;
    }

    /**
     Writes as many frames as fit. `over`, `read` and `asleep` are what the loads of the ring's state,
     `read` and `sleeping` give at their places in the code, and `sent` is what the send of a KICK says.
     */
    method Write(input: seq<F>, over: bool, read: nat, asleep: bool, sent: bool, ghost r: Ring<F>)
      returns (result: WriteResult)
      requires Matches(r) && Inv(r) && r.client.Idle? && r.read == read
      modifies this`write, this`written, this`kicked, this`kickRead, frames
      ensures ended || over ==> result == Ended && Matches(r)
      ensures !(ended || over) ==>
                && Matches(ClientWrite(r, input, asleep, sent))
                && result == Taken(Room(r.written, read, capacity, |input|))
    {
      if ended || over {
        return Ended;
      }
      ClientWriteInOne(r, input, asleep, sent);
      var taken := FreeFrames(read, |input|);
      if taken == 0 {
        return Taken(0);
      }
      Publish(input, taken, read, asleep, sent);
      result := Taken(taken);
    }

    /** As many of the frames as there is room for beside what the loaded `read` leaves. */
    method FreeFrames(read: nat, count: nat) returns (taken: nat)
      ensures taken == Room(written, read, capacity, count)
    {
      var used := (written - read) % WORD;
      taken := if used >= capacity then 0 else capacity - used;
      if taken > count {
        taken := count;
      }
    }

    /** Copies the frames in, publishes them and then looks after the service's sleep. */
    method Publish(input: seq<F>, taken: nat, read: nat, asleep: bool, sent: bool)
      requires IsPow2(capacity) && capacity == frames.Length && 0 < taken <= |input| && taken <= capacity
      modifies this`write, this`written, this`kicked, this`kickRead, frames
      ensures frames[..] == Poured(old(frames[..]), old(written), input[..taken])
      ensures written == write == (old(written) + taken) % WORD
      ensures !asleep ==> !kicked && kickRead == old(kickRead)
      ensures asleep ==> if (!old(kicked) || read != old(kickRead)) && sent then kicked && kickRead == read
                         else kicked == old(kicked) && kickRead == old(kickRead)
    {
      var start := And(written, capacity - 1);
      IndexIsRemainder(written, capacity);
      var first := capacity - start;
      if first > taken {
        first := taken;
      }
      CopyIn(input, start, first, taken);
      written := (written + taken) % WORD;
      // The frames are published before the service's sleep hand-off is checked.
      write := written;
      if !asleep {
        kicked := false;
      } else if !kicked || read != kickRead {
        if sent {
          kicked := true;
          kickRead := read;
        }
      }
    }

    /** The two copies: up to the end of the ring, then from its start. */
    method CopyIn(input: seq<F>, start: nat, first: nat, taken: nat)
      requires capacity == frames.Length > 0 && start == written % capacity
      requires first <= taken <= |input| && taken <= capacity
      requires first == (if capacity - start > taken then taken else capacity - start)
      modifies frames
      ensures frames[..] == Poured(old(frames[..]), written, input[..taken])
    {
      ghost var was := frames[..];
      for i := 0 to first
        invariant frames[..] == Poured(was, written, input[..i])
      {
        PlaceWrapsOnce(written, capacity, i);
        PouredNext(was, written, input, i, start + i);
        frames[start + i] := input[i];
      }
      for i := 0 to taken - first
        invariant frames[..] == Poured(was, written, input[..first + i])
      {
        PlaceWrapsOnce(written, capacity, first + i);
        PouredNext(was, written, input, first + i, i);
        frames[i] := input[first + i];
      }
    }

    /**
     The frames not yet heard, and none when `heard`, the load of the ring's word, is ahead. What the
     two words count must lie less than half a word apart, which the ring's capacity and the output's
     buffers guarantee.
     */
    method Queued(over: bool, heard: nat, ghost accepted: nat, ghost left: nat) returns (frames: int)
      requires written == accepted % WORD && heard == left % WORD
      requires accepted < left + HALF_WORD && left <= accepted + HALF_WORD
      ensures frames == if ended || over then -1 else if left <= accepted then accepted - left else 0
    {
      if ended || over {
        return -1;
      }
      if left <= accepted { WordDifference(accepted, left); } else { WordBehind(accepted, left); }
      var word := (written - heard) % WORD;
      // The conversion to a signed word.
      var queued: int := if word < HALF_WORD then word else word - WORD;
      frames := if queued > 0 then queued else 0;
    }
  }

  /** Doubled until it holds a quarter of a second. */
  method RingCapacity(rate: nat) returns (capacity: nat)
    requires rate <= 48000
    ensures IsPow2(capacity) && capacity * 4 >= rate
    ensures forall k: nat :: Pow2(k) * 4 >= rate ==> capacity <= Pow2(k)
    ensures rate >= 8000 ==> 2048 <= capacity <= 16384
  {
    Pow2Values();
    capacity := 1;
    ghost var k: nat := 0;
    while capacity < (rate + 3) / 4
      invariant capacity == Pow2(k) && k <= 14
      invariant k > 0 ==> Pow2(k - 1) * 4 < rate
      decreases 14 - k
    {
      capacity := capacity * 2;
      k := k + 1;
      if k > 14 { Pow2Grows(14, k - 1); }
    }
    LeastPow2(rate, k);
  }

  lemma LeastPow2(rate: nat, k: nat)
    requires k > 0 ==> Pow2(k - 1) * 4 < rate
    requires Pow2(k) * 4 >= rate && rate <= 48000
    ensures forall j: nat :: Pow2(j) * 4 >= rate ==> Pow2(k) <= Pow2(j)
    ensures rate >= 8000 ==> 2048 <= Pow2(k) <= 16384
  {
    forall j: nat | Pow2(j) * 4 >= rate ensures Pow2(k) <= Pow2(j) {
      if j < k { Pow2Grows(j, k - 1); } else { Pow2Grows(k, j); }
    }
    Pow2Values();
    if k < 11 { Pow2Grows(k, 10); } else { Pow2Grows(11, k); }
    if k > 14 { Pow2Grows(14, k - 1); }
  }
}
