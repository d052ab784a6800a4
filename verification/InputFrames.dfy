/** A frame of a device: what is read up to its report, and what is then reported of it. */
module InputFrames {
  import opened Arithmetic
  import opened Basics
  import opened InputTrace
  import opened InputDevices

  // ---- Reading a frame

  /** Reads that belong to a frame before its report. */
  predicate Gathers(read: Read) {
    read.Interrupted? || read.KeyEvent? || read.Relative? || read.Other?
  }

  predicate IsFrame(script: seq<Read>) {
    && script != [] && script[|script| - 1].Report?
    && forall n :: 0 <= n < |script| - 1 ==> Gathers(script[n])
  }

  function FrameOf(script: seq<Read>): seq<Read>
    requires script != []
  {
    script[..|script| - 1]
  }

  /** What one read adds to the queue and to one axis. */
  function KeysOf(read: Read): seq<Raw> {
    if read.KeyEvent? then Queued(read.raw) else []
  }

  function StepOf(read: Read, code: nat): int {
    if read.Relative? && read.code == code then read.value else 0
  }

  /** What one read leaves in the slot: in a synchronisation only libevdev's state follows it. */
  function Absorbed(d: Device, read: Read): Device {
    var counts := !d.syncing && d.kind.hasPointer;
    d.(keys := d.keys + (if d.syncing then [] else KeysOf(read)),
       held := if read.KeyEvent? then Held(d.held, read.raw) else d.held,
       dx := d.dx + (if counts then StepOf(read, REL_X) else 0),
       dy := d.dy + (if counts then StepOf(read, REL_Y) else 0),
       wheelLegacy := d.wheelLegacy + (if counts then StepOf(read, REL_WHEEL) else 0),
       wheelV120 := d.wheelV120 + (if counts then StepOf(read, REL_WHEEL_HI_RES) else 0),
       highResolution := d.highResolution || (counts && read.Relative? && read.code == REL_WHEEL_HI_RES))
  }

  lemma AbsorbedIsNothing(d: Device, read: Read)
    requires read.Interrupted? || read.Other?
    ensures Absorbed(d, read) == d
  {
    assert d.keys + [] == d.keys;
  }

  function Gathered(d: Device, frame: seq<Read>): Device
    decreases |frame|
  {
    if frame == [] then d else Absorbed(Gathered(d, frame[..|frame| - 1]), frame[|frame| - 1])
  }

  lemma GatheredMore(d: Device, script: seq<Read>, n: nat)
    requires n < |script|
    ensures Gathered(d, script[..n + 1]) == Absorbed(Gathered(d, script[..n]), script[n])
    ensures n + 1 == |script| ==> script[..n] == FrameOf(script)
    ensures !d.syncing ==> !Gathered(d, script[..n]).syncing
  {
    assert script[..n + 1][..n] == script[..n];
    GatheredKeeps(d, script[..n]);
  }

  /** Gathering touches the queue, libevdev's state and the travel, and nothing else. */
  predicate GathersTo(d: Device, g: Device) {
    && g.used == d.used && g.path == d.path && g.open == d.open && g.kind == d.kind && g.id == d.id
    && g.pressed == d.pressed && g.added == d.added && g.removing == d.removing
    && g.syncing == d.syncing && g.syncPending == d.syncPending && g.syncCode == d.syncCode && g.synced == d.synced
    && g.keyNext == d.keyNext && g.frameReady == d.frameReady
    && g.motionPending == d.motionPending && g.wheelPending == d.wheelPending
  }

  lemma AbsorbedKeeps(d: Device, read: Read)
    ensures GathersTo(d, Absorbed(d, read))
  {
  }

  lemma GathersOn(d: Device, g: Device, h: Device)
    requires GathersTo(d, g) && GathersTo(g, h)
    ensures GathersTo(d, h)
  {
  }

  lemma {:induction false} GatheredKeeps(d: Device, frame: seq<Read>)
    ensures GathersTo(d, Gathered(d, frame))
    decreases |frame|
  {
    if frame != [] {
      var before, last := frame[..|frame| - 1], frame[|frame| - 1];
      GatheredKeeps(d, before);
      AbsorbedKeeps(Gathered(d, before), last);
      GathersOn(d, Gathered(d, before), Absorbed(Gathered(d, before), last));
    }
  }

  /** The report: the frame is ready, and a pointer's travel and wheel are summed up. */
  function Finished(d: Device, remainder: int): (Device, int) {
    var ready := d.(frameReady := true);
    if d.kind.hasPointer then FinishFrame(ready, remainder) else (ready, remainder)
  }

  // ---- What the frame held

  /** Its presses and releases, in order. */
  function FrameKeys(frame: seq<Read>): seq<Raw> {
    if frame == [] then [] else FrameKeys(frame[..|frame| - 1]) + KeysOf(frame[|frame| - 1])
  }

  /** The sum of one axis. */
  function Travel(frame: seq<Read>, code: nat): int {
    if frame == [] then 0 else Travel(frame[..|frame| - 1], code) + StepOf(frame[|frame| - 1], code)
  }

  /** libevdev's key state after presses and releases. */
  function Differing(held: set<nat>, raws: seq<Raw>): set<nat>
    decreases |raws|
  {
    if raws == [] then held else Differing(Held(held, raws[0]), raws[1..])
  }

  lemma {:induction false} DifferingMore(held: set<nat>, raws: seq<Raw>, raw: Raw)
    ensures Differing(held, raws + [raw]) == Held(Differing(held, raws), raw)
    decreases |raws|
  {
    if raws == [] {
      assert raws + [raw] == [raw] && [raw][1..] == [];
    } else {
      assert (raws + [raw])[1..] == raws[1..] + [raw];
      DifferingMore(Held(held, raws[0]), raws[1..], raw);
    }
  }

  lemma AbsorbedAdds(d: Device, read: Read)
    requires !d.syncing
    ensures var g := Absorbed(d, read);
      && g.keys == d.keys + KeysOf(read) && g.held == Differing(d.held, KeysOf(read))
      && g.dx == d.dx + (if d.kind.hasPointer then StepOf(read, REL_X) else 0)
      && g.dy == d.dy + (if d.kind.hasPointer then StepOf(read, REL_Y) else 0)
      && g.wheelLegacy == d.wheelLegacy + (if d.kind.hasPointer then StepOf(read, REL_WHEEL) else 0)
      && g.wheelV120 == d.wheelV120 + (if d.kind.hasPointer then StepOf(read, REL_WHEEL_HI_RES) else 0)
  {
    if read.KeyEvent? {
      assert [read.raw][1..] == [];
    }
  }

  /** Nothing read is lost: every press and release is queued, and every axis adds up. */
  lemma {:induction false} GatheringLosesNothing(d: Device, frame: seq<Read>)
    requires !d.syncing
    ensures var g := Gathered(d, frame);
      && g.keys == d.keys + FrameKeys(frame) && g.held == Differing(d.held, FrameKeys(frame))
      && g.dx == d.dx + (if d.kind.hasPointer then Travel(frame, REL_X) else 0)
      && g.dy == d.dy + (if d.kind.hasPointer then Travel(frame, REL_Y) else 0)
      && g.wheelLegacy == d.wheelLegacy + (if d.kind.hasPointer then Travel(frame, REL_WHEEL) else 0)
      && g.wheelV120 == d.wheelV120 + (if d.kind.hasPointer then Travel(frame, REL_WHEEL_HI_RES) else 0)
    decreases |frame|
  {
    if frame == [] {
      assert d.keys + [] == d.keys;
    } else {
      var before, last := frame[..|frame| - 1], frame[|frame| - 1];
      GatheringLosesNothing(d, before);
      GatheredKeeps(d, before);
      AbsorbedAdds(Gathered(d, before), last);
      KeysAddUp(d, FrameKeys(before), KeysOf(last));
    }
  }

  lemma KeysAddUp(d: Device, a: seq<Raw>, b: seq<Raw>)
    requires |b| <= 1
    ensures (d.keys + a) + b == d.keys + (a + b)
    ensures Differing(Differing(d.held, a), b) == Differing(d.held, a + b)
  {
    if b == [] {
      assert a + b == a;
    } else {
      DifferingMore(d.held, a, b[0]);
      assert b == [b[0]] && b[1..] == [];
    }
  }

  // ---- What is reported of it

  /** Presses and releases by which the reported keys change, each reported once. */
  function KeyReports(id: nat, kind: Kind, pressed: set<nat>, raws: seq<Raw>): seq<Event>
    decreases |raws|
  {
    if raws == [] then []
    else
      (if Reports(kind, pressed, raws[0]) then [Key(id, raws[0].code, raws[0].value == 1)] else [])
        + KeyReports(id, kind, Taken(kind, pressed, raws[0]), raws[1..])
  }

  /** Then the motion, and the wheel. */
  function PointerReports(d: Device): seq<Event> {
    (if d.motionPending then [Motion(d.id, d.dx, d.dy)] else [])
    + if d.wheelPending != 0 then [Wheel(d.id, d.wheelPending)] else []
  }

  lemma {:induction false} PointerIsReported(d: Device)
    requires Ok(d) && d.open && !d.added && !d.frameReady && !d.syncPending
    ensures AllReports(d).1 == PointerReports(d) && AllReports(d).0.pressed == d.pressed
    decreases Work(d)
  {
    NextReportKeeps(d);
    var r := NextReport(d);
    if r.1.Some? { PointerIsReported(r.0); }
  }

  /** A frame's reports are under way. */
  ghost predicate Framing(d: Device) {
    Ok(d) && d.open && !d.added && d.frameReady && !d.syncPending
  }

  /** The effective presses and releases are reported in turn, and then the pointer. */
  lemma {:induction false} FrameIsReported(d: Device)
    requires Framing(d)
    ensures AllReports(d).1 == Expected(d)
    ensures AllReports(d).0.pressed == Replay(d.kind, d.pressed, d.keys[d.keyNext..])
    decreases |d.keys| - d.keyNext
  {
    if d.keyNext >= |d.keys| {
      EmptyFrameIsReported(d);
    } else {
      OneKeyIsReported(d);
      FrameIsReported(AfterKey(d));
      OneKeyIsExpected(d);
    }
  }

  lemma EmptyFrameIsReported(d: Device)
    requires Framing(d) && d.keyNext == |d.keys|
    ensures AllReports(d).1 == PointerReports(d) && AllReports(d).0.pressed == d.pressed
  {
    var done := d.(keys := [], keyNext := 0, frameReady := false);
    FrameReportKeeps(d);
    PointerIsReported(done);
    assert NextReport(d) == NextReport(done);
    NextReportKeeps(d);
    NextReportKeeps(done);
  }

  /** The slot once its next raw key event is translated. */
  function AfterKey(d: Device): Device
    requires d.keyNext < |d.keys|
  {
    d.(keyNext := d.keyNext + 1, pressed := Taken(d.kind, d.pressed, d.keys[d.keyNext]))
  }

  /** What is to be reported of the frame. */
  function Expected(d: Device): seq<Event>
    requires d.keyNext <= |d.keys|
  {
    KeyReports(d.id, d.kind, d.pressed, d.keys[d.keyNext..]) + PointerReports(d)
  }

  lemma OneKeyIsExpected(d: Device)
    requires d.keyNext < |d.keys|
    ensures var raw, next := d.keys[d.keyNext], AfterKey(d);
      && Expected(d)
         == (if Reports(d.kind, d.pressed, raw) then [Key(d.id, raw.code, raw.value == 1)] else []) + Expected(next)
      && Replay(d.kind, d.pressed, d.keys[d.keyNext..]) == Replay(next.kind, next.pressed, next.keys[next.keyNext..])
  {
    assert d.keys[d.keyNext..][1..] == d.keys[d.keyNext + 1..];
  }

  lemma AfterKeyIsFraming(d: Device)
    requires Framing(d) && d.keyNext < |d.keys|
    ensures Framing(AfterKey(d))
    ensures Translate(d.(keyNext := d.keyNext + 1), d.keys[d.keyNext]).0 == AfterKey(d)
  {
    TakingKeepsOk(d);
  }

  lemma OneKeyIsReported(d: Device)
    requires Framing(d) && d.keyNext < |d.keys|
    ensures Framing(AfterKey(d)) && AllReports(d).0 == AllReports(AfterKey(d)).0
    ensures var raw := d.keys[d.keyNext];
      AllReports(d).1
      == (if Reports(d.kind, d.pressed, raw) then [Key(d.id, raw.code, raw.value == 1)] else []) + AllReports(AfterKey(d)).1
  {
    AfterKeyIsFraming(d);
    NextReportKeeps(d);
    NextReportKeeps(AfterKey(d));
    if !Reports(d.kind, d.pressed, d.keys[d.keyNext]) {
      assert NextReport(d) == NextReport(AfterKey(d));
    }
  }

  // ---- From the reads to the events

  lemma AbsorbedKeepsOk(d: Device, read: Read)
    requires Ok(d) && !d.syncing && !d.syncPending
    ensures Ok(Absorbed(d, read))
  {
    if read.KeyEvent? {
      ReadKeyKeepsOk(d, read.raw);
    } else {
      assert d.keys + [] == d.keys;
    }
  }

  lemma {:induction false} GatheredKeepsOk(d: Device, frame: seq<Read>)
    requires Ok(d) && !d.syncing && !d.syncPending
    ensures Ok(Gathered(d, frame))
    decreases |frame|
  {
    if frame != [] {
      var before, last := frame[..|frame| - 1], frame[|frame| - 1];
      GatheredKeepsOk(d, before);
      GatheredKeeps(d, before);
      AbsorbedKeepsOk(Gathered(d, before), last);
    }
  }

  /** The slot once a frame is read up to and with its report. */
  function Framed(d: Device, frame: seq<Read>, remainder: int): Device {
    Finished(Gathered(d, frame), remainder).0
  }

  lemma FramedIsFraming(d: Device, frame: seq<Read>, remainder: int)
    requires Ok(d) && d.open && Quiet(d) && !d.syncing
    ensures var f := Framed(d, frame, remainder);
      && Framing(f) && f.id == d.id && f.kind == d.kind && f.pressed == d.pressed
      && f.keys == d.keys + FrameKeys(frame) && f.keyNext == d.keyNext
  {
    GatheredKeepsOk(d, frame);
    GatheredKeeps(d, frame);
    GatheringLosesNothing(d, frame);
  }

  /**
   Of a frame exactly the effective presses and releases are reported, in order, after those still unread,
   and then the pointer; the first of them is what the reading of the report returns.
   */
  lemma ReadFrameIsReported(d: Device, frame: seq<Read>, remainder: int)
    requires Ok(d) && d.open && Quiet(d) && !d.syncing
    ensures var f, unread := Framed(d, frame, remainder), d.keys[d.keyNext..] + FrameKeys(frame);
      && Framing(f) && AllReports(f).0.pressed == Replay(d.kind, d.pressed, unread)
      && AllReports(f).1 == KeyReports(d.id, d.kind, d.pressed, unread) + PointerReports(f)
      && NextReport(f).1 == (if AllReports(f).1 == [] then None else Some(AllReports(f).1[0]))
  {
    FramedIsFraming(d, frame, remainder);
    var f := Framed(d, frame, remainder);
    assert f.keys[f.keyNext..] == d.keys[d.keyNext..] + FrameKeys(frame);
    FrameIsReported(f);
    NextReportKeeps(f);
  }

  /** A pointer's frame: its travel is reported when there is any, and its wheel in whole clicks. */
  lemma ReadTravelIsReported(d: Device, frame: seq<Read>, remainder: int)
    requires Ok(d) && d.open && Quiet(d) && !d.syncing && d.kind.hasPointer && -CLICK < remainder < CLICK
    ensures var (f, rest) := Finished(Gathered(d, frame), remainder);
      var x, y := d.dx + Travel(frame, REL_X), d.dy + Travel(frame, REL_Y);
      var fine := d.highResolution || Turns(frame);
      var turned := if fine then d.wheelV120 + Travel(frame, REL_WHEEL_HI_RES)
                    else (d.wheelLegacy + Travel(frame, REL_WHEEL)) * CLICK;
      && f.dx == x && f.dy == y && (f.motionPending <==> x != 0 || y != 0) && -CLICK < rest < CLICK
      && (-INT_MAX < f.wheelPending < INT_MAX ==> f.wheelPending * CLICK + rest == remainder + turned)
  {
    GatheringLosesNothing(d, frame);
    GatheredIsFine(d, frame);
    GatheredKeeps(d, frame);
    WheelTravelIsKept(Gathered(d, frame).(frameReady := true), remainder);
  }

  /** The wheel reports its high resolution. */
  predicate Turns(frame: seq<Read>) {
    exists n :: 0 <= n < |frame| && frame[n].Relative? && frame[n].code == REL_WHEEL_HI_RES
  }

  lemma {:induction false} GatheredIsFine(d: Device, frame: seq<Read>)
    requires !d.syncing && d.kind.hasPointer
    ensures Gathered(d, frame).highResolution == (d.highResolution || Turns(frame))
    decreases |frame|
  {
    if frame != [] {
      var before, last := frame[..|frame| - 1], |frame| - 1;
      GatheredIsFine(d, before);
      GatheredKeeps(d, before);
      if Turns(frame) && !(frame[last].Relative? && frame[last].code == REL_WHEEL_HI_RES) {
        var n :| 0 <= n < |frame| && frame[n].Relative? && frame[n].code == REL_WHEEL_HI_RES;
        assert before[n] == frame[n];
      }
      assert forall n :: 0 <= n < last ==> before[n] == frame[n];
    }
  }

  // ---- What the reports amount to

  /** A press or release of a code that is reported. */
  predicate Concerns(kind: Kind, raw: Raw, code: nat) {
    raw.code == code && (raw.value == 0 || raw.value == 1) && Eligible(kind, code)
  }

  /** The last press or release of a code decides whether it is reported as pressed. */
  lemma {:induction false} LastEventDecides(kind: Kind, pressed: set<nat>, raws: seq<Raw>, code: nat, n: nat)
    requires n < |raws| && Concerns(kind, raws[n], code)
    requires forall m :: n < m < |raws| ==> !Concerns(kind, raws[m], code)
    ensures code in Replay(kind, pressed, raws) <==> raws[n].value == 1
    decreases |raws|
  {
    if n > 0 {
      LastEventDecides(kind, Taken(kind, pressed, raws[0]), raws[1..], code, n - 1);
    } else {
      UnconcernedStays(kind, Taken(kind, pressed, raws[0]), raws[1..], code);
    }
  }

  lemma {:induction false} UnconcernedStays(kind: Kind, pressed: set<nat>, raws: seq<Raw>, code: nat)
    requires forall m :: 0 <= m < |raws| ==> !Concerns(kind, raws[m], code)
    ensures code in Replay(kind, pressed, raws) <==> code in pressed
    decreases |raws|
  {
    if raws != [] {
      assert !Concerns(kind, raws[0], code);
      UnconcernedStays(kind, Taken(kind, pressed, raws[0]), raws[1..], code);
    }
  }
}
