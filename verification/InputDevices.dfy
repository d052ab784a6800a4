/** One slot of the input session: its queues, its reported keys and what libevdev holds for it. */
module InputDevices {
  import opened Arithmetic
  import opened Basics
  import opened InputTrace

  datatype Source = Keypad | Keyboard | Pointer

  /** What a device may report. */
  datatype Kind = Kind(source: Source, hasPointer: bool)

  /** A raw key event of a frame. */
  datatype Raw = Raw(code: nat, value: int)

  /**
   A slot; `used` says it has a path and `open` a descriptor. `held` is libevdev's key state. `synced`
   is history: a resynchronisation has finished and no event was lost since.
   */
  datatype Device = Device(
    used: bool, path: string, open: bool, kind: Kind, id: nat,
    pressed: set<nat>, added: bool, removing: bool, syncing: bool, syncPending: bool, syncCode: nat,
    keys: seq<Raw>, keyNext: nat, frameReady: bool,
    motionPending: bool, dx: int, dy: int,
    wheelV120: int, wheelLegacy: int, highResolution: bool, wheelPending: int,
    held: set<nat>, synced: bool)

  const FORGOTTEN := Device(false, "", false, Kind(Keypad, false), 0, {}, false, false, false, false, 0,
                            [], 0, false, false, 0, 0, 0, 0, false, 0, {}, false)

  const BTN_LEFT: nat := 0x110
  const BTN_TASK: nat := 0x117

  predicate PointerButton(code: nat) {
    BTN_LEFT <= code <= BTN_TASK
  }

  /** Codes a device of this kind reports. */
  predicate Eligible(kind: Kind, code: nat) {
    code < KEY_COUNT && (if PointerButton(code) then kind.hasPointer else kind.source != Pointer)
  }

  /** A raw event that changes what was reported. */
  predicate Reports(kind: Kind, pressed: set<nat>, raw: Raw) {
    (raw.value == 0 || raw.value == 1) && Eligible(kind, raw.code) && (raw.code in pressed) != (raw.value == 1)
  }

  function Pressing(pressed: set<nat>, code: nat, down: bool): set<nat> {
    if down then pressed + {code} else pressed - {code}
  }

  function Taken(kind: Kind, pressed: set<nat>, raw: Raw): set<nat> {
    if Reports(kind, pressed, raw) then Pressing(pressed, raw.code, raw.value == 1) else pressed
  }

  /** What will have been reported once these raw events are translated. */
  function Replay(kind: Kind, pressed: set<nat>, raws: seq<Raw>): set<nat>
    decreases |raws|
  {
    if raws == [] then pressed else Replay(kind, Taken(kind, pressed, raws[0]), raws[1..])
  }

  /** Reported and actual keys agree on every eligible code below `n`. */
  ghost predicate AgreeBelow(kind: Kind, pressed: set<nat>, held: set<nat>, n: nat) {
    forall c: nat :: c < n && Eligible(kind, c) ==> (c in pressed <==> c in held)
  }

  ghost predicate Ok(d: Device) {
    && d.keyNext <= |d.keys| && d.syncCode <= KEY_COUNT
    && (forall c :: c in d.pressed ==> c < KEY_COUNT)
    && (d.added ==> d.pressed == {})
    && (d.open ==> d.used && !d.removing) && (d.used && !d.open ==> d.removing)
    && (d.open && d.syncing ==> d.keys[d.keyNext..] == [])
    && (d.open && d.syncPending ==>
          !d.syncing && d.keys[d.keyNext..] == [] && AgreeBelow(d.kind, d.pressed, d.held, d.syncCode))
    && (d.open && d.synced ==>
          && !d.syncing && !d.syncPending
          && AgreeBelow(d.kind, Replay(d.kind, d.pressed, d.keys[d.keyNext..]), d.held, KEY_COUNT))
  }

  /** Nothing is waiting to be reported. */
  predicate Quiet(d: Device) {
    d.used ==>
      !d.added && !d.removing && !d.frameReady && !d.syncPending && !d.motionPending && d.wheelPending == 0
  }

  lemma {:induction false} ReplayMore(kind: Kind, pressed: set<nat>, raws: seq<Raw>, raw: Raw)
    ensures Replay(kind, pressed, raws + [raw]) == Taken(kind, Replay(kind, pressed, raws), raw)
    decreases |raws|
  {
    if raws == [] {
      assert raws + [raw] == [raw] && [raw][1..] == [];
    } else {
      assert (raws + [raw])[1..] == raws[1..] + [raw];
      ReplayMore(kind, Taken(kind, pressed, raws[0]), raws[1..], raw);
    }
  }

  // ---- What reading does to a slot

  /** What one read of the device gives. */
  datatype Read =
    | Interrupted
    | Nothing
    | Failure
    | Lost(held: set<nat>)
    | KeyEvent(raw: Raw)
    | Report
    | Relative(code: nat, value: int)
    | Other

  const REL_X: nat := 0
  const REL_Y: nat := 1
  const REL_WHEEL: nat := 8
  const REL_WHEEL_HI_RES: nat := 11

  /** libevdev updates its state with every key event it hands out; a repeat changes nothing. */
  function Held(held: set<nat>, raw: Raw): set<nat> {
    if raw.value == 0 || raw.value == 1 then Pressing(held, raw.code, raw.value == 1) else held
  }

  /** What a key event adds to the queue: repeats are not kept. */
  function Queued(raw: Raw): seq<Raw> {
    if raw.value == 0 || raw.value == 1 then [raw] else []
  }

  function ReadKey(d: Device, raw: Raw): Device {
    d.(keys := d.keys + Queued(raw), held := Held(d.held, raw))
  }

  function Moved(d: Device, code: nat, value: int): Device {
    d.(dx := d.dx + if code == REL_X then value else 0,
       dy := d.dy + if code == REL_Y then value else 0,
       wheelLegacy := d.wheelLegacy + if code == REL_WHEEL then value else 0,
       wheelV120 := d.wheelV120 + if code == REL_WHEEL_HI_RES then value else 0,
       highResolution := d.highResolution || code == REL_WHEEL_HI_RES)
  }

  /** Events were lost: the incomplete frame goes, and libevdev delivers its own differences. */
  function LoseEvents(d: Device, held: set<nat>): Device {
    d.(keys := [], keyNext := 0, dx := 0, dy := 0, wheelV120 := 0, wheelLegacy := 0, highResolution := false,
       syncing := true, held := held, synced := false)
  }

  function EndSync(d: Device): Device {
    d.(syncing := false, syncPending := true, syncCode := 0)
  }

  lemma ReadKeyKeepsOk(d: Device, raw: Raw)
    requires Ok(d) && !d.syncing && !d.syncPending
    ensures Ok(ReadKey(d, raw))
  {
    var now := ReadKey(d, raw);
    var rest := d.keys[d.keyNext..];
    assert now.keys[now.keyNext..] == rest + Queued(raw);
    if Queued(raw) == [raw] {
      ReplayMore(d.kind, d.pressed, rest, raw);
    } else {
      assert now.keys == d.keys;
    }
  }

  // ---- The next thing a slot has to report

  /** translate_key: the keys reported after a raw event, and the event if it changes them. */
  function Translate(d: Device, raw: Raw): (Device, Option<Event>) {
    if Reports(d.kind, d.pressed, raw) then
      (d.(pressed := Pressing(d.pressed, raw.code, raw.value == 1)), Some(Key(d.id, raw.code, raw.value == 1)))
    else (d, None)
  }

  /** The frame's key events up to the first that is reported; without one the frame is done. */
  function FrameReport(d: Device): (Device, Option<Event>)
    decreases |d.keys| - d.keyNext
  {
    if d.keyNext >= |d.keys| then (d.(keys := [], keyNext := 0, frameReady := false), None)
    else
      var result := Translate(d.(keyNext := d.keyNext + 1), d.keys[d.keyNext]);
      if result.1.Some? then result else FrameReport(d.(keyNext := d.keyNext + 1))
  }

  /** libevdev's state compared code by code, up to the first difference; without one it is done. */
  function ScanReport(d: Device): (Device, Option<Event>)
    decreases KEY_COUNT - d.syncCode
  {
    if d.syncCode >= KEY_COUNT then (d.(syncPending := false, synced := true), None)
    else
      var raw := Raw(d.syncCode, if d.syncCode in d.held then 1 else 0);
      var result := Translate(d.(syncCode := d.syncCode + 1), raw);
      if result.1.Some? then result else ScanReport(d.(syncCode := d.syncCode + 1))
  }

  /** Motion comes before the wheel. */
  function PointerReport(d: Device): (Device, Option<Event>) {
    if d.motionPending then (d.(dx := 0, dy := 0, motionPending := false), Some(Motion(d.id, d.dx, d.dy)))
    else if d.wheelPending != 0 then (d.(wheelPending := 0), Some(Wheel(d.id, d.wheelPending)))
    else (d, None)
  }

  /** What an open slot reports next; None with nothing left to report. */
  function NextReport(d: Device): (Device, Option<Event>) {
    if d.added then (d.(added := false), Some(Added(d.id)))
    else
      var framed := if d.frameReady then FrameReport(d) else (d, None);
      if framed.1.Some? then framed
      else
        var scanned := if framed.0.syncPending then ScanReport(framed.0) else framed;
        if scanned.1.Some? then scanned else PointerReport(scanned.0)
  }

  /** What an event must be, given the slot before and after it. */
  ghost predicate Follows(d: Device, now: Device, e: Event) {
    && d.used && e.id == d.id && (d.open ==> now.used)
    && (now.used ==> now.id == d.id && !now.added && now.open == d.open && now.path == d.path)
    && Step(if d.added then Absent else Live(d.pressed), e) == (if now.used then Live(now.pressed) else Gone)
  }

  lemma TakingKeepsOk(d: Device)
    requires Ok(d) && d.used && !d.added && d.keyNext < |d.keys|
    ensures var r := Translate(d.(keyNext := d.keyNext + 1), d.keys[d.keyNext]);
            Ok(r.0) && (r.1.Some? ==> Follows(d, r.0, r.1.value))
  {
    var rest := d.keys[d.keyNext..];
    assert rest[0] == d.keys[d.keyNext] && rest[1..] == d.keys[d.keyNext + 1..];
  }

  /** The frame's key events up to the first that is reported; without one the frame is done. */
  method DrainFrame(start: Device) returns (d: Device, event: Option<Event>)
    requires Ok(start) && start.used && !start.added && start.frameReady
    ensures Ok(d)
    ensures event.Some? ==> Follows(start, d, event.value)
    ensures event.None? ==> d == start.(keys := [], keyNext := 0, frameReady := false)
    ensures (d, event) == FrameReport(start)
  {
    d := start;
    while d.keyNext < |d.keys|
      invariant Ok(d) && d == start.(keyNext := d.keyNext) && FrameReport(d) == FrameReport(start)
      decreases |d.keys| - d.keyNext
    {
      TakingKeepsOk(d);
      var result := Translate(d.(keyNext := d.keyNext + 1), d.keys[d.keyNext]);
      if result.1.Some? {
        return result.0, result.1;
      }
      d := result.0;
    }
    assert d.keys[d.keyNext..] == [];
    d := d.(keys := [], keyNext := 0, frameReady := false);
    event := None;
  }

  lemma ScanningKeepsOk(d: Device)
    requires Ok(d) && d.open && !d.added && d.syncPending && d.syncCode < KEY_COUNT
    ensures var raw := Raw(d.syncCode, if d.syncCode in d.held then 1 else 0);
            var r := Translate(d.(syncCode := d.syncCode + 1), raw);
            Ok(r.0) && (r.1.Some? ==> Follows(d, r.0, r.1.value))
  {
  }

  /** libevdev's state compared code by code, up to the first difference; without one it is done. */
  method Scan(start: Device) returns (d: Device, event: Option<Event>)
    requires Ok(start) && start.open && !start.added && start.syncPending
    ensures Ok(d)
    ensures event.Some? ==> Follows(start, d, event.value)
    ensures event.None? ==>
              && d == start.(syncCode := KEY_COUNT, syncPending := false, synced := true)
              && AgreeBelow(d.kind, d.pressed, d.held, KEY_COUNT)
    ensures (d, event) == ScanReport(start)
  {
    d := start;
    while d.syncCode < KEY_COUNT
      invariant Ok(d) && d == start.(syncCode := d.syncCode) && ScanReport(d) == ScanReport(start)
      decreases KEY_COUNT - d.syncCode
    {
      ScanningKeepsOk(d);
      var raw := Raw(d.syncCode, if d.syncCode in d.held then 1 else 0);
      var result := Translate(d.(syncCode := d.syncCode + 1), raw);
      if result.1.Some? {
        return result.0, result.1;
      }
      d := result.0;
    }
    d := d.(syncPending := false, synced := true);
    event := None;
  }

  /** A slot's part of next_pending: its next event, or None with nothing left to report. */
  method NextOf(start: Device) returns (d: Device, event: Option<Event>)
    requires Ok(start) && start.used
    ensures Ok(d)
    ensures event.Some? ==> Follows(start, d, event.value)
    ensures event.None? ==>
              && Quiet(d) && d.used && d.id == start.id && d.pressed == start.pressed && d.open == start.open
              && d.path == start.path && !start.added
    ensures event.None? && start.syncPending ==> d.synced && AgreeBelow(d.kind, d.pressed, d.held, KEY_COUNT)
    ensures start.open ==> (d, event) == NextReport(start)
  {
    d := start;
    if d.added {
      event := Some(Added(d.id));
      d := d.(added := false);
      return;
    }
    if d.removing {
      d, event := TakeDown(d);
      return;
    }
    if d.frameReady {
      d, event := DrainFrame(d);
      if event.Some? {
        return;
      }
    }
    if d.syncPending {
      d, event := Scan(d);
      if event.Some? {
        return;
      }
    }
    if d.motionPending {
      event := Some(Motion(d.id, d.dx, d.dy));
      d := d.(dx := 0, dy := 0, motionPending := false);
      return;
    }
    if d.wheelPending != 0 {
      event := Some(Wheel(d.id, d.wheelPending));
      d := d.(wheelPending := 0);
      return;
    }
    event := None;
  }

  /** A device that goes: its lowest pressed key is released, and without one it is gone. */
  method TakeDown(start: Device) returns (d: Device, event: Option<Event>)
    requires Ok(start) && start.used && !start.added && start.removing
    ensures Ok(d) && event.Some? && Follows(start, d, event.value)
  {
    d := start;
    for code := 0 to KEY_COUNT
      invariant forall c :: c in d.pressed ==> c >= code
    {
      if code in d.pressed {
        d := d.(pressed := d.pressed - {code});
        event := Some(Key(d.id, code, false));
        return;
      }
    }
    assert d.pressed == {};
    event := Some(Removed(d.id));
    d := FORGOTTEN;
  }

  // ---- Reporting until nothing is left

  /** How much an open slot may still report. */
  function Work(d: Device): nat {
    (if d.added then 1 else 0)
    + (if d.frameReady then 1 + if d.keyNext < |d.keys| then |d.keys| - d.keyNext else 0 else 0)
    + (if d.syncPending then 1 + if d.syncCode < KEY_COUNT then KEY_COUNT - d.syncCode else 0 else 0)
    + (if d.motionPending then 1 else 0) + (if d.wheelPending != 0 then 1 else 0)
  }

  /** Reporting changes what is reported, never what the device is or holds. */
  predicate SameDevice(d: Device, now: Device) {
    now.open == d.open && now.used == d.used && now.removing == d.removing && now.syncing == d.syncing
    && now.kind == d.kind && now.held == d.held && now.id == d.id
  }

  lemma {:induction false} FrameReportKeeps(d: Device)
    requires Ok(d) && d.open && !d.added && d.frameReady
    ensures var r := FrameReport(d);
      && Ok(r.0) && SameDevice(d, r.0) && !r.0.added && Work(r.0) < Work(d)
      && r.0.syncPending == d.syncPending && r.0.synced == d.synced
      && (r.1.Some? ==> Follows(d, r.0, r.1.value))
      && (r.1.None? ==> r.0.pressed == d.pressed && !r.0.frameReady && r.0.path == d.path)
      && (d.keys[d.keyNext..] == [] ==> r.0.keys[r.0.keyNext..] == [])
    decreases |d.keys| - d.keyNext
  {
    if d.keyNext < |d.keys| {
      TakingKeepsOk(d);
      if !Reports(d.kind, d.pressed, d.keys[d.keyNext]) { FrameReportKeeps(d.(keyNext := d.keyNext + 1)); }
    }
  }

  lemma {:induction false} ScanReportKeeps(d: Device)
    requires Ok(d) && d.open && !d.added && d.syncPending
    ensures var r := ScanReport(d);
      && Ok(r.0) && SameDevice(d, r.0) && !r.0.added && Work(r.0) < Work(d)
      && r.0.keys == d.keys && r.0.keyNext == d.keyNext && r.0.frameReady == d.frameReady
      && (r.1.Some? ==> r.0.syncPending && Follows(d, r.0, r.1.value))
      && (r.1.None? ==> r.0.synced && r.0.pressed == d.pressed && !r.0.syncPending && r.0.path == d.path)
    decreases KEY_COUNT - d.syncCode
  {
    if d.syncCode < KEY_COUNT {
      ScanningKeepsOk(d);
      var raw := Raw(d.syncCode, if d.syncCode in d.held then 1 else 0);
      if !Reports(d.kind, d.pressed, raw) { ScanReportKeeps(d.(syncCode := d.syncCode + 1)); }
    }
  }

  /** A slot on its way from a synchronisation to having reported the device's state. */
  ghost predicate Resyncing(d: Device) {
    Ok(d) && d.open && d.keys[d.keyNext..] == [] && (d.syncPending || d.synced)
  }

  /** An open slot, whatever it still has to report. */
  ghost predicate Working(d: Device) {
    Ok(d) && d.open
  }

  lemma PointerReportKeeps(d: Device)
    requires Working(d) && !d.added
    ensures var r := PointerReport(d);
      && Working(r.0) && (Resyncing(d) ==> Resyncing(r.0)) && SameDevice(d, r.0) && !r.0.added && r.0.pressed == d.pressed
      && r.0.frameReady == d.frameReady && r.0.syncPending == d.syncPending
      && (r.1.Some? ==> Work(r.0) < Work(d) && Follows(d, r.0, r.1.value))
      && (r.1.None? ==> r.0 == d && !d.motionPending && d.wheelPending == 0)
  {
  }

  lemma FrameOrNothing(d: Device)
    requires Working(d) && !d.added
    ensures var r := if d.frameReady then FrameReport(d) else (d, None);
      && Working(r.0) && (Resyncing(d) ==> Resyncing(r.0)) && SameDevice(d, r.0) && !r.0.added && Work(r.0) <= Work(d)
      && (r.1.Some? ==> Work(r.0) < Work(d) && Follows(d, r.0, r.1.value))
      && (r.1.None? ==> r.0.pressed == d.pressed && !r.0.frameReady && r.0.path == d.path)
  {
    if d.frameReady { FrameReportKeeps(d); }
  }

  lemma ScanOrNothing(d: Device)
    requires Working(d) && !d.added
    ensures var r := if d.syncPending then ScanReport(d) else (d, None);
      && Working(r.0) && (Resyncing(d) ==> Resyncing(r.0)) && SameDevice(d, r.0) && !r.0.added && Work(r.0) <= Work(d)
      && r.0.frameReady == d.frameReady
      && (r.1.Some? ==> Work(r.0) < Work(d) && Follows(d, r.0, r.1.value))
      && (r.1.None? ==> r.0.pressed == d.pressed && !r.0.syncPending && r.0.path == d.path)
  {
    if d.syncPending { ScanReportKeeps(d); }
  }

  /** An event after steps that reported nothing is an event after what was before them. */
  lemma FollowsEarlier(d: Device, between: Device, now: Device, e: Event)
    requires Follows(between, now, e) && SameDevice(d, between) && !d.added && !between.added
    requires between.pressed == d.pressed && between.path == d.path
    ensures Follows(d, now, e)
  {
  }

  lemma NextReportKeeps(d: Device)
    requires Working(d)
    ensures var r := NextReport(d);
      && Working(r.0) && (Resyncing(d) ==> Resyncing(r.0)) && SameDevice(d, r.0)
      && (r.1.Some? ==> Work(r.0) < Work(d) && Follows(d, r.0, r.1.value))
      && (r.1.None? ==> r.0.pressed == d.pressed && !d.added && Quiet(r.0))
  {
    if !d.added {
      FrameOrNothing(d);
      var framed := if d.frameReady then FrameReport(d) else (d, None);
      if framed.1.None? {
        ScanOrNothing(framed.0);
        var scanned := if framed.0.syncPending then ScanReport(framed.0) else (framed.0, None);
        if scanned.1.Some? {
          FollowsEarlier(d, framed.0, scanned.0, scanned.1.value);
        } else {
          PointerReportKeeps(scanned.0);
          var last := PointerReport(scanned.0);
          if last.1.Some? { FollowsEarlier(d, scanned.0, last.0, last.1.value); }
        }
      }
    }
  }

  /** Every report up to the last, and the slot after it. */
  function AllReports(d: Device): (Device, seq<Event>)
    requires Working(d)
    decreases Work(d)
  {
    NextReportKeeps(d);
    var r := NextReport(d);
    match r.1
    case None => (r.0, [])
    case Some(event) =>
      var rest := AllReports(r.0);
      (rest.0, [event] + rest.1)
  }

  /** After its last report the slot has reported exactly what the device holds. */
  lemma {:induction false} AllReportsReachTheDevice(d: Device)
    requires Resyncing(d)
    ensures var all := AllReports(d);
      && Ok(all.0) && SameDevice(d, all.0) && all.0.synced && Quiet(all.0) && all.0.keys[all.0.keyNext..] == []
      && AgreeBelow(d.kind, all.0.pressed, d.held, KEY_COUNT)
      && LifeAfter(LifeOfSlot(d), all.1) == Live(all.0.pressed)
    decreases Work(d)
  {
    NextReportKeeps(d);
    var r := NextReport(d);
    if r.1.Some? {
      AllReportsReachTheDevice(r.0);
      var all := AllReports(d);
      assert all.1[0] == r.1.value && all.1[1..] == AllReports(r.0).1;
    }
  }

  function LifeOfSlot(d: Device): Life {
    if d.added then Absent else Live(d.pressed)
  }

  /** An id's life after some events of its own. */
  function LifeAfter(life: Life, events: seq<Event>): Life
    decreases |events|
  {
    if events == [] then life else LifeAfter(Step(life, events[0]), events[1..])
  }

  // ---- The wheel

  const CLICK: int := 120
  const INT_MAX: int := 0x7FFF_FFFF

  function Remainder(a: int, b: int): int
    requires b > 0
  {
    a - Quotient(a, b) * b
  }

  /** Ends a frame of a pointer. */
  function FinishFrame(d: Device, remainder: int): (Device, int) {
    var total := remainder + (if d.highResolution then d.wheelV120 else d.wheelLegacy * CLICK);
    var clicks := Quotient(total, CLICK);
    var limited := if clicks > INT_MAX then INT_MAX else if clicks < -INT_MAX - 1 then -INT_MAX - 1 else clicks;
    (d.(motionPending := d.dx != 0 || d.dy != 0, wheelPending := limited,
        wheelV120 := 0, wheelLegacy := 0, highResolution := false),
     Remainder(total, CLICK))
  }

  /** No wheel travel is lost: clicks and remainder make up what came in, unless the clicks overflow. */
  lemma WheelTravelIsKept(d: Device, remainder: int)
    requires -CLICK < remainder < CLICK
    ensures var (now, rest) := FinishFrame(d, remainder);
            && -CLICK < rest < CLICK
            && (-INT_MAX < now.wheelPending < INT_MAX ==>
                  now.wheelPending * CLICK + rest
                  == remainder + (if d.highResolution then d.wheelV120 else d.wheelLegacy * CLICK))
            && (rest != 0 && now.wheelPending != 0 ==> (rest > 0) == (now.wheelPending > 0))
  {
  }
}
