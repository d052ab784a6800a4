/** The input session: thirty-two slots drained in order, devices that come and go, and the reading. */
module InputSession {
  import opened Basics
  import opened InputTrace
  import opened InputDevices
  import opened InputFrames

  const DEVICES: nat := 32
  const PATH_BYTES: nat := 32

  /** Slots, the trace so far and the last id given out fit together. */
  ghost predicate Tracked(devices: seq<Device>, trace: seq<Event>, last: nat) {
    && (forall i :: 0 <= i < |devices| ==> Ok(devices[i]))
    && (forall i :: 0 <= i < |devices| && devices[i].used ==>
          && 0 < devices[i].id <= last
          && LifeOf(trace, devices[i].id) == (if devices[i].added then Absent else Live(devices[i].pressed)))
    && (forall i, j :: 0 <= i < j < |devices| && devices[i].used && devices[j].used ==> devices[i].id != devices[j].id)
    && WellFormed(trace)
    && (forall id :: id > last ==> LifeOf(trace, id) == Absent)
  }

  /** An event of one slot moves that slot and its id's life, and no other. */
  lemma EventKeepsTracked(devices: seq<Device>, trace: seq<Event>, last: nat, i: nat, now: Device, e: Event)
    requires Tracked(devices, trace, last) && i < |devices| && Follows(devices[i], now, e) && Ok(now)
    ensures Tracked(devices[i := now], trace + [e], last)
  {
    forall id: nat ensures LifeOf(trace + [e], id) == if e.id == id then Step(LifeOf(trace, id), e) else LifeOf(trace, id) {
      LifeOfMore(trace, e, id);
    }
  }

  /** A slot that changes without reporting. */
  lemma QuietKeepsTracked(devices: seq<Device>, trace: seq<Event>, last: nat, i: nat, now: Device)
    requires Tracked(devices, trace, last) && i < |devices| && Ok(now)
    requires now.used == devices[i].used && now.id == devices[i].id && now.pressed == devices[i].pressed
    requires now.added == devices[i].added
    ensures Tracked(devices[i := now], trace, last)
  {
  }

  lemma AddKeepsTracked(devices: seq<Device>, trace: seq<Event>, last: nat, i: nat, now: Device)
    requires Tracked(devices, trace, last) && i < |devices| && !devices[i].used && Ok(now)
    requires now.used && now.added && now.id == last + 1
    ensures Tracked(devices[i := now], trace, last + 1)
  {
  }

  /** A slot that has reported everything; a resynchronisation that was under way is complete. */
  ghost predicate Drained(d: Device, now: Device) {
    && Quiet(now) && now.open == d.open
    && (d.used && d.syncPending ==> now.synced && AgreeBelow(now.kind, now.pressed, now.held, KEY_COUNT))
  }

  /** Every other slot has reported everything. */
  predicate OnlyOne(devices: seq<Device>, i: nat)
    requires i < |devices|
  {
    devices[i].open && forall k :: 0 <= k < |devices| && k != i ==> Quiet(devices[k])
  }

  /** What the draining makes of a slot without an event to report. */
  ghost predicate Passed(d: Device, now: Device) {
    (Quiet(d) ==> now == d) && (d.open ==> NextReport(d) == (now, None))
  }

  lemma QuietIsPassed(d: Device)
    requires Ok(d) && d.used && Quiet(d)
    ensures d.open && NextReport(d) == (d, None)
  {
  }

  /** With a single slot that has something to report, the event is that slot's, and the others stay. */
  ghost predicate Lone(was: seq<Device>, now: seq<Device>, event: Option<Event>)
    requires |was| == |now|
  {
    forall i :: 0 <= i < |was| && OnlyOne(was, i) ==>
      (now[i], event) == NextReport(was[i]) && forall k :: 0 <= k < |was| && k != i ==> now[k] == was[k]
  }

  /** The draining has come as far as slot `n` without an event. */
  ghost predicate DrainedBelow(was: seq<Device>, now: seq<Device>, n: nat) {
    n <= |was| == |now| && forall k :: 0 <= k < n ==> Drained(was[k], now[k]) && Passed(was[k], now[k])
  }

  lemma UnusedIsDrained(was: seq<Device>, now: seq<Device>, n: nat)
    requires DrainedBelow(was, now, n) && n < |was| && now[n] == was[n] && Ok(was[n]) && !was[n].used
    ensures DrainedBelow(was, now, n + 1)
  {
  }

  lemma AllPassedIsLone(was: seq<Device>, now: seq<Device>)
    requires DrainedBelow(was, now, |was|)
    ensures Lone(was, now, None)
  {
  }

  lemma ReportIsLone(was: seq<Device>, now: seq<Device>, i: nat, e: Event)
    requires |was| == |now| && i < |was| && DrainedBelow(was, now, i)
    requires (forall k :: i < k < |was| ==> now[k] == was[k]) && !Quiet(was[i])
    requires was[i].open ==> (now[i], Some(e)) == NextReport(was[i])
    ensures Lone(was, now, Some(e))
  {
  }

  /** What a scan finds of one device, and whether it can be opened. */
  datatype Found = Found(path: string, kind: Kind, opens: bool, held: set<nat>)

  class InputSession {
    const devices: array<Device>
    var lastId: nat
    var suspended: bool
    /** The slot being read, or none. */
    var active: Option<nat>
    var wheelRemainder: int
    /** Every event handed out. */
    ghost var trace: seq<Event>

    ghost predicate Valid()
      reads this, devices
    {
      && Consistent() && (suspended ==> forall i :: 0 <= i < DEVICES ==> !devices[i].open)
    }

    ghost predicate Consistent()
      reads this, devices
    {
      && devices.Length == DEVICES && Tracked(devices[..], trace, lastId)
      && (active.Some? ==> active.value < DEVICES && devices[active.value].open)
      && -CLICK < wheelRemainder < CLICK
    }

    constructor ()
      ensures Valid() && trace == [] && !suspended && fresh(devices)
    {
      devices := new Device[DEVICES](_ => FORGOTTEN);
      lastId := 0;
      suspended := false;
      active := None;
      wheelRemainder := 0;
      trace := [];
    }

    /** One used slot's next event; without one the slot has nothing left to report. */
    method DrainSlot(i: nat) returns (event: Option<Event>)
      requires devices.Length == DEVICES && Tracked(devices[..], trace, lastId) && i < DEVICES && devices[i].used
      modifies this`trace, devices
      ensures Tracked(devices[..], trace, lastId)
      ensures trace == old(trace) + (if event.Some? then [event.value] else [])
      ensures forall k :: 0 <= k < DEVICES && k != i ==> devices[k] == old(devices[k])
      ensures devices[i].open == old(devices[i]).open
      ensures event.None? ==> Drained(old(devices[i]), devices[i]) && Passed(old(devices[i]), devices[i])
      ensures old(devices[i]).open ==> (devices[i], event) == NextReport(old(devices[i]))
      ensures Quiet(old(devices[i])) ==> event.None?
    {
      ghost var was := devices[..];
      assert was[i] == devices[i];
      if Quiet(devices[i]) { QuietIsPassed(devices[i]); }
      var d, found := NextOf(devices[i]);
      devices[i] := d;
      assert devices[..] == was[i := d];
      if found.Some? {
        EventKeepsTracked(was, trace, lastId, i, d, found.value);
        trace := trace + [found.value];
      } else {
        QuietKeepsTracked(was, trace, lastId, i, d);
        assert trace + [] == trace;
      }
      event := found;
    }

    /** The slots are drained in order, up to the first that reports. */
    method DrainSlots() returns (event: Option<Event>, n: nat)
      requires devices.Length == DEVICES && Tracked(devices[..], trace, lastId)
      modifies this`trace, devices
      ensures Tracked(devices[..], trace, lastId)
      ensures trace == old(trace) + (if event.Some? then [event.value] else [])
      ensures n <= DEVICES && (n < DEVICES <==> event.Some?) && DrainedBelow(old(devices[..]), devices[..], n)
      ensures forall k :: n < k < DEVICES ==> devices[k] == old(devices[k])
      ensures event.Some? ==>
                var d := old(devices[..])[n];
                !Quiet(d) && devices[n].open == d.open && (d.open ==> (devices[n], event) == NextReport(d))
    {
      ghost var was := devices[..];
      for i := 0 to DEVICES
        invariant Tracked(devices[..], trace, lastId) && trace == old(trace)
        invariant forall k :: i <= k < DEVICES ==> devices[k] == was[k]
        invariant DrainedBelow(was, devices[..], i)
      {
        if !devices[i].used {
          UnusedIsDrained(was, devices[..], i);
          continue;
        }
        assert devices[..][i] == was[i];
        event := DrainSlot(i);
        if event.Some? {
          return event, i;
        }
        assert trace + [] == trace;
      }
      assert trace + [] == trace;
      return None, DEVICES;
    }

    /** The first event that any slot still has to report; None when no slot has one. */
    method NextPending() returns (event: Option<Event>)
      requires Valid()
      modifies this`trace, devices
      ensures Valid()
      ensures trace == old(trace) + (if event.Some? then [event.value] else [])
      ensures forall i :: 0 <= i < DEVICES ==> devices[i].open == old(devices[i]).open
      ensures event.None? ==> forall i :: 0 <= i < DEVICES ==> Drained(old(devices[i]), devices[i])
      ensures Lone(old(devices[..]), devices[..], event)
    {
      ghost var was := devices[..];
      var n;
      event, n := DrainSlots();
      if event.Some? {
        ReportIsLone(was, devices[..], n, event.value);
      } else {
        AllPassedIsLone(was, devices[..]);
      }
    }

    /** The device is closed; what it has to report follows from NextPending. */
    method RemoveDevice(i: nat)
      requires Consistent() && i < DEVICES && devices[i].open
      modifies this`active, devices
      ensures Consistent() && !devices[i].open && devices[i].removing && trace == old(trace)
      ensures forall k :: 0 <= k < DEVICES && k != i ==> devices[k] == old(devices[k])
    {
      ghost var was := devices[..];
      assert was[i] == devices[i];
      var d := devices[i].(open := false, keys := [], keyNext := 0, frameReady := false,
                           removing := true, dx := 0, dy := 0, motionPending := false, wheelPending := 0);
      devices[i] := d;
      assert devices[..] == was[i := d];
      QuietKeepsTracked(was, trace, lastId, i, d);
      if active == Some(i) {
        active := None;
      }
    }

    /** Takes a device into a free slot; `held` is what libevdev found pressed, which is not reported. */
    method AddDevice(path: string, kind: Kind, opens: bool, held: set<nat>)
      requires Valid()
      modifies this`lastId, devices
      ensures Valid() && trace == old(trace)
      ensures lastId == old(lastId) ==> devices[..] == old(devices[..])
      ensures lastId != old(lastId) ==>
                && lastId == old(lastId) + 1 && !suspended && opens
                && exists i :: 0 <= i < DEVICES && !old(devices[i]).used
                     && devices[..] == old(devices[..])[i := devices[i]]
                     && devices[i].open && devices[i].added && devices[i].id == lastId && devices[i].path == path
    {
      if path == "" || suspended {
        return;
      }
      var slot: nat := DEVICES;
      for i := 0 to DEVICES
        invariant slot == DEVICES || (slot < i && !devices[slot].used)
      {
        if devices[i].open && devices[i].path == path {
          return;
        }
        if slot == DEVICES && !devices[i].used {
          slot := i;
        }
      }
      if slot == DEVICES || |path| >= PATH_BYTES || !opens {
        return;
      }
      ghost var was := devices[..];
      assert was[slot] == devices[slot];
      lastId := lastId + 1;
      var d := FORGOTTEN.(used := true, path := path, open := true, kind := kind, id := lastId, added := true, held := held);
      devices[slot] := d;
      assert devices[..] == was[slot := d];
      AddKeepsTracked(was, trace, lastId - 1, slot, d);
    }

    /** Closes every device; draining NextPending then reports their releases and removals. */
    method Suspend()
      requires Valid()
      modifies this`suspended, this`active, devices
      ensures Valid() && suspended && trace == old(trace)
      ensures forall i :: 0 <= i < DEVICES ==> !devices[i].open
    {
      if suspended {
        return;
      }
      suspended := true;
      for i := 0 to DEVICES
        invariant Consistent() && trace == old(trace) && suspended
        invariant forall k :: 0 <= k < i ==> !devices[k].open
      {
        if devices[i].open {
          RemoveDevice(i);
        }
      }
    }

    /**
     Takes in the devices that a scan finds; when the scan fails, everything is closed again. No device
     keeps the id it had before.
     */
    method Resume(found: seq<Found>, scanned: bool) returns (ok: bool)
      requires Valid()
      modifies this`suspended, this`lastId, this`active, devices
      ensures Valid() && trace == old(trace) && ok == !suspended
      ensures !old(suspended) ==> ok && devices[..] == old(devices[..]) && lastId == old(lastId)
      ensures old(suspended) ==> ok == scanned
      ensures old(suspended) ==> forall i :: 0 <= i < DEVICES && devices[i].open ==> devices[i].id > old(lastId)
    {
      if !suspended {
        return true;
      }
      suspended := false;
      for k := 0 to |found|
        invariant Valid() && trace == old(trace) && !suspended && lastId >= old(lastId)
        invariant forall i :: 0 <= i < DEVICES && devices[i].open ==> devices[i].id > old(lastId)
      {
        ghost var was := devices[..];
        AddDevice(found[k].path, found[k].kind, found[k].opens, found[k].held);
        forall i | 0 <= i < DEVICES && devices[i].open ensures devices[i].id > old(lastId) {
          assert devices[i] == devices[..][i] && (was[i] == devices[i] || devices[i].id == lastId);
        }
      }
      if !scanned {
        Suspend();
      }
      ok := scanned;
    }

    method Store(i: nat, d: Device)
      requires Valid() && i < DEVICES && Ok(d)
      requires d.used == devices[i].used && d.id == devices[i].id && d.pressed == devices[i].pressed
      requires d.added == devices[i].added && d.open == devices[i].open
      modifies devices
      ensures Valid() && devices[i] == d && forall k :: 0 <= k < DEVICES && k != i ==> devices[k] == old(devices[k])
    {
      ghost var was := devices[..];
      assert was[i] == devices[i];
      devices[i] := d;
      assert devices[..] == was[i := d];
      QuietKeepsTracked(was, trace, lastId, i, d);
    }

    /** One read of slot `i`; true when the reading ends with it. */
    method ReadOne(i: nat, read: Read) returns (event: Option<Event>, done: bool)
      requires Valid() && active == Some(i) && i < DEVICES
      requires forall k :: 0 <= k < DEVICES ==> Quiet(devices[k])
      modifies this`trace, this`active, this`wheelRemainder, devices
      ensures Valid() && trace == old(trace) + (if event.Some? then [event.value] else [])
      ensures !done ==> event.None? && active == Some(i) && forall k :: 0 <= k < DEVICES ==> Quiet(devices[k])
      ensures Gathers(read) ==> !done && devices[i] == Absorbed(old(devices[i]), read) && wheelRemainder == old(wheelRemainder)
      ensures read.Report? && !old(devices[i]).syncing ==>
                && Finished(old(devices[i]), old(wheelRemainder)).1 == wheelRemainder
                && (devices[i], event) == NextReport(Finished(old(devices[i]), old(wheelRemainder)).0)
                && done == event.Some? && active == Some(i)
      ensures Gathers(read) || (read.Report? && !old(devices[i]).syncing) ==>
                forall k :: 0 <= k < DEVICES && k != i ==> devices[k] == old(devices[k])
    {
      event, done := None, false;
      var d := devices[i];
      assert devices[..][i] == d && Ok(d) && d.open;
      assert trace + [] == trace;
      match read {
        case Interrupted => AbsorbedIsNothing(d, read);
        case Nothing => event, done := EndReading(i);
        case Failure =>
          RemoveDevice(i);
          event := NextPending();
          done := true;
        case Lost(held) => LoseKeys(i, held);
        case KeyEvent(raw) => TakeKey(i, raw);
        case Report =>
          if !d.syncing {
            event := ReportFrame(i);
            done := event.Some?;
          }
        case Relative(code, value) => Move(i, code, value);
        case Other => AbsorbedIsNothing(d, read);
      }
    }

    /** Nothing more to read: that ends a synchronisation, and otherwise the reading. */
    method EndReading(i: nat) returns (event: Option<Event>, done: bool)
      requires Valid() && active == Some(i) && i < DEVICES && Ok(devices[i]) && devices[i].open && Quiet(devices[i])
      requires forall k :: 0 <= k < DEVICES ==> Quiet(devices[k])
      modifies this`trace, this`active, devices
      ensures Valid() && trace == old(trace) + (if event.Some? then [event.value] else [])
      ensures !done ==> event.None? && active == Some(i) && forall k :: 0 <= k < DEVICES ==> Quiet(devices[k])
      ensures !old(devices[i]).syncing ==> done && event.None? && active.None? && devices[..] == old(devices[..])
      ensures old(devices[i]).syncing ==> (devices[i], event) == NextReport(EndSync(old(devices[i]))) && active == Some(i)
    {
      if !devices[i].syncing {
        active := None;
        assert trace + [] == trace;
        return None, true;
      }
      Store(i, EndSync(devices[i]));
      assert OnlyOne(devices[..], i);
      event := NextPending();
      done := event.Some?;
    }

    /** The report of a frame makes it ready, and its first event is what is pending next. */
    method ReportFrame(i: nat) returns (event: Option<Event>)
      requires Valid() && i < DEVICES && Ok(devices[i]) && devices[i].open && !devices[i].syncing
      requires forall k :: 0 <= k < DEVICES ==> Quiet(devices[k])
      modifies this`trace, this`wheelRemainder, devices
      ensures Valid() && trace == old(trace) + (if event.Some? then [event.value] else [])
      ensures Finished(old(devices[i]), old(wheelRemainder)).1 == wheelRemainder
      ensures (devices[i], event) == NextReport(Finished(old(devices[i]), old(wheelRemainder)).0)
      ensures event.None? ==> forall k :: 0 <= k < DEVICES ==> Quiet(devices[k])
      ensures forall k :: 0 <= k < DEVICES && k != i ==> devices[k] == old(devices[k])
    {
      FinishReport(i);
      assert OnlyOne(devices[..], i);
      event := NextPending();
    }

    /** Also while syncing: libevdev hands out its differences and updates its state. */
    method LoseKeys(i: nat, held: set<nat>)
      requires Valid() && i < DEVICES && Ok(devices[i]) && devices[i].open && Quiet(devices[i])
      modifies devices
      ensures Valid() && devices[i].open && Quiet(devices[i])
      ensures devices[i] == if old(devices[i]).syncing then old(devices[i]).(held := held) else LoseEvents(old(devices[i]), held)
      ensures forall k :: 0 <= k < DEVICES && k != i ==> devices[k] == old(devices[k])
    {
      var d := devices[i];
      Store(i, if d.syncing then d.(held := held) else LoseEvents(d, held));
    }

    /** The queue grows by a press or release; in a synchronisation only libevdev's state follows it. */
    method TakeKey(i: nat, raw: Raw)
      requires Valid() && i < DEVICES && Ok(devices[i]) && devices[i].open && Quiet(devices[i])
      modifies devices
      ensures Valid() && devices[i].open && Quiet(devices[i])
      ensures var d := old(devices[i]);
              devices[i] == d.(held := if raw.value in {0, 1} then Pressing(d.held, raw.code, raw.value == 1) else d.held,
                               keys := d.keys + if !d.syncing && raw.value in {0, 1} then [raw] else [])
      ensures devices[i] == Absorbed(old(devices[i]), KeyEvent(raw))
      ensures forall k :: 0 <= k < DEVICES && k != i ==> devices[k] == old(devices[k])
    {
      var d := devices[i];
      assert d.keys + [] == d.keys;
      if d.syncing {
        Store(i, d.(held := Held(d.held, raw)));
      } else {
        ReadKeyKeepsOk(d, raw);
        Store(i, ReadKey(d, raw));
      }
    }

    /** Outside a synchronisation a pointer's travel adds up, axis by axis. */
    method Move(i: nat, code: nat, value: int)
      requires Valid() && i < DEVICES && Ok(devices[i]) && devices[i].open && Quiet(devices[i])
      modifies devices
      ensures Valid() && devices[i].open && Quiet(devices[i])
      ensures var d := old(devices[i]);
              var counts := !d.syncing && d.kind.hasPointer;
              devices[i] == d.(dx := d.dx + if counts && code == REL_X then value else 0,
                               dy := d.dy + if counts && code == REL_Y then value else 0,
                               wheelLegacy := d.wheelLegacy + if counts && code == REL_WHEEL then value else 0,
                               wheelV120 := d.wheelV120 + if counts && code == REL_WHEEL_HI_RES then value else 0,
                               highResolution := d.highResolution || (counts && code == REL_WHEEL_HI_RES))
      ensures devices[i] == Absorbed(old(devices[i]), Relative(code, value))
      ensures forall k :: 0 <= k < DEVICES && k != i ==> devices[k] == old(devices[k])
    {
      var d := devices[i];
      assert d.keys + [] == d.keys;
      if d.syncing || !d.kind.hasPointer {
        return;
      }
      if code == REL_X {
        d := d.(dx := d.dx + value);
      } else if code == REL_Y {
        d := d.(dy := d.dy + value);
      } else if code == REL_WHEEL {
        d := d.(wheelLegacy := d.wheelLegacy + value);
      } else if code == REL_WHEEL_HI_RES {
        d := d.(wheelV120 := d.wheelV120 + value, highResolution := true);
      }
      Store(i, d);
    }

    /**
     Reads slot `i` until something is to report or nothing more is to read. A frame outside a
     synchronisation, keys and travel up to its report, is gathered and its first event returned.
     */
    method ReadDevice(i: nat, script: seq<Read>) returns (event: Option<Event>)
      requires Valid() && active == Some(i) && i < DEVICES
      requires forall k :: 0 <= k < DEVICES ==> Quiet(devices[k])
      modifies this`trace, this`active, this`wheelRemainder, devices
      ensures Valid() && trace == old(trace) + (if event.Some? then [event.value] else [])
      ensures IsFrame(script) && !old(devices[i]).syncing ==>
                var f := Finished(Gathered(old(devices[i]), FrameOf(script)), old(wheelRemainder));
                && (devices[i], event) == NextReport(f.0) && wheelRemainder == f.1 && active == Some(i)
                && forall k :: 0 <= k < DEVICES && k != i ==> devices[k] == old(devices[k])
    {
      ghost var start := devices[i];
      ghost var frame := IsFrame(script) && !start.syncing;
      for n := 0 to |script|
        invariant Valid() && active == Some(i) && trace == old(trace)
        invariant forall k :: 0 <= k < DEVICES ==> Quiet(devices[k])
        invariant frame ==> forall k :: 0 <= k < DEVICES && k != i ==> devices[k] == old(devices[k])
        invariant frame && n < |script| ==>
                    devices[i] == Gathered(start, script[..n]) && wheelRemainder == old(wheelRemainder)
        invariant frame && n == |script| ==>
                    var f := Finished(Gathered(start, FrameOf(script)), old(wheelRemainder));
                    (devices[i], None) == NextReport(f.0) && wheelRemainder == f.1
      {
        if frame {
          GatheredMore(start, script, n);
        }
        var done;
        event, done := ReadOne(i, script[n]);
        if done {
          return;
        }
      }
      assert trace + [] == trace;
      event := None;
    }

    /** Reads the device next that the event loop found readable. */
    method SetActive(i: nat)
      requires Valid() && i < DEVICES && devices[i].open
      modifies this`active
      ensures Valid() && active == Some(i)
    {
      active := Some(i);
    }

    /** The next event: what is pending comes before anything more is read. */
    method NextEvent(script: seq<Read>) returns (event: Option<Event>)
      requires Valid()
      modifies this`trace, this`active, this`wheelRemainder, devices
      ensures Valid() && trace == old(trace) + (if event.Some? then [event.value] else [])
      ensures forall i :: 0 <= i < DEVICES && OnlyOne(old(devices[..]), i) && old(active) == Some(i) ==>
                var d := old(devices[i]);
                if NextReport(d).1.Some? then (devices[i], event) == NextReport(d)
                else IsFrame(script) && !d.syncing && Quiet(d) ==>
                  var f := Finished(Gathered(d, FrameOf(script)), old(wheelRemainder));
                  (devices[i], event) == NextReport(f.0) && wheelRemainder == f.1
    {
      event := NextPending();
      if event.None? && active.Some? {
        event := ReadDevice(active.value, script);
      }
    }

    /** The end of a frame. */
    method FinishReport(i: nat)
      requires Valid() && i < DEVICES && devices[i].open && !devices[i].syncing
      modifies this`wheelRemainder, devices
      ensures Valid() && (devices[i], wheelRemainder) == Finished(old(devices[i]), old(wheelRemainder))
      ensures forall k :: 0 <= k < DEVICES && k != i ==> devices[k] == old(devices[k])
    {
      var d := devices[i].(frameReady := true);
      assert devices[..][i] == devices[i];
      if d.kind.hasPointer {
        WheelTravelIsKept(d, wheelRemainder);
        var finished := FinishFrame(d, wheelRemainder);
        wheelRemainder := finished.1;
        d := finished.0;
      }
      Store(i, d);
    }
  }

  /** A whole synchronisation: events are lost, libevdev hands out its differences, and it ends. */
  function Resynchronised(d: Device, held: set<nat>, differences: seq<Raw>): Device {
    EndSync(LoseEvents(d, held).(held := Differing(held, differences)))
  }

  /**
   Whatever an open device had reported and whatever was queued: after events were lost and the
   synchronisation ended, reporting until nothing is left reports exactly the keys the device holds.
   From then on, until events are lost again, what is read keeps the reported keys in step with it.
   */
  lemma ResyncedDeviceIsReportedAsItIs(d: Device, held: set<nat>, differences: seq<Raw>, raws: seq<Raw>)
    requires Ok(d) && d.open
    ensures var s := Resynchronised(d, held, differences);
            Resyncing(s) &&
            var (now, events) := AllReports(s);
            && now.synced && now.open && Quiet(now) && now.held == Differing(held, differences)
            && AgreeBelow(d.kind, now.pressed, now.held, KEY_COUNT)
            && LifeAfter(LifeOfSlot(d), events) == Live(now.pressed)
            && var later := ReadKeys(now, raws);
               && later.keyNext <= |later.keys|
               && AgreeBelow(d.kind, Replay(d.kind, now.pressed, later.keys[later.keyNext..]), later.held, KEY_COUNT)
  {
    var s := Resynchronised(d, held, differences);
    AllReportsReachTheDevice(s);
    ReadKeysKeepOk(AllReports(s).0, raws);
  }

  /** A frame's key events, read one by one. */
  function ReadKeys(d: Device, raws: seq<Raw>): Device
    decreases |raws|
  {
    if raws == [] then d else ReadKeys(ReadKey(d, raws[0]), raws[1..])
  }

  lemma {:induction false} ReadKeysKeepOk(d: Device, raws: seq<Raw>)
    requires Ok(d) && !d.syncing && !d.syncPending
    ensures var later := ReadKeys(d, raws);
            && Ok(later) && later.kind == d.kind && later.pressed == d.pressed
            && later.open == d.open && later.synced == d.synced
    decreases |raws|
  {
    if raws != [] {
      ReadKeyKeepsOk(d, raws[0]);
      ReadKeysKeepOk(ReadKey(d, raws[0]), raws[1..]);
    }
  }
}
