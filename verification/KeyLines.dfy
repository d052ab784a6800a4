/**
 The lines the keyboard forwarder sends, what they do to the keys held down at the receiver, and the
 order in which a resynchronisation sends them.
 */
module KeyLines {

  const KEY_COUNT: nat := 768
  const EV_SYN: nat := 0
  const EV_KEY: nat := 1
  const SYN_REPORT: nat := 0
  const SYN_DROPPED: nat := 3

  datatype Line = Line(kind: nat, code: nat, value: int)

  /** Which keys are down, by code. */
  type Keys = s: seq<bool> | |s| == KEY_COUNT witness Same(false)

  const ALL_UP: Keys := Same(false)

  function Same(down: bool): seq<bool> {
    seq(KEY_COUNT, _ => down)
  }

  /** Left and right Shift, Ctrl, Alt and Meta. */
  predicate Modifier(code: nat) {
    code == 42 || code == 54 || code == 29 || code == 97 || code == 56 || code == 100 || code == 125 || code == 126
  }

  // ---- The text of a line

  function Decimal(n: nat): string {
    if n < 10 then [n as char + '0'] else Decimal(n / 10) + [(n % 10) as char + '0']
  }

  function ValueText(value: int): string {
    if value < 0 then "-" + Decimal(-value) else Decimal(value)
  }

  function Text(l: Line): string {
    Decimal(l.kind) + " " + Decimal(l.code) + " " + ValueText(l.value) + "\n"
  }

  function Texts(lines: seq<Line>): string {
    if lines == [] then "" else Texts(lines[..|lines| - 1]) + Text(lines[|lines| - 1])
  }

  lemma {:induction false} DecimalIsShort(n: nat, digits: nat, bound: nat)
    requires digits >= 1 && n < bound && bound == Power10(digits)
    ensures 1 <= |Decimal(n)| <= digits
    decreases digits
  {
    if digits == 1 {
      assert Power10(1) == 10 * Power10(0);
    } else if n >= 10 {
      DecimalIsShort(n / 10, digits - 1, Power10(digits - 1));
    }
  }

  function Power10(n: nat): nat {
    if n == 0 then 1 else 10 * Power10(n - 1)
  }

  /** A line of 16-bit codes and a 32-bit value fits the scratch line of 64 characters. */
  lemma TextIsShort(l: Line)
    requires l.kind < 0x1_0000 && l.code < 0x1_0000 && -0x8000_0000 <= l.value < 0x8000_0000
    ensures 6 <= |Text(l)| <= 24
  {
    assert Power10(5) == 100000;
    assert Power10(10) == 100000 * 100000;
    DecimalIsShort(l.kind, 5, 100000);
    DecimalIsShort(l.code, 5, 100000);
    DecimalIsShort(if l.value < 0 then -l.value else l.value, 10, Power10(10));
  }

  // ---- What lines do

  function Apply(keys: Keys, l: Line): Keys {
    if l.kind == EV_KEY && l.code < KEY_COUNT && (l.value == 0 || l.value == 1)
    then keys[l.code := l.value == 1] else keys
  }

  function Replay(keys: Keys, lines: seq<Line>): Keys {
    if lines == [] then keys else Apply(Replay(keys, lines[..|lines| - 1]), lines[|lines| - 1])
  }

  lemma {:induction false} ReplayConcat(keys: Keys, a: seq<Line>, b: seq<Line>)
    ensures Replay(keys, a + b) == Replay(Replay(keys, a), b)
  {
    if b == [] {
      assert a + b == a;
    } else {
      var last := |b| - 1;
      ReplayConcat(keys, a, b[..last]);
      assert (a + b)[..|a + b| - 1] == a + b[..last];
    }
  }

  // ---- Changing the keys to a snapshot

  /** Whether a phase, releases or presses of modifiers or of the others, sends a line for a code. */
  predicate Changes(keys: Keys, physical: Keys, down: bool, modifiers: bool, code: nat)
    requires code < KEY_COUNT
  {
    physical[code] == down && keys[code] != down && Modifier(code) == modifiers
  }

  /** The lines one phase sends for the codes below `n`. */
  function PhaseLines(keys: Keys, physical: Keys, down: bool, modifiers: bool, n: nat): seq<Line>
    requires n <= KEY_COUNT
  {
    if n == 0 then []
    else
      PhaseLines(keys, physical, down, modifiers, n - 1)
      + (if Changes(keys, physical, down, modifiers, n - 1) then [Line(EV_KEY, n - 1, if down then 1 else 0)] else [])
  }

  function PhaseKeys(keys: Keys, physical: Keys, down: bool, modifiers: bool): Keys {
    seq(KEY_COUNT, c requires 0 <= c < KEY_COUNT =>
      if Changes(keys, physical, down, modifiers, c) then down else keys[c])
  }

  lemma {:induction false} PhaseLinesDo(keys: Keys, physical: Keys, down: bool, modifiers: bool, n: nat)
    requires n <= KEY_COUNT
    ensures var now := Replay(keys, PhaseLines(keys, physical, down, modifiers, n));
            forall c :: 0 <= c < KEY_COUNT ==>
              now[c] == if c < n then PhaseKeys(keys, physical, down, modifiers)[c] else keys[c]
  {
    if n > 0 {
      PhaseLinesDo(keys, physical, down, modifiers, n - 1);
      var before := PhaseLines(keys, physical, down, modifiers, n - 1);
      var line := Line(EV_KEY, n - 1, if down then 1 else 0);
      assert (before + [line])[..|before|] == before && before + [] == before;
      if Changes(keys, physical, down, modifiers, n - 1) {
        assert PhaseLines(keys, physical, down, modifiers, n) == before + [line];
        assert Replay(keys, before + [line]) == Apply(Replay(keys, before), line);
      } else {
        assert PhaseLines(keys, physical, down, modifiers, n) == before;
      }
    }
  }

  /** One more code of a phase, which comes after `log`. */
  lemma PhaseMore(keys: Keys, physical: Keys, down: bool, modifiers: bool, code: nat, log: seq<Line>)
    requires code < KEY_COUNT
    ensures var before, more := PhaseLines(keys, physical, down, modifiers, code), PhaseLines(keys, physical, down, modifiers, code + 1);
      var line := Line(EV_KEY, code, if down then 1 else 0);
      && Replay(keys, before)[code] == keys[code]
      && (if Changes(keys, physical, down, modifiers, code)
          then log + more == (log + before) + [line] && Replay(keys, more) == Apply(Replay(keys, before), line)
          else more == before)
  {
    PhaseLinesDo(keys, physical, down, modifiers, code);
    var before := PhaseLines(keys, physical, down, modifiers, code);
    var line := Line(EV_KEY, code, if down then 1 else 0);
    assert (before + [line])[..|before|] == before && before + [] == before;
  }

  lemma PhaseReplays(keys: Keys, physical: Keys, down: bool, modifiers: bool)
    ensures Replay(keys, PhaseLines(keys, physical, down, modifiers, KEY_COUNT)) == PhaseKeys(keys, physical, down, modifiers)
  {
    PhaseLinesDo(keys, physical, down, modifiers, KEY_COUNT);
  }

  /** Every line of a phase changes one key of the phase's class, in the phase's direction. */
  lemma {:induction false} PhaseLinesAreOfThePhase(keys: Keys, physical: Keys, down: bool, modifiers: bool, n: nat, l: Line)
    requires n <= KEY_COUNT && l in PhaseLines(keys, physical, down, modifiers, n)
    ensures l.kind == EV_KEY && l.code < n && l.value == (if down then 1 else 0) && Modifier(l.code) == modifiers
    ensures Changes(keys, physical, down, modifiers, l.code)
  {
    if l in PhaseLines(keys, physical, down, modifiers, n - 1) {
      PhaseLinesAreOfThePhase(keys, physical, down, modifiers, n - 1, l);
    }
  }

  /** The four phases: others up, modifiers up, modifiers down, others down. */
  function Resynced(keys: Keys, physical: Keys): seq<Line> {
    var k1 := PhaseKeys(keys, physical, false, false);
    var k2 := PhaseKeys(k1, physical, false, true);
    var k3 := PhaseKeys(k2, physical, true, true);
    PhaseLines(keys, physical, false, false, KEY_COUNT) + PhaseLines(k1, physical, false, true, KEY_COUNT)
    + PhaseLines(k2, physical, true, true, KEY_COUNT) + PhaseLines(k3, physical, true, false, KEY_COUNT)
  }

  /** After the lines of a resynchronisation the receiver holds exactly the keys of the snapshot. */
  lemma ResyncedKeys(keys: Keys, physical: Keys)
    ensures Replay(keys, Resynced(keys, physical)) == physical
  {
    var k1 := PhaseKeys(keys, physical, false, false);
    var k2 := PhaseKeys(k1, physical, false, true);
    var k3 := PhaseKeys(k2, physical, true, true);
    var p1 := PhaseLines(keys, physical, false, false, KEY_COUNT);
    var p2 := PhaseLines(k1, physical, false, true, KEY_COUNT);
    var p3 := PhaseLines(k2, physical, true, true, KEY_COUNT);
    var p4 := PhaseLines(k3, physical, true, false, KEY_COUNT);
    PhaseReplays(keys, physical, false, false);
    PhaseReplays(k1, physical, false, true);
    PhaseReplays(k2, physical, true, true);
    PhaseReplays(k3, physical, true, false);
    ReplayConcat(keys, p1, p2);
    ReplayConcat(keys, p1 + p2, p3);
    ReplayConcat(keys, p1 + p2 + p3, p4);
    assert PhaseKeys(k3, physical, true, false) == physical;
  }

  /** The modifiers held in two key states are the same. */
  predicate SameModifiers(a: Keys, b: Keys) {
    forall c :: 0 <= c < KEY_COUNT && Modifier(c) ==> a[c] == b[c]
  }

  lemma {:induction false} OthersKeepModifiers(keys: Keys, lines: seq<Line>)
    requires forall l :: l in lines ==> !Modifier(l.code)
    ensures SameModifiers(Replay(keys, lines), keys)
  {
    if lines != [] {
      var last := |lines| - 1;
      assert lines[last] in lines && forall l :: l in lines[..last] ==> l in lines;
      OthersKeepModifiers(keys, lines[..last]);
    }
  }

  /** Each ordinary press is sent when the receiver already has the snapshot's modifiers. */
  lemma PressesComeUnderFinalModifiers(keys: Keys, physical: Keys, i: nat)
    requires i < |Resynced(keys, physical)|
    requires var l := Resynced(keys, physical)[i]; l.value == 1 && !Modifier(l.code)
    ensures SameModifiers(Replay(keys, Resynced(keys, physical)[..i]), physical)
  {
    var all := Resynced(keys, physical);
    var k1 := PhaseKeys(keys, physical, false, false);
    var k2 := PhaseKeys(k1, physical, false, true);
    var k3 := PhaseKeys(k2, physical, true, true);
    var p1 := PhaseLines(keys, physical, false, false, KEY_COUNT);
    var p2 := PhaseLines(k1, physical, false, true, KEY_COUNT);
    var p3 := PhaseLines(k2, physical, true, true, KEY_COUNT);
    var p4 := PhaseLines(k3, physical, true, false, KEY_COUNT);
    var early := p1 + p2 + p3;
    if i < |early| {
      if i < |p1| { PhaseLinesAreOfThePhase(keys, physical, false, false, KEY_COUNT, all[i]); }
      else if i < |p1| + |p2| { PhaseLinesAreOfThePhase(k1, physical, false, true, KEY_COUNT, p2[i - |p1|]); }
      else { PhaseLinesAreOfThePhase(k2, physical, true, true, KEY_COUNT, p3[i - |p1| - |p2|]); }
      assert false;
    }
    var some := p4[..i - |early|];
    assert all[..i] == early + some;
    ReplayConcat(keys, early, some);
    ReplayConcat(keys, p1, p2);
    ReplayConcat(keys, p1 + p2, p3);
    PhaseReplays(keys, physical, false, false);
    PhaseReplays(k1, physical, false, true);
    PhaseReplays(k2, physical, true, true);
    forall l | l in some ensures !Modifier(l.code) {
      assert l in p4;
      PhaseLinesAreOfThePhase(k3, physical, true, false, KEY_COUNT, l);
    }
    OthersKeepModifiers(k3, some);
  }

  /** The releases of everything that is down: the others first, then the modifiers. */
  function Released(keys: Keys): seq<Line> {
    PhaseLines(keys, ALL_UP, false, false, KEY_COUNT)
    + PhaseLines(PhaseKeys(keys, ALL_UP, false, false), ALL_UP, false, true, KEY_COUNT)
  }

  lemma ReleasedKeys(keys: Keys)
    ensures Replay(keys, Released(keys)) == ALL_UP
  {
    var k1 := PhaseKeys(keys, ALL_UP, false, false);
    PhaseReplays(keys, ALL_UP, false, false);
    PhaseReplays(k1, ALL_UP, false, true);
    ReplayConcat(keys, PhaseLines(keys, ALL_UP, false, false, KEY_COUNT), PhaseLines(k1, ALL_UP, false, true, KEY_COUNT));
    assert PhaseKeys(k1, ALL_UP, false, true) == ALL_UP;
  }
}
