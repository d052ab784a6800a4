/**
 * The directories above the preferences file, as prefixes of its directory's path, and what
 * still has to be synchronized after some of them were made.
 */
module PrefsPaths {
  import opened Basics
  import opened Utf8

  const SLASH: Byte := 47

  /** The length without trailing slashes; the root keeps its own. */
  function Stripped(path: Bytes, length: nat): (r: nat)
    requires length <= |path|
    ensures r <= length && (length > 0 ==> r > 0) && (r > 1 ==> path[r - 1] != SLASH)
    ensures forall k :: r <= k < length ==> path[k] == SLASH
  {
    if length > 1 && path[length - 1] == SLASH then Stripped(path, length - 1) else length
  }

  /** The length without the last name, up to and with the slash before it. */
  function Unnamed(path: Bytes, length: nat): (r: nat)
    requires length <= |path|
    ensures r <= length && (r > 0 ==> path[r - 1] == SLASH)
    ensures forall k :: r <= k < length ==> path[k] != SLASH
  {
    if length > 0 && path[length - 1] != SLASH then Unnamed(path, length - 1) else length
  }

  /** The parent's length; 0 is the current directory. */
  function Parent(path: Bytes, length: nat): (r: nat)
    requires length <= |path|
    ensures r <= length
  {
    Stripped(path, Unnamed(path, Stripped(path, length)))
  }

  /** Where a path can be cut to name one of the directories it leads through. */
  predicate Cut(path: Bytes, i: nat) {
    0 < i <= |path| && (i < |path| ==> path[i] == SLASH)
  }

  predicate IsRoot(path: Bytes, length: nat)
    requires length <= |path|
  {
    length == 1 && path[0] == SLASH
  }

  /** Going from a length to its parent and on, `to` is met. */
  ghost predicate OnChain(path: Bytes, from: nat, to: nat)
    requires from <= |path|
    decreases from
  {
    from == to || (Parent(path, from) < from && OnChain(path, Parent(path, from), to))
  }

  /** A parent is shorter, except that the root and the current directory are their own. */
  lemma ParentIsShorter(path: Bytes, length: nat)
    requires length <= |path|
    ensures Parent(path, length) < length <==> length != 0 && !IsRoot(path, length)
  {
    var s := Stripped(path, length);
    if length > 0 && path[s - 1] == SLASH {
      assert s == 1;
    }
  }

  /** Trailing slashes do not change the parent. */
  lemma ParentOfStripped(path: Bytes, length: nat)
    requires length <= |path|
    ensures Stripped(path, Stripped(path, length)) == Stripped(path, length)
    ensures Parent(path, Stripped(path, length)) == Parent(path, length)
  {
  }

  lemma {:induction false} StrippedCutOnChain(path: Bytes, from: nat, s: nat)
    requires Cut(path, s) && Stripped(path, s) == s && s <= from <= |path| && Stripped(path, from) == from
    ensures OnChain(path, from, s)
    decreases from
  {
    if s < from {
      var u := Unnamed(path, from);
      assert u > s;
      StripStopsAt(path, u, s);
      ParentIsShorter(path, from);
      ParentOfStripped(path, u);
      StrippedCutOnChain(path, Parent(path, from), s);
    }
  }

  lemma {:induction false} StripStopsAt(path: Bytes, length: nat, s: nat)
    requires 0 < s <= length <= |path| && (s > 1 ==> path[s - 1] != SLASH)
    ensures Stripped(path, length) >= s
  {
    if s < length && path[length - 1] == SLASH { StripStopsAt(path, length - 1, s); }
  }

  /** Every directory the path leads through, and its parent, is met going up from the path. */
  lemma CutIsOnChain(path: Bytes, i: nat)
    requires Cut(path, i)
    ensures OnChain(path, Stripped(path, |path|), Stripped(path, i))
    ensures OnChain(path, Stripped(path, |path|), Parent(path, i))
  {
    var s := Stripped(path, i);
    assert Cut(path, s);
    ParentOfStripped(path, i);
    ParentOfStripped(path, |path|);
    StripStopsAt(path, |path|, s);
    StrippedCutOnChain(path, Stripped(path, |path|), s);
    ChainGoesOn(path, Stripped(path, |path|), s);
  }

  lemma {:induction false} ChainGoesOn(path: Bytes, from: nat, to: nat)
    requires from <= |path| && OnChain(path, from, to)
    ensures to <= from && OnChain(path, from, Parent(path, to))
    decreases from
  {
    if from != to { ChainGoesOn(path, Parent(path, from), to); }
  }

  // ---- What is still owed

  /**
   * Directories made whose parent was not synchronized since (by length, without trailing
   * slashes), and the two fields by which the code remembers them.
   */
  datatype Debt = Debt(unsynced: set<nat>, owing: bool, stop: nat)

  /** A directory was made: the first one since the last synchronization says how far up to go. */
  function Made(path: Bytes, d: Debt, i: nat): Debt
    requires Cut(path, i)
  {
    Debt(d.unsynced + {Stripped(path, i)}, true, if d.owing then d.stop else Parent(path, i))
  }

  /** The directory of one length was synchronized. */
  function Synced(path: Bytes, d: Debt, length: nat): Debt {
    d.(unsynced := set c | c in d.unsynced && !(c <= |path| && Parent(path, c) == length))
  }

  /** Everything from a length up to the stop was synchronized. */
  function SyncedUpTo(path: Bytes, d: Debt, length: nat): Debt
    requires length <= |path|
    decreases length
  {
    var s := Synced(path, d, length);
    if !d.owing || length == d.stop || Parent(path, length) >= length then s
    else SyncedUpTo(path, s, Parent(path, length))
  }

  ghost predicate Sound(path: Bytes, d: Debt) {
    && (forall c :: c in d.unsynced ==> Cut(path, c) && Stripped(path, c) == c && !IsRoot(path, c))
    && (d.owing ==> OnChain(path, Stripped(path, |path|), d.stop))
  }

  /** Nothing made lies above the directory the next synchronization ends with. */
  ghost predicate Covered(path: Bytes, d: Debt) {
    forall c :: c in d.unsynced ==> d.owing && c <= |path| && Parent(path, c) >= d.stop
  }

  lemma MadeKeepsSound(path: Bytes, d: Debt, i: nat)
    requires Sound(path, d) && Cut(path, i) && !IsRoot(path, Stripped(path, i))
    ensures Sound(path, Made(path, d, i))
  {
    CutIsOnChain(path, i);
    assert Cut(path, Stripped(path, i));
    ParentOfStripped(path, i);
  }

  lemma {:induction false} ChainSynced(path: Bytes, d: Debt, length: nat)
    requires length <= |path| && d.owing && OnChain(path, length, d.stop)
    requires forall c :: c in d.unsynced ==> c <= |path| && OnChain(path, length, Parent(path, c))
    ensures SyncedUpTo(path, d, length).unsynced == set c | c in d.unsynced && Parent(path, c) < d.stop
    decreases length
  {
    var s := Synced(path, d, length);
    forall c | c in d.unsynced ensures Parent(path, c) <= length {
      ChainGoesOn(path, length, Parent(path, c));
    }
    ChainGoesOn(path, length, d.stop);
    if length != d.stop {
      var p := Parent(path, length);
      ChainSynced(path, s, p);
    }
  }

  /**
   * What a complete synchronization leaves unsynchronized, exactly: the directories whose parent
   * lies above the stop, or everything without one. So nothing is left if and only if everything
   * made was covered.
   */
  lemma SyncLeavesWhatIsAboveTheStop(path: Bytes, d: Debt)
    requires Sound(path, d) && path != []
    ensures var r := SyncedUpTo(path, d, Stripped(path, |path|)).unsynced;
      && r == (set c | c in d.unsynced && !(d.owing && Parent(path, c) >= d.stop))
      && (r == {} <==> Covered(path, d))
  {
    var whole := Stripped(path, |path|);
    forall c | c in d.unsynced ensures OnChain(path, whole, Parent(path, c)) && Parent(path, c) < whole {
      CutIsOnChain(path, c);
      ChainGoesOn(path, whole, c);
      ParentIsShorter(path, c);
    }
    var r := SyncedUpTo(path, d, whole).unsynced;
    if d.owing { ChainSynced(path, d, whole); }
    assert forall c :: c in d.unsynced && !(d.owing && Parent(path, c) >= d.stop) ==> c in r;
  }

  /** The directories one preparation made, from the top down. */
  function MadeAll(path: Bytes, d: Debt, made: seq<nat>): Debt
    requires forall k :: 0 <= k < |made| ==> Cut(path, made[k])
    decreases |made|
  {
    if made == [] then d else MadeAll(path, Made(path, d, made[0]), made[1..])
  }

  lemma {:induction false} ParentIsMonotone(path: Bytes, a: nat, b: nat)
    requires Cut(path, a) && Cut(path, b) && a <= b
    ensures Parent(path, a) <= Parent(path, b)
  {
    var s, t := Stripped(path, a), Stripped(path, b);
    StripStopsAt(path, b, s);
    if s < t {
      assert t > 1 && path[t - 1] != SLASH;
      if s < a { assert path[s] == SLASH; }
      var u := Unnamed(path, t);
      assert u > s;
      StripStopsAt(path, u, s);
    }
  }

  lemma {:induction false} MadeStays(path: Bytes, d: Debt, made: seq<nat>)
    requires forall k :: 0 <= k < |made| ==> Cut(path, made[k])
    ensures var m := MadeAll(path, d, made);
      d.unsynced <= m.unsynced && (d.owing ==> m.owing && m.stop == d.stop)
    decreases |made|
  {
    if made != [] { MadeStays(path, Made(path, d, made[0]), made[1..]); }
  }

  /**
   * One preparation makes directories downwards, so the first one made decides: everything stays
   * covered if and only if that one is not above the stop that an earlier preparation left.
   */
  lemma {:induction false} FirstMadeDecides(path: Bytes, d: Debt, made: seq<nat>)
    requires forall k :: 0 <= k < |made| ==> Cut(path, made[k])
    requires forall j, k :: 0 <= j < k < |made| ==> made[j] <= made[k]
    requires Covered(path, d)
    ensures Covered(path, MadeAll(path, d, made))
      <==> (made != [] && d.owing ==> Cut(path, made[0]) && Parent(path, made[0]) >= d.stop)
    decreases |made|
  {
    if made != [] {
      assert Cut(path, made[0]);
      ParentOfStripped(path, made[0]);
      var m := Made(path, d, made[0]);
      if d.owing && Parent(path, made[0]) < d.stop {
        MadeStays(path, m, made[1..]);
        assert Stripped(path, made[0]) in m.unsynced;
      } else {
        if |made| > 1 { ParentIsMonotone(path, made[0], made[1]); }
        FirstMadeDecides(path, m, made[1..]);
      }
    }
  }

  /**
   * A directory above the stop that is made later, because another program removed it between
   * two attempts, is missed: "a/b" with first b made below an existing a, and then both again.
   */
  lemma RemadeAncestorIsMissed()
    ensures var path := [97, SLASH, 98];
      && var first := MadeAll(path, Debt({}, false, 0), [3]);
      && Sound(path, first) && Covered(path, first)
      && var second := MadeAll(path, first, [1, 3]);
      && Sound(path, second) && !Covered(path, second)
      && SyncedUpTo(path, second, 3).unsynced == {1}
  {
    var path: Bytes := [97, SLASH, 98];
    assert Stripped(path, 3) == 3 && Unnamed(path, 3) == 2 && Stripped(path, 2) == 1 && Parent(path, 3) == 1;
    assert Stripped(path, 1) == 1 && Unnamed(path, 1) == 0 && Parent(path, 1) == 0;
    var first := Made(path, Debt({}, false, 0), 3);
    assert MadeAll(path, Debt({}, false, 0), [3]) == first;
    MadeKeepsSound(path, Debt({}, false, 0), 3);
    var mid := Made(path, first, 1);
    MadeKeepsSound(path, first, 1);
    var second := Made(path, mid, 3);
    MadeKeepsSound(path, mid, 3);
    assert MadeAll(path, first, [1, 3]) == MadeAll(path, mid, [3]) == second;
    assert second.unsynced == {1, 3} && second.stop == 1;
    SyncLeavesWhatIsAboveTheStop(path, second);
    assert 1 in second.unsynced;
  }
}
