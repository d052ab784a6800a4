/** An application's preferences in memory, and their publication as one durable file. */
module Preferences {
  import opened Basics
  import opened Utf8
  import opened PrefsText
  import opened PrefsPaths

  const PATH_MAX: nat := 4096
  const TEMPORARY_NAME: nat := 20

  datatype Outcome = Unpublished | PublishedUnsynced | Durable

  /** What stat tells about a path. */
  datatype Look = Directory | NotDirectory | Missing | Unreadable

  // ---- The values as a map from keys

  function Value(items: seq<Item>, key: Bytes): Option<Bytes> {
    var at := Find(items, key);
    if at < |items| then Some(items[at].value) else None
  }

  function Removed(items: seq<Item>, key: Bytes): seq<Item> {
    var at := Find(items, key);
    if at < |items| then Without(items, at) else items
  }

  function Without(items: seq<Item>, at: nat): (r: seq<Item>)
    requires at < |items|
    ensures |r| == |items| - 1 && forall i :: 0 <= i < |r| ==> r[i] == items[if i < at then i else i + 1]
  {
    items[..at] + items[at + 1..]
  }

  /** What the memory holds: distinct keys and acceptable values. */
  type Items = items: seq<Item> | ValidItems(items) witness []

  lemma FindIs(items: seq<Item>, key: Bytes, at: nat)
    requires at <= |items| && (at < |items| ==> items[at].key == key)
    requires forall i :: 0 <= i < at ==> items[i].key != key
    ensures Find(items, key) == at
  {
  }

  lemma FindInAppended(items: seq<Item>, item: Item, key: Bytes)
    ensures Find(items + [item], key)
      == if Find(items, key) < |items| then Find(items, key)
         else if item.key == key then |items| else |items| + 1
  {
    var all := items + [item];
    var at := Find(items, key);
    if at < |items| { FindIs(all, key, at); }
    else { FindIs(all, key, if item.key == key then at else at + 1); }
  }

  /** A set value is read back, and every other key keeps its value. */
  lemma SetReadsBack(items: seq<Item>, item: Item, key: Bytes)
    ensures Value(Stored(items, item), key) == if key == item.key then Some(item.value) else Value(items, key)
  {
    var at := Find(items, item.key);
    var after := Stored(items, item);
    if at < |items| {
      forall i | 0 <= i < |items| ensures after[i].key == items[i].key {}
      FindIs(after, key, Find(items, key));
    } else {
      FindInAppended(items, item, key);
    }
  }

  lemma FindInRemoved(items: seq<Item>, at: nat, key: Bytes)
    requires at < |items| && forall i :: 0 <= i < |items| && items[i].key == items[at].key ==> i == at
    ensures var k := Find(items, key);
      Find(Without(items, at), key) == if key == items[at].key then |items| - 1 else if k < at then k else k - 1
  {
    var k := Find(items, key);
    FindIs(Without(items, at), key, if key == items[at].key then |items| - 1 else if k < at then k else k - 1);
  }

  lemma RemovedIsValid(items: Items, at: nat)
    requires at < |items|
    ensures ValidItems(Without(items, at))
  {
  }

  /** A removed key has no value, every other key keeps its value, and the rest keeps its order. */
  lemma RemoveForgetsOneKey(items: Items, gone: Bytes, key: Bytes)
    ensures Value(Removed(items, gone), key) == if key == gone then None else Value(items, key)
  {
    var at := Find(items, gone);
    if at < |items| { FindInRemoved(items, at, key); }
  }

  // ---- Undoing the escapes in place

  /** Success leaves the unescaped bytes at the front, followed by a NUL. */
  method UnescapeInPlace(text: array<Byte>, length: nat) returns (ok: bool, kept: nat)
    requires length < text.Length
    modifies text
    ensures ok <==> Unescaped(old(text[..length])).Some?
    ensures ok ==> kept <= length && Some(text[..kept]) == Unescaped(old(text[..length])) && text[kept] == NUL
    ensures text[length + 1..] == old(text[length + 1..])
  {
    ghost var was := text[..length];
    ghost var whole := text[..];
    var i, out := 0, 0;
    kept := 0;
    assert was[0..] == was && text[..0] == [];
    ContinuedUnits(text[..0], Unescaped(was));
    while i < length
      invariant 0 <= out <= i <= length
      invariant forall k :: i <= k < text.Length ==> text[k] == whole[k]
      invariant Unescaped(was) == Continued(text[..out], Unescaped(was[i..]))
    {
      ghost var done := text[..out];
      NextUnescaped(was, i);
      var byte := text[i];
      if byte == BACKSLASH {
        i := i + 1;
        if i == length { return false, 0; }
        if text[i] == SMALL_N { byte := LF; }
        else if text[i] == SMALL_R { byte := CR; }
        else if text[i] == BACKSLASH { byte := BACKSLASH; }
        else { return false, 0; }
      }
      ContinuedByOne(done, byte, Unescaped(was[i + 1..]));
      text[out] := byte;
      out := out + 1;
      i := i + 1;
      assert text[..out] == done + [byte];
    }
    assert was[length..] == [];
    ContinuedUnits(text[..out], Some([]));
    text[out] := NUL;
    return true, out;
  }

  /** Unescaping goes on after the byte, or the escape, at i. */
  lemma NextUnescaped(text: Bytes, i: nat)
    requires i < |text|
    ensures Unescaped(text[i..])
      == if text[i] != BACKSLASH then Prefixed(text[i], Unescaped(text[i + 1..]))
         else if i + 1 == |text| || Meaning(text[i + 1]).None? then None
         else Prefixed(Meaning(text[i + 1]).value, Unescaped(text[i + 2..]))
  {
    assert text[i..][1..] == text[i + 1..];
    if i + 1 < |text| { assert text[i..][2..] == text[i + 2..]; }
  }

  function Continued(done: Bytes, rest: Option<Bytes>): Option<Bytes> {
    match rest case None => None case Some(bytes) => Some(done + bytes)
  }

  lemma ContinuedByOne(done: Bytes, b: Byte, rest: Option<Bytes>)
    ensures Continued(done, Prefixed(b, rest)) == Continued(done + [b], rest)
  {
    if rest.Some? { assert done + ([b] + rest.value) == done + [b] + rest.value; }
  }

  lemma ContinuedUnits(done: Bytes, rest: Option<Bytes>)
    ensures done == [] ==> Continued(done, rest) == rest
    ensures rest == Some([]) ==> Continued(done, rest) == Some(done)
  {
    if rest.Some? { assert [] + rest.value == rest.value && done + [] == done; }
  }

  lemma SavedFrom(items: seq<Item>, i: nat, before: Bytes)
    requires i < |items|
    ensures before + Saved(items[i..]) == (before + (LineOf(items[i]) + [LF])) + Saved(items[i + 1..])
  {
    assert items[i..][1..] == items[i + 1..];
  }

  /** Another program shares the file system, and every call into it can fail. */
  class Preferences {
    const directory: Bytes
    var items: Items
    var changed: bool
    var pendingSync: bool
    var parentsUnsynced: bool
    var parentSyncStop: nat
    /** The text this handle last read or put in the file's place. */
    ghost var placed: Bytes
    /** The text whose rename was last made durable; None until this handle did so. */
    ghost var durable: Option<Bytes>
    /** The directories this handle made whose parents were not synchronized since. */
    ghost var unsynced: set<nat>
    /** How many calls into the file system have failed. */
    ghost var faults: nat

    ghost function Debt(): Debt
      reads this
    {
      PrefsPaths.Debt(unsynced, parentsUnsynced, parentSyncStop)
    }

    ghost predicate Valid()
      reads this
    {
      && directory != []
      && Sound(directory, Debt())
      && (!changed ==> Loaded([], placed) == items)
      && (!pendingSync && durable.Some? ==> durable.value == placed)
      && (parentsUnsynced ==> changed || pendingSync)
    }

    /** Opens a directory's preferences; a missing file is empty. */
    constructor (path: Bytes, file: Option<Bytes>)
      requires path != []
      ensures Valid() && directory == path && !changed && !pendingSync && unsynced == {}
      ensures items == if file.Some? then Loaded([], file.value) else []
    {
      directory := path;
      items := [];
      changed, pendingSync, parentsUnsynced, parentSyncStop := false, false, false, 0;
      placed, durable, unsynced, faults := [], None, {}, 0;
      new;
      if file.Some? { Load(file.value); }
    }

    method Load(text: Bytes)
      requires directory != [] && items == [] && unsynced == {} && !pendingSync && !parentsUnsynced && durable == None
      modifies this
      ensures Valid() && items == Loaded([], text) && !changed && !pendingSync && unsynced == {} && !parentsUnsynced
    {
      ReadLines(text);
      changed := false;
      placed := text;
    }

    method ReadLines(text: Bytes)
      modifies this`items, this`changed
      ensures items == Loaded(old(items), text)
    {
      var at := 0;
      assert text[0..] == text;
      while at < |text|
        invariant at <= |text| && Loaded(old(items), text) == Loaded(items, text[at..])
      {
        var rest := text[at..];
        var length := IndexOf(rest, LF);
        LoadLine(rest[..length]);
        assert length < |rest| ==> rest[length + 1..] == text[at + length + 1..];
        at := if length < |rest| then at + length + 1 else |text|;
        assert text[|text|..] == [];
      }
    }

    /** An empty or malformed line is skipped. */
    method LoadLine(line: Bytes)
      modifies this`items, this`changed
      ensures items == LineLoaded(old(items), line)
    {
      var found := if line == [] then None else Parsed(line);
      if found.Some? {
        ParsedIsValid(line);
        Store(found.value);
      }
    }

    method FindItem(key: Bytes) returns (at: nat)
      ensures at == Find(items, key)
    {
      at := 0;
      while at < |items| && items[at].key != key
        invariant at <= |items| && forall i :: 0 <= i < at ==> items[i].key != key
      {
        at := at + 1;
      }
      FindIs(items, key, at);
    }

    /** Sets a valid value; memory is sufficient. */
    method Store(item: Item)
      requires ValidKey(item.key) && ValidValue(item.value)
      modifies this`items, this`changed
      ensures items == Stored(old(items), item)
      ensures changed == (old(changed) || items != old(items))
    {
      var at := FindItem(item.key);
      StoredKeepsValid(items, item);
      if at == |items| {
        items := items + [item];
        changed := true;
      } else if items[at].value == item.value {
        assert items == items[at := item];
      } else {
        items := items[at := item];
        changed := true;
      }
    }

    /** Get: the value, or the fallback for an unknown or invalid key. */
    method Get(key: Bytes, fallback: Bytes) returns (value: Bytes)
      requires Valid()
      ensures value == match Value(items, key) case Some(v) => v case None => fallback
    {
      var at := FindItem(key);
      if !ValidKey(key) {
        if at < |items| { assert false; }
        return fallback;
      }
      value := if at < |items| then items[at].value else fallback;
    }

    method Set(item: Item) returns (ok: bool)
      requires Valid() && NUL !in item.value
      modifies this`items, this`changed
      ensures Valid()
      ensures ok <==> ValidKey(item.key) && ValidValue(item.value)
      ensures items == if ok then Stored(old(items), item) else old(items)
      ensures changed == (old(changed) || items != old(items))
    {
      if !ValidKey(item.key) || |item.value| > VALUE_MAX || !Utf8.Valid(item.value) { return false; }
      Store(item);
      ok := true;
    }

    /** A missing key counts as removed. */
    method Remove(key: Bytes) returns (ok: bool)
      requires Valid()
      modifies this`items, this`changed
      ensures Valid()
      ensures ok <==> ValidKey(key)
      ensures items == Removed(old(items), key)
      ensures changed == (old(changed) || items != old(items))
    {
      var at := FindItem(key);
      ok := ValidKey(key);
      if ok && at < |items| {
        RemovedIsValid(items, at);
        items := items[..at] + items[at + 1..];
        changed := true;
      }
    }

    method WriteItem(item: Item) returns (line: Bytes)
      ensures line == LineOf(item)
    {
      line := item.key + [EQUALS];
      var value, k := item.value, 0;
      assert value[0..] == value;
      while k < |value|
        invariant k <= |value|
        invariant LineOf(item) == line + Escaped(value[k..])
      {
        line := line + EscapedByte(value[k]);
        k := k + 1;
      }
    }

    /** The bytes the file is written with. */
    method WriteItems() returns (text: Bytes)
      ensures text == Saved(items)
    {
      text := [];
      var i := 0;
      assert items[0..] == items;
      while i < |items|
        invariant i <= |items|
        invariant Saved(items) == text + Saved(items[i..])
      {
        var line := WriteItem(items[i]);
        SavedFrom(items, i, text);
        text := text + (line + [LF]);
        i := i + 1;
      }
    }

    /** A call into the file system. */
    method Call() returns (ok: bool)
      modifies this`faults
      ensures faults == old(faults) + if ok then 0 else 1
    {
      ok := *;
      faults := faults + if ok then 0 else 1;
    }

    /** Looks at one directory on the way and makes it when it is missing. */
    method PrepareCut(i: nat) returns (ok: bool, ghost created: bool)
      requires Cut(directory, i) && Sound(directory, Debt())
      modifies this`parentsUnsynced, this`parentSyncStop, this`unsynced, this`faults
      ensures faults == old(faults) + if ok then 0 else 1
      ensures Debt() == if created then Made(directory, old(Debt()), i) else old(Debt())
      ensures Sound(directory, Debt())
    {
      var look: Look := *;
      created := false;
      if IsRoot(directory, Stripped(directory, i)) { look := Directory; }
      if look == Missing {
        var success, alreadyThere: bool := *, *;
        if !success && !alreadyThere {
          faults := faults + 1;
          return false, false;
        }
        if success {
          created := true;
          MadeKeepsSound(directory, Debt(), i);
          unsynced := unsynced + {Stripped(directory, i)};
          if !parentsUnsynced {
            parentSyncStop := Parent(directory, i);
            parentsUnsynced := true;
          }
        }
        look := *;
      }
      ok := look == Directory;
      faults := faults + if ok then 0 else 1;
    }

    /**
     * Makes the missing directories from the top down. Whatever happens on the way, the debt is the
     * old one with the directories made, in that order.
     */
    method PrepareDirectory() returns (ok: bool, ghost made: seq<nat>)
      requires Sound(directory, Debt())
      modifies this`parentsUnsynced, this`parentSyncStop, this`unsynced, this`faults
      ensures faults >= old(faults) && (ok <==> faults == old(faults))
      ensures Sound(directory, Debt()) && TopDown(directory, made, |directory| + 1)
      ensures Debt() == MadeAll(directory, old(Debt()), made)
    {
      ghost var was := Debt();
      var i := 1;
      made := [];
      ok := true;
      while i <= |directory| && ok
        invariant 0 < i <= |directory| + 1 && Sound(directory, Debt())
        invariant Prepared(directory, was, Debt(), made, i) && (ok <==> faults == old(faults)) && faults >= old(faults)
      {
        if i == |directory| || directory[i] == SLASH {
          ghost var before, created := Debt(), false;
          ok, created := PrepareCut(i);
          PreparedOneMore(directory, was, before, made, i);
          if created { made := made + [i]; }
        }
        i := i + 1;
      }
      if ok { ok := Call(); }
    }

    /** Synchronizes the directory and, after directories were made, its parents up to the stop. */
    method SyncPublication() returns (ok: bool)
      requires directory != [] && Sound(directory, Debt())
      modifies this`unsynced, this`durable, this`faults
      ensures faults >= old(faults) && (ok <==> faults == old(faults))
      ensures ok ==> durable == Some(placed)
      ensures ok ==> Debt() == SyncedUpTo(directory, old(Debt()), Stripped(directory, |directory|))
      ensures durable == old(durable) || durable == Some(placed)
      ensures unsynced <= old(unsynced)
      ensures Sound(directory, Debt())
    {
      var length := |directory|;
      while length > 1 && directory[length - 1] == SLASH
        invariant 0 < length <= |directory| && Stripped(directory, length) == Stripped(directory, |directory|)
      {
        length := length - 1;
      }
      ghost var all := Stripped(directory, |directory|);
      while true
        invariant 0 < length <= |directory| && Sound(directory, Debt())
        invariant parentsUnsynced ==> OnChain(directory, length, parentSyncStop)
        invariant SyncedUpTo(directory, Debt(), length) == SyncedUpTo(directory, old(Debt()), all)
        invariant length == all || durable == Some(placed)
        invariant durable == old(durable) || durable == Some(placed)
        invariant unsynced <= old(unsynced) && faults == old(faults)
        decreases length
      {
        var synced := Call();
        if !synced { return false; }
        durable := Some(placed);
        unsynced := Synced(directory, Debt(), length).unsynced;
        if !parentsUnsynced || length == parentSyncStop { break; }
        length := Parent(directory, length);
        if length == 0 {
          ok := Call();
          if ok { unsynced := Synced(directory, Debt(), 0).unsynced; }
          return;
        }
      }
      ok := true;
    }

    predicate NameFits()
    {
      |directory| + TEMPORARY_NAME < PATH_MAX
    }

    /** Writes what is in memory to a new file and puts it in place; nothing is placed on failure. */
    method Publish() returns (ok: bool, ghost made: seq<nat>)
      requires Valid() && changed
      modifies this`changed, this`pendingSync, this`parentsUnsynced, this`parentSyncStop
      modifies this`placed, this`unsynced, this`faults
      ensures Valid() && TopDown(directory, made, |directory| + 1)
      ensures faults >= old(faults) && ok == (faults == old(faults) && NameFits())
      ensures Debt() == MadeAll(directory, old(Debt()), made)
      ensures ok ==> !changed && pendingSync && placed == Saved(items)
      ensures !ok ==> changed && placed == old(placed)
    {
      ok, made := PrepareDirectory();
      if !ok || !NameFits() { return false, made; }
      var text := WriteItems();
      ok := Call();
      if ok {
        LoadingInvertsSaving(items);
        placed := text;
        changed, pendingSync := false, true;
      }
    }

    /**
     * The result is durable unless a call fails or the directory's name is too long. Then the file in
     * place holds what is in memory, and this text's rename is durable unless nothing has been saved
     * through this handle. No directory made is unsynchronized if and only if none of them lies above
     * the stop.
     */
    method Save() returns (outcome: Outcome, ghost made: seq<nat>)
      requires Valid()
      modifies this`changed, this`pendingSync, this`parentsUnsynced, this`parentSyncStop
      modifies this`placed, this`durable, this`unsynced, this`faults
      ensures Valid() && TopDown(directory, made, |directory| + 1)
      ensures outcome == Durable <==> faults == old(faults) && (old(changed) ==> NameFits())
      ensures outcome == PublishedUnsynced ==> faults > old(faults)
      ensures !old(changed) ==> made == [] && placed == old(placed)
      ensures outcome == Durable ==> !changed && !pendingSync && !parentsUnsynced && Loaded([], placed) == items
      ensures outcome == Durable && (old(changed) || old(pendingSync)) ==>
        durable == Some(placed) && (unsynced == {} <==> Covered(directory, MadeAll(directory, old(Debt()), made)))
      ensures outcome == PublishedUnsynced ==> !changed && pendingSync && Loaded([], placed) == items
      ensures outcome == Unpublished ==> changed && placed == old(placed) && durable == old(durable)
      ensures !old(changed) && !old(pendingSync) ==> outcome == Durable && unsynced == old(unsynced)
      ensures old(changed) && outcome != Unpublished ==> placed == Saved(items)
    {
      made := [];
      if !changed && !pendingSync { return Durable, made; }
      if changed {
        var published: bool;
        published, made := Publish();
        if !published { return Unpublished, made; }
      }
      var ok := Synchronize();
      outcome := if ok then Durable else PublishedUnsynced;
    }

    /** What was put in place is made durable, and with it the directories made. */
    method Synchronize() returns (ok: bool)
      requires Valid() && !changed && pendingSync
      modifies this`pendingSync, this`parentsUnsynced, this`durable, this`unsynced, this`faults
      ensures Valid() && faults >= old(faults) && (ok <==> faults == old(faults))
      ensures ok ==> !pendingSync && !parentsUnsynced && durable == Some(placed)
      ensures ok ==> (unsynced == {} <==> Covered(directory, old(Debt())))
      ensures !ok ==> pendingSync
    {
      SyncLeavesWhatIsAboveTheStop(directory, Debt());
      ok := SyncPublication();
      if ok { pendingSync, parentsUnsynced := false, false; }
    }
  }

  /** The directories one preparation made lie in order, below a length. */
  ghost predicate TopDown(path: Bytes, made: seq<nat>, end: nat) {
    && (forall k :: 0 <= k < |made| ==> Cut(path, made[k]) && made[k] < end)
    && (forall j, k :: 0 <= j < k < |made| ==> made[j] < made[k])
  }

  /** A preparation went from one debt to another over the part of the path before a length. */
  ghost predicate Prepared(path: Bytes, was: Debt, now: Debt, made: seq<nat>, end: nat) {
    TopDown(path, made, end) && now == MadeAll(path, was, made)
  }

  lemma PreparedOneMore(path: Bytes, was: Debt, now: Debt, made: seq<nat>, i: nat)
    requires Prepared(path, was, now, made, i) && Cut(path, i)
    ensures Prepared(path, was, now, made, i + 1)
    ensures Prepared(path, was, Made(path, now, i), made + [i], i + 1)
  {
    MadeOneMore(path, was, made, i);
  }

  lemma {:induction false} MadeOneMore(path: Bytes, d: Debt, made: seq<nat>, i: nat)
    requires (forall k :: 0 <= k < |made| ==> Cut(path, made[k])) && Cut(path, i)
    ensures MadeAll(path, d, made + [i]) == Made(path, MadeAll(path, d, made), i)
    decreases |made|
  {
    if made != [] {
      assert (made + [i])[1..] == made[1..] + [i];
      MadeOneMore(path, Made(path, d, made[0]), made[1..], i);
    }
  }
}
