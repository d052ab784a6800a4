/** The text of the preferences file: each preference on a line of its own, key and escaped value. */
module PrefsText {
  import opened Basics
  import opened Utf8

  const KEY_MAX: nat := 63
  const VALUE_MAX: nat := 65535
  const LINE_MAX: nat := KEY_MAX + 1 + 2 * VALUE_MAX

  const NUL: Byte := 0
  const LF: Byte := 10
  const CR: Byte := 13
  const DASH: Byte := 45
  const DOT: Byte := 46
  const EQUALS: Byte := 61
  const BACKSLASH: Byte := 92
  const UNDERSCORE: Byte := 95
  const SMALL_N: Byte := 110
  const SMALL_R: Byte := 114

  datatype Item = Item(key: Bytes, value: Bytes)

  predicate KeyByte(b: Byte) {
    97 <= b <= 122 || 65 <= b <= 90 || 48 <= b <= 57 || b == DOT || b == UNDERSCORE || b == DASH
  }

  predicate ValidKey(key: Bytes) {
    0 < |key| <= KEY_MAX && forall b :: b in key ==> KeyByte(b)
  }

  /** What a set accepts; a C string holds no NUL. */
  predicate ValidValue(value: Bytes) {
    |value| <= VALUE_MAX && NUL !in value && Valid(value)
  }

  predicate ValidItems(items: seq<Item>) {
    && (forall i :: 0 <= i < |items| ==> ValidKey(items[i].key) && ValidValue(items[i].value))
    && (forall i, j :: 0 <= i < j < |items| ==> items[i].key != items[j].key)
  }

  // ---- Escaping

  function EscapedByte(b: Byte): Bytes {
    if b == BACKSLASH then [BACKSLASH, BACKSLASH]
    else if b == LF then [BACKSLASH, SMALL_N]
    else if b == CR then [BACKSLASH, SMALL_R]
    else [b]
  }

  function Escaped(value: Bytes): Bytes {
    if value == [] then [] else EscapedByte(value[0]) + Escaped(value[1..])
  }

  /** The byte that an escape's second byte stands for. */
  function Meaning(b: Byte): Option<Byte> {
    if b == SMALL_N then Some(LF) else if b == SMALL_R then Some(CR)
    else if b == BACKSLASH then Some(BACKSLASH) else None
  }

  /** The text without its escapes; None when a backslash begins no escape. */
  function Unescaped(text: Bytes): Option<Bytes>
    decreases |text|
  {
    if text == [] then Some([])
    else if text[0] != BACKSLASH then Prefixed(text[0], Unescaped(text[1..]))
    else if |text| == 1 then None
    else match Meaning(text[1])
      case None => None
      case Some(b) => Prefixed(b, Unescaped(text[2..]))
  }

  function Prefixed(b: Byte, rest: Option<Bytes>): Option<Bytes> {
    match rest case None => None case Some(bytes) => Some([b] + bytes)
  }

  lemma {:induction false} UnescapingInvertsEscaping(value: Bytes)
    ensures Unescaped(Escaped(value)) == Some(value)
  {
    if value != [] {
      UnescapingInvertsEscaping(value[1..]);
      var e := EscapedByte(value[0]);
      assert Escaped(value)[|e|..] == Escaped(value[1..]);
      assert value == [value[0]] + value[1..];
    }
  }

  /** An escaped value is one line of at most twice the length, without NUL when the value has none. */
  lemma {:induction false} EscapedIsOneLine(value: Bytes)
    ensures LF !in Escaped(value) && CR !in Escaped(value) && |Escaped(value)| <= 2 * |value|
    ensures NUL !in value ==> NUL !in Escaped(value)
  {
    if value != [] {
      EscapedIsOneLine(value[1..]);
      assert value == [value[0]] + value[1..];
    }
  }

  // ---- Saving

  function LineOf(item: Item): Bytes {
    item.key + [EQUALS] + Escaped(item.value)
  }

  function Saved(items: seq<Item>): Bytes {
    if items == [] then [] else LineOf(items[0]) + [LF] + Saved(items[1..])
  }

  // ---- Loading

  /** Where a byte first is, or the length. */
  function IndexOf(text: Bytes, b: Byte): (at: nat)
    ensures at <= |text| && b !in text[..at] && (at < |text| ==> text[at] == b)
  {
    if text == [] || text[0] == b then 0
    else
      var at := 1 + IndexOf(text[1..], b);
      assert text[..at] == [text[0]] + text[1..][..at - 1];
      at
  }

  lemma {:induction false} IndexOfFirst(a: Bytes, b: Byte, rest: Bytes)
    requires b !in a
    ensures IndexOf(a + [b] + rest, b) == |a|
  {
    if a != [] {
      assert (a + [b] + rest)[1..] == a[1..] + [b] + rest;
      IndexOfFirst(a[1..], b, rest);
    }
  }

  /** A line's preference; None for a malformed line. */
  function Parsed(line: Bytes): Option<Item> {
    var at := IndexOf(line, EQUALS);
    if at == |line| || |line| > LINE_MAX || NUL in line || !ValidKey(line[..at]) then None
    else match Unescaped(line[at + 1..])
      case None => None
      case Some(value) => if |value| > VALUE_MAX || !Valid(value) then None else Some(Item(line[..at], value))
  }

  /** Where a key is, or the number of items. */
  function Find(items: seq<Item>, key: Bytes): (at: nat)
    ensures at <= |items| && (at < |items| ==> items[at].key == key)
    ensures forall i :: 0 <= i < at ==> items[i].key != key
  {
    if items == [] || items[0].key == key then 0 else 1 + Find(items[1..], key)
  }

  /** A preference set to a value: in its place, or at the end when it is new. */
  function Stored(items: seq<Item>, item: Item): seq<Item> {
    var at := Find(items, item.key);
    if at < |items| then items[at := item] else items + [item]
  }

  /** Line by line; empty and malformed lines are skipped. */
  function Loaded(items: seq<Item>, text: Bytes): seq<Item>
    decreases |text|
  {
    if text == [] then items
    else
      var at := IndexOf(text, LF);
      Loaded(LineLoaded(items, text[..at]), if at < |text| then text[at + 1..] else [])
  }

  function LineLoaded(items: seq<Item>, line: Bytes): seq<Item> {
    if line == [] then items
    else match Parsed(line) case None => items case Some(item) => Stored(items, item)
  }

  // ---- The round trip

  /** A written line is read back as the item it was written for. */
  lemma WrittenLineIsRead(item: Item)
    requires ValidKey(item.key) && ValidValue(item.value)
    ensures Parsed(LineOf(item)) == Some(item) && LF !in LineOf(item) && LineOf(item) != []
  {
    var line := LineOf(item);
    assert EQUALS !in item.key && NUL !in item.key && LF !in item.key;
    IndexOfFirst(item.key, EQUALS, Escaped(item.value));
    EscapedIsOneLine(item.value);
    UnescapingInvertsEscaping(item.value);
    assert line[..|item.key|] == item.key && line[|item.key| + 1..] == Escaped(item.value);
  }

  lemma FirstLine(line: Bytes, rest: Bytes)
    requires LF !in line
    ensures var text := line + [LF] + rest;
      IndexOf(text, LF) == |line| && text[..|line|] == line && text[|line| + 1..] == rest
  {
    IndexOfFirst(line, LF, rest);
  }

  lemma NewKeyGoesLast(before: seq<Item>, items: seq<Item>)
    requires items != [] && ValidItems(before + items)
    ensures Stored(before, items[0]) == before + [items[0]]
    ensures ValidKey(items[0].key) && ValidValue(items[0].value)
  {
    assert (before + items)[|before|] == items[0];
    forall i | 0 <= i < |before| ensures before[i].key != items[0].key {
      assert (before + items)[i] == before[i];
    }
  }

  /** One written line is one step of loading. */
  lemma WrittenLineIsStored(before: seq<Item>, item: Item, rest: Bytes)
    requires ValidKey(item.key) && ValidValue(item.value)
    ensures Loaded(before, LineOf(item) + [LF] + rest) == Loaded(Stored(before, item), rest)
  {
    WrittenLineIsRead(item);
    var line := LineOf(item);
    FirstLine(line, rest);
    assert LineLoaded(before, line) == Stored(before, item);
  }

  lemma {:induction false} LoadingAfterOthers(before: seq<Item>, items: seq<Item>)
    requires ValidItems(before + items)
    ensures Loaded(before, Saved(items)) == before + items
    decreases |items|
  {
    if items == [] {
      assert before + items == before;
    } else {
      var item, rest := items[0], items[1..];
      assert before + items == (before + [item]) + rest;
      NewKeyGoesLast(before, items);
      WrittenLineIsStored(before, item, Saved(rest));
      LoadingAfterOthers(before + [item], rest);
    }
  }

  /** Loading what was saved gives the same keys and values in the same order. */
  lemma LoadingInvertsSaving(items: seq<Item>)
    requires ValidItems(items)
    ensures Loaded([], Saved(items)) == items
  {
    assert [] + items == items;
    LoadingAfterOthers([], items);
  }

  // ---- What loading accepts

  lemma StoredKeepsValid(items: seq<Item>, item: Item)
    requires ValidItems(items) && ValidKey(item.key) && ValidValue(item.value)
    ensures ValidItems(Stored(items, item))
  {
  }

  lemma ParsedIsValid(line: Bytes)
    requires Parsed(line).Some?
    ensures ValidKey(Parsed(line).value.key) && ValidValue(Parsed(line).value.value)
  {
    UnescapedHasNoNul(line[IndexOf(line, EQUALS) + 1..]);
  }

  lemma {:induction false} UnescapedHasNoNul(text: Bytes)
    requires NUL !in text && Unescaped(text).Some?
    ensures NUL !in Unescaped(text).value
    decreases |text|
  {
    if text != [] {
      if text[0] != BACKSLASH { UnescapedHasNoNul(text[1..]); } else { UnescapedHasNoNul(text[2..]); }
    }
  }

  lemma LineLoadedIsValid(items: seq<Item>, line: Bytes)
    requires ValidItems(items)
    ensures ValidItems(LineLoaded(items, line))
  {
    if line != [] && Parsed(line).Some? {
      ParsedIsValid(line);
      StoredKeepsValid(items, Parsed(line).value);
    }
  }

  function FirstOf(text: Bytes): Bytes { text[..IndexOf(text, LF)] }
  function RestOf(text: Bytes): Bytes {
    var at := IndexOf(text, LF);
    if at < |text| then text[at + 1..] else []
  }

  lemma OneLineLoaded(items: seq<Item>, text: Bytes)
    requires text != []
    ensures |RestOf(text)| < |text|
    ensures Loaded(items, text) == Loaded(LineLoaded(items, FirstOf(text)), RestOf(text))
  {
  }

  /** Whatever a file holds, what is loaded from it is valid: distinct keys and acceptable values. */
  lemma {:induction false} LoadedIsValid(items: seq<Item>, text: Bytes)
    requires ValidItems(items)
    ensures ValidItems(Loaded(items, text))
    decreases |text|
  {
    if text != [] {
      OneLineLoaded(items, text);
      LineLoadedIsValid(items, FirstOf(text));
      LoadedIsValid(LineLoaded(items, FirstOf(text)), RestOf(text));
    }
  }
}
