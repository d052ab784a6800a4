/** A reader of the keyboard forwarder's lines. */
module LineReader {
  import opened Basics
  import opened KeyLines

  predicate Digit(c: char) { '0' <= c <= '9' }

  predicate Digits(text: string) { forall k :: 0 <= k < |text| ==> Digit(text[k]) }

  function Value(digits: string): nat
    requires Digits(digits)
  {
    if digits == "" then 0 else Value(digits[..|digits| - 1]) * 10 + (digits[|digits| - 1] - '0') as nat
  }

  /** How many digits a text begins with. */
  function Span(text: string): (n: nat)
    ensures n <= |text| && Digits(text[..n])
  {
    if text == "" || !Digit(text[0]) then 0 else 1 + Span(text[1..])
  }

  /** A number and the text after the character that ends it. */
  function ReadNumber(text: string, end: char): Option<(nat, string)> {
    var n := Span(text);
    if n == 0 || n == |text| || text[n] != end then None else Some((Value(text[..n]), text[n + 1..]))
  }

  /** The value of a line, which may be negative. */
  function ReadValue(text: string): Option<(int, string)> {
    if text != "" && text[0] == '-' then
      match ReadNumber(text[1..], '\n')
      case Some((n, rest)) => Some((0 - n as int, rest))
      case None => None
    else
      match ReadNumber(text, '\n')
      case Some((n, rest)) => Some((n as int, rest))
      case None => None
  }

  function ReadLine(text: string): Option<(Line, string)> {
    match ReadNumber(text, ' ')
    case None => None
    case Some((kind, fromCode)) =>
      match ReadNumber(fromCode, ' ')
      case None => None
      case Some((code, fromValue)) =>
        match ReadValue(fromValue)
        case None => None
        case Some((value, rest)) => Some((Line(kind, code, value), rest))
  }

  lemma {:induction false} DecimalIsDigits(n: nat)
    ensures |Decimal(n)| >= 1 && Digits(Decimal(n)) && Value(Decimal(n)) == n
    decreases n
  {
    if n < 10 {
      assert Decimal(n)[..0] == "";
    } else {
      DecimalIsDigits(n / 10);
      assert Decimal(n)[..|Decimal(n)| - 1] == Decimal(n / 10);
    }
  }

  lemma {:induction false} SpanIs(digits: string, rest: string)
    requires Digits(digits) && (rest == "" || !Digit(rest[0]))
    ensures Span(digits + rest) == |digits|
  {
    if digits == "" {
      assert digits + rest == rest;
    } else {
      assert (digits + rest)[1..] == digits[1..] + rest;
      SpanIs(digits[1..], rest);
    }
  }

  lemma NumberIsRead(n: nat, end: char, rest: string)
    requires !Digit(end)
    ensures ReadNumber(Decimal(n) + ([end] + rest), end) == Some((n, rest))
  {
    var text := Decimal(n) + ([end] + rest);
    DecimalIsDigits(n);
    SpanIs(Decimal(n), [end] + rest);
    assert text[..|Decimal(n)|] == Decimal(n) && text[|Decimal(n)| + 1..] == rest;
  }

  lemma ValueIsRead(value: int, rest: string)
    ensures ReadValue(ValueText(value) + ("\n" + rest)) == Some((value, rest))
  {
    var n := if value < 0 then -value else value;
    NumberIsRead(n, '\n', rest);
    DecimalIsDigits(n);
    var tail := Decimal(n) + (['\n'] + rest);
    assert ['\n'] + rest == "\n" + rest;
    if value < 0 {
      assert ("-" + Decimal(n)) + ("\n" + rest) == "-" + tail && ("-" + tail)[1..] == tail;
    } else {
      assert Digit(tail[0]);
    }
  }

  lemma Regrouped(a: string, b: string, c: string, rest: string)
    ensures (a + " " + b + " " + c + "\n") + rest == a + ([' '] + (b + ([' '] + (c + ("\n" + rest)))))
  {
  }

  lemma TextInParts(l: Line, rest: string)
    ensures Text(l) + rest == Decimal(l.kind) + ([' '] + (Decimal(l.code) + ([' '] + (ValueText(l.value) + ("\n" + rest)))))
  {
    Regrouped(Decimal(l.kind), Decimal(l.code), ValueText(l.value), rest);
  }

  lemma PartsAreRead(l: Line, text: string, fromCode: string, fromValue: string, rest: string)
    requires ReadNumber(text, ' ') == Some((l.kind, fromCode))
    requires ReadNumber(fromCode, ' ') == Some((l.code, fromValue)) && ReadValue(fromValue) == Some((l.value, rest))
    ensures ReadLine(text) == Some((l, rest))
  {
  }

  /** A line's text is read back as that line, whatever follows it. */
  lemma LineIsRead(l: Line, rest: string)
    ensures ReadLine(Text(l) + rest) == Some((l, rest))
  {
    var fromValue := ValueText(l.value) + ("\n" + rest);
    var fromCode := Decimal(l.code) + ([' '] + fromValue);
    TextInParts(l, rest);
    NumberIsRead(l.kind, ' ', fromCode);
    NumberIsRead(l.code, ' ', fromValue);
    ValueIsRead(l.value, rest);
    PartsAreRead(l, Text(l) + rest, fromCode, fromValue, rest);
  }

  /** What a reader makes of a text, line by line. */
  function ReadLines(text: string): Option<seq<Line>>
    decreases |text|
  {
    if text == "" then Some([])
    else
      match ReadLine(text)
      case None => None
      case Some((l, rest)) =>
        if |rest| >= |text| then None
        else
          match ReadLines(rest)
          case None => None
          case Some(more) => Some([l] + more)
  }

  lemma Associates(a: string, b: string, c: string)
    ensures (a + b) + c == a + (b + c)
  {
  }

  lemma {:induction false} TextsFromTheFront(l: Line, lines: seq<Line>)
    ensures Texts([l] + lines) == Text(l) + Texts(lines)
  {
    if lines == [] {
      assert [l] + lines == [l] && [l][..0] == [];
    } else {
      var last := |lines| - 1;
      TextsFromTheFront(l, lines[..last]);
      assert ([l] + lines)[..|lines|] == [l] + lines[..last];
      Associates(Text(l), Texts(lines[..last]), Text(lines[last]));
    }
  }

  /** The text of some lines is read back as those lines: it leaves no doubt about what was sent. */
  lemma {:induction false} LinesAreRead(lines: seq<Line>)
    ensures ReadLines(Texts(lines)) == Some(lines)
  {
    if lines != [] {
      assert lines == [lines[0]] + lines[1..];
      TextsFromTheFront(lines[0], lines[1..]);
      LineIsRead(lines[0], Texts(lines[1..]));
      DecimalIsDigits(lines[0].kind);
      LinesAreRead(lines[1..]);
    }
  }
}
