/** Multi-tap composition: a key's characters in turn, until one of them is committed. */
module Multitap {
  import opened Arithmetic

  const KEYS: nat := 10
  const TEXT_BYTES: nat := 64
  const ZERO: nat := 48
  const NINE: nat := 57

  /** What the callback that takes a character answers. */
  datatype Answer = Accept | Refuse | Block

  datatype Outcome = Ignored | Pending | Committed | Blocked | Rejected

  type Characters = seq<nat>
  type Language = seq<Characters>

  function AnswerTo(answers: seq<Answer>, call: nat): Answer {
    if call < |answers| then answers[call] else Block
  }

  predicate IsDigit(key: nat) { ZERO <= key <= NINE }

  /** A validated language: every key has characters, and its own digit is one of them. */
  predicate GoodLanguage(language: Language) {
    && |language| == KEYS
    && forall k :: 0 <= k < KEYS ==>
      && |language[k]| < TEXT_BYTES
      && 0 !in language[k]
      && ZERO + k in language[k]
  }

  function CharactersOf(language: Language, key: nat): Characters
    requires |language| == KEYS
  {
    if IsDigit(key) then language[key - ZERO] else []
  }

  /** The character at an index; 0 past the end. */
  function CharacterAt(characters: Characters, index: nat): nat {
    if index < |characters| then characters[index] else 0
  }

  datatype Tap = Tap(key: nat, index: nat, pending: bool, advanced: bool)

  const IDLE := Tap(0, 0, false, false)

  /** A pending index names a character of the pending key. */
  predicate Valid(tap: Tap, language: Language)
    requires |language| == KEYS
  {
    tap.pending ==> tap.index < |CharactersOf(language, tap.key)|
  }

  function Candidate(tap: Tap, language: Language): nat
    requires |language| == KEYS
  {
    if tap.pending then CharacterAt(CharactersOf(language, tap.key), tap.index) else 0
  }

  /** What a call leaves, returns and hands to the callback, in this order. */
  datatype Step = Step(tap: Tap, outcome: Outcome, sent: seq<nat>)

  function Commit(tap: Tap, language: Language, answer: Answer): Step
    requires |language| == KEYS
  {
    if !tap.pending then Step(tap, Pending, [])
    else
      var sent := [Candidate(tap, language)];
      match answer
      case Accept => Step(IDLE, Committed, sent)
      case Refuse => Step(IDLE, Rejected, sent)
      case Block => Step(tap, Blocked, sent)
  }

  function Press(tap: Tap, language: Language, timeout: nat, key: nat, elapsed: nat, answer: Answer): Step
    requires |language| == KEYS
  {
    var characters := CharactersOf(language, key);
    if characters == [] then Step(tap, Ignored, [])
    else if tap.pending && tap.key == key && elapsed < timeout then
      var next := if CharacterAt(characters, tap.index + 1) == 0 then 0 else tap.index + 1;
      Step(tap.(index := next, advanced := true), Pending, [])
    else
      var before := Commit(tap, language, answer);
      if tap.pending && before.outcome != Committed then before
      else Step(Tap(key, 0, true, false), before.outcome, before.sent)
  }

  /** Where a character is, or the number of characters. */
  function IndexOf(characters: Characters, c: nat): (at: nat)
    ensures at <= |characters| && (at < |characters| ==> characters[at] == c)
    ensures forall k :: 0 <= k < at ==> characters[k] != c
  {
    if characters == [] || characters[0] == c then 0 else 1 + IndexOf(characters[1..], c)
  }

  /** The index one step back in the cycle. */
  function StepBack(characters: Characters, index: nat): nat {
    if index > 0 then index - 1 else if characters == [] then 0 else |characters| - 1
  }

  /** A long press: the digit, and first the character that the press had replaced on the screen. */
  function Hold(tap: Tap, language: Language, answers: seq<Answer>): Step
    requires |language| == KEYS
  {
    var characters := CharactersOf(language, tap.key);
    var digit := IndexOf(characters, tap.key);
    if !tap.pending || digit == |characters| then Step(tap, Ignored, [])
    else if !tap.advanced then Commit(tap.(index := digit), language, AnswerTo(answers, 0))
    else
      var back := tap.(index := StepBack(characters, tap.index), advanced := false);
      var first := Commit(back, language, AnswerTo(answers, 0));
      if first.outcome != Committed then first
      else
        var second := Commit(Tap(tap.key, digit, true, false), language, AnswerTo(answers, 1));
        second.(sent := first.sent + second.sent)
  }

  // ---- Validity

  lemma StepsKeepValid(tap: Tap, language: Language, timeout: nat, key: nat, elapsed: nat, answers: seq<Answer>)
    requires GoodLanguage(language) && Valid(tap, language)
    ensures Valid(Commit(tap, language, AnswerTo(answers, 0)).tap, language)
    ensures Valid(Press(tap, language, timeout, key, elapsed, AnswerTo(answers, 0)).tap, language)
    ensures Valid(Hold(tap, language, answers).tap, language)
  {
  }

  /** Everything handed to the callback is a character of a key; never the 0 past a key's end. */
  lemma OnlyCharactersAreSent(tap: Tap, language: Language, answers: seq<Answer>)
    requires GoodLanguage(language) && Valid(tap, language)
    ensures 0 !in Commit(tap, language, AnswerTo(answers, 0)).sent
    ensures 0 !in Hold(tap, language, answers).sent
  {
  }

  // ---- Cycling

  /** Presses of the pending key in time. */
  function Pressed(tap: Tap, language: Language, timeout: nat, times: nat): Tap
    requires |language| == KEYS
  {
    if times == 0 then tap
    else Press(Pressed(tap, language, timeout, times - 1), language, timeout, tap.key, 0, Block).tap
  }

  lemma PressStepsOn(tap: Tap, language: Language, timeout: nat, elapsed: nat)
    requires GoodLanguage(language) && tap.pending && Valid(tap, language) && elapsed < timeout
    ensures var n := |CharactersOf(language, tap.key)|;
      Press(tap, language, timeout, tap.key, elapsed, Block)
        == Step(Tap(tap.key, if tap.index + 1 == n then 0 else tap.index + 1, true, true), Pending, [])
  {
    var characters := CharactersOf(language, tap.key);
    assert tap.index + 1 < |characters| ==> characters[tap.index + 1] in characters;
  }

  lemma CycleNext(i: nat, n: nat)
    requires n > 0
    ensures (i + 1) % n == if i % n + 1 == n then 0 else i % n + 1
  {
    QuotientBounds(i, n);
    QuotientUnique(i, n, i / n);
    assert (i / n + 1) * n == i / n * n + n;
    QuotientUnique(i + 1, n, if i % n + 1 == n then i / n + 1 else i / n);
  }

  /** The n-th further press shows the n-th further character, around the key's cycle. */
  lemma {:induction false} PressesCycle(tap: Tap, language: Language, timeout: nat, times: nat)
    requires GoodLanguage(language) && tap.pending && Valid(tap, language) && timeout > 0
    ensures var now, n := Pressed(tap, language, timeout, times), |CharactersOf(language, tap.key)|;
      n > 0 && now == Tap(tap.key, (tap.index + times) % n, true, tap.advanced || times > 0)
  {
    var n := |CharactersOf(language, tap.key)|;
    if times == 0 {
      QuotientUnique(tap.index, n, 0);
    } else {
      PressesCycle(tap, language, timeout, times - 1);
      CycleNext(tap.index + times - 1, n);
      PressStepsOn(Pressed(tap, language, timeout, times - 1), language, timeout, 0);
    }
  }

  // ---- Holding

  /** A held press that stepped the cycle gives the character shown before that press, then the digit. */
  lemma HoldReplacesThePress(tap: Tap, language: Language, timeout: nat, elapsed: nat, answers: seq<Answer>)
    requires GoodLanguage(language) && Valid(tap, language) && tap.pending && elapsed < timeout
    requires AnswerTo(answers, 0) == AnswerTo(answers, 1) == Accept
    ensures var pressed := Press(tap, language, timeout, tap.key, elapsed, Block).tap;
      Hold(pressed, language, answers) == Step(IDLE, Committed, [Candidate(tap, language), tap.key])
  {
    var characters := CharactersOf(language, tap.key);
    assert tap.key in characters by { assert ZERO + (tap.key - ZERO) in language[tap.key - ZERO]; }
    assert tap.index + 1 < |characters| ==> characters[tap.index + 1] != 0;
  }

  /** A held first press gives the digit. */
  lemma HoldGivesTheDigit(tap: Tap, language: Language, answers: seq<Answer>)
    requires GoodLanguage(language) && Valid(tap, language) && tap.pending && !tap.advanced
    requires AnswerTo(answers, 0) == Accept
    ensures Hold(tap, language, answers) == Step(IDLE, Committed, [tap.key])
  {
    var characters := CharactersOf(language, tap.key);
    assert tap.key in characters by { assert ZERO + (tap.key - ZERO) in language[tap.key - ZERO]; }
  }

  /** The characters accepted while a blocked hold is retried until it is not blocked. */
  function Held(tap: Tap, language: Language, answers: seq<Answer>): seq<nat>
    requires |language| == KEYS
    decreases |answers|
  {
    if answers == [] then []
    else
      var step := Hold(tap, language, answers);
      if step.outcome != Blocked then step.sent
      else
        step.sent[..|step.sent| - 1]
          + (if |step.sent| <= |answers| then Held(step.tap, language, answers[|step.sent|..]) else [])
  }

  function Accepts(answers: seq<Answer>): nat {
    if answers == [] then 0 else Accepts(answers[1..]) + if answers[0] == Accept then 1 else 0
  }

  lemma {:induction false} HeldDigit(tap: Tap, language: Language, answers: seq<Answer>)
    requires GoodLanguage(language) && Valid(tap, language) && tap.pending && !tap.advanced
    requires Refuse !in answers && Accepts(answers) >= 1
    ensures Held(tap, language, answers) == [tap.key]
    decreases |answers|
  {
    var characters := CharactersOf(language, tap.key);
    assert tap.key in characters by { assert ZERO + (tap.key - ZERO) in language[tap.key - ZERO]; }
    assert answers[0] in answers;
    if answers[0] == Block {
      var step := Hold(tap, language, answers);
      assert step.sent == [tap.key];
      HeldDigit(step.tap, language, answers[1..]);
    }
  }

  /**
   * Retried until it is not blocked, a held press that stepped the cycle gives both characters if and
   * only if the first emission is not blocked: the retry has forgotten that the press was a step.
   */
  lemma {:induction false} RetriedHold(tap: Tap, language: Language, answers: seq<Answer>)
    requires GoodLanguage(language) && Valid(tap, language) && tap.pending && tap.advanced
    requires Refuse !in answers && Accepts(answers) >= 2
    ensures var characters := CharactersOf(language, tap.key);
      Held(tap, language, answers)
        == if answers[0] == Block then [tap.key] else [characters[StepBack(characters, tap.index)], tap.key]
  {
    var characters := CharactersOf(language, tap.key);
    assert tap.key in characters by { assert ZERO + (tap.key - ZERO) in language[tap.key - ZERO]; }
    assert answers[0] in answers && answers[1] in answers;
    var step := Hold(tap, language, answers);
    if answers[0] == Block {
      assert |step.sent| == 1 && step.outcome == Blocked;
      HeldDigit(step.tap, language, answers[1..]);
      assert step.sent[..0] + [tap.key] == [tap.key];
    } else if answers[1] == Block {
      assert answers[2..] == answers[1..][1..];
      assert step.sent[..1] == [characters[StepBack(characters, tap.index)]];
      HeldDigit(step.tap, language, answers[2..]);
    }
  }

  // ---- The state in place

  class Composer {
    var key: nat
    var index: nat
    var pending: bool
    var advanced: bool
    var language: Language
    const timeout: nat

    ghost function Value(): Tap
      reads this
    {
      Tap(key, index, pending, advanced)
    }

    ghost predicate Good()
      reads this
    {
      GoodLanguage(language) && Valid(Value(), language)
    }

    constructor (first: Language, interval: nat)
      requires GoodLanguage(first)
      ensures Good() && Value() == IDLE && language == first && timeout == interval
    {
      key, index, pending, advanced := 0, 0, false, false;
      language, timeout := first, interval;
    }

    method Cancel()
      modifies this`key, this`index, this`pending, this`advanced
      ensures Value() == IDLE
    {
      key, index, pending, advanced := 0, 0, false, false;
    }

    method SetLanguage(next: Language)
      requires GoodLanguage(next)
      modifies this
      ensures Good() && Value() == IDLE && language == next
    {
      Cancel();
      language := next;
    }

    method EmitPending(answer: Answer) returns (outcome: Outcome, sent: seq<nat>)
      requires |language| == KEYS
      modifies this`key, this`index, this`pending, this`advanced
      ensures Step(Value(), outcome, sent) == Commit(old(Value()), language, answer)
    {
      if !pending { return Pending, []; }
      sent := [CharacterAt(CharactersOf(language, key), index)];
      match answer
      case Accept => Cancel(); outcome := Committed;
      case Refuse => Cancel(); outcome := Rejected;
      case Block => outcome := Blocked;
    }

    method PressKey(pressed: nat, elapsed: nat, answer: Answer) returns (outcome: Outcome, sent: seq<nat>)
      requires Good()
      modifies this`key, this`index, this`pending, this`advanced
      ensures Good()
      ensures Step(Value(), outcome, sent) == Press(old(Value()), language, timeout, pressed, elapsed, answer)
    {
      StepsKeepValid(Value(), language, timeout, pressed, elapsed, [answer]);
      var characters := CharactersOf(language, pressed);
      outcome, sent := Pending, [];
      if characters == [] { return Ignored, []; }
      if pending && key == pressed && elapsed < timeout {
        index := index + 1;
        if CharacterAt(characters, index) == 0 { index := 0; }
        advanced := true;
        return;
      }
      if pending {
        outcome, sent := EmitPending(answer);
        if outcome != Committed { return; }
      }
      key, index, pending, advanced := pressed, 0, true, false;
    }

    method HoldKey(answers: seq<Answer>) returns (outcome: Outcome, sent: seq<nat>)
      requires Good()
      modifies this`key, this`index, this`pending, this`advanced
      ensures Good()
      ensures Step(Value(), outcome, sent) == Hold(old(Value()), language, answers)
    {
      StepsKeepValid(Value(), language, timeout, key, 0, answers);
      var held := key;
      var characters := CharactersOf(language, held);
      if !pending { return Ignored, []; }
      var digit := 0;
      while CharacterAt(characters, digit) != 0 && CharacterAt(characters, digit) != held
        invariant digit <= |characters| && forall k :: 0 <= k < digit ==> characters[k] != held
        decreases |characters| - digit
      {
        digit := digit + 1;
      }
      FoundIs(characters, held, digit);
      if CharacterAt(characters, digit) == 0 { return Ignored, []; }
      sent := [];
      if advanced {
        if index > 0 {
          index := index - 1;
        } else {
          while CharacterAt(characters, index + 1) != 0
            invariant index < |characters|
            modifies this`index
            decreases |characters| - index
          {
            index := index + 1;
          }
          assert index + 1 == |characters|;
        }
        advanced := false;
        outcome, sent := EmitPending(AnswerTo(answers, 0));
        if outcome != Committed { return; }
        key, pending := held, true;
        index := digit;
        var more: seq<nat>;
        outcome, more := EmitPending(AnswerTo(answers, 1));
        sent := sent + more;
      } else {
        index := digit;
        outcome, sent := EmitPending(AnswerTo(answers, 0));
      }
    }
  }

  lemma FoundIs(characters: Characters, c: nat, at: nat)
    requires 0 !in characters && at <= |characters| && forall k :: 0 <= k < at ==> characters[k] != c
    requires CharacterAt(characters, at) == 0 || CharacterAt(characters, at) == c
    ensures at == IndexOf(characters, c) && (CharacterAt(characters, at) == 0 <==> at == |characters|)
  {
    assert at < |characters| ==> characters[at] in characters;
  }
}
