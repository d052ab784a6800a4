/** What the gestures on the keypad type and switch: taps and holds of a digit, of # and of *. */
module KeypadLaws {
  import opened Arithmetic
  import opened Words
  import opened Multitap
  import opened TextInput

  /** A key's press and release with nothing between them: what they leave, and what they send. */
  function Stroke(input: Input, languages: Languages, key: nat, at: nat, until: nat, answers: seq<Answer>): (Input, seq<nat>)
    requires Ok(input, languages)
  {
    var press := PressTurn(input, languages, key, at, answers);
    PressKeepsOk(input, languages, key, at, answers);
    var release := ReleaseTurn(press.input, languages, key, until, Rest(answers, |press.sent|));
    (release.input, press.sent + release.sent)
  }

  lemma StrokeKeepsOk(input: Input, languages: Languages, key: nat, at: nat, until: nat, answers: seq<Answer>)
    requires Ok(input, languages)
    ensures Ok(Stroke(input, languages, key, at, until, answers).0, languages)
  {
    var press := PressTurn(input, languages, key, at, answers);
    PressKeepsOk(input, languages, key, at, answers);
    ReleaseKeepsOk(press.input, languages, key, until, Rest(answers, |press.sent|));
  }

  ghost predicate Accepting(answers: seq<Answer>) {
    forall k :: AnswerTo(answers, k) == Accept || k >= 3
  }

  /** What is being composed, which the next gesture sends first. */
  function Composed(input: Input, languages: Languages): seq<nat>
    requires Ok(input, languages)
  {
    if input.tap.pending then [Candidate(input.tap, Of(input, languages))] else []
  }

  lemma CommitSends(input: Input, languages: Languages, answers: seq<Answer>)
    requires Ok(input, languages) && AnswerTo(answers, 0) == Accept
    ensures var turn := CommitTurn(input, languages, answers);
      && turn.sent == Composed(input, languages) && turn.outcome != Blocked && !turn.input.tap.pending
      && turn.input == input.(tap := turn.input.tap, digit := Dropped(input.digit))
  {
  }

  // ---- The # key

  /** The letter cases in the order in which taps of # go through them. */
  function Cases(allowSentence: bool): seq<Case> {
    if allowSentence then [Sentence, Lower, Upper] else [Lower, Upper]
  }

  /** The place after another, around the end. */
  function Around(k: nat, n: nat): nat {
    if k + 1 == n then 0 else k + 1
  }

  /** What a decided # leaves: the mode changed, what was composed sent, nothing held. */
  lemma HashTurnMeans(input: Input, languages: Languages, gesture: Gesture, answers: seq<Answer>)
    requires Ok(input, languages) && AnswerTo(answers, 0) == Accept && gesture != Undecided
    requires input.control.key == HASH && input.control.gesture == gesture && input.digit.key == 0
    ensures var turn := ControlTurn(input, languages, answers);
      && turn.sent == Composed(input, languages) && !turn.input.tap.pending
      && turn.input.control.key == 0 && turn.input.digit.key == 0 && turn.input.picker == input.picker
      && turn.input.mode == HashMode(input.mode, gesture)
  {
    CommitSends(input, languages, answers);
  }

  lemma HashModeMeans(mode: Mode, gesture: Gesture, k: nat)
    requires gesture != Undecided && k < |Cases(mode.allowSentence)| && mode.letterCase == Cases(mode.allowSentence)[k]
    ensures var now, cases := HashMode(mode, gesture), Cases(mode.allowSentence);
      && now.numeric == (!mode.numeric && gesture == TextInput.Held)
      && now.letterCase == cases[if !mode.numeric && gesture == Tapped then Around(k, |cases|) else k]
      && now.language == mode.language && now.allowSentence == mode.allowSentence
  {
  }

  /** A tap of # ends the numbers, or else goes to the next case; a hold switches the numbers. */
  lemma HashMeans(input: Input, languages: Languages, at: nat, until: nat, answers: seq<Answer>, k: nat)
    requires Ok(input, languages) && at <= until && AnswerTo(answers, 0) == Accept
    requires k < |Cases(input.mode.allowSentence)| && input.mode.letterCase == Cases(input.mode.allowSentence)[k]
    ensures var (now, sent) := Stroke(input, languages, HASH, at, until, answers);
      var cases, steps := Cases(input.mode.allowSentence), !input.mode.numeric && until < at + HOLD_MS;
      && sent == Composed(input, languages) && !now.tap.pending && now.control.key == 0 && now.digit.key == 0
      && now.mode.numeric == (!input.mode.numeric && until >= at + HOLD_MS)
      && now.mode.letterCase == cases[if steps then Around(k, |cases|) else k]
      && now.mode.language == input.mode.language && now.mode.allowSentence == input.mode.allowSentence
      && now.picker == input.picker
  {
    var pressed := PressTurn(input, languages, HASH, at, answers);
    assert Rest(answers, 0) == answers;
    var gesture := if until >= at + HOLD_MS then TextInput.Held else Tapped;
    HashTurnMeans(Decided(pressed.input, gesture), languages, gesture, answers);
    HashModeMeans(input.mode, gesture, k);
  }

  /** Taps of #, one after another. */
  function HashTaps(input: Input, languages: Languages, at: nat, times: nat): (now: Input)
    requires Ok(input, languages)
    ensures Ok(now, languages)
  {
    if times == 0 then input
    else
      var before := HashTaps(input, languages, at, times - 1);
      StrokeKeepsOk(before, languages, HASH, at, at, [Accept]);
      Stroke(before, languages, HASH, at, at, [Accept]).0
  }

  lemma HashTapMeans(input: Input, languages: Languages, at: nat, k: nat)
    requires Ok(input, languages) && !input.mode.numeric
    requires k < |Cases(input.mode.allowSentence)| && input.mode.letterCase == Cases(input.mode.allowSentence)[k]
    ensures var cases := Cases(input.mode.allowSentence);
      Stroke(input, languages, HASH, at, at, [Accept]).0.mode == input.mode.(letterCase := cases[Around(k, |cases|)])
  {
    HashMeans(input, languages, at, at, [Accept], k);
  }

  function Place(k: nat, times: nat, n: nat): nat {
    if times == 0 then k else Around(Place(k, times - 1, n), n)
  }

  lemma {:induction false} PlaceIsRemainder(k: nat, times: nat, n: nat)
    requires k < n
    ensures Place(k, times, n) == (k + times) % n
  {
    if times == 0 {
      QuotientUnique(k, n, 0);
    } else {
      PlaceIsRemainder(k, times - 1, n);
      CycleNext(k + times - 1, n);
    }
  }

  lemma {:induction false} HashTapsGoOn(input: Input, languages: Languages, at: nat, times: nat, k: nat)
    requires Ok(input, languages) && !input.mode.numeric
    requires k < |Cases(input.mode.allowSentence)| && input.mode.letterCase == Cases(input.mode.allowSentence)[k]
    ensures var cases, place := Cases(input.mode.allowSentence), Place(k, times, |Cases(input.mode.allowSentence)|);
      place < |cases| && HashTaps(input, languages, at, times).mode == input.mode.(letterCase := cases[place])
  {
    if times > 0 {
      HashTapsGoOn(input, languages, at, times - 1, k);
      HashTapMeans(HashTaps(input, languages, at, times - 1), languages, at, Place(k, times - 1, |Cases(input.mode.allowSentence)|));
    }
  }

  /** Taps of # go around the cases: three of them, or two without sentences, come back. */
  lemma HashTapsCycle(input: Input, languages: Languages, at: nat, times: nat, k: nat)
    requires Ok(input, languages) && !input.mode.numeric
    requires k < |Cases(input.mode.allowSentence)| && input.mode.letterCase == Cases(input.mode.allowSentence)[k]
    ensures var cases := Cases(input.mode.allowSentence);
            HashTaps(input, languages, at, times).mode == input.mode.(letterCase := cases[(k + times) % |cases|])
  {
    HashTapsGoOn(input, languages, at, times, k);
    PlaceIsRemainder(k, times, |Cases(input.mode.allowSentence)|);
  }

  // ---- The * key

  /** A tap of * opens the symbols; a hold goes to the next language, around their end. */
  lemma StarMeans(input: Input, languages: Languages, at: nat, until: nat, answers: seq<Answer>)
    requires Ok(input, languages) && at <= until && AnswerTo(answers, 0) == Accept
    ensures var (now, sent) := Stroke(input, languages, STAR, at, until, answers);
      && sent == Composed(input, languages) && !now.tap.pending && now.control.key == 0 && now.digit.key == 0
      && (if until < at + HOLD_MS then now.mode == input.mode && now.picker == input.picker.(open := true, index := 0)
          else
            && now.mode == input.mode.(numeric := false, language := (input.mode.language + 1) % |languages|)
            && now.picker == input.picker)
  {
    var pressed := PressTurn(input, languages, STAR, at, answers);
    assert Rest(answers, 0) == answers;
    var held := until >= at + HOLD_MS;
    CommitSends(Decided(pressed.input, if held then TextInput.Held else Tapped), languages, answers);
    if input.mode.language + 1 == |languages| {
      QuotientUnique(|languages|, |languages|, 1);
    } else {
      QuotientUnique(input.mode.language + 1, |languages|, 0);
    }
  }

  // ---- The digits

  /** Among numbers a digit sends what is being composed, and itself. */
  lemma NumericDigitMeans(input: Input, languages: Languages, key: nat, at: nat, until: nat, answers: seq<Answer>)
    requires Ok(input, languages) && input.mode.numeric && IsDigit(key) && Accepting(answers) && input.digit.key == 0
    ensures var (now, sent) := Stroke(input, languages, key, at, until, answers);
      sent == Composed(input, languages) + [key] && !now.tap.pending && now.mode == input.mode
  {
    assert AnswerTo(answers, 0) == AnswerTo(answers, 1) == Accept;
    CommitSends(input.(control := input.control.(key := 0)), languages, answers);
  }

  /** What a digit's press composes next: the key's next character in time, and otherwise its first. */
  predicate Again(input: Input, key: nat, at: nat) {
    input.tap.pending && input.tap.key == key && at < input.composeMs + COMMIT_MS
  }

  /**
   Among letters a digit composes a character, the next one of its key when it comes in time, and
   otherwise its first, once what was composed is sent.
   */
  lemma DigitPressMeans(input: Input, languages: Languages, key: nat, at: nat, answers: seq<Answer>)
    requires Ok(input, languages) && !input.mode.numeric && IsDigit(key) && Accepting(answers)
    ensures var turn, characters := PressTurn(input, languages, key, at, answers), CharactersOf(Of(input, languages), key);
      && turn.sent == (if Again(input, key, at) then [] else Composed(input, languages))
      && Ok(turn.input, languages) && turn.input.mode == input.mode
      && turn.input.tap.key == key && turn.input.tap.pending && turn.input.digit == Digit(key, at) && turn.input.composeMs == at
      && turn.input.tap.index == (if Again(input, key, at) then (input.tap.index + 1) % |characters| else 0)
      && turn.input.tap.advanced == Again(input, key, at) && turn.input.control.key == 0
  {
    assert AnswerTo(answers, 0) == Accept;
    var characters := CharactersOf(Of(input, languages), key);
    assert characters == Of(input, languages)[key - ZERO];
    PressKeepsOk(input, languages, key, at, answers);
    if Again(input, key, at) {
      assert input.tap.index + 1 < |characters| ==> characters[input.tap.index + 1] in characters;
      QuotientUnique(input.tap.index + 1, |characters|, if input.tap.index + 1 == |characters| then 1 else 0);
    }
  }

  /** A digit let go early stays composed. */
  lemma DigitTapMeans(input: Input, languages: Languages, key: nat, at: nat, until: nat, answers: seq<Answer>)
    requires Ok(input, languages) && !input.mode.numeric && IsDigit(key) && Accepting(answers) && until < at + HOLD_MS
    ensures var (now, sent) := Stroke(input, languages, key, at, until, answers);
      var characters := CharactersOf(Of(input, languages), key);
      && sent == (if Again(input, key, at) then [] else Composed(input, languages))
      && now.mode == input.mode && Ok(now, languages) && |characters| > 0
      && Composed(now, languages) == [characters[if Again(input, key, at) then (input.tap.index + 1) % |characters| else 0]]
  {
    DigitPressMeans(input, languages, key, at, answers);
    var press := PressTurn(input, languages, key, at, answers).input;
    assert Valid(press.tap, Of(press, languages));
  }

  /** A held digit sends itself, after what was composed before it. */
  lemma DigitHoldMeans(input: Input, languages: Languages, key: nat, at: nat, until: nat, answers: seq<Answer>)
    requires Ok(input, languages) && !input.mode.numeric && IsDigit(key) && Accepting(answers) && until >= at + HOLD_MS
    ensures var (now, sent) := Stroke(input, languages, key, at, until, answers);
      sent == Composed(input, languages) + [key] && !now.tap.pending && now.mode == input.mode
  {
    DigitPressMeans(input, languages, key, at, answers);
    var turn := PressTurn(input, languages, key, at, answers);
    var press, rest, language := turn.input, Rest(answers, |turn.sent|), Of(input, languages);
    AcceptingRest(answers, |turn.sent|);
    if Again(input, key, at) {
      assert press.tap == Press(input.tap, language, COMMIT_MS, key, 0, Block).tap;
      HoldReplacesThePress(input.tap, language, COMMIT_MS, 0, rest);
    } else {
      HoldGivesTheDigit(press.tap, language, rest);
    }
  }

  lemma AcceptingRest(answers: seq<Answer>, used: nat)
    requires Accepting(answers) && used <= 1
    ensures AnswerTo(Rest(answers, used), 0) == AnswerTo(Rest(answers, used), 1) == Accept
  {
    assert AnswerTo(answers, 0) == AnswerTo(answers, 1) == AnswerTo(answers, 2) == Accept;
  }

  /** A composed character that is left alone is sent after a second. */
  lemma LeftAloneIsSent(input: Input, languages: Languages, now: nat, answers: seq<Answer>, erasing: Answer)
    requires Ok(input, languages) && input.tap.pending && input.digit.key == 0 && input.control.key == 0
    requires now >= input.composeMs + COMMIT_MS && AnswerTo(answers, 0) == Accept
    ensures var turn := TickTurn(input, languages, now, answers, erasing);
      turn.sent == Composed(input, languages) && !turn.input.tap.pending && turn.input.mode == input.mode
  {
    assert Rest(answers, 0) == answers;
    CommitSends(input, languages, answers);
  }

  // ---- Clearing

  /** Ticks at the times at which the clearing is due, each erasure accepted. */
  function Erasures(input: Input, languages: Languages, times: nat): Input
    requires Ok(input, languages)
    decreases times
  {
    if times == 0 then input
    else
      StepKeepsOk(input, languages, TickOp(input.clear.ms, [], Accept));
      Erasures(Do(input, languages, TickOp(input.clear.ms, [], Accept)), languages, times - 1)
  }

  /** A held clear key erases at once, again after half a second, and from then on ten times a second. */
  lemma {:induction false} ClearRepeats(input: Input, languages: Languages, at: nat, times: nat)
    requires Ok(input, languages) && !input.tap.pending
    ensures var first := ClearPressTurn(input, at, Accept);
      && first.erased && Ok(first.input, languages) && first.outcome == Committed
      && var now := Erasures(first.input, languages, times);
         now == first.input.(clear := Clear(true, at + HOLD_MS + times * REPEAT_MS))
  {
    ErasuresRepeat(ClearPressTurn(input, at, Accept).input, languages, times);
  }

  lemma {:induction false} ErasuresRepeat(input: Input, languages: Languages, times: nat)
    requires Ok(input, languages) && !input.tap.pending && input.clear.on && input.digit.key == 0 && input.control.key == 0
    ensures Erasures(input, languages, times) == input.(clear := Clear(true, input.clear.ms + times * REPEAT_MS))
    decreases times
  {
    if times > 0 {
      ErasesWhenDue(input, languages, input.clear.ms, Accept);
      StepKeepsOk(input, languages, TickOp(input.clear.ms, [], Accept));
      ErasuresRepeat(Do(input, languages, TickOp(input.clear.ms, [], Accept)), languages, times - 1);
    }
  }

  /** An erasure that is refused is the last; a blocked one is tried again. */
  lemma ErasesWhenDue(input: Input, languages: Languages, now: nat, erasing: Answer)
    requires Ok(input, languages) && !input.tap.pending && input.digit.key == 0 && input.control.key == 0
    ensures var turn := TickTurn(input, languages, now, [], erasing);
      && turn.sent == [] && (turn.erased <==> input.clear.on && now >= input.clear.ms)
      && turn.input == if turn.erased && erasing != Block
                       then input.(clear := Clear(erasing == Accept, now + REPEAT_MS)) else input
  {
  }
}
