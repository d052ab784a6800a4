/** The text input as it changes in place, call by call. */
module Keypad {
  import opened Arithmetic
  import opened Words
  import opened Multitap
  import opened TextInput

  class Keypad {
    const languages: Languages
    const composer: Composer
    var mode: Mode
    var composeMs: nat
    var digit: Digit
    var control: Control
    var clear: Clear
    var picker: Picker

    ghost function Value(): Input
      reads this, composer
    {
      Input(mode, composer.Value(), composeMs, digit, control, clear, picker)
    }

    ghost predicate Good()
      reads this, composer
    {
      && Ok(Value(), languages) && composer.Good()
      && composer.language == languages[mode.language] && composer.timeout == COMMIT_MS
    }

    constructor (available: Languages, allowSentence: bool)
      requires GoodLanguages(available)
      ensures Good() && fresh(composer) && Deadline(Value()) == Never && !picker.open
      ensures mode == Mode(0, if allowSentence then Sentence else Lower, false, allowSentence)
    {
      languages := available;
      composer := new Composer(available[0], COMMIT_MS);
      mode := Mode(0, if allowSentence then Sentence else Lower, false, allowSentence);
      composeMs, digit, control, clear := 0, Digit(0, 0), Control(0, 0, Undecided), Clear(false, 0);
      picker := Picker(false, 0, PICKER_COLUMNS);
    }

    method DropDigit()
      modifies this`digit
      ensures digit == Dropped(old(digit))
    {
      digit := digit.(key := 0);
    }

    method DropControl()
      modifies this`control
      ensures control == old(control).(key := 0)
    {
      control := control.(key := 0);
    }

    method CommitPending(answers: seq<Answer>) returns (outcome: Outcome, sent: seq<nat>)
      requires Good()
      modifies this`digit, composer
      ensures Good() && composer.language == old(composer.language)
      ensures Turn(Value(), outcome, sent, false) == CommitTurn(old(Value()), languages, answers)
    {
      TurnsKeepOk(Value(), languages, 0, answers);
      outcome, sent := composer.EmitPending(AnswerTo(answers, 0));
      if outcome != Blocked { DropDigit(); }
    }

    method OpenPicker(answers: seq<Answer>) returns (outcome: Outcome, sent: seq<nat>)
      requires Good()
      modifies this`digit, this`control, this`picker, composer
      ensures Good()
      ensures Turn(Value(), outcome, sent, false) == OpenTurn(old(Value()), languages, answers)
    {
      outcome, sent := CommitPending(answers);
      if outcome != Blocked {
        DropControl();
        picker := picker.(open := true, index := 0);
      }
    }

    method ControlAction(answers: seq<Answer>) returns (outcome: Outcome, sent: seq<nat>)
      requires Good()
      modifies this, composer
      ensures Good()
      ensures Turn(Value(), outcome, sent, false) == ControlTurn(old(Value()), languages, answers)
    {
      ControlKeepsOk(Value(), languages, answers);
      if control.key == STAR && control.gesture == Tapped {
        outcome, sent := OpenPicker(answers);
        return;
      }
      outcome, sent := CommitPending(answers);
      if outcome == Blocked { return; }
      if control.key == HASH {
        if control.gesture == Held { mode := mode.(numeric := !mode.numeric); }
        else if mode.numeric { mode := mode.(numeric := false); }
        else { mode := mode.(letterCase := NextCase(mode)); }
      } else {
        NextIsRemainder(mode.language, |languages|);
        mode := mode.(language := (mode.language + 1) % |languages|, numeric := false);
        composer.SetLanguage(languages[mode.language]);
      }
      DropControl();
    }

    method Compose(key: nat, now: nat, answers: seq<Answer>) returns (outcome: Outcome, sent: seq<nat>)
      requires Good()
      modifies this`composeMs, composer
      ensures Good()
      ensures Turn(Value(), outcome, sent, false) == ComposeTurn(old(Value()), languages, key, now, answers)
    {
      StepKeepsOk(Value(), languages, ComposeOp(key, now, answers));
      var elapsed := if now > composeMs then now - composeMs else 0;
      outcome, sent := composer.PressKey(key, if elapsed > WORD - 1 then WORD - 1 else elapsed, AnswerTo(answers, 0));
      if outcome != Blocked { composeMs := now; }
    }

    method PressKey(key: nat, now: nat, answers: seq<Answer>) returns (outcome: Outcome, sent: seq<nat>)
      requires Good()
      modifies this, composer
      ensures Good()
      ensures Turn(Value(), outcome, sent, false) == PressTurn(old(Value()), languages, key, now, answers)
    {
      PressKeepsOk(Value(), languages, key, now, answers);
      if key == HASH || key == STAR {
        control := Control(key, now, Undecided);
        DropDigit();
        clear := clear.(on := false);
        return Pending, [];
      }
      if !IsDigit(key) { return Ignored, []; }
      DropControl();
      if mode.numeric {
        outcome, sent := CommitPending(answers);
        if outcome == Blocked { return; }
        outcome, sent := Emitted(AnswerTo(answers, |sent|)), sent + [key];
        return;
      }
      outcome, sent := Compose(key, now, answers);
      if outcome != Blocked && composer.pending { digit := Digit(key, now); }
    }

    method HoldDigit(now: nat, answers: seq<Answer>) returns (outcome: Outcome, sent: seq<nat>)
      requires Good()
      modifies this`digit, composer
      ensures Good()
      ensures Turn(Value(), outcome, sent, false) == HoldTurn(old(Value()), languages, now, answers)
    {
      TurnsKeepOk(Value(), languages, now, answers);
      if digit.key == 0 || now < digit.ms + HOLD_MS { return Pending, []; }
      outcome, sent := composer.HoldKey(answers);
      if outcome != Blocked { DropDigit(); }
    }

    method Decide(gesture: Gesture)
      modifies this`control
      ensures Value() == Decided(old(Value()), gesture)
    {
      if control.gesture == Undecided { control := control.(gesture := gesture); }
    }

    method Release(key: nat, now: nat, answers: seq<Answer>) returns (outcome: Outcome, sent: seq<nat>)
      requires Good()
      modifies this, composer
      ensures Good()
      ensures Turn(Value(), outcome, sent, false) == ReleaseTurn(old(Value()), languages, key, now, answers)
    {
      if control.key != 0 && control.key == key {
        Decide(if now >= control.ms + HOLD_MS then Held else Tapped);
        outcome, sent := ControlAction(answers);
        return;
      }
      if digit.key == 0 || digit.key != key { return Ignored, []; }
      outcome, sent := HoldDigit(now, answers);
      if outcome != Blocked { DropDigit(); }
    }

    method ClearPress(now: nat, erasing: Answer) returns (outcome: Outcome)
      requires Good()
      modifies this
      ensures Good()
      ensures Turn(Value(), outcome, [], true) == ClearPressTurn(old(Value()), now, erasing)
    {
      if erasing != Block {
        DropDigit();
        DropControl();
        clear := Clear(erasing == Accept, now + HOLD_MS);
      }
      outcome := Emitted(erasing);
    }

    /** What is due, in order: the digit's hold, the control's, the commit and the clearing. */
    method Tick(now: nat, answers: seq<Answer>, erasing: Answer) returns (outcome: Outcome, sent: seq<nat>, erased: bool)
      requires Good()
      modifies this, composer
      ensures Good()
      ensures Turn(Value(), outcome, sent, erased) == TickTurn(old(Value()), languages, now, answers, erasing)
      ensures !IsDue(Deadline(old(Value())), now) ==> Value() == old(Value()) && sent == [] && !erased
      ensures outcome != Blocked ==> !IsDue(Deadline(Value()), now)
    {
      ghost var was := Value();
      TickSettlesWhatIsDue(was, languages, now, answers, erasing);
      if !IsDue(Deadline(was), now) { TickBeforeTheDeadline(was, languages, now, answers, erasing); }
      outcome, sent := HoldDigit(now, answers);
      erased := false;
      if outcome == Blocked { return; }
      outcome, sent := TickControl(now, answers, outcome, sent);
      if outcome == Blocked { return; }
      outcome, sent := TickCommit(now, answers, outcome, sent);
      if outcome == Blocked { return; }
      if clear.on && now >= clear.ms {
        erased := true;
        if erasing == Block { outcome := Blocked; return; }
        clear := Clear(erasing == Accept, now + REPEAT_MS);
      }
    }

    method TickControl(now: nat, answers: seq<Answer>, before: Outcome, already: seq<nat>)
      returns (outcome: Outcome, sent: seq<nat>)
      requires Good()
      modifies this, composer
      ensures Good()
      ensures Turn(Value(), outcome, sent, false)
        == DueControl(Turn(old(Value()), before, already, false), languages, now, answers)
    {
      outcome, sent := before, already;
      if control.key != 0 && now >= control.ms + HOLD_MS {
        Decide(Held);
        outcome, sent := ControlAction(Rest(answers, |already|));
        sent := already + sent;
      }
    }

    method TickCommit(now: nat, answers: seq<Answer>, before: Outcome, already: seq<nat>)
      returns (outcome: Outcome, sent: seq<nat>)
      requires Good()
      modifies this`digit, composer
      ensures Good()
      ensures Turn(Value(), outcome, sent, false)
        == DueCommit(Turn(old(Value()), before, already, false), languages, now, answers)
    {
      outcome, sent := before, already;
      if digit.key == 0 && composer.pending && now >= composeMs + COMMIT_MS {
        outcome, sent := CommitPending(Rest(answers, |already|));
        sent := already + sent;
      }
    }

    method CancelHeld()
      requires Good()
      modifies this
      ensures Good() && Value() == CancelledHeld(old(Value()))
    {
      DropDigit();
      DropControl();
      clear := clear.(on := false);
      picker := picker.(open := false);
    }

    method ResetMode(numeric: bool)
      requires Good()
      modifies this, composer
      ensures Good() && Value() == Do(old(Value()), languages, ResetOp(numeric))
    {
      mode := Mode(0, FirstCase(mode), numeric, mode.allowSentence);
      DropDigit();
      DropControl();
      clear := clear.(on := false);
      picker := picker.(open := false);
      composer.SetLanguage(languages[0]);
    }

    method MovePicker(direction: Direction)
      requires Good()
      modifies this`picker
      ensures Good() && Value() == Do(old(Value()), languages, MoveOp(direction))
    {
      PickerMovesAreInverse(picker.columns, picker.index);
      var columns, index := picker.columns, picker.index;
      match direction {
        case Left => index := if index > 0 then index - 1 else SYMBOLS - 1;
        case Right => index := (index + 1) % SYMBOLS;
        case Up =>
          if index >= columns {
            index := index - columns;
          } else {
            while index + columns < SYMBOLS
              invariant index < SYMBOLS && LastInColumn(columns, index) == LastInColumn(columns, picker.index)
            {
              index := index + columns;
            }
            assert index == LastInColumn(columns, picker.index);
          }
        case Down => index := if index + columns < SYMBOLS then index + columns else index % columns;
      }
      picker := picker.(index := index);
    }
  }

  lemma NextIsRemainder(i: nat, n: nat)
    requires i < n
    ensures (i + 1) % n == NextLanguage(i, n)
  {
    if i + 1 == n { QuotientUnique(n, n, 1); } else { QuotientUnique(i + 1, n, 0); }
  }
}
