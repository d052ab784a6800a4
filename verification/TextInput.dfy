/** The numeric-keypad policy: taps, holds, modes, the symbol picker and repeated clearing. */
module TextInput {
  import opened Arithmetic
  import opened Words
  import opened Multitap

  const COMMIT_MS: nat := 1000
  const HOLD_MS: nat := 500
  const REPEAT_MS: nat := 100
  const HASH: nat := 35
  const STAR: nat := 42
  const SYMBOLS: nat := 38
  const PICKER_COLUMNS: nat := 6

  datatype Case = Sentence | Lower | Upper
  datatype Gesture = Undecided | Tapped | Held

  datatype Mode = Mode(language: nat, letterCase: Case, numeric: bool, allowSentence: bool)
  /** A digit that is held, or 0, and since when. */
  datatype Digit = Digit(key: nat, ms: nat)
  /** A # or * that is held, or 0, since when, and what it turned out to be. */
  datatype Control = Control(key: nat, ms: nat, gesture: Gesture)
  datatype Clear = Clear(on: bool, ms: nat)
  datatype Picker = Picker(open: bool, index: nat, columns: nat)

  /** Everything but the language list. */
  datatype Input = Input(
    mode: Mode, tap: Tap, composeMs: nat, digit: Digit, control: Control, clear: Clear, picker: Picker)

  /** What a call leaves and returns, and the calls it made: characters first, then the erasure. */
  datatype Turn = Turn(input: Input, outcome: Outcome, sent: seq<nat>, erased: bool)

  type Languages = seq<Language>

  predicate GoodLanguages(languages: Languages) {
    |languages| > 0 && forall i :: 0 <= i < |languages| ==> GoodLanguage(languages[i])
  }

  predicate Ok(input: Input, languages: Languages) {
    && GoodLanguages(languages)
    && input.mode.language < |languages|
    && Valid(input.tap, languages[input.mode.language])
    && (input.digit.key == 0 || IsDigit(input.digit.key))
    && (input.control.key == 0 || input.control.key == HASH || input.control.key == STAR)
    && input.picker.index < SYMBOLS && 0 < input.picker.columns <= SYMBOLS
  }

  function FirstCase(mode: Mode): Case {
    if mode.allowSentence then Sentence else Lower
  }

  function Of(input: Input, languages: Languages): Language
    requires Ok(input, languages)
  {
    languages[input.mode.language]
  }

  // ---- The operations as functions of the answers they are given

  function CommitTurn(input: Input, languages: Languages, answers: seq<Answer>): Turn
    requires Ok(input, languages)
  {
    var step := Commit(input.tap, Of(input, languages), AnswerTo(answers, 0));
    Turn(if step.outcome == Blocked then input.(tap := step.tap) else input.(tap := step.tap, digit := Dropped(input.digit)),
         step.outcome, step.sent, false)
  }

  function Dropped(digit: Digit): Digit { digit.(key := 0) }

  function NextCase(mode: Mode): Case {
    match mode.letterCase
    case Upper => FirstCase(mode)
    case Lower => Upper
    case Sentence => Lower
  }

  /** # switches numbers when held, and otherwise leaves them or goes to the next case. */
  function HashMode(mode: Mode, gesture: Gesture): Mode {
    if gesture == Held then mode.(numeric := !mode.numeric)
    else if mode.numeric then mode.(numeric := false)
    else mode.(letterCase := NextCase(mode))
  }

  /** The next of a list, around its end. */
  function NextLanguage(language: nat, count: nat): nat {
    if language + 1 == count then 0 else language + 1
  }

  /** A decided # or *. A blocked commit keeps the key and its gesture for a retry. */
  function ControlTurn(input: Input, languages: Languages, answers: seq<Answer>): Turn
    requires Ok(input, languages)
  {
    var turn := CommitTurn(input, languages, answers);
    var done := turn.input.(control := input.control.(key := 0));
    if turn.outcome == Blocked then turn
    else if input.control.key == STAR && input.control.gesture == Tapped then turn.(input := done.(picker := Opened(input.picker)))
    else if input.control.key == HASH then turn.(input := done.(mode := HashMode(input.mode, input.control.gesture)))
    else
      var next := NextLanguage(input.mode.language, |languages|);
      turn.(input := done.(mode := input.mode.(language := next, numeric := false), tap := IDLE))
  }

  /** A gesture is decided once. */
  function Decided(input: Input, gesture: Gesture): Input {
    if input.control.gesture == Undecided then input.(control := input.control.(gesture := gesture)) else input
  }

  function Stopped(clear: Clear): Clear { clear.(on := false) }

  function Opened(picker: Picker): Picker { picker.(open := true, index := 0) }

  function OpenTurn(input: Input, languages: Languages, answers: seq<Answer>): Turn
    requires Ok(input, languages)
  {
    var turn := CommitTurn(input, languages, answers);
    if turn.outcome == Blocked then turn
    else turn.(input := turn.input.(control := input.control.(key := 0), picker := Opened(input.picker)))
  }

  function ComposeTurn(input: Input, languages: Languages, key: nat, now: nat, answers: seq<Answer>): Turn
    requires Ok(input, languages)
  {
    var elapsed := if now > input.composeMs then now - input.composeMs else 0;
    var step := Press(input.tap, Of(input, languages), COMMIT_MS, key, Min(elapsed, WORD - 1), AnswerTo(answers, 0));
    var after := input.(tap := step.tap);
    Turn(if step.outcome == Blocked then after else after.(composeMs := now), step.outcome, step.sent, false)
  }

  function Emitted(answer: Answer): Outcome {
    match answer case Accept => Committed case Refuse => Rejected case Block => Blocked
  }

  function PressTurn(input: Input, languages: Languages, key: nat, now: nat, answers: seq<Answer>): Turn
    requires Ok(input, languages)
  {
    if key == HASH || key == STAR then
      Turn(input.(control := Control(key, now, Undecided), digit := Dropped(input.digit), clear := Stopped(input.clear)),
           Pending, [], false)
    else if !IsDigit(key) then Turn(input, Ignored, [], false)
    else if input.mode.numeric then
      var turn := CommitTurn(input.(control := input.control.(key := 0)), languages, answers);
      if turn.outcome == Blocked then turn
      else turn.(outcome := Emitted(AnswerTo(answers, |turn.sent|)), sent := turn.sent + [key])
    else
      var turn := ComposeTurn(input.(control := input.control.(key := 0)), languages, key, now, answers);
      if turn.outcome != Blocked && turn.input.tap.pending then
        turn.(input := turn.input.(digit := Digit(key, now)))
      else turn
  }

  function HoldTurn(input: Input, languages: Languages, now: nat, answers: seq<Answer>): Turn
    requires Ok(input, languages)
  {
    if input.digit.key == 0 || now < input.digit.ms + HOLD_MS then Turn(input, Pending, [], false)
    else
      var step := Hold(input.tap, Of(input, languages), answers);
      var after := input.(tap := step.tap);
      Turn(if step.outcome == Blocked then after else after.(digit := Dropped(input.digit)), step.outcome, step.sent, false)
  }

  function ReleaseTurn(input: Input, languages: Languages, key: nat, now: nat, answers: seq<Answer>): Turn
    requires Ok(input, languages)
  {
    if input.control.key != 0 && input.control.key == key then
      ControlTurn(Decided(input, if now >= input.control.ms + HOLD_MS then Held else Tapped), languages, answers)
    else if input.digit.key == 0 || input.digit.key != key then Turn(input, Ignored, [], false)
    else
      var turn := HoldTurn(input, languages, now, answers);
      if turn.outcome == Blocked then turn else turn.(input := turn.input.(digit := Dropped(turn.input.digit)))
  }

  function Rest(answers: seq<Answer>, used: nat): seq<Answer> {
    if used <= |answers| then answers[used..] else []
  }

  /** The hold of # or * when its time has come. */
  function DueControl(before: Turn, languages: Languages, now: nat, answers: seq<Answer>): Turn
    requires Ok(before.input, languages)
  {
    var input := before.input;
    if input.control.key == 0 || now < input.control.ms + HOLD_MS then before
    else
      var turn := ControlTurn(Decided(input, Held), languages, Rest(answers, |before.sent|));
      turn.(sent := before.sent + turn.sent)
  }

  function DueCommit(before: Turn, languages: Languages, now: nat, answers: seq<Answer>): Turn
    requires Ok(before.input, languages)
  {
    var input := before.input;
    if input.digit.key != 0 || !input.tap.pending || now < input.composeMs + COMMIT_MS then before
    else
      var turn := CommitTurn(input, languages, Rest(answers, |before.sent|));
      turn.(sent := before.sent + turn.sent)
  }

  function DueClear(before: Turn, now: nat, erasing: Answer): Turn {
    var input := before.input;
    if !input.clear.on || now < input.clear.ms then before
    else if erasing == Block then before.(outcome := Blocked, erased := true)
    else before.(input := input.(clear := Clear(erasing == Accept, now + REPEAT_MS)), erased := true)
  }

  function TickTurn(input: Input, languages: Languages, now: nat, answers: seq<Answer>, erasing: Answer): Turn
    requires Ok(input, languages)
  {
    var held := HoldTurn(input, languages, now, answers);
    TurnsKeepOk(input, languages, now, answers);
    if held.outcome == Blocked then held
    else
      var control := DueControl(held, languages, now, answers);
      DueControlKeepsOk(held, languages, now, answers);
      if control.outcome == Blocked then control
      else
        var committed := DueCommit(control, languages, now, answers);
        if committed.outcome == Blocked then committed else DueClear(committed, now, erasing)
  }

  function Unheld(input: Input): Input {
    input.(digit := Dropped(input.digit), control := input.control.(key := 0))
  }

  function ClearPressTurn(input: Input, now: nat, erasing: Answer): Turn {
    Turn(if erasing == Block then input
         else Unheld(input).(clear := Clear(erasing == Accept, now + HOLD_MS)),
         Emitted(erasing), [], true)
  }

  /** The earliest time at which something is due. */
  function Deadline(input: Input): (deadline: Due)
    ensures deadline.Never? <==> input.digit.key == 0 && !input.tap.pending && input.control.key == 0 && !input.clear.on
  {
    var digit := if input.digit.key != 0 then At(input.digit.ms + HOLD_MS)
                 else if input.tap.pending then At(input.composeMs + COMMIT_MS) else Never;
    var control := if input.control.key != 0 then Earlier(digit, input.control.ms + HOLD_MS) else digit;
    if input.clear.on then Earlier(control, input.clear.ms) else control
  }

  datatype Due = Never | At(ms: nat)

  function Earlier(due: Due, ms: nat): Due {
    if due.Never? || ms < due.ms then At(ms) else due
  }

  predicate IsDue(due: Due, now: nat) { due.At? && due.ms <= now }

  // ---- Validity

  lemma ControlKeepsOk(input: Input, languages: Languages, answers: seq<Answer>)
    requires Ok(input, languages)
    ensures Ok(ControlTurn(input, languages, answers).input, languages)
  {
  }

  lemma TurnsKeepOk(input: Input, languages: Languages, now: nat, answers: seq<Answer>)
    requires Ok(input, languages)
    ensures Ok(CommitTurn(input, languages, answers).input, languages)
    ensures Ok(HoldTurn(input, languages, now, answers).input, languages)
  {
    StepsKeepValid(input.tap, Of(input, languages), COMMIT_MS, 0, 0, answers);
  }

  lemma DueControlKeepsOk(before: Turn, languages: Languages, now: nat, answers: seq<Answer>)
    requires Ok(before.input, languages)
    ensures Ok(DueControl(before, languages, now, answers).input, languages)
  {
    var input := before.input;
    ControlKeepsOk(Decided(input, Held), languages, Rest(answers, |before.sent|));
  }

  lemma PressKeepsOk(input: Input, languages: Languages, key: nat, now: nat, answers: seq<Answer>)
    requires Ok(input, languages)
    ensures Ok(PressTurn(input, languages, key, now, answers).input, languages)
  {
    var free := input.(control := input.control.(key := 0));
    if IsDigit(key) {
      if input.mode.numeric { TurnsKeepOk(free, languages, now, answers); }
      else { ComposeKeepsOk(free, languages, key, now, answers); }
    }
  }

  lemma ComposeKeepsOk(input: Input, languages: Languages, key: nat, now: nat, answers: seq<Answer>)
    requires Ok(input, languages)
    ensures Ok(ComposeTurn(input, languages, key, now, answers).input, languages)
  {
    var elapsed := if now > input.composeMs then now - input.composeMs else 0;
    StepsKeepValid(input.tap, Of(input, languages), COMMIT_MS, key, Min(elapsed, WORD - 1), answers);
  }

  lemma TickKeepsOk(input: Input, languages: Languages, now: nat, answers: seq<Answer>, erasing: Answer)
    requires Ok(input, languages)
    ensures Ok(TickTurn(input, languages, now, answers, erasing).input, languages)
  {
    var held := HoldTurn(input, languages, now, answers);
    TurnsKeepOk(input, languages, now, answers);
    DueControlKeepsOk(held, languages, now, answers);
    var control := DueControl(held, languages, now, answers);
    if held.outcome != Blocked && control.outcome != Blocked { DueCommitKeepsOk(control, languages, now, answers); }
  }

  lemma DueCommitKeepsOk(before: Turn, languages: Languages, now: nat, answers: seq<Answer>)
    requires Ok(before.input, languages)
    ensures Ok(DueCommit(before, languages, now, answers).input, languages)
  {
    TurnsKeepOk(before.input, languages, now, Rest(answers, |before.sent|));
  }

  datatype Op =
    | PressOp(key: nat, now: nat, answers: seq<Answer>)
    | ComposeOp(key: nat, now: nat, answers: seq<Answer>)
    | ReleaseOp(key: nat, now: nat, answers: seq<Answer>)
    | TickOp(now: nat, answers: seq<Answer>, erasing: Answer)
    | ClearPressOp(now: nat, erasing: Answer)
    | ClearReleaseOp
    | CancelOp
    | CancelHeldOp
    | ResetOp(numeric: bool)
    | OpenOp(answers: seq<Answer>)
    | ColumnsOp(columns: nat)
    | MoveOp(direction: Direction)

  function Do(input: Input, languages: Languages, op: Op): Input
    requires Ok(input, languages)
  {
    match op
    case PressOp(key, now, answers) => PressTurn(input, languages, key, now, answers).input
    case ComposeOp(key, now, answers) => ComposeTurn(input, languages, key, now, answers).input
    case ReleaseOp(key, now, answers) => ReleaseTurn(input, languages, key, now, answers).input
    case TickOp(now, answers, erasing) => TickTurn(input, languages, now, answers, erasing).input
    case ClearPressOp(now, erasing) => ClearPressTurn(input, now, erasing).input
    case ClearReleaseOp => input.(clear := Stopped(input.clear))
    case CancelOp => Unheld(input).(tap := IDLE)
    case CancelHeldOp => CancelledHeld(input)
    case ResetOp(numeric) =>
      CancelledHeld(input).(mode := input.mode.(language := 0, letterCase := FirstCase(input.mode), numeric := numeric), tap := IDLE)
    case OpenOp(answers) => OpenTurn(input, languages, answers).input
    case ColumnsOp(columns) => input.(picker := WithColumns(input.picker, columns))
    case MoveOp(direction) =>
      var picker := input.picker;
      input.(picker := picker.(index := Picked(picker.columns, picker.index, direction)))
  }

  function WithColumns(picker: Picker, columns: nat): Picker {
    picker.(columns := if 0 < columns <= SYMBOLS then columns else PICKER_COLUMNS)
  }

  function CancelledHeld(input: Input): Input {
    Unheld(input).(clear := Stopped(input.clear), picker := input.picker.(open := false))
  }

  /** Whatever is pressed, released or waited for, a pending index names a character of its key. */
  lemma StepKeepsOk(input: Input, languages: Languages, op: Op)
    requires Ok(input, languages)
    ensures Ok(Do(input, languages, op), languages)
  {
    match op
    case PressOp(key, now, answers) => PressKeepsOk(input, languages, key, now, answers);
    case ComposeOp(key, now, answers) => ComposeKeepsOk(input, languages, key, now, answers);
    case ReleaseOp(key, now, answers) => ReleaseKeepsOk(input, languages, key, now, answers);
    case TickOp(now, answers, erasing) => TickKeepsOk(input, languages, now, answers, erasing);
    case OpenOp(answers) => TurnsKeepOk(input, languages, 0, answers);
    case MoveOp(direction) => PickerMovesAreInverse(input.picker.columns, input.picker.index);
    case _ =>
  }

  lemma ReleaseKeepsOk(input: Input, languages: Languages, key: nat, now: nat, answers: seq<Answer>)
    requires Ok(input, languages)
    ensures Ok(ReleaseTurn(input, languages, key, now, answers).input, languages)
  {
    TurnsKeepOk(input, languages, now, answers);
    forall g: Gesture ensures Ok(ControlTurn(Decided(input, g), languages, answers).input, languages) {
      ControlKeepsOk(Decided(input, g), languages, answers);
    }
  }

  ghost predicate RunsTo(input: Input, languages: Languages, ops: seq<Op>, last: Input)
    decreases |ops|
  {
    Ok(input, languages)
      && if ops == [] then last == input else RunsTo(Do(input, languages, ops[0]), languages, ops[1..], last)
  }

  lemma {:induction false} RunKeepsOk(input: Input, languages: Languages, ops: seq<Op>)
    requires Ok(input, languages)
    ensures exists last :: RunsTo(input, languages, ops, last) && Ok(last, languages)
    decreases |ops|
  {
    if ops == [] {
      assert RunsTo(input, languages, ops, input);
    } else {
      StepKeepsOk(input, languages, ops[0]);
      RunKeepsOk(Do(input, languages, ops[0]), languages, ops[1..]);
      var last :| RunsTo(Do(input, languages, ops[0]), languages, ops[1..], last) && Ok(last, languages);
      assert RunsTo(input, languages, ops, last);
    }
  }

  // ---- Deadlines

  /** A tick before the deadline does nothing: no call and no change. */
  lemma TickBeforeTheDeadline(input: Input, languages: Languages, now: nat, answers: seq<Answer>, erasing: Answer)
    requires Ok(input, languages) && !IsDue(Deadline(input), now)
    ensures TickTurn(input, languages, now, answers, erasing) == Turn(input, Pending, [], false)
  {
  }

  /** Whether the digit's hold, the control's hold or the commit is due. */
  predicate DigitDue(input: Input, now: nat) { input.digit.key != 0 && now >= input.digit.ms + HOLD_MS }
  predicate ControlDue(input: Input, now: nat) { input.control.key != 0 && now >= input.control.ms + HOLD_MS }
  predicate CommitDue(input: Input, now: nat) {
    input.digit.key == 0 && input.tap.pending && now >= input.composeMs + COMMIT_MS
  }
  predicate ClearDue(input: Input, now: nat) { input.clear.on && now >= input.clear.ms }

  lemma DeadlineIsDue(input: Input, now: nat)
    ensures IsDue(Deadline(input), now)
      <==> DigitDue(input, now) || ControlDue(input, now) || CommitDue(input, now) || ClearDue(input, now)
  {
  }

  lemma HoldSettles(input: Input, languages: Languages, now: nat, answers: seq<Answer>)
    requires Ok(input, languages)
    ensures var turn := HoldTurn(input, languages, now, answers);
      && Ok(turn.input, languages) && turn.input.control == input.control && turn.input.clear == input.clear
      && turn.input.composeMs == input.composeMs
      && (turn.outcome == Blocked ==> turn.sent != [])
      && (turn.outcome != Blocked ==> !DigitDue(turn.input, now) && turn.input.digit.key in {0, input.digit.key})
      && (turn.outcome != Blocked && DigitDue(input, now) ==> turn.input.digit.key == 0)
      && (!DigitDue(input, now) ==> turn == Turn(input, Pending, [], false))
  {
    TurnsKeepOk(input, languages, now, answers);
  }

  lemma ControlSettles(before: Turn, languages: Languages, now: nat, answers: seq<Answer>)
    requires Ok(before.input, languages) && before.outcome != Blocked && !DigitDue(before.input, now)
    ensures var turn := DueControl(before, languages, now, answers);
      && Ok(turn.input, languages) && turn.input.clear == before.input.clear && |turn.sent| >= |before.sent|
      && (turn.outcome == Blocked ==> turn.sent != [])
      && (turn.outcome != Blocked ==> !DigitDue(turn.input, now) && !ControlDue(turn.input, now))
      && turn.input.digit.key in {0, before.input.digit.key}
      && (turn.outcome != Blocked && ControlDue(before.input, now) ==> turn.input.control.key == 0)
      && (!ControlDue(before.input, now) ==> turn == before)
  {
    DueControlKeepsOk(before, languages, now, answers);
  }

  lemma CommitSettles(before: Turn, languages: Languages, now: nat, answers: seq<Answer>)
    requires Ok(before.input, languages) && before.outcome != Blocked
    requires !DigitDue(before.input, now) && !ControlDue(before.input, now)
    ensures var turn := DueCommit(before, languages, now, answers);
      && turn.input.clear == before.input.clear && |turn.sent| >= |before.sent|
      && turn.input.digit == before.input.digit && turn.input.control == before.input.control
      && (CommitDue(before.input, now) ==> turn.sent != [])
      && (turn.outcome == Blocked ==> turn.sent != [])
      && (turn.outcome != Blocked ==> !CommitDue(turn.input, now))
  {
  }

  lemma ClearSettles(before: Turn, now: nat, erasing: Answer)
    ensures var turn := DueClear(before, now, erasing);
      && turn.input == before.input.(clear := turn.input.clear)
      && turn.sent == before.sent && (turn.erased <==> before.erased || ClearDue(before.input, now))
      && (turn.outcome != Blocked ==> !ClearDue(turn.input, now))
  {
  }

  /** A tick at the deadline makes a call or lets a key go; one that is not blocked leaves nothing due. */
  lemma TickSettlesWhatIsDue(input: Input, languages: Languages, now: nat, answers: seq<Answer>, erasing: Answer)
    requires Ok(input, languages)
    ensures var turn := TickTurn(input, languages, now, answers, erasing);
      && (turn.outcome != Blocked ==> !IsDue(Deadline(turn.input), now))
      && (IsDue(Deadline(input), now) ==>
            || turn.sent != [] || turn.erased
            || (input.digit.key != 0 && turn.input.digit.key == 0)
            || (input.control.key != 0 && turn.input.control.key == 0))
  {
    DeadlineIsDue(input, now);
    var held := HoldTurn(input, languages, now, answers);
    HoldSettles(input, languages, now, answers);
    if held.outcome != Blocked {
      var control := DueControl(held, languages, now, answers);
      ControlSettles(held, languages, now, answers);
      if control.outcome != Blocked {
        var committed := DueCommit(control, languages, now, answers);
        CommitSettles(control, languages, now, answers);
        ClearSettles(committed, now, erasing);
        DeadlineIsDue(DueClear(committed, now, erasing).input, now);
      }
    }
  }

  // ---- Gestures

  /**
   * A gesture is decided once. After a tick's blocked hold the release acts as a hold however early
   * or late it comes, and after a release's blocked tap a tick acts as the tap.
   */
  lemma GestureSurvivesBlocking(input: Input, languages: Languages, now: nat, later: nat, answers: seq<Answer>, retry: seq<Answer>)
    requires Ok(input, languages) && input.control.key != 0 && input.control.gesture == Undecided
    requires AnswerTo(answers, 0) == Block && input.tap.pending && input.digit.key == 0
    ensures now >= input.control.ms + HOLD_MS ==>
      var blocked := TickTurn(input, languages, now, answers, Block);
      && blocked.outcome == Blocked && blocked.input == Decided(input, Held)
      && ReleaseTurn(blocked.input, languages, input.control.key, later, retry)
           == ControlTurn(Decided(input, Held), languages, retry)
    ensures now < input.control.ms + HOLD_MS <= later ==>
      var blocked := ReleaseTurn(input, languages, input.control.key, now, answers);
      && blocked.outcome == Blocked && blocked.input == Decided(input, Tapped)
      && DueControl(Turn(blocked.input, Pending, [], false), languages, later, retry).input
           == ControlTurn(Decided(input, Tapped), languages, retry).input
  {
    assert Rest(answers, 0) == answers && Rest(retry, 0) == retry;
  }

  // ---- The symbol picker

  datatype Direction = Left | Right | Up | Down

  function LastInColumn(columns: nat, index: nat): (r: nat)
    requires 0 < columns
    ensures index <= r && (index < SYMBOLS ==> r < SYMBOLS && r + columns >= SYMBOLS)
    decreases SYMBOLS - index
  {
    if index + columns < SYMBOLS then LastInColumn(columns, index + columns) else index
  }

  function Picked(columns: nat, index: nat, direction: Direction): nat
    requires 0 < columns <= SYMBOLS && index < SYMBOLS
  {
    match direction
    case Left => if index > 0 then index - 1 else SYMBOLS - 1
    case Right => (index + 1) % SYMBOLS
    case Up => if index >= columns then index - columns else LastInColumn(columns, index)
    case Down => if index + columns < SYMBOLS then index + columns else index % columns
  }

  lemma {:induction false} LastIsInColumn(columns: nat, index: nat)
    requires 0 < columns && index < SYMBOLS
    ensures LastInColumn(columns, index) % columns == index % columns
    decreases SYMBOLS - index
  {
    if index + columns < SYMBOLS {
      LastIsInColumn(columns, index + columns);
      RemainderShift(index, columns);
    }
  }

  lemma RemainderShift(i: nat, n: nat)
    requires n > 0
    ensures (i + n) % n == i % n
  {
    QuotientBounds(i, n);
    assert (i / n + 1) * n == i / n * n + n;
    QuotientUnique(i, n, i / n);
    QuotientUnique(i + n, n, i / n + 1);
  }

  lemma SmallRemainder(i: nat, n: nat)
    requires i < n
    ensures i % n == i
  {
  }

  lemma SameRemainder(a: nat, b: nat, n: nat)
    requires n > 0 && a % n == b % n && a <= b < a + n
    ensures a == b
  {
    QuotientBounds(a, n);
    QuotientBounds(b, n);
    QuotientUnique(a, n, a / n);
    QuotientUnique(b, n, b / n);
    QuotientMonotone(a, b, n);
    if a / n < b / n { MulLess(a / n, b / n, n); }
  }

  lemma VerticalMoves(columns: nat, index: nat)
    requires 0 < columns <= SYMBOLS && index < SYMBOLS
    ensures var up, down := Picked(columns, index, Up), Picked(columns, index, Down);
      && up < SYMBOLS && down < SYMBOLS && up % columns == index % columns == down % columns
      && (down <= index ==> down < columns) && (up >= index ==> up + columns >= SYMBOLS && index < columns)
  {
    RemainderShift(index, columns);
    QuotientBounds(index, columns);
    SmallRemainder(index % columns, columns);
    if index >= columns { RemainderShift(index - columns, columns); } else { LastIsInColumn(columns, index); }
  }

  lemma LastIsLast(columns: nat, first: nat, index: nat)
    requires 0 < columns && first <= index < SYMBOLS <= index + columns && first % columns == index % columns
    ensures LastInColumn(columns, first) == index
  {
    LastIsInColumn(columns, first);
    var last := LastInColumn(columns, first);
    if last <= index { SameRemainder(last, index, columns); } else { SameRemainder(index, last, columns); }
  }

  lemma DownUndoesUp(columns: nat, index: nat)
    requires 0 < columns <= SYMBOLS && index < SYMBOLS
    ensures Picked(columns, Picked(columns, index, Up), Down) == index
  {
    if index < columns {
      LastIsInColumn(columns, index);
      SmallRemainder(index, columns);
    }
  }

  lemma UpUndoesDown(columns: nat, index: nat)
    requires 0 < columns <= SYMBOLS && index < SYMBOLS
    ensures Picked(columns, Picked(columns, index, Down), Up) == index
  {
    if index + columns >= SYMBOLS { UpFromTheFirst(columns, index, index % columns); }
  }

  lemma UpFromTheFirst(columns: nat, index: nat, first: nat)
    requires 0 < columns <= SYMBOLS && index < SYMBOLS <= index + columns && first == index % columns
    ensures first <= index && Picked(columns, first, Up) == index
  {
    QuotientBounds(index, columns);
    SmallRemainder(first, columns);
    LastIsLast(columns, first, index);
  }

  /** Vertical moves wrap in their column and horizontal moves around all symbols; opposite moves undo each other. */
  lemma PickerMovesAreInverse(columns: nat, index: nat)
    requires 0 < columns <= SYMBOLS && index < SYMBOLS
    ensures forall d :: Picked(columns, index, d) < SYMBOLS
    ensures Picked(columns, index, Up) % columns == index % columns == Picked(columns, index, Down) % columns
    ensures Picked(columns, Picked(columns, index, Up), Down) == index
    ensures Picked(columns, Picked(columns, index, Down), Up) == index
    ensures Picked(columns, Picked(columns, index, Left), Right) == index
    ensures Picked(columns, Picked(columns, index, Right), Left) == index
    ensures index + 1 < SYMBOLS ==> Picked(columns, index, Right) == index + 1
    ensures index + columns < SYMBOLS ==> Picked(columns, index, Down) == index + columns
  {
    assert Picked(columns, index, Up) % columns == index % columns == Picked(columns, index, Down) % columns
      && Picked(columns, index, Up) < SYMBOLS && Picked(columns, index, Down) < SYMBOLS
    by { VerticalMoves(columns, index); }
    assert Picked(columns, Picked(columns, index, Up), Down) == index by { DownUndoesUp(columns, index); }
    assert Picked(columns, Picked(columns, index, Down), Up) == index by { UpUndoesDown(columns, index); }
    HorizontalMoves(columns, index);
  }

  lemma HorizontalMoves(columns: nat, index: nat)
    requires 0 < columns <= SYMBOLS && index < SYMBOLS
    ensures Picked(columns, index, Left) < SYMBOLS && Picked(columns, index, Right) < SYMBOLS
    ensures Picked(columns, Picked(columns, index, Left), Right) == index
    ensures Picked(columns, Picked(columns, index, Right), Left) == index
    ensures index + 1 < SYMBOLS ==> Picked(columns, index, Right) == index + 1
  {
  }
}
