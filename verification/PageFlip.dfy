/**
 * Two pages of one display buffer: the program draws into one while the display scans out the
 * other. The display session queues flips; the GPU output draws, lends the page to the CPU and
 * presents it. Every call into the kernel and the GPU can fail.
 */
module PageFlip {

  type Page = p: nat | p < 2

  function Other(page: Page): Page { 1 - page }

  /**
   * The session's fields. `exposed` is not one of them: the pages that the display scans out, or
   * may come to scan out because of a commit that was submitted.
   */
  datatype Session = Session(
    fence: bool, pendingPage: Page, shownPage: Page, presented: bool, error: bool, active: bool,
    exposed: set<Page>)

  /**
   * The output's fields, and besides them the pages that the GPU may still be drawing into and how
   * often a write to a page was begun.
   */
  datatype Output = Output(page: Page, ready: bool, cpuAccess: bool, failed: bool, drawing: set<Page>, writes: nat)

  datatype State = State(session: Session, output: Output)

  /** A commit: refused, accepted without a fence to wait for, or accepted. */
  datatype Submit = Refused | Unfenced | Fenced

  // ---- The session

  /** Waits for a queued flip; a completion error is remembered for good. */
  function Waited(s: Session, completes: bool): Session {
    if s.error || !s.fence then s
    else if completes then s.(fence := false, shownPage := s.pendingPage, presented := true, exposed := {s.pendingPage})
    else s.(fence := false, error := true)
  }

  function Submitted(s: Session, page: Page, submit: Submit): Session {
    if s.active && submit != Refused then s.(exposed := s.exposed + {page}) else s
  }

  predicate Queues(s: Session, submit: Submit) { !s.error && !s.fence && s.active && submit == Fenced }

  function Queued(s: Session, page: Page, submit: Submit): Session {
    if s.error || s.fence then s
    else
      var after := Submitted(s, page, submit);
      if Queues(s, submit) then after.(fence := true, pendingPage := page)
      else if s.active && submit == Unfenced then after.(error := true)
      else after
  }

  predicate Presents(s: Session, submit: Submit, completes: bool) { s.active && submit == Fenced && completes }

  /** Waits for a queued flip, then flips and waits for it; a failure here is not remembered. */
  function Presented(s: Session, page: Page, waitCompletes: bool, submit: Submit, completes: bool): Session {
    var waited := Waited(s, waitCompletes);
    if waited.error then waited
    else
      var after := Submitted(waited, page, submit);
      if Presents(waited, submit, completes) then after.(shownPage := page, presented := true, exposed := {page})
      else after
  }

  /** How far handling a terminal switch gets. */
  function Released(s: Session, completes: bool, handled: bool): Session {
    var waited := Waited(s, completes);
    if waited.error || !handled then waited else waited.(active := false)
  }

  function Acquired(s: Session, completes: bool, regained: bool, submit: Submit, shown: bool): Session {
    var waited := Waited(s, completes);
    if waited.error || !regained then waited
    else
      var active := waited.(active := true);
      if active.presented then Presented(active, active.shownPage, true, submit, shown) else active
  }

  // ---- The output

  function Failed(o: Output): Output { o.(failed := true, ready := false) }

  /** What one rendering meets: an early error, the wait's result, an error before drawing, one after it. */
  datatype Rendering = Rendering(early: bool, completes: bool, saved: bool, finished: bool)

  function Rendered(s: State, texture: bool, r: Rendering): State {
    var o := s.output;
    if o.failed then s.(output := Failed(o))
    else if !texture || o.ready || o.cpuAccess || !s.session.active || r.early then s.(output := Failed(o))
    else
      var session := Waited(s.session, r.completes);
      if session.error || !r.saved then State(session, Failed(o))
      else
        var page := Other(session.shownPage);
        var drawn := o.(page := page, drawing := o.drawing + {page}, writes := o.writes + 1);
        State(session, if r.finished then drawn.(ready := true, drawing := o.drawing - {page}) else Failed(drawn))
  }

  function BegunCpu(s: State, completes: bool, synced: bool): State {
    var o := s.output;
    if o.failed || !o.ready || o.cpuAccess then s.(output := Failed(o))
    else
      var session := Waited(s.session, completes);
      State(session, if session.error || !synced then Failed(o) else o.(cpuAccess := true, writes := o.writes + 1))
  }

  function EndedCpu(s: State, synced: bool): State {
    var o := s.output;
    s.(output := if o.failed || !o.cpuAccess || !synced then Failed(o) else o.(cpuAccess := false))
  }

  function PresentedFrame(s: State, submit: Submit): State {
    var o := s.output;
    if o.failed || !o.ready || o.cpuAccess || !s.session.active then s.(output := Failed(o))
    else State(Queued(s.session, o.page, submit), if Queues(s.session, submit) then o.(ready := false) else Failed(o))
  }

  datatype Op =
    | Render(texture: bool, rendering: Rendering)
    | BeginCpu(completes: bool, synced: bool)
    | EndCpu(synced: bool)
    | Present(submit: Submit)
    | Wait(completes: bool)
    | Release(completes: bool, handled: bool)
    | Acquire(completes: bool, regained: bool, submit: Submit, shown: bool)

  function Do(s: State, op: Op): State {
    match op
    case Render(texture, rendering) => Rendered(s, texture, rendering)
    case BeginCpu(completes, synced) => BegunCpu(s, completes, synced)
    case EndCpu(synced) => EndedCpu(s, synced)
    case Present(submit) => PresentedFrame(s, submit)
    case Wait(completes) => s.(session := Waited(s.session, completes))
    case Release(completes, handled) => s.(session := Released(s.session, completes, handled))
    case Acquire(completes, regained, submit, shown) =>
      s.(session := Acquired(s.session, completes, regained, submit, shown))
  }

  function Run(s: State, ops: seq<Op>): State
    decreases |ops|
  {
    if ops == [] then s else Run(Do(s, ops[0]), ops[1..])
  }

  // ---- Safety

  /** The pages that are being written: by the GPU as far as is known, or by the program. */
  function Writing(o: Output): set<Page> {
    o.drawing + if o.cpuAccess then {o.page} else {}
  }

  /** No page is written that is shown or that a flip may still show. */
  predicate Safe(s: State) { Writing(s.output) !! s.session.exposed }

  predicate Inv(s: State) {
    var d, o := s.session, s.output;
    && (d.error ==> !d.fence && Writing(o) == {} && o.ready == false)
    && (!d.error ==> d.exposed <= {d.shownPage} + if d.fence then {d.pendingPage} else {})
    && (d.fence ==> Writing(o) == {} && !o.ready && d.pendingPage != d.shownPage)
    && (Writing(o) <= {Other(d.shownPage)})
    && (o.ready || o.cpuAccess ==> o.page == Other(d.shownPage))
    && (o.failed ==> !o.ready)
    && (!o.failed ==> o.drawing == {} && (o.cpuAccess ==> o.ready))
  }

  /** A session that shows nothing of its own yet, and a new output. */
  function Opened(active: bool): (s: State)
    ensures Inv(s)
  {
    State(Session(false, 0, 0, false, false, active, {}), Output(0, false, false, false, {}, 0))
  }

  lemma InvIsSafe(s: State)
    requires Inv(s)
    ensures Safe(s)
  {
  }

  lemma WaitKeepsInv(s: State, completes: bool)
    requires Inv(s)
    ensures var w := s.(session := Waited(s.session, completes));
      Inv(w) && !w.session.fence && (s.output.ready ==> w == s)
  {
  }

  lemma RenderKeepsInv(s: State, texture: bool, r: Rendering)
    requires Inv(s)
    ensures Inv(Rendered(s, texture, r))
  {
    WaitKeepsInv(s, r.completes);
  }

  lemma CpuKeepsInv(s: State, completes: bool, synced: bool)
    requires Inv(s)
    ensures Inv(BegunCpu(s, completes, synced)) && Inv(EndedCpu(s, synced))
  {
    WaitKeepsInv(s, completes);
  }

  lemma PresentKeepsInv(s: State, submit: Submit)
    requires Inv(s)
    ensures Inv(PresentedFrame(s, submit))
  {
  }

  lemma TerminalKeepsInv(s: State, completes: bool, ok: bool, submit: Submit, shown: bool)
    requires Inv(s)
    ensures Inv(s.(session := Released(s.session, completes, ok)))
    ensures Inv(s.(session := Acquired(s.session, completes, ok, submit, shown)))
  {
    WaitKeepsInv(s, completes);
    var active := s.(session := Waited(s.session, completes).(active := true));
    if Inv(active) && !active.session.fence { ShownAgainKeepsInv(active, submit, shown); }
  }

  lemma ShownAgainKeepsInv(s: State, submit: Submit, shown: bool)
    requires Inv(s) && !s.session.fence
    ensures Inv(s.(session := Presented(s.session, s.session.shownPage, true, submit, shown)))
  {
  }

  lemma StepKeepsInv(s: State, op: Op)
    requires Inv(s)
    ensures Inv(Do(s, op))
  {
    match op
    case Render(texture, rendering) => RenderKeepsInv(s, texture, rendering);
    case BeginCpu(completes, synced) => CpuKeepsInv(s, completes, synced);
    case EndCpu(synced) => CpuKeepsInv(s, true, synced);
    case Present(submit) => PresentKeepsInv(s, submit);
    case Wait(completes) => WaitKeepsInv(s, completes);
    case Release(completes, handled) => TerminalKeepsInv(s, completes, handled, Refused, false);
    case Acquire(completes, regained, submit, shown) => TerminalKeepsInv(s, completes, regained, submit, shown);
  }

  /** In every run the page being written is neither shown nor about to be shown. */
  lemma {:induction false} EveryRunIsSafe(s: State, ops: seq<Op>)
    requires Inv(s)
    ensures Inv(Run(s, ops)) && Safe(Run(s, ops))
    decreases |ops|
  {
    InvIsSafe(s);
    if ops != [] {
      StepKeepsInv(s, ops[0]);
      EveryRunIsSafe(Do(s, ops[0]), ops[1..]);
    }
  }

  /** After a completion error no run begins another write to either page. */
  lemma {:induction false} NoWriteAfterAnError(s: State, ops: seq<Op>)
    requires s.session.error
    ensures Run(s, ops).session.error && Run(s, ops).output.writes == s.output.writes
    decreases |ops|
  {
    if ops != [] { NoWriteAfterAnError(Do(s, ops[0]), ops[1..]); }
  }

  /** The output's own error is final too: nothing is written, drawn or presented after it. */
  lemma {:induction false} NoWriteAfterAFailure(s: State, ops: seq<Op>)
    requires Inv(s) && s.output.failed
    ensures var after := Run(s, ops);
      && after.output.failed && after.output.writes == s.output.writes
      && (!s.session.fence ==> !after.session.fence && after.session.shownPage == s.session.shownPage)
    decreases |ops|
  {
    if ops != [] {
      StepKeepsInv(s, ops[0]);
      NoWriteAfterAFailure(Do(s, ops[0]), ops[1..]);
    }
  }

  /** A write that begins goes to the page that is not shown, once nothing is queued any more. */
  lemma WritesGoToTheHiddenPage(s: State, op: Op)
    requires Inv(s) && Do(s, op).output.writes != s.output.writes
    ensures var after := Do(s, op);
      && after.output.page == Other(after.session.shownPage) && after.output.page !in after.session.exposed
      && !after.session.fence && !after.session.error
  {
    StepKeepsInv(s, op);
  }

  /** A frame that is rendered, presented and completed is the one shown, and the next goes to the other page. */
  lemma PagesAlternate(s: State, r: Rendering)
    requires Inv(s) && s.session.active && !s.output.failed && !s.output.ready && !s.session.error
    requires !r.early && r.completes && r.saved && r.finished
    ensures var rendered := Rendered(s, true, r);
      var shown := Do(PresentedFrame(rendered, Fenced), Wait(true));
      var next := Rendered(shown, true, r);
      && rendered.output.ready && shown.session.shownPage == rendered.output.page
      && shown.session.exposed == {rendered.output.page}
      && next.output.ready && next.output.page == Other(rendered.output.page)
  {
  }

  /** A rendered page is lent to the program and comes back, and is then presented as it is. */
  lemma CpuAccessComesBack(s: State)
    requires Inv(s) && s.output.ready && !s.output.cpuAccess
    ensures var lent := BegunCpu(s, true, true);
      && lent.output == s.output.(cpuAccess := true, writes := s.output.writes + 1)
      && lent.session == s.session && EndedCpu(lent, true).output == lent.output.(cpuAccess := false)
      && (s.session.active ==>
            var queued := PresentedFrame(EndedCpu(lent, true), Fenced);
            queued.session.fence && queued.session.pendingPage == s.output.page && !queued.output.failed)
  {
  }

  /** The output fails exactly when it is used out of turn, something reports an error, or one stands. */
  lemma StepFailsExactly(s: State, op: Op)
    requires Inv(s) && !s.output.failed
    ensures var o, flips := s.output, !s.session.error && (op.Render? || op.BeginCpu? ==> !s.session.fence || Completes(op));
      !Do(s, op).output.failed <==>
        match op
        case Render(texture, r) =>
          texture && !o.ready && !o.cpuAccess && s.session.active && !r.early && flips && r.saved && r.finished
        case BeginCpu(_, synced) => o.ready && !o.cpuAccess && flips && synced
        case EndCpu(synced) => o.cpuAccess && synced
        case Present(submit) => o.ready && !o.cpuAccess && s.session.active && submit == Fenced
        case _ => true
  {
  }

  predicate Completes(op: Op)
    requires op.Render? || op.BeginCpu?
  {
    match op
    case Render(_, r) => r.completes
    case BeginCpu(completes, _) => completes
  }

  /** A terminal switch away and back shows the same page again, and only that, if one was shown. */
  lemma SwitchShowsTheSamePage(s: State)
    requires Inv(s) && !s.session.error && !s.session.fence && s.session.active
    ensures var away := Do(s, Release(true, true));
      var back := Do(away, Acquire(true, true, Fenced, true));
      && !away.session.active && away.session.shownPage == s.session.shownPage
      && back.session == s.session.(exposed := if s.session.presented then {s.session.shownPage} else s.session.exposed)
      && back.output == away.output == s.output
  {
  }

  // ---- Direct presentation

  /** What is shown is known: at most the page that the session says is shown. */
  predicate Known(s: Session) { !s.fence && !s.error && s.exposed <= {s.shownPage} }

  /**
   * A direct presentation leaves it known what is shown if and only if it succeeds, is refused, or
   * is of the page that is shown already, as after a terminal switch. Its failed completion is not
   * remembered.
   */
  lemma DirectPresentationIsKnown(s: Session, page: Page, submit: Submit, completes: bool)
    requires Known(s) && s.active
    ensures var after := Presented(s, page, true, submit, completes);
      && !after.error
      && (Known(after) <==> submit == Refused || page == s.shownPage || (submit == Fenced && completes))
  {
    assert submit == Unfenced ==> page in Presented(s, page, true, submit, completes).exposed;
    assert submit == Fenced && !completes ==> page in Presented(s, page, true, submit, completes).exposed;
  }

  /** So a client that writes the page it takes for hidden after such a failure can write the shown one. */
  lemma FailedDirectPresentationExposes()
    ensures var s := Session(false, 0, 0, true, false, true, {0});
      var after := Presented(s, 1, true, Fenced, false);
      Known(s) && Waited(after, true) == after && !after.error && Other(after.shownPage) in after.exposed
  {
  }
}
