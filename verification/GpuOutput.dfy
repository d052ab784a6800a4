/** The display session and the GPU output that borrows its buffer, as they change in place. */
module GpuOutput {
  import opened PageFlip

  class DrmSession {
    var presentFence: bool
    var pendingPage: Page
    var shownPage: Page
    var presented: bool
    var presentationError: bool
    var active: bool
    ghost var exposed: set<Page>

    ghost function Value(): Session
      reads this
    {
      Session(presentFence, pendingPage, shownPage, presented, presentationError, active, exposed)
    }

    constructor (onTop: bool)
      ensures Value() == PageFlip.Opened(onTop).session
    {
      presentFence, pendingPage, shownPage := false, 0, 0;
      presented, presentationError, active := false, false, onTop;
      exposed := {};
    }

    method WaitPresent(completes: bool) returns (ok: bool)
      modifies this
      ensures Value() == Waited(old(Value()), completes)
      ensures ok <==> !presentationError
      ensures ok ==> !presentFence
    {
      if presentationError { return false; }
      if !presentFence { return true; }
      presentFence := false;
      if !completes {
        presentationError := true;
        return false;
      }
      shownPage := pendingPage;
      presented := true;
      exposed := {pendingPage};
      ok := true;
    }

    /** Commits a page; accepted as the outcome says, unless the session is not active. */
    method SubmitPresent(page: Page, submit: Submit) returns (ok: bool, fence: bool)
      modifies this`exposed
      ensures Value() == Submitted(old(Value()), page, submit)
      ensures ok <==> active && submit != Refused
      ensures fence <==> ok && submit == Fenced
    {
      if !active { return false, false; }
      ok, fence := submit != Refused, submit == Fenced;
      if ok { exposed := exposed + {page}; }
    }

    method QueuePresent(page: Page, submit: Submit) returns (ok: bool)
      modifies this
      ensures Value() == Queued(old(Value()), page, submit)
      ensures ok <==> Queues(old(Value()), submit)
    {
      if presentationError || presentFence { return false; }
      var fence: bool;
      ok, fence := SubmitPresent(page, submit);
      if !ok { return; }
      if !fence {
        presentationError := true;
        return false;
      }
      presentFence := true;
      pendingPage := page;
    }

    method PresentNow(page: Page, waitCompletes: bool, submit: Submit, completes: bool) returns (ok: bool)
      modifies this
      ensures Value() == Presented(old(Value()), page, waitCompletes, submit, completes)
      ensures ok ==> shownPage == page && exposed == {page} && presented
      ensures ok == (!presentationError && Presents(Waited(old(Value()), waitCompletes), submit, completes))
    {
      ok := WaitPresent(waitCompletes);
      if !ok { return; }
      var fence: bool;
      ok, fence := SubmitPresent(page, submit);
      if ok { ok := fence && completes; }
      if ok {
        shownPage := page;
        presented := true;
        exposed := {page};
      }
    }

    /** The terminal is taken away. */
    method Release(completes: bool, handled: bool) returns (ok: bool)
      modifies this
      ensures Value() == Released(old(Value()), completes, handled)
      ensures ok == (handled && !presentationError) && (ok ==> !active)
    {
      ok := WaitPresent(completes);
      if !ok || !handled { return false; }
      active := false;
    }

    /** The terminal comes back: what was shown is shown again. */
    method Acquire(completes: bool, regained: bool, submit: Submit, shown: bool) returns (ok: bool)
      modifies this
      ensures Value() == Acquired(old(Value()), completes, regained, submit, shown)
      ensures ok ==> active && (presented ==> exposed == {shownPage})
      ensures regained && shown && submit == Fenced ==> ok == !presentationError
    {
      ok := WaitPresent(completes);
      if !ok || !regained { return false; }
      active := true;
      if presented { ok := PresentNow(shownPage, true, submit, shown); }
    }
  }

  class GpuOutput {
    const session: DrmSession
    var page: Page
    var ready: bool
    var cpuAccess: bool
    var failed: bool
    ghost var drawing: set<Page>
    ghost var writes: nat

    ghost function Value(): State
      reads this, session
    {
      State(session.Value(), Output(page, ready, cpuAccess, failed, drawing, writes))
    }

    constructor (borrowed: DrmSession)
      ensures session == borrowed
      ensures Value().output == PageFlip.Opened(true).output
    {
      session := borrowed;
      page, ready, cpuAccess, failed := 0, false, false, false;
      drawing, writes := {}, 0;
    }

    method SetError()
      modifies this`failed, this`ready
      ensures failed && !ready
    {
      failed := true;
      ready := false;
    }

    method Render(texture: bool, r: Rendering) returns (ok: bool)
      requires Inv(Value())
      modifies this, session
      ensures Value() == Rendered(old(Value()), texture, r) && Inv(Value())
      ensures Safe(Value()) && (ok ==> page !in session.exposed)
      ensures old(failed) || old(session.presentationError) ==> !ok && writes == old(writes)
      ensures !ok ==> failed && !ready
      ensures ok <==> ready && !old(ready)
      ensures ok ==> page == Other(session.shownPage) && !session.presentFence
    {
      RenderKeepsInv(Value(), texture, r);
      if failed || !texture || ready || cpuAccess || !session.active || r.early {
        SetError();
        return false;
      }
      ok := session.WaitPresent(r.completes);
      if !ok || !r.saved {
        SetError();
        return false;
      }
      page := 1 - session.shownPage;
      drawing := drawing + {page};
      writes := writes + 1;
      if !r.finished {
        SetError();
        return false;
      }
      drawing := drawing - {page};
      ready := true;
    }

    method BeginCpu(completes: bool, synced: bool) returns (ok: bool)
      requires Inv(Value())
      modifies this, session
      ensures Value() == BegunCpu(old(Value()), completes, synced) && Inv(Value())
      ensures ok == !failed && (ok ==> cpuAccess && page !in session.exposed)
    {
      StepKeepsInv(Value(), PageFlip.BeginCpu(completes, synced));
      if failed || !ready || cpuAccess {
        SetError();
        return false;
      }
      ok := session.WaitPresent(completes);
      if !ok || !synced {
        SetError();
        return false;
      }
      cpuAccess := true;
      writes := writes + 1;
    }

    method EndCpu(synced: bool) returns (ok: bool)
      requires Inv(Value())
      modifies this
      ensures Value() == EndedCpu(old(Value()), synced) && Inv(Value())
      ensures ok == !failed && (ok ==> !cpuAccess)
    {
      StepKeepsInv(Value(), PageFlip.EndCpu(synced));
      if failed || !cpuAccess || !synced {
        SetError();
        return false;
      }
      cpuAccess := false;
      ok := true;
    }

    method Present(submit: Submit) returns (ok: bool)
      requires Inv(Value())
      modifies this, session
      ensures Value() == PresentedFrame(old(Value()), submit) && Inv(Value())
      ensures ok ==> session.presentFence && session.pendingPage == old(page) != session.shownPage && !ready
      ensures Safe(Value()) && writes == old(writes) && ok == !failed
    {
      StepKeepsInv(Value(), PageFlip.Present(submit));
      if failed || !ready || cpuAccess || !session.active {
        SetError();
        return false;
      }
      ok := session.QueuePresent(page, submit);
      if !ok {
        SetError();
        return;
      }
      ready := false;
    }
  }
}
