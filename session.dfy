/** A page session: the downloader's state driven by a sequence of user and
    network events. A request's `await` is the only suspension point, so
    events are applied one at a time; besides the component's state, the
    session counts the requests whose promise has not settled yet.

    The Download button is disabled while the status is `loading`, so a
    click then does nothing. A resolution settles one outstanding request;
    nothing records which one, because the source keeps no request id. */
module Session {
  import opened Wrappers
  import opened Workflow
  import Text

  datatype Event =
    | Typed(text: string)
    | DraggedOver
    | DraggedOut
    | Dropped(text: string)
    | Clicked
    | Resolved(outcome: Outcome)

  /** The component's state and the number of requests still in flight. */
  datatype Page = Page(ui: State, inFlight: nat)

  const Start: Page := Page(Initial, 0)

  function Step(p: Page, e: Event): Page {
    match e
    case Typed(text) => p.(ui := SetUrl(p.ui, text))
    case DraggedOver => p.(ui := DragOver(p.ui))
    case DraggedOut => p.(ui := DragLeave(p.ui))
    case Dropped(text) => p.(ui := Drop(p.ui, text))
    case Clicked =>
      if SubmitDisabled(p.ui.status) then p
      else
        var sub := Submit(p.ui);
        Page(sub.state, if sub.request.Some? then p.inFlight + 1 else p.inFlight)
    case Resolved(o) =>
      if p.inFlight == 0 then p else Page(Complete(p.ui, o), p.inFlight - 1)
  }

  /** The page after the events `evs`, oldest first. */
  function Run(p: Page, evs: seq<Event>): Page
    decreases |evs|
  {
    if evs == [] then p else Step(Run(p, evs[..|evs| - 1]), evs[|evs| - 1])
  }

  /** The state invariant, and: the loading indicator is only ever shown
      while some request is outstanding. */
  ghost predicate Consistent(p: Page) {
    Inv(p.ui) && (p.ui.status == Loading ==> p.inFlight >= 1)
  }

  lemma StepKeepsConsistent(p: Page, e: Event)
    requires Consistent(p)
    ensures Consistent(Step(p, e))
  {
    match e
    case Typed(text) => HandlersPreserveInv(p.ui, text, Exception(""));
    case DraggedOver => HandlersPreserveInv(p.ui, "", Exception(""));
    case DraggedOut => HandlersPreserveInv(p.ui, "", Exception(""));
    case Dropped(text) => HandlersPreserveInv(p.ui, text, Exception(""));
    case Clicked => HandlersPreserveInv(p.ui, "", Exception(""));
    case Resolved(o) => HandlersPreserveInv(p.ui, "", o);
  }

  /** Every page reachable from mount is consistent: a success always comes
      with the Save actions on and the confirmation message, `loading` always
      with the Save actions off and a request in flight. */
  lemma {:induction false} RunKeepsConsistent(p: Page, evs: seq<Event>)
    requires Consistent(p)
    ensures Consistent(Run(p, evs))
    decreases |evs|
  {
    if evs != [] {
      RunKeepsConsistent(p, evs[..|evs| - 1]);
      StepKeepsConsistent(Run(p, evs[..|evs| - 1]), evs[|evs| - 1]);
    }
  }

  /** The mount state is consistent, so the above covers every session. */
  lemma ReachableIsConsistent(evs: seq<Event>)
    ensures Consistent(Run(Start, evs))
  {
    HandlersPreserveInv(Initial, "", Exception(""));
    RunKeepsConsistent(Start, evs);
  }

  /** There is no way back to `idle`: once any status has been shown, some
      status stays shown for the rest of the session. */
  lemma {:induction false} NeverIdleAgain(p: Page, evs: seq<Event>)
    requires p.ui.status != Idle
    ensures Run(p, evs).ui.status != Idle
    decreases |evs|
  {
    if evs != [] {
      NeverIdleAgain(p, evs[..|evs| - 1]);
      assert Run(p, evs) == Step(Run(p, evs[..|evs| - 1]), evs[|evs| - 1]);
    }
  }

  predicate IsOkResolution(e: Event) {
    e.Resolved? && e.outcome.Response? && e.outcome.ok
  }

  /** Only an ok response replaces the file list: typing, dragging, drops,
      refused or sent submissions, failed responses and exceptions all leave
      it as it was. */
  lemma {:induction false} FilesChangeOnlyOnOkResponse(p: Page, evs: seq<Event>)
    requires forall i :: 0 <= i < |evs| ==> !IsOkResolution(evs[i])
    ensures Run(p, evs).ui.files == p.ui.files
    decreases |evs|
  {
    if evs != [] {
      FilesChangeOnlyOnOkResponse(p, evs[..|evs| - 1]);
      StepKeepsFiles(Run(p, evs[..|evs| - 1]), evs[|evs| - 1]);
    }
  }

  lemma StepKeepsFiles(p: Page, e: Event)
    requires !IsOkResolution(e)
    ensures Step(p, e).ui.files == p.ui.files
  {
    match e
    case Resolved(o) =>
    case _ =>
  }

  /** Once the files of an ok response are in, they stay listed until the next
      ok response that settles a request, whatever fails in between. */
  lemma {:induction false} OkResponseFilesPersist(p: Page, m: Option<string>, fs: seq<FileDescriptor>, evs: seq<Event>)
    requires p.inFlight > 0
    requires forall i :: 0 <= i < |evs| ==> !IsOkResolution(evs[i])
    ensures Run(Step(p, Resolved(Response(true, m, fs))), evs).ui.files == fs
  {
    var q := Step(p, Resolved(Response(true, m, fs)));
    assert q.ui.files == fs by {
      assert q == Page(Complete(p.ui, Response(true, m, fs)), p.inFlight - 1);
    }
    FilesChangeOnlyOnOkResponse(q, evs);
  }

  /** A drop of text without "instagram.com". */
  predicate IsRefusedDrop(e: Event) {
    e.Dropped? && !IsInstagramText(e.text)
  }

  /** At most one request in flight, and then the button is disabled. */
  ghost predicate Serial(p: Page) {
    p.inFlight == 0 || (p.inFlight == 1 && p.ui.status == Loading)
  }

  /** The disabled button keeps requests from overlapping as long as no
      refused drop happens. */
  lemma {:induction false} OneRequestAtATime(p: Page, evs: seq<Event>)
    requires Serial(p)
    requires forall i :: 0 <= i < |evs| ==> !IsRefusedDrop(evs[i])
    ensures Serial(Run(p, evs))
    ensures Run(p, evs).inFlight <= 1
    decreases |evs|
  {
    if evs != [] {
      OneRequestAtATime(p, evs[..|evs| - 1]);
      StepKeepsSerial(Run(p, evs[..|evs| - 1]), evs[|evs| - 1]);
    }
  }

  lemma StepKeepsSerial(p: Page, e: Event)
    requires Serial(p) && !IsRefusedDrop(e)
    ensures Serial(Step(p, e))
  {
  }

  /** A refused drop while a request is outstanding replaces `loading` by an
      error, which enables the button again: a second request then goes out
      while the first is still in flight. */
  lemma RefusedDropLetsRequestsOverlap()
    ensures var u := "https://www.instagram.com/p/X";
      var sent := Step(Step(Start, Typed(u)), Clicked);
      && sent.inFlight == 1 && SubmitDisabled(sent.ui.status)
      && !SubmitDisabled(Step(sent, Dropped("x")).ui.status)
      && Step(Step(sent, Dropped("x")), Clicked).inFlight == 2
  {
    var u := "https://www.instagram.com/p/X";
    assert Text.OccursAt(u, InstagramHost, 12) by {
      assert u[12..25] == InstagramHost;
    }
    assert !IsInstagramText("x");
  }

  /** With two requests in flight and no request id, the page ends up showing
      whatever settles last, whichever of the two requests that was. */
  lemma LastResolutionWins(p: Page, first: Outcome, last: Outcome)
    requires p.inFlight >= 2
    ensures var q := Step(Step(p, Resolved(first)), Resolved(last));
      && q.inFlight == p.inFlight - 2
      && q.ui.status == Complete(p.ui, last).status
      && q.ui.message == Complete(p.ui, last).message
      && q.ui.showSave == Complete(p.ui, last).showSave
  {
  }
}
