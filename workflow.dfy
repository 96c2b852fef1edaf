/** The download workflow of the `InstagramDownloader` component
    (src/InstagramDownloader.jsx): its six pieces of state as one record,
    each event handler as a pure transition over that record, and the two
    render rules that read it (the disabled Download button, the status alert).

    `handleDownload` is split at its one `await`: `Submit` is the guard and the
    "begin" step, `Complete` is what happens once the request has come out one
    way or another. The network is replaced by the `Outcome` handed to
    `Complete`. */
module Workflow {
  import opened Wrappers
  import Text

  datatype Status = Idle | Loading | Success | Error

  /** One file prepared by the backend, `{name, type, size}`
      (`type` is spelled `fileType`, since `type` is a Dafny keyword). */
  datatype FileDescriptor = FileDescriptor(name: string, fileType: string, size: string)

  /** The POST that `handleDownload` sends: where it goes and the `url` of its
      JSON body `{url}`. */
  datatype Request = Request(endpoint: string, url: string)

  /** How the awaited `fetch(...)` followed by `response.json()` and the
      reads of `data.message` / `data.files` came out: either a parsed body
      together with `response.ok`, or a thrown error. A thrown error is a
      network failure, a body that is not JSON (the body is parsed before
      `ok` is looked at), or a JSON `null` body, whose `data.message` or
      `data.files` read throws a TypeError even when `ok` holds.
      `message` is `None` when `data.message` is falsy (absent, `""`, `0`,
      `null`, ...) and `Some(String(v))` when it is a truthy value `v`: the
      error built from it carries that string form, which may be empty
      (`[]`) or not come from a string at all (`42` gives "42"). */
  datatype Outcome =
    | Response(ok: bool, message: Option<string>, files: seq<FileDescriptor>)
    | Exception(msg: string)

  /** The component's state: `url`, `isDragging`, `status`, `message`,
      `downloadedFiles` and `showSave`. */
  datatype State = State(
    url: string,
    isDragging: bool,
    status: Status,
    message: string,
    files: seq<FileDescriptor>,
    showSave: bool)

  const EmptyUrlMessage: string := "Please enter an Instagram URL"
  const ProcessingMessage: string := "Processing content..."
  const SuccessMessage: string := "Content processed successfully! Click \"Save\" to download files."
  const FallbackFailureMessage: string := "Download failed"
  const InvalidDropMessage: string := "Please drop a valid Instagram URL"
  const InstagramHost: string := "instagram.com"
  /** The backend the extraction request goes to: a fixed absolute URL. */
  const ApiScheme: string := "https://"
  const ApiUrl: string := ApiScheme + "socify-backend-production.up.railway.app"
  const DownloadEndpoint: string := ApiUrl + "/api/download"

  /** The state on mount: every `useState` initial value. */
  const Initial: State := State("", false, Idle, "", [], false)

  /** The text input's `onChange`: any string at all becomes the url. */
  function SetUrl(s: State, text: string): State {
    s.(url := text)
  }

  /** `handleDragOver`. */
  function DragOver(s: State): State {
    s.(isDragging := true)
  }

  /** `handleDragLeave`. */
  function DragLeave(s: State): State {
    s.(isDragging := false)
  }

  /** The drop handler's acceptance test: the text contains "instagram.com". */
  predicate IsInstagramText(text: string) {
    Text.Includes(text, InstagramHost)
  }

  /** `handleDrop`, given the dropped plain text. */
  function Drop(s: State, text: string): State {
    var t := s.(isDragging := false);
    if IsInstagramText(text) then
      t.(url := text)
    else
      t.(status := Error, message := InvalidDropMessage)
  }

  /** The state right after the synchronous part of `handleDownload`, and
      the request it sends, if any. */
  datatype Submission = Submission(state: State, request: Option<Request>)

  /** `handleDownload` up to its `await`: only the empty string is falsy, so
      only the empty url is refused. */
  function Submit(s: State): Submission {
    if s.url == "" then
      Submission(s.(status := Error, message := EmptyUrlMessage), None)
    else
      Submission(
        s.(status := Loading, message := ProcessingMessage, showSave := false),
        Some(Request(DownloadEndpoint, s.url)))
  }

  /** The message of `new Error(data.message || 'Download failed')`: the
      string form of a truthy backend message, else the fallback. */
  function FailureMessage(m: Option<string>): string {
    match m
    case Some(text) => text
    case None => FallbackFailureMessage
  }

  /** `handleDownload` after its `await`. The current status is never
      consulted, so whichever request resolves writes the state. */
  function Complete(s: State, o: Outcome): State {
    match o
    case Response(ok, m, fs) =>
      if ok then
        s.(files := fs, status := Success, message := SuccessMessage, showSave := true)
      else
        s.(status := Error, message := FailureMessage(m), showSave := false)
    case Exception(msg) =>
      s.(status := Error, message := msg, showSave := false)
  }

  /** The whole of `handleDownload` when nothing else happens while the
      request is outstanding; `o` is how that request comes out. */
  function Download(s: State, o: Outcome): State {
    var sub := Submit(s);
    if sub.request.None? then sub.state else Complete(sub.state, o)
  }

  /** The Download button's `disabled` attribute. */
  predicate SubmitDisabled(status: Status) {
    status == Loading
  }

  datatype AlertStyle = ErrorStyle | SuccessStyle

  /** The status alert: not rendered while idle; the error style for
      `error` and the success style for every other status, with the
      current message. */
  function Alert(s: State): Option<(AlertStyle, string)> {
    if s.status == Idle then None
    else Some((if s.status == Error then ErrorStyle else SuccessStyle, s.message))
  }

  /** What holds of every state the handlers can reach from `Initial`. */
  ghost predicate Inv(s: State) {
    && (s.status == Idle ==> s.message == "" && s.files == [] && !s.showSave)
    && (s.status == Loading ==> s.message == ProcessingMessage && !s.showSave)
    && (s.status == Success ==> s.message == SuccessMessage && s.showSave)
  }

  /** The empty-url guard: an error status and message, no request, and
      nothing else touched (in particular the file list and the Save
      actions stay as they were). */
  lemma EmptyUrlIsRefused(s: State)
    requires s.url == ""
    ensures Submit(s).request == None
    ensures Submit(s).state.status == Error && Submit(s).state.message == EmptyUrlMessage
    ensures Submit(s).state.(status := s.status, message := s.message) == s
  {
  }

  /** Every non-empty url, whitespace-only ones included, is sent as the body
      of one POST to the fixed endpoint; the state enters `loading` with the
      Save actions hidden, and the old file list stays. */
  lemma NonEmptyUrlIsSubmitted(s: State)
    requires s.url != ""
    ensures Submit(s).request == Some(Request(DownloadEndpoint, s.url))
    ensures Submit(s).state.status == Loading
    ensures Submit(s).state.message == ProcessingMessage
    ensures !Submit(s).state.showSave
    ensures Submit(s).state.files == s.files
    ensures Submit(s).state.url == s.url && Submit(s).state.isDragging == s.isDragging
  {
  }

  /** A url made only of blanks is not refused: the guard tests for the
      empty string and nothing else. */
  lemma BlankUrlIsSubmitted(s: State)
    requires s.url != ""
    requires forall i :: 0 <= i < |s.url| ==> s.url[i] == ' ' || s.url[i] == '\t'
    ensures Submit(s).request == Some(Request(DownloadEndpoint, s.url))
    ensures Submit(s).state.status == Loading
  {
  }

  /** An ok response replaces the file list wholesale with the returned files,
      reports success and shows the Save actions. */
  lemma OkResponseShowsFiles(s: State, m: Option<string>, fs: seq<FileDescriptor>)
    ensures Complete(s, Response(true, m, fs)).files == fs
    ensures Complete(s, Response(true, m, fs)).status == Success
    ensures Complete(s, Response(true, m, fs)).message == SuccessMessage
    ensures Complete(s, Response(true, m, fs)).showSave
    ensures Complete(s, Response(true, m, fs)).url == s.url
    ensures Complete(s, Response(true, m, fs)).isDragging == s.isDragging
  {
  }

  /** A response that is not ok reports an error with the string form of the
      backend's truthy `message`, or "Download failed"; the returned files are
      ignored, the previous file list is kept, and only the status, message
      and Save flag change. */
  lemma FailedResponseKeepsFiles(s: State, m: Option<string>, fs: seq<FileDescriptor>)
    ensures Complete(s, Response(false, m, fs)).status == Error
    ensures Complete(s, Response(false, m, fs)).message ==
      (if m.Some? then m.value else FallbackFailureMessage)
    ensures !Complete(s, Response(false, m, fs)).showSave
    ensures Complete(s, Response(false, m, fs)).files == s.files
    ensures Complete(s, Response(false, m, fs)).url == s.url
    ensures Complete(s, Response(false, m, fs)).(status := s.status, message := s.message, showSave := s.showSave) == s
  {
  }

  /** A thrown error reports an error with the error's own message; the
      previous file list is kept, and only the status, message and Save flag
      change. */
  lemma ExceptionKeepsFiles(s: State, msg: string)
    ensures Complete(s, Exception(msg)).status == Error
    ensures Complete(s, Exception(msg)).message == msg
    ensures !Complete(s, Exception(msg)).showSave
    ensures Complete(s, Exception(msg)).files == s.files
    ensures Complete(s, Exception(msg)).url == s.url
    ensures Complete(s, Exception(msg)).(status := s.status, message := s.message, showSave := s.showSave) == s
  {
  }

  /** No request fencing: the result of a resolution does not depend on the
      status, message or Save flag it finds, so a late response overwrites
      whatever a newer one (or an error) has written. */
  lemma CompleteIgnoresPhase(s: State, t: State, o: Outcome)
    requires s.url == t.url && s.isDragging == t.isDragging && s.files == t.files
    ensures Complete(s, o) == Complete(t, o)
  {
  }

  /** A drop ends the drag. Text containing "instagram.com" becomes the url
      with the status and message untouched; any other text leaves the url
      alone and reports the invalid-drop error. The file list and the Save
      flag never change. */
  lemma DropChecksHost(s: State, text: string)
    ensures !Drop(s, text).isDragging
    ensures Drop(s, text).files == s.files && Drop(s, text).showSave == s.showSave
    ensures IsInstagramText(text) <==> exists i :: Text.OccursAt(text, InstagramHost, i)
    ensures IsInstagramText(text) ==>
      Drop(s, text).url == text && Drop(s, text).status == s.status && Drop(s, text).message == s.message
    ensures !IsInstagramText(text) ==>
      Drop(s, text).url == s.url && Drop(s, text).status == Error && Drop(s, text).message == InvalidDropMessage
  {
  }

  /** Drag-over and drag-leave set the drag flag and touch nothing else. */
  lemma DragOnlyTogglesFlag(s: State)
    ensures DragOver(s).isDragging && DragOver(s).(isDragging := s.isDragging) == s
    ensures !DragLeave(s).isDragging && DragLeave(s).(isDragging := s.isDragging) == s
  {
  }

  /** The mount state satisfies the invariant, and every handler keeps it. */
  lemma HandlersPreserveInv(s: State, text: string, o: Outcome)
    requires Inv(s)
    ensures Inv(Initial)
    ensures Inv(SetUrl(s, text)) && Inv(DragOver(s)) && Inv(DragLeave(s))
    ensures Inv(Drop(s, text))
    ensures Inv(Submit(s).state) && Inv(Complete(s, o)) && Inv(Download(s, o))
  {
  }

  /** What the screen tells the user in a reachable state: no alert before
      the first action, the error style exactly for errors, and the success
      style only with the processing or the confirmation message. While the
      button is disabled no Save action is offered. */
  lemma AlertMatchesStatus(s: State)
    requires Inv(s)
    ensures Alert(s).None? <==> s.status == Idle
    ensures Alert(s).Some? ==> Alert(s).value.1 == s.message
    ensures Alert(s).Some? ==> (Alert(s).value.0 == ErrorStyle <==> s.status == Error)
    ensures Alert(s).Some? && Alert(s).value.0 == SuccessStyle ==>
      s.message == ProcessingMessage || s.message == SuccessMessage
    ensures SubmitDisabled(s.status) ==> !s.showSave
  {
  }

  /** The Save actions are not tied to the status: after a success, an empty
      url submission reports an error while the Save actions stay on. */
  lemma SaveActionsOutliveEmptyUrlError(s: State)
    requires Inv(s) && s.status == Success && s.url == ""
    ensures Submit(s).state.status == Error && Submit(s).state.showSave
    ensures Submit(s).state.files == s.files
  {
  }
}
