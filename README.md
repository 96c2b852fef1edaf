# Socify downloader: the client-side download workflow

This project models the `InstagramDownloader` React component of Socify, a
browser client that takes an Instagram post URL, asks an extraction backend
for the media files behind it, and then lets the browser save each file.

What is modelled:

- the component's six pieces of state (`url`, `isDragging`, `status`,
  `message`, `downloadedFiles`, `showSave`) as the record `Workflow.State`
  and as the fields of the class `Downloader.InstagramDownloader`;
- every handler that changes them: the URL text input, drag-over,
  drag-leave, drop, and `handleDownload`, which is split at its one `await`
  into `Submit` (the empty-URL guard and the "begin" step, which yields the
  POST request it sends) and `Complete` (what happens once the request has
  come out as an ok response, a failed response, or a thrown error);
- the two render rules that read the state: the Download button is disabled
  while `loading`, and the status alert is hidden while `idle`, uses the error
  style for `error` and the success style otherwise;
- the `DownloadedFiles` component: the relative retrieval target
  `/api/download/{type}/{name}`, the auto-save effect (one retrieval per file,
  in list order, when the Save actions are on and the list is non-empty), and
  the per-file Save button, which exists only while the Save actions are on;
- page sessions (`Session`): sequences of user and network events, with the
  number of requests still in flight.

Layout: `wrappers.dfy` (Option), `text.dfy` (substring and character search),
`workflow.dfy` (state, transitions, per-handler properties), `retrieval.dfy`
(module `DownloadedFiles`), `downloader.dfy` (the component as a class whose
handler methods are proved to reach the state the `Workflow` transitions
compute and to keep the reachable-state invariant), `session.dfy` (event runs
and the properties proved by induction over them).

Things the proofs bring out about the code:

- Only the empty string is refused at submission; a URL made of blanks is
  sent (`Workflow.BlankUrlIsSubmitted`).
- A thrown error's message is shown as it is, with no fallback text.
- A failed response shows the string form of any truthy backend `message`,
  which need not be a string (`42` shows "42", `[]` shows nothing); only a
  falsy one gives "Download failed".
- `Complete` never looks at the status, and requests carry no id. A drop of
  text without "instagram.com" while a request is outstanding turns
  `loading` into `error`, which enables the Download button again, so a
  second request can overlap the first; whichever settles last decides the
  status, message and Save actions the page shows (`Session.RefusedDropLetsRequestsOverlap`,
  `Session.LastResolutionWins`). Without such a drop, at most one request is
  ever in flight (`Session.OneRequestAtATime`).
- The Save actions are not tied to the status: after a success, submitting an
  empty URL shows an error while the Save buttons stay
  (`Workflow.SaveActionsOutliveEmptyUrlError`).

## Model

| member | source | states |
|---|---|---|
| `Text.Includes` | src/InstagramDownloader.jsx:228 | `text.includes(needle)` is true exactly when the needle occurs at some index of the text |
| `Workflow.EmptyUrlIsRefused` | src/InstagramDownloader.jsx:169-173 | an empty url sends no request and sets status `error` with "Please enter an Instagram URL"; url, drag flag, file list and Save flag are unchanged |
| `Workflow.NonEmptyUrlIsSubmitted` | src/InstagramDownloader.jsx:175-192 | any non-empty url sends one POST of `{url}` to `API_URL + "/api/download"` and enters `loading` with "Processing content..." and the Save actions off; the old file list stays |
| `Workflow.BlankUrlIsSubmitted` | src/InstagramDownloader.jsx:169 | every non-empty url made only of spaces and tabs is not refused: it is sent and the status becomes `loading` |
| `Workflow.OkResponseShowsFiles` | src/InstagramDownloader.jsx:201-204 | an ok response makes the file list exactly the returned files, status `success`, the fixed confirmation message and the Save actions on |
| `Workflow.FailedResponseKeepsFiles` | src/InstagramDownloader.jsx:197-209 | a non-ok response sets `error` with the string form of the backend's truthy message or else "Download failed", turns the Save actions off, and keeps the file list, url and drag flag |
| `Workflow.ExceptionKeepsFiles` | src/InstagramDownloader.jsx:205-209 | a thrown error (network failure, non-JSON or `null` body) sets `error` with the error's message, turns the Save actions off, and keeps the file list, url and drag flag |
| `Workflow.CompleteIgnoresPhase` | src/InstagramDownloader.jsx:192-210 | the result of a resolution does not depend on the status, message or Save flag it finds: there is no request fencing |
| `Workflow.DropChecksHost` | src/InstagramDownloader.jsx:223-234 | a drop ends the drag; text containing "instagram.com" becomes the url with status and message unchanged, other text leaves the url and sets `error` with "Please drop a valid Instagram URL"; files and Save flag never change |
| `Workflow.DragOnlyTogglesFlag` | src/InstagramDownloader.jsx:213-221 | drag-over sets the drag flag, drag-leave clears it, and nothing else changes |
| `Workflow.HandlersPreserveInv` | src/InstagramDownloader.jsx:150-234 | the mount state satisfies the invariant (idle has no message, files or Save actions; loading has the processing message and no Save actions; success has the confirmation and the Save actions) and every handler keeps it |
| `Workflow.AlertMatchesStatus` | src/InstagramDownloader.jsx:353-360 | in a reachable state the alert is hidden exactly while idle, uses the error style exactly for `error`, shows the success style only with the processing or confirmation message, and no Save action is offered while the button is disabled |
| `Workflow.SaveActionsOutliveEmptyUrlError` | src/InstagramDownloader.jsx:169-173 | after a success, an empty-url submission shows `error` while the Save actions and files stay |
| `DownloadedFiles.TargetRoundTrip` | src/InstagramDownloader.jsx:94 | when the type has no `/`, the model's inverse of the target (split after `/api/download/` at the first `/`) gives back the file's type and name |
| `DownloadedFiles.SlashInTypeMakesTargetsCollide` | src/InstagramDownloader.jsx:94 | two different descriptors whose type and name share a `/` get the same retrieval target |
| `DownloadedFiles.TargetIsRelative` | src/InstagramDownloader.jsx:187-192 | retrieval targets are relative paths starting with `/`, while the extraction request goes to the absolute `https://` backend URL, so the two never coincide |
| `DownloadedFiles.AutoSave` | src/InstagramDownloader.jsx:89-104 | the effect's loop triggers the retrievals of `AutoSaveTrace`: one per file in list order when the Save actions are on and the list is non-empty, none otherwise |
| `DownloadedFiles.AutoSaveOnePerFile` | src/InstagramDownloader.jsx:90-101 | the auto-save trace is empty unless the Save actions are on and there are files; then it has one retrieval per file, each to `/api/download/{type}/{name}` saved under `name`, from which type and name can be read back |
| `DownloadedFiles.SaveActionMatchesAutoSave` | src/InstagramDownloader.jsx:122-133 | the Save button exists only while the Save actions are on, and a click triggers exactly the retrieval the auto-save effect triggers for that file |
| `DownloadedFiles.SuccessfulDownloadSavesEveryFile` | src/InstagramDownloader.jsx:176-204 | a successful download switches the Save actions from off to on (re-running the effect) and the effect then retrieves exactly the returned files |
| `DownloadedFiles.FailedDownloadSavesNothing` | src/InstagramDownloader.jsx:205-209 | after a failed download of any kind the old files stay listed but the effect retrieves nothing |
| `Downloader.InstagramDownloader.constructor` | src/InstagramDownloader.jsx:150-157 | mounting gives the initial values of the six hooks, which satisfy the invariant |
| `Downloader.InstagramDownloader.ChangeUrl` | src/InstagramDownloader.jsx:50 | the text input stores any string as the url and changes nothing else |
| `Downloader.InstagramDownloader.HandleDragOver` | src/InstagramDownloader.jsx:213-216 | sets the drag flag in place, as `Workflow.DragOver` says, keeping the invariant |
| `Downloader.InstagramDownloader.HandleDragLeave` | src/InstagramDownloader.jsx:218-221 | clears the drag flag in place, as `Workflow.DragLeave` says, keeping the invariant |
| `Downloader.InstagramDownloader.HandleDrop` | src/InstagramDownloader.jsx:223-234 | updates the fields to the state `Workflow.Drop` computes, keeping the invariant |
| `Downloader.InstagramDownloader.BeginDownload` | src/InstagramDownloader.jsx:168-192 | runs the guard and the begin step in place and returns the request sent, as `Workflow.Submit` says |
| `Downloader.InstagramDownloader.CompleteDownload` | src/InstagramDownloader.jsx:193-210 | applies a resolution in place, as `Workflow.Complete` says, keeping the invariant |
| `Downloader.InstagramDownloader.HandleDownload` | src/InstagramDownloader.jsx:168-211 | the whole handler with nothing interleaved: the request of the guard and the final state `Workflow.Download` computes |
| `Session.RunKeepsConsistent` | src/InstagramDownloader.jsx:168-234 | every event keeps the invariant and keeps `loading` shown only while some request is in flight |
| `Session.ReachableIsConsistent` | src/InstagramDownloader.jsx:150-157 | every page reachable from mount is consistent |
| `Session.NeverIdleAgain` | src/InstagramDownloader.jsx:168-234 | once the status has left `idle` no sequence of events brings it back |
| `Session.FilesChangeOnlyOnOkResponse` | src/InstagramDownloader.jsx:197-209 | events without an ok response leave the file list as it was |
| `Session.OkResponseFilesPersist` | src/InstagramDownloader.jsx:201 | the files of an ok response stay listed until the next ok response, whatever fails in between |
| `Session.OneRequestAtATime` | src/InstagramDownloader.jsx:62-65 | with the button disabled while loading and no refused drop, at most one request is in flight |
| `Session.RefusedDropLetsRequestsOverlap` | src/InstagramDownloader.jsx:228-232 | a refused drop during a request turns `loading` into `error`, re-enables the button, and a second request goes out while the first is in flight |
| `Session.LastResolutionWins` | src/InstagramDownloader.jsx:192-210 | with two requests in flight, the status, message and Save flag shown are those of whichever settles last |

## Left out

- The `fetch` call, the HTTP transport and `response.json()`: network I/O. Their result is the `Outcome` handed to `Complete`; a body that is not JSON, and a JSON `null` body (whose `data.message` or `data.files` read throws a TypeError), is an `Exception`.
- An ok response whose body has no `files` array (the list would become `undefined`): the model's `Response` always carries a sequence of descriptors.
- A thrown value without a `message` (the message becomes `undefined`, which the alert renders as nothing): the model's `Exception` always carries a string.
- The `setTimeout` delays of the auto-save effect and of the mount animation, `showComponents` and `iconLoaded`: timers and presentation only. The auto-save timer is never cleared, so retrievals scheduled by one success still happen after a quick resubmission has turned the Save actions off; `DownloadedFiles.FailedDownloadSavesNothing` speaks only of the effect run for the failed download's own props.
- React's effect scheduling (re-running when `showSave` or the `files` array changes identity): the model gives the effect's body for given props, and proves that a successful download flips `showSave` from off to on, which is the change that re-runs it.
- Creating, clicking and removing the anchor element: a retrieval is the pair (link target, file name) it is given. The browser's download itself is not modelled, and neither is a descriptor's `size`, which is only displayed.
- `DownloadedFiles.SplitTarget` is the model's own inverse of `Target`, not a model of the backend route: a route parameter never matches a `/`, and the browser resolves the href (percent-encoding, dot segments) before any route sees it. The backend that serves targets is not part of this model.
- Which of several outstanding requests a resolution belongs to: the session counts requests in flight but, like the code, keeps no request id.
- `console.log` / `console.error`, the CSS, the `StatusAlert` colour classes and the JSX markup: logging and presentation.
- src/assets/Footer.jsx (static links) and src/App.jsx (a wrapper with an unused counter): no workflow logic.
