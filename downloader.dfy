/** The `InstagramDownloader` component as an object: its six state hooks
    are fields, and each handler updates them in place, one setter call at a
    time, in the order the handler makes them. Every handler is proved to
    land on the state that the matching `Workflow` transition computes, and
    to keep the reachable-state invariant `Workflow.Inv`. */
module Downloader {
  import opened Wrappers
  import opened Workflow

  class InstagramDownloader {
    var url: string
    var isDragging: bool
    var status: Status
    var message: string
    var downloadedFiles: seq<FileDescriptor>
    var showSave: bool

    /** The fields as one state record. */
    function View(): State
      reads this
    {
      State(url, isDragging, status, message, downloadedFiles, showSave)
    }

    ghost predicate Valid()
      reads this
    {
      Inv(View())
    }

    /** Mounting: every hook starts from its initial value. */
    constructor ()
      ensures Valid()
      ensures View() == Initial
    {
      url := "";
      isDragging := false;
      status := Idle;
      message := "";
      downloadedFiles := [];
      showSave := false;
      HandlersPreserveInv(Initial, "", Exception(""));
    }

    /** The text input's `onChange`. */
    method ChangeUrl(text: string)
      requires Valid()
      modifies this
      ensures Valid()
      ensures View() == SetUrl(old(View()), text)
    {
      HandlersPreserveInv(View(), text, Exception(""));
      url := text;
    }

    method HandleDragOver()
      requires Valid()
      modifies this
      ensures Valid()
      ensures View() == DragOver(old(View()))
    {
      HandlersPreserveInv(View(), "", Exception(""));
      isDragging := true;
    }

    method HandleDragLeave()
      requires Valid()
      modifies this
      ensures Valid()
      ensures View() == DragLeave(old(View()))
    {
      HandlersPreserveInv(View(), "", Exception(""));
      isDragging := false;
    }

    /** `handleDrop`, given the dropped plain text. */
    method HandleDrop(text: string)
      requires Valid()
      modifies this
      ensures Valid()
      ensures View() == Drop(old(View()), text)
    {
      HandlersPreserveInv(View(), text, Exception(""));
      isDragging := false;
      if IsInstagramText(text) {
        url := text;
      } else {
        status := Error;
        message := InvalidDropMessage;
      }
    }

    /** `handleDownload` up to its `await`: returns the request it sends,
        or `None` when the guard refuses the empty url. */
    method BeginDownload() returns (request: Option<Request>)
      requires Valid()
      modifies this
      ensures Valid()
      ensures Submission(View(), request) == Submit(old(View()))
    {
      HandlersPreserveInv(View(), "", Exception(""));
      if url == "" {
        status := Error;
        message := EmptyUrlMessage;
        return None;
      }
      status := Loading;
      message := ProcessingMessage;
      showSave := false;
      request := Some(Request(DownloadEndpoint, url));
    }

    /** `handleDownload` after its `await`, for whatever the request came
        out as; it does not look at the current status. */
    method CompleteDownload(outcome: Outcome)
      requires Valid()
      modifies this
      ensures Valid()
      ensures View() == Complete(old(View()), outcome)
    {
      HandlersPreserveInv(View(), "", outcome);
      match outcome {
        case Response(ok, m, fs) =>
          if ok {
            downloadedFiles := fs;
            status := Success;
            message := SuccessMessage;
            showSave := true;
          } else {
            status := Error;
            message := FailureMessage(m);
            showSave := false;
          }
        case Exception(msg) =>
          status := Error;
          message := msg;
          showSave := false;
      }
    }

    /** The whole of `handleDownload` with nothing else happening while the
        request is outstanding; `outcome` is how the request comes out. */
    method HandleDownload(outcome: Outcome) returns (request: Option<Request>)
      requires Valid()
      modifies this
      ensures Valid()
      ensures request == Submit(old(View())).request
      ensures View() == Download(old(View()), outcome)
    {
      request := BeginDownload();
      if request.Some? {
        CompleteDownload(outcome);
      }
    }
  }
}
