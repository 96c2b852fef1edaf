/** The `DownloadedFiles` component (src/InstagramDownloader.jsx): how a
    file descriptor becomes a browser download, the auto-save effect that
    retrieves every file once the Save actions are switched on, and the
    per-file Save button.

    A browser download (create an anchor, click it, remove it) is modelled
    as the pair it is given: the link target and the file name to save
    under. The component receives `files` and `showSave` as props and has no
    setter of the downloader's state, so no retrieval can change the status
    or the message. */
module DownloadedFiles {
  import opened Wrappers
  import opened Workflow
  import Text

  /** One triggered download: the anchor's `href` and its `download` name. */
  datatype Retrieval = Retrieval(target: string, filename: string)

  /** Retrieval targets are relative paths on the page's own origin. */
  const RoutePrefix: string := "/api/download/"

  /** `/api/download/${file.type}/${file.name}`. */
  function Target(f: FileDescriptor): string {
    RoutePrefix + f.fileType + "/" + f.name
  }

  /** The download one anchor click triggers for `f`. */
  function Retrieve(f: FileDescriptor): Retrieval {
    Retrieval(Target(f), f.name)
  }

  /** The model's own inverse of `Target`: after the prefix, the type runs up
      to the first `/` and the name is the rest. */
  function SplitTarget(t: string): Option<(string, string)> {
    if |t| < |RoutePrefix| || t[..|RoutePrefix|] != RoutePrefix then
      None
    else
      var rest := t[|RoutePrefix|..];
      match Text.FirstIndex(rest, '/')
      case None => None
      case Some(k) => Some((rest[..k], rest[k + 1..]))
  }

  /** A target names its file: when the type has no `/`, splitting the target
      gives back exactly the type and the name it was built from. */
  lemma TargetRoundTrip(f: FileDescriptor)
    requires '/' !in f.fileType
    ensures SplitTarget(Target(f)) == Some((f.fileType, f.name))
  {
    var t := Target(f);
    assert t[..|RoutePrefix|] == RoutePrefix;
    var rest := t[|RoutePrefix|..];
    var n := |f.fileType|;
    assert rest == f.fileType + "/" + f.name;
    assert rest[n] == '/';
    var k := Text.FirstIndex(rest, '/').value;
    assert k == n;
    assert rest[..n] == f.fileType;
    assert rest[n + 1..] == f.name;
  }

  /** The `/`-free condition is needed: two different descriptors whose type
      and name share a `/` are sent to one and the same target. */
  lemma SlashInTypeMakesTargetsCollide()
    ensures FileDescriptor("c", "a/b", "") != FileDescriptor("b/c", "a", "")
    ensures Target(FileDescriptor("c", "a/b", "")) == Target(FileDescriptor("b/c", "a", ""))
  {
    assert Target(FileDescriptor("c", "a/b", "")) == RoutePrefix + "a/b/c";
    assert Target(FileDescriptor("b/c", "a", "")) == RoutePrefix + "a/b/c";
  }

  /** Retrieval targets are relative paths, unlike the extraction request,
      which goes to the absolute backend URL; the two never coincide. */
  lemma TargetIsRelative(f: FileDescriptor)
    ensures Target(f)[0] == '/'
    ensures DownloadEndpoint[..|ApiScheme|] == ApiScheme
    ensures Target(f) != DownloadEndpoint
  {
    assert DownloadEndpoint[..|ApiScheme|] == ApiScheme;
    assert DownloadEndpoint[0] == 'h';
  }

  /** One retrieval per file, in list order. */
  function Retrievals(files: seq<FileDescriptor>): seq<Retrieval> {
    seq(|files|, i requires 0 <= i < |files| => Retrieve(files[i]))
  }

  /** What the auto-save effect triggers for the props it is given. */
  function AutoSaveTrace(showSave: bool, files: seq<FileDescriptor>): seq<Retrieval> {
    if showSave && |files| > 0 then Retrievals(files) else []
  }

  /** The auto-save effect: when the Save actions are on and there is at
      least one file, retrieve every file, one after the other. */
  method AutoSave(showSave: bool, files: seq<FileDescriptor>) returns (trace: seq<Retrieval>)
    ensures trace == AutoSaveTrace(showSave, files)
  {
    trace := [];
    if showSave && |files| > 0 {
      var i := 0;
      while i < |files|
        invariant 0 <= i <= |files|
        invariant |trace| == i
        invariant forall k :: 0 <= k < i ==> trace[k] == Retrieve(files[k])
      {
        trace := trace + [Retrieve(files[i])];
        i := i + 1;
      }
    }
  }

  /** The auto-save trace holds exactly one retrieval per file, in list
      order, each aimed at its file's target and saved under its name, and
      nothing at all while the Save actions are off or the list is empty. */
  lemma {:induction false} AutoSaveOnePerFile(showSave: bool, files: seq<FileDescriptor>)
    ensures !showSave || files == [] ==> AutoSaveTrace(showSave, files) == []
    ensures showSave ==> |AutoSaveTrace(showSave, files)| == |files|
    ensures showSave ==> forall i :: 0 <= i < |files| ==>
      AutoSaveTrace(showSave, files)[i].target == RoutePrefix + files[i].fileType + "/" + files[i].name &&
      AutoSaveTrace(showSave, files)[i].filename == files[i].name
    ensures showSave ==> forall i :: 0 <= i < |files| && '/' !in files[i].fileType ==>
      SplitTarget(AutoSaveTrace(showSave, files)[i].target) == Some((files[i].fileType, files[i].name))
  {
    forall i | 0 <= i < |files| && '/' !in files[i].fileType
      ensures SplitTarget(Retrievals(files)[i].target) == Some((files[i].fileType, files[i].name))
    {
      TargetRoundTrip(files[i]);
    }
  }

  /** The Save button of one row: rendered only while the Save actions are
      on; a click triggers the file's download. */
  function SaveAction(showSave: bool, f: FileDescriptor): Option<Retrieval> {
    if showSave then Some(Retrieve(f)) else None
  }

  /** The Save button of a row exists only while the Save actions are on, and
      a click on it triggers the very download the auto-save effect triggers
      for that file. A click depends on the props alone, with nothing
      recorded, so every click triggers that download again. */
  lemma SaveActionMatchesAutoSave(files: seq<FileDescriptor>, i: nat)
    requires i < |files|
    ensures SaveAction(false, files[i]).None?
    ensures SaveAction(true, files[i]) == Some(AutoSaveTrace(true, files)[i])
  {
  }

  /** A successful download with files switches the Save actions from off
      (set when the request went out) to on, which re-runs the effect, and
      the effect then retrieves exactly the returned files. */
  lemma SuccessfulDownloadSavesEveryFile(s: State, m: Option<string>, fs: seq<FileDescriptor>)
    requires s.url != "" && fs != []
    ensures !Submit(s).state.showSave
    ensures Download(s, Response(true, m, fs)).showSave
    ensures AutoSaveTrace(Download(s, Response(true, m, fs)).showSave,
                          Download(s, Response(true, m, fs)).files) == Retrievals(fs)
  {
  }

  /** A failed download, of whatever kind, leaves the Save actions off, so
      the effect retrieves nothing even though the old files stay listed. */
  lemma FailedDownloadSavesNothing(s: State, o: Outcome)
    requires s.url != ""
    requires o.Exception? || !o.ok
    ensures Download(s, o).files == s.files
    ensures AutoSaveTrace(Download(s, o).showSave, Download(s, o).files) == []
  {
  }
}
