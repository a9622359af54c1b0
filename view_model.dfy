/** The view controller of App.tsx as a transition system over snapshots of
    its four pieces of component state. The class in app.dfy is proved to
    follow `Step`; this module proves what holds of every state the user can
    reach from the initial one. */
module ViewModel {
  import opened Wrappers
  import opened Types

  /** Stored for a file of an unsupported type. */
  const ValidationMessage: string := "请上传视频或音频文件。"
  /** Stored whenever the analysis throws, whatever it threw. */
  const FailureMessage: string := "分析过程中发生错误，请稍后重试或检查文件是否过大。"

  /** `state`, `result`, `fileName` and `errorMsg`. `result` is `None`
      while it is `null`, and also when the reply text parsed to `false` or
      `""`: the falsy values the success view shows as nothing. */
  datatype Snapshot = Snapshot(
    state: AppState,
    result: Option<AnalysisResult>,
    fileName: string,
    errorMsg: string)

  /** The values the four `useState` calls start from. */
  function Initial(): (s: Snapshot)
    ensures Inv(s)
  {
    Snapshot(IDLE, None, "", "")
  }

  /** `type.startsWith('video/') || type.startsWith('audio/')`. */
  predicate IsAcceptedMediaType(mimeType: string) {
    "video/" <= mimeType || "audio/" <= mimeType
  }

  /** What can happen to the component: the file input fires (with the first
      selected file, if any), the awaited analysis settles (with the parsed
      value, possibly `null`, or with what it threw), or a retry button is
      pressed. */
  datatype Action =
    | FileChosen(file: Option<MediaFile>)
    | AnalysisSettled(outcome: Result<Option<AnalysisResult>, Thrown>)
    | RetryPressed

  /** The upload view, and with it the file input, is rendered only in IDLE. */
  predicate FileInputRendered(s: Snapshot) {
    s.state == IDLE
  }

  /** A retry button is rendered by the error view, and by the success view,
      which shows only when `result` is not `null`. */
  predicate RetryRendered(s: Snapshot) {
    s.state == ERROR || (s.state == SUCCESS && s.result.Some?)
  }

  /** Whether an action can happen in a snapshot: the user acts only through
      rendered controls, and an analysis settles only while it is awaited. */
  predicate Enabled(s: Snapshot, a: Action) {
    match a
    case FileChosen(_) => FileInputRendered(s)
    case AnalysisSettled(_) => s.state == ANALYZING
    case RetryPressed => RetryRendered(s)
  }

  /** What ties the four variables together in every reachable snapshot. */
  ghost predicate Inv(s: Snapshot) {
    match s.state
    case IDLE => s.result.None? && s.fileName == "" && (s.errorMsg == "" || s.errorMsg == ValidationMessage)
    case ANALYZING => s.result.None? && s.errorMsg == ""
    case SUCCESS => s.errorMsg == ""
    case ERROR => s.result.None? && s.errorMsg == FailureMessage
  }

  /** The effect of one action: `handleFileChange` up to its `await`, the
      rest of it once the analysis settles, and `handleRetry`. Every enabled
      action keeps the invariant. */
  function Step(s: Snapshot, a: Action): (t: Snapshot)
    ensures Inv(s) && Enabled(s, a) ==> Inv(t)
  {
    match a
    case FileChosen(None) => s
    case FileChosen(Some(file)) =>
      if !IsAcceptedMediaType(file.mimeType) then s.(errorMsg := ValidationMessage)
      else s.(fileName := file.name, errorMsg := "", state := ANALYZING)
    case AnalysisSettled(Success(data)) => s.(result := data, state := SUCCESS)
    case AnalysisSettled(Failure(_)) => s.(errorMsg := FailureMessage, state := ERROR)
    case RetryPressed => Snapshot(IDLE, None, "", "")
  }

  /** A sequence of actions each of which is enabled when it happens. */
  predicate EnabledRun(s: Snapshot, actions: seq<Action>)
    decreases |actions|
  {
    actions == [] || (Enabled(s, actions[0]) && EnabledRun(Step(s, actions[0]), actions[1..]))
  }

  /** The snapshot after a sequence of actions. */
  function Run(s: Snapshot, actions: seq<Action>): (t: Snapshot)
    decreases |actions|
  {
    if actions == [] then s else Run(Step(s, actions[0]), actions[1..])
  }

  ghost predicate Reachable(s: Snapshot) {
    exists actions :: EnabledRun(Initial(), actions) && Run(Initial(), actions) == s
  }

  /** Runs of one, two and three actions, unfolded. */
  lemma RunOfThree(s: Snapshot, a: Action, b: Action, c: Action)
    ensures Run(s, [a]) == Step(s, a)
    ensures EnabledRun(s, [a]) == Enabled(s, a)
    ensures Run(s, [a, b]) == Step(Step(s, a), b)
    ensures EnabledRun(s, [a, b]) == (Enabled(s, a) && Enabled(Step(s, a), b))
    ensures Run(s, [a, b, c]) == Step(Step(Step(s, a), b), c)
    ensures EnabledRun(s, [a, b, c]) ==
      (Enabled(s, a) && Enabled(Step(s, a), b) && Enabled(Step(Step(s, a), b), c))
  {
    assert [a][1..] == [] && [b][1..] == [] && [c][1..] == [];
    assert [a, b][1..] == [b] && [b, c][1..] == [c];
    assert [a, b, c][1..] == [b, c];
    var s1 := Step(s, a);
    var s2 := Step(s1, b);
    assert Run(s1, [b]) == Run(s2, []);
    assert Run(s2, [c]) == Run(Step(s2, c), []);
    assert Run(s1, [b, c]) == Run(s2, [c]);
    assert EnabledRun(s1, [b]) == (Enabled(s1, b) && EnabledRun(s2, []));
    assert EnabledRun(s2, [c]) == (Enabled(s2, c) && EnabledRun(Step(s2, c), []));
    assert EnabledRun(s1, [b, c]) == (Enabled(s1, b) && EnabledRun(s2, [c]));
  }

  /** The invariant survives any enabled run. */
  lemma {:induction false} RunPreservesInv(s: Snapshot, actions: seq<Action>)
    requires Inv(s) && EnabledRun(s, actions)
    ensures Inv(Run(s, actions))
    decreases |actions|
  {
    if actions != [] {
      RunPreservesInv(Step(s, actions[0]), actions[1..]);
    }
  }

  /** In every reachable snapshot the error view shows the generic failure
      message, only SUCCESS can hold a result, SUCCESS and ANALYZING hold no
      message, and an idle snapshot holds no file name. */
  lemma ReachableIsConsistent(s: Snapshot)
    requires Reachable(s)
    ensures s.state == ERROR ==> s.errorMsg == FailureMessage
    ensures s.state != SUCCESS ==> s.result.None?
    ensures s.state == SUCCESS || s.state == ANALYZING ==> s.errorMsg == ""
    ensures s.state == IDLE ==> s.fileName == ""
  {
    var actions :| EnabledRun(Initial(), actions) && Run(Initial(), actions) == s;
    RunPreservesInv(Initial(), actions);
  }

  /** Retry restores exactly the initial snapshot, so a second retry changes nothing. */
  lemma RetryResets(s: Snapshot)
    ensures Step(s, RetryPressed) == Initial()
    ensures Step(Step(s, RetryPressed), RetryPressed) == Step(s, RetryPressed)
  {
  }

  /** A sample accepted file, used to leave IDLE. */
  function SampleClip(): (file: MediaFile) {
    MediaFile("a.mp4", "video/mp4")
  }

  /** From every snapshot satisfying the invariant the user can get back to
      the initial one, unless the analysis resolved with `null`: at once
      from ERROR and from SUCCESS with a result, after the analysis settles
      from ANALYZING, and through a whole analysis from IDLE. */
  lemma {:induction false} InitialRecoverable(s: Snapshot, outcome: Result<Option<AnalysisResult>, Thrown>)
    requires Inv(s)
    ensures s.state == ERROR || (s.state == SUCCESS && s.result.Some?) ==>
      EnabledRun(s, [RetryPressed]) && Run(s, [RetryPressed]) == Initial()
    ensures s.state == ANALYZING && outcome != Success(None) ==>
      var actions := [AnalysisSettled(outcome), RetryPressed];
      EnabledRun(s, actions) && Run(s, actions) == Initial()
    ensures s.state == IDLE && outcome != Success(None) ==>
      var actions := [FileChosen(Some(SampleClip())), AnalysisSettled(outcome), RetryPressed];
      EnabledRun(s, actions) && Run(s, actions) == Initial()
  {
    var clip := [FileChosen(Some(SampleClip())), AnalysisSettled(outcome), RetryPressed];
    assert "video/" <= SampleClip().mimeType;
    RunOfThree(s, clip[0], clip[1], clip[2]);
    RunOfThree(s, AnalysisSettled(outcome), RetryPressed, RetryPressed);
    RunOfThree(s, RetryPressed, RetryPressed, RetryPressed);
  }

  /** The panel the main area shows. */
  datatype Panel =
    | UploadForm
    | Spinner
    | ErrorAlert(message: string)
    | Report(fileName: string, result: AnalysisResult)
    | Blank

  /** The four conditional blocks of the main area. The upload form holds
      the file input, the error alert and the report hold the retry buttons,
      and nothing is shown in SUCCESS while `result` is `null`. */
  function Render(s: Snapshot): (p: Panel)
    ensures p.UploadForm? <==> FileInputRendered(s)
    ensures p.ErrorAlert? || p.Report? <==> RetryRendered(s)
    ensures p == Blank <==> s.state == SUCCESS && s.result.None?
    ensures p.Report? ==> p.fileName == s.fileName && s.result == Some(p.result)
  {
    match s.state
    case IDLE => UploadForm
    case ANALYZING => Spinner
    case ERROR => ErrorAlert(s.errorMsg)
    case SUCCESS => if s.result.Some? then Report(s.fileName, s.result.value) else Blank
  }

  /** No action can happen any more. */
  ghost predicate DeadEnd(s: Snapshot) {
    forall a :: !Enabled(s, a)
  }

  /** In every reachable snapshot the only message an alert shows is the
      generic failure message (the validation message stored for a rejected
      file is never on screen, because the upload view does not display
      `errorMsg`), and the main area is blank exactly in the dead end where
      no control is left. */
  lemma ReachableRendering(s: Snapshot)
    requires Reachable(s)
    ensures Render(s).ErrorAlert? ==> Render(s).message == FailureMessage
    ensures Render(s) == Blank <==> DeadEnd(s)
  {
    ReachableIsConsistent(s);
    match s.state
    case IDLE => assert Enabled(s, FileChosen(None));
    case ANALYZING => assert Enabled(s, AnalysisSettled(Failure(Thrown(""))));
    case ERROR => assert Enabled(s, RetryPressed);
    case SUCCESS =>
      if s.result.Some? { assert Enabled(s, RetryPressed); }
  }

  /** The dead end is reachable: an accepted file whose reply text parses to
      `null`, `false` or `""` enters SUCCESS with a falsy result, which
      renders nothing and leaves neither a file input nor a retry button. */
  lemma NullReplyDeadEnd(file: MediaFile)
    requires IsAcceptedMediaType(file.mimeType)
    ensures
      var actions := [FileChosen(Some(file)), AnalysisSettled(Success(None))];
      var s := Run(Initial(), actions);
      EnabledRun(Initial(), actions) && Reachable(s) &&
      s.state == SUCCESS && Render(s) == Blank && DeadEnd(s)
  {
    var actions := [FileChosen(Some(file)), AnalysisSettled(Success(None))];
    RunOfThree(Initial(), actions[0], actions[1], RetryPressed);
    var s := Run(Initial(), actions);
    assert s == Snapshot(SUCCESS, None, file.name, "");
    forall a ensures !Enabled(s, a) {
    }
  }

  /** The scenario of a short video whose analysis yields one cue: after the
      selection and the successful analysis, the success view shows the file
      name and that cue with its five fields. */
  lemma {:induction false} ClipScenario()
    ensures
      var cue := HiddenCue("00:15", "还好吧", "皱眉", "语速加快", "口头轻描淡写但表情与语速显示焦虑");
      var data := AnalysisResult("...", "焦虑", [cue], "...");
      var actions := [FileChosen(Some(MediaFile("clip.mp4", "video/mp4"))), AnalysisSettled(Success(Some(data)))];
      EnabledRun(Initial(), actions) &&
      Run(Initial(), actions) == Snapshot(SUCCESS, Some(data), "clip.mp4", "") &&
      Render(Run(Initial(), actions)) == Report("clip.mp4", data)
  {
    var cue := HiddenCue("00:15", "还好吧", "皱眉", "语速加快", "口头轻描淡写但表情与语速显示焦虑");
    var data := AnalysisResult("...", "焦虑", [cue], "...");
    var file := MediaFile("clip.mp4", "video/mp4");
    assert "video/" <= file.mimeType;
    RunOfThree(Initial(), FileChosen(Some(file)), AnalysisSettled(Success(Some(data))), RetryPressed);
  }
}
