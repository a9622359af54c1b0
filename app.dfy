/** App.tsx: the component's four state variables as fields of a class, and
    its handlers as methods. `handleFileChange` is cut at its `await` into
    `SelectFile` and `CompleteAnalysis`; `HandleFileChange` puts the two
    halves back together around `analyzeMedia`. */
module AppComponent {
  import opened Wrappers
  import opened Types
  import opened ViewModel
  import GeminiService

  class App {
    var state: AppState
    var result: Option<AnalysisResult>
    var fileName: string
    var errorMsg: string

    /** The four fields as one value. */
    function Current(): (s: Snapshot)
      reads this
    {
      Snapshot(state, result, fileName, errorMsg)
    }

    ghost predicate Valid()
      reads this
    {
      Inv(Current())
    }

    /** The four `useState` initial values. */
    constructor ()
      ensures Valid()
      ensures Current() == Initial()
      ensures state == IDLE && result == None && fileName == "" && errorMsg == ""
    {
      state := IDLE;
      result := None;
      fileName := "";
      errorMsg := "";
    }

    /** `handleFileChange` up to its `await`. The file input is rendered only
        in IDLE, so only an IDLE component receives a selection. `started`
        says whether the analysis is now to be awaited. */
    method SelectFile(file: Option<MediaFile>) returns (started: bool)
      requires Valid()
      requires FileInputRendered(Current())
      modifies this
      ensures Valid()
      ensures Current() == Step(old(Current()), FileChosen(file))
      ensures started <==> file.Some? && IsAcceptedMediaType(file.value.mimeType)
      // No file: nothing changes.
      ensures file.None? ==> Current() == old(Current())
      // A file of another type: only the validation message is stored.
      ensures file.Some? && !started ==>
        state == old(state) && result == old(result) && fileName == old(fileName) &&
        errorMsg == ValidationMessage
      // An accepted file: its name is shown, the message cleared, the spinner on.
      ensures started ==>
        state == ANALYZING && fileName == file.value.name && errorMsg == "" && result == old(result)
    {
      if file.None? {
        return false;
      }
      var f := file.value;
      if !("video/" <= f.mimeType) && !("audio/" <= f.mimeType) {
        errorMsg := ValidationMessage;
        return false;
      }
      fileName := f.name;
      errorMsg := "";
      state := ANALYZING;
      started := true;
    }

    /** `handleFileChange` after its `await`: the analysis resolved with a
        parsed value (`None` for `null`, `false` or `""`) or threw. */
    method CompleteAnalysis(outcome: Result<Option<AnalysisResult>, Thrown>)
      requires Valid()
      requires state == ANALYZING
      modifies this
      ensures Valid()
      ensures Current() == Step(old(Current()), AnalysisSettled(outcome))
      // Success: the parsed value is stored and SUCCESS entered; the file name stays.
      ensures outcome.Success? ==>
        state == SUCCESS && result == outcome.value &&
        fileName == old(fileName) && errorMsg == old(errorMsg)
      // Failure of any kind: the generic message; the result stays.
      ensures outcome.Failure? ==>
        state == ERROR && errorMsg == FailureMessage &&
        result == old(result) && fileName == old(fileName)
    {
      match outcome
      case Success(data) =>
        result := data;
        state := SUCCESS;
      case Failure(_) =>
        errorMsg := FailureMessage;
        state := ERROR;
    }

    /** `handleRetry`, reachable from the retry buttons of the error and the
        success views. */
    method Retry()
      requires Valid()
      requires RetryRendered(Current())
      modifies this
      ensures Valid()
      ensures Current() == Step(old(Current()), RetryPressed)
      ensures Current() == Initial()
    {
      state := IDLE;
      result := None;
      fileName := "";
      errorMsg := "";
    }

    /** The whole of `handleFileChange`: select, await `analyzeMedia`, settle.
        `outcome` is what the analysis settled with, when one was started. */
    method HandleFileChange(
      file: Option<MediaFile>,
      apiKey: Option<string>,
      readAsDataUrl: MediaFile -> Result<string, Thrown>,
      generateContent: GeminiService.GenerateRequest -> Result<GeminiService.Reply, Thrown>,
      parseJson: string -> Result<Option<AnalysisResult>, Thrown>)
      returns (outcome: Option<Result<Option<AnalysisResult>, Thrown>>, calls: seq<GeminiService.Call>)
      requires Valid()
      requires FileInputRendered(Current())
      modifies this
      ensures Valid()
      ensures outcome.Some? <==> file.Some? && IsAcceptedMediaType(file.value.mimeType)
      // Without an analysis only the selection step happens, and nothing is called.
      ensures outcome.None? ==>
        Current() == Step(old(Current()), FileChosen(file)) && calls == []
      // With one, the outcome and the calls are those of `analyzeMedia` on the
      // selected file and the given oracles.
      ensures outcome.Some? ==>
        GeminiService.AnalyzeSpec(apiKey, file.value, readAsDataUrl, generateContent, parseJson, outcome.value, calls)
      // The component passes through ANALYZING and settles in SUCCESS or ERROR.
      ensures outcome.Some? ==>
        Current() == Run(old(Current()), [FileChosen(file), AnalysisSettled(outcome.value)])
      ensures outcome.Some? ==> state == (if outcome.value.Success? then SUCCESS else ERROR)
      ensures GeminiService.RequestCount(calls) <= 1
      // A missing key still shows the spinner first, then the error view; no request is made.
      ensures outcome.Some? && !GeminiService.Truthy(apiKey) ==>
        state == ERROR && errorMsg == FailureMessage && calls == []
    {
      ghost var before := Current();
      var started := SelectFile(file);
      if !started {
        return None, [];
      }
      var r;
      r, calls := GeminiService.AnalyzeMedia(apiKey, file.value, readAsDataUrl, generateContent, parseJson);
      GeminiService.AnalyzeSpecOneRequest(apiKey, file.value, readAsDataUrl, generateContent, parseJson, r, calls);
      CompleteAnalysis(r);
      outcome := Some(r);
      RunOfThree(before, FileChosen(file), AnalysisSettled(r), RetryPressed);
    }
  }
}
