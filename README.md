# EmoSense social-emotion assistant: view controller and analysis client

EmoSense is a browser front end: the user picks a video or audio clip, the
clip is sent once to a hosted multimodal model, and the structured report
that comes back (summary, dominant emotion, hidden cues, social advice) is
shown, or a failure view with a retry button. This project models the two
parts of it that carry behaviour.

- **The view controller of `App.tsx`.** The component's four state variables
  (`state`, `result`, `fileName`, `errorMsg`) are the fields of the class
  `AppComponent.App`. `handleFileChange` is an async handler; it is cut at
  its `await` into `SelectFile` (validation, then ANALYZING) and
  `CompleteAnalysis` (SUCCESS or ERROR), and `HandleFileChange` composes the
  two around `analyzeMedia`. `handleRetry` is `Retry`. Which controls exist
  in which state follows from the conditional rendering and becomes the
  methods' preconditions: the file input only in IDLE, the retry buttons only
  in ERROR and in SUCCESS with a non-null result. Every method is proved to
  follow the pure transition function `ViewModel.Step`; `ViewModel` proves
  the invariant of every reachable snapshot (ERROR always carries the generic
  message, only SUCCESS can hold a result, IDLE holds no file name), which
  panel each snapshot renders, that retry restores the initial snapshot, and
  from which snapshots the initial one can be reached again.
- **The analysis client of `services/geminiService.ts`.** `analyzeMedia` is
  the method `GeminiService.AnalyzeMedia`. The SDK's `generateContent`, the
  browser's `FileReader` and `JSON.parse` are parameters (total functions
  that succeed with a value or throw a `Thrown`), and the method returns,
  beside the result, the trace of its outside effects: client construction,
  file read, generation request. Its contract, the predicate
  `GeminiService.AnalyzeSpec`, says that a missing key fails before any of
  these, that at most one request is made and one exactly when the key is
  set and the file could be read, that the request carries the file's media
  type and the extracted payload, that an empty reply is an error, and that
  every thrown value reaches the caller unchanged. The payload extraction
  `split(",")[1]` is `GeminiService.Payload`, over a model of JavaScript's
  `split` (`Strings.Split`) proved to be the inverse of `join` in both
  directions.

Behaviours of the code a reader may not expect, all stated and proved:

- With the key missing, the component enters ANALYZING before `analyzeMedia`
  checks the key, and then ERROR (`AppComponent.App.HandleFileChange`).
- The parsed reply is not validated: `JSON.parse(text) as AnalysisResult` is
  a cast. The parse oracle therefore returns an optional result, `None`
  standing for `null`, `false` or `""`, the falsy values React renders as
  nothing (the reply texts `"null"`, `"false"` and `"\"\""` parse to them).
  Such a value is stored and SUCCESS entered; the success view then renders
  nothing and offers no retry button, and with the file input gone the user
  has no control left (`ViewModel.NullReplyDeadEnd`). Every other reachable
  snapshot leads back to the initial one once the pending analysis, if any,
  has settled (`ViewModel.InitialRecoverable`); a request that never answers
  keeps the spinner on screen.
- A file of an unsupported type stores the validation message in
  `errorMsg`, but the IDLE view never displays `errorMsg`, so that message is
  never on screen (`ViewModel.ReachableRendering`).

## Model

| member | source | states |
|---|---|---|
| AppComponent.App.constructor | App.tsx:9-12 | The component starts IDLE, with no result, an empty file name and an empty message: the initial snapshot, which satisfies the invariant. |
| AppComponent.App.SelectFile | App.tsx:15-27 | Only an IDLE component receives a selection. No file changes nothing; a type starting with neither `video/` nor `audio/` only sets the validation message and starts no analysis; an accepted file sets the file name, clears the message and enters ANALYZING, before any outcome is known. |
| AppComponent.App.CompleteAnalysis | App.tsx:29-37 | Only while ANALYZING. The parsed value is stored and SUCCESS entered, the file name kept; any thrown value sets the fixed generic message and enters ERROR, the result kept. The invariant is preserved. |
| AppComponent.App.Retry | App.tsx:40-44 | Only from the error view or the success view; restores exactly the initial snapshot. |
| AppComponent.App.HandleFileChange | App.tsx:15-38 | An analysis is awaited exactly when an accepted file was selected; its outcome and calls are those `AnalyzeSpec` gives for the selected file and the oracles; the component passes through ANALYZING and settles in SUCCESS or ERROR according to that outcome, with at most one request; with the key missing it ends in ERROR with no request. |
| ViewModel.Initial | App.tsx:9-12 | The initial snapshot satisfies the reachability invariant. |
| ViewModel.Step | App.tsx:15-46 | One transition of the two handlers; every transition enabled in a snapshot satisfying the invariant leads to a snapshot satisfying it. |
| ViewModel.RunPreservesInv | App.tsx:15-46 | The invariant survives every sequence of enabled transitions. |
| ViewModel.ReachableIsConsistent | App.tsx:9-46 | In every reachable snapshot ERROR carries the generic message, every state but SUCCESS has no result, SUCCESS and ANALYZING have no message and IDLE has no file name. |
| ViewModel.RetryResets | App.tsx:40-44 | Retry yields the initial snapshot from any snapshot, so a second retry changes nothing. |
| ViewModel.InitialRecoverable | App.tsx:15-46 | From every snapshot satisfying the invariant an enabled run leads back to the initial one, unless the analysis resolves with `null`, `false` or `""`: by retry from ERROR and from SUCCESS with a result, after the analysis settles from ANALYZING, through a whole analysis from IDLE. |
| ViewModel.Render | App.tsx:64-144 | The upload form (with the file input) shows exactly in IDLE, the panels with retry buttons exactly when retry is enabled, a report shows the stored file name and result, and the area is blank exactly in SUCCESS with a null result. |
| ViewModel.ReachableRendering | App.tsx:64-144 | In every reachable snapshot an alert shows only the generic failure message, never the validation message; the main area is blank exactly when no action can happen any more. |
| ViewModel.NullReplyDeadEnd | services/geminiService.ts:84-87 | An accepted file whose reply parses to `null`, `false` or `""` leads, by an enabled run, to a reachable SUCCESS snapshot that renders nothing and in which no action can happen. |
| ViewModel.ClipScenario | App.tsx:15-32 | Selecting `clip.mp4` of type `video/mp4` and receiving a one-cue report is an enabled run that ends in SUCCESS with that report and file name, rendered as the report panel with the cue's five fields. |
| GeminiService.FileToGenerativePart | services/geminiService.ts:94-106 | The promise rejects exactly when the reader fails, with the reader's error; otherwise it resolves with the payload of the data URL. |
| GeminiService.AnalyzeMedia | services/geminiService.ts:49-92 | Meets `AnalyzeSpec`: a missing or empty key fails with its own error before a client is built or a request made; otherwise client, then read, then one request as the third and last call, made exactly when the read succeeds, carrying the model name, the file's media type and the extracted payload; reader and request errors re-thrown unchanged; an absent or empty reply text is an error; otherwise the parse's value or error is the outcome. |
| GeminiService.AnalyzeSpecOneRequest | services/geminiService.ts:62-82 | Every call of `analyzeMedia` makes one request when the key is set and the file was read, and none otherwise: it never retries. |
| GeminiService.OneRequestAtMost | services/geminiService.ts:62-82 | A trace whose only request is its third call, of at most three calls, holds exactly one request when it has three calls and none otherwise. |
| GeminiService.Payload | services/geminiService.ts:98-101 | The payload is absent (`undefined`) exactly when the data URL has no comma; a present payload holds no comma and is shorter than the data URL. |
| GeminiService.PayloadBetweenCommas | services/geminiService.ts:100 | The payload is exactly the text after the first comma up to the next comma or the end. |
| GeminiService.PayloadOfDataUrl | services/geminiService.ts:99-100 | For `data:<type>;base64,<data>` with comma-free parts the payload is exactly `<data>`. |
| Strings.Split | services/geminiService.ts:100 | `split` with a one-character separator gives one piece more than there are separators, and no piece holds a separator. |
| Strings.JoinSplit | services/geminiService.ts:100 | Joining the pieces of a split gives back the string. |
| Strings.SplitJoin | services/geminiService.ts:100 | Splitting a join of separator-free pieces gives back the pieces. |
| Strings.SplitAtFirstSeparator | services/geminiService.ts:100 | The text before the first separator is the first piece, and splitting continues after it. |

## Left out

- The JSX markup of `App.tsx` and the components `AnalysisDisplay` and `LoadingSpinner`: presentation only. Only which panel the main area shows (`ViewModel.Render`) is modelled, because it decides which actions exist.
- The Gemini SDK, the fixed system instruction, the user prompt and the response schema: a foreign library and constant configuration; the request is modelled by the fields that depend on the input (model name, media type, payload).
- `FileReader.readAsDataURL` and base64 encoding: browser I/O, a parameter returning a data URL or an error. The reader's error event is modelled as a `Thrown` value.
- `JSON.parse` and the cast to `AnalysisResult`: a parameter returning an optional result or an error. A parse to `null`, `false` or `""` is `None`; a truthy value that does not have the record's shape (a number, an object missing fields) cannot be expressed, and what `AnalysisDisplay` does with it is not modelled.
- `process.env.API_KEY`: a parameter; only whether it is truthy, and its value handed to the client, matter.
- ViewModel.Render: a reply text of `"0"` (or `"-0"`) parses to `0`, which is falsy but which React renders as the text "0", so the success view shows a bare "0" where the model has `Blank`; `0` is not expressible as a parse value here, and either way no control is left.
- `console.error` logging, and the reset of the DOM file input in `handleRetry` (App.tsx:45).
- Async interleaving: the `await` is a cut between two sequential methods; a second selection while the analysis runs cannot happen because the file input is gone. The analysis is assumed to settle: no time-out surrounds `generateContent` (services/geminiService.ts:62-82), so a request that never answers keeps the component in ANALYZING, which the model does not express.
- A possible throw from constructing the SDK client (services/geminiService.ts:55) is part of the SDK and not modelled.
