/** services/geminiService.ts: the guard, request and error flow of
    `analyzeMedia`, and the payload extraction of `fileToGenerativePart`.
    The SDK's `generateContent`, the browser's `FileReader` and `JSON.parse`
    are oracle parameters that either succeed with a value or throw. */
module GeminiService {
  import opened Wrappers
  import opened Types
  import Strings

  const ModelName: string := "gemini-3-pro-preview"
  const MissingKeyMessage: string := "API Key not found in environment variables."
  const NoResponseMessage: string := "No response from AI"

  /** The part of the generation request that depends on the input: the
      model, and the inline media part (its type and its base64 data, which
      is `undefined` when the data URL held no comma). The fixed instruction,
      user prompt and response schema travel with every request unchanged. */
  datatype GenerateRequest = GenerateRequest(model: string, mimeType: string, data: Option<string>)

  /** The SDK's response; `text` is absent when the model returned nothing. */
  datatype Reply = Reply(text: Option<string>)

  /** The effects `analyzeMedia` has on the outside world, in the order it
      has them. */
  datatype Call =
    | ConstructClient(apiKey: string)
    | ReadAsDataUrl(file: MediaFile)
    | GenerateContent(request: GenerateRequest)

  /** JavaScript truthiness of an optional string: present and not empty. */
  predicate Truthy(s: Option<string>) {
    s.Some? && s.value != ""
  }

  /** How many generation requests a trace holds. */
  function RequestCount(calls: seq<Call>): (n: nat)
    decreases |calls|
  {
    if calls == [] then 0
    else (if calls[0].GenerateContent? then 1 else 0) + RequestCount(calls[1..])
  }

  /** A trace of at most three calls whose only request is the third holds
      one request if it has three calls and none otherwise. */
  lemma OneRequestAtMost(calls: seq<Call>)
    requires |calls| <= 3
    requires forall i :: 0 <= i < |calls| ==> (calls[i].GenerateContent? <==> i == 2)
    ensures RequestCount(calls) == if |calls| == 3 then 1 else 0
  {
    if calls != [] {
      var tail := calls[1..];
      if tail != [] {
        var last := tail[1..];
        assert last != [] ==> last[0] == calls[2] && last[1..] == [];
      }
    }
  }

  /** `dataUrl.split(",")[1]`: the text after the first comma up to the next
      comma or the end; `None` (JavaScript's `undefined`) when there is no
      comma at all. */
  function Payload(dataUrl: string): (r: Option<string>)
    ensures r.None? <==> ',' !in dataUrl
    ensures r.Some? ==> ',' !in r.value && |r.value| < |dataUrl|
  {
    var parts := Strings.Split(dataUrl, ',');
    if |parts| >= 2 then
      Strings.JoinSplit(dataUrl, ',');
      PartsShorter(parts, ',');
      Some(parts[1])
    else None
  }

  /** The second piece of a join is shorter than the whole. */
  lemma PartsShorter(parts: seq<string>, sep: char)
    requires |parts| >= 2
    ensures |parts[1]| < |Strings.Join(parts, sep)|
  {
    if |parts| > 2 {
      assert Strings.Join(parts[1..], sep) == parts[1] + [sep] + Strings.Join(parts[2..], sep);
    }
  }

  /** The payload is the text strictly between the first comma (at `i`) and
      the next comma or the end of the string (at `j`). */
  lemma PayloadBetweenCommas(s: string, i: nat, j: nat)
    requires i < j <= |s|
    requires s[i] == ',' && ',' !in s[..i] && ',' !in s[i + 1..j]
    requires j == |s| || s[j] == ','
    ensures Payload(s) == Some(s[i + 1..j])
  {
    var head, body, tail := s[..i], s[i + 1..j], s[j..];
    assert s == head + [','] + (body + tail);
    Strings.SplitAtFirstSeparator(head, ',', body + tail);
    if j == |s| {
      assert body + tail == body;
      Strings.SplitWithoutSeparator(body, ',');
    } else {
      assert body + tail == body + [','] + s[j + 1..];
      Strings.SplitAtFirstSeparator(body, ',', s[j + 1..]);
    }
  }

  /** For a data URL `data:<type>;base64,<data>` whose parts hold no comma,
      the extracted payload is exactly `<data>`. */
  lemma PayloadOfDataUrl(mimeType: string, data: string)
    requires ',' !in mimeType && ',' !in data
    ensures Payload("data:" + mimeType + ";base64," + data) == Some(data)
  {
    var head := "data:" + mimeType + ";base64";
    var s := "data:" + mimeType + ";base64," + data;
    assert ',' !in head by {
      assert head == "data:" + mimeType + ";base64";
      assert ',' !in "data:" && ',' !in ";base64";
    }
    assert s == head + [','] + data;
    assert s[..|head|] == head;
    assert s[|head|] == ',';
    assert s[|head| + 1..|s|] == data;
    PayloadBetweenCommas(s, |head|, |s|);
  }

  /** `fileToGenerativePart`: the promise rejects with the reader's error
      (`reader.onerror = reject`) and otherwise resolves with the data URL's
      payload. */
  function FileToGenerativePart(file: MediaFile, readAsDataUrl: MediaFile -> Result<string, Thrown>)
    : (r: Result<Option<string>, Thrown>)
    ensures r.Failure? <==> readAsDataUrl(file).Failure?
    ensures r.Failure? ==> r.error == readAsDataUrl(file).error
    ensures r.Success? ==> r.value == Payload(readAsDataUrl(file).value)
  {
    match readAsDataUrl(file)
    case Success(dataUrl) => Success(Payload(dataUrl))
    case Failure(e) => Failure(e)
  }

  /** What `analyzeMedia` promises, given its oracles: `r` is the value the
      promise resolves with (`None` when `JSON.parse` yields `null`, `false`
      or `""`) or the value it rejects with, and `calls` lists the
      outside effects in order. */
  ghost predicate AnalyzeSpec(
    apiKey: Option<string>,
    file: MediaFile,
    readAsDataUrl: MediaFile -> Result<string, Thrown>,
    generateContent: GenerateRequest -> Result<Reply, Thrown>,
    parseJson: string -> Result<Option<AnalysisResult>, Thrown>,
    r: Result<Option<AnalysisResult>, Thrown>,
    calls: seq<Call>)
  {
    // A missing or empty key fails before any client exists or any request is made.
    && (!Truthy(apiKey) ==> r == Failure(Thrown(MissingKeyMessage)) && calls == [])
    // Otherwise a client is built from the key, then the file is read.
    && (Truthy(apiKey) ==>
          2 <= |calls| <= 3 && calls[0] == ConstructClient(apiKey.value) && calls[1] == ReadAsDataUrl(file))
    // The only request is the third call, made exactly when the key is there and
    // the file was read (so at most one request: see OneRequestAtMost).
    && (forall i :: 0 <= i < |calls| ==> (calls[i].GenerateContent? <==> i == 2))
    && (|calls| == 3 <==> Truthy(apiKey) && readAsDataUrl(file).Success?)
    // A reader error is passed on unchanged, and no request is made.
    && (Truthy(apiKey) && readAsDataUrl(file).Failure? ==> r == Failure(readAsDataUrl(file).error))
    // The request carries the file's own media type next to the extracted payload,
    // and its outcome decides the result.
    && (|calls| == 3 ==>
          && calls[2].GenerateContent?
          && readAsDataUrl(file).Success?
          && calls[2].request == GenerateRequest(ModelName, file.mimeType, Payload(readAsDataUrl(file).value))
          && ReplyOutcome(generateContent(calls[2].request), parseJson, r))
    // A value is only ever resolved from a parsed, non-empty reply.
    && (r.Success? ==> |calls| == 3)
  }

  /** How the request's outcome becomes the result: what the request throws
      is re-thrown unchanged, an absent or empty reply text is an error, and
      a non-empty text is parsed, the parse's value or error being the
      outcome. */
  ghost predicate ReplyOutcome(
    response: Result<Reply, Thrown>,
    parseJson: string -> Result<Option<AnalysisResult>, Thrown>,
    r: Result<Option<AnalysisResult>, Thrown>)
  {
    && (response.Failure? ==> r == Failure(response.error))
    && (response.Success? && !Truthy(response.value.text) ==> r == Failure(Thrown(NoResponseMessage)))
    && (response.Success? && Truthy(response.value.text) ==> r == parseJson(response.value.text.value))
  }

  /** `analyzeMedia(file)`. `apiKey` is `process.env.API_KEY`. */
  method AnalyzeMedia(
    apiKey: Option<string>,
    file: MediaFile,
    readAsDataUrl: MediaFile -> Result<string, Thrown>,
    generateContent: GenerateRequest -> Result<Reply, Thrown>,
    parseJson: string -> Result<Option<AnalysisResult>, Thrown>)
    returns (r: Result<Option<AnalysisResult>, Thrown>, calls: seq<Call>)
    ensures AnalyzeSpec(apiKey, file, readAsDataUrl, generateContent, parseJson, r, calls)
  {
    calls := [];
    if !Truthy(apiKey) {
      return Failure(Thrown(MissingKeyMessage)), calls;
    }
    calls := [ConstructClient(apiKey.value), ReadAsDataUrl(file)];
    var part := FileToGenerativePart(file, readAsDataUrl);
    if part.Failure? {
      return Failure(part.error), calls;
    }
    var request := GenerateRequest(ModelName, file.mimeType, part.value);

    calls := calls + [GenerateContent(request)];
    var response := generateContent(request);
    if response.Failure? {
      return Failure(response.error), calls;
    }
    var text := response.value.text;
    if !Truthy(text) {
      return Failure(Thrown(NoResponseMessage)), calls;
    }
    r := parseJson(text.value);
  }

  /** Every call of `analyzeMedia` makes at most one request. */
  lemma AnalyzeSpecOneRequest(
    apiKey: Option<string>,
    file: MediaFile,
    readAsDataUrl: MediaFile -> Result<string, Thrown>,
    generateContent: GenerateRequest -> Result<Reply, Thrown>,
    parseJson: string -> Result<Option<AnalysisResult>, Thrown>,
    r: Result<Option<AnalysisResult>, Thrown>,
    calls: seq<Call>)
    requires AnalyzeSpec(apiKey, file, readAsDataUrl, generateContent, parseJson, r, calls)
    ensures RequestCount(calls) == if Truthy(apiKey) && readAsDataUrl(file).Success? then 1 else 0
  {
    OneRequestAtMost(calls);
  }
}
