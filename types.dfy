/** The records and the view-state enumeration of types.ts, plus the two
    inputs the browser hands to the application: a selected file and a thrown
    value. */
module Types {

  /** One moment where the non-verbal signals diverge from or enrich the words. */
  datatype HiddenCue = HiddenCue(
    timestamp: string,
    spokenText: string,
    visualExpression: string,
    audioTone: string,
    interpretation: string)

  /** The structured report; `hiddenCues` keeps the order the reply gives. */
  datatype AnalysisResult = AnalysisResult(
    summary: string,
    dominantEmotion: string,
    hiddenCues: seq<HiddenCue>,
    socialAdvice: string)

  datatype AppState = IDLE | ANALYZING | SUCCESS | ERROR

  /** The part of a browser `File` the program looks at: its name and its
      media type (`file.type`). Its bytes are only seen through the reader. */
  datatype MediaFile = MediaFile(name: string, mimeType: string)

  /** Whatever a rejected promise or a `throw` carries. */
  datatype Thrown = Thrown(message: string)
}
