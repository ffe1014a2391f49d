/** The result assembly of `LanguageDetector.detect_language` in stt.py: a
    transcription, a model-written JSON analysis of it with a default analysis
    when the reply is not JSON, and an error record for every other failure. */
module Stt {
  import opened Wrappers
  import opened Json

  /** What the transcription call returned: the text, the language it reports
      (`None` where it reports none), and its `model_dump()`, which the model
      keeps as an opaque value. */
  datatype Transcription = Transcription(text: string, language: Option<string>, dump: Value)

  /** stt.py's result record. `detectedLanguage` and `confidence` are whatever
      the analysis holds under its keys, so they are kept as JSON values;
      `processing_time` is left out. */
  datatype LanguageDetectionResult = LanguageDetectionResult(
    detectedLanguage: Value,
    confidence: Value,
    transcription: string,
    rawResponse: map<string, Value>)

  /** Python's `language or default` for an optional string: `None` and the
      empty string give way to the default. */
  function OrDefault(language: Option<string>, default: string): (r: string)
    ensures language.Some? && language.value != "" ==> r == language.value
    ensures language.None? || language.value == "" ==> r == default
  {
    match language
    case Some(l) => if l != "" then l else default
    case None => default
  }

  /** The analysis used when the model's reply is not valid JSON. */
  function FallbackAnalysis(t: Transcription): map<string, Value> {
    map[
      "primary_language" := Str(OrDefault(t.language, "unknown")),
      "language_code" := Str(OrDefault(t.language, "unk")),
      "confidence" := Float(0.7),
      "is_code_mixed" := Bool(false),
      "secondary_languages" := Arr([]),
      "script_type" := Str("unknown"),
      "region_dialect" := Str("unknown"),
      "reasoning" := Str("Fallback due to JSON parsing error")]
  }

  /** The analysis after the inner `try`: the decoded reply, or the fallback
      when decoding failed. */
  function Analysis(t: Transcription, decoded: Decoded): Value {
    match decoded
    case Decoded(v) => v
    case DecodeError => Obj(FallbackAnalysis(t))
  }

  /** Python's `v[key]` on a decoded value: the entry, or the text of the
      `TypeError` or `KeyError` it raises. */
  function Subscript(v: Value, key: string): (r: Outcome<Value>)
    ensures r.Ok? <==> v.Obj? && key in v.fields
    ensures r.Ok? ==> r.payload == v.fields[key]
    ensures !v.Obj? ==> r == Fail(SubscriptError(v).value)
    ensures v.Obj? && key !in v.fields ==> r == Fail(KeyErrorText(key))
  {
    match v
    case Obj(fields) => if key in fields then Ok(fields[key]) else Fail(KeyErrorText(key))
    case _ => Fail(SubscriptError(v).value)
  }

  /** The record the outer `except` builds from the exception's text. */
  function ErrorResult(message: string): LanguageDetectionResult {
    LanguageDetectionResult(Str("error"), Float(0.0), "", map["error" := Str(message)])
  }

  /** `r` is the error record carrying `message`. */
  ghost predicate IsErrorRecord(r: LanguageDetectionResult, message: string) {
    && r.detectedLanguage == Str("error")
    && r.confidence == Float(0.0)
    && r.transcription == ""
    && r.rawResponse.Keys == {"error"}
    && r.rawResponse["error"] == Str(message)
  }

  /** An analysis both lookups of the result construction succeed on. */
  ghost predicate Analysable(a: Value) {
    a.Obj? && "primary_language" in a.fields && "confidence" in a.fields
  }

  /** `detect_language`, given what the transcription call and the analysis
      call produced (the latter already passed through `json.loads`). */
  function DetectLanguage(transcribed: Outcome<Transcription>, analysed: Outcome<Decoded>): (r: LanguageDetectionResult)
    ensures transcribed.Fail? ==> IsErrorRecord(r, transcribed.message)
    ensures transcribed.Ok? && analysed.Fail? ==> IsErrorRecord(r, analysed.message)
    ensures transcribed.Ok? && analysed.Ok? ==>
      var t := transcribed.payload;
      var a := Analysis(t, analysed.payload);
      && (!a.Obj? ==> IsErrorRecord(r, SubscriptError(a).value))
      && (a.Obj? && "primary_language" !in a.fields ==> IsErrorRecord(r, KeyErrorText("primary_language")))
      && (a.Obj? && "primary_language" in a.fields && "confidence" !in a.fields ==>
            IsErrorRecord(r, KeyErrorText("confidence")))
      && (Analysable(a) ==>
            && r.detectedLanguage == a.fields["primary_language"]
            && r.confidence == a.fields["confidence"]
            && r.transcription == t.text
            && r.rawResponse.Keys == {"whisper_response", "gpt_analysis"}
            && r.rawResponse["whisper_response"] == t.dump
            && r.rawResponse["gpt_analysis"] == a)
  {
    match transcribed
    case Fail(message) => ErrorResult(message)
    case Ok(t) =>
      match analysed
      case Fail(message) => ErrorResult(message)
      case Ok(decoded) =>
        var analysis := Analysis(t, decoded);
        match Subscript(analysis, "primary_language")
        case Fail(message) => ErrorResult(message)
        case Ok(detected) =>
          match Subscript(analysis, "confidence")
          case Fail(message) => ErrorResult(message)
          case Ok(confidence) =>
            LanguageDetectionResult(detected, confidence, t.text,
              map["whisper_response" := t.dump, "gpt_analysis" := analysis])
  }

  /** A reply that is not JSON still yields a result: the transcription's own
      language (or "unknown") with confidence 0.7, and the default analysis. */
  lemma JsonFallback(t: Transcription)
    ensures var r := DetectLanguage(Ok(t), Ok(DecodeError));
      && r.detectedLanguage == Str(if t.language.Some? && t.language.value != "" then t.language.value else "unknown")
      && r.confidence == Float(0.7)
      && r.transcription == t.text
      && r.rawResponse.Keys == {"whisper_response", "gpt_analysis"}
      && r.rawResponse["gpt_analysis"].Obj?
      && var a := r.rawResponse["gpt_analysis"].fields;
         && a["language_code"] == Str(if t.language.Some? && t.language.value != "" then t.language.value else "unk")
         && a["is_code_mixed"] == Bool(false)
         && a["secondary_languages"] == Arr([])
  {
    assert Analysable(Obj(FallbackAnalysis(t)));
  }

  /** Every result is of one of two shapes: a success carrying both responses,
      or an error record carrying only the error text. */
  lemma TwoShapes(transcribed: Outcome<Transcription>, analysed: Outcome<Decoded>)
    ensures var r := DetectLanguage(transcribed, analysed);
      || r.rawResponse.Keys == {"whisper_response", "gpt_analysis"}
      || (r.rawResponse.Keys == {"error"} && r.detectedLanguage == Str("error") && r.transcription == "")
  {
  }

  /** Only a decoding failure reaches the default analysis: valid JSON without
      `primary_language` or `confidence` ends in the error record instead. */
  lemma MissingKeysAreErrors(t: Transcription, fields: map<string, Value>)
    requires "primary_language" !in fields || "confidence" !in fields
    ensures var r := DetectLanguage(Ok(t), Ok(Decoded(Obj(fields))));
      && r.rawResponse.Keys == {"error"}
      && r.detectedLanguage == Str("error")
      && r != DetectLanguage(Ok(t), Ok(DecodeError))
  {
    JsonFallback(t);
  }

  /** A failed transcription decides the result whatever the analysis call did. */
  lemma TranscriptionFailureDominates(message: string, a1: Outcome<Decoded>, a2: Outcome<Decoded>)
    ensures DetectLanguage(Fail(message), a1) == DetectLanguage(Fail(message), a2)
    ensures DetectLanguage(Fail(message), a1).rawResponse["error"] == Str(message)
  {
  }
}
