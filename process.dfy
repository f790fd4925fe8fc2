/**
 * The `/process` handler: the order of its early exits, and the flow from accepted input
 * through extraction to the ledger. The remote transcription and extraction calls are
 * inputs (their results), as is the outcome of removing the temporary recording.
 */
module Process {
  import opened Json
  import opened Wrappers
  import opened Ledger
  import opened Extraction

  /** The uploaded part named `audio_file`. */
  datatype AudioFile = AudioFile(filename: string)

  /** The form fields of the request that the handler reads. */
  datatype Request = Request(inputType: Option<string>, textInput: Option<string>, audioFile: Option<AudioFile>)

  /** What the transcription call returned. */
  datatype Transcript = Transcribed(text: string) | TranscriptionFailed(reason: string)

  /** What the extraction call returned: the parsed entries, or the error it raised. */
  datatype Extracted = Parsed(entries: seq<Entry>) | ExtractionFailed(error: string)

  const KbError: string :=
    "Knowledge base not found or invalid. Please ensure knowledge_base.json exists with projects data."
  const NoTextError: string := "No text input provided"
  const NoAudioError: string := "No audio file provided"
  const NoAudioSelectedError: string := "No audio file selected"
  const NoInputError: string := "No input to process"

  /** How the handler proceeds once the input is settled. */
  datatype Decision = BadRequest(error: string) | ServerError(error: string) | Extract(text: string)

  /** `not knowledge_base or 'projects' not in knowledge_base` is false: a non-empty catalog with projects. */
  predicate KbUsable(kb: map<string, Value>)
    ensures KbUsable(kb) <==> "projects" in kb
  {
    |kb| > 0 && "projects" in kb
  }

  /** The request reaches the transcription call (and so the temporary file). */
  predicate Transcribes(kb: map<string, Value>, req: Request)
  {
    KbUsable(kb) && req.inputType == Some("recording") && req.audioFile.Some? && req.audioFile.value.filename != ""
  }

  /**
   * The early exits of `process`, in order: the knowledge base, then the input of the
   * chosen kind, then the transcript. An error raised while removing the temporary file
   * escapes the `finally` block and replaces whatever the transcription produced.
   */
  function Decide(kb: map<string, Value>, req: Request, transcript: Transcript, cleanupError: Option<string>): (d: Decision)
    ensures !KbUsable(kb) ==> d == BadRequest(KbError)
    ensures d.Extract? ==> KbUsable(kb) && d.text != ""
    ensures d.Extract? && req.inputType == Some("text") ==> req.textInput == Some(d.text)
    ensures d.Extract? && req.inputType != Some("text") ==> Transcribes(kb, req) && transcript == Transcribed(d.text)
    ensures d.ServerError? ==> Transcribes(kb, req)
  {
    if !KbUsable(kb) then BadRequest(KbError)
    else if req.inputType == Some("text") then
      if req.textInput == None || req.textInput == Some("") then BadRequest(NoTextError)
      else Extract(req.textInput.value)
    else if req.inputType == Some("recording") then
      if req.audioFile.None? then BadRequest(NoAudioError)
      else if req.audioFile.value.filename == "" then BadRequest(NoAudioSelectedError)
      else if cleanupError.Some? then ServerError(cleanupError.value)
      else match transcript
        case TranscriptionFailed(reason) => ServerError("Transcription error: " + reason)
        case Transcribed(text) => if text == "" then BadRequest(NoInputError) else Extract(text)
    else BadRequest(NoInputError)
  }

  /** The HTTP status of a decision that ends the request. */
  function Status(d: Decision): (code: int)
    requires !d.Extract?
    ensures code == 400 <==> d.BadRequest?
    ensures code == 500 <==> d.ServerError?
  {
    if d.BadRequest? then 400 else 500
  }

  /**
   * Nothing remote is consulted before the input is accepted: unless the request reaches the
   * transcription call, the transcript and the cleanup cannot change the decision.
   */
  lemma RemoteResultsIrrelevantBeforeTranscription(
    kb: map<string, Value>, req: Request, t1: Transcript, t2: Transcript, c1: Option<string>, c2: Option<string>)
    requires !Transcribes(kb, req)
    ensures Decide(kb, req, t1, c1) == Decide(kb, req, t2, c2)
    ensures Decide(kb, req, t1, c1).BadRequest? || Decide(kb, req, t1, c1).Extract?
  {
  }

  /** A text request is accepted exactly when the catalog is usable and the text is non-empty. */
  lemma TextRequestAccepted(kb: map<string, Value>, text: Option<string>, audio: Option<AudioFile>, t: Transcript, c: Option<string>)
    ensures Decide(kb, Request(Some("text"), text, audio), t, c).Extract?
      <==> KbUsable(kb) && text.Some? && text.value != ""
    ensures KbUsable(kb) && (text.None? || text == Some("")) ==>
      Decide(kb, Request(Some("text"), text, audio), t, c) == BadRequest(NoTextError)
    ensures KbUsable(kb) && text.Some? && text.value != "" ==>
      Decide(kb, Request(Some("text"), text, audio), t, c) == Extract(text.value)
  {
  }

  /**
   * How a recording request ends, case by case: a missing part and an empty file name are
   * refused with 400 before anything is written; once the file is transcribed, an error
   * from its removal wins (500), then a failed transcription (500 with the reason), then
   * an empty transcript (400); only a non-empty transcript goes on to extraction.
   */
  lemma RecordingOutcomes(kb: map<string, Value>, req: Request, t: Transcript, c: Option<string>)
    requires KbUsable(kb) && req.inputType == Some("recording")
    ensures req.audioFile.None? ==> Decide(kb, req, t, c) == BadRequest(NoAudioError)
    ensures req.audioFile.Some? && req.audioFile.value.filename == "" ==>
      Decide(kb, req, t, c) == BadRequest(NoAudioSelectedError)
    ensures Transcribes(kb, req) && c.Some? ==>
      Decide(kb, req, t, c) == ServerError(c.value) && Status(Decide(kb, req, t, c)) == 500
    ensures Transcribes(kb, req) && c.None? && t.TranscriptionFailed? ==>
      Decide(kb, req, t, c) == ServerError("Transcription error: " + t.reason)
    ensures Transcribes(kb, req) && c.None? && t == Transcribed("") ==>
      Decide(kb, req, t, c) == BadRequest(NoInputError) && Status(Decide(kb, req, t, c)) == 400
    ensures Transcribes(kb, req) && c.None? && t.Transcribed? && t.text != "" ==>
      Decide(kb, req, t, c) == Extract(t.text)
  {
  }

  /** Any input type other than "text" and "recording" is refused once the catalog is usable. */
  lemma OtherInputTypeRefused(kb: map<string, Value>, req: Request, t: Transcript, c: Option<string>)
    requires KbUsable(kb) && req.inputType != Some("text") && req.inputType != Some("recording")
    ensures Decide(kb, req, t, c) == BadRequest(NoInputError)
  {
  }

  /** The JSON reply of `/process`. */
  datatype Response =
    | Success(transcription: Option<string>, structuredData: seq<Entry>, entryCount: nat)
    | Failure(status: int, error: string)

  /**
   * `process` from the decision on: extract, stamp, save, reply. The ledger is written only
   * when a fully parsed batch exists.
   */
  method Handle(
    ledger: CsvLedger, kb: map<string, Value>, req: Request, transcript: Transcript,
    cleanupError: Option<string>, extracted: Extracted, ts: string)
    returns (r: Response)
    requires ledger.Valid()
    modifies ledger
    ensures ledger.Valid()
    ensures !Decide(kb, req, transcript, cleanupError).Extract? ==>
      var d := Decide(kb, req, transcript, cleanupError);
      r == Failure(Status(d), d.error) && unchanged(ledger)
    ensures Decide(kb, req, transcript, cleanupError).Extract? && extracted.ExtractionFailed? ==>
      r == Failure(500, extracted.error) && unchanged(ledger)
    ensures Decide(kb, req, transcript, cleanupError).Extract? && extracted.Parsed? ==>
      var data := Stamped(extracted.entries, ts);
      && r.Success?
      && r.structuredData == data
      && r.entryCount == |data|
      && (r.transcription.Some? <==> req.inputType == Some("recording"))
      && (r.transcription.Some? ==> r.transcription.value == Decide(kb, req, transcript, cleanupError).text)
      && ledger.rows == AfterSave(old(ledger.present), old(ledger.rows), data)
  {
    var d := Decide(kb, req, transcript, cleanupError);
    if !d.Extract? {
      return Failure(Status(d), d.error);
    }
    match extracted
    case ExtractionFailed(error) =>
      r := Failure(500, error);
    case Parsed(entries) =>
      var data := StampAll(entries, ts);
      ledger.Save(data);
      var transcription := if req.inputType == Some("recording") then Some(d.text) else None;
      r := Success(transcription, data, |data|);
  }
}
