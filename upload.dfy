/**
 * The uploaded recording: its temporary file name, the MIME type it is sent with, and the
 * best-effort removal of the temporary file with bounded retries.
 */
module Upload {
  import opened PyStr

  /** `path.split('.')[-1]`: the text after the last '.', or all of `path` when it has none. */
  function AfterLastDot(path: string): (ext: string)
    ensures |ext| <= |path| && ext == path[|path| - |ext|..]
    ensures '.' !in ext
    ensures |ext| == |path| || path[|path| - |ext| - 1] == '.'
  {
    if path == [] || path[|path| - 1] == '.' then []
    else AfterLastDot(path[..|path| - 1]) + [path[|path| - 1]]
  }

  /** The six recognised extensions and their MIME types. */
  const MimeTypes: map<string, string> := map[
    "webm" := "audio/webm",
    "mp3" := "audio/mp3",
    "wav" := "audio/wav",
    "ogg" := "audio/ogg",
    "m4a" := "audio/mp4",
    "mp4" := "audio/mp4"
  ]

  const DefaultMime: string := "audio/webm"

  /** The extension `transcribe_audio` looks up: of the lower-cased path. */
  function Extension(path: string): (ext: string)
    ensures |ext| <= |path| && ext == Lower(path)[|path| - |ext|..]
    ensures '.' !in ext
    ensures |ext| == |path| || path[|path| - |ext| - 1] == '.'
  {
    AfterLastDot(Lower(path))
  }

  /** `mime_types.get(file_ext, 'audio/webm')`. */
  function MimeType(path: string): (mime: string)
    ensures mime in MimeTypes.Values
    ensures Extension(path) in MimeTypes ==> mime == MimeTypes[Extension(path)]
    ensures Extension(path) !in MimeTypes ==> mime == DefaultMime
  {
    assert MimeTypes["webm"] == DefaultMime;
    var ext := Extension(path);
    if ext in MimeTypes then MimeTypes[ext] else DefaultMime
  }

  /** Lower-casing and taking the last extension commute: no letter becomes a '.'. */
  lemma {:induction false} ExtensionOfLower(path: string)
    ensures AfterLastDot(Lower(path)) == Lower(AfterLastDot(path))
    decreases |path|
  {
    if path != [] {
      var init, c := path[..|path| - 1], path[|path| - 1];
      assert path == init + [c];
      LowerSnoc(init, c);
      AfterLastDotSnoc(init, c);
      AfterLastDotSnoc(Lower(init), LowerChar(c));
      if c != '.' {
        ExtensionOfLower(init);
        LowerSnoc(AfterLastDot(init), c);
      }
    }
  }

  /** One more character at the end is lowered on its own, and stays a '.' exactly when it was one. */
  lemma LowerSnoc(s: string, c: char)
    ensures Lower(s + [c]) == Lower(s) + [LowerChar(c)]
    ensures LowerChar(c) == '.' <==> c == '.'
  {
    assert Lower([c]) == [LowerChar(c)];
    LowerAppend(s, [c]);
  }

  /** One more character at the end either closes the extension (a '.') or extends it. */
  lemma AfterLastDotSnoc(s: string, c: char)
    ensures AfterLastDot(s + [c]) == if c == '.' then [] else AfterLastDot(s) + [c]
  {
    assert (s + [c])[..|s|] == s;
  }

  /** The lookup ignores case: paths that agree up to case get the same type. */
  lemma MimeTypeIgnoresCase(a: string, b: string)
    requires Lower(a) == Lower(b)
    ensures MimeType(a) == MimeType(b)
  {
  }

  const UploadFolder: string := "uploads"
  const TempPrefix: string := "temp_audio_"

  /** `str(time.time()).replace('.', '_')`: the clock reading with its dot replaced. */
  function ReplaceDots(s: string): (r: string)
    ensures |r| == |s| && '.' !in r
    ensures forall i :: 0 <= i < |s| ==> r[i] == (if s[i] == '.' then '_' else s[i])
  {
    if s == [] then [] else [if s[0] == '.' then '_' else s[0]] + ReplaceDots(s[1..])
  }

  /** `os.path.join(UPLOAD_FOLDER, f'temp_audio_{timestamp}.webm')`. */
  function TempPath(clock: string): (path: string)
    ensures |path| == |clock| + 24
    ensures StartsWith(path, UploadFolder + "/" + TempPrefix) && EndsWith(path, ".webm")
    ensures forall i :: 0 <= i < |path| - 5 ==> path[i] != '.'
    ensures path[|UploadFolder| + 1 + |TempPrefix|..|path| - 5] == ReplaceDots(clock)
  {
    UploadFolder + "/" + TempPrefix + ReplaceDots(clock) + ".webm"
  }

  /** The temporary recording is always sent as `audio/webm`, whatever the clock reading. */
  lemma TempFileIsWebm(clock: string)
    ensures Extension(TempPath(clock)) == "webm"
    ensures MimeType(TempPath(clock)) == "audio/webm"
  {
    TempNameEndsInWebm(clock);
    ExtensionOfLower(TempPath(clock));
    assert Lower("webm") == "webm";
  }

  /** The temporary name's extension, before lower-casing, is "webm". */
  lemma TempNameEndsInWebm(clock: string)
    ensures AfterLastDot(TempPath(clock)) == "webm"
  {
    var head := UploadFolder + "/" + TempPrefix + ReplaceDots(clock) + ".";
    assert TempPath(clock) == head + "webm";
    SuffixAfterLastDot(head, "webm");
  }

  /** A name ending in "." + tail, where tail has no dot, has extension tail. */
  lemma SuffixAfterLastDot(head: string, tail: string)
    requires head != [] && head[|head| - 1] == '.' && '.' !in tail
    ensures AfterLastDot(head + tail) == tail
  {
    var whole := head + tail;
    var ext := AfterLastDot(whole);
    assert whole[|whole| - |tail| - 1] == '.';
    assert whole[|whole| - |tail|..] == tail;
  }

  /** What one `os.remove` attempt does: removes the file, or raises. */
  datatype Removal = Removed | PermissionDenied | OtherError

  const MaxRetries: nat := 3

  /** How the removal of the temporary file ended. */
  datatype Cleanup = Cleanup(attempts: nat, removed: bool, raised: bool)

  /**
   * The retry loop of the `finally` block: up to three removal attempts, stopping at the
   * first success. A `PermissionError` is swallowed (the file is left for a later sweep);
   * any other error escapes the loop. `outcomes[i]` is what attempt `i` would do.
   */
  method RetryRemove(outcomes: seq<Removal>) returns (c: Cleanup)
    requires |outcomes| >= MaxRetries
    ensures 1 <= c.attempts <= MaxRetries
    ensures forall i :: 0 <= i < c.attempts - 1 ==> outcomes[i] == PermissionDenied
    ensures c.attempts < MaxRetries ==> outcomes[c.attempts - 1] != PermissionDenied
    ensures c.removed <==> outcomes[c.attempts - 1] == Removed
    ensures c.raised <==> outcomes[c.attempts - 1] == OtherError
  {
    var attempt := 0;
    c := Cleanup(0, false, false);
    while attempt < MaxRetries
      invariant 0 <= attempt <= MaxRetries
      invariant c == Cleanup(attempt, false, false)
      invariant forall i :: 0 <= i < attempt ==> outcomes[i] == PermissionDenied
    {
      match outcomes[attempt]
      case Removed =>
        return Cleanup(attempt + 1, true, false);
      case OtherError =>
        return Cleanup(attempt + 1, false, true);
      case PermissionDenied =>
        attempt := attempt + 1;
        c := Cleanup(attempt, false, false);
    }
  }

  /**
   * All removal work on the temporary file of one recording request. When transcription
   * failed, the `except` block first makes one attempt whose errors are all swallowed; then
   * the `finally` block runs the retry loop if the file still exists. `outcomes` lists the
   * outcomes of the attempts in the order they are made.
   */
  method RemoveTempFile(onDisk: bool, transcriptionFailed: bool, outcomes: seq<Removal>)
    returns (c: Cleanup)
    requires |outcomes| >= MaxRetries + 1
    ensures !onDisk ==> c == Cleanup(0, false, false)
    ensures c.attempts <= MaxRetries + 1
    ensures c.removed <==> onDisk && 0 < c.attempts && outcomes[c.attempts - 1] == Removed
    ensures forall i :: 0 <= i < c.attempts - 1 ==> outcomes[i] != Removed
    // the `except` attempt removed the file, so the `finally` block finds nothing to do
    ensures onDisk && transcriptionFailed && outcomes[0] == Removed ==> c == Cleanup(1, true, false)
    // otherwise the retry loop runs on the outcomes after the `except` attempt, if one was made
    ensures var used := if onDisk && transcriptionFailed then 1 else 0;
      onDisk && !(used == 1 && outcomes[0] == Removed) ==>
        && used + 1 <= c.attempts <= used + MaxRetries
        && (forall i :: used <= i < c.attempts - 1 ==> outcomes[i] == PermissionDenied)
        && (c.attempts < used + MaxRetries ==> outcomes[c.attempts - 1] != PermissionDenied)
        && (c.removed <==> outcomes[c.attempts - 1] == Removed)
        && (c.raised <==> outcomes[c.attempts - 1] == OtherError)
    // every error of the `except` attempt is swallowed: only a retry-loop attempt can raise
    ensures var used := if onDisk && transcriptionFailed then 1 else 0;
      c.raised <==> onDisk && used < c.attempts && outcomes[c.attempts - 1] == OtherError
  {
    var present := onDisk;
    var used := 0;
    if transcriptionFailed && present {
      used := 1;
      if outcomes[0] == Removed {
        present := false;
      }
    }
    if present {
      var retry := RetryRemove(outcomes[used..]);
      c := Cleanup(used + retry.attempts, retry.removed, retry.raised);
      forall i | used <= i < c.attempts - 1
        ensures outcomes[i] == PermissionDenied
      {
        assert outcomes[i] == outcomes[used..][i - used];
      }
    } else {
      c := Cleanup(used, used == 1, false);
    }
  }
}
