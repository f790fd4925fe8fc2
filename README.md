# ChronoMind timesheet extraction: a Dafny model of its request core

ChronoMind is a small Flask application. It turns a spoken or typed account of a week's
work into timesheet entries and appends them to a CSV ledger. The account is transcribed
and structured by a remote generative model. This project models, in Dafny, the parts of
`app.py` whose behaviour does not depend on that remote model, and proves properties of them:

- **Reply cleanup and stamping** (`Extraction`). The reply is stripped and loses a leading
  "```json", a leading "```" and a trailing "```". It is stripped again. After JSON parsing,
  every entry gets the same `ts`.
- **The ledger** (`Ledger`). `output_data.csv` is a class whose state is whether the file
  exists and which rows it holds. `save_output` appends the header only when the file is
  absent or empty, then one 13-column row per entry. `/clear` deletes the file. `/download`
  returns it, or a 404 error.
- **Week arithmetic** (`Calendar`, `Week`). Days are Python ordinals: 1 is 0001-01-01, a
  Monday. The model proves the Monday-to-Sunday week of "today" and the date of a named day
  in it. It also models `date.fromordinal` and `strftime('%Y-%m-%d')`, with a proved round
  trip.
- **The project listing** of the system prompt (`Prompt`). This is the loop that
  accumulates one line per catalog entry.
- **The `/process` handler** (`Process`, `Upload`). It models:
  - the order of the early exits;
  - the extension-to-MIME lookup;
  - the temporary file name;
  - the best-effort removal of the temporary recording: one attempt when transcription fails, then at most three retry attempts;
  - the flow from an accepted input through stamping to the ledger and the JSON reply.
- **Python's string built-ins** that these rely on (`PyStr`): `strip`, `startswith`,
  `endswith` and `lower`.

The clock (`datetime.now()`, `utcnow()`, `time.time()`) enters as parameters. So do:

- the results of the remote calls;
- whether the temporary file exists;
- the outcome of each `os.remove` attempt.

Some behaviour of the code is easy to misread; the model keeps to what the code does:

- **Fence stripping is not idempotent.** Already-clean text comes back unchanged
  (`Extraction.CleanReplyUnchanged`). A doubled fence does not: "``````json x" needs two
  passes (`Extraction.UnfenceNotIdempotent`).
- **The knowledge base is checked first.** The catalog check comes before the check of the
  submitted text (app.py:254). `Process.Decide` follows that order.
- **The recording check is shallow.** Only a missing `audio_file` part or an empty file name
  is refused (app.py:265-270). An empty upload with a name goes on to transcription.
- **A cleanup error can become the reply.** An `os.remove` error other than
  `PermissionError`, raised in the `finally` retry loop, escapes it and becomes the 500
  reply (app.py:294-308, 327-328). `Process.Decide` takes it as `cleanupError`.
- **The ledger accumulates.** `save_output` appends, so a download just after one request
  holds exactly that request's entries only when the file was absent or empty beforehand
  (`Ledger.SaveToFreshLedger`), for example right after `/clear`
  (`Ledger.ClearSaveDownload`).

## Model

| member | source | states |
|---|---|---|
| Json.Get | app.py:236 | `entry.get(field, '')`: the stored value when the key is present, the default otherwise |
| PyStr.TrimStart | app.py:183 | the result is a suffix of the input that is empty or starts with a non-space character |
| PyStr.TrimStartCutsSpace | app.py:183 | everything `lstrip` removes is whitespace |
| PyStr.TrimEnd | app.py:183 | the result is a prefix of the input that is empty or ends with a non-space character |
| PyStr.TrimEndCutsSpace | app.py:183 | everything `rstrip` removes is whitespace |
| PyStr.LeadingSpaces | app.py:183 | the cut point of `strip` lies within the text, at a non-space character or at the end |
| PyStr.Strip | app.py:183 | `strip()` leaves no whitespace at either end and never lengthens the text |
| PyStr.StripKeepsInfix | app.py:183 | `strip()` keeps one contiguous piece of the text, starting after the leading whitespace |
| PyStr.StripCutsSpaceOnly | app.py:183 | what `strip()` removes at each end is whitespace only |
| PyStr.StripStripped | app.py:192 | text with no surrounding whitespace is unchanged by `strip()` |
| PyStr.StripIdempotent | app.py:192 | stripping twice equals stripping once |
| PyStr.StartsWith | app.py:186-190 | `startswith(p)` holds exactly when `p` fits in the text and the text is `p` followed by the rest |
| PyStr.EndsWith | app.py:186-190 | `endswith(p)` holds exactly when `p` fits in the text and the text is the rest followed by `p` |
| PyStr.LowerChar | app.py:59 | upper-case ASCII letters map to lower case; every other character is kept |
| PyStr.Lower | app.py:136 | the model's ASCII lowering keeps the length, turns each 'A'..'Z' into its lower-case letter and keeps every other character |
| PyStr.LowerAppend | app.py:136 | lower-casing works character by character: the lowered join is the join of the lowered parts |
| Calendar.Weekday | app.py:45 | `weekday()` is in 0..6 and ordinal 1 is a Monday (day minus weekday is 1 modulo 7) |
| Calendar.ToOrdinal | app.py:60-62 | every representable date has a day number in 1..3652059, from 0001-01-01 to 9999-12-31 |
| Calendar.FromOrdinal | app.py:62 | `date.fromordinal(n)` is a valid date in years 1..9999 whose `toordinal()` is `n` |
| Calendar.Iso | app.py:62 | `strftime('%Y-%m-%d')` is ten characters: dashes at positions 4 and 7 and decimal digits everywhere else |
| Calendar.PaddedRoundTrip | app.py:62 | a zero-padded number that fits its width reads back as itself |
| Calendar.IsoRoundTrip | app.py:62 | parsing the `YYYY-MM-DD` text of a valid date gives that date back |
| Calendar.IsoOfOrdinal | app.py:62 | the ISO text of a day is ten characters: dashes at positions 4 and 7 and decimal digits everywhere else |
| Calendar.IsoOfOrdinalReadsBack | app.py:62 | the ISO text of day `n` reads back as a valid date whose ordinal is `n` |
| Week.MondayOf | app.py:45 | the Monday of today's week has weekday 0 and lies within the six days before today |
| Week.CurrentWeek | app.py:42-47 | Monday has weekday 0, Sunday weekday 6, Sunday = Monday + 6, Monday <= today <= Sunday; no result exactly when Sunday is past 9999-12-31 |
| Week.WeekIsUnique | app.py:42-47 | any Monday-to-Sunday span holding today starts at `MondayOf(today)` |
| Week.CurrentWeekOverflows | app.py:46 | the week overflows exactly for days from 9999-12-27 on |
| Week.DayIndex | app.py:51-54 | a known lower-case day name gets its position in the week; any other key gets 0 |
| Week.DayOffset | app.py:59 | the offset from Monday is in 0..6: a name whose lower-cased form is a day of the week gets that day's position, and any other name gets 0 |
| Week.WeekDayDate | app.py:60-62 | `YYYY-MM-DD` text (digits and two dashes), missing exactly when Monday + k is past 9999-12-31 |
| Week.DayOfWeekDate | app.py:49-62 | `YYYY-MM-DD` text (digits and two dashes), missing exactly when Monday + offset is past 9999-12-31 |
| Week.DayOfWeekDateReadsBack | app.py:56-62 | the text is a valid date whose ordinal is Monday of the current week plus the day's offset |
| Week.WeekDayDateReadsBack | app.py:60-62 | the text of day `k` of the week reads back as a valid date whose ordinal is Monday plus `k` |
| Week.DayOfWeekDateInWeek | app.py:49-62 | the date lies in the current week, on the weekday the name gives |
| Week.DayIndexOfName | app.py:51-54 | each of the seven day names is looked up at its own position |
| Week.NamedDayDate | app.py:49-62 | a day name in any case gives the date of that weekday in the current week: "Friday" gives this week's Friday |
| Week.DayOfWeekDateIgnoresCase | app.py:59 | names that agree up to case give the same date |
| Week.UnknownDayIsMonday | app.py:59 | a name that is not a day of the week gives the Monday |
| Prompt.ProjectLine | app.py:73 | a project's line is its five fields plus 41 characters of fixed text |
| Prompt.LineShowsProject | app.py:73 | a project's line starts with "- ", holds the name, code, client, task and task id at their fixed offsets, and ends with a newline |
| Prompt.LineHasOneBreak | app.py:73 | a project line whose fields have no newline holds exactly one line break |
| Prompt.Listing | app.py:69-73 | the listing is empty without a "projects" key and begins with the heading otherwise |
| Prompt.ProjectsInfo | app.py:69-73 | the accumulated listing is empty with no "projects" key; otherwise it is the heading followed by the lines of the projects |
| Prompt.LinesAppend | app.py:72-73 | the lines of two catalogs joined are the lines of each, one after the other |
| Prompt.LinesExtend | app.py:72-73 | one more project adds exactly its line at the end |
| Prompt.LinesInOrder | app.py:72-73 | project `i`'s line sits between the lines of the projects before and after it: catalog order is kept |
| Prompt.LinesCount | app.py:72-73 | the listing of N single-line projects has exactly N line breaks |
| Prompt.ListingLineCount | app.py:69-73 | with a catalog, the block is N + 1 lines: the heading and one line per project |
| Extraction.DropPrefix | app.py:186-189 | `s[len(p):]` removes `p` exactly when `s` starts with it, and leaves `s` unchanged otherwise |
| Extraction.DropSuffix | app.py:190-191 | `s[:-3]` removes the fence exactly when `s` ends with it, and leaves `s` unchanged otherwise |
| Extraction.Unwrap | app.py:186-191 | fence removal never lengthens the text, and a text with no fence at either end is returned as it is |
| Extraction.Unfence | app.py:183-192 | the cleaned reply has no surrounding whitespace and is no longer than the reply |
| Extraction.CleanReply | app.py:183-192 | the step-by-step reassignments of `result_text` compute the cleanup function |
| Extraction.JsonFenceIsFence | app.py:186-189 | a "```json" opening is also a "```" opening |
| Extraction.UnfencedReplyKept | app.py:183-192 | a reply with no fence at either end comes back only stripped |
| Extraction.CleanReplyUnchanged | app.py:183-192 | already-clean JSON text is returned unchanged |
| Extraction.UnwrapJsonFenced | app.py:186-191 | "```json" + s + "```" loses both fences when s does not itself open with a fence |
| Extraction.JsonFencedReply | app.py:183-192 | "```json" + s + "```" cleans to `strip(s)` |
| Extraction.UnwrapPlainFenced | app.py:188-191 | "```" + s + "```" loses both fences whenever s does not begin with "json" |
| Extraction.PlainFencedReply | app.py:183-192 | "```" + s + "```" cleans to `strip(s)` under the same condition |
| Extraction.UnfenceNotIdempotent | app.py:183-192 | the cleanup is not idempotent: "``````json x" cleans to "```json x", which cleans to "x" |
| Extraction.Stamped | app.py:198-200 | as many entries as before; each keeps its keys and their values, and its `ts` is the shared timestamp, added or overwritten |
| Extraction.StampAll | app.py:198-200 | every entry keeps its keys and values, gains `ts` set to the one shared timestamp (overwriting any old `ts`), and the count is unchanged |
| Ledger.HeaderRow | app.py:227-231 | the header row holds the thirteen field names in order |
| Ledger.Project | app.py:236 | the projected row has one cell per field |
| Ledger.EntryRow | app.py:218-223 | every data row has exactly thirteen cells |
| Ledger.RowRoundTrip | app.py:236 | a row read back under its columns has exactly those keys, each with the entry's value or '' |
| Ledger.EntryRowReadsBack | app.py:218-223 | a saved field reads back with its value, a missing one as '', and any other key is dropped |
| Ledger.ExtraKeysIgnored | app.py:236 | keys outside the thirteen columns do not change the row |
| Ledger.EntryRows | app.py:234-237 | one row per entry, in batch order |
| Ledger.EntryRowsAppend | app.py:234-237 | the rows of two batches joined are the rows of each, in order |
| Ledger.AfterSave | app.py:226-237 | a save adds one row per entry, plus the header exactly when the file was absent or empty |
| Ledger.SaveToFreshLedger | app.py:226-237 | saving K entries to an absent or empty file gives the header and then the K rows |
| Ledger.SaveToNonEmptyLedger | app.py:226-237 | saving to a non-empty file keeps the old rows and adds exactly the K rows, with no header |
| Ledger.SaveBatchesToNonEmptyLedger | app.py:215-237 | any number of saves to a non-empty file append their rows and never another header |
| Ledger.SaveBatchesToFreshLedger | app.py:215-237 | saving batches totalling M entries to a fresh file gives exactly one header and M rows |
| Ledger.CsvLedger.constructor | app.py:212-215 | the file as found: absent (and empty) or present with its rows |
| Ledger.CsvLedger.Save | app.py:208-239 | the file exists afterwards and its rows are the old rows, the header when it was absent or empty, and one row per entry; a well-formed file stays the header followed by the rows of all saved entries |
| Ledger.CsvLedger.Clear | app.py:337-342 | the file no longer exists, whether or not it did |
| Ledger.CsvLedger.Download | app.py:330-335 | an existing file comes back as `timesheet_entries.csv` with its rows; a missing one gives 404 "Output file not found" |
| Ledger.ClearThenDownload | app.py:330-342 | `/clear` then `/download` gives 404 |
| Ledger.ClearSaveDownload | app.py:208-239 | `/clear`, one save, then `/download` gives exactly the header and that batch's rows |
| Upload.AfterLastDot | app.py:136 | `split('.')[-1]` is the dot-free tail of the path after its last '.' (the whole path when it has none) |
| Upload.Extension | app.py:136 | the extension is the dot-free tail of the lower-cased path after its last '.', or the whole path when it has none |
| Upload.MimeType | app.py:136-145 | a known extension gets its MIME type and any other gets `audio/webm`; the result is always one of the table's types |
| Upload.ExtensionOfLower | app.py:136 | lower-casing the path and then taking its extension gives the lower-cased extension: the two steps commute |
| Upload.LowerSnoc | app.py:136 | a character added at the end is lowered on its own, and is a '.' after lowering exactly when it was one before |
| Upload.AfterLastDotSnoc | app.py:136 | a character added at the end either ends the extension (a '.') or extends it |
| Upload.MimeTypeIgnoresCase | app.py:136-145 | paths that agree up to case get the same MIME type |
| Upload.ReplaceDots | app.py:274 | the clock text with each '.' replaced by '_' and nothing else changed |
| Upload.TempPath | app.py:274-276 | the temporary path is `uploads/temp_audio_`, then the clock text with each '.' replaced by '_', then `.webm`; it has no other '.' and is 24 characters longer than the clock text |
| Upload.TempFileIsWebm | app.py:273-276 | the temporary recording's extension is "webm", so it is always sent as `audio/webm` |
| Upload.RetryRemove | app.py:296-308 | 1 to 3 attempts; every attempt but the last hit `PermissionError`; fewer than three attempts only when the last one did not; the file is removed exactly when the last attempt succeeded, and an error escapes exactly when it was not a `PermissionError` |
| Upload.RemoveTempFile | app.py:284-308 | nothing is attempted for a missing file; after a failed transcription one `except` attempt comes first, and if it removed the file the retry loop does nothing; otherwise the retry loop behaves as `RetryRemove` on the remaining outcomes (1 to 3 attempts, the earlier ones hit `PermissionError`, removed exactly when the last succeeded); every error of the `except` attempt is swallowed, so an error escapes exactly when the last retry attempt raised one other than `PermissionError` |
| Process.KbUsable | app.py:254 | the catalog is usable exactly when it has a "projects" key: the emptiness test adds nothing |
| Process.Decide | app.py:251-311 | an unusable catalog is refused first; an accepted input is the non-empty text of a text request, or the non-empty transcript of a recording that reached transcription; server errors arise only after transcription |
| Process.Status | app.py:255-328 | refusals answer 400, server errors 500 |
| Process.RemoteResultsIrrelevantBeforeTranscription | app.py:251-271 | before transcription the transcript and the cleanup cannot change the decision, and no server error can occur |
| Process.TextRequestAccepted | app.py:254-262 | with a usable catalog, a text request with missing or empty text gets 400 "No text input provided", and one with non-empty text goes on to extraction with exactly that text; it is accepted exactly when both hold |
| Process.RecordingOutcomes | app.py:264-311 | a recording request ends in 400 "No audio file provided" without the part, 400 "No audio file selected" with an empty name, 500 with the cleanup error if removal raised one, 500 "Transcription error: " + reason if transcription failed, 400 "No input to process" for an empty transcript, and goes on to extraction with a non-empty one |
| Process.OtherInputTypeRefused | app.py:257-311 | any other input type gets 400 "No input to process" |
| Process.Handle | app.py:248-328 | a refused request, or a failed extraction, changes no ledger row and gives the error reply; an accepted one saves the stamped batch and replies with it, its count and (for recordings only) the transcript |

## Left out

- JSON parsing (`json.loads`) and the 500-character truncation of its error message: a library call; the model starts from parsed entries or an error text.
- Replies that parse to something other than a list of objects: the model takes a list of entries. A list holding a non-object makes stamping raise `TypeError` (a 500); a bare number or `null` does too, as iterating it fails. An empty object `{}` or an empty string iterates over nothing, so it is saved and answered as 0 entries; a non-empty object or string also reaches stamping and raises. None of these is modelled.
- The Gemini calls, base64 encoding and the wording of the prompt prose, including today's line: remote, foreign or constant text.
- `str()` of non-string project fields, and the `KeyError` for a project missing a key: `Prompt.Project` holds the five fields as rendered text.
- CSV quoting, line terminators and the text rendering of cells: the `csv` module's encoding. Rows are sequences of JSON values.
- The real filesystem (`os.remove`, `os.path.exists`, `stat`, `audio_file.save`) and `time.sleep`: existence and removal outcomes are parameters. A failure of `audio_file.save` itself is not modelled separately from a transcription failure.
- The startup sweep of `temp_audio_` files (app.py:18-29), and the `/` and `/projects` routes: I/O around the core.
- Concurrency between requests on the shared ledger: the source takes no lock; the model is sequential.
- Upload.RemoveTempFile: the remove-attempt outcomes are an oracle sequence supplied in advance; it needs at least four of them even when fewer are used.
- Upload.RetryRemove: needs three outcomes even when fewer are used.
- Upload.TempPath: joins with "/", as `os.path.join` does on POSIX.
- The time of day: `datetime.now()` is reduced to its calendar day, which is all the week results depend on.
- Calendar.Iso: `strftime('%Y')` for years below 1000 is platform-dependent; the model always pads to four digits.
- Calendar.FromOrdinal: searches year by year from an estimate rather than using Python's 400/100/4/1-year cycle arithmetic; only its result is modelled.
- PyStr.Lower: lowers ASCII letters only, so it keeps the length, which Python's `lower()` need not do. Both lookups that use it (day names and file extensions) compare the whole lowered text against ASCII words without the letter 'k'. Unicode lower-casing yields ASCII from a non-ASCII character in two cases only: KELVIN SIGN becomes 'k', and LATIN CAPITAL LETTER I WITH DOT ABOVE becomes 'i' followed by the combining dot U+0307. No key contains 'k' or U+0307, and the model leaves both characters unchanged, so a text holding either matches no key in Python and none in the model. Every other non-ASCII character stays non-ASCII. So the lookups decide the same.
- PyStr.LowerChar: maps only 'A'..'Z'; the Unicode case mappings of other characters are not modelled, for the reason given for PyStr.Lower.
- PyStr.IsSpace: the fixed set of characters for which `str.isspace()` holds; no Unicode database is consulted.
- Process.Handle: the success `message` text and the `output_data.csv` path in it are not modelled.
- Process.KbUsable: the knowledge base is taken to be a parsed JSON object. A malformed `knowledge_base.json`, where `json.load` raises inside the `try` (app.py:39) and the request gets a 500 before any 400 check, is not modelled. Neither is a file that parses to a non-object such as `["projects"]`: it passes the membership test of app.py:254, and once the input is accepted the prompt builder fails with `TypeError` at app.py:72, also a 500.
- Process.Decide: the transcript and the cleanup error are inputs; the model does not tie them to `Upload.RemoveTempFile`'s outcome.
