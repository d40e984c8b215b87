# OpenShorts job pipeline and caption helpers, in Dafny

This project models the sequential core of the OpenShorts clip service:

- the job record store (`RedisJobStore`), which keeps one `JobData` record per job under a prefixed key with a 24-hour expiry;
- the v2 orchestration in `app.py`:
  - the progress classifier for log lines;
  - the partial-result scanner and the finalizer over the job's output directory;
  - the command line passed to the clip generator;
  - the resolution of a generator run into a final job status;
  - the API-key cleanup;
  - the v2 dispatcher's slot accounting on the concurrency semaphore;
- the pure caption helpers of `caption_renderer.py`: hex colour parsing, style preset lookup, the time-window word filter, the greedy line wrap and transcript flattening;
- the enumerations and record defaults of `models.py`.

Files and modules:

- text.dfy (module Text): the Python string built-ins the core relies on, written out. These are `str.lower` on ASCII letters, `in` on strings, `str(int)`, `str.replace(p, '')`, `str.lstrip(c)`, `str.strip()` and `str.split()` over Python's full white-space set, `' '.join` and `repr` of a string.
- models.dfy (module Models): the enumerations, the records and their defaults.
- job_store.dfy (module JobStore): the store as a class holding a map from key to record and expiry instant.
  - Every operation takes the current time `now`.
  - A key is live while `now` is before its expiry.
  - `now` is also the timestamp `set_status` records.
- caption_renderer.dfy (module CaptionRenderer): the caption helpers.
  - `cv2.getTextSize` becomes a width function passed in.
- app.dfy (module App): the orchestration, and the `Worker` class.
  - `Worker` holds the queue, the slot counter, the running jobs and the in-memory API keys.

How the outside world appears in the model:

- The output directory is a map from file name to size. A name missing from the map is a file that does not exist, so opening it raises `FileNotFoundError`; a metadata file of size 0 makes `json.load` raise.
- The glob result is the list of metadata file names in listing order.
- The metadata file is an already-decoded descriptor: its `shorts` list, or the message of the decoding error.
- A run of the generator is a recorded value. Either `Popen` raised with a message, or the run went through a sequence of poll intervals and then exited with a code. Each interval holds the log lines printed during it, decoded but not yet stripped, and the directory state at the scan that follows. The reader strips every line and logs only the non-empty ones.
- Whether the store is reachable (`get_redis()` returning a client) is a boolean input of the wrapper.

Behaviour of the code that the contracts make explicit:

- An exception whose text is empty fails the job without recording an error. This is because `set_status` stores the error only when it is truthy.
- When the store is unavailable or the job's record is missing, `run_job_v2_wrapper` returns before `run_job_v2`. The job's API key then stays in memory, and the slot is still released.
- `description_youtube` carries the entry's `video_title_for_youtube_short`, as the code writes it.
- `hex_to_bgr` accepts what `int(s, 16)` accepts on each two-character slice. That includes a signed digit and a digit padded by `int()`'s white space (the space, the controls 9-13 and the non-ASCII separators such as U+00A0), so a channel may be negative (down to -15). The separator controls 28-31 are white space for `str.strip()` but not for `int()`, so "#\x1cF0000" raises. Input with fewer than five characters left after the leading `#` characters raises. The error message shows the rejected slice as `repr` writes it.
- `finalize_job_v2` opens the first metadata file the listing returns. When that file has vanished or is empty, the open or the decode raises, and the job fails with that exception's message.
- The comment above `MAX_CONCURRENT_JOBS` says the default is 1; the code reads 5. The model takes the capacity as a parameter (see Left out).

## Model

| member | source | states |
|---|---|---|
| Models.ParseCaptionStyle | models.py:7-16 | a text names a style exactly when it is one of the nine values, and then the style whose value it is |
| Models.CaptionStylesEnumerated | models.py:7-16 | there are nine styles, all distinct as values, and "none" is one of them |
| Models.ParseJobStatus | models.py:19-23 | a text names a status exactly when it is one of the four values, and then the status whose value it is |
| Models.JobStatusesEnumerated | models.py:19-23 | there are exactly four statuses, with distinct values |
| Models.DefaultCaptionSettings | models.py:26-30 | the default settings have captions on, style "none" and no colours |
| Models.NewClipResult | models.py:33-38 | a clip needs only its locator; title and the three descriptions default to absent |
| Models.NewJobResult | models.py:41-43 | a result holds the given clips and no transcript |
| Models.NewJobData | models.py:46-58 | a fresh record is queued, at 0 % progress, with no stage, no logs, no start or completion time, no result and no error |
| Text.Lower | app.py:297 | lower-casing keeps the length, maps each character independently, and leaves no upper-case ASCII letter |
| Text.LowerIdempotent | app.py:297 | lower-casing twice is lower-casing once |
| Text.Contains | app.py:297-308 | Python's `p in s`: some position of `s` starts an occurrence of `p`; characterised by App.ParseProgressNone |
| Text.DecimalRoundTrip | app.py:355 | the decimal text of a clip number reads back as that number |
| Text.IntToDecimalInjective | app.py:453 | distinct exit codes have distinct decimal texts, negative codes included |
| Text.IntToDecimal | app.py:453 | `str(i)`: the decimal digits, with a leading '-' for a negative number; characterised by Text.IntToDecimalInjective |
| Text.RemoveTrailing | app.py:350 | removing every occurrence of a pattern from a stem plus the pattern, when the pattern does not occur earlier, leaves the stem |
| Text.RemoveAll | app.py:350 | `s.replace(p, '')`: every occurrence of `p`, scanned from the left, removed; characterised by Text.RemoveTrailing |
| Text.StripLeft | app.py:315 | `lstrip()`: the result is a suffix of the input that does not start with white space, and only white space was removed |
| Text.StripRight | app.py:315 | `rstrip()`: the result is a prefix of the input that does not end with white space, and only white space was removed |
| Text.StripShape | app.py:315 | `strip()` gives the slice after the leading white space that neither starts nor ends with white space, and only white space follows it |
| Text.StripEmpty | app.py:315-316 | a stripped line is empty exactly when the line is all white space, so only such lines are dropped |
| Text.Strip | app.py:315 | `s.strip()`: the white space removed at both ends; characterised by Text.StripShape and Text.StripEmpty |
| Text.Repr | caption_renderer.py:97 | `repr` puts the string in quotes, and a string without quotes, backslashes or ASCII controls is written as itself |
| Text.ReprControl | caption_renderer.py:97 | `repr` writes the control character 0x1C as the escape `\x1c` |
| Text.StripLeading | caption_renderer.py:96 | the result is a suffix of the input, does not start with the character, and only that character was removed |
| Text.SplitWordsAreWords | caption_renderer.py:145 | every piece `split()` returns is non-empty and free of white space |
| Text.SplitWordsContent | caption_renderer.py:145 | the pieces, concatenated, are exactly the input's non-white-space characters in order |
| Text.SplitWordsUnicodeSpace | caption_renderer.py:145 | "a\u3000b" splits into "a" and "b": Unicode white space separates words |
| Text.SplitWords | caption_renderer.py:145 | `s.split()`: the maximal runs of non-white-space characters; characterised by Text.SplitWordsAreWords and Text.SplitWordsContent |
| Text.JoinAppend | caption_renderer.py:150 | joining two non-empty lists is joining each and putting one space between |
| Text.Join | caption_renderer.py:150 | `' '.join(ws)`: the words with one space between neighbours; characterised by Text.JoinAppend |
| Text.TrueIndices | app.py:354-357 | the indices an enumerate-and-filter loop keeps: in range, kept, strictly increasing, and every kept index is present |
| JobStore.Key | job_store.py:14-15 | a key is the prefix followed by the id, character for character |
| JobStore.KeyInjective | job_store.py:14-15 | distinct job ids have distinct keys |
| JobStore.FieldOf | job_store.py:38 | a name has a value on the record exactly when it is one of the twelve declared fields |
| JobStore.FieldsDetermineJob | models.py:46-58 | two records that agree on every declared field are equal |
| JobStore.SetField | job_store.py:38-39 | a declared field takes the given value and every other field keeps its value; an undeclared name changes nothing |
| JobStore.ApplyUpdates | job_store.py:37-39 | a field no update names keeps its value, and a field takes the value of the last update that names it |
| JobStore.WithStatus | job_store.py:63-71 | any transition is written. Processing stamps the start time and keeps completion time and error. Completed or Failed stamps the completion time and keeps the start time. Completed or Failed records the error only when it is non-empty text. Queued changes no time. Nothing else changes |
| JobStore.ProgressUpdates | job_store.py:82-84 | the updates update_progress passes are well-typed for the fields they name |
| JobStore.ProgressUpdatesEffect | job_store.py:82-85 | applying them sets the percentage always, sets the stage only when it is non-empty text, and changes no other field |
| JobStore.RedisJobStore.constructor | job_store.py:11-12 | a new store is empty |
| JobStore.RedisJobStore.CreateJob | job_store.py:17-21 | the record is written under its key with an expiry 24 hours ahead, and every read of it within that window returns it |
| JobStore.RedisJobStore.GetJob | job_store.py:23-29 | a record is returned exactly when its key is present and not expired, and it is that key's record, carrying the requested id |
| JobStore.RedisJobStore.Find | job_store.py:23-29 | what a read of the key returns at a moment: the record while the key is present and unexpired, None otherwise; characterised by JobStore.RedisJobStore.GetJob |
| JobStore.RedisJobStore.UpdateJob | job_store.py:31-43 | a missing job gives None and no write. Otherwise the updated record is returned and written, with a fresh expiry, under the key of its id (a new id if the updates change it) |
| JobStore.RedisJobStore.AppendLog | job_store.py:45-50 | exactly one message is added at the end of the logs, the expiry is reset, and nothing else changes; a missing job is a no-op |
| JobStore.RedisJobStore.SetStatus | job_store.py:52-73 | the record is rewritten as WithStatus says, whatever its status was, with a fresh expiry; a missing job is a no-op |
| JobStore.RedisJobStore.UpdateProgress | job_store.py:75-85 | the percentage is always set and the stage only when it is non-empty text, with a fresh expiry; a missing job is a no-op |
| JobStore.RedisJobStore.SetResult | job_store.py:87-89 | only the result is replaced, with a fresh expiry; a missing job is a no-op |
| CaptionRenderer.HexByte | caption_renderer.py:97 | two hex digits denote a byte, 0 to 255 |
| CaptionRenderer.ParseHexField | caption_renderer.py:97 | `int(p, 16)` rejects the empty slice |
| CaptionRenderer.HexValueShort | caption_renderer.py:97 | one or two hex digits denote their digit value or their byte |
| CaptionRenderer.ParseHexFieldShort | caption_renderer.py:97 | a slice of at most two characters parses exactly when it is one hex digit, two hex digits, a sign or `int()` padding before a digit, or a digit before padding. Every value lies in -15..255, and two hex digits give their byte |
| CaptionRenderer.ParseHexFieldPadding | caption_renderer.py:97 | a non-ASCII space before a digit is padding, and the separator control 0x1C is not |
| CaptionRenderer.IntErrorControl | caption_renderer.py:97 | the message for the slice "\x1cF" ends with `'\x1cF'` |
| CaptionRenderer.IntError | caption_renderer.py:97 | the ValueError text of `int(p, 16)`, naming the literal as `repr` writes it; characterised by CaptionRenderer.IntErrorControl and CaptionRenderer.HexToBgrFirstError |
| CaptionRenderer.Slice2 | caption_renderer.py:97 | a clipped two-character slice has at most two characters |
| CaptionRenderer.HexToBgr | caption_renderer.py:92-98 | a missing or empty text gives None. Any other text gives a colour or an error, and an error when fewer than five characters remain after the '#'. Six hex digits give the three bytes in reversed order |
| CaptionRenderer.HexToBgrFirstError | caption_renderer.py:96-97 | the pairs are read at offsets 0, 2 and 4 in order, and the first one `int()` rejects names the error |
| CaptionRenderer.HexToBgrRejectsControl | caption_renderer.py:96-97 | "#" followed by 0x1C and "F" raises "invalid literal for int() with base 16: '\x1cF'" |
| CaptionRenderer.HexToBgrOfDigits | caption_renderer.py:96-98 | a single '#' and six hex digits give the three pairs' bytes, reversed |
| CaptionRenderer.HexColorRoundTrip | caption_renderer.py:94-98 | parsing "#RRGGBB" written from three bytes gives back those bytes as (blue, green, red) |
| CaptionRenderer.PresetsCoverStyles | caption_renderer.py:12-89 | the `CAPTION_STYLES` table (the constant CaptionStyles) has eight presets, one for every style the job settings may name except "none" |
| CaptionRenderer.GetStyleConfig | caption_renderer.py:101-114 | the result is the named preset, or "classic" for an unknown name. Only the text colour and the outline colour may differ. Each is replaced exactly when its custom value is non-empty, by that value's parse. The call raises exactly when a given custom colour does not parse, and the text colour's error comes first |
| CaptionRenderer.UnknownStyleIsClassic | caption_renderer.py:103-104 | an unknown style name behaves exactly as "classic" |
| CaptionRenderer.Activate | caption_renderer.py:128-138 | the entry carries the word's text, start and end with their fallbacks, and is current exactly while the word is being spoken |
| CaptionRenderer.WindowMask | caption_renderer.py:127-132 | for each word, whether it is shown: from its start until `window` seconds after its end |
| CaptionRenderer.ActiveWordsExact | caption_renderer.py:126-140 | the shown entries are, in input order, the entries of exactly the words whose window contains the time |
| CaptionRenderer.ActiveWords | caption_renderer.py:126-140 | the entries of the shown words, in input order; characterised by CaptionRenderer.ActiveWordsExact |
| CaptionRenderer.GetActiveCaptionText | caption_renderer.py:117-140 | no words give no entries; the loop produces the shown entries ActiveWordsExact characterises |
| CaptionRenderer.Normalize | caption_renderer.py:343-347 | an emitted word has only text, start and end, read from 'word', 'start' and 'end' with '' and 0 when absent |
| CaptionRenderer.NormalizeAll | caption_renderer.py:342-347 | one emitted word per input word, in order |
| CaptionRenderer.FlattenAppend | caption_renderer.py:340-347 | flattening a concatenation of segment lists is concatenating their flattenings |
| CaptionRenderer.FlattenAt | caption_renderer.py:340-347 | word j of segment i appears, normalized, right after the words of the earlier segments |
| CaptionRenderer.FlattenSegments | caption_renderer.py:340-347 | the normalized words of every segment, segment by segment; characterised by CaptionRenderer.FlattenAppend and CaptionRenderer.FlattenAt |
| CaptionRenderer.ExtractWordsFromTranscript | caption_renderer.py:323-349 | a missing transcript gives no words; otherwise the loops produce every word of every segment in order |
| CaptionRenderer.WrapFoldInvariant | caption_renderer.py:149-158 | after any prefix of the words, the closed lines and the open line hold exactly that prefix, in order, and the closed lines are well wrapped |
| CaptionRenderer.WrapGroupsSound | caption_renderer.py:143-163 | the lines hold all the words in order. No line is empty. A line of two or more words fits. Each line was closed only because the next line's first word did not fit on it |
| CaptionRenderer.WrapGroups | caption_renderer.py:143-163 | the lines of the greedy wrap, each a list of words; characterised by CaptionRenderer.WrapGroupsSound |
| CaptionRenderer.JoinLines | caption_renderer.py:157-161 | joining the joined lines with spaces equals joining all their words with spaces |
| CaptionRenderer.WrapLines | caption_renderer.py:143-163 | the lines joined by single spaces equal the words joined by single spaces, no line is empty, and a line of two or more words fits |
| CaptionRenderer.WrapText | caption_renderer.py:143-163 | the loop produces the greedy wrap, with the same three guarantees as WrapLines |
| App.ParseProgress | app.py:295-308 | a classified line gets one of 10, 30, 50, 70, 90 % with a non-empty stage label |
| App.FirstMatch | app.py:297-308 | trying an ordered rule table gives nothing exactly when no rule matches |
| App.FirstMatchIsFirst | app.py:297-308 | the first matching rule decides, whatever later rules match |
| App.ParseProgressFollowsRules | app.py:297-308 | the if-chain is exactly the ordered rule table applied to the lower-cased line |
| App.ParseProgressValues | app.py:298-307 | every result is the value of one of the five rules |
| App.ParseProgressFirstWins | app.py:298-307 | when rule k matches and no earlier one does, the result is rule k's value; so a line with both "downloading" and "saved to" gives 10 %, "Downloading video" |
| App.ParseProgressNone | app.py:297-308 | the result is None exactly when no needle of any rule occurs in the lower-cased line |
| App.ParseProgressCaseInsensitive | app.py:297 | a line and its lower-cased form classify alike |
| App.MetadataBase | app.py:380 | the clip stem: the metadata file name with `_metadata.json` removed; characterised by App.MetadataBaseOfName |
| App.MetadataBaseOfName | app.py:380 | the clip stem of `{stem}_metadata.json`, when the suffix does not occur earlier, is the stem |
| App.MetadataBaseExample | app.py:380 | the stem of "my_video_metadata.json" is "my_video" |
| App.ClipFileName | app.py:355 | `f"{base}_clip_{i+1}.mp4"`; characterised by App.ClipFileNameInjective |
| App.ClipFileNameInjective | app.py:355 | distinct entry indices name distinct clip files |
| App.VideoUrl | app.py:359 | `f"/videos/{job_id}/{clip_filename}"`; characterised by App.VideoUrlInjective |
| App.VideoUrlInjective | app.py:359 | distinct clip files of one job have distinct locators |
| App.ClipFor | app.py:358-364 | a clip's locator is `/videos/{job}/{base}_clip_{i+1}.mp4`. Its title and its YouTube description are the YouTube title. The TikTok and Instagram descriptions are the entry's |
| App.ReadyMask | app.py:355-357 | for each entry index, whether its clip file exists with a positive size |
| App.ReadyClips | app.py:350-364 | the clips of the entries whose file is ready, in entry order; characterised by App.ReadyClipsExact |
| App.ReadyClipsExact | app.py:350-364 | the ready list is exactly the entries whose clip file exists with positive size, in entry order, each with its own index's clip |
| App.Scan | app.py:336-369 | what one partial scan decides from a snapshot: no metadata, an empty or unreadable metadata file, no clip ready, or the ready clips; characterised by App.ScanExact |
| App.ScanExact | app.py:336-369 | nothing is reported without a metadata file or with an empty one. Reported clips are exactly the ready entries of the first metadata file, in order, and never an empty list. No report with a readable descriptor means no entry is ready |
| App.ScanPartialResults | app.py:336-369 | the scan loop computes the outcome Scan describes |
| App.FinalClipList | app.py:384-392 | one clip per entry, in order, whether or not its file exists |
| App.FinalClipUrlsDistinct | app.py:384-392 | the finalizer's clips have pairwise distinct locators |
| App.ReadyClipsAreFinal | app.py:350-392 | every clip the scanner reports is the finalizer's clip at the same entry index |
| App.MissingFileMessage | app.py:377 | the `FileNotFoundError` text of opening a vanished file, naming the path as `repr` writes it; characterised by App.ResolveRunCases |
| App.Finalize | app.py:372-397 | what `finalize_job_v2` does with the final snapshot: fail with "No metadata file generated" (NoMetadataMessage) without metadata, raise the open error for a vanished file, the decoder's text (EmptyJsonMessage) for an empty one, the decoding error for a malformed one, and otherwise complete with one clip per entry; characterised by App.FinalizeMatchesScan and App.FinalizeJob |
| App.FinalizeMatchesScan | app.py:336-397 | on one snapshot, the finalizer gives up exactly when the scanner finds no metadata file, completes exactly when the scanner reads the descriptor's entries, and raises otherwise. When it completes, every clip the scanner reports is the finalizer's clip for the same entry |
| App.BuildFinalClips | app.py:382-392 | the loop builds one clip per entry, entry i's clip at index i |
| App.CommandFor | app.py:409-418 | the generator's command line; characterised by App.CommandFlags |
| App.CommandFlags | app.py:409-418 | the seven fixed arguments come first, then flag/value pairs. Each caption flag appears at most once, in the order style, colour, outline. The style is passed when captions are on and it is not "none". Each colour is passed when captions are on and it is non-empty text |
| App.BuildCommand | app.py:409-418 | extending the list flag by flag builds the command CommandFlags describes |
| App.LineEffect | app.py:316-328 | a delivered line is appended to the logs, and the progress is set to its classification when it has one. Nothing else changes |
| App.LoggedLines | app.py:314-316 | the lines the reader logs: each stripped, the empty ones dropped, order kept; characterised by Text.StripEmpty and App.DeliverLines |
| App.DeliverLine | app.py:316-328 | an empty stripped line or a missing job writes nothing; otherwise the record becomes LineEffect's, with a fresh expiry |
| App.LastSomeNone | app.py:324-328 | the last present value of a list is absent exactly when every value is |
| App.LastSomeIsLast | app.py:324-328 | the last present value is present at some index, with none present after it |
| App.LastSomeAppend | app.py:324-328 | over a concatenation, the last present value is the second part's when it has one, else the first part's |
| App.Classified | app.py:324 | the classification of each logged line, index by index |
| App.LastProgressAppend | app.py:324-328 | the progress after two batches of lines is the second batch's last, else the first batch's |
| App.AfterLoggedStep | app.py:316-328 | logging one more line takes the record from the closed form for the earlier lines to the one for all of them |
| App.AfterLoggedAppend | app.py:316-328 | logging two batches in turn is logging their concatenation |
| App.TrackedWrite | job_store.py:17-21 | rewriting a record being processed, within its lifetime, with one keeping its id, status, start and error keeps it tracked and touches no other key |
| App.DeliverLines | app.py:314-328 | the reader strips every line and delivers it. Only the job's record is written. A record being processed stays so, and ends with the non-empty stripped lines appended to its logs, in order, and the progress of the last one that classifies (unchanged when none does) |
| App.CheckPartialResults | app.py:336-369 | the store is written only when the scan reports clips. Then only the result changes, to exactly those clips |
| App.FinalizeJob | app.py:372-397 | the outcome is Finalize's. With a present, non-empty, decodable first metadata file, the full clip list is written as the result and the job completed. Without metadata, the job fails with "No metadata file generated" and no result. A vanished file raises the `FileNotFoundError` text, an empty one the decoder's text, an undecodable descriptor its error, each before any write |
| App.ExitMessage | app.py:451-454 | `f"Process failed with exit code {code}"`; characterised by App.ExitMessageInjective |
| App.ExitMessageInjective | app.py:451-454 | the failure message names the exit code: distinct codes, distinct messages |
| App.ExitResolution | app.py:448-458 | how `run_job_v2` resolves an exited process: the exit-code failure, or the finalizer's outcome on code 0; characterised by App.ResolveRunCases |
| App.ResolveRun | app.py:425-458 | the resolution of a run, a failed spawn included; characterised by App.ResolveRunCases |
| App.ResolveRunCases | app.py:425-458 | every run ends Completed or Failed. It is Completed exactly when the generator exited 0 and its first metadata file is present, non-empty and decodable, and then it has one clip per entry. A failed spawn fails with its message, a nonzero code with the exit-code message, missing metadata with the fixed message, a vanished file with the `FileNotFoundError` text, an empty one with the decoder's text |
| App.ScanFinds | app.py:336-369 | for each interval, the clips its scan reported, or None |
| App.AfterTicksStep | app.py:443-446 | one more interval, its lines and then its scan, takes the record from the closed form for the earlier intervals to the one for all of them |
| App.AfterTicks | app.py:443-446 | the record after the poll intervals in closed form: the logged lines appended, the last classifying line's progress, the last reported clips as result, nothing else changed; characterised by App.AfterTicksStep and App.Monitor |
| App.Monitor | app.py:443-446 | the poll loop writes only the job's own record. A record being processed stays so, and ends with every logged line of every interval appended, the progress of the last classifying line, and as result the clips of the last scan that reported any (unchanged when none did) |
| App.ConcludeWrite | job_store.py:52-73 | writing a terminal status into a tracked record within its lifetime concludes it with that resolution and touches no other key |
| App.FinishSuccess | app.py:448-457 | on exit code 0 the job is finalized, and an exception while finalizing fails it with the exception's message; only the job's record changes |
| App.Conclude | app.py:448-458 | after exit, the record read at the exit time carries the resolution: status, start and end times, error and clips |
| App.BeginJob | app.py:402-403 | the job is marked processing at the start time, then "Job started by worker." is logged; nothing else changes |
| App.ExecuteRun | app.py:425-458 | the guarded part of a run reaches ResolveRun's resolution; within the record's lifetime the final record carries it |
| App.QueuedJob | app.py:500-512 | a new v2 job is queued with its URL, settings and creation time, and a single log line "Job {id} queued." |
| App.Worker.constructor | app.py:33-46 | a new worker has no slot in use, an empty queue, no running job and no API key |
| App.Worker.Enqueue | app.py:514-519 | the record is stored, the key is kept in memory, and the id is queued at the back |
| App.Worker.DispatchStep | app.py:261-272 | the next id is taken in FIFO order; a slot is taken only when one is free, so the v2 jobs' slots in use never exceed the capacity |
| App.Worker.RunJobV2 | app.py:400-461 | the generator gets the computed command and the job's API key, and afterwards the key is gone on every modelled path. Only the job's record is written. Within its lifetime, the record read at the end carries ResolveRun's resolution |
| App.Worker.RunJobWrapper | app.py:275-292 | the job's slot is released on every path. The job runs exactly when the store is reachable and its record present; otherwise nothing is written and the key stays. Only the job's record is written, and within its lifetime the record read at the end carries ResolveRun's resolution |

## Left out

- redis_client.py is not part of this model. Connection pooling, the ping and the `REDIS_URL` lookup become the `storeAvailable` input of the wrapper. Errors raised by the store itself are not modelled.
- The store's serialization (`model_dump_json` / `model_validate_json`) is taken to round-trip exactly, so the map holds records rather than JSON text.
- Concurrency:
  - The subprocess, the log-reader thread and the asyncio scheduling are not modelled.
  - The lines the reader delivers between two polls are applied before that poll's scan, so one interleaving of reader and poller is fixed.
  - Lines a reader thread delivers after the final status are not modelled.
  - `process_queue_v2` is one dispatch step up to where it would block.
  - `task_done` and the `print` diagnostics are left out.
- The `Exited` run carries its own times. `App.Worker.RunJobV2` and `App.ExecuteRun` promise the final record only when every moment of the run falls within 24 hours of its start, which is `RunWithin`. Past that the record may have expired between writes and the source's writes become no-ops.
- JSON decoding and `glob` are left out. The descriptor arrives decoded, either as its `shorts` entries or as the decoder's error message; its entries carry only the three keys the pipeline reads.
- `os.makedirs`, `os.environ.copy()` and the working directory of the child process are left out. The environment is reduced to the API key the child receives.
- FastAPI endpoints, request validation and response shaping in `process_v2` and the other routes are left out. Uploads, `cleanup_jobs`, social posting and the v1 in-memory pipeline are left out. Only the state change of `process_v2` (store, remember the key, enqueue) is modelled.
- The OpenCV drawing functions (`render_text_with_outline`, `render_karaoke_text`, `render_caption_on_frame`) are left out. `cv2.getTextSize` is the `width` parameter of `WrapText`.
- Reals are exact. Float rounding in the caption window and in the font scales is not modelled.
- Timestamps are whole seconds on one clock shared with the expiry.
- App.Worker.constructor: the capacity is a parameter; the environment lookup of `MAX_CONCURRENT_JOBS` (default 5) is not modelled.
- App.Worker.DispatchStep: the semaphore is shared with the v1 dispatcher (app.py:41, 88, 108). `inUse` counts only the v2 jobs, so the bound says nothing about v1 jobs holding slots.
- App.Worker.RunJobV2: its first writes, `makedirs` and the command building (app.py:402-424) run before the `try`. An exception there would skip the key cleanup; such exceptions, and errors raised by the store, are not modelled.
- JobStore.RedisJobStore.UpdateJob: requires the values to have their fields' types. Pydantic does not validate assignment, and an ill-typed value would make later reads fail. Names of pydantic's own attributes, which `hasattr` accepts but `setattr` rejects, are treated like unknown names.
- CaptionRenderer.ParseHexField: models `int(s, 16)` with its sign and its padding. Non-ASCII decimal digits, `_` separators and the `0x` prefix are not accepted; none of them fits in a two-character slice beside a digit except a non-ASCII digit.
- CaptionRenderer.ParseHexFieldShort: inherits that gap: a slice holding a non-ASCII decimal digit, such as "１２", is rejected, where `int("１２", 16)` gives 0x12.
- CaptionRenderer.HexToBgr: inherits that gap: `hex_to_bgr("#１２３４５６")` gives (0x56, 0x34, 0x12) in Python, and an error in the model.
- CaptionRenderer.GetActiveCaptionText: the default `window_size=3.0` is not modelled; the window is always passed explicitly.
- Text.Repr: characters beyond ASCII are written as themselves; the escapes `repr` uses for non-printable Unicode characters are not modelled.
- Transcript and word records hold only the keys the helpers read. A key present with the value None, which `get` would return, is not modelled.
- Text.Lower: only ASCII letters are lower-cased. The classifier's needles are ASCII, but Python's full case mapping can turn non-ASCII letters into ASCII ones ("GEMINİ".lower() contains "gemini"), so such lines may classify differently.
