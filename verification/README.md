# videothing download bookkeeping in Dafny

This project models the backend of videothing, a small web service. The service downloads videos from URLs into a download folder and converts them to MP4 with FFmpeg. While it does so, it keeps one progress record per URL. Each of the following is modelled, one module per concern:

- `QueueManager` (`queue_manager.dfy`): the in-memory progress store, `downloads`. It is a class `ProgressStore` with a `map<string, Record>` field that its methods update in place. The methods are:
  - the field-wise update `update_download_progress`;
  - the admission check `add_download_job`;
  - the bulk clear of finished entries;
  - the two worker bodies `_download_task` and `_convert_task`.

  The two thread pools become two job lists, run one job at a time. `time.time()` becomes a logical clock that every update advances.
- `Downloader` (`downloader.dfy`): `download_video`. This covers the file name derived from the URL, the chunk loop that writes the body and counts the bytes, and the progress reports with their speed and ETA texts. The HTTP response is an input: the chunks in order, each with its elapsed time, and the exception raised after them, if any.
- `Converter` (`converter.dfy`): `convert_video`. This covers the pre-flight decisions, the output name, the parse of FFmpeg's progress file, the clamped progress reporter and the mapping of outcomes to result dictionaries. The files that exist and the behaviour of `ffprobe` and `ffmpeg` are inputs.
- `Sanitize` (`sanitize.dfy`): both filename sanitisers.
  - `sanitize_and_strip_filename`, which is defined identically in downloader.py and in converter.py, so one model serves both.
  - The scraper's `sanitize_filename`, which truncates long names.
- `Scraper` (`scraper.dfy`): the link filter and link mapping of `scrape_video_links`. The anchors' `href` attributes are given in document order, and `urljoin` is a parameter.
- `PathGuard` (`path_guard.dfy`): `resolve_and_validate_path`. It is modelled as lexical normalisation over lists of path components, followed by a component-wise prefix check.
- `DownloadApi` (`download_api.dfy`): the `download`, `get_progress`, `clear_progress` and `get_queue_stats` routes.
- Shared pieces, also modelled:
  - `Text`: `str.isspace`, `str.strip`, `str(int)` and the `:.2f` format.
  - `PosixPath`: `os.path.join`, `split`, `basename` and `splitext`.
  - `Wrappers`: `Option` and `Result`.

The code is followed where it differs from its own documentation.

- **Neither sanitiser is idempotent**, and this is proved with concrete inputs:
  - for both the downloader's and the scraper's sanitiser, `%2541` decodes to `%41`, which a second pass decodes to `A`;
  - for the downloader's sanitiser, `(Ra(Raw)w)` loses its inner group and becomes `(Raw)`, which a second pass removes.
- **A `completed` entry counts two ways.** For admission it is still in flight. For the clear it is finished.
- **An MP4 input that is not its own output ends the task `failed`.** The pre-flight reports it with the status `converted`, which `_convert_task` does not expect. The task then looks up `error` in that result and raises `KeyError`.
- **`api/download.py` imports a `queue_manager` object that `queue_manager.py` does not define.** `get_all_progress()` is modelled as a snapshot of `downloads`.
- **The endpoint checks a name derived from the title.** It checks for a file named after the request's `title`, but the downloader saves under the name taken from the URL, and the two names can differ. When the URL has no `?` and the title's last segment is the URL's last segment, they agree (`DownloadApi.SameNameAsDownloader`). A `?` anywhere in the URL cuts the downloader's name there, even inside an earlier segment.

## Model

| member | source | states |
|---|---|---|
| QueueManager.MergeFieldwise | backend/queue_manager.py:62-80 | an update writes exactly the fields given a non-None argument, keeps every other field, and always sets the timestamp |
| QueueManager.EmptyPatchStamps | backend/queue_manager.py:62-80 | an update with no arguments changes only the timestamp |
| QueueManager.MergeTwice | backend/queue_manager.py:45-81 | two updates act as one update in which the later arguments win; repeating an update changes only the timestamp |
| QueueManager.AppliedAppend | backend/queue_manager.py:45-81 | applying two runs of updates in turn equals applying their concatenation, with the clock carried over |
| QueueManager.AppliedStamp | backend/queue_manager.py:64 | after a run of updates the timestamp is the time of the last one |
| QueueManager.UpdateStampsNewest | backend/queue_manager.py:64 | an update makes its entry the newest: stamped with the present time, later than every other entry's stamp |
| QueueManager.UpdateTouchesOneEntry | backend/queue_manager.py:48-81 | after an update the URL is tracked; an untracked URL starts from an empty record; every other URL's entry is unchanged and no other key appears or disappears |
| QueueManager.ProgressStore.Update | backend/queue_manager.py:45-81 | `update_download_progress` replaces the URL's entry by the merged record stamped with the current clock, advances the clock by one and leaves the job lists alone; timestamps stay in the past |
| QueueManager.ProgressStore.UpdateAll | backend/queue_manager.py:90 | a sequence of callback updates leaves the entry as `Applied` describes and advances the clock once per update |
| QueueManager.ProgressStore.UpdateThenFinish | backend/queue_manager.py:89-101 | the progress updates followed by the closing update leave the entry as the merge of all of them |
| QueueManager.ProgressStore.FinishTask | backend/queue_manager.py:84-143 | the opening update, the progress updates and the closing update of a worker together produce `TaskRecord` for that URL and nothing else |
| QueueManager.ClearKeepsUnfinished | backend/queue_manager.py:35-41 | the clear keeps exactly the entries whose status is not one of completed, converted, failed and skipped, and keeps them unchanged |
| QueueManager.ClearTwice | backend/queue_manager.py:36-43 | a second clear finds nothing to remove and changes nothing |
| QueueManager.ProgressStore.ClearFinished | backend/queue_manager.py:30-43 | the loop deletes exactly the finished entries, returns how many there were, and touches neither the clock nor the job lists |
| QueueManager.CompletedQuirk | backend/queue_manager.py:156 | a `completed` entry is in flight for admission yet removed by the clear; an entry without a status is in flight and kept by the clear |
| QueueManager.ProgressStore.AddDownloadJob | backend/queue_manager.py:145-164 | returns false and changes nothing when the URL is tracked with a status other than failed, converted or skipped (including `completed` or none); otherwise replaces the whole entry with the queued record and submits the job |
| QueueManager.DownloadEnds | backend/queue_manager.py:86-101 | a download ends `completed` with the returned path as `output_path`, or `failed` with "Download failed for <url>: <error>" as both error and message; the timestamp counts one update per report |
| QueueManager.DownloadingWhileReporting | backend/queue_manager.py:89-90 | after at least one progress report the entry is `downloading` with the last report's percentage and speed |
| QueueManager.ProgressStore.DownloadTask | backend/queue_manager.py:84-101 | `_download_task` leaves the entry as `DownloadRecord` of the events and outcome of the download, and submits a conversion job exactly when the download succeeds |
| QueueManager.ProgressStore.ConvertFile | backend/queue_manager.py:107-112 | the conversion runs on the folder and name `os.path.split` gives for the downloaded file |
| QueueManager.ProgressStore.ConvertTask | backend/queue_manager.py:103-143 | `_convert_task` leaves the entry as `ConversionRecord` of the reports and result of `convert_video`, advances the clock by two plus one per report, and submits nothing |
| QueueManager.ConversionSucceeds | backend/queue_manager.py:114-129 | a `success` result gives `converted` with the new output path, message and 100; a `skipped` result gives `converted` with 100 and the previous output path |
| QueueManager.ConversionFails | backend/queue_manager.py:131-143 | any other status gives `failed`; without an `error` key the error is the KeyError text naming `error`; otherwise it is the result's error |
| QueueManager.Mp4InputEndsFailed | backend/queue_manager.py:131-143 | when the pre-flight answers `converted` (an MP4 input), the task ends with the KeyError text for `error` |
| QueueManager.ConvertedResultFails | backend/converter.py:57 | a `converted` pre-flight result, passed through `convert_video`, makes the closing update carry the KeyError text |
| QueueManager.ProgressStore.RunNextDownload | backend/queue_manager.py:162 | the download executor runs the oldest submitted job and removes it from the list; the entry is its `DownloadRecord`, the clock advances by two plus one per report, and a conversion of the saved file is submitted exactly when the download succeeded |
| QueueManager.ProgressStore.RunNextConversion | backend/queue_manager.py:96 | a conversion executor runs the oldest submitted conversion and removes it from the list; the entry is its `ConversionRecord` and the clock advances by two plus one per report |
| Downloader.BeforeFirst | backend/downloader.py:35 | `split('?')[0]` is the longest prefix without `?`, cut at the first `?` when there is one |
| Downloader.UrlSegment | backend/downloader.py:35 | the segment holds neither `/` nor `?` and ends the part of the URL before the query |
| Downloader.QueryIgnored | backend/downloader.py:35 | the query does not contribute to the segment |
| Downloader.SegmentAfterLastSlash | backend/downloader.py:35 | the segment of `dir/seg` is `seg` |
| Downloader.LastSegmentNamed | backend/downloader.py:35 | the file name is the sanitised last `/`-segment of the URL before the first `?` |
| Downloader.FilenameFromUrl | backend/downloader.py:35 | the derived name holds no forbidden character |
| Downloader.EtaParts | backend/downloader.py:66 | the seconds part is below 60 and minutes times 60 plus seconds is the whole part of the ETA |
| Downloader.EtaOfWholeSeconds | backend/downloader.py:62-66 | on whole seconds the ETA text is "<n div 60>m <n mod 60>s" |
| Downloader.Eta | backend/downloader.py:62-66 | the ETA is given exactly when the speed is positive |
| Downloader.Speed | backend/downloader.py:58-59 | the speed is positive exactly when time has elapsed and bytes have arrived |
| Downloader.EventAt | backend/downloader.py:56-68 | a report carries the share of the announced size, a speed text ending in " MB/s", and an ETA exactly when the speed is positive |
| Downloader.StreamToFile | backend/downloader.py:50-68 | the loop writes the concatenation of the chunks, counts their bytes, and makes the reports `Events` describes |
| Downloader.ContentLength | backend/downloader.py:53-54 | the byte count is the length of what was written |
| Downloader.EventCount | backend/downloader.py:52-56 | the callback fires once per non-empty chunk when a callback is given and the size is positive, and never otherwise |
| Downloader.EventsBounded | backend/downloader.py:57 | no report exceeds the share of the bytes written so far |
| Downloader.EventsNondecreasing | backend/downloader.py:57 | the reported percentages never go down |
| Downloader.LastEventComplete | backend/downloader.py:57 | when the whole announced size arrives, the last report says 100 |
| Downloader.OutcomeNamed | backend/downloader.py:35-79 | a download succeeds exactly when nothing is raised; its path ends in the name derived from the URL; a failure carries the exception's text |
| Downloader.DownloadVideo | backend/downloader.py:19-79 | `download_video` writes the content, makes the reports and returns the path or re-raises, as the specification functions say |
| Converter.LowerText | backend/converter.py:46 | `lower()` lower-cases each ASCII letter and keeps the length |
| Converter.OutputNamed | backend/converter.py:39-41 | the output's base name is the input's stem followed by `.mp4`, in the folder the input was joined onto |
| Converter.BasenameOfJoin | backend/converter.py:34-39 | the base name of a joined file name is that name |
| Converter.UpperCaseMp4NotOwnOutput | backend/converter.py:39-49 | an input ending in `.MP4` is never its own output path |
| Converter.Preflight | backend/converter.py:36-62 | every early result names its status and carries a message |
| Converter.MissingInputFails | backend/converter.py:36-37 | a missing input gives `failed` with `file_not_found` and no output file |
| Converter.Mp4InputNotReencoded | backend/converter.py:46-57 | an MP4 input is `skipped` exactly when it is its own output, and otherwise `converted`, in both cases with its own path as `output_file` |
| Converter.UpperCaseMp4Converted | backend/converter.py:46-57 | an existing `.MP4` input is reported `converted` with its own path |
| Converter.ExistingOutputSkipped | backend/converter.py:61-62 | a non-MP4 input whose output exists is `skipped` with no `output_file` key |
| Converter.FindOutTimeMs | backend/converter.py:106-108 | a match found is an `out_time_ms=` followed by digits, at or after the start position |
| Converter.FindOutTimeMsLeftmost | backend/converter.py:106 | the match found is the leftmost one, and none is found only when there is none |
| Converter.FindTime | backend/converter.py:111 | no fallback match is found only when there is none |
| Converter.FindTimeLeftmost | backend/converter.py:111-114 | the value found is that of the leftmost `time=HH:MM:SS.f` match |
| Converter.OutTimeLineRead | backend/converter.py:106-109 | the line `out_time_ms=<n>` reads as n / 1,000,000 seconds |
| Converter.LastTimedLineWins | backend/converter.py:105-115 | the time is taken from the last line that has one, whatever follows it |
| Converter.ScanProgressFile | backend/converter.py:103-115 | the reversed scan stops at the last line with a time and yields `CurrentTime` |
| Converter.Clamp | backend/converter.py:123 | the clamped value lies in [0, 100] and values already in range are kept |
| Converter.ReportStep | backend/converter.py:121-127 | a poll reports only a value in [0, 100] whose whole part exceeds that of the last report |
| Converter.ReportProgress | backend/converter.py:98-129 | the polling loop makes exactly the reports `Reports` describes |
| Converter.ReportsRise | backend/converter.py:121-127 | every report lies in [0, 100] and the whole parts strictly increase from report to report |
| Converter.ReportsBounded | backend/converter.py:125-127 | starting from 0 there are at most 100 reports |
| Converter.ConvertWithTools | backend/converter.py:68-153 | probing, encoding and reporting give the reports and result `RunTools` describes |
| Converter.ConvertVideo | backend/converter.py:20-153 | `convert_video` returns the pre-flight result when there is one, and otherwise runs the tools |
| Converter.ConversionResultShape | backend/converter.py:37-153 | every result has a status and a message |
| Converter.CleanExitSucceeds | backend/converter.py:131-142 | a zero exit gives `success` with the output path, and the last report is 100 |
| Converter.FfmpegErrorReported | backend/converter.py:150-153 | any other exception raised once `ffmpeg` has started gives `failed` with `unexpected_error` and a message ending in the exception's text, after the reports already made, and no output file |
| Converter.FailedExitReported | backend/converter.py:132-149 | a non-zero exit gives `failed` with `conversion_error`, a message ending in the standard error, and no output file |
| Converter.ConversionReportsInRange | backend/converter.py:121-136 | every report of a conversion lies in [0, 100] |
| Sanitize.HexDigit | backend/downloader.py:10 | the digit is a hex digit whose value is the given value |
| Sanitize.Unquote | backend/downloader.py:10 | decoding never lengthens a text and leaves text without `%` alone |
| Sanitize.UnquoteInvertsPercentEncode | backend/downloader.py:10 | decoding undoes percent-encoding of every character below 256 |
| Sanitize.StripNoiseSuffix | backend/downloader.py:13 | a trailing `_ImSM8O` is removed, also just before a final newline, and the text is otherwise unchanged |
| Sanitize.NoiseElsewhereKept | backend/downloader.py:13 | an `_ImSM8O` that is not at the end is kept |
| Sanitize.SpacesFrom | backend/downloader.py:14 | a greedy whitespace run ends at the end of the text or at a non-space |
| Sanitize.QualifierMatch | backend/downloader.py:14 | a match at the start of the text is non-empty and fits in it |
| Sanitize.QualifierGroupRemoved | backend/downloader.py:14 | a `(Raw)` or `(Partial)` group, in any letter case, is removed together with the whitespace on both sides, and the text before it is kept |
| Sanitize.PlainPrefixKept | backend/downloader.py:14 | text without `(` that does not end in whitespace is copied as it is |
| Sanitize.NoParenKept | backend/downloader.py:14 | text without `(` holds no group and is unchanged |
| Sanitize.RemoveForbidden | backend/downloader.py:15 | the result holds exactly the characters of the input that are not among `\ / * ? : " < > \|` |
| Sanitize.RemoveForbiddenAppend | backend/downloader.py:15 | the substitution distributes over concatenation, so the kept characters keep their order and number |
| Sanitize.RemoveForbiddenSingle | backend/downloader.py:15 | one character is removed exactly when it is forbidden, and kept otherwise |
| Sanitize.SanitizeAndStrip | backend/downloader.py:8-17 | the sanitised name holds no forbidden character and is no longer than the input |
| Sanitize.CleanDecoded | backend/converter.py:14-16 | the substitutions after decoding leave no forbidden character |
| Sanitize.CleanNameKept | backend/downloader.py:8-17 | a name with nothing to decode, strip or remove is returned as it is |
| Sanitize.DecodingNotIdempotent | backend/downloader.py:10 | sanitising `%2541` gives `%41`, and sanitising that gives `A` |
| Sanitize.ScrapedDecodingNotIdempotent | backend/scraper.py:12 | the scraper's sanitiser also turns `%2541` into `%41`, and that into `A` |
| Sanitize.GroupRemovalNotIdempotent | backend/downloader.py:14 | sanitising `(Ra(Raw)w)` gives `(Raw)`, and sanitising that gives the empty name |
| Sanitize.SliceTo | backend/scraper.py:17 | Python's `s[:k]`: a negative bound counts from the end, and bounds are clamped |
| Sanitize.ScrapedName | backend/scraper.py:12-14 | the scraper's cleaned name holds neither a forbidden character nor `/` |
| Sanitize.CutName | backend/scraper.py:17 | the cut name ends with the whole extension after the stem cut to the bound, and stays free of forbidden characters |
| Sanitize.SanitizeFilename | backend/scraper.py:11-18 | the result holds no forbidden character, and a name within the limit is not truncated |
| Sanitize.TruncationKeepsExtension | backend/scraper.py:15-17 | a name over the limit keeps its whole extension after its stem cut to what the limit leaves |
| Sanitize.TruncatedToLimit | backend/scraper.py:15-17 | when the extension fits, a truncated name is exactly the limit long |
| Sanitize.LongExtensionExceedsLimit | backend/scraper.py:15-17 | an extension longer than the limit is kept whole, so the result is longer than the limit |
| Sanitize.ShortPlainNameKept | backend/scraper.py:11-18 | a short name with nothing to decode or remove is kept, qualifier groups included |
| Sanitize.SanitisersDifferOnGroups | backend/scraper.py:11-14 | the scraper keeps `(Raw)` where the downloader's sanitiser removes it |
| Scraper.Kept | backend/scraper.py:28-35 | the filter keeps no more hrefs than there are anchors, and each kept href ends in a video suffix |
| Scraper.KeptAppend | backend/scraper.py:33-34 | the filter works anchor by anchor and keeps document order |
| Scraper.KeptExactly | backend/scraper.py:28-35 | an href is kept exactly when some anchor carries it and it ends case-sensitively in one of the five suffixes |
| Scraper.UpperCaseSuffixDropped | backend/scraper.py:34 | `clip.MP4` is dropped, because the suffix test is case-sensitive |
| Scraper.MissingHrefDropped | backend/scraper.py:34 | an anchor without an `href` is dropped |
| Scraper.LinkFor | backend/scraper.py:29-32 | a link's file name holds no forbidden character and no `/` |
| Scraper.Links | backend/scraper.py:28-33 | one link per kept href, in order |
| Scraper.ScrapeResultShape | backend/scraper.py:20-36 | a failed fetch gives its error text; a page gives one link per kept href, whose URL is joined against the page and whose file name is the sanitised last segment |
| Scraper.ScrapeSplits | backend/scraper.py:28-35 | scraping a page made of two runs of anchors is scraping each run |
| PosixPath.Join | backend/downloader.py:37 | an absolute second part replaces the first; otherwise the result ends with the second part |
| PosixPath.Basename | backend/converter.py:39 | the base name holds no separator, ends the path, and follows a separator when shorter than the path |
| PosixPath.BasenameIsLastPart | backend/converter.py:39 | the base name is the separator-free last part of the path |
| PosixPath.SplitExt | backend/converter.py:39 | the stem and the extension make the path, and the extension is empty or a dot followed by neither a dot nor a separator |
| PosixPath.SplitThenJoin | backend/queue_manager.py:107 | splitting a path without doubled separators and joining the parts gives the path back |
| PathGuard.Segments | backend/core/utils.py:15 | splitting gives at least one part, none holding a separator |
| PathGuard.JoinOfSegments | backend/core/utils.py:15 | joining the parts of a text gives the text back |
| PathGuard.SegmentsOfJoin | backend/core/utils.py:15 | splitting joined parts without separators gives the parts back |
| PathGuard.Step | backend/core/utils.py:15 | an empty or `.` component changes nothing, `..` goes up a level (staying at the root), and a name goes down |
| PathGuard.Resolve | backend/core/utils.py:15 | resolution from a normalised path yields a normalised path |
| PathGuard.ResolveAndValidate | backend/core/utils.py:9-22 | a path is accepted exactly when the base is a prefix of the resolved path, which is then returned; otherwise a 403 is raised |
| PathGuard.ResolveNames | backend/core/utils.py:15 | names only go down |
| PathGuard.ResolveDescends | backend/core/utils.py:15 | without `..` resolution never leaves its starting point |
| PathGuard.ResolveClimbs | backend/core/utils.py:15 | k times `..` goes up k levels, stopping at the root |
| PathGuard.EmptyPathIsBase | backend/core/utils.py:15-18 | the empty relative path resolves to the base and is accepted |
| PathGuard.DescendingAccepted | backend/core/utils.py:15-18 | a relative path without `..` is accepted |
| PathGuard.ClimbAccepted | backend/core/utils.py:15-21 | k times `..` followed by names is accepted exactly when the names retrace the levels climbed, or, when the path climbs past the root, exactly when the names begin with the base's components |
| PathGuard.ParentRejected | backend/core/utils.py:15-21 | `..` from a non-root base is refused with 403 |
| PathGuard.AbsoluteAccepted | backend/core/utils.py:15-18 | an absolute path replaces the base and is accepted exactly when it lies under the base |
| PathGuard.SiblingRejected | backend/core/utils.py:18 | `/base2` is not under `/base`: containment is tested per component |
| DownloadApi.ExpectedFilename | backend/api/download.py:31-32 | the expected name is the sanitiser applied to the title's base name, and holds neither a forbidden character nor `/` |
| DownloadApi.Download | backend/api/download.py:18-46 | the route answers as `DownloadResponse` says; the store changes, by a queued entry and a submitted job, only when the reply is `queued` |
| DownloadApi.DownloadRefusals | backend/api/download.py:21-46 | the refusals come in order: traversal 403, directory 500, existing file 409, job in flight 409; the reply is `queued` exactly when all four pass |
| DownloadApi.ExistingFileIgnoresStore | backend/api/download.py:37-39 | an existing file is refused whatever the store holds, so the store is never consulted |
| DownloadApi.SameNameAsDownloader | backend/api/download.py:31-32 | when the URL has no `?` and the title's last segment is the URL's last segment, the endpoint checks for the name the downloader saves under |
| DownloadApi.QueuedUnderBase | backend/api/download.py:21-41 | a queued job's directory is the resolved one, which lies under the base |
| DownloadApi.GetProgress | backend/api/download.py:48-52 | the snapshot is the store's map as it is |
| DownloadApi.ClearedMessageCount | backend/api/download.py:58-60 | the message gives back the count it was made from |
| DownloadApi.ClearProgress | backend/api/download.py:55-60 | the endpoint clears the finished entries and reports the number the clear returned |
| DownloadApi.HistogramCounts | backend/api/download.py:79-81 | exactly the statuses that occur are keys, each counting the entries that have it |
| DownloadApi.TotalIncrement | backend/api/download.py:81 | counting one more entry adds one to the sum of the counts |
| DownloadApi.HistogramAdd | backend/api/download.py:79-81 | counting an entry adds one to its status's count |
| DownloadApi.HistogramTotal | backend/api/download.py:75-81 | when every entry has a status, the counts add up to the number of entries |
| DownloadApi.CountStatuses | backend/api/download.py:79-81 | the loop meets an entry without a status exactly when one exists; otherwise it builds the histogram |
| DownloadApi.QueueStats | backend/api/download.py:69-83 | `total_jobs` is the number of entries and the counts sum to it; an entry without a status makes the route fail with 500 |
| Text.Strip | backend/downloader.py:14 | `strip()` gives the text between the leading and the trailing whitespace, and the result neither starts nor ends with whitespace |
| Text.NatTextRoundTrip | backend/api/download.py:60 | reading back the decimal text of a number gives the number |
| Text.FixedTwo | backend/queue_manager.py:110 | the `.2f` text ends in a dot and two digits |

## Left out

- Networking, the file system and processes are not modelled. HTTP requests, HTML parsing, `urljoin`, `mkdir`, file writes and removals, and the `ffprobe` and `ffmpeg` subprocesses all become inputs:
  - the response's chunks and failure;
  - the anchors' `href`s;
  - the `join` function;
  - the directory creation's error;
  - the set of paths that exist;
  - the tools' behaviour.
- Concurrency is not modelled. The thread pools (`max_workers` 1 and 4) and `downloads_lock` become two job lists run one job at a time. Interleavings of workers are not covered.
- Time is not modelled. `time.time()` becomes a logical clock that each update advances. `time.sleep` polling is not modelled.
- Floating point is modelled as exact reals:
  - percentages, speed, ETA and the `:.2f` rendering (round half to even on the exact value);
  - the float `//` and `%` of the ETA;
  - a duration such as NaN or infinity is not covered.
- Downloader.EventAt: specifies the speed text only by its " MB/s" suffix, because its digits depend on float rounding.
- Text.FixedTwo: states the shape of the text (a dot and two digits), not its digits, for the same reason.
- Unicode details of `unquote` are not modelled. `unquote` decodes UTF-8 byte sequences with replacement characters; the model decodes each `%XX` to the character with that code.
- `\d` is ASCII-only. In `out_time_ms=(\d+)` and `time=(\d{2}:…)` Python also matches other Unicode decimal digits, which `int()` and `float()` accept; the model reads ASCII digits only (`Text.IsDigit`, `Converter.DigitRun`).
- Case folding is ASCII-only. Python's `re.IGNORECASE` also matches `İ` (U+0130) and `ı` (U+0131) for the `i` of `(Partial)`; the model folds only ASCII letters.
- Symbolic links are not modelled. `Path.resolve()` follows them; the model normalises lexically. A base path beginning with `//`, which pathlib keeps, is not covered.
- `update_queue_config` (backend/api/download.py:62-67) is not modelled. It sets an attribute of the `queue_manager` object, which queue_manager.py does not define.
- `os.path.normcase` is the identity on POSIX, and the model uses it that way.
- `"."`, `".."` and the empty name are taken to exist. Once the target directory exists, `download` sees them as the directory itself or its parent.
- The removal of the original file after a conversion (`delete_original`) is left out. A `FileNotFoundError` raised by that removal would be reported as `ffmpeg_ffprobe_not_found`.
- The `details` of a failed `ffprobe` run are modelled as the text `None`. This is the standard error that `check_output` does not capture.
- Downloader.Outcome: the disk's refusals are part of the given `Response.failure`, not derived from the name. A URL ending in `/` gives the empty name, and `open` then raises `IsADirectoryError`; a response that records no failure there describes a download that cannot happen.
- Logging and prints are left out.
