# arXiv scraper: a verified model of its core

This project models the core of a Python scraper. The scraper walks a contiguous range of arXiv ids (`2311.05222` … `2311.05225`). For each paper it:

- looks the paper up on arXiv;
- works out how many versions the paper has and their dates;
- downloads every version's source archive and keeps only the `.tex` and `.bib` files;
- fetches the paper's references and venue from Semantic Scholar through a rate limiter with retries;
- writes `metadata.json` and `references.json`.

A driver records each paper's result in run statistics and a resumable progress set, then derives rates and averages at the end.

The model has one module per component:

| module | file | models |
|---|---|---|
| `Wrappers` | wrappers.dfy | the `Option` type used wherever Python returns `None` or raises |
| `Utils` | utils.dfy | `src/utils.py`: the folder-name encoding, `generate_paper_ids`, `format_time` |
| `RateLimiting` | ratelimiter.dfy | `RateLimiter` and the interval the scraper gives it |
| `Extraction` | extraction.dfy | `_extract_filtered`, `_download_and_extract_version` |
| `Citations` | citations.dfy | `_get_references` (retry loop, backoff, spacing of requests), `_save_references` |
| `Scraper` | scraper.dfy | `process_paper`, the date check of `_get_version_dates`, `_save_metadata`, the scraper object |
| `RunStatistics` | statistics.dfy | the `Statistics` class, as a class with the same fields |
| `Runner` | runner.dfy | `src/main.py`: `load_progress`, `save_progress`, `process_single_paper`, the work list, the processing loop, `main` |

Everything the scraper reads from outside is an input rather than an effect:

- The arXiv lookup, the dates scraped from the abstract page and today's date are inputs.
- Each version download is an input function `nat -> VersionResponse`: a timeout, or a status, a body length, what the body decodes to and the size of the extracted directory.
- Each Semantic Scholar request is an input function `nat -> Reply`, with its duration.
- The clock is an integer in milliseconds. The limiter's 0.15 s and 1.5 s become 150 and 1500, the 429 backoff becomes 30000·(attempt+1) and the other-status backoff becomes 2000.

The functions (`ExpectedOutcome`, `RetryPolicy`, `ReferenceMap`, `Finalized`, `Tallied`, …) state what the code computes. The methods (`GetReferences`, `ProcessPaper`, `ProcessAll`, the `Statistics` recorders, …) follow the code step by step and are proved against those functions.

The model follows the code, including three behaviours that are easy to assume otherwise:

- **A version that fails to download does not fail the paper.** The paper still succeeds when any version extracts source; `missing_versions` is never produced (`Scraper.PartialVersionsSucceed`).
- **A 429 backs off 30 s, 60 s, 90 s, …, with no cap.** Running out of retries on 429 is reported as `semantic_scholar_error`, like every other reference-fetch failure; there is no separate rate-limit outcome.
- **A failing `save_progress` counts the paper twice.** The exception is caught by `process_single_paper`'s own `except`, so the paper is recorded as a success and then also as a `network_error` failure (`Runner.RecordOutcome`, `Runner.EveryPaperCounted`).

## Model

| member | source | states |
|---|---|---|
| Utils.ParseNat | src/utils.py:31-32 | a field is read as a number exactly when it is a non-empty run of digits |
| Utils.SplitOn | src/utils.py:27-28 | `split('.')` gives at least one part, no part contains the separator, and a string without it is its own single part |
| Utils.ParseDecimal | src/utils.py:31-32 | `int()` on the numeral Python prints for n gives back n |
| Utils.ZeroPad | src/utils.py:37 | `{num:05d}` is at least five digits long, all digits, exactly as long as the numeral when that is longer, and parses back to num |
| Utils.SplitOnJoin | src/utils.py:27-28 | `split('.')` of `a + '.' + b`, where a has no dot, is a followed by the split of b |
| Utils.SplitAtLast | src/scraper.py:211-213 | `rsplit('v', 1)[0]` and `split('v')[-1]` recover the text before and after the last 'v' whatever precedes it |
| Utils.ToFolderName | src/utils.py:5-10 | every '.' becomes '-', every other character and the length are unchanged, and no '.' is left |
| Utils.FromFolderName | src/utils.py:13-18 | every '-' becomes '.', every other character and the length are unchanged, and no '-' is left |
| Utils.FolderNameRoundTrip | src/utils.py:5-18 | an id without '-' comes back unchanged from folder name to id |
| Utils.FolderNameStable | src/utils.py:5-18 | for every id, encoding, decoding and encoding again gives the first encoding |
| Utils.FolderNameExample | src/utils.py:8-16 | the docstring examples: 2311.05222 and 2311-05222 map to each other |
| Utils.PaperIdParses | src/utils.py:27-37 | a generated id splits on '.' into the prefix and a field that parses to its number |
| Utils.PaperIdInjective | src/utils.py:36-38 | different numbers give different ids |
| Utils.PaperIdRange | src/utils.py:21-40 | there is a range exactly when both ids have a second field and both fields are read as numbers; it holds one id per number from start's to end's inclusive, none when end is smaller |
| Utils.GeneratePaperIds | src/utils.py:21-40 | the loop returns `PaperIdRange`: one id per number from start's number to end's number inclusive, in order, with start's prefix; None where an id has no second field or a field is not a run of digits |
| Utils.EndPrefixIgnored | src/utils.py:27-32 | the prefix of the end id is never read |
| Utils.RangeElement | src/utils.py:36-38 | the k-th id carries start's prefix and start's number plus k |
| Utils.IdsOrdered | src/utils.py:27-38 | two ids with the same prefix read back their own numbers, and differ when the numbers do |
| Utils.RangeIncreasing | src/utils.py:36-38 | later ids read back strictly larger numbers, so the range has no repeated id |
| Utils.RangeExample | src/utils.py:24 | the docstring example: 2311.05222 to 2311.05225 gives the four ids listed |
| Utils.SplitSeconds | src/utils.py:74-76 | hours, minutes below 60 and seconds below 60 add back up to the total |
| Utils.FormatTime | src/utils.py:72-83 | the text `format_time` builds from the hours, minutes and seconds; its meaning is stated by `SplitSeconds` and `FormatTimeUnits` |
| Utils.FormatTimeUnits | src/utils.py:72-83 | the text shows hours exactly for an hour or more and minutes exactly for a minute or more, and always ends with the seconds |
| RateLimiting.IntervalFor | src/scraper.py:57-59 | 150 ms exactly when an API key is configured, 1500 ms otherwise |
| RateLimiting.SleepFor | src/scraper.py:33-37 | the sleep is the least delay that puts the call at least the interval after the previous one, and 0 once the interval has passed |
| RateLimiting.RateLimiter.constructor | src/scraper.py:21-24 | a new limiter has the given interval and a last call time of 0 |
| RateLimiting.RateLimiter.Execute | src/scraper.py:26-45 | the call starts no earlier than the interval after the previous finish and no later than needed; its result passes through and its finish becomes the last call time |
| Extraction.MemberAction | src/scraper.py:269-276 | a member that is written is written under its own name, never as a renamed file |
| Extraction.FilterMembers | src/scraper.py:268-276 | at most one entry is written per member |
| Extraction.ExtractedIff | src/scraper.py:268-276 | a file is extracted exactly when a non-directory member has that name ending in .tex or .bib |
| Extraction.MadeDirIff | src/scraper.py:269-273 | a directory is recreated exactly when a directory member has that name |
| Extraction.FilterMembersNoRename | src/scraper.py:268-276 | tar extraction writes nothing under a name of its own and at most one entry per member |
| Extraction.ActionExamples | src/scraper.py:271-276 | a .tex and a .bib member are extracted under their own names; a .png member is skipped |
| Extraction.TarExample | src/scraper.py:268-276 | an archive of a.tex, b.bib and c.png yields exactly a.tex and b.bib, in order |
| Extraction.IsInfixIff | src/scraper.py:286 | the byte-string `in` test holds exactly when the pattern occurs at some position |
| Extraction.SingleFileName | src/scraper.py:285-296 | the single decompressed file is named main.tex or source, nothing else |
| Extraction.SingleFileNameIff | src/scraper.py:285-296 | the file is main.tex exactly when \documentclass or \begin{document} occurs at some position of the payload, and source otherwise |
| Extraction.BeginDocumentMeansMainTex | src/scraper.py:286-290 | a payload containing \begin{document} anywhere is stored as main.tex |
| Extraction.DocumentClassMeansMainTex | src/scraper.py:286-290 | a single gzip payload containing \documentclass anywhere is stored as main.tex |
| Extraction.NoMarkerMeansSource | src/scraper.py:291-296 | a payload containing neither marker is stored as source |
| Extraction.ExtractFiltered | src/scraper.py:260-300 | the member loop writes exactly what `ExtractionOf` prescribes: filtered tar members, one sniffed file, or a raise |
| Extraction.VersionIdRoundTrip | src/scraper.py:211-219 | the id `process_paper` builds for version n splits back into the paper id and n and is downloaded under the same id |
| Extraction.VersionOutcome | src/scraper.py:204-258 | a version downloads exactly on a 200 whose body is gzip; it then reports the body length, the extracted size, their sum as peak disk use, the given date or today, and the extracted files |
| Extraction.DownloadAndExtractVersion | src/scraper.py:204-258 | the method requests `DownloadUrl(versionId)` and returns the result `VersionOutcome` describes |
| Citations.Backoff | src/scraper.py:364-381 | no sleep after a 200, a 404 or a transport error; after a 429 a sleep of a positive multiple of 30 s |
| Citations.RetryPolicy | src/scraper.py:344-385 | with a budget left, the loop makes at least one more request and never more than max_retries; a failure returns no references and no venue |
| Citations.RetryPolicyMeaning | src/scraper.py:344-385 | the loop makes at most max_retries requests; it succeeds exactly when the first 200 or 404 within the budget comes before a final failure; it returns that reply's references and venue (none for 404) and nothing on failure |
| Citations.NotInGraphIsSuccess | src/scraper.py:371-374 | a first-attempt 404 is a success with no references and no venue after one request |
| Citations.AlwaysRateLimitedFails | src/scraper.py:364-385 | when every request gets 429 the whole budget is spent and the fetch fails |
| Citations.AllRetryableUsesBudget | src/scraper.py:364-369 | with 429 on every request the loop makes exactly max_retries requests |
| Citations.TimedAt | src/scraper.py:345-369 | each request lasts its duration and is followed by the backoff its reply prescribes |
| Citations.SpacedAt | src/scraper.py:31-37 | consecutive requests are at least the limiter interval, and at least the backoff, apart |
| Citations.GetReferences | src/scraper.py:324-385 | the loop returns `RetryPolicy`'s result after that many requests, each timed and spaced by the limiter, the first one spaced from the limiter's previous call |
| Citations.ReferenceMap | src/scraper.py:392-409 | the dictionary has no more keys than there are references |
| Citations.ReferenceMapKeys | src/scraper.py:392-409 | the keys are exactly the folder names of the references with an arXiv id |
| Citations.ReferenceMapLastWins | src/scraper.py:392-409 | each key holds the entry of the last reference with that key |
| Citations.ReferenceKeysHaveNoDot | src/scraper.py:399 | no saved key contains '.' |
| Citations.ReferenceMapSize | src/scraper.py:392-415 | the count returned is at most the number of references with an arXiv id, which is at most the number of references |
| Citations.SaveReferences | src/scraper.py:387-415 | the loop builds `ReferenceMap(refs)` and returns its size |
| Scraper.ErrorKeysDistinct | src/scraper.py:78-160 | the four error results carry four different keys |
| Scraper.ParseInt | src/scraper.py:83 | an optionally signed run of digits is read as its value; anything else is None, the ValueError |
| Scraper.LatestVersion | src/scraper.py:81-85 | an entry id without 'v' has latest version 1 |
| Scraper.LatestOfVersionedEntry | src/scraper.py:81-85 | an entry id ending in v<n> has latest version n |
| Scraper.VersionCount | src/scraper.py:87 | `len(range(1, latest + 1))` is latest, and 0 for a latest of 0 or below |
| Scraper.CheckedDates | src/scraper.py:192-198 | the scraped dates are returned exactly when there is one per version; a missing list or one of the wrong length gives none |
| Scraper.VersionDates | src/scraper.py:91-94 | one date per version: the scraped dates when their count is right, today for every version otherwise |
| Scraper.Successes | src/scraper.py:113-128 | no more versions are kept than were tried |
| Scraper.SuccessesMeaning | src/scraper.py:113-128 | a version is kept exactly when its download succeeded; nothing is kept exactly when every download failed |
| Scraper.NothingExtractedIff | src/scraper.py:130-131 | the total extracted size is 0 exactly when every kept version extracted 0 bytes |
| Scraper.MaxPeakIsMax | src/scraper.py:124 | the peak is the largest per-version peak, attained by some version, and 0 when none downloaded |
| Scraper.PeakWithinTotal | src/scraper.py:124 | the peak never exceeds the downloaded plus extracted bytes |
| Scraper.FetchedPeaks | src/scraper.py:249 | every kept version's peak is its two sizes added |
| Scraper.DownloadVersions | src/scraper.py:108-128 | the loop totals both sizes, the peak and the dates of exactly the versions that downloaded, in order |
| Scraper.SaveMetadata | src/scraper.py:302-322 | the submission date is the first revised date; the revised dates are the kept dates, or the published date when none was kept; the venue is Semantic Scholar's, else the journal reference |
| Scraper.ExpectedOutcome | src/scraper.py:64-160 | the result of process_paper for a paper's inputs; its meaning is stated by `SuccessMeaning`, `SuccessFigures` and `OutcomeOrder` |
| Scraper.SuccessMeaning | src/scraper.py:64-160 | a paper succeeds exactly when it is found, its version parses, some version extracts source and the reference fetch succeeds |
| Scraper.SuccessFigures | src/scraper.py:113-156 | a success reports every version, non-empty source, a peak within the total bytes, at least one revision date, and as many references as the saved file has keys |
| Scraper.OutcomeOrder | src/scraper.py:74-138 | the checks run in order: not found, then an unparsable version (network_error), then no source, then a Semantic Scholar failure |
| Scraper.NoVersionsNoSource | src/scraper.py:87-131 | a latest version of 0 or below means no source |
| Scraper.PartialVersionsSucceed | src/scraper.py:113-131 | a failed version 1 does not fail the paper when version 2 extracts source; only version 2's bytes and its scraped date are reported |
| Scraper.NotInGraphNoReferences | src/scraper.py:134-144 | a paper Semantic Scholar does not know still succeeds, with no references and the journal reference as venue |
| Scraper.ArxivScraper.constructor | src/scraper.py:51-62 | the scraper's limiter is new, has never been called and waits the interval for the configured key |
| Scraper.ArxivScraper.ProcessPaper | src/scraper.py:64-160 | the method returns `ExpectedOutcome`'s result; its Semantic Scholar requests are spaced by the limiter, none is made unless the paper has source, and the limiter ends at the last request's finish |
| Scraper.ArxivScraper.ProcessVersions | src/scraper.py:87-160 | the part after the version number is known returns `ExpectedOutcome`'s result with the same spacing of requests |
| Scraper.ArxivScraper.FetchAndSave | src/scraper.py:134-156 | the reference fetch fails the paper exactly when `RetryPolicy` fails; otherwise the success carries the saved metadata and the reference file with its size |
| RunStatistics.InitialBreakdown | src/statistics.py:16-26 | the breakdown starts with exactly the nine error keys, all at 0 |
| RunStatistics.InitialBreakdownEmpty | src/statistics.py:16-26 | the breakdown starts with no failure counted |
| RunStatistics.MaxIsMax | src/statistics.py:129-130 | `max` bounds every peak and is one of them |
| RunStatistics.CountPositiveBounds | src/statistics.py:79-81 | the papers with references never outnumber the papers recorded |
| RunStatistics.Bumped | src/statistics.py:83-87 | a failure of one of the nine types adds one to its count and to the breakdown total; any other type changes nothing; the keys stay the nine |
| RunStatistics.PercentMeaning | src/statistics.py:114 | a rate times the whole is a hundred times the part, and lies in 0..100 when the part is at most the whole |
| RunStatistics.MeanMeaning | src/statistics.py:118-120 | a mean times the count is the total |
| RunStatistics.Finalized | src/statistics.py:107-130 | finalize keeps the paper counts and the error breakdown |
| RunStatistics.FinalizedKeeps | src/statistics.py:107-130 | finalize leaves the counters, the breakdown and the measured values alone |
| RunStatistics.FinalizedRateFields | src/statistics.py:112-126 | the success rate is `Percent` of the successes over the total when there is one and keeps its value otherwise; the reference rate is `Percent` of the papers with references over the successes |
| RunStatistics.FinalizedRates | src/statistics.py:112-126 | the success rate is successful/total as a percentage (unchanged with no total); the reference rate is a percentage of the successful papers, within 0..100 |
| RunStatistics.FinalizedSizes | src/statistics.py:121-122 | the average sizes are the integer part of the mean size |
| RunStatistics.FinalizedMeans | src/statistics.py:117-120 | the version, reference and time averages are the means of their lists |
| RunStatistics.FinalizedNoSuccess | src/statistics.py:116-126 | with no successful paper the averages and the reference rate keep their values |
| RunStatistics.FinalizedDisk | src/statistics.py:128-130 | the disk figure is the largest recorded peak in MiB, or the value set before when none was recorded |
| RunStatistics.FinalizedIdempotent | src/statistics.py:107-130 | finalizing twice is finalizing once |
| RunStatistics.Statistics.constructor | src/statistics.py:7-62 | a new recorder has every counter at zero, the nine breakdown keys at zero and empty lists |
| RunStatistics.Statistics.WithReferencesBounded | src/statistics.py:79-81 | the papers with references never outnumber the successful papers |
| RunStatistics.Statistics.AddSuccessfulPaper | src/statistics.py:64-81 | one more success; versions and references are added to the totals; one entry is appended to each list; one more paper with references exactly when it has any; the totals stay the sums of their lists |
| RunStatistics.Statistics.AddFailedPaper | src/statistics.py:83-87 | one more failure, counted under its type when that type is one of the nine; nothing else changes |
| RunStatistics.Statistics.SetTotalPapers | src/statistics.py:89-91 | only the total changes |
| RunStatistics.Statistics.SetTiming | src/statistics.py:93-96 | only the two timings change |
| RunStatistics.Statistics.SetResources | src/statistics.py:98-105 | only the six resource figures change |
| RunStatistics.Statistics.Finalize | src/statistics.py:107-130 | the statistics become `Finalized` of the old ones and the lists, with the reference rate within 0..100 |
| RunStatistics.Statistics.Save | src/statistics.py:132-135 | what is written is the finalized statistics |
| Runner.LoadProgress | src/main.py:39-44 | an id is loaded exactly when the progress file exists and lists it under 'processed' |
| Runner.Remaining | src/main.py:109 | the work list is no longer than the range |
| Runner.RemainingMembers | src/main.py:109 | an id is still to do exactly when it is in the range and not processed |
| Runner.RemainingAppend | src/main.py:109 | the filter keeps the range's order |
| Runner.RemainingAll | src/main.py:102-109 | with nothing processed the work list is the whole range |
| Runner.RemainingCount | src/main.py:109 | when the processed ids lie in a range without repeats, the work list and the processed set together are the range's size |
| Runner.ProgressLedger.constructor | src/main.py:102-105 | the processed set starts as the loaded ids (empty without resume), and the progress file has not been written |
| Runner.ProgressLedger.Add | src/main.py:66 | the paper joins the processed set |
| Runner.FaultMessage | src/main.py:74-77 | a message is reported exactly when saving raised |
| Runner.ProgressLedger.Save | src/main.py:47-49 | the set is written unless saving raises; a failure before the file is opened leaves the file as it was, a failure while writing leaves it truncated |
| Runner.ProcessSinglePaper | src/main.py:52-77 | the paper's outcome is the scraper's; the statistics, lists and processed set become `Record` of the old ones, so nothing outside `RecordFields` changes; success is reported exactly when it succeeded and was saved; the error reported is the failure's key or the save's message |
| Runner.RecordOutcome | src/main.py:57-77 | the statistics, lists and processed set become `Record` of the old ones; the breakdown becomes `BreakdownAfter`; the progress file ends as `SavedAfter` says |
| Runner.RecordSuccess | src/main.py:57-77 | a success is recorded, added and saved; a save that raises also records a network_error failure and its message is returned |
| Runner.Record | src/main.py:57-77 | one paper adds itself to the processed set exactly on success, keeps the nine breakdown keys, and adds at least one count, exactly one when saving did not raise |
| Runner.RecordFields | src/main.py:57-77 | a success adds one success, its versions and references, and its figures at the end of all six lists and the count of papers with references; a failure adds one failure under its key and leaves the lists; a failed save adds a network_error failure; no other statistic changes |
| Runner.BreakdownAfter | src/main.py:70-77 | a failure adds one under its key, a success whose save raised adds one under network_error, every other key keeps its count, and the total grows by exactly that one |
| Runner.SavedAfter | src/main.py:57-68 | a failure leaves the progress file alone, a saved success leaves it holding the processed set, and it is only ever truncated by a failed write |
| Runner.ErrorKindsCounted | src/main.py:70-71 | every error key `process_paper` returns is one of the nine the breakdown counts |
| Runner.Tallied | src/main.py:134-158 | the state after processing the work list in order: the breakdown keeps the nine keys, the processed set only grows, and the total papers are unchanged |
| Runner.TalliedStep | src/main.py:144-149 | processing one more paper records its outcome on the tally so far |
| Runner.TalliedProcessed | src/main.py:66 | the processed set grows by exactly the papers whose processing succeeds |
| Runner.EveryPaperCounted | src/main.py:52-77 | every paper counts as a success or a failure or both; with no save errors, successes plus failures equal the number of papers |
| Runner.TalliedBreakdown | src/main.py:70-77 | every failure the loop counts is counted under exactly one breakdown key, so the breakdown total grows as much as the failure count |
| Runner.ProcessAll | src/main.py:134-158 | the loop processes each remaining paper once; the statistics (breakdown included), the per-paper lists and the processed set end at `Tallied` of the work list with each paper's `ExpectedOutcome`; the completed counter ends at the processed count before plus the work list's length |
| Runner.Run | src/main.py:80-193 | main aborts exactly when the range is malformed and stops early exactly when nothing remains; otherwise the saved statistics are `Reported` of the tally of the work list, started from the range's size as the total, and the processed set is the tally's |
| Runner.ScrapeAndReport | src/main.py:117-193 | a fresh recorder with the total set, a scraper and the processed set process the work list; the statistics written are `Reported` of the resulting tally and the measured figures |
| Runner.Started | src/main.py:102-119 | the loop starts from the loaded ids and statistics with only the total set: nothing counted and the nine keys present |
| Runner.Reported | src/main.py:180-193 | the saved statistics keep the counts, totals and breakdown, and carry the measured runtime, entry discovery time, RAM, CPU and output size |
| Runner.ReportedDerived | src/main.py:183-193 | the saved disk figure is the largest paper peak in MiB, or the 0 main set when no paper succeeded; the saved success rate is successful/total as a percentage |
| Runner.Report | src/main.py:180-193 | the statistics written are `Reported` of the statistics and lists before: timings and resources set, disk set to 0, then finalized; the lists are unchanged |
| Runner.CompletedReachesTotal | src/main.py:143-146 | when the processed ids all lie in the range, the completed counter ends exactly at the range's size |

## Left out

- Threads: the worker pool and the locks. Papers are processed one after another in work-list order. Completion order, and two workers sharing the processed set and the recorder, are not modelled.
- Completion timing: `completed` is read after every task is submitted, so in the program it may already include papers finished by then. The model reads it before any paper runs.
- KeyboardInterrupt, the resource monitor, the visualizer, the configuration file, logging and the console output.
- The `except` around `future.result()` (src/main.py:156-158): it cannot fire, because `process_single_paper` catches every exception itself.
- The HTML date scraping (the regular expression and `strptime`): the dates found are an input. Only the count check of `_get_version_dates` is modelled.
- The real network, file system and clock: responses, directory sizes, JSON decoding of the progress file and `time.time()` are inputs. Writing `metadata.json` and `references.json` is modelled as the values written (`Outcome.metadata`, `Outcome.referenceFile`).
- Exceptions from the `os.makedirs` calls for the paper and `tex` directories (src/scraper.py:102-106), from `save_json` in `_save_metadata` and `_save_references`, and from `response.json()` in `_get_references`: in the program these end the paper as `network_error`. The model assumes they do not happen.
- Exceptions from the per-version directory and temporary-file operations in `_download_and_extract_version` (writing the temporary file, creating the version directory, removing the temporary file): the model assumes they do not happen. In the program such an exception is caught by the per-version `try` of `process_paper` (src/scraper.py:118-128) and skips only that version.
- `datetime.now()` is called separately for the fallback dates and inside each download; the model uses one `today` for all of them.
- Utils.ParseNat: accepts only non-empty runs of ASCII digits. Python's `int()` also accepts a leading '+' or '-', surrounding whitespace, underscores between digits and non-ASCII digits; a negative number would also need a signed padded numeral.
- Utils.GeneratePaperIds: returns None for a field such as `+5222`, ` 5222` or `5_222`, which Python's `int()` reads, so `main` is modelled as stopping where the program would go on. This follows from `ParseNat`.
- Scraper.ParseInt: accepts an optional sign and ASCII digits only. Python's `int()` also accepts surrounding whitespace, underscores between digits and non-ASCII digits, so such a version number gives None (network_error) here.
- Runner.Run: the progress file read at start is an input (`loaded`). A file a failed save left truncated would make `load_json` raise on the next resumed run; runs are not chained in the model.
- Utils.FormatTime: takes whole seconds. The program takes a float and truncates each part with `int()`.
- RateLimiting.RateLimiter.Execute: time is integer milliseconds, not float seconds. The lock is not modelled, since callers take turns.
- RunStatistics.Finalized: Python floats are reals, and `int(sum / successful)` is floor division on naturals. Rounding of float division is not modelled.
- Scraper.ArxivScraper.ProcessPaper: the processing time is an input (`env.elapsed`), not a clock difference.
- Scraper.ArxivScraper.ProcessPaper: the clock is not chained across papers. Each paper's start time (`env.now`) is an input of its own, so a later paper may start before the previous paper's last Semantic Scholar request finished; the limiter then waits longer than the program would. The spacing and timing properties hold for any clock values.
- `get_directory_size`, `save_json` and `load_json` are file-system helpers; their results are inputs.
