# Code review agent: a Dafny model of the analysis pipeline

This project models the core of a service that reviews GitHub pull requests.
A task receives a repository URL and a pull request number. It resolves the
pull request's head revision and fingerprints the triple
`repo_url:pr_number:head_sha`. If the fingerprint is cached, the cached
analysis is reused. Otherwise the task lists the changed files page by page,
analyses every file's patch, and writes both the task record and the cache
entry into a key-value store. Any failure after the payload has been read is
saved and returned as a failed record.

A file's analysis has two parts. The first is a static scan of the lines the
diff adds: long lines, `TODO` markers, and, in Python files, `print(` calls and
bare `except:`. The second is the findings an external review oracle returns
as JSON. Its reply goes through a strict decode, then a recovery decode of the
text between the first `[` and the last `]`. Each record is coerced with
defaults and a 500-character cut. A summary counts files, issues and critical
issues.

Modules, one per source file (plus two shared ones):

- `Wrappers` – `Option` and `Result`.
- `Text` – the Python string built-ins the code relies on, stated on
  `seq<char>`: `startswith`, `endswith`, `in`, `find`, `rfind`, `splitlines`,
  the slice `s[:n]`, `str(int)`, and the truthiness of an optional string.
- `Schemas` – the finding, file entry, file result, summary and analysis
  records.
- `Rules` (agent/rules.py) – the scan, as a loop proved against the function
  `StaticFindings`.
- `Agent` (agent/agent.py) – the per-file loop, the reply decode and the
  coercion loop, each proved against a function (`Analyze`, `DecodeReply`,
  `CoerceAll`).
- `GitHub` (services/github_service.py) – the URL parser as a string parse
  (including the lazy repository group and Python's `$`, which also matches
  before a final newline), the request headers, the pagination loop, and the
  head revision request.
- `Storage` (storage/results_store.py) – `ResultsStore` as a class holding one
  map, written and read through the two prefixed key namespaces.
- `Tasks` (app/tasks.py) – the fingerprint, and the task body as a method over
  a `ResultsStore`, proved against the function `RunTask`.

Collaborators that the model cannot see are parameters:

- the oracle: `review: OracleCall -> OracleReply`, where the call carries the
  file's index, so replies may differ from call to call;
- `json.loads` on oracle replies: `parseJson: string -> JsonParse`;
- the two GitHub requests: from the request (URL, headers, page) to the
  decoded body or the error raised;
- SHA-256: an uninterpreted `string -> string`;
- the Celery task id and the settings (`GITHUB_TOKEN`, `MAX_FILES_PER_PR`,
  whose default is 200).

## Model

| member | source | states |
|---|---|---|
| Text.ContainsIff | agent/rules.py:15 | `sub in s` holds exactly when `sub` occurs at some index of `s` |
| Text.FindChar | agent/agent.py:24 | `find` returns -1 exactly when the character is absent, else the index of its first occurrence |
| Text.RFindChar | agent/agent.py:25 | `rfind` returns -1 exactly when the character is absent, else the index of its last occurrence |
| Text.SplitLines | agent/rules.py:6 | no line holds a newline |
| Text.SplitLinesJoin | agent/rules.py:6 | splitting loses only the newlines: joining the lines with newlines gives the text back, plus a final newline if it had none |
| Text.SplitTwoLines | agent/rules.py:6 | two newline-free texts joined by a newline split back into them; an empty second text yields no second line |
| Text.Take | agent/agent.py:33-34 | `s[:n]` is a prefix of `s` of length min(n, len s), or len s + n floored at 0 for a negative n |
| Text.NatToString | app/tasks.py:15 | `str(n)` of a natural number is a non-empty string of decimal digits |
| Text.IntToString | app/tasks.py:15 | `str(n)` holds no colon |
| Text.IntToStringRoundTrip | app/tasks.py:15 | `int(str(n)) == n` |
| Text.IntToStringInjective | app/tasks.py:15 | distinct numbers render differently |
| Rules.QuickStaticChecks | agent/rules.py:3-30 | the loop returns `StaticFindings(file_name, patch)`: the findings of each line of the patch, in line order |
| Rules.CheckLine | agent/rules.py:7-29 | one iteration appends exactly the line's findings; a line that is not added is skipped |
| Rules.LineFindingsInRuleOrder | agent/rules.py:9-29 | a line yields at most 4 findings, each one of the four fixed findings, in the order long, TODO, print, bare except, each at most once |
| Rules.NonAddedLineSilent | agent/rules.py:7-8 | a line that does not start with `+`, or starts with `+++`, yields nothing |
| Rules.LongLineRule | agent/rules.py:9-14 | the style/info finding occurs exactly when the line is added and has more than 120 characters after its `+` (so 120 gives none) |
| Rules.TodoRule | agent/rules.py:15-19 | the TODO finding occurs exactly when the added content contains `TODO`, whatever the file name |
| Rules.PrintRule | agent/rules.py:20-24 | the print finding occurs exactly when the content contains `print(` and the file name ends with `.py` |
| Rules.BareExceptRule | agent/rules.py:25-29 | the bare-except finding occurs exactly when the content contains `except:` and the file name ends with `.py` |
| Rules.NonPythonAtMostTwo | agent/rules.py:20-29 | outside `.py` files a line yields at most 2 findings |
| Rules.FindingsOfLinesAppend | agent/rules.py:6 | findings follow line order: those of two runs of lines are the first run's, then the second's |
| Rules.OnlyAddedLinesMatter | agent/rules.py:6-8 | the findings are those of the added lines alone, at most 4 per added line |
| Rules.StaticFindingsShape | agent/rules.py:11-28 | every static finding is one of the four fixed findings, has no line number and is never critical |
| Rules.TwoLinePatch | agent/rules.py:6-30 | a two-line patch yields the first line's findings, then the second's |
| Rules.LongThenTodo | agent/rules.py:9-19 | an over-long added line followed by an added line with a TODO yields the length finding first and then the TODO finding |
| Rules.EmptyPatchSilent | agent/rules.py:5-30 | an empty patch yields no findings |
| Agent.Coerce | agent/agent.py:30-36 | missing type becomes "best_practice" and missing severity "info"; description and suggestion are prefixes of the given text (default "") cut to at most 500 characters; `line` is passed through |
| Agent.AcceptedCount | agent/agent.py:29-37 | the appended items are exactly the records before the first non-record, whose `.get` raises |
| Agent.CoerceAll | agent/agent.py:29-36 | one finding per record, in array order, each its coercion |
| Agent.AppendOracleFindings | agent/agent.py:29-38 | the loop appends the coerced leading records and keeps them when a later item raises |
| Agent.AnalyzeDiff | agent/agent.py:6-51 | the loop returns `Analyze(review, parseJson, files)`: per file its static findings then its oracle findings, with the summary recomputed from the list |
| Agent.AnalyzeNext | agent/agent.py:11-42 | one turn of the loop appends the next file's result and keeps both running totals equal to the totals of the results so far |
| Agent.AnalyzeFile | agent/agent.py:12-38 | a file's issues are its static findings followed by what the oracle's reply contributes, nothing when the call raises |
| Agent.FileResultsSnoc | agent/agent.py:42 | the results for one more file are the earlier results followed by that file's entry |
| Agent.AnalyzeFileByFile | agent/agent.py:11-42 | one entry per file, in input order, named after its filename, with the static findings first and the oracle findings after |
| Agent.OracleFailureIsolated | agent/agent.py:18-38 | when the oracle call raises, the file keeps exactly its static findings |
| Agent.FilesIndependent | agent/agent.py:11-42 | a file's entry depends only on its own entry and its own oracle reply |
| Agent.MissingPatchIsEmpty | agent/agent.py:13 | a missing or empty patch is analysed as "" and yields no static findings |
| Agent.CriticalCountBound | agent/agent.py:41 | a file has no more critical issues than issues |
| Agent.CriticalIssuesBound | agent/agent.py:40-41 | the critical count over all files is at most the total count |
| Agent.SummaryConsistent | agent/agent.py:40-49 | total_files is the number of files, total_issues the sum of per-file counts, critical_issues the count of severity exactly "critical", and critical_issues <= total_issues |
| Agent.TotalIssuesAppend | agent/agent.py:40-41 | both totals add up over consecutive runs of files |
| Agent.StrictDecodeFirst | agent/agent.py:21-23 | the strict decode is used whenever it does not raise |
| Agent.BracketRecovery | agent/agent.py:23-27 | after a failed strict decode, recovery decodes exactly the text from the first `[` to the last `]`, inclusive |
| Agent.UnbracketedGarbageSilent | agent/agent.py:23-28 | a reply that fails to decode and has no `[` yields no findings |
| Agent.MisorderedBracketsSilent | agent/agent.py:23-28 | a reply that fails to decode and has every `]` before every `[`, or lacks either bracket, is not decoded a second time and yields no findings |
| Agent.ReversedBracketsSilent | agent/agent.py:23-28 | a reply of the form `a]` `[b` with no `[` in `a` and no `]` in `b`, as in `"]x["`, that fails to decode yields no findings |
| Agent.NonListSilent | agent/agent.py:28 | a decoded value that is not a list, or no decoded value, yields no findings |
| Agent.DecodedListContribution | agent/agent.py:28-37 | a decoded list contributes its leading records, coerced and in order, and nothing from the first non-record on |
| Agent.RecoveryExample | agent/agent.py:21-36 | noise around a one-record array with type "bug" and severity "critical" yields exactly that one critical finding |
| Agent.CriticalBugRecord | agent/agent.py:29-36 | a reply decoding to one record with type "bug", severity "critical" and description "x" yields that finding with empty suggestion and no line, counted as critical |
| GitHub.LazyRepoLength | services/github_service.py:7 | the lazy group `[^/]+?` takes the shortest slash-free length after which the rest is an allowed tail, and fails only when no such length exists |
| GitHub.AfterSchemeSplit | services/github_service.py:7 | an accepted URL is `https://github.com/` or `http://github.com/` followed by the rest |
| GitHub.AfterSchemeOf | services/github_service.py:7 | either scheme is stripped |
| GitHub.RestSound | services/github_service.py:7-10 | the owner and name found are non-empty and slash-free, split the text with an allowed tail, and the name is the shortest possible |
| GitHub.RestComplete | services/github_service.py:7-10 | every such split is found, with the same owner and a name that is a prefix of the split's, equal to it when the split's name is the shortest |
| GitHub.LazyStopsInName | services/github_service.py:7 | on a slash-free name followed by an allowed tail the lazy group stops within the name, and at its end when the name is the shortest |
| GitHub.ParseSound | services/github_service.py:5-10 | every (owner, repo) returned reads `http(s)://github.com/<owner>/<repo><tail>` with the tail one of "", "/", ".git", ".git/", each optionally followed by one final newline, and the name is as short as possible |
| GitHub.ParseComplete | services/github_service.py:5-10 | every URL of that shape is accepted, with its owner, and with its name when the name is the shortest |
| GitHub.PlainNameShortest | services/github_service.py:7 | a name without dots or newlines is returned whole |
| GitHub.ParseExample | services/github_service.py:5-10 | `.../user/repo.git` and `.../user/repo/` both give ("user", "repo") under either scheme |
| GitHub.BadUrlRejected | services/github_service.py:8-9 | a URL of any other shape makes both the listing and the head lookup fail with "Invalid GitHub repository URL" |
| GitHub.Headers | services/github_service.py:15-17 | Accept is always `application/vnd.github+json`; Authorization is present exactly when the token is truthy, as `Bearer <token>` |
| GitHub.ListPrFiles | services/github_service.py:12-29 | the loop returns `PrFiles(...)`, at most max_files entries when max_files >= 0; a bad URL makes no request; otherwise the requests are pages 1, 2, 3, … in order, each for 100 entries, at least one, every one but the last full and leaving the count below max_files, and the last failed, short, or bringing the count to max_files |
| GitHub.FetchPages | services/github_service.py:19-29 | the loop returns the paging of the listing from page 1, cut to max_files (at most max_files entries when max_files >= 0); its requests are pages 1, 2, 3, … of 100 entries, at least one, full and below max_files until the one that fails, is short or reaches max_files, and none after it |
| GitHub.PaginationTrace | services/github_service.py:19-28 | the pages fetched are a run whose every page but the last was full and left the count below max_files; the result is the last page's error, or all the entries fetched, and then the last page was short or reached max_files |
| GitHub.PageTraceUnique | services/github_service.py:21-28 | the pages returned determine the requests: two runs that both follow the stop rule ask for the same pages |
| GitHub.PageTraceMatchesPaging | services/github_service.py:21-28 | the last page the loop asks for is the one whose error the listing raises, or up to which it returns every entry read |
| GitHub.ListingIsPrefix | services/github_service.py:29 | the list returned is a prefix of the concatenated pages, of length at most max_files when max_files >= 0 |
| Storage.TaskKeyInjective | storage/results_store.py:10-11 | distinct task ids have distinct keys |
| Storage.FingerprintKeyInjective | storage/results_store.py:21-24 | distinct fingerprints have distinct keys |
| Storage.NamespacesDisjoint | storage/results_store.py:10-21 | no task key is a fingerprint key |
| Storage.SaveThenGet | storage/results_store.py:13-18 | `get(t)` after `save(t, p)` is `p`; other task ids and all fingerprints read as before |
| Storage.CacheThenGet | storage/results_store.py:20-25 | `get_by_fingerprint(f)` after `cache_by_fingerprint(f, p)` is `p`; other fingerprints and all task ids read as before |
| Storage.LastWriteWins | storage/results_store.py:13-18 | after two saves under one task id, `get` returns the second payload, and every other task record and every cached record reads as before both saves |
| Storage.EmptyStoreHoldsNothing | storage/results_store.py:16-25 | a key never written reads as None in both namespaces |
| Storage.ResultsStore.constructor | storage/results_store.py:6-8 | a new store is empty |
| Storage.ResultsStore.Save | storage/results_store.py:13-14 | the map gains the payload under the task key and nothing else changes |
| Storage.ResultsStore.Get | storage/results_store.py:16-18 | returns what the task key holds, or None |
| Storage.ResultsStore.CacheByFingerprint | storage/results_store.py:20-21 | the map gains the payload under the fingerprint key and nothing else changes |
| Storage.ResultsStore.GetByFingerprint | storage/results_store.py:23-25 | returns what the fingerprint key holds, or None |
| Tasks.AnalyzePrTask | app/tasks.py:17-52 | a malformed payload raises and leaves the store alone; otherwise the record returned and the new store are those of `RunTask` |
| Tasks.ReadPayloadCases | app/tasks.py:19-21 | the task raises exactly when `repo_url` or `pr_number` is missing or the number does not convert |
| Tasks.TokenRule | app/tasks.py:21 | the payload token wins when truthy, else the configured one; a bearer header is sent exactly when one of them is truthy |
| Tasks.FingerprintInputInjective | app/tasks.py:14-15 | with colon-free head revisions, the hashed text `repo_url:pr_number:head_sha` determines all three inputs |
| Tasks.FingerprintInputNeedsColonFreeSha | app/tasks.py:15 | without that condition two runs can share the hashed text |
| Tasks.RecordSaved | app/tasks.py:23-52 | every run saves the record it returns under its task id and leaves every other task's record alone |
| Tasks.HeadShaFailure | app/tasks.py:24-52 | a failed head lookup is saved and returned as a failed record carrying the error, and the cache is untouched |
| Tasks.CacheHit | app/tasks.py:26-31 | on a hit the completed record wraps the cached value; only the task record is written; the listing, the oracle and the settings play no part |
| Tasks.CacheMiss | app/tasks.py:33-47 | on a miss the completed record wraps the analysis of the listed files, and the bare analysis, not the record, is cached under the fingerprint |
| Tasks.ListingFailure | app/tasks.py:33-52 | a failed listing is saved and returned as a failed record, and nothing is cached |
| Tasks.FailedRunsNeverCache | app/tasks.py:48-52 | a run returning a failed record never changes the cache |
| Tasks.SecondRunHits | app/tasks.py:25-46 | after a completed run, a later run for the same URL, number and head revision hits the cache and returns the same results, whatever its task id, token, listing or oracle |

## Left out

- Text.SplitLines: splits on `\n` only. Python's `splitlines` also breaks at `\r`, `\r\n`, `\v`, `\f`, `\x1c`–`\x1e`, `\x85`, `\u2028` and `\u2029`; patches are taken to use `\n` line ends.
- The oracle client (agent/llm_client.py) and its HTTP calls are not part of this model. `review` is a parameter that either raises or returns text, so the 20000-character patch cut inside it is not modelled.
- `json.loads` and `json.dumps` are abstract. The decoder is a parameter with three outcomes. The store keeps payloads as values, which assumes the serialisation round-trips.
- Agent.Coerce: the record fields are taken to already hold the text `str()` would give. A `line` value that is not an integer or absent is not modelled.
- A file entry without `filename` is not modelled: `FileEntry.filename` is always a string, as the hosting API sends.
- The HTTP requests in `list_pr_files` and `get_pr_head_sha` are abstract. This covers `requests.get`, timeouts, `raise_for_status`, `resp.json()`, and the `data["head"]["sha"]` lookup. Each is a parameter from the request to a body or an error string. A page body is taken to be a list of file entries.
- The exception text `str(e)` is the error string carried by the failing call. Only the two payload `KeyError` texts are spelt out: `str(KeyError('repo_url'))` is `'repo_url'`, quotes included, and likewise for `pr_number`.
- `int(payload["pr_number"])` is abstract: `PrField` holds either the converted number or the error raised.
- Redis expiry (TTL 86400 seconds) is not modelled because time is not modelled. Nor are connection errors or store failures inside the task's `try`: writes always succeed.
- Tasks.RunTask: treats any cached value as a hit, where the source tests `if cached:`. The two agree because every cached value is a non-empty analysis dictionary.
- SHA-256 is an uninterpreted function. Digest collisions between different fingerprint texts are not ruled out.
- Concurrency is not modelled: duplicate submissions racing on the cache, Celery scheduling and retries.
- Logging is not modelled.
- app/main.py (HTTP routes, CORS, rate limiting, result lookup, the webhook filter), app/celery_app.py and app/config.py are not part of this model. The settings are a parameter; `DefaultSettings` uses the default cap of 200 files.
- app/schemas.py serves only as a reference for the record shapes, and the tests exercise the HTTP layer only.
