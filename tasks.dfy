/** The review task: read the payload, resolve the pull request's head
    revision, look the fingerprint up in the cache, and either reuse the
    cached analysis or list the files, analyse them and write both the task
    record and the cache entry. Any failure after the payload is read is
    saved and returned as a failed record. */
module Tasks {
  import opened Wrappers
  import opened Text
  import opened Schemas
  import opened Agent
  import opened GitHub
  import opened Storage

  /** The default cap on listed files per pull request. */
  const MaxFilesPerPr := 200

  /** What the store holds: a bare analysis (under a fingerprint) or a task
      record, completed with its results or failed with the error text. */
  datatype Payload =
    | AnalysisPayload(analysis: Analysis)
    | CompletedRecord(taskId: string, results: Payload)
    | FailedRecord(taskId: string, error: string)

  /** The two settings the task reads. */
  datatype Settings = Settings(githubToken: Option<string>, maxFilesPerPr: int)

  const DefaultSettings := Settings(None, MaxFilesPerPr)

  /** The collaborators the task calls: the pull request metadata request,
      the file-list page request, the oracle, `json.loads` for its replies,
      and the hex SHA-256 digest. */
  datatype Services = Services(
    fetchPull: PullRequest -> Result<string>,
    fetchPage: PageRequest -> Result<seq<FileEntry>>,
    review: OracleCall -> OracleReply,
    parseJson: string -> JsonParse,
    sha256: string -> string)

  /** `payload["pr_number"]` after `int(...)`: absent, not convertible (with
      the error raised), or the number. */
  datatype PrField = PrMissing | PrUnconvertible(reason: string) | PrConverted(n: int)

  /** The task's argument: `repo_url` (absent or a string), `pr_number`, and
      the optional `token`. */
  datatype TaskPayload = TaskPayload(repoUrl: Option<string>, prNumber: PrField, token: Option<string>)

  datatype TaskInput = TaskInput(repoUrl: string, prNumber: int, token: Option<string>)

  /** `str(e)` of the `KeyError` a missing key raises: the key's repr. */
  const MissingRepoUrl := "'repo_url'"
  const MissingPrNumber := "'pr_number'"

  /** `payload.get("token") or settings.GITHUB_TOKEN`. */
  function EffectiveToken(given: Option<string>, settings: Settings): Option<string> {
    if Truthy(given) then given else settings.githubToken
  }

  /** The reads before the `try`: a missing key or a bad number raises. */
  function ReadPayload(settings: Settings, payload: TaskPayload): Result<TaskInput> {
    if payload.repoUrl.None? then Failure(MissingRepoUrl)
    else
      match payload.prNumber
      case PrMissing => Failure(MissingPrNumber)
      case PrUnconvertible(reason) => Failure(reason)
      case PrConverted(n) => Success(TaskInput(payload.repoUrl.value, n, EffectiveToken(payload.token, settings)))
  }

  /** The text `_fingerprint` hashes: `repo_url:pr_number:head_sha`. */
  function FingerprintInput(repoUrl: string, prNumber: int, headSha: string): string {
    repoUrl + ":" + IntToString(prNumber) + ":" + headSha
  }

  /** `_fingerprint(repo_url, pr_number, head_sha)`. */
  function Fingerprint(sha256: string -> string, repoUrl: string, prNumber: int, headSha: string): string {
    sha256(FingerprintInput(repoUrl, prNumber, headSha))
  }

  /** The store after a run, and the record the run returns. */
  datatype Run = Run(record: Payload, kv: map<string, Payload>)

  /** The `except` branch: the failed record is saved under the task id and returned. */
  function Failed(taskId: string, error: string, kv: map<string, Payload>): Run {
    var record := FailedRecord(taskId, error);
    Run(record, kv[TaskKey(taskId) := record])
  }

  /** The body of the `try`, from the store `kv`. */
  function RunTask(services: Services, settings: Settings, taskId: string, input: TaskInput,
                   kv: map<string, Payload>): Run
  {
    match HeadSha(services.fetchPull, input.repoUrl, input.prNumber, input.token)
    case Failure(e) => Failed(taskId, e, kv)
    case Success(sha) =>
      var fp := Fingerprint(services.sha256, input.repoUrl, input.prNumber, sha);
      match CachedRecord(kv, fp)
      case Some(cached) =>
        var record := CompletedRecord(taskId, cached);
        Run(record, kv[TaskKey(taskId) := record])
      case None =>
        match PrFiles(services.fetchPage, input.repoUrl, input.prNumber, input.token, settings.maxFilesPerPr)
        case Failure(e) => Failed(taskId, e, kv)
        case Success(files) =>
          var analysis := Analyze(services.review, services.parseJson, files);
          var record := CompletedRecord(taskId, AnalysisPayload(analysis));
          Run(record, kv[TaskKey(taskId) := record][FingerprintKey(fp) := AnalysisPayload(analysis)])
  }

  /** What the task does for its caller: raise, or return a record. */
  datatype TaskOutcome = Raised(error: string) | Returned(record: Payload)

  /** `analyze_pr_task(payload)` against the store. */
  method AnalyzePrTask(store: ResultsStore<Payload>, services: Services, settings: Settings,
                       taskId: string, payload: TaskPayload) returns (outcome: TaskOutcome)
    modifies store
    ensures ReadPayload(settings, payload).Failure? ==>
      outcome == Raised(ReadPayload(settings, payload).error) && store.kv == old(store.kv)
    ensures ReadPayload(settings, payload).Success? ==>
      outcome == Returned(RunTask(services, settings, taskId, ReadPayload(settings, payload).value, old(store.kv)).record)
      && store.kv == RunTask(services, settings, taskId, ReadPayload(settings, payload).value, old(store.kv)).kv
  {
    var read := ReadPayload(settings, payload);
    if read.Failure? {
      return Raised(read.error);
    }
    var input := read.value;
    var headSha := HeadSha(services.fetchPull, input.repoUrl, input.prNumber, input.token);
    if headSha.Failure? {
      var err := FailedRecord(taskId, headSha.error);
      store.Save(taskId, err);
      return Returned(err);
    }
    var fp := Fingerprint(services.sha256, input.repoUrl, input.prNumber, headSha.value);
    var cached := store.GetByFingerprint(fp);
    if cached.Some? {
      var result := CompletedRecord(taskId, cached.value);
      store.Save(taskId, result);
      return Returned(result);
    }
    var files;
    ghost var requests;
    files, requests := ListPrFiles(services.fetchPage, input.repoUrl, input.prNumber, input.token,
                                   settings.maxFilesPerPr);
    if files.Failure? {
      var err := FailedRecord(taskId, files.error);
      store.Save(taskId, err);
      return Returned(err);
    }
    var analysis := AnalyzeDiff(services.review, services.parseJson, files.value);
    var result := CompletedRecord(taskId, AnalysisPayload(analysis));
    store.Save(taskId, result);
    store.CacheByFingerprint(fp, AnalysisPayload(analysis));
    return Returned(result);
  }

  /** The payload raises exactly when `repo_url` or `pr_number` is missing
      or the number does not convert; otherwise the input carries the
      payload's URL and number. */
  lemma ReadPayloadCases(settings: Settings, payload: TaskPayload)
    ensures ReadPayload(settings, payload).Success? <==> payload.repoUrl.Some? && payload.prNumber.PrConverted?
    ensures ReadPayload(settings, payload).Success? ==>
      ReadPayload(settings, payload).value.repoUrl == payload.repoUrl.value
      && ReadPayload(settings, payload).value.prNumber == payload.prNumber.n
  {
  }

  /** The payload's token wins when truthy, else the configured one; so the
      requests carry a bearer credential exactly when one of the two is truthy,
      the payload's first. */
  lemma TokenRule(settings: Settings, payload: TaskPayload)
    requires ReadPayload(settings, payload).Success?
    ensures var h := Headers(ReadPayload(settings, payload).value.token);
      ("Authorization" in h <==> Truthy(payload.token) || Truthy(settings.githubToken))
      && (Truthy(payload.token) ==> h["Authorization"] == "Bearer " + payload.token.value)
      && (!Truthy(payload.token) && Truthy(settings.githubToken) ==>
            h["Authorization"] == "Bearer " + settings.githubToken.value)
  {
  }

  /** A colon followed by colon-free text is the last colon. */
  lemma LastColon(a: string, b: string)
    requires ':' !in b
    ensures RFindChar(a + ":" + b, ':') == |a|
  {
    var x := a + ":" + b;
    assert x[|a|] == ':';
  }

  /** Splitting at the last colon recovers both sides. */
  lemma SplitAtLastColon(a: string, b: string)
    requires ':' !in b
    ensures (a + ":" + b)[..|a|] == a && (a + ":" + b)[|a| + 1..] == b
  {
  }

  /** The fingerprinted text determines the run's inputs, as long as the
      head revision has no colon (a hex digest has none): the number is
      rendered without colons, so the last two colons are the separators. */
  lemma FingerprintInputInjective(repo1: string, pr1: int, sha1: string, repo2: string, pr2: int, sha2: string)
    requires ':' !in sha1 && ':' !in sha2
    requires FingerprintInput(repo1, pr1, sha1) == FingerprintInput(repo2, pr2, sha2)
    ensures repo1 == repo2 && pr1 == pr2 && sha1 == sha2
  {
    var x := FingerprintInput(repo1, pr1, sha1);
    var head1, head2 := repo1 + ":" + IntToString(pr1), repo2 + ":" + IntToString(pr2);
    LastColon(head1, sha1);
    LastColon(head2, sha2);
    SplitAtLastColon(head1, sha1);
    SplitAtLastColon(head2, sha2);
    assert head1 == head2 && sha1 == sha2;
    LastColon(repo1, IntToString(pr1));
    LastColon(repo2, IntToString(pr2));
    SplitAtLastColon(repo1, IntToString(pr1));
    SplitAtLastColon(repo2, IntToString(pr2));
    IntToStringInjective(pr1, pr2);
  }

  /** Colons in the URL make distinct runs share a fingerprint once the
      head revision may hold a colon. */
  lemma FingerprintInputNeedsColonFreeSha()
    ensures FingerprintInput("u:1", 2, "s") == FingerprintInput("u", 1, "2:s")
  {
    assert IntToString(2) == "2" && IntToString(1) == "1";
  }

  /** Every run saves the record it returns under its task id, and leaves
      every other task's record as it was. */
  lemma RecordSaved(services: Services, settings: Settings, taskId: string, input: TaskInput,
                    kv: map<string, Payload>)
    ensures var run := RunTask(services, settings, taskId, input, kv);
      TaskRecord(run.kv, taskId) == Some(run.record)
      && forall other :: other != taskId ==> TaskRecord(run.kv, other) == TaskRecord(kv, other)
  {
    var run := RunTask(services, settings, taskId, input, kv);
    SaveThenGet(kv, taskId, run.record);
    match HeadSha(services.fetchPull, input.repoUrl, input.prNumber, input.token)
    case Failure(e) =>
    case Success(sha) =>
      var fp := Fingerprint(services.sha256, input.repoUrl, input.prNumber, sha);
      if CachedRecord(kv, fp).None? {
        match PrFiles(services.fetchPage, input.repoUrl, input.prNumber, input.token, settings.maxFilesPerPr)
        case Failure(e) =>
        case Success(files) =>
          var analysis := Analyze(services.review, services.parseJson, files);
          CacheThenGet(kv[TaskKey(taskId) := run.record], fp, AnalysisPayload(analysis));
      }
  }

  /** A failure to resolve the head revision is saved and returned as a
      failed record carrying the error; the cache is not touched. */
  lemma HeadShaFailure(services: Services, settings: Settings, taskId: string, input: TaskInput,
                       kv: map<string, Payload>)
    requires HeadSha(services.fetchPull, input.repoUrl, input.prNumber, input.token).Failure?
    ensures var e := HeadSha(services.fetchPull, input.repoUrl, input.prNumber, input.token).error;
      var run := RunTask(services, settings, taskId, input, kv);
      run.record == FailedRecord(taskId, e)
      && forall fp :: CachedRecord(run.kv, fp) == CachedRecord(kv, fp)
  {
    var e := HeadSha(services.fetchPull, input.repoUrl, input.prNumber, input.token).error;
    SaveThenGet(kv, taskId, FailedRecord(taskId, e));
  }

  /** The fingerprint of a run whose head revision is `sha`. */
  function RunFingerprint(services: Services, input: TaskInput, sha: string): string {
    Fingerprint(services.sha256, input.repoUrl, input.prNumber, sha)
  }

  /** On a cache hit the completed record wraps the cached value, only the
      task record is written, and the file listing, the oracle and the
      settings play no part. */
  lemma CacheHit(services: Services, settings: Settings, taskId: string, input: TaskInput,
                 kv: map<string, Payload>, sha: string,
                 fetchPage': PageRequest -> Result<seq<FileEntry>>, review': OracleCall -> OracleReply,
                 parseJson': string -> JsonParse, settings': Settings)
    requires HeadSha(services.fetchPull, input.repoUrl, input.prNumber, input.token) == Success(sha)
    requires CachedRecord(kv, RunFingerprint(services, input, sha)).Some?
    ensures var run := RunTask(services, settings, taskId, input, kv);
      run.record == CompletedRecord(taskId, CachedRecord(kv, RunFingerprint(services, input, sha)).value)
      && run.kv == kv[TaskKey(taskId) := run.record]
      && (forall fp :: CachedRecord(run.kv, fp) == CachedRecord(kv, fp))
      && RunTask(services.(fetchPage := fetchPage', review := review', parseJson := parseJson'),
                 settings', taskId, input, kv) == run
  {
    var run := RunTask(services, settings, taskId, input, kv);
    SaveThenGet(kv, taskId, run.record);
  }

  /** On a miss whose listing succeeds, the completed record wraps the
      analysis of the listed files, and the bare analysis (not the record)
      is cached under the fingerprint. */
  lemma CacheMiss(services: Services, settings: Settings, taskId: string, input: TaskInput,
                  kv: map<string, Payload>, sha: string)
    requires HeadSha(services.fetchPull, input.repoUrl, input.prNumber, input.token) == Success(sha)
    requires CachedRecord(kv, RunFingerprint(services, input, sha)).None?
    requires PrFiles(services.fetchPage, input.repoUrl, input.prNumber, input.token, settings.maxFilesPerPr).Success?
    ensures var files := PrFiles(services.fetchPage, input.repoUrl, input.prNumber, input.token, settings.maxFilesPerPr).value;
      var analysis := Analyze(services.review, services.parseJson, files);
      var run := RunTask(services, settings, taskId, input, kv);
      run.record == CompletedRecord(taskId, AnalysisPayload(analysis))
      && TaskRecord(run.kv, taskId) == Some(run.record)
      && CachedRecord(run.kv, RunFingerprint(services, input, sha)) == Some(AnalysisPayload(analysis))
      && forall fp :: fp != RunFingerprint(services, input, sha) ==> CachedRecord(run.kv, fp) == CachedRecord(kv, fp)
  {
    RecordSaved(services, settings, taskId, input, kv);
    var files := PrFiles(services.fetchPage, input.repoUrl, input.prNumber, input.token, settings.maxFilesPerPr).value;
    var analysis := Analyze(services.review, services.parseJson, files);
    var record := CompletedRecord(taskId, AnalysisPayload(analysis));
    SaveThenGet(kv, taskId, record);
    CacheThenGet(kv[TaskKey(taskId) := record], RunFingerprint(services, input, sha), AnalysisPayload(analysis));
  }

  /** A listing failure on a miss is saved and returned as a failed record;
      nothing is cached. */
  lemma ListingFailure(services: Services, settings: Settings, taskId: string, input: TaskInput,
                       kv: map<string, Payload>, sha: string)
    requires HeadSha(services.fetchPull, input.repoUrl, input.prNumber, input.token) == Success(sha)
    requires CachedRecord(kv, RunFingerprint(services, input, sha)).None?
    requires PrFiles(services.fetchPage, input.repoUrl, input.prNumber, input.token, settings.maxFilesPerPr).Failure?
    ensures var e := PrFiles(services.fetchPage, input.repoUrl, input.prNumber, input.token, settings.maxFilesPerPr).error;
      var run := RunTask(services, settings, taskId, input, kv);
      run.record == FailedRecord(taskId, e)
      && forall fp :: CachedRecord(run.kv, fp) == CachedRecord(kv, fp)
  {
    var e := PrFiles(services.fetchPage, input.repoUrl, input.prNumber, input.token, settings.maxFilesPerPr).error;
    SaveThenGet(kv, taskId, FailedRecord(taskId, e));
  }

  /** A run that returns a failed record never changes the cache. */
  lemma FailedRunsNeverCache(services: Services, settings: Settings, taskId: string, input: TaskInput,
                             kv: map<string, Payload>)
    requires RunTask(services, settings, taskId, input, kv).record.FailedRecord?
    ensures forall fp :: CachedRecord(RunTask(services, settings, taskId, input, kv).kv, fp) == CachedRecord(kv, fp)
  {
    match HeadSha(services.fetchPull, input.repoUrl, input.prNumber, input.token)
    case Failure(e) =>
      HeadShaFailure(services, settings, taskId, input, kv);
    case Success(sha) =>
      if CachedRecord(kv, RunFingerprint(services, input, sha)).None?
         && PrFiles(services.fetchPage, input.repoUrl, input.prNumber, input.token, settings.maxFilesPerPr).Failure? {
        ListingFailure(services, settings, taskId, input, kv, sha);
      }
  }

  /** After a completed run, a later run for the same URL and number whose
      head revision is unchanged takes the hit path, whatever its task id,
      token, listing or oracle: it returns the earlier run's results. */
  lemma SecondRunHits(services: Services, settings: Settings, taskId: string, input: TaskInput,
                      kv: map<string, Payload>, sha: string,
                      services2: Services, settings2: Settings, taskId2: string, input2: TaskInput)
    requires HeadSha(services.fetchPull, input.repoUrl, input.prNumber, input.token) == Success(sha)
    requires RunTask(services, settings, taskId, input, kv).record.CompletedRecord?
    requires input2.repoUrl == input.repoUrl && input2.prNumber == input.prNumber
    requires HeadSha(services2.fetchPull, input2.repoUrl, input2.prNumber, input2.token) == Success(sha)
    requires forall s :: services2.sha256(s) == services.sha256(s)
    ensures var run := RunTask(services, settings, taskId, input, kv);
      var run2 := RunTask(services2, settings2, taskId2, input2, run.kv);
      CachedRecord(run.kv, RunFingerprint(services2, input2, sha)).Some?
      && run2.record == CompletedRecord(taskId2, run.record.results)
  {
    var run := RunTask(services, settings, taskId, input, kv);
    var fp := RunFingerprint(services, input, sha);
    assert RunFingerprint(services2, input2, sha) == fp;
    if CachedRecord(kv, fp).Some? {
      CacheHit(services, settings, taskId, input, kv, sha, services.fetchPage, services.review, services.parseJson, settings);
    } else if PrFiles(services.fetchPage, input.repoUrl, input.prNumber, input.token, settings.maxFilesPerPr).Success? {
      CacheMiss(services, settings, taskId, input, kv, sha);
    } else {
      ListingFailure(services, settings, taskId, input, kv, sha);
    }
  }
}
