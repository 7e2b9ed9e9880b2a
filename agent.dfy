/** The diff analyzer: for each changed file, the static findings followed
    by the findings the review oracle reports, then a summary computed from
    the per-file lists.

    The oracle (`LLMClient.review`) and the JSON decoder (`json.loads`) are
    parameters: `review` maps each call to its reply, and `parseJson` maps a
    text to the outcome of decoding it. */
module Agent {
  import opened Wrappers
  import opened Text
  import opened Schemas
  import opened Rules

  /** Longest description or suggestion kept from an oracle record. */
  const MaxFieldLength := 500

  /** One call `llm.review(name, patch)`; `position` is the index of the file
      in the list, so that replies may differ from call to call. */
  datatype OracleCall = OracleCall(position: nat, fileName: string, patch: string)

  /** The oracle either raises (timeout, HTTP error, unexpected response) or
      returns text. */
  datatype OracleReply = ReviewFailed(reason: string) | Reply(text: string)

  /** One element of a decoded JSON array. A `Record` is a JSON object; each
      field is `None` when the key is absent and otherwise holds `str()` of
      its value. Any other element is `NotARecord`: calling `.get` on it
      raises. */
  datatype OracleItem =
    | Record(kind: Option<string>, line: Option<int>, description: Option<string>,
             suggestion: Option<string>, severity: Option<string>)
    | NotARecord

  /** What decoding a text gives: it raises, or yields a value that is not a
      list, or yields a list. */
  datatype JsonParse = Malformed | NotAList | ListOf(items: seq<OracleItem>)

  /** `f.get("patch") or ""`. */
  function PatchText(f: FileEntry): string {
    match f.patch
    case Some(p) => p
    case None => ""
  }

  /** `it.get(key, default)` followed by `str`. */
  function FieldOr(field: Option<string>, default: string): string {
    match field
    case Some(v) => v
    case None => default
  }

  /** The finding built from one oracle record: defaults for missing keys,
      description and suggestion cut to 500 characters, line passed through. */
  function Coerce(item: OracleItem): (f: Finding)
    requires item.Record?
    ensures f.kind == FieldOr(item.kind, "best_practice")
    ensures f.severity == FieldOr(item.severity, "info")
    ensures f.line == item.line
    ensures f.description <= FieldOr(item.description, "") && |f.description| == Min(MaxFieldLength, |FieldOr(item.description, "")|)
    ensures f.suggestion <= FieldOr(item.suggestion, "") && |f.suggestion| == Min(MaxFieldLength, |FieldOr(item.suggestion, "")|)
  {
    Finding(FieldOr(item.kind, "best_practice"), item.line,
            Take(FieldOr(item.description, ""), MaxFieldLength),
            Take(FieldOr(item.suggestion, ""), MaxFieldLength),
            FieldOr(item.severity, "info"))
  }

  /** The two-stage decode of an oracle reply: the strict decode, and only
      when it raises, the decode of the text from the first `[` to the last
      `]`. With no such pair the value stays `None`, which is not a list. */
  function DecodeReply(parseJson: string -> JsonParse, text: string): JsonParse {
    match parseJson(text)
    case Malformed =>
      var start := FindChar(text, '[');
      var end := RFindChar(text, ']');
      if 0 <= start < end then parseJson(text[start..end + 1]) else NotAList
    case parsed => parsed
  }

  /** How many leading items are records: the loop appends these and stops
      at the first item whose `.get` raises. */
  function AcceptedCount(items: seq<OracleItem>): (k: nat)
    ensures k <= |items|
    ensures forall i :: 0 <= i < k ==> items[i].Record?
    ensures k < |items| ==> items[k].NotARecord?
  {
    if items == [] || items[0].NotARecord? then 0 else 1 + AcceptedCount(items[1..])
  }

  /** The findings coerced from a run of records, in order. */
  function CoerceAll(items: seq<OracleItem>): (fs: seq<Finding>)
    requires forall i :: 0 <= i < |items| ==> items[i].Record?
    ensures |fs| == |items|
    ensures forall i :: 0 <= i < |items| ==> fs[i] == Coerce(items[i])
    decreases |items|
  {
    if items == [] then [] else CoerceAll(items[..|items| - 1]) + [Coerce(items[|items| - 1])]
  }

  /** What the oracle contributes to one file. */
  function OracleFindings(parseJson: string -> JsonParse, reply: OracleReply): seq<Finding> {
    match reply
    case ReviewFailed(_) => []
    case Reply(text) =>
      match DecodeReply(parseJson, text)
      case ListOf(items) => CoerceAll(items[..AcceptedCount(items)])
      case _ => []
  }

  /** The call made for the file at `position`. */
  function CallFor(position: nat, f: FileEntry): OracleCall {
    OracleCall(position, f.filename, PatchText(f))
  }

  /** The issues of one file: its static findings, then the oracle's. */
  function FileIssues(review: OracleCall -> OracleReply, parseJson: string -> JsonParse,
                      position: nat, f: FileEntry): seq<Finding>
  {
    StaticFindings(f.filename, PatchText(f)) + OracleFindings(parseJson, review(CallFor(position, f)))
  }

  /** One result per file, in input order. */
  function FileResults(review: OracleCall -> OracleReply, parseJson: string -> JsonParse,
                       files: seq<FileEntry>): seq<FileResult>
  {
    seq(|files|, i requires 0 <= i < |files| =>
      FileResult(files[i].filename, FileIssues(review, parseJson, i, files[i])))
  }

  /** How many issues the results hold. */
  function TotalIssues(results: seq<FileResult>): nat
    decreases |results|
  {
    if results == [] then 0
    else TotalIssues(results[..|results| - 1]) + |results[|results| - 1].issues|
  }

  /** How many of the issues have severity exactly "critical". */
  function CriticalCount(issues: seq<Finding>): nat
    decreases |issues|
  {
    if issues == [] then 0
    else CriticalCount(issues[..|issues| - 1]) + (if issues[|issues| - 1].severity == "critical" then 1 else 0)
  }

  function CriticalIssues(results: seq<FileResult>): nat
    decreases |results|
  {
    if results == [] then 0
    else CriticalIssues(results[..|results| - 1]) + CriticalCount(results[|results| - 1].issues)
  }

  /** The summary recomputed from the file list. */
  function SummaryOf(results: seq<FileResult>): Summary {
    Summary(|results|, TotalIssues(results), CriticalIssues(results))
  }

  /** What `analyze_diff(llm, files)` returns. */
  function Analyze(review: OracleCall -> OracleReply, parseJson: string -> JsonParse,
                   files: seq<FileEntry>): Analysis
  {
    var results := FileResults(review, parseJson, files);
    Analysis(results, SummaryOf(results))
  }

  /** The analysis loop: per file, the static scan, the oracle call and its
      decode, then the running totals. */
  method AnalyzeDiff(review: OracleCall -> OracleReply, parseJson: string -> JsonParse,
                     files: seq<FileEntry>) returns (result: Analysis)
    ensures result == Analyze(review, parseJson, files)
  {
    var resultsFiles: seq<FileResult> := [];
    var totalIssues := 0;
    var critical := 0;
    for i := 0 to |files|
      invariant resultsFiles == FileResults(review, parseJson, files[..i])
      invariant totalIssues == TotalIssues(resultsFiles)
      invariant critical == CriticalIssues(resultsFiles)
    {
      resultsFiles, totalIssues, critical := AnalyzeNext(review, parseJson, files, i, resultsFiles, totalIssues, critical);
    }
    assert files[..|files|] == files;
    result := Analysis(resultsFiles, Summary(|resultsFiles|, totalIssues, critical));
  }

  /** One turn of the loop over the files: the `i`-th file's result is
      appended and the running totals follow it. */
  method AnalyzeNext(review: OracleCall -> OracleReply, parseJson: string -> JsonParse,
                     files: seq<FileEntry>, i: nat, resultsFiles: seq<FileResult>, totalIssues: nat, critical: nat)
    returns (resultsFiles': seq<FileResult>, totalIssues': nat, critical': nat)
    requires i < |files|
    requires resultsFiles == FileResults(review, parseJson, files[..i])
    requires totalIssues == TotalIssues(resultsFiles) && critical == CriticalIssues(resultsFiles)
    ensures resultsFiles' == FileResults(review, parseJson, files[..i + 1])
    ensures totalIssues' == TotalIssues(resultsFiles') && critical' == CriticalIssues(resultsFiles')
  {
    var fileIssues := AnalyzeFile(review, parseJson, i, files[i]);
    var entry := FileResult(files[i].filename, fileIssues);
    FileResultsSnoc(review, parseJson, files, i);
    SummarySnoc(resultsFiles, entry);
    totalIssues' := totalIssues + |fileIssues|;
    critical' := critical + CriticalCount(fileIssues);
    resultsFiles' := resultsFiles + [entry];
  }

  /** The body of the analysis loop for the file at `position`: the static
      scan, then the oracle call, whose failure or undecodable reply leaves
      the static findings alone. */
  method AnalyzeFile(review: OracleCall -> OracleReply, parseJson: string -> JsonParse,
                     position: nat, f: FileEntry) returns (fileIssues: seq<Finding>)
    ensures fileIssues == FileIssues(review, parseJson, position, f)
  {
    var name := f.filename;
    var patch := PatchText(f);
    fileIssues := QuickStaticChecks(name, patch);
    var reply := review(OracleCall(position, name, patch));
    if reply.Reply? {
      var parsed := DecodeReply(parseJson, reply.text);
      if parsed.ListOf? {
        fileIssues := AppendOracleFindings(fileIssues, parsed.items);
      }
    }
  }

  /** Coercing one more leading record appends its coercion. */
  lemma CoerceAllSnoc(items: seq<OracleItem>, i: nat)
    requires i < |items| && forall k :: 0 <= k <= i ==> items[k].Record?
    ensures CoerceAll(items[..i + 1]) == CoerceAll(items[..i]) + [Coerce(items[i])]
  {
    assert items[..i + 1][..i] == items[..i];
  }

  /** The loop over a decoded list: coerce and append each item until one
      is not a record, whose `.get` raises and ends the file's oracle part
      with what was appended so far. */
  method AppendOracleFindings(issues: seq<Finding>, items: seq<OracleItem>) returns (issues': seq<Finding>)
    ensures issues' == issues + CoerceAll(items[..AcceptedCount(items)])
  {
    ghost var accepted := AcceptedCount(items);
    issues' := issues;
    var i := 0;
    while i < |items|
      invariant 0 <= i <= accepted
      invariant issues' == issues + CoerceAll(items[..i])
    {
      if items[i].NotARecord? {
        break;
      }
      assert i < accepted;
      CoerceAllSnoc(items, i);
      assert issues + CoerceAll(items[..i]) + [Coerce(items[i])] == issues + CoerceAll(items[..i + 1]);
      issues' := issues' + [Coerce(items[i])];
      i := i + 1;
    }
    assert i == accepted;
  }

  lemma FileResultsSnoc(review: OracleCall -> OracleReply, parseJson: string -> JsonParse,
                        files: seq<FileEntry>, i: nat)
    requires i < |files|
    ensures FileResults(review, parseJson, files[..i + 1])
      == FileResults(review, parseJson, files[..i])
         + [FileResult(files[i].filename, FileIssues(review, parseJson, i, files[i]))]
  {
    var longer := FileResults(review, parseJson, files[..i + 1]);
    var shorter := FileResults(review, parseJson, files[..i]);
    var entry := FileResult(files[i].filename, FileIssues(review, parseJson, i, files[i]));
    forall j | 0 <= j < i + 1 ensures longer[j] == (shorter + [entry])[j] {
      assert files[..i + 1][j] == files[j];
      if j < i {
        assert files[..i][j] == files[j];
      }
    }
  }

  lemma SummarySnoc(results: seq<FileResult>, r: FileResult)
    ensures TotalIssues(results + [r]) == TotalIssues(results) + |r.issues|
    ensures CriticalIssues(results + [r]) == CriticalIssues(results) + CriticalCount(r.issues)
  {
    assert (results + [r])[..|results|] == results;
  }

  /** The result has one entry per input file, in input order, named after
      it, whose issues are its static findings followed by the oracle's. */
  lemma AnalyzeFileByFile(review: OracleCall -> OracleReply, parseJson: string -> JsonParse,
                          files: seq<FileEntry>, i: nat)
    requires i < |files|
    ensures var a := Analyze(review, parseJson, files);
      |a.files| == |files|
      && a.files[i].name == files[i].filename
      && a.files[i].issues == StaticFindings(files[i].filename, PatchText(files[i]))
                              + OracleFindings(parseJson, review(CallFor(i, files[i])))
  {
  }

  /** A file whose oracle call raises keeps exactly its static findings. */
  lemma OracleFailureIsolated(review: OracleCall -> OracleReply, parseJson: string -> JsonParse,
                              files: seq<FileEntry>, i: nat)
    requires i < |files| && review(CallFor(i, files[i])).ReviewFailed?
    ensures Analyze(review, parseJson, files).files[i].issues
      == StaticFindings(files[i].filename, PatchText(files[i]))
  {
  }

  /** A file's result depends only on its own entry and its own oracle
      reply: no state is shared between files. */
  lemma FilesIndependent(review1: OracleCall -> OracleReply, review2: OracleCall -> OracleReply,
                         parseJson: string -> JsonParse, files1: seq<FileEntry>, files2: seq<FileEntry>,
                         i: nat)
    requires i < |files1| && i < |files2| && files1[i] == files2[i]
    requires review1(CallFor(i, files1[i])) == review2(CallFor(i, files2[i]))
    ensures Analyze(review1, parseJson, files1).files[i] == Analyze(review2, parseJson, files2).files[i]
  {
  }

  /** A missing patch is analysed as the empty text, which has no static findings. */
  lemma MissingPatchIsEmpty(f: FileEntry)
    requires f.patch == None || f.patch == Some("")
    ensures PatchText(f) == "" && StaticFindings(f.filename, PatchText(f)) == []
  {
  }

  /** No more critical issues than issues. */
  lemma {:induction false} CriticalCountBound(issues: seq<Finding>)
    ensures CriticalCount(issues) <= |issues|
    decreases |issues|
  {
    if issues != [] {
      CriticalCountBound(issues[..|issues| - 1]);
    }
  }

  lemma {:induction false} CriticalIssuesBound(results: seq<FileResult>)
    ensures CriticalIssues(results) <= TotalIssues(results)
    decreases |results|
  {
    if results != [] {
      CriticalIssuesBound(results[..|results| - 1]);
      CriticalCountBound(results[|results| - 1].issues);
    }
  }

  /** The summary counts the files, the issues over all files, and the
      critical ones among them; hence critical_issues <= total_issues. */
  lemma SummaryConsistent(review: OracleCall -> OracleReply, parseJson: string -> JsonParse,
                          files: seq<FileEntry>)
    ensures var a := Analyze(review, parseJson, files);
      a.summary.totalFiles == |files|
      && a.summary.totalIssues == TotalIssues(a.files)
      && a.summary.criticalIssues == CriticalIssues(a.files)
      && a.summary.criticalIssues <= a.summary.totalIssues
  {
    CriticalIssuesBound(FileResults(review, parseJson, files));
  }

  /** The total is the sum of the per-file counts: adding up two runs of
      files adds their totals. */
  lemma {:induction false} TotalIssuesAppend(a: seq<FileResult>, b: seq<FileResult>)
    ensures TotalIssues(a + b) == TotalIssues(a) + TotalIssues(b)
    ensures CriticalIssues(a + b) == CriticalIssues(a) + CriticalIssues(b)
    decreases |b|
  {
    if b == [] {
      assert a + b == a;
    } else {
      var b' := b[..|b| - 1];
      assert (a + b)[..|a + b| - 1] == a + b';
      assert (a + b)[|a + b| - 1] == b[|b| - 1];
      TotalIssuesAppend(a, b');
    }
  }

  /** The strict decode is used whenever it does not raise. */
  lemma StrictDecodeFirst(parseJson: string -> JsonParse, text: string)
    requires parseJson(text) != Malformed
    ensures DecodeReply(parseJson, text) == parseJson(text)
  {
  }

  /** When the strict decode raises, recovery decodes exactly the text from
      the first `[` to the last `]`, brackets included. */
  lemma {:induction false} BracketRecovery(parseJson: string -> JsonParse, prefix: string, body: string, suffix: string)
    requires '[' !in prefix && ']' !in suffix
    requires |body| >= 2 && body[0] == '[' && body[|body| - 1] == ']'
    requires parseJson(prefix + body + suffix) == Malformed
    ensures DecodeReply(parseJson, prefix + body + suffix) == parseJson(body)
  {
    var text := prefix + body + suffix;
    var start, end := |prefix|, |prefix| + |body| - 1;
    assert text[..start] == prefix;
    assert text[start] == '[';
    assert FindChar(text, '[') == start;
    assert text[end + 1..] == suffix;
    assert text[end] == ']';
    assert RFindChar(text, ']') == end;
    assert text[start..end + 1] == body;
  }

  /** A reply without a `[` before some `]` that does not decode yields no findings. */
  lemma UnbracketedGarbageSilent(parseJson: string -> JsonParse, text: string)
    requires parseJson(text) == Malformed && '[' !in text
    ensures OracleFindings(parseJson, Reply(text)) == []
  {
  }

  /** A reply that fails to decode and has every `]` before every `[` (so
      also one lacking either bracket) is never decoded a second time and
      yields no findings. */
  lemma MisorderedBracketsSilent(parseJson: string -> JsonParse, text: string)
    requires parseJson(text) == Malformed
    requires forall i, j :: 0 <= i < |text| && 0 <= j < |text| && text[i] == ']' && text[j] == '[' ==> i < j
    ensures DecodeReply(parseJson, text) == NotAList
    ensures OracleFindings(parseJson, Reply(text)) == []
  {
    var start, end := FindChar(text, '['), RFindChar(text, ']');
    if 0 <= start && 0 <= end {
      assert text[end] == ']' && text[start] == '[';
    }
  }

  /** Brackets the wrong way round, as in `"]x["`, recover nothing. */
  lemma ReversedBracketsSilent(parseJson: string -> JsonParse, a: string, b: string)
    requires '[' !in a && ']' !in b
    requires parseJson(a + "]" + "[" + b) == Malformed
    ensures OracleFindings(parseJson, Reply(a + "]" + "[" + b)) == []
  {
    var text := a + "]" + "[" + b;
    forall i, j | 0 <= i < |text| && 0 <= j < |text| && text[i] == ']' && text[j] == '['
      ensures i < j
    {
    }
    MisorderedBracketsSilent(parseJson, text);
  }

  /** A decoded value that is not a list, or a decode that raises, adds nothing. */
  lemma NonListSilent(parseJson: string -> JsonParse, text: string)
    requires !DecodeReply(parseJson, text).ListOf?
    ensures OracleFindings(parseJson, Reply(text)) == []
  {
  }

  /** A decoded list contributes its leading records, coerced, in order:
      the items before the first non-record, and no others. */
  lemma DecodedListContribution(parseJson: string -> JsonParse, text: string)
    requires DecodeReply(parseJson, text).ListOf?
    ensures var items := DecodeReply(parseJson, text).items;
      var fs := OracleFindings(parseJson, Reply(text));
      |fs| == AcceptedCount(items)
      && (forall i :: 0 <= i < |fs| ==> items[i].Record? && fs[i] == Coerce(items[i]))
      && (|fs| < |items| ==> items[|fs|].NotARecord?)
  {
  }

  /** The recovery example: noise around a one-element array whose record
      has type "bug", severity "critical" and description "x" yields exactly
      that one critical finding. */
  lemma RecoveryExample(parseJson: string -> JsonParse, body: string)
    requires body == "[" + "{\"type\":\"bug\",\"severity\":\"critical\",\"description\":\"x\"}" + "]"
    requires parseJson("noise" + body + "trailing") == Malformed
    requires parseJson(body) == ListOf([Record(Some("bug"), None, Some("x"), None, Some("critical"))])
    ensures var fs := OracleFindings(parseJson, Reply("noise" + body + "trailing"));
      fs == [Finding("bug", None, "x", "", "critical")] && CriticalCount(fs) == 1
  {
    assert '[' !in "noise" && ']' !in "trailing";
    assert body[0] == '[' && body[|body| - 1] == ']';
    BracketRecovery(parseJson, "noise", body, "trailing");
    CriticalBugRecord(parseJson, "noise" + body + "trailing");
  }

  /** A reply decoding to the one record of the recovery example yields
      that one critical finding. */
  lemma CriticalBugRecord(parseJson: string -> JsonParse, text: string)
    requires DecodeReply(parseJson, text) == ListOf([Record(Some("bug"), None, Some("x"), None, Some("critical"))])
    ensures var fs := OracleFindings(parseJson, Reply(text));
      fs == [Finding("bug", None, "x", "", "critical")] && CriticalCount(fs) == 1
  {
    var items := [Record(Some("bug"), None, Some("x"), None, Some("critical"))];
    assert AcceptedCount(items) == 1;
    assert items[..1] == items;
  }
}
