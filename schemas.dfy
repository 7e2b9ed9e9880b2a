/** The records the pipeline passes around: the dictionaries that
    `quick_static_checks` and `analyze_diff` build, and the file entries the
    hosting API returns. */
module Schemas {
  import opened Wrappers

  /** One reported issue: the dictionary with keys type, line, description,
      suggestion and severity. */
  datatype Finding = Finding(kind: string, line: Option<int>, description: string,
                             suggestion: string, severity: string)

  /** One changed file as listed by the hosting API; only the two keys the
      analyzer reads are kept. A missing or null `patch` is `None`. */
  datatype FileEntry = FileEntry(filename: string, patch: Option<string>)

  /** `{"name": ..., "issues": [...]}`. */
  datatype FileResult = FileResult(name: string, issues: seq<Finding>)

  datatype Summary = Summary(totalFiles: int, totalIssues: int, criticalIssues: int)

  /** `{"files": [...], "summary": {...}}`: what `analyze_diff` returns. */
  datatype Analysis = Analysis(files: seq<FileResult>, summary: Summary)
}
