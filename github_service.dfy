/** The hosting-API client: the repository URL parser, the request headers,
    the paginated listing of a pull request's changed files, and the head
    revision lookup. The HTTP round trips (`requests.get`, `raise_for_status`,
    `resp.json()`) are parameters: a function from the request to the
    decoded body, or to the error raised. */
module GitHub {
  import opened Wrappers
  import opened Text
  import opened Schemas

  const HttpsPrefix := "https://github.com/"
  const HttpPrefix := "http://github.com/"
  const InvalidRepoUrl := "Invalid GitHub repository URL"
  const ApiRepos := "https://api.github.com/repos/"
  const AcceptValue := "application/vnd.github+json"

  /** Entries asked for per page. */
  const PerPage := 100

  /** What the pattern lets follow the repository name: an optional `.git`,
      an optional `/`, then the end of the text or, as Python's `$` allows,
      a newline that is its last character. */
  predicate IsUrlTail(t: string) {
    t == "" || t == "/" || t == ".git" || t == ".git/"
    || t == "\n" || t == "/\n" || t == ".git\n" || t == ".git/\n"
  }

  /** The text after `https://github.com/` or `http://github.com/`. */
  function AfterScheme(url: string): Option<string> {
    if StartsWith(url, HttpsPrefix) then Some(url[|HttpsPrefix|..])
    else if StartsWith(url, HttpPrefix) then Some(url[|HttpPrefix|..])
    else None
  }

  /** The lazy group `[^/]+?` followed by the tail: having matched `n - 1`
      non-slash characters of `t`, take one more and stop at the first
      length after which the rest of `t` is a tail. */
  function LazyRepoLength(t: string, n: nat): (r: Option<nat>)
    requires 1 <= n
    ensures r.Some? ==> n <= r.value <= |t| && '/' !in t[n - 1..r.value] && IsUrlTail(t[r.value..])
    ensures r.Some? ==> forall m :: n <= m < r.value ==> !IsUrlTail(t[m..])
    ensures r.None? ==> forall m :: n <= m <= |t| && '/' !in t[n - 1..m] ==> !IsUrlTail(t[m..])
    decreases |t| - n
  {
    if n > |t| || t[n - 1] == '/' then
      None
    else if IsUrlTail(t[n..]) then Some(n)
    else
      var r := LazyRepoLength(t, n + 1);
      assert forall m :: n + 1 <= m <= |t| ==> t[n - 1..m] == [t[n - 1]] + t[n..m];
      r
  }

  /** The owner and repository in the text after the scheme: the owner runs
      up to the first `/` and may not be empty; the name is then matched lazily. */
  function ParseOwnerRepo(rest: string): Result<(string, string)> {
    var k := FindChar(rest, '/');
    if k <= 0 then Failure(InvalidRepoUrl)
    else
      var t := rest[k + 1..];
      match LazyRepoLength(t, 1)
      case None => Failure(InvalidRepoUrl)
      case Some(n) => Success((rest[..k], t[..n]))
  }

  /** `parse_github_repo`: the owner and repository of a GitHub URL, or
      the `ValueError` it raises. */
  function ParseGithubRepo(url: string): Result<(string, string)> {
    match AfterScheme(url)
    case None => Failure(InvalidRepoUrl)
    case Some(rest) => ParseOwnerRepo(rest)
  }

  /** `rest` reads as a non-empty slash-free owner, `/`, a non-empty
      slash-free repository name and a tail. */
  ghost predicate RestSplitsAs(rest: string, owner: string, repo: string, tail: string) {
    rest == owner + "/" + repo + tail
    && owner != "" && '/' !in owner && repo != "" && '/' !in repo && IsUrlTail(tail)
  }

  /** `url` reads as one of the two schemes followed by such a split. */
  ghost predicate SplitsAs(url: string, scheme: string, owner: string, repo: string, tail: string) {
    IsScheme(scheme) && url == scheme + owner + "/" + repo + tail
    && owner != "" && '/' !in owner && repo != "" && '/' !in repo && IsUrlTail(tail)
  }

  /** The repository name is the shortest one the split allows (the group is lazy). */
  ghost predicate Shortest(repo: string, tail: string) {
    forall m :: 1 <= m < |repo| ==> !IsUrlTail(repo[m..] + tail)
  }

  ghost predicate IsScheme(prefix: string) {
    prefix == HttpsPrefix || prefix == HttpPrefix
  }

  /** A URL the scheme step accepts is a scheme followed by the rest. */
  lemma AfterSchemeSplit(url: string) returns (prefix: string)
    requires AfterScheme(url).Some?
    ensures IsScheme(prefix) && url == prefix + AfterScheme(url).value
  {
    prefix := if StartsWith(url, HttpsPrefix) then HttpsPrefix else HttpPrefix;
    assert url == url[..|prefix|] + url[|prefix|..];
  }

  /** The scheme step strips either scheme. */
  lemma AfterSchemeOf(prefix: string, rest: string)
    requires IsScheme(prefix)
    ensures AfterScheme(prefix + rest) == Some(rest)
  {
    var url := prefix + rest;
    assert url[..|prefix|] == prefix;
    if prefix == HttpPrefix {
      assert url[4] == ':';
    }
  }

  /** The first slash after a non-empty slash-free owner ends the owner. */
  lemma FirstSlash(owner: string, t: string)
    requires owner != "" && '/' !in owner
    ensures FindChar(owner + "/" + t, '/') == |owner|
    ensures (owner + "/" + t)[..|owner|] == owner && (owner + "/" + t)[|owner| + 1..] == t
  {
    var rest := owner + "/" + t;
    assert rest[|owner|] == '/';
    assert rest[..|owner|] == owner;
  }

  /** A text cut around one of its characters. */
  lemma CutAt(rest: string, k: nat)
    requires k < |rest|
    ensures rest == rest[..k] + [rest[k]] + rest[k + 1..]
  {
  }

  /** The lazy match on a name followed by a tail stops at or before the
      end of the name, and exactly there when the name is the shortest. */
  lemma LazyStopsInName(repo: string, tail: string)
    requires repo != "" && '/' !in repo && IsUrlTail(tail)
    ensures LazyRepoLength(repo + tail, 1).Some?
    ensures LazyRepoLength(repo + tail, 1).value <= |repo|
    ensures (repo + tail)[..LazyRepoLength(repo + tail, 1).value] <= repo
    ensures Shortest(repo, tail) ==> LazyRepoLength(repo + tail, 1).value == |repo|
  {
    var t := repo + tail;
    assert t[0..|repo|] == repo;
    assert t[|repo|..] == tail;
    var n := LazyRepoLength(t, 1).value;
    assert t[..n] == repo[..n];
    if Shortest(repo, tail) {
      forall m | 1 <= m < |repo| ensures !IsUrlTail(t[m..]) {
        assert t[m..] == repo[m..] + tail;
      }
    }
  }

  /** A slash at `k` with none before it, and a lazy match of length `n`
      after it, give a split whose name is the shortest. */
  lemma SplitFromMatch(rest: string, k: nat, t: string, n: nat)
    requires 0 < k < |rest| && rest[k] == '/' && '/' !in rest[..k] && t == rest[k + 1..]
    requires 1 <= n <= |t| && '/' !in t[0..n] && IsUrlTail(t[n..])
    requires forall m :: 1 <= m < n ==> !IsUrlTail(t[m..])
    ensures RestSplitsAs(rest, rest[..k], t[..n], t[n..])
    ensures Shortest(t[..n], t[n..])
  {
    var owner, repo, tail := rest[..k], t[..n], t[n..];
    CutAt(rest, k);
    assert t == repo + tail;
    assert repo == t[0..n];
    forall m | 1 <= m < |repo| ensures !IsUrlTail(repo[m..] + tail) {
      assert repo[m..] + tail == t[m..];
    }
  }

  /** What the owner step returns is a split of its input, with the shortest name. */
  lemma RestSound(rest: string) returns (tail: string)
    requires ParseOwnerRepo(rest).Success?
    ensures RestSplitsAs(rest, ParseOwnerRepo(rest).value.0, ParseOwnerRepo(rest).value.1, tail)
    ensures Shortest(ParseOwnerRepo(rest).value.1, tail)
  {
    var k := FindChar(rest, '/');
    var t := rest[k + 1..];
    var n := LazyRepoLength(t, 1).value;
    SplitFromMatch(rest, k, t, n);
    tail := t[n..];
  }

  /** Every split of the rest is accepted, with the same owner and a name
      that is a prefix of the split's, equal to it when it is the shortest. */
  lemma RestComplete(rest: string, owner: string, repo: string, tail: string)
    requires RestSplitsAs(rest, owner, repo, tail)
    ensures ParseOwnerRepo(rest).Success?
    ensures ParseOwnerRepo(rest).value.0 == owner
    ensures ParseOwnerRepo(rest).value.1 <= repo
    ensures Shortest(repo, tail) ==> ParseOwnerRepo(rest).value.1 == repo
  {
    var t := repo + tail;
    assert rest == owner + "/" + t;
    FirstSlash(owner, t);
    LazyStopsInName(repo, tail);
  }

  /** What the parser returns is a split of the URL, with the shortest name. */
  lemma ParseSound(url: string) returns (scheme: string, tail: string)
    requires ParseGithubRepo(url).Success?
    ensures SplitsAs(url, scheme, ParseGithubRepo(url).value.0, ParseGithubRepo(url).value.1, tail)
    ensures Shortest(ParseGithubRepo(url).value.1, tail)
  {
    scheme := AfterSchemeSplit(url);
    var rest := AfterScheme(url).value;
    assert ParseGithubRepo(url) == ParseOwnerRepo(rest);
    tail := RestSound(rest);
    var owner, repo := ParseOwnerRepo(rest).value.0, ParseOwnerRepo(rest).value.1;
    Regroup(scheme, owner, "/", repo, tail);
  }

  lemma Regroup(a: string, b: string, c: string, d: string, e: string)
    ensures a + (b + c + d + e) == a + b + c + d + e
  {
  }

  /** Every split of a URL is accepted, with the same owner; the name
      returned is a prefix of the split's, and equal to it when the split's
      name is the shortest. */
  lemma ParseComplete(url: string, scheme: string, owner: string, repo: string, tail: string)
    requires SplitsAs(url, scheme, owner, repo, tail)
    ensures ParseGithubRepo(url).Success?
    ensures ParseGithubRepo(url).value.0 == owner
    ensures ParseGithubRepo(url).value.1 <= repo
    ensures Shortest(repo, tail) ==> ParseGithubRepo(url).value.1 == repo
  {
    var rest := owner + "/" + repo + tail;
    assert url == scheme + rest;
    AfterSchemeOf(scheme, rest);
    RestComplete(rest, owner, repo, tail);
  }

  /** A tail is empty or starts with `.`, `/` or a newline. */
  lemma TailStart(t: string)
    requires IsUrlTail(t) && t != []
    ensures t[0] == '.' || t[0] == '/' || t[0] == '\n'
  {
  }

  /** A name with no dot and no newline is never cut short: the parser
      returns it whole. */
  lemma PlainNameShortest(repo: string, tail: string)
    requires forall i :: 0 <= i < |repo| ==> repo[i] != '.' && repo[i] != '/' && repo[i] != '\n'
    ensures Shortest(repo, tail)
  {
    forall m | 1 <= m < |repo| ensures !IsUrlTail(repo[m..] + tail) {
      var t := repo[m..] + tail;
      assert t[0] == repo[m];
      if IsUrlTail(t) {
        TailStart(t);
      }
    }
  }

  /** The common cases: a name followed by `.git` or by a slash. */
  lemma ParseExample(scheme: string)
    requires IsScheme(scheme)
    ensures ParseGithubRepo(scheme + "user" + "/" + "repo" + ".git") == Success(("user", "repo"))
    ensures ParseGithubRepo(scheme + "user" + "/" + "repo" + "/") == Success(("user", "repo"))
  {
    PlainNameShortest("repo", ".git");
    ParseComplete(scheme + "user" + "/" + "repo" + ".git", scheme, "user", "repo", ".git");
    PlainNameShortest("repo", "/");
    ParseComplete(scheme + "user" + "/" + "repo" + "/", scheme, "user", "repo", "/");
  }

  /** The headers of every API request: the Accept header, and the bearer
      credential exactly when the token is truthy. */
  function Headers(token: Option<string>): (h: map<string, string>)
    ensures "Accept" in h && h["Accept"] == AcceptValue
    ensures "Authorization" in h <==> Truthy(token)
    ensures Truthy(token) ==> h["Authorization"] == "Bearer " + token.value
    ensures h.Keys <= {"Accept", "Authorization"}
  {
    var base := map["Accept" := AcceptValue];
    if Truthy(token) then base["Authorization" := "Bearer " + token.value] else base
  }

  function PullUrl(owner: string, repo: string, prNumber: int): string {
    ApiRepos + owner + "/" + repo + "/pulls/" + IntToString(prNumber)
  }

  function FilesUrl(owner: string, repo: string, prNumber: int): string {
    PullUrl(owner, repo, prNumber) + "/files"
  }

  /** `GET <url>?page=<page>&per_page=<perPage>` with the given headers. */
  datatype PageRequest = PageRequest(url: string, headers: map<string, string>, page: int, perPage: int)

  /** `GET <url>` for the pull request's metadata. */
  datatype PullRequest = PullRequest(url: string, headers: map<string, string>)

  /** The page-by-page accumulation from `page` on, starting from `acc`:
      stop after a short page or once `maxFiles` entries are held. */
  function Paginate(fetch: PageRequest -> Result<seq<FileEntry>>, url: string, headers: map<string, string>,
                    maxFiles: int, page: nat, acc: seq<FileEntry>): Result<seq<FileEntry>>
    decreases maxFiles - |acc|
  {
    match fetch(PageRequest(url, headers, page, PerPage))
    case Failure(e) => Failure(e)
    case Success(batch) =>
      var files := acc + batch;
      if |batch| < PerPage || |files| >= maxFiles then Success(files)
      else Paginate(fetch, url, headers, maxFiles, page + 1, files)
  }

  /** What the listing from `url` returns: the pages accumulated, cut to
      `maxFiles` entries with Python's slice `files[:max_files]`. */
  function Listing(fetch: PageRequest -> Result<seq<FileEntry>>, url: string, headers: map<string, string>,
                   maxFiles: int): Result<seq<FileEntry>>
  {
    match Paginate(fetch, url, headers, maxFiles, 1, [])
    case Failure(e) => Failure(e)
    case Success(files) => Success(Take(files, maxFiles))
  }

  /** What `list_pr_files(repo_url, pr_number, token, max_files)` returns. */
  function PrFiles(fetch: PageRequest -> Result<seq<FileEntry>>, repoUrl: string, prNumber: int,
                   token: Option<string>, maxFiles: int): Result<seq<FileEntry>>
  {
    match ParseGithubRepo(repoUrl)
    case Failure(e) => Failure(e)
    case Success((owner, repo)) => Listing(fetch, FilesUrl(owner, repo, prNumber), Headers(token), maxFiles)
  }

  /** `list_pr_files`: parse the URL, build the headers, then run the page loop. */
  method ListPrFiles(fetch: PageRequest -> Result<seq<FileEntry>>, repoUrl: string, prNumber: int,
                     token: Option<string>, maxFiles: int)
    returns (result: Result<seq<FileEntry>>, ghost requests: seq<PageRequest>)
    ensures result == PrFiles(fetch, repoUrl, prNumber, token, maxFiles)
    ensures result.Success? && maxFiles >= 0 ==> |result.value| <= maxFiles
    ensures ParseGithubRepo(repoUrl).Failure? ==> requests == []
    ensures ParseGithubRepo(repoUrl).Success? ==>
      PageTrace(fetch, FilesUrl(ParseGithubRepo(repoUrl).value.0, ParseGithubRepo(repoUrl).value.1, prNumber),
                Headers(token), maxFiles, requests)
  {
    var parsed := ParseGithubRepo(repoUrl);
    if parsed.Failure? {
      return Failure(parsed.error), [];
    }
    var url := FilesUrl(parsed.value.0, parsed.value.1, prNumber);
    result, requests := FetchPages(fetch, url, Headers(token), maxFiles);
  }

  /** The page loop. `requests` records the pages asked for, which
      `PageTrace` describes: 1, 2, 3, … up to the first page that fails, is
      short, or brings the count to `maxFiles`, and no further. */
  method FetchPages(fetch: PageRequest -> Result<seq<FileEntry>>, url: string, headers: map<string, string>,
                    maxFiles: int)
    returns (result: Result<seq<FileEntry>>, ghost requests: seq<PageRequest>)
    ensures result == Listing(fetch, url, headers, maxFiles)
    ensures result.Success? && maxFiles >= 0 ==> |result.value| <= maxFiles
    ensures PageTrace(fetch, url, headers, maxFiles, requests)
  {
    var files: seq<FileEntry> := [];
    var page := 1;
    requests := [];
    while true
      invariant page == |requests| + 1
      invariant forall i :: 0 <= i < |requests| ==> requests[i] == PageRequest(url, headers, i + 1, PerPage)
      invariant FullPagesBefore(fetch, url, headers, maxFiles, page)
      invariant files == PagesBetween(fetch, url, headers, 1, page)
      invariant Paginate(fetch, url, headers, maxFiles, page, files) == Paginate(fetch, url, headers, maxFiles, 1, [])
      decreases maxFiles - |files|
    {
      var request := PageRequest(url, headers, page, PerPage);
      requests := requests + [request];
      var response := fetch(request);
      PagesBetweenSnoc(fetch, url, headers, 1, page);
      if response.Failure? {
        return Failure(response.error), requests;
      }
      var batch := response.value;
      files := files + batch;
      if |batch| < PerPage || |files| >= maxFiles {
        break;
      }
      page := page + 1;
    }
    result := Success(Take(files, maxFiles));
  }

  /** Pages 1 up to but excluding `last` all came back full and each left
      the count of entries read below `maxFiles`. */
  ghost predicate FullPagesBefore(fetch: PageRequest -> Result<seq<FileEntry>>, url: string,
                                  headers: map<string, string>, maxFiles: int, last: nat)
  {
    forall p :: 1 <= p < last ==>
      IsFullPage(fetch(PageRequest(url, headers, p, PerPage)))
      && |PagesBetween(fetch, url, headers, 1, p + 1)| < maxFiles
  }

  /** Page `last` stops the loop: it failed, was short, or brought the count
      to `maxFiles`. */
  ghost predicate StopsAt(fetch: PageRequest -> Result<seq<FileEntry>>, url: string,
                          headers: map<string, string>, maxFiles: int, last: nat)
  {
    !IsFullPage(fetch(PageRequest(url, headers, last, PerPage)))
    || |PagesBetween(fetch, url, headers, 1, last + 1)| >= maxFiles
  }

  /** The requests of the page loop: pages 1, 2, 3, … in order, each for
      100 entries, at least one; every page but the last was full and left
      the count below `maxFiles`, and the last stopped the loop. */
  ghost predicate PageTrace(fetch: PageRequest -> Result<seq<FileEntry>>, url: string,
                            headers: map<string, string>, maxFiles: int, requests: seq<PageRequest>)
  {
    |requests| >= 1
    && (forall i :: 0 <= i < |requests| ==> requests[i] == PageRequest(url, headers, i + 1, PerPage))
    && FullPagesBefore(fetch, url, headers, maxFiles, |requests|)
    && StopsAt(fetch, url, headers, maxFiles, |requests|)
  }

  /** The pages determine the trace: two request runs that both satisfy
      `PageTrace` are the same run. */
  lemma PageTraceUnique(fetch: PageRequest -> Result<seq<FileEntry>>, url: string, headers: map<string, string>,
                        maxFiles: int, r1: seq<PageRequest>, r2: seq<PageRequest>)
    requires PageTrace(fetch, url, headers, maxFiles, r1)
    requires PageTrace(fetch, url, headers, maxFiles, r2)
    ensures r1 == r2
  {
    assert |r1| == |r2|;
  }

  /** The trace asks for exactly the pages the function `Paginate` reads:
      its last request is the page whose error `Paginate` returns, or up to
      which it returns every entry read. */
  lemma PageTraceMatchesPaging(fetch: PageRequest -> Result<seq<FileEntry>>, url: string,
                               headers: map<string, string>, maxFiles: int, requests: seq<PageRequest>)
    requires PageTrace(fetch, url, headers, maxFiles, requests)
    ensures var r := fetch(PageRequest(url, headers, |requests|, PerPage));
      Paginate(fetch, url, headers, maxFiles, 1, [])
        == if r.Failure? then Failure(r.error) else Success(PagesBetween(fetch, url, headers, 1, |requests| + 1))
  {
    var last := PaginationTrace(fetch, url, headers, maxFiles, 1, []);
    assert last == |requests|;
    assert [] + PagesBetween(fetch, url, headers, 1, last + 1) == PagesBetween(fetch, url, headers, 1, last + 1);
  }

  /** Reading one more page appends its entries, if it has any. */
  lemma {:induction false} PagesBetweenSnoc(fetch: PageRequest -> Result<seq<FileEntry>>, url: string,
                                            headers: map<string, string>, lo: nat, hi: nat)
    requires lo <= hi
    ensures var r := fetch(PageRequest(url, headers, hi, PerPage));
      PagesBetween(fetch, url, headers, lo, hi + 1)
        == PagesBetween(fetch, url, headers, lo, hi) + (if r.Success? then r.value else [])
    decreases hi - lo
  {
    if lo < hi {
      PagesBetweenSnoc(fetch, url, headers, lo + 1, hi);
      var r := fetch(PageRequest(url, headers, lo, PerPage));
      assert PagesBetween(fetch, url, headers, lo, hi + 1)
        == (if r.Success? then r.value else []) + PagesBetween(fetch, url, headers, lo + 1, hi + 1);
    } else {
      assert PagesBetween(fetch, url, headers, hi + 1, hi + 1) == [];
    }
  }

  /** The entries of pages `lo` up to but excluding `hi`, in page order. */
  ghost function PagesBetween(fetch: PageRequest -> Result<seq<FileEntry>>, url: string,
                              headers: map<string, string>, lo: nat, hi: nat): seq<FileEntry>
    decreases hi - lo
  {
    if hi <= lo then []
    else
      var r := fetch(PageRequest(url, headers, lo, PerPage));
      (if r.Success? then r.value else []) + PagesBetween(fetch, url, headers, lo + 1, hi)
  }

  /** A page that came back with a full batch of entries. */
  predicate IsFullPage(r: Result<seq<FileEntry>>) {
    r.Success? && |r.value| >= PerPage
  }

  /** The pages fetched from `page` on are `page`, …, `last`: every one
      before `last` was full and left the count below `maxFiles`; the result
      is what `last` raised, or `acc` followed by the entries of all of them,
      and then `last` was short or brought the count to `maxFiles`. */
  lemma {:induction false} PaginationTrace(fetch: PageRequest -> Result<seq<FileEntry>>, url: string,
                                           headers: map<string, string>, maxFiles: int, page: nat,
                                           acc: seq<FileEntry>)
    returns (last: nat)
    ensures page <= last
    ensures forall p :: page <= p < last ==> IsFullPage(fetch(PageRequest(url, headers, p, PerPage)))
    ensures forall p :: page < p <= last ==> |acc + PagesBetween(fetch, url, headers, page, p)| < maxFiles
    ensures fetch(PageRequest(url, headers, last, PerPage)).Failure? ==>
      Paginate(fetch, url, headers, maxFiles, page, acc) == Failure(fetch(PageRequest(url, headers, last, PerPage)).error)
    ensures fetch(PageRequest(url, headers, last, PerPage)).Success? ==>
      Paginate(fetch, url, headers, maxFiles, page, acc) == Success(acc + PagesBetween(fetch, url, headers, page, last + 1))
      && (!IsFullPage(fetch(PageRequest(url, headers, last, PerPage)))
          || |acc + PagesBetween(fetch, url, headers, page, last + 1)| >= maxFiles)
    decreases maxFiles - |acc|
  {
    var r := fetch(PageRequest(url, headers, page, PerPage));
    assert PagesBetween(fetch, url, headers, page + 1, page + 1) == [];
    if !IsFullPage(r) || |acc + r.value| >= maxFiles {
      last := page;
      if r.Success? {
        assert PagesBetween(fetch, url, headers, page, page + 1) == r.value;
      }
    } else {
      var acc' := acc + r.value;
      last := PaginationTrace(fetch, url, headers, maxFiles, page + 1, acc');
      forall p | page < p <= last
        ensures |acc + PagesBetween(fetch, url, headers, page, p)| < maxFiles
      {
        assert acc + PagesBetween(fetch, url, headers, page, p)
          == acc' + PagesBetween(fetch, url, headers, page + 1, p);
      }
      assert acc + PagesBetween(fetch, url, headers, page, last + 1)
        == acc' + PagesBetween(fetch, url, headers, page + 1, last + 1);
    }
  }

  /** The listing is a prefix of the entries of the fetched pages, and holds
      at most `max_files` entries when that is not negative. */
  lemma ListingIsPrefix(fetch: PageRequest -> Result<seq<FileEntry>>, repoUrl: string, prNumber: int,
                        token: Option<string>, maxFiles: int)
    requires PrFiles(fetch, repoUrl, prNumber, token, maxFiles).Success?
    ensures var (owner, repo) := ParseGithubRepo(repoUrl).value;
      var all := Paginate(fetch, FilesUrl(owner, repo, prNumber), Headers(token), maxFiles, 1, []).value;
      var files := PrFiles(fetch, repoUrl, prNumber, token, maxFiles).value;
      files <= all && (maxFiles >= 0 ==> |files| <= maxFiles)
  {
  }

  /** `get_pr_head_sha`: the head revision of the pull request, or what the
      URL parse or the request raised. */
  function HeadSha(fetchPull: PullRequest -> Result<string>, repoUrl: string, prNumber: int,
                   token: Option<string>): Result<string>
  {
    match ParseGithubRepo(repoUrl)
    case Failure(e) => Failure(e)
    case Success((owner, repo)) => fetchPull(PullRequest(PullUrl(owner, repo, prNumber), Headers(token)))
  }

  /** A URL that is not a GitHub repository URL fails both calls with the
      parser's message, before any request. */
  lemma BadUrlRejected(fetch: PageRequest -> Result<seq<FileEntry>>, fetchPull: PullRequest -> Result<string>,
                       repoUrl: string, prNumber: int, token: Option<string>, maxFiles: int)
    requires forall scheme, owner, repo, tail :: !SplitsAs(repoUrl, scheme, owner, repo, tail)
    ensures HeadSha(fetchPull, repoUrl, prNumber, token) == Failure(InvalidRepoUrl)
    ensures PrFiles(fetch, repoUrl, prNumber, token, maxFiles) == Failure(InvalidRepoUrl)
  {
    if ParseGithubRepo(repoUrl).Success? {
      var scheme, tail := ParseSound(repoUrl);
    }
  }
}
