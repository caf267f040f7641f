/** The collection rules of the GitHub client: the bounded retry policy,
    branch discovery with its fallback, shaping of raw commit records,
    first-seen-by-sha de-duplication across branches with optional
    statistics, and the batched collection with its final sort.
    Every remote call is answered by the oracles in `Env`. */
module GitHubClient {
  import opened Wrappers
  import opened Strings
  import opened Seqs
  import opened Records
  import opened Config

  // ---------------------------------------------------------------------
  // Remote calls

  /** What one run of the command-line client yields. */
  datatype Attempt = Exited(returncode: int, stdout: string, stderr: string) | TimedOut

  /** The messages of `GitHubAPIError`. */
  datatype ApiError =
    | CommandFailed(command: string, stderr: string)
    | CommandTimedOut(command: string)
    | RetriesExhausted(command: string)
    | RepositoryListUnparsable

  /** A decoded line of the commits listing: a JSON object whose keys may
      be missing, or a line that is not JSON at all. */
  datatype RawCommit = Malformed | Decoded(message: Option<string>, author: Option<string>, date: Option<string>, sha: Option<string>)

  /** A decoded statistics object; keys may be missing. */
  datatype RawStats = RawStats(additions: Option<int>, deletions: Option<int>, total: Option<int>)

  /** The outside world. `remote(cmd, timeout)` is what the retrying
      command runner returns for `cmd` (its standard output, or the error
      it raises); the decoders stand for `json.loads` followed by the key
      lookups, `None` meaning the text did not decode. */
  datatype Env = Env(
    remote: (seq<string>, int) -> Result<string, ApiError>,
    decodeRepos: string -> Option<seq<string>>,
    decodeCommit: string -> RawCommit,
    decodeStats: string -> Option<RawStats>)

  /** `' '.join(cmd)`, as quoted in error messages. */
  function CommandLine(cmd: seq<string>): string {
    JoinWith(cmd, ' ')
  }

  predicate Succeeded(a: Attempt) {
    a.Exited? && a.returncode == 0
  }

  /** The error raised when attempt `a` is the last one and fails. */
  function AttemptError(cmd: seq<string>, a: Attempt): ApiError
    requires !Succeeded(a)
  {
    if a.TimedOut? then CommandTimedOut(CommandLine(cmd)) else CommandFailed(CommandLine(cmd), a.stderr)
  }

  /** Runs `cmd` up to `RetryAttempts` times; `outcomes[k]` is what attempt
      `k` yields. Returns the first successful attempt, or raises the error
      of the last one. `delays` records the sleeps requested in between. */
  method RunCommand(cmd: seq<string>, outcomes: seq<Attempt>)
    returns (r: Result<Attempt, ApiError>, attempts: nat, ghost delays: seq<real>)
    requires |outcomes| == RetryAttempts
    ensures 1 <= attempts <= RetryAttempts
    ensures forall k :: 0 <= k < attempts - 1 ==> !Succeeded(outcomes[k])
    ensures r.Ok? <==> Succeeded(outcomes[attempts - 1])
    ensures r.Ok? ==> r.value == outcomes[attempts - 1]
    ensures r.Err? <==> forall k :: 0 <= k < RetryAttempts ==> !Succeeded(outcomes[k])
    ensures r.Err? ==> attempts == RetryAttempts && r.error == AttemptError(cmd, outcomes[RetryAttempts - 1])
    ensures |delays| == attempts - 1
    ensures forall k :: 0 <= k < |delays| ==> delays[k] == RetryDelay * (k + 1) as real
  {
    delays := [];
    var attempt := 0;
    while attempt < RetryAttempts
      invariant 0 <= attempt <= RetryAttempts - 1
      invariant forall k :: 0 <= k < attempt ==> !Succeeded(outcomes[k])
      invariant |delays| == attempt
      invariant forall k :: 0 <= k < |delays| ==> delays[k] == RetryDelay * (k + 1) as real
    {
      var outcome := outcomes[attempt];
      match outcome {
        case Exited(returncode, stdout, stderr) =>
          if returncode == 0 {
            r, attempts := Ok(outcome), attempt + 1;
            return;
          }
          if attempt == RetryAttempts - 1 {
            r, attempts := Err(CommandFailed(CommandLine(cmd), stderr)), attempt + 1;
            return;
          }
          delays := delays + [RetryDelay * (attempt + 1) as real];
        case TimedOut =>
          if attempt == RetryAttempts - 1 {
            r, attempts := Err(CommandTimedOut(CommandLine(cmd))), attempt + 1;
            return;
          }
          delays := delays + [RetryDelay * (attempt + 1) as real];
      }
      attempt := attempt + 1;
    }
    // With at least one attempt the last iteration always returns.
    assert false;
    r, attempts := Err(RetriesExhausted(CommandLine(cmd))), RetryAttempts;
  }

  // ---------------------------------------------------------------------
  // Commands

  /** True when `part` holds the placeholder of one of the bindings. */
  predicate HasHole(part: string, bindings: seq<(string, string)>) {
    exists j :: 0 <= j < |bindings| && Contains(part, Hole(bindings[j].0))
  }

  /** `[c.format(...) if <c holds a placeholder> else c for c in template]`. */
  function FillTemplate(template: seq<string>, bindings: seq<(string, string)>): (cmd: seq<string>)
    ensures |cmd| == |template|
  {
    seq(|template|, i requires 0 <= i < |template| =>
      if HasHole(template[i], bindings) then Format(template[i], bindings) else template[i])
  }

  function ListReposCommand(org: string): seq<string> {
    FillTemplate(ListReposTemplate, [("org", org)])
  }

  function ListBranchesCommand(org: string, repo: string): seq<string> {
    FillTemplate(ListBranchesTemplate, [("org", org), ("repo", repo)])
  }

  /** One part of the commits command: the first matching branch of the
      placeholder tests, formatted with that branch's arguments only. */
  function FillCommitPart(part: string, org: string, repo: string, branch: string, since: string): string {
    if Contains(part, "{org}") && Contains(part, "{repo}") then Format(part, [("org", org), ("repo", repo)])
    else if Contains(part, "{org}") then Format(part, [("org", org)])
    else if Contains(part, "{repo}") then Format(part, [("repo", repo)])
    else if Contains(part, "{branch}") then Format(part, [("branch", branch)])
    else if Contains(part, "{since}") then Format(part, [("since", since)])
    else part
  }

  /** The arguments that bound the listing by an end date, present only
      when the until date is truthy. */
  function UntilArguments(cfg: CollectionConfig): seq<string> {
    if Truthy(cfg.untilDate) then ["-f", "until=" + cfg.untilDate.value] else []
  }

  function CommitsCommand(cfg: CollectionConfig, repo: string, branch: string): seq<string> {
    seq(|CommitsTemplate|, i requires 0 <= i < |CommitsTemplate| =>
      FillCommitPart(CommitsTemplate[i], cfg.organization, repo, branch, cfg.sinceDate))
    + UntilArguments(cfg)
  }

  /** A part without braces holds no placeholder. */
  lemma PlainPartNoHole(part: string, bindings: seq<(string, string)>)
    requires '{' !in part
    ensures !HasHole(part, bindings)
  {
    forall j | 0 <= j < |bindings|
      ensures !Contains(part, Hole(bindings[j].0))
    {
      assert Hole(bindings[j].0)[0] == '{';
      ContainsChar(part, Hole(bindings[j].0), '{');
    }
  }

  /** A part with one organisation placeholder holds a hole and takes the organisation. */
  lemma OrgTemplatePart(part: string, pre: string, post: string, org: string)
    requires part == pre + Hole("org") + post
    requires '{' !in pre && '{' !in post
    ensures HasHole(part, [("org", org)])
    ensures Format(part, [("org", org)]) == pre + org + post
  {
    var b := [("org", org)];
    ContainsMiddle(pre, Hole(b[0].0), post);
    FormatOneHole(pre, "org", post, org);
  }

  /** A part with an organisation and a repository placeholder holds a hole and takes both. */
  lemma OrgRepoTemplatePart(part: string, pre: string, mid: string, post: string, org: string, repo: string)
    requires part == pre + Hole("org") + mid + Hole("repo") + post
    requires '{' !in pre && '{' !in mid && '{' !in post
    ensures HasHole(part, [("org", org), ("repo", repo)])
    ensures Format(part, [("org", org), ("repo", repo)]) == pre + org + mid + repo + post
  {
    var b := [("org", org), ("repo", repo)];
    assert part == pre + Hole(b[0].0) + (mid + Hole("repo") + post);
    ContainsMiddle(pre, Hole(b[0].0), mid + Hole("repo") + post);
    FormatTwoHoles(pre, "org", mid, "repo", post, org, repo);
  }

  /** The organisation part of the repository listing command. */
  lemma ListReposOrgIs(org: string)
    ensures ListReposCommand(org)[3] == org
  {
    OrgTemplatePart(ListReposTemplate[3], [], [], org);
    assert [] + org + [] == org;
  }

  /** The repository listing command names the organisation. */
  lemma ListReposCommandIs(org: string)
    ensures var cmd := ListReposCommand(org);
      |cmd| == 8 && cmd[0] == "gh" && cmd[1] == "repo" && cmd[2] == "list" && cmd[3] == org
      && cmd[4] == "--limit" && cmd[5] == "1000" && cmd[6] == "--json" && cmd[7] == "name"
  {
    var b := [("org", org)];
    ListReposOrgIs(org);
    PlainPartNoHole("gh", b);
    PlainPartNoHole("repo", b);
    PlainPartNoHole("list", b);
    PlainPartNoHole("--limit", b);
    PlainPartNoHole("1000", b);
    PlainPartNoHole("--json", b);
    PlainPartNoHole("name", b);
  }

  /** The path part of the branch listing command. */
  lemma ListBranchesPathIs(org: string, repo: string)
    ensures ListBranchesCommand(org, repo)[2] == "/repos/" + org + "/" + repo + "/branches"
  {
    OrgRepoTemplatePart(ListBranchesTemplate[2], "/repos/", "/", "/branches", org, repo);
  }

  /** The branch listing command names the organisation and the repository. */
  lemma ListBranchesCommandIs(org: string, repo: string)
    ensures var cmd := ListBranchesCommand(org, repo);
      |cmd| == 5 && cmd[0] == "gh" && cmd[1] == "api" && cmd[2] == "/repos/" + org + "/" + repo + "/branches"
      && cmd[3] == "--jq" && cmd[4] == ".[].name"
  {
    var b := [("org", org), ("repo", repo)];
    ListBranchesPathIs(org, repo);
    PlainPartNoHole("gh", b);
    PlainPartNoHole("api", b);
    PlainPartNoHole("--jq", b);
    PlainPartNoHole(".[].name", b);
  }

  /** A part without braces is copied. */
  lemma PlainCommitPart(part: string, org: string, repo: string, branch: string, since: string)
    requires '{' !in part
    ensures FillCommitPart(part, org, repo, branch, since) == part
  {
    ContainsChar(part, "{org}", '{');
    ContainsChar(part, "{repo}", '{');
    ContainsChar(part, "{branch}", '{');
    ContainsChar(part, "{since}", '{');
  }

  /** A part with an organisation and a repository placeholder takes both. */
  lemma PathPart(part: string, pre: string, mid: string, post: string, org: string, repo: string, branch: string, since: string)
    requires part == pre + Hole("org") + mid + Hole("repo") + post
    requires '{' !in pre && '{' !in mid && '{' !in post
    ensures FillCommitPart(part, org, repo, branch, since) == pre + org + mid + repo + post
  {
    assert part == pre + Hole("org") + (mid + Hole("repo") + post);
    ContainsMiddle(pre, Hole("org"), mid + Hole("repo") + post);
    assert part == (pre + Hole("org") + mid) + Hole("repo") + post;
    ContainsMiddle(pre + Hole("org") + mid, Hole("repo"), post);
    FormatTwoHoles(pre, "org", mid, "repo", post, org, repo);
    assert Hole("org") == "{org}" && Hole("repo") == "{repo}";
  }

  /** A part whose only placeholder is the branch takes the branch. */
  lemma BranchPart(part: string, pre: string, post: string, org: string, repo: string, branch: string, since: string)
    requires part == pre + Hole("branch") + post
    requires '{' !in pre && '{' !in post
    ensures FillCommitPart(part, org, repo, branch, since) == pre + branch + post
  {
    var tail := "branch}" + post;
    assert part == pre + ['{'] + tail;
    NotContainsAtOnlyHead(pre, tail, "{org}");
    NotContainsAtOnlyHead(pre, tail, "{repo}");
    ContainsMiddle(pre, Hole("branch"), post);
    FormatOneHole(pre, "branch", post, branch);
    assert Hole("branch") == "{branch}";
  }

  /** A part whose only placeholder is the start date takes the date. */
  lemma SincePart(part: string, pre: string, post: string, org: string, repo: string, branch: string, since: string)
    requires part == pre + Hole("since") + post
    requires '{' !in pre && '{' !in post
    ensures FillCommitPart(part, org, repo, branch, since) == pre + since + post
  {
    var tail := "since}" + post;
    assert part == pre + ['{'] + tail;
    NotContainsAtOnlyHead(pre, tail, "{org}");
    NotContainsAtOnlyHead(pre, tail, "{repo}");
    NotContainsAtOnlyHead(pre, tail, "{branch}");
    ContainsMiddle(pre, Hole("since"), post);
    FormatOneHole(pre, "since", post, since);
    assert Hole("since") == "{since}";
  }

  /** A part whose one brace is followed by a letter no placeholder starts with is copied. */
  lemma LoneBracePart(part: string, pre: string, post: string, org: string, repo: string, branch: string, since: string)
    requires part == pre + ['{'] + post
    requires '{' !in pre && '{' !in post && post != [] && post[0] !in "orbs"
    ensures FillCommitPart(part, org, repo, branch, since) == part
  {
    NotContainsAtOnlyHead(pre, post, "{org}");
    NotContainsAtOnlyHead(pre, post, "{repo}");
    NotContainsAtOnlyHead(pre, post, "{branch}");
    NotContainsAtOnlyHead(pre, post, "{since}");
  }

  /** The path part of the commits command. */
  lemma PathCommitPart(org: string, repo: string, branch: string, since: string)
    ensures FillCommitPart(CommitsTemplate[2], org, repo, branch, since) == "/repos/" + org + "/" + repo + "/commits"
  {
    PathPart(CommitsTemplate[2], "/repos/", "/", "/commits", org, repo, branch, since);
  }

  /** The `sha=` part of the commits command. */
  lemma BranchCommitPart(org: string, repo: string, branch: string, since: string)
    ensures FillCommitPart(CommitsTemplate[6], org, repo, branch, since) == "sha=" + branch
  {
    BranchPart(CommitsTemplate[6], "sha=", [], org, repo, branch, since);
    assert "sha=" + branch + [] == "sha=" + branch;
  }

  /** The `since=` part of the commits command. */
  lemma SinceCommitPart(org: string, repo: string, branch: string, since: string)
    ensures FillCommitPart(CommitsTemplate[8], org, repo, branch, since) == "since=" + since
  {
    SincePart(CommitsTemplate[8], "since=", [], org, repo, branch, since);
    assert "since=" + since + [] == "since=" + since;
  }

  /** The jq program opens one brace, before its field list. */
  lemma JqShape()
    ensures CommitsJq == ".[] | " + ['{'] + (CommitsJqFields + "}")
    ensures '{' !in ".[] | " && '{' !in CommitsJqFields + "}"
    ensures (CommitsJqFields + "}")[0] == 'm'
  {
    assert '{' !in "message: .commit.message, " && '{' !in "author: .commit.author.name, ";
    assert '{' !in "date: .commit.author.date, " && '{' !in "sha: .sha" + "}";
  }

  /** The jq part of the commits command. */
  lemma JqCommitPart(org: string, repo: string, branch: string, since: string)
    ensures FillCommitPart(CommitsJq, org, repo, branch, since) == CommitsJq
  {
    JqShape();
    LoneBracePart(CommitsJq, ".[] | ", CommitsJqFields + "}", org, repo, branch, since);
  }

  /** The commits command: the organisation and repository in the path, the
      branch as `sha`, the start date as `since`, every other part as in the
      template, then the until arguments. */
  lemma CommitsCommandIs(cfg: CollectionConfig, repo: string, branch: string)
    ensures CommitsCommand(cfg, repo, branch) ==
      ["gh", "api", "/repos/" + cfg.organization + "/" + repo + "/commits", "--method", "GET",
       "-f", "sha=" + branch, "-f", "since=" + cfg.sinceDate, "-f", "per_page=100", "--jq", CommitsJq]
      + UntilArguments(cfg)
  {
    CommitsPartsFilled(cfg.organization, repo, branch, cfg.sinceDate);
  }

  /** Every part of the commits template, filled. */
  lemma CommitsPartsFilled(org: string, repo: string, branch: string, since: string)
    ensures forall i :: 0 <= i < |CommitsTemplate| ==>
      (FillCommitPart(CommitsTemplate[i], org, repo, branch, since) ==
       ["gh", "api", "/repos/" + org + "/" + repo + "/commits", "--method", "GET",
        "-f", "sha=" + branch, "-f", "since=" + since, "-f", "per_page=100", "--jq", CommitsJq][i])
  {
    forall i | 0 <= i < |CommitsTemplate|
      ensures FillCommitPart(CommitsTemplate[i], org, repo, branch, since) ==
        ["gh", "api", "/repos/" + org + "/" + repo + "/commits", "--method", "GET",
         "-f", "sha=" + branch, "-f", "since=" + since, "-f", "per_page=100", "--jq", CommitsJq][i]
    {
      if i == 2 {
        PathCommitPart(org, repo, branch, since);
      } else if i == 6 {
        BranchCommitPart(org, repo, branch, since);
      } else if i == 8 {
        SinceCommitPart(org, repo, branch, since);
      } else if i == 12 {
        JqCommitPart(org, repo, branch, since);
      } else {
        PlainCommitPart(CommitsTemplate[i], org, repo, branch, since);
      }
    }
  }

  /** Fills the parts of a template one by one, in order. */
  method FillCommitParts(template: seq<string>, org: string, repo: string, branch: string, since: string)
    returns (cmd: seq<string>)
    ensures |cmd| == |template|
    ensures forall i :: 0 <= i < |template| ==> cmd[i] == FillCommitPart(template[i], org, repo, branch, since)
  {
    cmd := [];
    for i := 0 to |template|
      invariant |cmd| == i
      invariant forall k :: 0 <= k < i ==> cmd[k] == FillCommitPart(template[k], org, repo, branch, since)
    {
      var part := template[i];
      if Contains(part, "{org}") && Contains(part, "{repo}") {
        cmd := cmd + [Format(part, [("org", org), ("repo", repo)])];
      } else if Contains(part, "{org}") {
        cmd := cmd + [Format(part, [("org", org)])];
      } else if Contains(part, "{repo}") {
        cmd := cmd + [Format(part, [("repo", repo)])];
      } else if Contains(part, "{branch}") {
        cmd := cmd + [Format(part, [("branch", branch)])];
      } else if Contains(part, "{since}") {
        cmd := cmd + [Format(part, [("since", since)])];
      } else {
        cmd := cmd + [part];
      }
    }
  }

  /** Builds the commits command part by part, then appends the until
      arguments. */
  method BuildCommitsCommand(cfg: CollectionConfig, repo: string, branch: string) returns (cmd: seq<string>)
    ensures |cmd| == |CommitsTemplate| + (if Truthy(cfg.untilDate) then 2 else 0)
    ensures forall i :: 0 <= i < |CommitsTemplate| ==>
      cmd[i] == FillCommitPart(CommitsTemplate[i], cfg.organization, repo, branch, cfg.sinceDate)
    ensures Truthy(cfg.untilDate) ==> cmd[|CommitsTemplate|..] == ["-f", "until=" + cfg.untilDate.value]
    ensures cmd == CommitsCommand(cfg, repo, branch)
    ensures cmd ==
      ["gh", "api", "/repos/" + cfg.organization + "/" + repo + "/commits", "--method", "GET",
       "-f", "sha=" + branch, "-f", "since=" + cfg.sinceDate, "-f", "per_page=100", "--jq", CommitsJq]
      + UntilArguments(cfg)
  {
    cmd := FillCommitParts(CommitsTemplate, cfg.organization, repo, branch, cfg.sinceDate);
    if Truthy(cfg.untilDate) {
      cmd := cmd + ["-f", "until=" + cfg.untilDate.value];
    }
    CommitsCommandIs(cfg, repo, branch);
  }

  // ---------------------------------------------------------------------
  // Repositories and branches

  /** The repository names of the organization; a failed call or an
      undecodable listing is fatal. */
  function GetRepositories(cfg: CollectionConfig, env: Env): (r: Result<seq<string>, ApiError>)
    ensures env.remote(ListReposCommand(cfg.organization), cfg.timeoutSeconds).Err? ==>
      r == Err(env.remote(ListReposCommand(cfg.organization), cfg.timeoutSeconds).error)
    ensures r.Ok? ==> (exists out ::
      && env.remote(ListReposCommand(cfg.organization), cfg.timeoutSeconds) == Ok(out)
      && env.decodeRepos(out) == Some(r.value))
    ensures forall out :: env.remote(ListReposCommand(cfg.organization), cfg.timeoutSeconds) == Ok(out) ==>
      (r == Err(RepositoryListUnparsable) <==> env.decodeRepos(out).None?)
  {
    match env.remote(ListReposCommand(cfg.organization), cfg.timeoutSeconds)
    case Err(e) => Err(e)
    case Ok(out) =>
      match env.decodeRepos(out)
      case None => Err(RepositoryListUnparsable)
      case Some(names) => Ok(names)
  }

  const DefaultBranches: seq<string> := ["main", "master"]

  /** The lines of a command's output: `stdout.strip().split('\n')`. */
  function Lines(stdout: string): seq<string> {
    SplitOn(Strip(stdout), '\n')
  }

  predicate Blank(line: string) {
    Strip(line) == []
  }

  /** `[line.strip() for line in lines if line.strip()]`. */
  function StrippedNonBlank(lines: seq<string>): (r: seq<string>)
    ensures |r| <= |lines|
    ensures forall i :: 0 <= i < |r| ==> r[i] != [] && !IsSpace(r[i][0]) && !IsSpace(r[i][|r[i]| - 1])
  {
    if lines == [] then []
    else
      var front := StrippedNonBlank(lines[..|lines| - 1]);
      var line := lines[|lines| - 1];
      if Blank(line) then front else front + [Strip(line)]
  }

  lemma {:induction false} StrippedNonBlankNonEmpty(lines: seq<string>, k: nat)
    requires k < |lines| && !Blank(lines[k])
    ensures StrippedNonBlank(lines) != []
  {
    if k < |lines| - 1 {
      assert lines[..|lines| - 1][k] == lines[k];
      StrippedNonBlankNonEmpty(lines[..|lines| - 1], k);
    }
  }

  /** Output that is not blank after stripping always has a non-blank
      first line, so `get_branches`' second fallback is never taken. */
  lemma NonBlankOutputHasBranch(stdout: string)
    requires Strip(stdout) != []
    ensures StrippedNonBlank(Lines(stdout)) != []
  {
    var t := Strip(stdout);
    var lines := Lines(stdout);
    assert t[0] != '\n';
    assert t == [t[0]] + t[1..];
    assert lines[0] == [t[0]] + SplitOn(t[1..], '\n')[0];
    assert lines[0][0] == t[0];
    assert !Blank(lines[0]);
    StrippedNonBlankNonEmpty(lines, 0);
  }

  /** The branches of a repository, or `["main", "master"]` when the
      listing fails or has no non-blank line; never empty. */
  function GetBranches(cfg: CollectionConfig, env: Env, repo: string): (branches: seq<string>)
    ensures branches != []
    ensures env.remote(ListBranchesCommand(cfg.organization, repo), 15).Err? ==> branches == DefaultBranches
    ensures forall out :: env.remote(ListBranchesCommand(cfg.organization, repo), 15) == Ok(out) ==>
      branches == if Strip(out) == [] then DefaultBranches else StrippedNonBlank(Lines(out))
  {
    match env.remote(ListBranchesCommand(cfg.organization, repo), 15)
    case Err(_) => DefaultBranches
    case Ok(out) =>
      if Strip(out) == [] then DefaultBranches
      else
        var branches := StrippedNonBlank(Lines(out));
        NonBlankOutputHasBranch(out);
        if branches != [] then branches else DefaultBranches
  }

  /** The branches whose commits are listed for a repository. */
  function RepoBranches(cfg: CollectionConfig, env: Env, repo: string): (branches: seq<string>)
    ensures branches != []
    ensures !cfg.includeAllBranches ==> branches == ["main"]
    ensures cfg.includeAllBranches ==> branches == GetBranches(cfg, env, repo)
  {
    if cfg.includeAllBranches then GetBranches(cfg, env, repo) else ["main"]
  }

  // ---------------------------------------------------------------------
  // Shaping commit records

  /** The message with line breaks turned into spaces. */
  function Flattened(message: string): (r: string)
    ensures '\n' !in r && '\r' !in r
  {
    ReplaceChar(ReplaceChar(message, '\n', ' '), '\r', ' ')
  }

  /** `message.replace('\n', ' ').replace('\r', ' ').strip()[:500]`. */
  function ShapeMessage(message: string): (r: string)
    ensures '\n' !in r && '\r' !in r
    ensures |r| <= 500
    ensures r == [] || !IsSpace(r[0])
    ensures StartsWith(Strip(Flattened(message)), r)
    ensures var s := Strip(Flattened(message)); |r| == if |s| <= 500 then |s| else 500
  {
    var s := Strip(Flattened(message));
    var r := Prefix(s, 500);
    assert forall i :: 0 <= i < |r| ==> r[i] == s[i] && r[i] in s;
    r
  }

  /** The output record has the arguments' repository and branch, a
      one-line message of at most 500 characters and a short sha. */
  predicate WellShaped(c: Commit, repo: string, branch: string) {
    && c.repository == repo
    && c.branch == Some(branch)
    && '\n' !in c.message && '\r' !in c.message
    && |c.message| <= 500
    && |c.sha| <= 8
    && c.stats.None?
  }

  /** One decoded record as an output record, or `None` when it is
      malformed, lacks a key, or is a merge commit that is to be dropped. */
  function ShapeRecord(cfg: CollectionConfig, repo: string, branch: string, raw: RawCommit): (r: Option<Commit>)
    ensures r.Some? <==>
      && raw.Decoded?
      && raw.message.Some? && raw.author.Some? && raw.date.Some? && raw.sha.Some?
      && !(cfg.excludeMergeCommits && StartsWith(raw.message.value, "Merge"))
    ensures r.Some? ==> (
      && WellShaped(r.value, repo, branch)
      && r.value.timestamp == raw.date.value && r.value.author == raw.author.value
      && r.value.message == ShapeMessage(raw.message.value)
      && r.value.sha == Prefix(raw.sha.value, 8))
  {
    match raw
    case Malformed => None
    case Decoded(message, author, date, sha) =>
      if message.None? || author.None? || date.None? || sha.None? then None
      else if cfg.excludeMergeCommits && StartsWith(message.value, "Merge") then None
      else Some(Commit(date.value, repo, Some(branch), ShapeMessage(message.value), author.value, Prefix(sha.value, 8), None))
  }

  /** What one output line contributes: nothing when blank, else its record. */
  function ShapeLine(cfg: CollectionConfig, decode: string -> RawCommit, repo: string, branch: string, line: string): Option<Commit> {
    if Blank(line) then None else ShapeRecord(cfg, repo, branch, decode(line))
  }

  /** The records of the non-blank lines, in line order, skipping the ones
      that do not shape. */
  function ShapeLines(cfg: CollectionConfig, decode: string -> RawCommit, repo: string, branch: string, lines: seq<string>): (r: seq<Commit>)
    ensures |r| <= |lines|
    ensures forall i :: 0 <= i < |r| ==> WellShaped(r[i], repo, branch)
  {
    if lines == [] then []
    else
      var front := ShapeLines(cfg, decode, repo, branch, lines[..|lines| - 1]);
      match ShapeLine(cfg, decode, repo, branch, lines[|lines| - 1])
      case None => front
      case Some(c) => front + [c]
  }

  lemma ShapeLinesSnoc(cfg: CollectionConfig, decode: string -> RawCommit, repo: string, branch: string, lines: seq<string>, line: string)
    ensures ShapeLines(cfg, decode, repo, branch, lines + [line]) ==
      ShapeLines(cfg, decode, repo, branch, lines) +
      (match ShapeLine(cfg, decode, repo, branch, line) case None => [] case Some(c) => [c])
  {
    assert (lines + [line])[..|lines|] == lines;
  }

  /** Lines are shaped independently of each other. */
  lemma {:induction false} ShapeLinesAppend(cfg: CollectionConfig, decode: string -> RawCommit, repo: string, branch: string, a: seq<string>, b: seq<string>)
    ensures ShapeLines(cfg, decode, repo, branch, a + b) ==
      ShapeLines(cfg, decode, repo, branch, a) + ShapeLines(cfg, decode, repo, branch, b)
    decreases |b|
  {
    if b == [] {
      assert a + b == a;
    } else {
      var f := b[..|b| - 1];
      var x := b[|b| - 1];
      assert b == f + [x];
      assert a + b == (a + f) + [x];
      ShapeLinesAppend(cfg, decode, repo, branch, a, f);
      ShapeLinesSnoc(cfg, decode, repo, branch, a + f, x);
      ShapeLinesSnoc(cfg, decode, repo, branch, f, x);
    }
  }

  /** A line that does not decode is skipped and the lines after it are
      still shaped. */
  lemma MalformedLineSkipped(cfg: CollectionConfig, decode: string -> RawCommit, repo: string, branch: string, a: seq<string>, line: string, b: seq<string>)
    requires decode(line) == Malformed
    ensures ShapeLines(cfg, decode, repo, branch, a + [line] + b) ==
      ShapeLines(cfg, decode, repo, branch, a) + ShapeLines(cfg, decode, repo, branch, b)
  {
    ShapeLinesAppend(cfg, decode, repo, branch, a + [line], b);
    ShapeLinesSnoc(cfg, decode, repo, branch, a, line);
  }

  /** The commits of one branch: none when the call fails or prints nothing. */
  function BranchCommits(cfg: CollectionConfig, env: Env, repo: string, branch: string): seq<Commit> {
    match env.remote(CommitsCommand(cfg, repo, branch), cfg.timeoutSeconds)
    case Err(_) => []
    case Ok(out) => if Strip(out) == [] then [] else ShapeLines(cfg, env.decodeCommit, repo, branch, Lines(out))
  }

  /** Shapes the lines one by one, in order. */
  method ShapeEachLine(cfg: CollectionConfig, decode: string -> RawCommit, repo: string, branch: string, lines: seq<string>)
    returns (commits: seq<Commit>)
    ensures commits == ShapeLines(cfg, decode, repo, branch, lines)
  {
    commits := [];
    for i := 0 to |lines|
      invariant commits == ShapeLines(cfg, decode, repo, branch, lines[..i])
    {
      var line := lines[i];
      assert lines[..i + 1] == lines[..i] + [line];
      ShapeLinesSnoc(cfg, decode, repo, branch, lines[..i], line);
      if !Blank(line) {
        var record := ShapeRecord(cfg, repo, branch, decode(line));
        if record.Some? {
          commits := commits + [record.value];
        }
      }
    }
    assert lines[..|lines|] == lines;
  }

  method GetCommitsForBranch(cfg: CollectionConfig, env: Env, repo: string, branch: string) returns (commits: seq<Commit>)
    ensures commits == BranchCommits(cfg, env, repo, branch)
    ensures forall i :: 0 <= i < |commits| ==> WellShaped(commits[i], repo, branch)
    ensures env.remote(CommitsCommand(cfg, repo, branch), cfg.timeoutSeconds).Err? ==> commits == []
  {
    var cmd := BuildCommitsCommand(cfg, repo, branch);
    var reply := env.remote(cmd, cfg.timeoutSeconds);
    if reply.Err? {
      return [];
    }
    var stdout := reply.value;
    if Strip(stdout) == [] {
      return [];
    }
    commits := ShapeEachLine(cfg, env.decodeCommit, repo, branch, Lines(stdout));
  }

  // ---------------------------------------------------------------------
  // Commit statistics

  /** The listing that expands an abbreviated sha. */
  function FullShaCommand(org: string, repo: string, short: string): seq<string> {
    ["gh", "api", "/repos/" + org + "/" + repo + "/commits",
     "--jq", ".[] | select(.sha | startswith(\"" + short + "\")) | .sha"]
  }

  /** A sha of seven or more characters is used as is; a shorter one is
      expanded to the first line of the listing, or kept when the listing
      fails or is blank. */
  function GetFullSha(cfg: CollectionConfig, env: Env, repo: string, short: string): (full: string)
    ensures |short| >= 7 ==> full == short
    ensures full != short ==> (exists out ::
      && env.remote(FullShaCommand(cfg.organization, repo, short), 10) == Ok(out)
      && Strip(out) != []
      && full == Lines(out)[0])
    ensures |short| < 7 && env.remote(FullShaCommand(cfg.organization, repo, short), 10).Err? ==> full == short
    ensures |short| < 7 ==> forall out :: env.remote(FullShaCommand(cfg.organization, repo, short), 10) == Ok(out) ==>
      full == if Strip(out) != [] then Lines(out)[0] else short
  {
    if |short| >= 7 then short
    else
      match env.remote(FullShaCommand(cfg.organization, repo, short), 10)
      case Err(_) => short
      case Ok(out) => if Strip(out) != [] then Lines(out)[0] else short
  }

  /** The sha the statistics are asked for: abbreviations of at most eight
      characters go through `GetFullSha`. */
  function StatsSha(cfg: CollectionConfig, env: Env, repo: string, sha: string): string {
    if |sha| <= 8 then GetFullSha(cfg, env, repo, sha) else sha
  }

  function StatsCommand(org: string, repo: string, fullSha: string): seq<string> {
    ["gh", "api", "/repos/" + org + "/" + repo + "/commits/" + fullSha, "--jq", StatsJq]
  }

  /** The reply to the statistics query of a commit. */
  function StatsReply(cfg: CollectionConfig, env: Env, repo: string, sha: string): Result<string, ApiError> {
    env.remote(StatsCommand(cfg.organization, repo, StatsSha(cfg, env, repo, sha)), 15)
  }

  const ZeroStats: RawStats := RawStats(Some(0), Some(0), Some(0))

  /** The statistics of a commit; zeros when statistics are off, the query
      fails, prints nothing or prints something that does not decode. */
  function GetCommitStats(cfg: CollectionConfig, env: Env, repo: string, sha: string): (stats: RawStats)
    ensures !cfg.includeStats ==> stats == ZeroStats
    ensures StatsReply(cfg, env, repo, sha).Err? ==> stats == ZeroStats
    ensures forall out :: StatsReply(cfg, env, repo, sha) == Ok(out) ==>
      stats == if !cfg.includeStats || Strip(out) == [] || env.decodeStats(Strip(out)).None? then ZeroStats
               else env.decodeStats(Strip(out)).value
  {
    if !cfg.includeStats then ZeroStats
    else
      match StatsReply(cfg, env, repo, sha)
      case Err(_) => ZeroStats
      case Ok(out) =>
        if Strip(out) == [] then ZeroStats
        else
          match env.decodeStats(Strip(out))
          case None => ZeroStats
          case Some(st) => st
  }

  /** `stats.get(key, 0)` for the three counters. */
  function ToStats(raw: RawStats): (st: Stats)
    ensures raw.additions.Some? ==> st.additions == raw.additions.value
    ensures raw.additions.None? ==> st.additions == 0
    ensures raw.deletions.Some? ==> st.deletions == raw.deletions.value
    ensures raw.deletions.None? ==> st.deletions == 0
    ensures raw.total.Some? ==> st.totalChanges == raw.total.value
    ensures raw.total.None? ==> st.totalChanges == 0
  {
    Stats(raw.additions.GetOr(0), raw.deletions.GetOr(0), raw.total.GetOr(0))
  }

  // ---------------------------------------------------------------------
  // Deduplication across branches

  function ShaSet(s: seq<Commit>): set<string> {
    set i | 0 <= i < |s| :: s[i].sha
  }

  lemma ShaSetSnoc(s: seq<Commit>, c: Commit)
    ensures ShaSet(s + [c]) == ShaSet(s) + {c.sha}
  {
    var t := s + [c];
    assert forall i :: 0 <= i < |s| ==> t[i] == s[i];
    assert t[|s|] == c;
  }

  /** The first record of `s` with sha `h`. */
  function FirstWithSha(s: seq<Commit>, h: string): (c: Commit)
    requires h in ShaSet(s)
    ensures c in s && c.sha == h
    ensures exists k :: 0 <= k < |s| && s[k] == c && forall j :: 0 <= j < k ==> s[j].sha != h
  {
    var front := s[..|s| - 1];
    ShaSetSnoc(front, s[|s| - 1]);
    assert s == front + [s[|s| - 1]];
    if h in ShaSet(front) then
      var c := FirstWithSha(front, h);
      var k :| 0 <= k < |front| && front[k] == c && forall j :: 0 <= j < k ==> front[j].sha != h;
      assert s[k] == c && forall j :: 0 <= j < k ==> s[j] == front[j];
      c
    else
      assert forall j :: 0 <= j < |front| ==> front[j].sha in ShaSet(front);
      s[|s| - 1]
  }

  /** Keeps the first record of every sha, in order. */
  function Dedup(s: seq<Commit>): seq<Commit> {
    if s == [] then []
    else
      var front := s[..|s| - 1];
      var c := s[|s| - 1];
      if c.sha in ShaSet(front) then Dedup(front) else Dedup(front) + [c]
  }

  /** Deduplication loses no sha. */
  lemma {:induction false} DedupShaSet(s: seq<Commit>)
    ensures ShaSet(Dedup(s)) == ShaSet(s)
  {
    if s != [] {
      var front := s[..|s| - 1];
      var c := s[|s| - 1];
      assert s == front + [c];
      DedupShaSet(front);
      ShaSetSnoc(front, c);
      ShaSetSnoc(Dedup(front), c);
    }
  }

  /** No sha is kept twice. */
  lemma {:induction false} DedupDistinct(s: seq<Commit>)
    ensures forall i, j :: 0 <= i < j < |Dedup(s)| ==> Dedup(s)[i].sha != Dedup(s)[j].sha
  {
    if s != [] {
      var front := s[..|s| - 1];
      var c := s[|s| - 1];
      var d := Dedup(front);
      DedupDistinct(front);
      DedupShaSet(front);
      if c.sha !in ShaSet(front) {
        assert forall i :: 0 <= i < |d| ==> d[i].sha in ShaSet(d);
      }
    }
  }

  /** Every kept record is the first one of its sha. */
  lemma {:induction false} DedupKeepsFirst(s: seq<Commit>)
    ensures forall i :: 0 <= i < |Dedup(s)| ==>
      Dedup(s)[i].sha in ShaSet(s) && Dedup(s)[i] == FirstWithSha(s, Dedup(s)[i].sha)
  {
    if s != [] {
      var front := s[..|s| - 1];
      var c := s[|s| - 1];
      var d := Dedup(front);
      assert s == front + [c];
      DedupKeepsFirst(front);
      DedupShaSet(front);
      ShaSetSnoc(front, c);
      forall i | 0 <= i < |Dedup(s)|
        ensures Dedup(s)[i].sha in ShaSet(s) && Dedup(s)[i] == FirstWithSha(s, Dedup(s)[i].sha)
      {
        if i < |d| {
          assert Dedup(s)[i] == d[i];
          assert d[i].sha in ShaSet(front);
        } else {
          assert Dedup(s)[i] == c && c.sha !in ShaSet(front);
        }
      }
    }
  }

  lemma DedupSnoc(s: seq<Commit>, c: Commit)
    ensures Dedup(s + [c]) == if c.sha in ShaSet(s) then Dedup(s) else Dedup(s) + [c]
  {
    assert (s + [c])[..|s|] == s;
  }

  /** The kept records appear in `s` in the same order. */
  lemma {:induction false} DedupSubseq(s: seq<Commit>)
    ensures Subseq(Dedup(s), s)
  {
    if s != [] {
      var front := s[..|s| - 1];
      var c := s[|s| - 1];
      assert s == front + [c];
      DedupSubseq(front);
      SubseqExtend(Dedup(front), front, c);
      DedupSnoc(front, c);
    }
  }

  /** Records listed under an earlier branch win over the same sha listed
      under a later one. */
  lemma {:induction false} FirstWithShaAppend(a: seq<Commit>, b: seq<Commit>, h: string)
    requires h in ShaSet(a)
    ensures h in ShaSet(a + b) && FirstWithSha(a + b, h) == FirstWithSha(a, h)
    decreases |b|
  {
    if b == [] {
      assert a + b == a;
    } else {
      var f := b[..|b| - 1];
      var x := b[|b| - 1];
      assert a + b == (a + f) + [x];
      FirstWithShaAppend(a, f, h);
      ShaSetSnoc(a + f, x);
    }
  }

  // ---------------------------------------------------------------------
  // Commits of a repository

  /** A record with its statistics attached when statistics are on. */
  function WithStats(cfg: CollectionConfig, env: Env, repo: string, c: Commit): Commit {
    if cfg.includeStats then c.(stats := Some(ToStats(GetCommitStats(cfg, env, repo, c.sha)))) else c
  }

  function AttachAll(cfg: CollectionConfig, env: Env, repo: string, s: seq<Commit>): seq<Commit> {
    if s == [] then [] else AttachAll(cfg, env, repo, s[..|s| - 1]) + [WithStats(cfg, env, repo, s[|s| - 1])]
  }

  /** Attaching statistics keeps every record in its place and changes
      nothing but its statistics. */
  lemma {:induction false} AttachAllAt(cfg: CollectionConfig, env: Env, repo: string, s: seq<Commit>)
    ensures |AttachAll(cfg, env, repo, s)| == |s|
    ensures forall i :: 0 <= i < |s| ==> AttachAll(cfg, env, repo, s)[i] == WithStats(cfg, env, repo, s[i])
    ensures forall i :: 0 <= i < |s| ==> AttachAll(cfg, env, repo, s)[i] == s[i].(stats := AttachAll(cfg, env, repo, s)[i].stats)
    ensures forall i :: 0 <= i < |s| ==> (AttachAll(cfg, env, repo, s)[i].stats.Some? <==> cfg.includeStats || s[i].stats.Some?)
  {
    if s != [] {
      AttachAllAt(cfg, env, repo, s[..|s| - 1]);
    }
  }

  lemma AttachAllSnoc(cfg: CollectionConfig, env: Env, repo: string, s: seq<Commit>, c: Commit)
    ensures AttachAll(cfg, env, repo, s + [c]) == AttachAll(cfg, env, repo, s) + [WithStats(cfg, env, repo, c)]
  {
    assert (s + [c])[..|s|] == s;
  }

  /** The commit lists of the given branches, in branch order. */
  function BranchLists(cfg: CollectionConfig, env: Env, repo: string, branches: seq<string>): seq<seq<Commit>> {
    Map(b => BranchCommits(cfg, env, repo, b), branches)
  }

  /** The branch commits of a repository, one record per sha (the first
      listed), statistics attached. */
  function RepoCommits(cfg: CollectionConfig, env: Env, repo: string): seq<Commit> {
    AttachAll(cfg, env, repo, Dedup(Flatten(BranchLists(cfg, env, repo, RepoBranches(cfg, env, repo)))))
  }

  lemma BranchCommitsShaped(cfg: CollectionConfig, env: Env, repo: string, branch: string)
    ensures forall i :: 0 <= i < |BranchCommits(cfg, env, repo, branch)| ==>
      WellShaped(BranchCommits(cfg, env, repo, branch)[i], repo, branch)
  {
  }

  /** Records of `repo` that carry no statistics yet. */
  predicate FromRepo(s: seq<Commit>, repo: string) {
    forall i :: 0 <= i < |s| ==> s[i].repository == repo && s[i].stats.None?
  }

  lemma FromRepoAppend(a: seq<Commit>, b: seq<Commit>, repo: string)
    requires FromRepo(a, repo) && FromRepo(b, repo)
    ensures FromRepo(a + b, repo)
  {
  }

  lemma {:induction false} BranchListsFromRepo(cfg: CollectionConfig, env: Env, repo: string, branches: seq<string>)
    ensures FromRepo(Flatten(BranchLists(cfg, env, repo, branches)), repo)
  {
    if branches != [] {
      var n := |branches| - 1;
      var f := br => BranchCommits(cfg, env, repo, br);
      BranchListsFromRepo(cfg, env, repo, branches[..n]);
      MapTakeSnoc(f, branches, n);
      assert branches[..n + 1] == branches;
      FlattenSnoc(Map(f, branches[..n]), f(branches[n]));
      BranchCommitsShaped(cfg, env, repo, branches[n]);
      FromRepoAppend(Flatten(Map(f, branches[..n])), f(branches[n]), repo);
    }
  }

  lemma {:induction false} DedupFromRepo(s: seq<Commit>, repo: string)
    requires FromRepo(s, repo)
    ensures FromRepo(Dedup(s), repo)
  {
    if s != [] {
      DedupFromRepo(s[..|s| - 1], repo);
    }
  }

  /** Every record of a repository belongs to it, no sha appears twice, and
      statistics are present exactly when they are asked for. */
  lemma RepoCommitsShape(cfg: CollectionConfig, env: Env, repo: string)
    ensures forall i :: 0 <= i < |RepoCommits(cfg, env, repo)| ==>
      RepoCommits(cfg, env, repo)[i].repository == repo
      && (RepoCommits(cfg, env, repo)[i].stats.Some? <==> cfg.includeStats)
    ensures forall i, j :: 0 <= i < j < |RepoCommits(cfg, env, repo)| ==>
      RepoCommits(cfg, env, repo)[i].sha != RepoCommits(cfg, env, repo)[j].sha
  {
    var all := Flatten(BranchLists(cfg, env, repo, RepoBranches(cfg, env, repo)));
    BranchListsFromRepo(cfg, env, repo, RepoBranches(cfg, env, repo));
    DedupFromRepo(all, repo);
    DedupDistinct(all);
    AttachAllAt(cfg, env, repo, Dedup(all));
  }

  /** Attaches the statistics of the commit when statistics are on. */
  method AttachStats(cfg: CollectionConfig, env: Env, repo: string, commit: Commit) returns (c: Commit)
    ensures c == WithStats(cfg, env, repo, commit)
  {
    c := commit;
    if cfg.includeStats {
      var stats := GetCommitStats(cfg, env, repo, commit.sha);
      c := commit.(stats := Some(ToStats(stats)));
    }
  }

  /** One record more: a seen sha changes nothing, a new one is kept. */
  lemma MergeStep(cfg: CollectionConfig, env: Env, repo: string, done: seq<Commit>,
                  seen: set<string>, all: seq<Commit>, commit: Commit)
    requires seen == ShaSet(done)
    requires all == AttachAll(cfg, env, repo, Dedup(done))
    ensures commit.sha in seen ==>
      seen == ShaSet(done + [commit]) && all == AttachAll(cfg, env, repo, Dedup(done + [commit]))
    ensures commit.sha !in seen ==>
      && seen + {commit.sha} == ShaSet(done + [commit])
      && all + [WithStats(cfg, env, repo, commit)] == AttachAll(cfg, env, repo, Dedup(done + [commit]))
  {
    DedupSnoc(done, commit);
    ShaSetSnoc(done, commit);
    AttachAllSnoc(cfg, env, repo, Dedup(done), commit);
  }

  /** Adds the records of one more branch, skipping shas already seen and
      attaching statistics to the new ones. */
  method MergeBranch(cfg: CollectionConfig, env: Env, repo: string, ghost processed: seq<Commit>,
                     seen: set<string>, all: seq<Commit>, branchCommits: seq<Commit>)
    returns (seen': set<string>, all': seq<Commit>)
    requires seen == ShaSet(processed)
    requires all == AttachAll(cfg, env, repo, Dedup(processed))
    ensures seen' == ShaSet(processed + branchCommits)
    ensures all' == AttachAll(cfg, env, repo, Dedup(processed + branchCommits))
  {
    seen', all' := seen, all;
    ghost var done := processed;
    for j := 0 to |branchCommits|
      invariant done == processed + branchCommits[..j]
      invariant seen' == ShaSet(done)
      invariant all' == AttachAll(cfg, env, repo, Dedup(done))
    {
      var commit := branchCommits[j];
      MergeStep(cfg, env, repo, done, seen', all', commit);
      TakeSnoc(branchCommits, j);
      if commit.sha !in seen' {
        seen' := seen' + {commit.sha};
        var c := AttachStats(cfg, env, repo, commit);
        all' := all' + [c];
      }
      done := done + [commit];
    }
    assert branchCommits[..|branchCommits|] == branchCommits;
  }

  method GetCommitsForRepo(cfg: CollectionConfig, env: Env, repo: string) returns (all: seq<Commit>)
    ensures all == RepoCommits(cfg, env, repo)
  {
    var branches := RepoBranches(cfg, env, repo);
    all := [];
    var seen: set<string> := {};
    ghost var processed: seq<Commit> := [];
    for b := 0 to |branches|
      invariant processed == Flatten(BranchLists(cfg, env, repo, branches[..b]))
      invariant seen == ShaSet(processed)
      invariant all == AttachAll(cfg, env, repo, Dedup(processed))
    {
      var branchCommits := GetCommitsForBranch(cfg, env, repo, branches[b]);
      seen, all := MergeBranch(cfg, env, repo, processed, seen, all, branchCommits);
      MapTakeSnoc(br => BranchCommits(cfg, env, repo, br), branches, b);
      FlattenSnoc(BranchLists(cfg, env, repo, branches[..b]), branchCommits);
      processed := processed + branchCommits;
    }
    assert branches[..|branches|] == branches;
  }

  // ---------------------------------------------------------------------
  // Collecting an organization

  /** The repositories to visit: the given list, or else the organization's. */
  function Repositories(cfg: CollectionConfig, env: Env, explicit: Option<seq<string>>): (r: Result<seq<string>, ApiError>)
    ensures explicit.Some? ==> r == Ok(explicit.value)
    ensures explicit.None? ==> r == GetRepositories(cfg, env)
  {
    match explicit
    case Some(repos) => Ok(repos)
    case None => GetRepositories(cfg, env)
  }

  lemma MulNonneg(a: nat, b: nat)
    ensures a * b >= 0
  {
  }

  /** Quotients are unique. */
  lemma DivUnique(y: nat, d: nat, k: nat, r: nat)
    requires d > 0 && r < d && y == d * k + r
    ensures y / d == k
  {
    var k', r' := y / d, y % d;
    assert y == d * k' + r';
    if k' > k {
      MulNonneg(d, k' - k - 1);
    } else if k' < k {
      MulNonneg(d, k - k' - 1);
    }
  }

  lemma DivStep(x: nat, d: nat)
    requires d > 0
    ensures (x + d) / d == x / d + 1
  {
    var q, r := x / d, x % d;
    assert x == d * q + r;
    assert x + d == d * (q + 1) + r;
    DivUnique(x + d, d, q + 1, r);
  }

  lemma DivOne(x: nat, d: nat)
    requires 0 < d <= x < 2 * d
    ensures x / d == 1
  {
    DivUnique(x, d, 1, x - d);
  }

  /** `repos[i:i + size]` for `i` in `range(0, len(repos), size)`. */
  function Batches(repos: seq<string>, size: nat): seq<seq<string>>
    requires size > 0
    decreases |repos|
  {
    if repos == [] then []
    else if |repos| <= size then [repos]
    else [repos[..size]] + Batches(repos[size..], size)
  }

  /** Together the batches are the repository list, in order. */
  lemma {:induction false} BatchesCover(repos: seq<string>, size: nat)
    requires size > 0
    ensures Flatten(Batches(repos, size)) == repos
    decreases |repos|
  {
    if repos == [] {
    } else if |repos| <= size {
      FlattenSnoc([], repos);
      assert [] + [repos] == [repos];
    } else {
      BatchesCover(repos[size..], size);
      FlattenCons(repos[..size], Batches(repos[size..], size));
      assert repos == repos[..size] + repos[size..];
    }
  }

  /** Every batch is non-empty and holds at most `size` repositories, and
      all but the last hold exactly `size`. */
  lemma {:induction false} BatchesSizes(repos: seq<string>, size: nat)
    requires size > 0
    ensures forall k :: 0 <= k < |Batches(repos, size)| ==> 0 < |Batches(repos, size)[k]| <= size
    ensures forall k :: 0 <= k < |Batches(repos, size)| - 1 ==> |Batches(repos, size)[k]| == size
    decreases |repos|
  {
    if |repos| > size {
      BatchesSizes(repos[size..], size);
      var bs := Batches(repos, size);
      var rest := Batches(repos[size..], size);
      assert forall k :: 0 < k < |bs| ==> bs[k] == rest[k - 1];
    }
  }

  /** There are ceil(n / size) batches. */
  lemma {:induction false} BatchesCount(repos: seq<string>, size: nat)
    requires size > 0
    ensures |Batches(repos, size)| == (|repos| + size - 1) / size
    decreases |repos|
  {
    if repos == [] {
      DivUnique(size - 1, size, 0, size - 1);
    } else if |repos| <= size {
      DivOne(|repos| + size - 1, size);
    } else {
      BatchesCount(repos[size..], size);
      DivStep(|repos| - 1, size);
      assert |repos| - 1 == |repos[size..]| + size - 1;
    }
  }

  function Min(a: int, b: int): int {
    if a <= b then a else b
  }

  /** The batch starting at `p` is the next one the batching produces. */
  lemma BatchesFrom(repos: seq<string>, size: nat, p: nat)
    requires size > 0 && p < |repos|
    ensures Batches(repos[p..], size) ==
      [repos[p..Min(p + size, |repos|)]] + Batches(repos[Min(p + size, |repos|)..], size)
  {
    var t := repos[p..];
    if |t| <= size {
      assert repos[Min(p + size, |repos|)..] == [];
      assert repos[p..Min(p + size, |repos|)] == t;
    } else {
      assert t[..size] == repos[p..p + size];
      assert t[size..] == repos[p + size..];
    }
  }

  /** The commits of the given repositories, repository after repository. */
  function AllRepoCommits(cfg: CollectionConfig, env: Env, repos: seq<string>): seq<Commit> {
    Flatten(Map(repo => RepoCommits(cfg, env, repo), repos))
  }

  lemma AllRepoCommitsAppend(cfg: CollectionConfig, env: Env, a: seq<string>, b: seq<string>)
    ensures AllRepoCommits(cfg, env, a + b) == AllRepoCommits(cfg, env, a) + AllRepoCommits(cfg, env, b)
  {
    var f := repo => RepoCommits(cfg, env, repo);
    MapAppend(f, a, b);
    FlattenAppend(Map(f, a), Map(f, b));
  }

  /** As many commits as the repositories' lists hold together. */
  lemma AllRepoCommitsLength(cfg: CollectionConfig, env: Env, repos: seq<string>)
    ensures |AllRepoCommits(cfg, env, repos)| == TotalLength(Map(repo => RepoCommits(cfg, env, repo), repos))
  {
    FlattenLength(Map(repo => RepoCommits(cfg, env, repo), repos));
  }

  /** Newest first: string order of the ISO timestamps. */
  predicate TimestampLe(a: Commit, b: Commit) {
    LexLe(a.timestamp, b.timestamp)
  }

  lemma TimestampOrder()
    ensures Total(TimestampLe) && Transitive(TimestampLe)
  {
    forall a: Commit, b: Commit
      ensures TimestampLe(a, b) || TimestampLe(b, a)
    {
      LexLeTotal(a.timestamp, b.timestamp);
    }
    forall a: Commit, b: Commit, c: Commit | TimestampLe(a, b) && TimestampLe(b, c)
      ensures TimestampLe(a, c)
    {
      LexLeTransitive(a.timestamp, b.timestamp, c.timestamp);
    }
  }

  datatype CollectError =
    | RepositoryDiscoveryFailed(cause: ApiError)
    | InvalidBatchSize
    | InvalidWorkerCount

  /** One repository more. */
  lemma AllRepoCommitsSnoc(cfg: CollectionConfig, env: Env, batch: seq<string>, k: nat,
                           commits: seq<Commit>, repoCommits: seq<Commit>)
    requires k < |batch|
    requires commits == AllRepoCommits(cfg, env, batch[..k])
    requires repoCommits == RepoCommits(cfg, env, batch[k])
    ensures commits + repoCommits == AllRepoCommits(cfg, env, batch[..k + 1])
  {
    FlattenMapTakeSnoc(repo => RepoCommits(cfg, env, repo), batch, k);
  }

  /** Collects the commits of one batch, repository after repository. */
  method CollectBatch(cfg: CollectionConfig, env: Env, batch: seq<string>) returns (commits: seq<Commit>)
    ensures commits == AllRepoCommits(cfg, env, batch)
  {
    commits := [];
    for k := 0 to |batch|
      invariant commits == AllRepoCommits(cfg, env, batch[..k])
    {
      var repoCommits := GetCommitsForRepo(cfg, env, batch[k]);
      AllRepoCommitsSnoc(cfg, env, batch, k, commits, repoCommits);
      commits := commits + repoCommits;
    }
    assert batch[..|batch|] == batch;
  }

  /** One batch more: the batch from `p` up to `q` is the next one. */
  lemma BatchAdvance(repos: seq<string>, size: nat, p: nat, q: nat, batches: seq<seq<string>>)
    requires size > 0 && p < |repos| && q == Min(p + size, |repos|)
    requires batches + Batches(repos[p..], size) == Batches(repos, size)
    ensures (batches + [repos[p..q]]) + Batches(repos[q..], size) == Batches(repos, size)
  {
    BatchesFrom(repos, size, p);
  }

  /** The commits of the repositories before `q` are those before `p`
      followed by those from `p` up to `q`. */
  lemma AllRepoCommitsStep(cfg: CollectionConfig, env: Env, repos: seq<string>, p: nat, q: nat,
                           all: seq<Commit>, commits: seq<Commit>)
    requires p <= q <= |repos|
    requires all == AllRepoCommits(cfg, env, repos[..p])
    requires commits == AllRepoCommits(cfg, env, repos[p..q])
    ensures all + commits == AllRepoCommits(cfg, env, repos[..q])
  {
    assert repos[..p] + repos[p..q] == repos[..q];
    AllRepoCommitsAppend(cfg, env, repos[..p], repos[p..q]);
  }

  /** Runs the batches of `size` repositories in order; with no worker
      allowed, the first batch fails. */
  method CollectBatches(cfg: CollectionConfig, env: Env, repos: seq<string>, size: nat)
    returns (failed: bool, all: seq<Commit>, ghost batches: seq<seq<string>>)
    requires size > 0
    ensures failed <==> repos != [] && cfg.maxWorkers <= 0
    ensures !failed ==> batches == Batches(repos, size) && all == AllRepoCommits(cfg, env, repos)
  {
    failed, all, batches := false, [], [];
    var p := 0;
    while p < |repos|
      invariant p <= |repos|
      invariant batches + Batches(repos[p..], size) == Batches(repos, size)
      invariant all == AllRepoCommits(cfg, env, repos[..p])
      invariant p > 0 ==> cfg.maxWorkers > 0
      decreases |repos| - p
    {
      if cfg.maxWorkers <= 0 {
        return true, all, batches;
      }
      var q := Min(p + size, |repos|);
      var commits := CollectBatch(cfg, env, repos[p..q]);
      BatchAdvance(repos, size, p, q, batches);
      AllRepoCommitsStep(cfg, env, repos, p, q, all, commits);
      batches := batches + [repos[p..q]];
      all := all + commits;
      p := q;
    }
    assert repos[p..] == [] && repos[..p] == repos;
  }

  /** The commits of every repository, newest first. A failed discovery,
      a batch size of zero and a non-positive worker count (once there is
      a batch to run) are errors; a negative batch size runs no batch. */
  method CollectAllCommits(cfg: CollectionConfig, env: Env, explicit: Option<seq<string>>)
    returns (r: Result<seq<Commit>, CollectError>, ghost batches: seq<seq<string>>)
    ensures Repositories(cfg, env, explicit).Err? ==>
      r == Err(RepositoryDiscoveryFailed(Repositories(cfg, env, explicit).error))
    ensures Repositories(cfg, env, explicit).Ok? && cfg.batchSize == 0 ==> r == Err(InvalidBatchSize)
    ensures Repositories(cfg, env, explicit).Ok? && cfg.batchSize < 0 ==> r == Ok([])
    ensures Repositories(cfg, env, explicit).Ok? && cfg.batchSize > 0 ==>
      var repos := Repositories(cfg, env, explicit).value;
      if repos != [] && cfg.maxWorkers <= 0 then r == Err(InvalidWorkerCount)
      else
        && r.Ok?
        && batches == Batches(repos, cfg.batchSize)
        && multiset(r.value) == multiset(AllRepoCommits(cfg, env, repos))
        && SortedDesc(r.value, TimestampLe)
  {
    batches := [];
    var discovered := Repositories(cfg, env, explicit);
    if discovered.Err? {
      return Err(RepositoryDiscoveryFailed(discovered.error)), batches;
    }
    var repos := discovered.value;
    var size := cfg.batchSize;
    if size == 0 {
      return Err(InvalidBatchSize), batches;
    }
    var all: seq<Commit> := [];
    if size > 0 {
      var failed;
      failed, all, batches := CollectBatches(cfg, env, repos, size);
      if failed {
        return Err(InvalidWorkerCount), batches;
      }
    }
    TimestampOrder();
    r := Ok(SortDesc(all, TimestampLe));
  }
}
