/** The collection configuration, its validation, the command templates
    and constants it defines, and the default output file name. */
module Config {
  import opened Wrappers
  import opened Strings
  import Seqs

  datatype CollectionConfig = CollectionConfig(
    organization: string,
    sinceDate: string,
    untilDate: Option<string>,
    includeStats: bool,
    includeAllBranches: bool,
    authorFilter: Option<string>,
    excludeMergeCommits: bool,
    maxWorkers: int,
    batchSize: int,
    timeoutSeconds: int)

  datatype ConfigError = OrganizationRequired | InvalidSinceDate | InvalidUntilDate

  /** Python truthiness of an optional string: present and non-empty. */
  predicate Truthy(o: Option<string>) {
    o.Some? && o.value != []
  }

  /** The text handed to the ISO-8601 parser: every `Z` becomes `+00:00`. */
  function IsoInput(date: string): string {
    ReplaceCharWith(date, 'Z', "+00:00")
  }

  /** The checks made when a configuration is built. `isIsoDate` stands for
      "the ISO-8601 parser accepts this text". The until date is checked only
      when it is truthy, and the two dates are never compared. */
  function Validate(cfg: CollectionConfig, isIsoDate: string -> bool): (r: Result<CollectionConfig, ConfigError>)
    ensures r.Ok? <==>
      && cfg.organization != []
      && isIsoDate(IsoInput(cfg.sinceDate))
      && (Truthy(cfg.untilDate) ==> isIsoDate(IsoInput(cfg.untilDate.value)))
    ensures r.Ok? ==> r.value == cfg
    ensures r == Err(OrganizationRequired) <==> cfg.organization == []
    ensures r == Err(InvalidSinceDate) <==> cfg.organization != [] && !isIsoDate(IsoInput(cfg.sinceDate))
    ensures r == Err(InvalidUntilDate) <==>
      && cfg.organization != []
      && isIsoDate(IsoInput(cfg.sinceDate))
      && Truthy(cfg.untilDate) && !isIsoDate(IsoInput(cfg.untilDate.value))
  {
    if cfg.organization == [] then Err(OrganizationRequired)
    else if !isIsoDate(IsoInput(cfg.sinceDate)) then Err(InvalidSinceDate)
    else if Truthy(cfg.untilDate) && !isIsoDate(IsoInput(cfg.untilDate.value)) then Err(InvalidUntilDate)
    else Ok(cfg)
  }

  // Command templates of the hosting service's command-line client.
  const ListReposTemplate: seq<string> :=
    ["gh", "repo", "list", "{org}", "--limit", "1000", "--json", "name"]
  const ListBranchesTemplate: seq<string> :=
    ["gh", "api", "/repos/{org}/{repo}/branches", "--jq", ".[].name"]
  /** The keys the commits listing projects every element onto. */
  const CommitsJqFields: string :=
    "message: .commit.message, " + "author: .commit.author.name, " + "date: .commit.author.date, " + "sha: .sha"
  const CommitsJq: string := ".[] | {" + CommitsJqFields + "}"
  const CommitsTemplate: seq<string> :=
    ["gh", "api", "/repos/{org}/{repo}/commits", "--method", "GET", "-f", "sha={branch}",
     "-f", "since={since}", "-f", "per_page=100", "--jq", CommitsJq]
  const StatsJq: string := ".stats | {additions: .additions, deletions: .deletions, total: .total}"

  // CSV field lists.
  const BasicFields: seq<string> := ["timestamp", "repository", "message", "author", "sha"]
  const BranchFields: seq<string> := ["timestamp", "repository", "branch", "message", "author", "sha"]
  const StatsFields: seq<string> :=
    ["timestamp", "repository", "branch", "message", "author", "sha", "additions", "deletions", "total_changes"]

  // Author matching thresholds.
  const SimilarityThreshold: real := 0.7
  const ExactMatchThreshold: real := 0.6

  // Retry policy.
  const RetryAttempts: nat := 3
  const RetryDelay: real := 1.0

  predicate FileNameChar(c: char) {
    IsAlnum(c) || c == '.' || c == '_' || c == '-'
  }

  /** The author filter with every character removed that is not
      alphanumeric or one of `._-`. */
  function AuthorClean(author: string): (r: string)
    ensures forall i :: 0 <= i < |r| ==> FileNameChar(r[i])
    ensures forall i :: 0 <= i < |author| && FileNameChar(author[i]) ==> author[i] in r
    ensures Seqs.Subseq(r, author)
    ensures forall c :: FileNameChar(c) ==> multiset(r)[c] == multiset(author)[c]
    ensures forall c :: !FileNameChar(c) ==> c !in r
  {
    Seqs.FilterSubseq(author, FileNameChar);
    Seqs.FilterMultiset(author, FileNameChar);
    Seqs.Filter(author, FileNameChar)
  }

  /** The parts appended to `<org>_commits`, in the order the source appends
      them, each only under its condition. */
  function FilenameSuffixes(cfg: CollectionConfig): seq<string> {
    (if cfg.sinceDate != [] then ["_" + Prefix(cfg.sinceDate, 4)] else [])
    + (if cfg.includeAllBranches then ["_all_branches"] else [])
    + (if cfg.includeStats then ["_with_stats"] else [])
    + (if Truthy(cfg.authorFilter) then ["_" + AuthorClean(cfg.authorFilter.value)] else [])
  }

  lemma FrameShape(head: string, middle: string, tail: string)
    ensures StartsWith(head + middle + tail, head) && EndsWith(head + middle + tail, tail)
  {
    var s := head + middle + tail;
    assert s == head + (middle + tail);
    assert s[..|head|] == head;
    assert s[|s| - |tail|..] == tail;
  }

  /** One more suffix keeps the name equal to the head and the suffixes
      appended so far. */
  lemma AppendSuffix(baseName: string, head: string, parts: seq<string>, x: string)
    requires baseName == head + Concat(parts)
    ensures baseName + x == head + Concat(parts + [x])
  {
    ConcatSnoc(parts, x);
  }

  /** The name of the CSV file written when none is given. */
  method DefaultOutputFilename(org: string, cfg: CollectionConfig) returns (name: string)
    ensures StartsWith(name, org + "_commits") && EndsWith(name, ".csv")
    ensures name == org + "_commits" + Concat(FilenameSuffixes(cfg)) + ".csv"
  {
    ghost var head := org + "_commits";
    var baseName := org + "_commits";
    ghost var parts: seq<string> := [];
    if cfg.sinceDate != [] {
      var year := Prefix(cfg.sinceDate, 4);
      AppendSuffix(baseName, head, parts, "_" + year);
      baseName := baseName + ("_" + year);
      parts := parts + ["_" + year];
    }
    if cfg.includeAllBranches {
      AppendSuffix(baseName, head, parts, "_all_branches");
      baseName := baseName + "_all_branches";
      parts := parts + ["_all_branches"];
    }
    if cfg.includeStats {
      AppendSuffix(baseName, head, parts, "_with_stats");
      baseName := baseName + "_with_stats";
      parts := parts + ["_with_stats"];
    }
    if Truthy(cfg.authorFilter) {
      var authorClean := AuthorClean(cfg.authorFilter.value);
      AppendSuffix(baseName, head, parts, "_" + authorClean);
      baseName := baseName + ("_" + authorClean);
      parts := parts + ["_" + authorClean];
    }
    assert parts == FilenameSuffixes(cfg);
    name := baseName + ".csv";
    FrameShape(head, Concat(parts), ".csv");
  }
}
