# gh-commit-collector, modelled in Dafny

This project models the core of gh-commit-collector. The tool collects the
commit history of every repository of a GitHub organisation through the
`gh` command-line client. It then filters, summarises and exports that
history. The model covers three source files:

- `config.py`:
  - the collection configuration and its validation;
  - the command templates, CSV field lists and thresholds;
  - the default output file name.
- `github_client.py`:
  - the command runner with its fixed retry budget and linear back-off;
  - repository and branch discovery, with the `main`/`master` fallback;
  - the shaping of each line of the commits listing into a commit record
    (message collapsed to one line, stripped and cut to 500 characters;
    sha cut to 8 characters);
  - per-commit statistics, which degrade to zeros on failure;
  - first-seen-by-sha de-duplication across a repository's branches;
  - the batched collection over all repositories with its final
    newest-first sort.
- `data_processor.py`:
  - fuzzy author filtering through generated name variations;
  - merge-commit exclusion;
  - the statistics summary with its per-repository, per-author and
    per-branch breakdowns;
  - the largest-commits ranking and the per-day timeline;
  - the field selection and rows of the CSV export.

Every call to the outside world is a parameter:

- `Env.remote(cmd, timeout)` is the result of the retrying command runner
  for that command: its standard output or the `GitHubAPIError` it raises.
- `Env.decodeRepos`, `Env.decodeCommit` and `Env.decodeStats` stand for
  `json.loads` followed by the key lookups.
- `ratio` stands for `difflib.SequenceMatcher(None, a, b).ratio()`.
- `isIsoDate` stands for "`datetime.fromisoformat` accepts this text".
- `RunCommand` itself is modelled over the sequence of outcomes its
  attempts would have.

Modules, one per file:

- `Wrappers`: Option and Result.
- `Strings`: the ASCII semantics of the `str` methods used.
- `Seqs`: list comprehensions, subsequences, flattening, `list(set(...))`
  and the descending sort.
- `Records`: the commit record.
- `Counters`: `defaultdict(int)` counting.
- `Config`, `GitHubClient` and `DataProcessor`: one per source file.

## Model

| member | source | states |
|---|---|---|
| Config.Validate | config.py:25-40 | the configuration is accepted iff the organisation is non-empty, the since date parses once `Z` is replaced by `+00:00`, and the until date, when truthy, parses too; each error is reported exactly when its check is the first to fail, in the order organisation, since date, until date; the two dates are never compared |
| Config.AuthorClean | config.py:113 | the cleaned author holds only alphanumeric characters and `.`, `_`, `-`; it is a subsequence of the filter that keeps every such character as often as the filter has it |
| Config.DefaultOutputFilename | config.py:97-116 | the name is `<org>_commits`, then the suffixes for year, all branches, stats and author in that order, then `.csv` |
| GitHubClient.RunCommand | github_client.py:29-57 | between 1 and 3 attempts, every one before the last failed; success iff the last attempt exited with code 0, and then its output is returned; failure iff all three attempts failed, with the error of the third (non-zero exit or timeout); the k-th wait is `1.0 * (k + 1)` seconds and there is one fewer wait than attempts |
| GitHubClient.ListReposCommandIs | github_client.py:61 | the repository listing command is the template with the organisation in place of `{org}` and every other part unchanged |
| GitHubClient.ListBranchesCommandIs | github_client.py:75-76 | the branch listing command has the path `/repos/<org>/<repo>/branches`, and every other part is unchanged |
| GitHubClient.FillCommitPart | github_client.py:96-108 | one part of the commits template: the first of the five placeholder tests that holds decides which values are formatted in, and a part without placeholders is copied; what it gives for each kind of part is stated by PathPart, BranchPart, SincePart, LoneBracePart and PlainCommitPart |
| GitHubClient.CommitsCommand | github_client.py:93-112 | the filled template followed by the until arguments; its contents are stated by CommitsCommandIs |
| GitHubClient.FillCommitParts | github_client.py:93-108 | each template part is filled on its own, the first applicable placeholder rule winning, and the length is kept |
| GitHubClient.PathPart | github_client.py:97-98 | a part holding `{org}` then `{repo}` and no other brace gets both values substituted |
| GitHubClient.BranchPart | github_client.py:103-104 | a part whose only brace opens `{branch}` gets the branch substituted, whatever other text it holds |
| GitHubClient.SincePart | github_client.py:105-106 | a part whose only brace opens `{since}` gets the start date substituted, whatever other text it holds |
| GitHubClient.LoneBracePart | github_client.py:107-108 | a part whose one brace is followed by a letter that starts no placeholder, such as the jq program, is copied |
| GitHubClient.PlainCommitPart | github_client.py:107-108 | a part without braces is copied |
| GitHubClient.CommitsCommandIs | github_client.py:93-112 | the commits command has the path `/repos/<org>/<repo>/commits`, then `sha=<branch>` and `since=<since date>`; every other part is as in the template, the jq program included; then come the until arguments |
| GitHubClient.BuildCommitsCommand | github_client.py:93-112 | the built command is `gh api /repos/<org>/<repo>/commits --method GET -f sha=<branch> -f since=<date> -f per_page=100 --jq <program>`, followed by `-f until=<date>` exactly when the until date is truthy |
| GitHubClient.GetRepositories | github_client.py:59-71 | a failed command is passed on as the error; after a successful command the result is `RepositoryListUnparsable` iff the output does not decode; success only with the decoded names of the command output |
| GitHubClient.StrippedNonBlankNonEmpty | github_client.py:84-85 | one non-blank line is enough for the stripped branch list to be non-empty |
| GitHubClient.NonBlankOutputHasBranch | github_client.py:81-85 | output that is not all whitespace always yields at least one branch, so the second fallback is reached only through the first |
| GitHubClient.GetBranches | github_client.py:73-89 | never empty; a failed command gives `["main", "master"]`; otherwise the stripped non-blank lines, or the defaults if there are none |
| GitHubClient.RepoBranches | github_client.py:204-207 | `["main"]` unless all branches are requested, then the discovered branches |
| GitHubClient.Flattened | github_client.py:134 | no newline and no carriage return remain |
| GitHubClient.ShapeMessage | github_client.py:134 | the shaped message has no line breaks, starts with a non-space, and is the prefix of the stripped one-line message of length `min(500, len)` |
| GitHubClient.ShapeRecord | github_client.py:124-137 | a record is kept iff it has all four keys and is not a merge commit that is being excluded; the kept commit carries the repository and branch, the date as timestamp, the author, the shaped message and the first 8 characters of the sha, without stats |
| GitHubClient.ShapeLine | github_client.py:118-141 | a blank line gives nothing, any other line the shaped record of its decoding; stated through ShapeRecord, ShapeLines and MalformedLineSkipped |
| GitHubClient.ShapeLines | github_client.py:120-141 | at most one commit per line, each well shaped for this repository and branch |
| GitHubClient.ShapeLinesAppend | github_client.py:120-141 | shaping a concatenation of lines is the concatenation of the shapings: lines are handled independently and in order |
| GitHubClient.MalformedLineSkipped | github_client.py:138-140 | a line that does not decode is dropped without affecting its neighbours |
| GitHubClient.ShapeEachLine | github_client.py:120-142 | the loop over the lines yields exactly the shaped lines |
| GitHubClient.BranchCommits | github_client.py:91-146 | the commits of one branch: none when the command fails or prints only whitespace, else the shaped lines; stated by GetCommitsForBranch and RepoCommitsShape |
| GitHubClient.GetCommitsForBranch | github_client.py:91-146 | the branch's commits are the shaped non-blank lines of the output, each well shaped; a failed command yields no commits |
| GitHubClient.GetFullSha | github_client.py:176-196 | a sha of 7 or more characters is kept; a shorter one becomes the first line of a successful lookup with non-blank output, and is kept when the lookup fails or prints only whitespace |
| GitHubClient.GetCommitStats | github_client.py:148-174 | zeros when stats are off or the request fails; otherwise the decoded object of non-blank output, or zeros when it is blank or does not decode |
| GitHubClient.ToStats | github_client.py:224-226 | each missing key of the stats object reads as 0, and each present key is taken as it is |
| GitHubClient.FirstWithSha | github_client.py:213-217 | the chosen commit has the given sha, and no earlier commit has it |
| GitHubClient.Dedup | github_client.py:212-218 | keeps the first commit of every sha, in order; stated by DedupShaSet, DedupDistinct, DedupKeepsFirst and DedupSubseq |
| GitHubClient.DedupShaSet | github_client.py:212-218 | de-duplication loses no sha |
| GitHubClient.DedupDistinct | github_client.py:213-218 | no two kept commits share a sha |
| GitHubClient.DedupKeepsFirst | github_client.py:209-229 | each kept commit is the first one with its sha in branch order |
| GitHubClient.DedupSubseq | github_client.py:209-229 | the kept commits keep their relative order |
| GitHubClient.FirstWithShaAppend | github_client.py:209-217 | commits of later branches never replace a sha already seen |
| GitHubClient.WithStats | github_client.py:219-227 | a commit gets the converted statistics of its own sha when stats are requested and is otherwise unchanged; stated by AttachStats and AttachAllAt |
| GitHubClient.AttachAll | github_client.py:219-227 | WithStats applied to every commit in order; stated by AttachAllAt |
| GitHubClient.AttachAllAt | github_client.py:219-227 | attaching stats keeps the length and changes only the stats of each commit; the stats are present iff they were requested (or were already there) |
| GitHubClient.AttachStats | github_client.py:219-227 | one commit gets the stats of its own sha |
| GitHubClient.MergeBranch | github_client.py:213-229 | the seen set and the accumulated list are those of the de-duplicated, stats-attached concatenation of the branches so far |
| GitHubClient.RepoCommits | github_client.py:198-242 | the stats-attached, first-seen-by-sha merge of the repository's branch lists; stated by RepoCommitsShape and GetCommitsForRepo |
| GitHubClient.RepoCommitsShape | github_client.py:198-229 | every commit of a repository names that repository and carries stats iff stats are requested, and no two share a sha |
| GitHubClient.GetCommitsForRepo | github_client.py:198-242 | the loops over the branches and their commits yield exactly the stats-attached first-seen-by-sha merge of the branch lists |
| GitHubClient.Repositories | github_client.py:252-253 | an explicit list is used as it is, otherwise the organisation's repositories are discovered |
| GitHubClient.Batches | github_client.py:260-261 | consecutive slices of `batch_size` repositories; stated by BatchesCover, BatchesSizes and BatchesCount |
| GitHubClient.BatchesCover | github_client.py:260-261 | the batches, one after the other, are the repository list |
| GitHubClient.BatchesSizes | github_client.py:260-261 | every batch is non-empty and at most `batch_size` long, and all but the last are full |
| GitHubClient.BatchesCount | github_client.py:262-263 | the number of batches is `(len + batch_size - 1) // batch_size` |
| GitHubClient.AllRepoCommits | github_client.py:255-277 | the per-repository commits, one repository after the other; stated by AllRepoCommitsAppend, AllRepoCommitsLength and CollectBatches |
| GitHubClient.AllRepoCommitsAppend | github_client.py:255-277 | the commits of two groups of repositories are those of each group, one after the other |
| GitHubClient.AllRepoCommitsLength | github_client.py:255-277 | the collection holds as many commits as the per-repository lists hold together |
| GitHubClient.TimestampOrder | github_client.py:282 | ISO timestamp order is total and transitive, so a newest-first sort exists |
| GitHubClient.CollectBatch | github_client.py:267-277 | one batch yields the commits of its repositories, in batch order |
| GitHubClient.CollectBatches | github_client.py:255-279 | the batches run are exactly `Batches(repos, batch_size)` and yield every repository's commits; a non-positive worker count fails exactly when there is a batch to run |
| GitHubClient.CollectAllCommits | github_client.py:250-285 | a failed discovery is the error; a batch size of 0 is an error and a negative one collects nothing; otherwise the result is a permutation of all repositories' commits, newest first |
| Seqs.Distinct | data_processor.py:88 | no duplicates, and exactly the elements of the input |
| Seqs.SortDesc | github_client.py:282 | a permutation of the input, non-increasing under the given total preorder |
| Seqs.PySliceTo | data_processor.py:245 | Python's `[:n]` for every integer `n`: a prefix whose length is `min(n, len)`, or `max(len + n, 0)` for negative `n` |
| Counters.TallyCounts | data_processor.py:130-131 | a counter filled by `d[k] += 1` holds exactly the keys counted, each with its number of occurrences |
| Counters.TallySum | data_processor.py:130-131 | the counts of a counter add up to the number of keys counted |
| Counters.TallyKeyCount | data_processor.py:103-104 | a counter has as many keys as there are distinct keys |
| DataProcessor.VariationList | data_processor.py:67-86 | the generated variations before de-duplication; stated by VariationsInclude and GenerateAuthorVariations |
| DataProcessor.VariationsInclude | data_processor.py:67-88 | the variations contain the pattern; its whitespace tokens and their concatenation when it has a space; its `-` and `_` pieces when it has those; and its first and last four characters when it is longer than 4 |
| DataProcessor.GenerateAuthorVariations | data_processor.py:67-88 | the returned list has no duplicates and holds exactly the generated variations |
| DataProcessor.IsAuthorMatch | data_processor.py:41-61 | the lower-cased author matches when either name contains the other, or a variation is contained in the author or is similar above 0.7; stated by MatchIgnoresCase, SubstringMatches and TrailingSeparatorMatchesAll |
| DataProcessor.MatchIgnoresCase | data_processor.py:41-61 | matching depends only on the lower-cased author and pattern |
| DataProcessor.SubstringMatches | data_processor.py:46-48 | either name containing the other, ignoring case, is a match |
| DataProcessor.TrailingSeparatorMatchesAll | data_processor.py:53-55 | a pattern ending in `-` or `_` matches every author, because its empty last piece is a substring of every name |
| DataProcessor.FilterByAuthor | data_processor.py:23-39 | an empty pattern returns the commits unchanged; otherwise the matching commits in input order, and the matched authors are exactly their authors |
| DataProcessor.MatchingCommits | data_processor.py:28-35 | the filter keeps exactly the matching commits, in order, each as often as in the input |
| DataProcessor.ExcludeMergeCommits | data_processor.py:90-94 | the commits whose message does not start with `Merge`; stated by ExcludeMergeCommitsExact |
| DataProcessor.ExcludeMergeCommitsExact | data_processor.py:90-94 | exactly the commits whose message starts with `Merge` are removed; the rest keep their order and multiplicity |
| DataProcessor.RepoTotalsSums | data_processor.py:137-141 | a repository's totals count its commits with stats and add up their additions and deletions |
| DataProcessor.RepoTotalsKeys | data_processor.py:137-138 | a repository has totals iff one of its commits has stats |
| DataProcessor.MinMaxBounds | data_processor.py:106-107 | the earliest and latest days are days of the input and bound every other one |
| DataProcessor.EarliestNotAfterLatest | data_processor.py:105-108 | the earliest day is not after the latest |
| DataProcessor.GenerateStatistics | data_processor.py:96-143 | no commits give no statistics; a first commit without stats followed by one with stats fails on the missing `repository_stats`; otherwise the summary is the counting of the whole input |
| DataProcessor.Aggregate | data_processor.py:126-141 | the aggregation loop fills the repository, author and branch counters and the per-repository totals with the counts of the whole input, and fails exactly in the missing-`repository_stats` case |
| DataProcessor.RepositorySet | data_processor.py:103-104 | the set of counted repositories and the set of counted authors are the unique repositories and authors |
| DataProcessor.StatisticsOf | data_processor.py:96-143 | the summary of a non-empty list of commits; stated by StatisticsFacts, RepositoryStatsFacts and BranchBreakdownFacts |
| DataProcessor.StatisticsFacts | data_processor.py:96-143 | the breakdown counts add up to the total, the unique counts are the numbers of breakdown keys, each count is the number of that key's commits, the earliest day is not after the latest, and the net change is additions minus deletions |
| DataProcessor.RepositoryStatsFacts | data_processor.py:114-141 | with stats on the first commit, the totals are the sums over all commits, and each repository's entry sums that repository's commits with stats |
| DataProcessor.BranchBreakdownFacts | data_processor.py:111-135 | a branch breakdown exists iff the first commit has a branch, and its counts add up to the number of commits with a branch |
| DataProcessor.BranchKeysLength | data_processor.py:133-135 | at most one branch key per commit, and exactly one when every commit has a branch |
| DataProcessor.ChangeRanking | data_processor.py:244-245 | the commits with positive changes, sorted by changes, most first; stated by RankingFacts |
| DataProcessor.RankingFacts | data_processor.py:244-245 | every prefix of the ranking holds commits with positive changes from the input, most changes first, and none left out has more changes than one kept |
| DataProcessor.FindLargestCommits | data_processor.py:238-245 | nothing for no commits or a first commit without stats, else the first `limit` of the ranking; stated by LargestCommitsFacts |
| DataProcessor.LargestCommitsFacts | data_processor.py:238-245 | empty for no commits or a first commit without stats; otherwise Python's `[:limit]` of the commits with positive changes: `min(limit, n)` of them, or `max(n + limit, 0)` for a negative limit; each is from the input, most changes first, and none left out has more changes than one kept |
| DataProcessor.GetCommitTimeline | data_processor.py:247-253 | the timeline holds exactly the days that occur, each with its number of commits |
| DataProcessor.CsvFields | data_processor.py:196-206 | the chosen field list restricted to the first commit's keys; stated by CsvFieldsExact |
| DataProcessor.CsvFieldsExact | data_processor.py:196-206 | the header is the field list chosen by the flags and the first commit, restricted to the first commit's keys and kept in order |
| DataProcessor.FieldValue | data_processor.py:216 | the commit's value of one field, blank when it lacks it; stated by BlankIffMissing |
| DataProcessor.CsvRow | data_processor.py:216 | the commit's value of every header field, in header order; stated by CsvContentShape |
| DataProcessor.BlankIffMissing | data_processor.py:216 | a cell is blank iff the commit lacks that field |
| DataProcessor.CsvContent | data_processor.py:192-217 | the header and one row per commit, or nothing for no commits; stated by CsvContentShape and FirstRowComplete |
| DataProcessor.CsvContentShape | data_processor.py:192-217 | nothing is written for no commits; otherwise one row per commit, each holding that commit's value of every header field, in header order |
| DataProcessor.FirstRowComplete | data_processor.py:204-216 | the first commit's row has no blank cell |

## Left out

- Processes, JSON and files. The `gh` client, `subprocess.run`, `json.loads` and file I/O are oracle parameters or are left out. The modules `csv` and `logging` and all console output are left out too. That includes `print_statistics`, `load_from_csv`, the file writing of `save_to_csv` and every log line.
- `github_commit_collector.py` and `validate_github_cli` are left out. They are command-line glue that builds the configuration and calls the modelled operations.
- Concurrency. `ThreadPoolExecutor`, `as_completed` and its 120-second timeout are left out. A batch's repositories run one after the other, in submission order. The order in which results are gathered is therefore not modelled. Only the final sorted result is stated, and only up to order among commits with equal timestamps.
- CollectAllCommits: the sort is stated as a sorted permutation. How commits with equal timestamps are ordered (the stability of `list.sort`) is not stated.
- DataProcessor.LargestCommitsFacts: the ranking is stated as a sorted permutation. Which of several commits with equal changes survive the cut at `limit` depends on the stability of `sorted`, and that is not stated.
- Time. `time.sleep` is not modelled; `RunCommand` returns the waits it would make, as data.
- `difflib.SequenceMatcher.ratio` and `datetime.fromisoformat` are oracle parameters. Only the 0.7 and 0.6 threshold comparisons are modelled.
- Text. Strings are sequences of characters with ASCII semantics for `lower`, `strip`, `split`, `isspace` and `isalnum`; Unicode case folding and Unicode whitespace are left out.
- `str.format` is modelled as one left-to-right substitution of the named placeholders. Templates with `{{` escapes or unknown names do not occur and are not modelled.
- Values that are not JSON objects (for example a listing that is a JSON array of strings) are folded into "does not decode" by the decoder oracles.
- ShapeRecord: a commit line that decodes to something other than an object, or whose `message` is `null`, is dropped as one line. The source would raise `TypeError` or `AttributeError` at github_client.py:127 or 134. The `except (json.JSONDecodeError, KeyError)` at line 138 does not catch these, so the outer `except Exception` at lines 243-248 would return `[]` for the whole repository. The jq program always prints objects with these four keys, so the case does not arise from the hosting service's replies.
- ToStats: a key whose JSON value is `null` reads as 0. The source would store `None` and later fail in the sums.
- The `except KeyError` and `except Exception` paths in `get_commits_for_repo` (lines 230-248) are left out. Every shaped commit has a `sha` and the oracles cannot raise, so these paths are unreachable in the model.
- Set iteration order. `list(set(variations))` is modelled with the order of first occurrence; the source's order is arbitrary and the model promises only the elements and the absence of duplicates. The same holds for the order of `matched_authors`.
- The CSV export writes numbers through `str()`. The model only tags a cell as text, number or blank.
- Integers are unbounded, as in Python; nothing is truncated.
