/** The processing applied to collected commits: author filtering with
    generated name variations, merge exclusion, the statistics summary,
    the ranking of the largest commits, the per-day timeline and the
    field selection and rows of the CSV output. */
module DataProcessor {
  import opened Wrappers
  import opened Strings
  import opened Seqs
  import opened Records
  import opened Counters
  import opened Config

  // ---------------------------------------------------------------------
  // Author matching

  /** `variations.extend(parts)` and `variations.append(''.join(parts))`
      for the whitespace-separated parts, when the pattern has a space. */
  function WithTokens(pattern: string, vs: seq<string>): seq<string> {
    if ' ' in pattern then vs + Tokens(pattern) + [Concat(Tokens(pattern))] else vs
  }

  /** `variations.extend(pattern.split(sep))`, when the pattern has `sep`. */
  function WithPieces(pattern: string, sep: char, vs: seq<string>): seq<string> {
    if sep in pattern then vs + SplitOn(pattern, sep) else vs
  }

  /** The first and the last four characters, when the pattern is longer. */
  function WithAffixes(pattern: string, vs: seq<string>): seq<string> {
    if |pattern| > 4 then vs + [pattern[..4], pattern[|pattern| - 4..]] else vs
  }

  /** The variations of a (lower-cased) pattern, in the order they are
      appended before the duplicates are dropped. */
  function VariationList(pattern: string): seq<string> {
    WithAffixes(pattern, WithPieces(pattern, '_', WithPieces(pattern, '-', WithTokens(pattern, [pattern]))))
  }

  lemma Kept(vs: seq<string>, extra: seq<string>)
    ensures forall v :: v in vs || v in extra ==> v in vs + extra
  {
  }

  /** Each kind of variation the generator promises is among them. */
  lemma VariationsInclude(pattern: string)
    ensures pattern in VariationList(pattern)
    ensures ' ' in pattern ==>
      (forall t :: t in Tokens(pattern) ==> t in VariationList(pattern))
      && Concat(Tokens(pattern)) in VariationList(pattern)
    ensures '-' in pattern ==> forall t :: t in SplitOn(pattern, '-') ==> t in VariationList(pattern)
    ensures '_' in pattern ==> forall t :: t in SplitOn(pattern, '_') ==> t in VariationList(pattern)
    ensures |pattern| > 4 ==> pattern[..4] in VariationList(pattern) && pattern[|pattern| - 4..] in VariationList(pattern)
  {
    var v1 := WithTokens(pattern, [pattern]);
    var v2 := WithPieces(pattern, '-', v1);
    var v3 := WithPieces(pattern, '_', v2);
    var v4 := WithAffixes(pattern, v3);
    if ' ' in pattern {
      Kept([pattern] + Tokens(pattern), [Concat(Tokens(pattern))]);
      Kept([pattern], Tokens(pattern));
    }
    if '-' in pattern { Kept(v1, SplitOn(pattern, '-')); }
    if '_' in pattern { Kept(v2, SplitOn(pattern, '_')); }
    if |pattern| > 4 { Kept(v3, [pattern[..4], pattern[|pattern| - 4..]]); }
  }

  /** The variations of a pattern without duplicates; the order of
      `list(set(...))` is unspecified, so only the elements are promised. */
  method GenerateAuthorVariations(pattern: string) returns (variations: seq<string>)
    ensures NoDup(variations)
    ensures forall v :: v in variations <==> v in VariationList(pattern)
  {
    var all := [pattern];
    if ' ' in pattern {
      var parts := Tokens(pattern);
      all := all + parts;
      all := all + [Concat(parts)];
    }
    assert all == WithTokens(pattern, [pattern]);
    if '-' in pattern {
      all := all + SplitOn(pattern, '-');
    }
    assert all == WithPieces(pattern, '-', WithTokens(pattern, [pattern]));
    if '_' in pattern {
      all := all + SplitOn(pattern, '_');
    }
    assert all == WithPieces(pattern, '_', WithPieces(pattern, '-', WithTokens(pattern, [pattern])));
    if |pattern| > 4 {
      all := all + [pattern[..4]];
      all := all + [pattern[|pattern| - 4..]];
    }
    assert all == VariationList(pattern);
    variations := Distinct(all);
  }

  /** Whether an author name matches a pattern, ignoring case: a substring
      either way, a variation of the pattern contained in the name or
      similar enough to it, or the whole pattern similar enough.
      `ratio` is the similarity score of the two strings. */
  predicate IsAuthorMatch(author: string, pattern: string, ratio: (string, string) -> real) {
    var a := Lower(author);
    var p := Lower(pattern);
    || Contains(a, p) || Contains(p, a)
    || (exists v :: v in VariationList(p) && (Contains(a, v) || ratio(a, v) > SimilarityThreshold))
    || ratio(a, p) > ExactMatchThreshold
  }

  lemma {:induction false} LowerIdempotent(s: string)
    ensures Lower(Lower(s)) == Lower(s)
    decreases |s|
  {
    if s != [] {
      LowerIdempotent(s[1..]);
      assert Lower(s)[1..] == Lower(s[1..]);
    }
  }

  /** Matching depends only on the lower-cased name and pattern. */
  lemma MatchIgnoresCase(author: string, pattern: string, ratio: (string, string) -> real)
    ensures IsAuthorMatch(author, pattern, ratio) == IsAuthorMatch(Lower(author), Lower(pattern), ratio)
  {
    LowerIdempotent(author);
    LowerIdempotent(pattern);
  }

  lemma ContainsEmpty(s: string)
    ensures Contains(s, [])
  {
    assert s[..0] == [];
  }

  /** A string that ends with the separator splits into pieces the last
      of which is empty. */
  lemma {:induction false} SplitOnTrailing(s: string, sep: char)
    requires s != [] && s[|s| - 1] == sep
    ensures |SplitOn(s, sep)| >= 2 && SplitOn(s, sep)[|SplitOn(s, sep)| - 1] == []
    decreases |s|
  {
    if |s| > 1 {
      SplitOnTrailing(s[1..], sep);
    }
  }

  /** A pattern that ends with `-` or `_` yields an empty variation, and
      the empty string occurs in every name: such a pattern matches every
      author, whatever the similarity scores. */
  lemma TrailingSeparatorMatchesAll(author: string, pattern: string, ratio: (string, string) -> real, sep: char)
    requires sep == '-' || sep == '_'
    requires pattern != [] && pattern[|pattern| - 1] == sep
    ensures IsAuthorMatch(author, pattern, ratio)
  {
    var p := Lower(pattern);
    assert p[|p| - 1] == sep;
    SplitOnTrailing(p, sep);
    var pieces := SplitOn(p, sep);
    assert [] in pieces;
    VariationsInclude(p);
    assert [] in VariationList(p);
    ContainsEmpty(Lower(author));
  }

  /** The lower-cased pattern occurring in the lower-cased name always
      matches, and so does the name occurring in the pattern. */
  lemma SubstringMatches(author: string, pattern: string, ratio: (string, string) -> real)
    requires Contains(Lower(author), Lower(pattern)) || Contains(Lower(pattern), Lower(author))
    ensures IsAuthorMatch(author, pattern, ratio)
  {
  }

  /** The commit filter for a pattern. */
  function MatchesAuthor(pattern: string, ratio: (string, string) -> real): Commit -> bool {
    (c: Commit) => IsAuthorMatch(c.author, pattern, ratio)
  }

  /** The commits whose author matches, in input order, and the set of the
      matching author names; an empty pattern keeps every commit. */
  method FilterByAuthor(commits: seq<Commit>, pattern: string, ratio: (string, string) -> real)
    returns (filtered: seq<Commit>, matched: set<string>)
    ensures pattern == [] ==> filtered == commits && matched == {}
    ensures pattern != [] ==> filtered == Filter(commits, MatchesAuthor(pattern, ratio))
    ensures pattern != [] ==> matched == Authors(filtered)
  {
    if pattern == [] {
      return commits, {};
    }
    var matches := MatchesAuthor(pattern, ratio);
    filtered, matched := [], {};
    for i := 0 to |commits|
      invariant filtered == Filter(commits[..i], matches)
      invariant matched == Authors(filtered)
    {
      var c := commits[i];
      FilterTakeSnoc(commits, i, matches);
      if matches(c) {
        AuthorsSnoc(filtered, c);
        filtered := filtered + [c];
        matched := matched + {c.author};
      }
    }
    TakeAll(commits);
  }

  /** The author names of some commits. */
  function Authors(cs: seq<Commit>): set<string> {
    set c | c in cs :: c.author
  }

  /** The repository names of some commits. */
  function RepoNames(cs: seq<Commit>): set<string> {
    set c | c in cs :: c.repository
  }

  lemma AuthorsSnoc(cs: seq<Commit>, c: Commit)
    ensures Authors(cs + [c]) == Authors(cs) + {c.author}
  {
  }

  /** The filter keeps exactly the commits whose author matches, in input
      order, each as often as in the input. */
  lemma MatchingCommits(commits: seq<Commit>, pattern: string, ratio: (string, string) -> real)
    ensures var f := Filter(commits, MatchesAuthor(pattern, ratio));
      && Subseq(f, commits)
      && (forall c :: c in f <==> c in commits && IsAuthorMatch(c.author, pattern, ratio))
      && (forall c :: multiset(f)[c] == if IsAuthorMatch(c.author, pattern, ratio) then multiset(commits)[c] else 0)
  {
    FilterSubseq(commits, MatchesAuthor(pattern, ratio));
    FilterMultiset(commits, MatchesAuthor(pattern, ratio));
  }

  // ---------------------------------------------------------------------
  // Merge exclusion

  predicate IsMerge(c: Commit) {
    StartsWith(c.message, "Merge")
  }

  predicate NotMerge(c: Commit) {
    !IsMerge(c)
  }

  /** `[c for c in commits if not c['message'].startswith('Merge')]`. */
  function ExcludeMergeCommits(commits: seq<Commit>): seq<Commit> {
    Filter(commits, NotMerge)
  }

  /** The commits kept are exactly those whose message does not start with
      "Merge", in their order, each as often as in the input. */
  lemma ExcludeMergeCommitsExact(commits: seq<Commit>)
    ensures Subseq(ExcludeMergeCommits(commits), commits)
    ensures forall c :: c in ExcludeMergeCommits(commits) <==> c in commits && !IsMerge(c)
    ensures forall c :: multiset(ExcludeMergeCommits(commits))[c] == if IsMerge(c) then 0 else multiset(commits)[c]
  {
    FilterSubseq(commits, NotMerge);
    FilterMultiset(commits, NotMerge);
  }

  // ---------------------------------------------------------------------
  // Statistics

  function RepoOf(c: Commit): string { c.repository }
  function AuthorOf(c: Commit): string { c.author }

  /** `timestamp[:10]`, the `YYYY-MM-DD` part. */
  function DayOf(c: Commit): string { Prefix(c.timestamp, 10) }

  /** `c.get('additions', 0)` and `c.get('deletions', 0)`. */
  function Additions(c: Commit): int { if c.stats.Some? then c.stats.value.additions else 0 }
  function Deletions(c: Commit): int { if c.stats.Some? then c.stats.value.deletions else 0 }

  function SumAdditions(cs: seq<Commit>): int {
    if cs == [] then 0 else SumAdditions(cs[..|cs| - 1]) + Additions(cs[|cs| - 1])
  }

  function SumDeletions(cs: seq<Commit>): int {
    if cs == [] then 0 else SumDeletions(cs[..|cs| - 1]) + Deletions(cs[|cs| - 1])
  }

  /** `f"{repo}:{branch}"`. */
  function BranchKey(c: Commit): string
    requires c.branch.Some?
  {
    c.repository + ":" + c.branch.value
  }

  /** The branch keys of the commits that carry a branch, in order. */
  function BranchKeys(cs: seq<Commit>): seq<string> {
    if cs == [] then []
    else
      var c := cs[|cs| - 1];
      if c.branch.Some? then BranchKeys(cs[..|cs| - 1]) + [BranchKey(c)] else BranchKeys(cs[..|cs| - 1])
  }

  /** The `repository_stats` entry of one repository. */
  datatype RepoTotals = RepoTotals(commits: nat, additions: int, deletions: int)

  /** `repo_stats['commits'] += 1` and the two sums, for a commit with stats. */
  function AddRepoTotals(m: map<string, RepoTotals>, c: Commit): map<string, RepoTotals> {
    var t := if c.repository in m then m[c.repository] else RepoTotals(0, 0, 0);
    m[c.repository := RepoTotals(t.commits + 1, t.additions + Additions(c), t.deletions + Deletions(c))]
  }

  /** `repository_stats` after the commits, of which only those with stats count. */
  function RepoTotalsOf(cs: seq<Commit>): map<string, RepoTotals> {
    if cs == [] then map[]
    else
      var c := cs[|cs| - 1];
      var m := RepoTotalsOf(cs[..|cs| - 1]);
      if c.stats.Some? then AddRepoTotals(m, c) else m
  }

  /** The commits of `repo` that carry stats. */
  function InRepoWithStats(repo: string): Commit -> bool {
    (c: Commit) => c.repository == repo && c.stats.Some?
  }

  lemma RepoTotalsSnoc(cs: seq<Commit>, c: Commit)
    ensures RepoTotalsOf(cs + [c]) == if c.stats.Some? then AddRepoTotals(RepoTotalsOf(cs), c) else RepoTotalsOf(cs)
  {
    assert (cs + [c])[..|cs|] == cs;
  }

  lemma SumsSnoc(cs: seq<Commit>, c: Commit)
    ensures SumAdditions(cs + [c]) == SumAdditions(cs) + Additions(c)
    ensures SumDeletions(cs + [c]) == SumDeletions(cs) + Deletions(c)
  {
    assert (cs + [c])[..|cs|] == cs;
  }

  /** The entry of `repo`, zero when it has none. */
  function TotalsAt(m: map<string, RepoTotals>, repo: string): RepoTotals {
    if repo in m then m[repo] else RepoTotals(0, 0, 0)
  }

  /** Each repository's entry sums exactly that repository's commits with
      stats: their number, their additions and their deletions. */
  lemma {:induction false} RepoTotalsSums(cs: seq<Commit>, repo: string)
    ensures var f := Filter(cs, InRepoWithStats(repo));
      TotalsAt(RepoTotalsOf(cs), repo) == RepoTotals(|f|, SumAdditions(f), SumDeletions(f))
  {
    if cs != [] {
      var front, c := cs[..|cs| - 1], cs[|cs| - 1];
      LastSplit(cs);
      RepoTotalsSums(front, repo);
      FilterSnoc(front, c, InRepoWithStats(repo));
      if InRepoWithStats(repo)(c) {
        SumsSnoc(Filter(front, InRepoWithStats(repo)), c);
      }
    }
  }

  /** A repository has an entry exactly when it has a commit with stats. */
  lemma {:induction false} RepoTotalsKeys(cs: seq<Commit>, repo: string)
    ensures repo in RepoTotalsOf(cs) <==> exists c :: c in cs && c.repository == repo && c.stats.Some?
  {
    if cs != [] {
      var front, c := cs[..|cs| - 1], cs[|cs| - 1];
      LastSplit(cs);
      RepoTotalsKeys(front, repo);
      assert forall x :: x in cs <==> x in front || x == c;
    }
  }

  /** The smallest string of a non-empty list (Python's `min`). */
  function MinString(s: seq<string>): string
    requires s != []
  {
    if |s| == 1 then s[0]
    else
      var m := MinString(s[..|s| - 1]);
      if LexLe(m, s[|s| - 1]) then m else s[|s| - 1]
  }

  /** The largest string of a non-empty list (Python's `max`). */
  function MaxString(s: seq<string>): string
    requires s != []
  {
    if |s| == 1 then s[0]
    else
      var m := MaxString(s[..|s| - 1]);
      if LexLe(s[|s| - 1], m) then m else s[|s| - 1]
  }

  /** The minimum is in the list and not above any element, the maximum
      is in the list and not below any element. */
  lemma {:induction false} MinMaxBounds(s: seq<string>)
    requires s != []
    ensures MinString(s) in s && MaxString(s) in s
    ensures forall x :: x in s ==> LexLe(MinString(s), x) && LexLe(x, MaxString(s))
  {
    if |s| == 1 {
      LexLeReflexive(s[0]);
    } else {
      var f, x := s[..|s| - 1], s[|s| - 1];
      assert s == f + [x];
      MinMaxBounds(f);
      LexLeReflexive(x);
      LexLeTotal(MinString(f), x);
      LexLeTotal(x, MaxString(f));
      forall y | y in f
        ensures LexLe(MinString(s), y) && LexLe(y, MaxString(s))
      {
        if !LexLe(MinString(f), x) {
          LexLeTransitive(x, MinString(f), y);
        }
        if !LexLe(x, MaxString(f)) {
          LexLeTransitive(y, MaxString(f), x);
        }
      }
    }
  }

  /** The earliest day is not after the latest. */
  lemma EarliestNotAfterLatest(s: seq<string>)
    requires s != []
    ensures LexLe(MinString(s), MaxString(s))
  {
    MinMaxBounds(s);
  }

  /** The summed changes, present when the first commit has stats. */
  datatype ChangeTotals = ChangeTotals(
    totalAdditions: int,
    totalDeletions: int,
    netChanges: int,
    repositoryStats: map<string, RepoTotals>)

  datatype Statistics = Statistics(
    totalCommits: nat,
    uniqueAuthors: nat,
    uniqueRepositories: nat,
    earliest: string,
    latest: string,
    repositoryBreakdown: map<string, nat>,
    authorBreakdown: map<string, nat>,
    branchBreakdown: Option<map<string, nat>>,
    changes: Option<ChangeTotals>)

  /** An empty input yields `{}`; a commit with stats after a first commit
      without them fails, because `repository_stats` was never created. */
  datatype StatisticsResult = NoStatistics | Computed(stats: Statistics) | RepositoryStatsMissing

  /** A later commit carries stats that the first one lacks. */
  predicate StatsAfterNone(commits: seq<Commit>) {
    commits != [] && commits[0].stats.None? && exists c :: c in commits && c.stats.Some?
  }

  /** One step of the aggregation loop: each counter counts the next commit. */
  lemma StatisticsStep(commits: seq<Commit>, i: nat)
    requires i < |commits|
    ensures Tally(Map(RepoOf, commits[..i + 1])) == Bump(Tally(Map(RepoOf, commits[..i])), commits[i].repository)
    ensures Tally(Map(AuthorOf, commits[..i + 1])) == Bump(Tally(Map(AuthorOf, commits[..i])), commits[i].author)
    ensures Tally(BranchKeys(commits[..i + 1])) ==
      if commits[i].branch.Some? then Bump(Tally(BranchKeys(commits[..i])), BranchKey(commits[i]))
      else Tally(BranchKeys(commits[..i]))
    ensures RepoTotalsOf(commits[..i + 1]) ==
      if commits[i].stats.Some? then AddRepoTotals(RepoTotalsOf(commits[..i]), commits[i]) else RepoTotalsOf(commits[..i])
  {
    MapTakeSnoc(RepoOf, commits, i);
    MapTakeSnoc(AuthorOf, commits, i);
    TallySnoc(Map(RepoOf, commits[..i]), commits[i].repository);
    TallySnoc(Map(AuthorOf, commits[..i]), commits[i].author);
    TakeSnoc(commits, i);
    RepoTotalsSnoc(commits[..i], commits[i]);
    BranchKeysSnoc(commits[..i], commits[i]);
    if commits[i].branch.Some? {
      TallySnoc(BranchKeys(commits[..i]), BranchKey(commits[i]));
    }
  }

  lemma BranchKeysSnoc(cs: seq<Commit>, c: Commit)
    ensures BranchKeys(cs + [c]) == if c.branch.Some? then BranchKeys(cs) + [BranchKey(c)] else BranchKeys(cs)
  {
    assert (cs + [c])[..|cs|] == cs;
  }

  /** The summary of the commits. Sums and breakdowns are as `StatisticsOf`
      defines them; `StatisticsFacts` states what they add up to. */
  method GenerateStatistics(commits: seq<Commit>) returns (r: StatisticsResult)
    ensures r == NoStatistics <==> commits == []
    ensures r == RepositoryStatsMissing <==> StatsAfterNone(commits)
    ensures r.Computed? ==> r.stats == StatisticsOf(commits)
  {
    if commits == [] {
      return NoStatistics;
    }
    var failed, repoBreakdown, authorBreakdown, branchBreakdown, repoStats := Aggregate(commits);
    if failed {
      return RepositoryStatsMissing;
    }
    var days := Map(DayOf, commits);
    var changes := None;
    if commits[0].stats.Some? {
      var additions := SumAdditions(commits);
      var deletions := SumDeletions(commits);
      changes := Some(ChangeTotals(additions, deletions, additions - deletions, repoStats));
    }
    r := Computed(Statistics(
      |commits|,
      |Authors(commits)|,
      |RepoNames(commits)|,
      MinString(days), MaxString(days),
      repoBreakdown, authorBreakdown,
      if commits[0].branch.Some? then Some(branchBreakdown) else None,
      changes));
  }

  /** No commit carries stats. */
  predicate NoStats(cs: seq<Commit>) {
    forall c :: c in cs ==> c.stats.None?
  }

  lemma NoStatsSnoc(commits: seq<Commit>, i: nat)
    requires i < |commits|
    ensures NoStats(commits[..i + 1]) <==> NoStats(commits[..i]) && commits[i].stats.None?
  {
    TakeSnoc(commits, i);
  }

  /** The aggregation loop over the commits: the three breakdowns and the
      per-repository sums, or failure at the first commit with stats when
      the first commit has none. */
  method Aggregate(commits: seq<Commit>)
    returns (failed: bool, repoBreakdown: map<string, nat>, authorBreakdown: map<string, nat>,
             branchBreakdown: map<string, nat>, repoStats: map<string, RepoTotals>)
    requires commits != []
    ensures failed <==> StatsAfterNone(commits)
    ensures !failed ==>
      && repoBreakdown == Tally(Map(RepoOf, commits))
      && authorBreakdown == Tally(Map(AuthorOf, commits))
      && branchBreakdown == Tally(BranchKeys(commits))
      && repoStats == RepoTotalsOf(commits)
  {
    failed := false;
    var withStats := commits[0].stats.Some?;
    repoBreakdown, authorBreakdown, branchBreakdown, repoStats := map[], map[], map[], map[];
    for i := 0 to |commits|
      invariant repoBreakdown == Tally(Map(RepoOf, commits[..i]))
      invariant authorBreakdown == Tally(Map(AuthorOf, commits[..i]))
      invariant branchBreakdown == Tally(BranchKeys(commits[..i]))
      invariant repoStats == RepoTotalsOf(commits[..i])
      invariant !withStats ==> NoStats(commits[..i])
    {
      var c := commits[i];
      StatisticsStep(commits, i);
      NoStatsSnoc(commits, i);
      repoBreakdown := Bump(repoBreakdown, c.repository);
      authorBreakdown := Bump(authorBreakdown, c.author);
      if c.branch.Some? {
        branchBreakdown := Bump(branchBreakdown, BranchKey(c));
      }
      if c.stats.Some? {
        if !withStats {
          assert commits[i] in commits;
          return true, repoBreakdown, authorBreakdown, branchBreakdown, repoStats;
        }
        repoStats := AddRepoTotals(repoStats, c);
      }
    }
    TakeAll(commits);
    assert commits[0].stats.None? ==> NoStats(commits);
  }

  /** The summary of a non-empty list, as the aggregation loop builds it. */
  function StatisticsOf(commits: seq<Commit>): Statistics
    requires commits != []
  {
    var days := Map(DayOf, commits);
    var additions := SumAdditions(commits);
    var deletions := SumDeletions(commits);
    Statistics(
      |commits|,
      |Authors(commits)|,
      |RepoNames(commits)|,
      MinString(days), MaxString(days),
      Tally(Map(RepoOf, commits)),
      Tally(Map(AuthorOf, commits)),
      if commits[0].branch.Some? then Some(Tally(BranchKeys(commits))) else None,
      if commits[0].stats.Some? then Some(ChangeTotals(additions, deletions, additions - deletions, RepoTotalsOf(commits)))
      else None)
  }

  lemma RepositorySet(commits: seq<Commit>)
    ensures (set k | k in Map(RepoOf, commits)) == RepoNames(commits)
    ensures (set k | k in Map(AuthorOf, commits)) == Authors(commits)
  {
    forall k | k in Map(RepoOf, commits)
      ensures k in RepoNames(commits)
    {
      var i :| 0 <= i < |commits| && Map(RepoOf, commits)[i] == k;
      assert commits[i] in commits;
    }
    forall k | k in Map(AuthorOf, commits)
      ensures k in Authors(commits)
    {
      var i :| 0 <= i < |commits| && Map(AuthorOf, commits)[i] == k;
      assert commits[i] in commits;
    }
    forall c | c in commits
      ensures c.repository in Map(RepoOf, commits) && c.author in Map(AuthorOf, commits)
    {
      var i :| 0 <= i < |commits| && commits[i] == c;
      assert Map(RepoOf, commits)[i] == c.repository;
      assert Map(AuthorOf, commits)[i] == c.author;
    }
  }

  /** What the summary promises: the breakdown counts add up to the number
      of commits, the unique counts are the numbers of breakdown keys, each
      count is the number of that key's commits, the earliest day is not
      after the latest, and the net change is additions minus deletions. */
  lemma StatisticsFacts(commits: seq<Commit>)
    requires commits != []
    ensures var s := StatisticsOf(commits);
      && s.totalCommits == |commits|
      && SumAt(Distinct(Map(RepoOf, commits)), s.repositoryBreakdown) == s.totalCommits
      && SumAt(Distinct(Map(AuthorOf, commits)), s.authorBreakdown) == s.totalCommits
      && s.uniqueRepositories == |s.repositoryBreakdown.Keys|
      && s.uniqueAuthors == |s.authorBreakdown.Keys|
      && (forall k :: k in s.repositoryBreakdown ==> s.repositoryBreakdown[k] == multiset(Map(RepoOf, commits))[k])
      && (forall k :: k in s.authorBreakdown ==> s.authorBreakdown[k] == multiset(Map(AuthorOf, commits))[k])
      && LexLe(s.earliest, s.latest)
      && (s.changes.Some? ==> s.changes.value.netChanges == s.changes.value.totalAdditions - s.changes.value.totalDeletions)
  {
    TallySum(Map(RepoOf, commits));
    TallySum(Map(AuthorOf, commits));
    TallyCounts(Map(RepoOf, commits));
    TallyCounts(Map(AuthorOf, commits));
    RepositorySet(commits);
    EarliestNotAfterLatest(Map(DayOf, commits));
  }

  /** With stats on the first commit, the summary carries the totals, and
      each `repository_stats` entry sums that repository's commits with
      stats; a repository has an entry exactly when it has one. */
  lemma RepositoryStatsFacts(commits: seq<Commit>, repo: string)
    requires commits != [] && commits[0].stats.Some?
    ensures StatisticsOf(commits).changes.Some?
    ensures var t := StatisticsOf(commits).changes.value;
      && t.totalAdditions == SumAdditions(commits)
      && t.totalDeletions == SumDeletions(commits)
      && (repo in t.repositoryStats <==> exists c :: c in commits && c.repository == repo && c.stats.Some?)
      && var f := Filter(commits, InRepoWithStats(repo));
         TotalsAt(t.repositoryStats, repo) == RepoTotals(|f|, SumAdditions(f), SumDeletions(f))
  {
    RepoTotalsKeys(commits, repo);
    RepoTotalsSums(commits, repo);
  }

  /** Without a first branch there is no branch breakdown; with one, the
      breakdown counts every commit that has a branch, once. */
  lemma BranchBreakdownFacts(commits: seq<Commit>)
    requires commits != []
    ensures StatisticsOf(commits).branchBreakdown.None? <==> commits[0].branch.None?
    ensures StatisticsOf(commits).branchBreakdown.Some? ==>
      SumAt(Distinct(BranchKeys(commits)), StatisticsOf(commits).branchBreakdown.value) == |BranchKeys(commits)|
    ensures (forall c :: c in commits ==> c.branch.Some?) ==> |BranchKeys(commits)| == |commits|
  {
    TallySum(BranchKeys(commits));
    BranchKeysLength(commits);
  }

  lemma {:induction false} BranchKeysLength(cs: seq<Commit>)
    ensures |BranchKeys(cs)| <= |cs|
    ensures (forall c :: c in cs ==> c.branch.Some?) ==> |BranchKeys(cs)| == |cs|
  {
    if cs != [] {
      BranchKeysLength(cs[..|cs| - 1]);
      LastSplit(cs);
      assert forall c :: c in cs[..|cs| - 1] ==> c in cs;
    }
  }

  // ---------------------------------------------------------------------
  // Largest commits

  /** `c.get('total_changes', 0)`. */
  function TotalChanges(c: Commit): int { if c.stats.Some? then c.stats.value.totalChanges else 0 }

  predicate HasChanges(c: Commit) { TotalChanges(c) > 0 }

  predicate ChangesLe(a: Commit, b: Commit) { TotalChanges(a) <= TotalChanges(b) }

  lemma ChangesOrder()
    ensures Total(ChangesLe) && Transitive(ChangesLe)
  {
  }

  /** The commits with changes, most changes first. */
  function ChangeRanking(commits: seq<Commit>): seq<Commit> {
    ChangesOrder();
    SortDesc(Filter(commits, HasChanges), ChangesLe)
  }

  /** `sorted(..., reverse=True)[:limit]` of the commits with changes, or
      `[]` when there is no commit or the first has no stats. */
  function FindLargestCommits(commits: seq<Commit>, limit: int): seq<Commit> {
    if commits == [] || commits[0].stats.None? then []
    else PySliceTo(ChangeRanking(commits), limit)
  }

  /** At most `limit` commits, each with changes and from the input, most
      changes first, and none left out that has more changes than one
      kept. */
  lemma LargestCommitsFacts(commits: seq<Commit>, limit: int)
    ensures var r := FindLargestCommits(commits, limit);
      && (commits == [] || commits[0].stats.None? ==> r == [])
      && (limit >= 0 ==> |r| <= limit)
      && (forall c :: c in r ==> HasChanges(c) && c in commits)
      && multiset(r) <= multiset(commits)
      && SortedDesc(r, ChangesLe)
      && (forall c, x :: c in commits && HasChanges(c) && c !in r && x in r ==> TotalChanges(c) <= TotalChanges(x))
      && (commits != [] && commits[0].stats.Some? ==>
            var f := |Filter(commits, HasChanges)|;
            && (limit >= 0 ==> |r| == if limit <= f then limit else f)
            && (limit < 0 ==> |r| == if f + limit >= 0 then f + limit else 0))
  {
    if commits != [] && commits[0].stats.Some? {
      RankingFacts(commits, |FindLargestCommits(commits, limit)|);
    }
  }

  /** What a prefix of the ranking holds. */
  lemma RankingFacts(commits: seq<Commit>, n: nat)
    requires n <= |ChangeRanking(commits)|
    ensures var r := ChangeRanking(commits)[..n];
      && (forall c :: c in r ==> HasChanges(c) && c in commits)
      && multiset(r) <= multiset(commits)
      && SortedDesc(r, ChangesLe)
      && (forall c, x :: c in commits && HasChanges(c) && c !in r && x in r ==> TotalChanges(c) <= TotalChanges(x))
  {
    var ranking := ChangeRanking(commits);
    FilterMultiset(commits, HasChanges);
    SortedPrefix(ranking, n, ChangesLe);
    RankingMembers(commits, n);
    RankingTop(commits, n);
  }

  lemma RankingMembers(commits: seq<Commit>, n: nat)
    requires n <= |ChangeRanking(commits)|
    ensures forall c :: c in ChangeRanking(commits)[..n] ==> HasChanges(c) && c in commits
  {
    var ranking := ChangeRanking(commits);
    var kept := Filter(commits, HasChanges);
    assert multiset(ranking) == multiset(kept);
    forall c | c in ranking[..n]
      ensures HasChanges(c) && c in commits
    {
      assert c in ranking;
      assert c in multiset(ranking);
      assert c in multiset(kept);
    }
  }

  lemma RankingTop(commits: seq<Commit>, n: nat)
    requires n <= |ChangeRanking(commits)|
    ensures var r := ChangeRanking(commits)[..n];
      forall c, x :: c in commits && HasChanges(c) && c !in r && x in r ==> TotalChanges(c) <= TotalChanges(x)
  {
    var ranking := ChangeRanking(commits);
    var r := ranking[..n];
    var kept := Filter(commits, HasChanges);
    assert multiset(ranking) == multiset(kept);
    SortedPrefix(ranking, n, ChangesLe);
    forall c, x | c in commits && HasChanges(c) && c !in r && x in r
      ensures TotalChanges(c) <= TotalChanges(x)
    {
      assert c in kept;
      assert c in multiset(ranking);
      var j :| 0 <= j < |ranking| && ranking[j] == c;
      var i :| 0 <= i < n && r[i] == x;
    }
  }

  // ---------------------------------------------------------------------
  // Timeline

  /** The number of commits per day. */
  method GetCommitTimeline(commits: seq<Commit>) returns (timeline: map<string, nat>)
    ensures timeline == Tally(Map(DayOf, commits))
    ensures timeline.Keys == set k | k in Map(DayOf, commits)
    ensures forall d :: d in timeline ==> timeline[d] == multiset(Map(DayOf, commits))[d]
  {
    timeline := map[];
    for i := 0 to |commits|
      invariant timeline == Tally(Map(DayOf, commits[..i]))
    {
      MapTakeSnoc(DayOf, commits, i);
      TallySnoc(Map(DayOf, commits[..i]), DayOf(commits[i]));
      timeline := Bump(timeline, DayOf(commits[i]));
    }
    TakeAll(commits);
    TallyCounts(Map(DayOf, commits));
  }

  // ---------------------------------------------------------------------
  // CSV output

  /** The keys of a commit's dictionary. */
  function PresentKeys(c: Commit): set<string> {
    {"timestamp", "repository", "message", "author", "sha"}
    + (if c.branch.Some? then {"branch"} else {})
    + (if c.stats.Some? then {"additions", "deletions", "total_changes"} else {})
  }

  /** The field list chosen by the flags and the first commit's keys. */
  function FieldList(first: Commit, includeBranches: bool, includeStats: bool): seq<string> {
    if includeStats && first.stats.Some? then StatsFields
    else if includeBranches && first.branch.Some? then BranchFields
    else BasicFields
  }

  function PresentIn(c: Commit): string -> bool {
    f => f in PresentKeys(c)
  }

  /** The chosen list restricted to the first commit's keys. */
  function CsvFields(first: Commit, includeBranches: bool, includeStats: bool): seq<string> {
    Filter(FieldList(first, includeBranches, includeStats), PresentIn(first))
  }

  /** The fields are those of the chosen list that the first commit has,
      in the list's order. */
  lemma CsvFieldsExact(first: Commit, includeBranches: bool, includeStats: bool)
    ensures Subseq(CsvFields(first, includeBranches, includeStats), FieldList(first, includeBranches, includeStats))
    ensures forall f :: f in CsvFields(first, includeBranches, includeStats) <==>
      f in FieldList(first, includeBranches, includeStats) && f in PresentKeys(first)
  {
    FilterSubseq(FieldList(first, includeBranches, includeStats), PresentIn(first));
  }

  /** A CSV cell: text, a number, or `''` for a key the commit lacks. */
  datatype Cell = Text(s: string) | Number(n: int) | Blank

  /** `commit.get(field, '')`. */
  function FieldValue(c: Commit, field: string): Cell {
    if field == "timestamp" then Text(c.timestamp)
    else if field == "repository" then Text(c.repository)
    else if field == "message" then Text(c.message)
    else if field == "author" then Text(c.author)
    else if field == "sha" then Text(c.sha)
    else if field == "branch" then (if c.branch.Some? then Text(c.branch.value) else Blank)
    else if field == "additions" then (if c.stats.Some? then Number(c.stats.value.additions) else Blank)
    else if field == "deletions" then (if c.stats.Some? then Number(c.stats.value.deletions) else Blank)
    else if field == "total_changes" then (if c.stats.Some? then Number(c.stats.value.totalChanges) else Blank)
    else Blank
  }

  /** A cell is blank exactly when the commit lacks the key. */
  lemma BlankIffMissing(c: Commit, field: string)
    ensures FieldValue(c, field) == Blank <==> field !in PresentKeys(c)
  {
  }

  /** `{field: commit.get(field, '') for field in fieldnames}`, in field order. */
  function CsvRow(c: Commit, fields: seq<string>): seq<Cell> {
    Map(f => FieldValue(c, f), fields)
  }

  /** The header and the rows written, or nothing for an empty list. */
  function CsvContent(commits: seq<Commit>, includeBranches: bool, includeStats: bool)
    : Option<(seq<string>, seq<seq<Cell>>)>
  {
    if commits == [] then None
    else
      var fields := CsvFields(commits[0], includeBranches, includeStats);
      Some((fields, Map(c => CsvRow(c, fields), commits)))
  }

  /** One row per commit, each with exactly the header's fields, in order. */
  lemma CsvContentShape(commits: seq<Commit>, includeBranches: bool, includeStats: bool)
    ensures CsvContent(commits, includeBranches, includeStats).None? <==> commits == []
    ensures CsvContent(commits, includeBranches, includeStats).Some? ==>
      var (fields, rows) := CsvContent(commits, includeBranches, includeStats).value;
      && |rows| == |commits|
      && (forall i :: 0 <= i < |rows| ==> |rows[i]| == |fields|)
      && (forall i, k :: 0 <= i < |rows| && 0 <= k < |fields| ==>
            rows[i][k] == FieldValue(commits[i], fields[k]))
  {
  }

  /** The first commit's row has no blank cell. */
  lemma FirstRowComplete(first: Commit, includeBranches: bool, includeStats: bool)
    ensures var fields := CsvFields(first, includeBranches, includeStats);
      forall k :: 0 <= k < |fields| ==> CsvRow(first, fields)[k] != Blank
  {
    var fields := CsvFields(first, includeBranches, includeStats);
    CsvFieldsExact(first, includeBranches, includeStats);
    forall k | 0 <= k < |fields|
      ensures FieldValue(first, fields[k]) != Blank
    {
      assert fields[k] in fields;
      BlankIffMissing(first, fields[k]);
    }
  }
}
