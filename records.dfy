/** The commit record that the collector produces and the processor
    consumes. In the source it is a dictionary; the keys it may lack are
    optional fields here. */
module Records {
  import opened Wrappers

  /** The three keys that `commit.update` attaches together. */
  datatype Stats = Stats(additions: int, deletions: int, totalChanges: int)

  /** `branch` is always set by the collector; `stats` exactly when
      statistics were collected. */
  datatype Commit = Commit(
    timestamp: string,
    repository: string,
    branch: Option<string>,
    message: string,
    author: string,
    sha: string,
    stats: Option<Stats>)
}
