/** What the merge consumes: contributor signals and the evidence recorded for them. */
module Signals {
  import opened Wrappers

  /** A contributor as collected from a pull request: a GitHub login, or the
      `(name, email)` pair of a commit author or co-author. Either half of a
      pair may be JSON `null`, which is `None` here. */
  datatype Signal =
    | Handle(login: string)
    | Pair(name: Option<string>, email: Option<string>)

  /** Per signal, each contribution category ("commits", "pr_comments", ...)
      mapped to the references recorded for it (commit shas or URLs). */
  type Evidence = map<Signal, map<string, seq<string>>>
}
