/** The provenance note attached to warnings (`CffManager.get_contribution_note_for_warning`):
    a heading naming the contributor, then a link to its first recorded contribution. */
module Provenance {
  import opened Wrappers
  import opened Text
  import opened Signals

  /** The contribution categories, in the order they are searched, with their labels. */
  const Categories: seq<(string, string)> := [
    ("commits", "Commit"),
    ("pr_comments", "Pull Request Comment"),
    ("reviews", "Review"),
    ("issues", "Issue"),
    ("issue_comments", "Issue Comment")
  ]

  /** The heading: `- @login: ` for a handle, the name and/or email in backticks for a pair. */
  function Heading(c: Signal): Result<string> {
    match c
    case Pair(n, e) =>
      if Truthy(e) && Truthy(n) then Ok("- `" + n.value + " <" + e.value + ">`: ")
      else if Truthy(n) then Ok("- `" + n.value + "`: ")
      else if Truthy(e) then Ok("- `" + e.value + "`: ")
      else Err(ValueError("Contributor tuple must contain at least one non-empty string."))
    case Handle(h) =>
      if h == "" then Err(ValueError("Contributor name must be a non-empty string."))
      else Ok("- @" + h + ": ")
  }

  /** The signal has at least one reference recorded under `key`. */
  predicate HasCategory(details: Evidence, c: Signal, key: string) {
    c in details && key in details[c] && |details[c][key]| > 0
  }

  /** Index of the first category, from `i` on, that has a reference for `c`. */
  function FirstCategoryFrom(details: Evidence, c: Signal, i: nat): (k: Option<nat>)
    requires i <= |Categories|
    ensures k.Some? ==> i <= k.value < |Categories| && HasCategory(details, c, Categories[k.value].0)
    ensures forall j :: i <= j < |Categories| && (k.None? || j < k.value) ==> !HasCategory(details, c, Categories[j].0)
    decreases |Categories| - i
  {
    if i == |Categories| then None
    else if HasCategory(details, c, Categories[i].0) then Some(i)
    else FirstCategoryFrom(details, c, i + 1)
  }

  /** The link to the first reference of category `k`: a commit shows its abbreviated sha. */
  function Link(details: Evidence, c: Signal, k: nat, repo: string): string
    requires k < |Categories| && HasCategory(details, c, Categories[k].0)
  {
    var first := details[c][Categories[k].0][0];
    if Categories[k].0 == "commits" then
      "Commit: [`" + Take(first, 7) + "`](https://github.com/" + repo + "/commit/" + first + ")"
    else
      "[" + Categories[k].1 + "](" + first + ")"
  }

  /** `get_contribution_note_for_warning`. */
  function ContributionNote(c: Signal, details: Evidence, repo: string): Result<string> {
    var head :- Heading(c);
    match FirstCategoryFrom(details, c, 0)
    case None => Err(Exception("No contribution found for the contributor."))
    case Some(k) => Ok(head + Link(details, c, k, repo))
  }

  /** `get_contribution_note_for_warning` as written: the category search is a loop with `break`. */
  method GetContributionNote(c: Signal, details: Evidence, repo: string) returns (r: Result<string>)
    ensures r == ContributionNote(c, details, repo)
  {
    var head := Heading(c);
    if head.Err? {
      return Err(head.error);
    }
    var found := false;
    var i := 0;
    while i < |Categories|
      invariant 0 <= i <= |Categories|
      invariant FirstCategoryFrom(details, c, 0) == FirstCategoryFrom(details, c, i)
      decreases |Categories| - i
    {
      if HasCategory(details, c, Categories[i].0) {
        found := true;
        break;
      }
      i := i + 1;
    }
    if !found {
      return Err(Exception("No contribution found for the contributor."));
    }
    r := Ok(head.value + Link(details, c, i, repo));
  }

  // ---------------------------------------------------------------- properties

  /** The heading fails exactly for an empty handle and for a pair with neither part truthy. */
  lemma HeadingFails(c: Signal)
    ensures Heading(c).Err? <==> c == Handle("") || (c.Pair? && !Truthy(c.name) && !Truthy(c.email))
    ensures Heading(c).Ok? ==> StartsWith(Heading(c).value, "- ")
  {
  }

  /** The note fails exactly when the heading fails or no category holds a reference. */
  lemma NoteFailsWithoutEvidence(c: Signal, details: Evidence, repo: string)
    ensures ContributionNote(c, details, repo).Err? <==>
      Heading(c).Err? || forall k :: 0 <= k < |Categories| ==> !HasCategory(details, c, Categories[k].0)
    ensures Heading(c).Ok? && (forall k :: 0 <= k < |Categories| ==> !HasCategory(details, c, Categories[k].0))
      ==> ContributionNote(c, details, repo) == Err(Exception("No contribution found for the contributor."))
  {
  }

  /** The note is the heading followed by the link of the first category, in the fixed order,
      that holds a reference. */
  lemma NoteUsesFirstCategory(c: Signal, details: Evidence, repo: string, k: nat)
    requires Heading(c).Ok?
    requires k < |Categories| && HasCategory(details, c, Categories[k].0)
    requires forall j :: 0 <= j < k ==> !HasCategory(details, c, Categories[j].0)
    ensures ContributionNote(c, details, repo) == Ok(Heading(c).value + Link(details, c, k, repo))
    ensures StartsWith(ContributionNote(c, details, repo).value, Heading(c).value)
  {
    var r := FirstCategoryFrom(details, c, 0);
    assert r == Some(k);
    var note := Heading(c).value + Link(details, c, k, repo);
    assert note[..|Heading(c).value|] == Heading(c).value;
  }

  /** A recorded commit always wins: the note links the first sha, shown to 7 characters,
      under `https://github.com/{repo}/commit/{sha}`. */
  lemma CommitWins(c: Signal, details: Evidence, repo: string)
    requires Heading(c).Ok? && HasCategory(details, c, "commits")
    ensures var sha := details[c]["commits"][0];
      ContributionNote(c, details, repo)
        == Ok(Heading(c).value + ("Commit: [`" + Take(sha, 7) + "`](https://github.com/" + repo + "/commit/" + sha + ")"))
  {
    NoteUsesFirstCategory(c, details, repo, 0);
  }
}
