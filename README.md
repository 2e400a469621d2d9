# Contributor identity resolution and merge for a CITATION.cff author list

A GitHub action keeps the `authors` list of a project's `CITATION.cff` up to date.
It collects contributor *signals* from a pull request. A signal is either a GitHub
login (`Handle`) or a commit author's `(name, email)` pair (`Pair`). Each signal becomes
a candidate author entry. An entry is a *person* (`given-names`, `family-names`) or an
*entity* (`name`). The action compares the candidate with every entry already present
and appends it only when none denotes the same contributor. It also reports which
signals were already present and which stayed unresolved, with a warning for every
ambiguous decision.

This Dafny project models that engine and proves its properties:

| module | file | models |
|---|---|---|
| `Wrappers` | `wrappers.dfy` | `Option`, `Result` and the Python exception kinds that abort a run |
| `Text` | `text.dfy` | the Python string operations the code relies on (`strip`, `casefold`, `split(" ", 1)`, `splitlines`, slicing, truthiness) |
| `Signals` | `signals.dfy` | contributor signals and the per-contributor evidence map |
| `Authors` | `authors.dfy` | `get_cff_author_type` and `is_same_person` of `CffManager` |
| `Provenance` | `provenance.dfy` | `get_contribution_note_for_warning` (the "first category wins" provenance note) |
| `Orcid` | `orcid.dfy` | ORCID extraction from a bio, format validation, and the name-checked registry search |
| `Github` | `github.dfy` | commit-contributor collection with `Co-authored-by` trailers, linked issues, metadata contributors |
| `CffMerge` | `merge.dfy` | `CffManager.update_cff`: entry building, the baseline scan, deduplication and the outcome |
| `LegacyMerge` | `legacy.dfy` | the older `is_same_person` / `process_contributors` loop in `update_cff_authors.py` |

Everything the code fetches is passed in as a value:
- The GitHub user profile (status code and JSON fields) is a function `profile`.
- The ORCID lookups (`extract_orcid`, `search_orcid`, `validate_orcid`) are the functions of `CffMerge.Lookups`.
- The legacy loop receives the profile lookup, the registry reply and the reachability answer in `LegacyMerge.Services`.
- The commit list, the timeline events and the review, comment and issue data are sequences.

The Python loops (`for contributor in contributors`, the author scan, the commit loop, the
metadata gathering) are Dafny methods with `while`/`for` loops. Each method is proved
equal to a specification function, and the properties are lemmas about those functions.
An author entry is a `map<string, string>`, as the YAML mapping is in Python.
Python's `set` of contributors is iterated in some order, so `UpdateCff` takes that order
as a sequence.

In these places the code behaves in ways a reader may not expect; the model follows the code:
- A `(name, email)` pair that matches no listed person always becomes an entity with that
  `name` (`cff_manager.py:323-331`). It is not split into a person, even when the name
  has two parts (`CffMerge.UnmatchedPairEntry`).
- A pair that matches a listed person is rebuilt from the pair's own name:
  - With two name parts, `given-names`/`family-names` come from splitting the pair's
    name, and the ORCID is looked up again. The looked-up ORCID replaces the stored one
    whenever it is valid (`CffMerge.MatchedSplitEntry`).
  - With one name part, the entry keeps the copied person fields but also gains `name`.
    It therefore classifies as an entity (`CffMerge.MatchedPairCopies`). Such an entity
    never matches the person it was copied from (`Authors.CrossTypeNeverSame`). It is
    appended next to that person unless some listed entity matches it by name or alias,
    and the scan raises instead when it reaches an author of unknown shape first.
    `CffMerge.PairRerunAppendsAgain` is one input where it is appended.
- Running the merge again over its own result changes nothing when every signal is a login
  (`CffMerge.HandleRunIdempotent`, `CffMerge.HandleUpdateIdempotent`). The second run
  reports as present exactly the logins that produced a candidate. For commit authors a
  second run need not be idempotent. A commit author whose name is white space only
  matches a listed person whose names and email are blank. It then becomes an entity with a blank name,
  which matches nothing, so it is appended again on every run
  (`CffMerge.PairRerunAppendsAgain`). A single batch still never appends an entry that
  matches an earlier one (`CffMerge.AppendedArePairwiseDistinct`).
- The result depends on the order in which the contributor set is iterated. An organisation
  login and a commit author with the organisation's name give a different author list
  and a different missing set in the two orders (`CffMerge.OrderMatters`).

## Model

| member | source | states |
|---|---|---|
| Authors.ClassificationOrder | managers/cff_manager.py:94-100 | `name` makes an entry an entity even when person keys are present; person exactly when `given-names` and `family-names` are both present without `name`; unknown otherwise |
| Authors.UnknownIsRejected | managers/cff_manager.py:52-53 | the comparison raises exactly when either entry is of unknown type |
| Authors.CrossTypeNeverSame | managers/cff_manager.py:55-57 | a person and an entity are never the same contributor |
| Authors.FieldMatchSymmetric | managers/cff_manager.py:59-92 | a field agreement between two entries does not depend on their order |
| Authors.SameIdentitySymmetric | managers/cff_manager.py:48-92 | `is_same_person(a, b)` equals `is_same_person(b, a)`, including its error |
| Authors.NormalisationInvariant | managers/cff_manager.py:59-92 | replacing an entry by one whose fields differ only in case and surrounding white space changes no comparison |
| Authors.EquivalentPersonMatch | managers/cff_manager.py:70-92 | the person rule (alias, email, ORCID, full name) gives the same answer for case/space-equivalent entries |
| Authors.EquivalentField | managers/cff_manager.py:61-62 | equivalent entries normalise every field to the same string and agree on every field match |
| Authors.NormIgnoresCaseAndPadding | managers/cff_manager.py:61-62 | `casefold().strip()` of a padded field in any case equals that of the bare field |
| Authors.BlankFieldIgnored | managers/cff_manager.py:70-85 | a blank alias, email or ORCID has the same effect on the comparison as a missing one |
| Authors.BlankNeverSame | managers/cff_manager.py:59-92 | an entry all of whose compared fields are blank matches nothing |
| Authors.EntityComparedOnNameAndAlias | managers/cff_manager.py:59-68 | two entities with the same name and alias compare the same with every entry: other keys are ignored |
| Authors.SelfSame | managers/cff_manager.py:48-92 | an entry matches itself exactly when its type is known and one compared field is non-blank |
| Provenance.FirstCategoryFrom | managers/cff_manager.py:148-155 | the found category is the first one, in the fixed order, that has evidence for the contributor; none before it has |
| Provenance.GetContributionNote | managers/cff_manager.py:102-170 | the loop over the categories returns the note the specification function defines, the error included |
| Provenance.HeadingFails | managers/cff_manager.py:126-143 | the heading fails exactly for an empty login or a pair with neither name nor email; otherwise it starts with `- ` |
| Provenance.NoteFailsWithoutEvidence | managers/cff_manager.py:148-169 | the note fails exactly when the heading fails or no category has evidence; then it raises "No contribution found for the contributor." |
| Provenance.NoteUsesFirstCategory | managers/cff_manager.py:117-167 | the note is the heading followed by the link for the first category with evidence |
| Provenance.CommitWins | managers/cff_manager.py:156-163 | with commit evidence the note links the first commit by its 7-character short sha |
| Text.SplitOnce | managers/cff_manager.py:258 | `split(" ", 1)` gives one part exactly when there is no space; otherwise two parts that rejoin to the name, the first without a space |
| Text.StripFoldCase | managers/cff_manager.py:308-312 | `strip().casefold()` and `casefold().strip()` give the same string |
| Text.StripBlank | managers/cff_manager.py:324 | `name.strip()` is empty exactly when the name is all white space |
| Text.Take | managers/cff_manager.py:163 | `sha[:7]` has length `min(7, len(sha))` and is a prefix of the sha |
| Text.SplitLines | managers/github_manager.py:121 | no line produced by `splitlines()` holds a line boundary |
| Orcid.LinkAt | update_cff_authors.py:118 | an ORCID link read at a position always yields a well-formed identifier |
| Orcid.FirstLinkFromIsLeftmost | update_cff_authors.py:117-119 | `re.search` finds a link exactly when one exists, and it returns the leftmost one |
| Orcid.ExtractOrcidIsLeftmost | update_cff_authors.py:115-119 | an empty or missing bio yields nothing; otherwise the result is the leftmost ORCID link's identifier |
| Orcid.ExtractedFromIsWellFormed | update_cff_authors.py:118-119 | every identifier found by the search from a position is well-formed |
| Orcid.ExtractedIdsAreWellFormed | update_cff_authors.py:115-124 | every extracted identifier passes the format check of `validate_orcid` |
| Orcid.MalformedRejectedWithoutLookup | update_cff_authors.py:122-124 | a missing or malformed identifier is rejected whatever the registry would answer |
| Orcid.WellFormedAskRegistry | update_cff_authors.py:122-131 | a well-formed identifier, also with the trailing newline Python's `$` admits, is valid exactly when the registry is reachable for it |
| Orcid.NameParts | update_cff_authors.py:136-138 | the given part has no space; given and family part rejoin to the stripped name, or the family part is empty for a one-word name |
| Orcid.NameQueryStart | update_cff_authors.py:139 | the query starts with `given-names:` and the given part |
| Orcid.OneWordQuery | update_cff_authors.py:136-141 | for a one-word name without email the query is `given-names:` and that name only |
| Orcid.SearchQueryShape | update_cff_authors.py:136-144 | the email clause ` OR email:"…"` is appended exactly when the email is non-empty |
| Orcid.NameMatchesCases | update_cff_authors.py:158-173 | the registry record matches when the credit name, any other name, or given and family name equal the searched name up to case and padding |
| Orcid.SearchOrcidAcceptsOnlyMatchingNames | update_cff_authors.py:146-186 | an identifier is returned exactly when the first result's record matches the name, and then it is that result's; at most one log line, none exactly when there are no results |
| Github.LeadingSpace | managers/github_manager.py:99 | the `\s*` after the trailer key consumes exactly the leading white space |
| Github.FirstOpen | managers/github_manager.py:99 | the first `<` from a position that leaves room for an email and the closing `>` |
| Github.RunStart | managers/github_manager.py:99 | the start of the white-space run before a position |
| Github.TrailerSplitSound | managers/github_manager.py:98-100 | the computed split of a trailer into name and `<email>` is a match of the pattern |
| Github.TrailerSplitPreferred | managers/github_manager.py:98-100 | whenever the pattern matches, a split is computed; of all matches it starts its name latest (the longest leading white space) and, for that start, ends the name earliest: the backtracking order of `(.+?)\s*<(.+?)>` |
| Github.StartWithinLeading | managers/github_manager.py:99 | a match cannot start its name after the leading white space |
| Github.ParseTrailerCases | managers/github_manager.py:120-126 | a line is a trailer exactly when it starts with `Co-authored-by:` in any case and the rest matches; the pair is the stripped name and email of the preferred split |
| Github.RecordTrailers | managers/github_manager.py:120-127 | the trailer loop adds every trailer pair and records the commit's sha for each |
| Github.RecordCommit | managers/github_manager.py:102-127 | one commit adds its contributor signals and records its sha under every key it touches |
| Github.CollectCommitContributors | managers/github_manager.py:95-129 | the commit loop returns the contributor set and the sha map of the specification functions |
| Github.CommitClassification | managers/github_manager.py:105-127 | a login wins; otherwise a name or email gives a pair; otherwise only the metadata key `unknown` is set; trailers count only when co-authors are included |
| Github.OverwriteLast | managers/github_manager.py:109-127 | after a series of dictionary writes a key holds the value of its last write |
| Github.OverwriteKeys | managers/github_manager.py:109-127 | a key is present after the writes exactly when some write touched it |
| Github.LastWriterWins | managers/github_manager.py:109-127 | a contributor's metadata is the sha of the last commit that names them |
| Github.MetadataKeys | managers/github_manager.py:109-127 | the metadata has a key exactly for every contributor named by some commit |
| Github.Selection | managers/github_manager.py:26-31 | only cross-referenced events whose source issue is not a pull request are kept |
| Github.SelectIssuesIsFilter | managers/github_manager.py:26-31 | the linked issues are the issue numbers of the selected events, in order; a selected event without an issue number raises |
| Github.LinkedIssuesNonOk | managers/github_manager.py:23-24 | a non-200 timeline response yields no linked issues |
| Github.AddLogins | managers/github_manager.py:43-46 | the review and comment loops add exactly the non-empty logins |
| Github.AddIssueLogins | managers/github_manager.py:63-78 | the loop over linked issues adds exactly the issue authors and commenters the flags ask for |
| Github.CollectMetadataContributors | managers/github_manager.py:33-80 | the collection returns the set the specification function defines |
| Github.AllIssueLoginsMembers | managers/github_manager.py:63-78 | a login comes from the linked issues exactly when it comes from one of them |
| Github.MetadataMembership | managers/github_manager.py:39-80 | a login is collected exactly when it is non-empty and comes from an enabled source: reviews, PR comments, or linked issue authors and commenters |
| Github.TimelineOnlyForIssues | managers/github_manager.py:57-62 | with issue sources disabled the timeline is never consulted and cannot fail the collection |
| CffMerge.BaselineMatch | managers/cff_manager.py:302-321 | a found person is in the list and agrees with the pair on full name and email; a missing email raises `AttributeError` |
| CffMerge.FindBaselinePerson | managers/cff_manager.py:302-321 | the scan over the author list returns what the specification function defines |
| CffMerge.BaselineMatchIsFirst | managers/cff_manager.py:302-321 | with an email the scan finds the first agreeing person or reports none; without one it raises exactly when some person's name agrees |
| CffMerge.BaselineMatchWithEmail | managers/cff_manager.py:302-321 | with an email the scan never raises and returns the first person that agrees on name and email |
| CffMerge.BaselineMatchWithoutEmail | managers/cff_manager.py:308-312 | without an email the scan raises exactly when a person with the same full name is listed |
| CffMerge.BuildHandleEntry | managers/cff_manager.py:229-293 | building an entry from a login yields the candidate the specification function defines |
| CffMerge.BuildPairEntry | managers/cff_manager.py:295-355 | building an entry from a name/email pair yields the candidate or error the specification function defines |
| CffMerge.ProcessSignal | managers/cff_manager.py:219-362 | one iteration of the contributor loop gives the state the specification step defines |
| CffMerge.UpdateCff | managers/cff_manager.py:172-402 | `update_cff` with `flags["post_comment"]` false computes the outcome the specification function defines |
| CffMerge.UpdateOutcomeProperties | managers/cff_manager.py:195-402 | the four missing-argument errors, in order; on success the original authors are a prefix, the appended entries are fresh, and the missing contributors are those not found already present |
| CffMerge.ErrorsStick | managers/cff_manager.py:219-227 | once a signal raises, the run ends with that error |
| CffMerge.NoteFailureAborts | managers/cff_manager.py:223-227 | a contributor without a provenance note aborts the whole update |
| CffMerge.MatchesAnyCases | managers/cff_manager.py:357 | `any(...)` is false exactly when every comparison is false; true only when some comparison is |
| CffMerge.StepEffect | managers/cff_manager.py:357-362 | a step keeps warnings and logs as prefixes and either changes nothing, only marks the signal present, or appends one fresh entry |
| CffMerge.AdmitEffect | managers/cff_manager.py:357-362 | the match-and-append step either skips, marks the signal present, or appends an entry matching no listed one |
| CffMerge.StepGrows | managers/cff_manager.py:219-362 | each signal adds at most one entry or one already-present mark, never both |
| CffMerge.RunKeepsPrefix | managers/cff_manager.py:210-362 | the loop only appends: authors, warnings and logs before the loop are prefixes of those after it |
| CffMerge.RunReports | managers/cff_manager.py:217-362 | the already-present set grows within the processed signals; appends plus marks are bounded by the signal count |
| CffMerge.RunFresh | managers/cff_manager.py:357-362 | every appended entry matched none of the entries before it |
| CffMerge.FreshAppend | managers/cff_manager.py:357-362 | appending an entry that matches nothing keeps the appended part fresh |
| CffMerge.AppendedArePairwiseDistinct | managers/cff_manager.py:357-362 | no appended entry denotes the same contributor as any other entry |
| CffMerge.EntriesAreKnown | managers/cff_manager.py:251-355 | every built entry is a person or an entity, never unknown |
| CffMerge.PairEntryIsKnown | managers/cff_manager.py:302-353 | every entry built from a pair has a known type |
| CffMerge.MatchedPairIsKnown | managers/cff_manager.py:332-353 | an entry built from a matched person has a known type |
| CffMerge.AttachKeepsKeys | managers/cff_manager.py:286-293 | attaching an ORCID changes no key but `orcid` |
| CffMerge.NonOkProfileSkips | managers/cff_manager.py:238-242 | a non-200 profile response adds only the warning with the status code and appends nothing |
| CffMerge.HandleIdempotent | managers/cff_manager.py:229-362 | processing the same login twice leaves the author list as after the first time |
| CffMerge.AdmitIdempotent | managers/cff_manager.py:357-362 | admitting the same identifiable candidate twice appends it at most once |
| CffMerge.HandleEntryIsIdentifiable | managers/cff_manager.py:247-277 | an entry built from a login has a known type and a non-blank alias, so it can match |
| CffMerge.MatchesAnyAppend | managers/cff_manager.py:357-362 | once an identifiable entry is appended, the same entry is found present |
| CffMerge.OrganizationEntry | managers/cff_manager.py:251-255 | an organisation becomes an entity named by its display name or login, aliased by its profile URL, with its email if any, and no warnings |
| CffMerge.PersonEntry | managers/cff_manager.py:256-293 | a two-part user name becomes a person whose names rejoin to it, with alias and email; an ORCID is stored as a URL exactly when found and valid, otherwise one warning |
| CffMerge.PersonCandidate | managers/cff_manager.py:256-293 | the exact candidate for a two-part user name: split names, alias, email, the chosen ORCID and its logs |
| CffMerge.SingleNameEntry | managers/cff_manager.py:264-277 | a one-word user name becomes an entity with the entity warning, without any ORCID lookup |
| CffMerge.UnmatchedPairEntry | managers/cff_manager.py:323-331 | an unmatched pair with a blank name is skipped with a warning; otherwise it becomes an entity with that name and email, identified by email or case-folded name |
| CffMerge.MatchedPairCopies | managers/cff_manager.py:314-318 | a one-word matched pair keeps the matched person's names and ORCID and the pair's email or the person's, and gains `name` |
| CffMerge.MatchedPairCandidate | managers/cff_manager.py:302-353 | a matched pair's candidate is built from a person with both name keys and an email |
| CffMerge.MatchedSplitEntry | managers/cff_manager.py:332-346 | a two-part matched pair becomes a person with the split names; a valid looked-up ORCID replaces the copied one, otherwise the copied one is kept |
| CffMerge.MatchedSplitFields | managers/cff_manager.py:332-346 | the fields of the matched-person entry built from a two-part name |
| CffMerge.MatchedSplitCandidate | managers/cff_manager.py:333-346 | the exact candidate for a two-part matched pair, identified by email or case-folded name |
| CffMerge.MatchedEntryIsSame | managers/cff_manager.py:302-346 | the entry built from a two-part matched pair is the same contributor as the matched person |
| CffMerge.MatchedPersonIsPresent | managers/cff_manager.py:302-362 | a two-part pair matching a listed person with an email is marked already present and appends nothing |
| CffMerge.MatchesAnyExtend | managers/cff_manager.py:357 | an entry found among the listed authors is still found in every list that extends them |
| CffMerge.AdmitHolds | managers/cff_manager.py:357-362 | admitting an identifiable candidate of known type keeps the listed authors as a prefix and leaves the candidate present |
| CffMerge.AdmitHeld | managers/cff_manager.py:357-360 | a candidate already present is reported in the present set and changes no author |
| CffMerge.SettledExtend | managers/cff_manager.py:357 | a login whose candidate a list holds stays settled in every extension of that list |
| CffMerge.AllSettledMembers | managers/cff_manager.py:219-362 | a list settles an order exactly in the sense that it settles every member of it |
| CffMerge.AllSettledExtend | managers/cff_manager.py:357 | a list that settles an order still settles it once extended |
| CffMerge.SettleOne | managers/cff_manager.py:229-362 | a login's iteration only appends and leaves that login's candidate present |
| CffMerge.SettleStep | managers/cff_manager.py:219-362 | after the iteration over the last login of an order its candidate is present, and every earlier login's candidate stays present |
| CffMerge.RunLast | managers/cff_manager.py:219 | a successful run is a successful run over all but the last signal followed by one iteration |
| CffMerge.FirstRunSettles | managers/cff_manager.py:219-362 | after a run over logins every login has a valid provenance note and its candidate, if any, is present in the result |
| CffMerge.SettledRunIsQuiet | managers/cff_manager.py:219-362 | a run over logins whose candidates are all present appends nothing and reports exactly the candidate-producing logins as present |
| CffMerge.ProducedSnoc | managers/cff_manager.py:229-362 | the last login of an order is among its candidate-producing logins exactly when it produces a candidate |
| CffMerge.HandleRunIdempotent | managers/cff_manager.py:219-362 | a second run over the same logins, started from the first run's authors, succeeds, keeps those authors and reports every candidate-producing login present |
| CffMerge.HandleUpdateIdempotent | managers/cff_manager.py:195-402 | `update_cff` run again over its own output for logins only returns the same author list, and its missing set is the logins that produced no candidate |
| CffMerge.PairRerunAppendsAgain | managers/cff_manager.py:302-362 | a white-space-only commit author matching a blank person is appended as a blank-named entity again on the second run: pairs are not idempotent |
| CffMerge.BlankPairAppended | managers/cff_manager.py:302-362 | into either list holding the blank person, the white-space-only commit author appends the blank-named entity |
| CffMerge.BlankPersonFacts | managers/cff_manager.py:302-318 | the blank person is the first match of the blank pair, its copy gains only the blank `name`, and that entity matches no author of either list |
| CffMerge.RunTwo | managers/cff_manager.py:219 | a run over two signals is the first step followed by the second, stopping at the first exception |
| CffMerge.AcmeHandleStep | managers/cff_manager.py:229-255 | an organisation login builds the entity named by its display name and aliased by its profile URL |
| CffMerge.AcmePairStep | managers/cff_manager.py:302-331 | a commit author named like the organisation, with no person listed, builds the entity with that name only |
| CffMerge.AcmeIntoEmpty | managers/cff_manager.py:357-362 | into an empty author list either entity is appended |
| CffMerge.AcmePairAfterHandle | managers/cff_manager.py:357-360 | once the aliased entity is listed, the commit author is reported present and nothing is appended |
| CffMerge.AcmeHandleAfterPair | managers/cff_manager.py:357-360 | once the bare entity is listed, the login is reported present and nothing is appended |
| CffMerge.AcmeNamedHeld | managers/cff_manager.py:59-68 | the aliased entity and the bare entity match by name |
| CffMerge.AcmeHandleFirst | managers/cff_manager.py:219-362 | login first: the aliased entity is kept and the commit author is reported present |
| CffMerge.AcmePairFirst | managers/cff_manager.py:219-362 | commit author first: the bare entity is kept and the login is reported present |
| CffMerge.OrderMatters | managers/cff_manager.py:195-386 | the two iteration orders of the same contributor set give different author lists and different missing sets |
| CffMerge.ReferenceOrcidIsWellFormed | managers/cff_manager.py:279-293 | with the reference ORCID helpers as lookups, a stored `orcid` is `https://orcid.org/` followed by a well-formed iD the registry answered for |
| LegacyMerge.SharedAliasAcrossShapes | update_cff_authors.py:296-305 | every entity and person with case-equal aliases are the same for the legacy predicate in both directions and different for the current one |
| LegacyMerge.UnknownStillAnswers | update_cff_authors.py:296-305 | for every author of unknown shape the current predicate raises while the legacy one matches anything with a case-equal email |
| LegacyMerge.BlankEmailsMatch | update_cff_authors.py:296-305 | every two entries with blank or absent emails are the same for the legacy predicate, while the current one never matches on that field |
| LegacyMerge.AbsentAliasMatches | update_cff_authors.py:296-305 | the legacy predicate treats two entries without `alias` as the same contributor |
| LegacyMerge.LegacyMatchesDistinctEntities | update_cff_authors.py:296-305 | two entities with different names count as the same in the legacy predicate but not in the current one |
| LegacyMerge.LegacyMatchesAcrossShapes | update_cff_authors.py:296-305 | the legacy predicate matches an entity with a person sharing its alias |
| LegacyMerge.LegacyAcceptsUnknownShape | update_cff_authors.py:296-305 | the legacy predicate compares an entry of unknown type, where the current one raises |
| LegacyMerge.LegacyMissesPaddedEmail | update_cff_authors.py:296-305 | the legacy predicate does not strip white space, so a padded email goes unmatched where the current one matches |
| LegacyMerge.PaddedFieldsDiffer | update_cff_authors.py:298-304 | every legacy field comparison fails for the padded-email pair |
| LegacyMerge.PaddedNamesDiffer | update_cff_authors.py:301-304 | the legacy full names of the two persons differ |
| LegacyMerge.PaddedEmailsAgree | managers/cff_manager.py:70-85 | the current comparison matches the two persons on their email |
| LegacyMerge.ProcessContributors | update_cff_authors.py:307-436 | the legacy loop returns the authors, new users, warnings and logs of the specification function |
| LegacyMerge.ErrorsStick | update_cff_authors.py:307-436 | once a signal raises, the legacy run ends with that error |
| LegacyMerge.StepEffect | update_cff_authors.py:431-436 | a legacy step either changes neither list or appends the built entry, matching no listed one, together with its identifier |
| LegacyMerge.RunAppendsWithIdentifiers | update_cff_authors.py:429-436 | the legacy loop only appends, one new-user identifier per appended entry, each entry matching none before it |
| LegacyMerge.NonOkProfileSkipsSilently | update_cff_authors.py:314-317 | a non-200 profile response is skipped without any warning |
| LegacyMerge.HandleEntryShape | update_cff_authors.py:313-363 | a legacy login entry is aliased by the bare login and typed `entity` exactly when it has `name` |
| LegacyMerge.PersonEntryShape | update_cff_authors.py:327-335 | a two-part legacy user name gives a `person` entry without `name` |
| LegacyMerge.PersonCandidate | update_cff_authors.py:328-361 | the exact legacy candidate for a two-part user name |
| LegacyMerge.HandleIdempotent | update_cff_authors.py:313-436 | processing the same login twice leaves the legacy author list as after the first time |
| LegacyMerge.PairBlockedByAliaslessAuthor | update_cff_authors.py:365-436 | once a listed author has no alias, no pair is ever appended |
| LegacyMerge.PairEntryHasNoAlias | update_cff_authors.py:365-428 | entries built from pairs never carry an alias |
| LegacyMerge.MatchedPairHasNoAlias | update_cff_authors.py:402-428 | an entry built from a matched person carries no alias |
| LegacyMerge.PairIdentifier | update_cff_authors.py:429 | a pair is identified by its email, or by its case-folded name without one |
| LegacyMerge.MatchedSingleNameBecomesEntity | update_cff_authors.py:418-427 | a one-word matched pair becomes a typed entity with the missing-family warning |

## Left out

- HTTP requests (GitHub REST API, ORCID registry, ORCID reachability) are not modelled. Their answers are parameters (`Lookups`, `Services`, `MetadataSources`, the commit list), because the network cannot be modelled.
- Reading and writing `CITATION.cff`, YAML parsing, `validate_cff`, `cffconvert` and `load_cff` are left out: they are file and library I/O.
- Writing `GITHUB_OUTPUT` (`new_users=`, warnings, logs) is left out. The model returns those values instead.
- CffMerge.UpdateCff: the model is the run with `flags["post_comment"]` false, so it has no `flags` parameter. With that flag true, and a non-empty `pr_number` as every caller passes, the code raises at cff_manager.py:387-400 instead of returning `missing_authors`. `flags["missing_author_invalidates_pr"]` is a `KeyError` with the flags `main.py` builds. With that key present, the call is a `TypeError`: `post_pull_request_comment` (github_manager.py:131-141) requires `new_users` and accepts none of `contribution_details`, `repo_for_compare`, `missing_authors` or `missing_author_invalidates_pr`. A `flags` without `post_comment` raises `KeyError` at :387. These raising paths are not modelled.
- `post_pull_request_comment`, `main.py`'s wiring and `create_json_for_contribution_details` are left out: they format and send output and decide no identity.
- managers/orcid_manager.py is not part of this model. The current merge takes its three operations as the `Lookups` oracles; the ORCID helpers of `update_cff_authors.py` are modelled instead, as the reference.
- The copies of the GitHub functions at update_cff_authors.py:17-112 are the same code as managers/github_manager.py and are modelled once, in `Github`.
- `sorted()` over a set of mixed strings and tuples is not modelled, because a direct comparison of a string with a tuple raises in Python. `collect_commit_contributors` returns the set, and the caller's iteration order is a sequence parameter of `UpdateCff`.
- The check that `contributors` is a `set` is ruled out by the types.
- The deep copy of the author list is implied by value semantics.
- String operations cover ASCII only: `casefold`, `lower`, `isspace`, digits and `\s`. Unicode normalisation and case folding beyond ASCII are not modelled.
- JSON `null` for nested objects (a `source: null` timeline event, say) and non-string YAML values are not modelled. Fields are `Option<string>` or `string`, so the resulting `AttributeError`/`TypeError` paths do not arise.
- Github.CommitMetadata: the per-contributor metadata is reduced to the commit sha. The dictionary the code stores holds only that sha.
- `pr_number` is a string argument. Only its emptiness matters for the modelled checks.
- CffMerge.HandleIdempotent: it covers one login stepped twice. Idempotence of a whole second run is proved only for orders made of logins (`CffMerge.HandleRunIdempotent`). For commit authors it can fail: a pair whose name is white space only, matching a listed person whose names and email are blank, becomes a blank-named entity that is appended again on each run (`CffMerge.PairRerunAppendsAgain`). Idempotence for pairs with non-blank names is not proved.
- CffMerge.Run: the author list and the missing set depend on the iteration order of the contributor set (`CffMerge.OrderMatters`). The model follows the code and promises no independence from that order.
- Github.TrailerSplit: the regular expression `(.+?)\s*<(.+?)>` is not run. It is characterised by its backtracking order (latest name start, then shortest name) and proved against every match.
