/** Signal extraction of `GithubManager`: commits of a compare reply become logins and
    `(name, email)` pairs (`collect_commit_contributors`), with `Co-authored-by:` trailers
    parsed from commit messages; timeline events are filtered to linked issues
    (`get_linked_issues`); review, comment and issue logins are united under flags
    (`collect_metadata_contributors`). Fetched JSON is given as values. */
module Github {
  import opened Wrappers
  import opened Text
  import opened Signals

  // ---------------------------------------------------------------- Co-authored-by trailers

  /** Number of white-space characters at the start of `s`. */
  function LeadingSpace(s: string): (w: nat)
    ensures w <= |s| && AllSpace(s[..w])
    ensures w < |s| ==> !IsSpace(s[w])
    decreases |s|
  {
    if |s| > 0 && IsSpace(s[0]) then
      var w := LeadingSpace(s[1..]);
      assert s[..w + 1] == [s[0]] + s[1..][..w];
      w + 1
    else 0
  }

  /** The smallest `p >= i` with `r[p] == '<'` that leaves room for a one-character email and `>`. */
  function FirstOpen(r: string, i: nat): (p: Option<nat>)
    ensures p.Some? ==> i <= p.value && p.value + 3 <= |r| && r[p.value] == '<'
    ensures forall q :: i <= q && q + 3 <= |r| && (p.None? || q < p.value) ==> r[q] != '<'
    decreases |r| - i
  {
    if i + 3 > |r| then None
    else if r[i] == '<' then Some(i)
    else FirstOpen(r, i + 1)
  }

  /** The start of the run of white space that ends just before position `p`. */
  function RunStart(r: string, p: nat): (j: nat)
    requires p <= |r|
    ensures j <= p && AllSpace(r[j..p])
    ensures j > 0 ==> !IsSpace(r[j - 1])
    decreases p
  {
    if p > 0 && IsSpace(r[p - 1]) then
      var j := RunStart(r, p - 1);
      assert r[j..p] == r[j..p - 1] + [r[p - 1]];
      j
    else p
  }

  /** Where `\s*(.+?)\s*<(.+?)>$` splits the text after `Co-authored-by:`: the name is
      `[nameStart, nameEnd)`, the `<` is at `open`, and the email runs to the final `>`. */
  datatype Split = Split(nameStart: nat, nameEnd: nat, open: nat)

  /** Every way the pattern can match: white space, a non-empty name, white space, `<`,
      a non-empty email, and `>` as the last character. */
  predicate ValidSplit(r: string, sp: Split) {
    && sp.nameStart < sp.nameEnd <= sp.open && sp.open + 3 <= |r|
    && r[|r| - 1] == '>' && r[sp.open] == '<'
    && AllSpace(r[..sp.nameStart]) && AllSpace(r[sp.nameEnd..sp.open])
  }

  /** The match the backtracking engine reports: the longest leading `\s*` that allows a match,
      then the shortest name. */
  function TrailerSplit(r: string): Option<Split> {
    if |r| == 0 || r[|r| - 1] != '>' then None
    else
      var w := LeadingSpace(r);
      match FirstOpen(r, w + 1)
      case Some(p) =>
        var j := RunStart(r, p);
        Some(Split(w, if j < w + 1 then w + 1 else j, p))
      case None =>
        if 1 <= w && w + 3 <= |r| && r[w] == '<' then Some(Split(w - 1, w, w)) else None
  }

  lemma AllSpaceSlice(s: string, i: nat, j: nat, k: nat, l: nat)
    requires i <= k <= l <= j <= |s| && AllSpace(s[i..j])
    ensures AllSpace(s[k..l])
  {
    assert forall x :: 0 <= x < l - k ==> s[k..l][x] == s[i..j][x + k - i];
  }

  /** The reported split is a match. */
  lemma TrailerSplitSound(r: string)
    requires TrailerSplit(r).Some?
    ensures ValidSplit(r, TrailerSplit(r).value)
  {
    var w := LeadingSpace(r);
    var sp := TrailerSplit(r).value;
    match FirstOpen(r, w + 1)
    case Some(p) =>
      var j := RunStart(r, p);
      AllSpaceSlice(r, j, p, sp.nameEnd, p);
    case None =>
      AllSpaceSlice(r, 0, w, 0, w - 1);
  }

  /** Whenever the pattern can match, a split is reported, and it is the one the engine prefers:
      no match has a longer leading white space, and none with the same has a shorter name. */
  lemma TrailerSplitPreferred(r: string, sp: Split)
    requires ValidSplit(r, sp)
    ensures TrailerSplit(r).Some?
    ensures sp.nameStart <= TrailerSplit(r).value.nameStart
    ensures sp.nameStart == TrailerSplit(r).value.nameStart ==> TrailerSplit(r).value.nameEnd <= sp.nameEnd
  {
    var w := LeadingSpace(r);
    StartWithinLeading(r, sp);
    match FirstOpen(r, w + 1)
    case Some(p) =>
      if sp.nameStart == w {
        PreferredWithOpen(r, sp, p);
      }
    case None =>
      PreferredWithoutOpen(r, sp);
  }

  /** No match starts its name after the longest leading white space. */
  lemma StartWithinLeading(r: string, sp: Split)
    requires ValidSplit(r, sp)
    ensures sp.nameStart <= LeadingSpace(r)
  {
  }

  /** With the name starting after all leading white space and a `<` found, the reported
      name ends no later than that of any match. */
  lemma PreferredWithOpen(r: string, sp: Split, p: nat)
    requires ValidSplit(r, sp) && sp.nameStart == LeadingSpace(r)
    requires FirstOpen(r, LeadingSpace(r) + 1) == Some(p)
    ensures RunStart(r, p) <= sp.nameEnd
  {
    assert p <= sp.open;
    if p < sp.open {
      assert r[p] == '<';
      assert p < sp.nameEnd;
    } else {
      RunStartBound(r, sp.nameEnd, p);
    }
  }

  /** Without a `<` after the leading white space, every match puts its `<` at the first
      non-space character and its name inside the white space before it. */
  lemma PreferredWithoutOpen(r: string, sp: Split)
    requires ValidSplit(r, sp)
    requires FirstOpen(r, LeadingSpace(r) + 1).None?
    ensures sp.open == LeadingSpace(r)
  {
    var w := LeadingSpace(r);
    assert sp.open <= w;
    StartWithinLeading(r, sp);
  }

  lemma {:induction false} RunStartBound(r: string, b: nat, p: nat)
    requires b <= p <= |r| && AllSpace(r[b..p])
    ensures RunStart(r, p) <= b
    decreases p
  {
    if p > b {
      assert r[b..p][p - 1 - b] == r[p - 1];
      assert r[b..p - 1] == r[b..p][..p - 1 - b];
      RunStartBound(r, b, p - 1);
    }
  }

  const TrailerKey: string := "co-authored-by:"

  /** `coauthor_regex.match(line.strip())`, giving `(name.strip(), email.strip())`. */
  function ParseTrailer(line: string): Option<Signal> {
    var l := Strip(line);
    if |l| < 15 || FoldCase(l[..15]) != TrailerKey then None
    else
      var r := l[15..];
      match TrailerSplit(r)
      case None => None
      case Some(sp) =>
        TrailerSplitSound(r);
        Some(Pair(Some(Strip(r[sp.nameStart..sp.nameEnd])), Some(Strip(r[sp.open + 1..|r| - 1]))))
  }

  /** A trailer is recognised exactly when the stripped line starts with the key in any case and
      the rest can be split as the pattern demands; the pair is the stripped parts of the
      preferred split. */
  lemma ParseTrailerCases(line: string)
    ensures var l := Strip(line);
      ParseTrailer(line).Some? <==>
        |l| >= 15 && FoldCase(l[..15]) == TrailerKey && exists sp :: ValidSplit(l[15..], sp)
    ensures ParseTrailer(line).Some? ==> var l := Strip(line); var r := l[15..]; var sp := TrailerSplit(r).value;
      && ValidSplit(r, sp)
      && ParseTrailer(line) == Some(Pair(Some(Strip(r[sp.nameStart..sp.nameEnd])), Some(Strip(r[sp.open + 1..|r| - 1]))))
  {
    var l := Strip(line);
    if |l| >= 15 && FoldCase(l[..15]) == TrailerKey {
      var r := l[15..];
      if TrailerSplit(r).Some? {
        TrailerSplitSound(r);
      }
      if exists sp :: ValidSplit(r, sp) {
        var sp :| ValidSplit(r, sp);
        TrailerSplitPreferred(r, sp);
      }
    }
  }

  // ---------------------------------------------------------------- commits

  /** `commit.author` of a compare entry; JSON `null` or absent fields are `None`. */
  datatype CommitAuthor = CommitAuthor(name: Option<string>, email: Option<string>)

  /** One commit of the compare reply: its sha, the linked GitHub account's login, the git
      author (`None` when absent, `null` or empty) and the message. */
  datatype Commit = Commit(sha: Option<string>, login: Option<string>, author: Option<CommitAuthor>, message: string)

  /** The metadata key of a commit whose author has neither name nor email. */
  const UnknownKey: Signal := Pair(Some("unknown"), None)

  /** The signal a commit contributes by its author, if any. */
  function PrimaryContributor(c: Commit): Option<Signal> {
    if Truthy(c.login) then Some(Handle(c.login.value))
    else if c.author.Some? && (Truthy(c.author.value.name) || Truthy(c.author.value.email)) then
      Some(Pair(c.author.value.name, c.author.value.email))
    else None
  }

  /** The metadata key a commit writes for its author, if any. */
  function PrimaryKey(c: Commit): Option<Signal> {
    if PrimaryContributor(c).Some? then PrimaryContributor(c)
    else if c.author.Some? then Some(UnknownKey)
    else None
  }

  function OptionSet(o: Option<Signal>): set<Signal> {
    if o.Some? then {o.value} else {}
  }

  /** The pairs of the recognised trailers among `lines`. */
  function TrailerSet(lines: seq<string>): set<Signal>
    decreases |lines|
  {
    if lines == [] then {}
    else TrailerSet(lines[..|lines| - 1]) + OptionSet(ParseTrailer(lines[|lines| - 1]))
  }

  function Trailers(c: Commit, includeCoauthors: bool): set<Signal> {
    if includeCoauthors then TrailerSet(SplitLines(c.message)) else {}
  }

  /** What one commit adds to the contributors, and the keys it writes to the metadata. */
  function CommitSignals(c: Commit, includeCoauthors: bool): set<Signal> {
    OptionSet(PrimaryContributor(c)) + Trailers(c, includeCoauthors)
  }

  function CommitKeys(c: Commit, includeCoauthors: bool): set<Signal> {
    OptionSet(PrimaryKey(c)) + Trailers(c, includeCoauthors)
  }

  function KeyMap(keys: set<Signal>, sha: Option<string>): map<Signal, Option<string>> {
    map k | k in keys :: sha
  }

  /** The contributors of `collect_commit_contributors`. */
  function CommitContributors(commits: seq<Commit>, includeCoauthors: bool): set<Signal>
    decreases |commits|
  {
    if commits == [] then {}
    else CommitContributors(commits[..|commits| - 1], includeCoauthors) + CommitSignals(commits[|commits| - 1], includeCoauthors)
  }

  /** Writes in order: each entry sets all its keys to its sha, overwriting earlier writes. */
  function Overwrite(writes: seq<(set<Signal>, Option<string>)>): map<Signal, Option<string>>
    decreases |writes|
  {
    if writes == [] then map[]
    else Overwrite(writes[..|writes| - 1]) + KeyMap(writes[|writes| - 1].0, writes[|writes| - 1].1)
  }

  /** The writes of each commit: its keys and its sha. */
  function Writes(commits: seq<Commit>, includeCoauthors: bool): (w: seq<(set<Signal>, Option<string>)>)
    ensures |w| == |commits|
    ensures forall i :: 0 <= i < |commits| ==> w[i] == (CommitKeys(commits[i], includeCoauthors), commits[i].sha)
  {
    seq(|commits|, i requires 0 <= i < |commits| => (CommitKeys(commits[i], includeCoauthors), commits[i].sha))
  }

  /** The metadata of `collect_commit_contributors`: each key maps to a commit's sha. */
  function CommitMetadata(commits: seq<Commit>, includeCoauthors: bool): map<Signal, Option<string>> {
    Overwrite(Writes(commits, includeCoauthors))
  }

  lemma KeyMapAdd(m: map<Signal, Option<string>>, keys: set<Signal>, k: Signal, sha: Option<string>)
    ensures (m + KeyMap(keys, sha))[k := sha] == m + KeyMap(keys + {k}, sha)
  {
  }

  lemma KeyMapUnion(m: map<Signal, Option<string>>, a: set<Signal>, b: set<Signal>, sha: Option<string>)
    ensures m + KeyMap(a, sha) + KeyMap(b, sha) == m + KeyMap(a + b, sha)
  {
  }

  /** The trailer loop over the lines of one message. */
  method RecordTrailers(lines: seq<string>, sha: Option<string>, contributors: set<Signal>, metadata: map<Signal, Option<string>>)
    returns (contributors': set<Signal>, metadata': map<Signal, Option<string>>)
    ensures contributors' == contributors + TrailerSet(lines)
    ensures metadata' == metadata + KeyMap(TrailerSet(lines), sha)
  {
    contributors' := contributors;
    metadata' := metadata;
    for j := 0 to |lines|
      invariant contributors' == contributors + TrailerSet(lines[..j])
      invariant metadata' == metadata + KeyMap(TrailerSet(lines[..j]), sha)
    {
      assert lines[..j + 1][..j] == lines[..j];
      var key := ParseTrailer(lines[j]);
      if key.Some? {
        KeyMapAdd(metadata, TrailerSet(lines[..j]), key.value, sha);
        contributors' := contributors' + {key.value};
        metadata' := metadata'[key.value := sha];
      } else {
        assert TrailerSet(lines[..j + 1]) == TrailerSet(lines[..j]);
      }
    }
    assert lines[..|lines|] == lines;
  }

  /** One iteration of the commit loop: the author's signal, then each trailer line. */
  method RecordCommit(c: Commit, includeCoauthors: bool, contributors: set<Signal>, metadata: map<Signal, Option<string>>)
    returns (contributors': set<Signal>, metadata': map<Signal, Option<string>>)
    ensures contributors' == contributors + CommitSignals(c, includeCoauthors)
    ensures metadata' == metadata + KeyMap(CommitKeys(c, includeCoauthors), c.sha)
  {
    contributors' := contributors;
    metadata' := metadata;
    if Truthy(c.login) {
      contributors' := contributors' + {Handle(c.login.value)};
      metadata' := metadata'[Handle(c.login.value) := c.sha];
    } else if c.author.Some? {
      var key := Pair(c.author.value.name, c.author.value.email);
      if Truthy(c.author.value.name) || Truthy(c.author.value.email) {
        contributors' := contributors' + {key};
        metadata' := metadata'[key := c.sha];
      } else {
        metadata' := metadata'[UnknownKey := c.sha];
      }
    }
    assert metadata' == metadata + KeyMap(OptionSet(PrimaryKey(c)), c.sha);
    if includeCoauthors {
      contributors', metadata' := RecordTrailers(SplitLines(c.message), c.sha, contributors', metadata');
      KeyMapUnion(metadata, OptionSet(PrimaryKey(c)), Trailers(c, includeCoauthors), c.sha);
    } else {
      assert OptionSet(PrimaryKey(c)) + {} == OptionSet(PrimaryKey(c));
    }
  }

  /** `collect_commit_contributors` after the fetch: the loop over commits. */
  method CollectCommitContributors(commits: seq<Commit>, includeCoauthors: bool)
    returns (contributors: set<Signal>, metadata: map<Signal, Option<string>>)
    ensures contributors == CommitContributors(commits, includeCoauthors)
    ensures metadata == CommitMetadata(commits, includeCoauthors)
  {
    contributors := {};
    metadata := map[];
    for i := 0 to |commits|
      invariant contributors == CommitContributors(commits[..i], includeCoauthors)
      invariant metadata == CommitMetadata(commits[..i], includeCoauthors)
    {
      assert commits[..i + 1][..i] == commits[..i];
      assert Writes(commits[..i + 1], includeCoauthors)[..i] == Writes(commits[..i], includeCoauthors);
      contributors, metadata := RecordCommit(commits[i], includeCoauthors, contributors, metadata);
    }
    assert commits[..|commits|] == commits;
  }

  /** A commit linked to a GitHub account contributes its login only; otherwise a git author
      with a truthy name or email contributes the pair; one with neither is only recorded
      under `("unknown", None)`. Trailers are read only when asked for. */
  lemma CommitClassification(c: Commit, includeCoauthors: bool)
    ensures Truthy(c.login) ==> CommitSignals(c, includeCoauthors) == {Handle(c.login.value)} + Trailers(c, includeCoauthors)
    ensures !Truthy(c.login) && c.author.Some? && (Truthy(c.author.value.name) || Truthy(c.author.value.email)) ==>
      CommitSignals(c, includeCoauthors) == {Pair(c.author.value.name, c.author.value.email)} + Trailers(c, includeCoauthors)
    ensures !Truthy(c.login) && c.author.Some? && !Truthy(c.author.value.name) && !Truthy(c.author.value.email) ==>
      CommitSignals(c, includeCoauthors) == Trailers(c, includeCoauthors)
      && CommitKeys(c, includeCoauthors) == {UnknownKey} + Trailers(c, includeCoauthors)
    ensures !includeCoauthors ==> Trailers(c, includeCoauthors) == {}
    ensures CommitSignals(c, includeCoauthors) <= CommitKeys(c, includeCoauthors)
  {
  }

  /** A key maps to the sha of the last write that names it; the map holds exactly the keys
      some write names. */
  lemma {:induction false} OverwriteLast(writes: seq<(set<Signal>, Option<string>)>, k: Signal, i: nat)
    requires i < |writes| && k in writes[i].0
    requires forall j :: i < j < |writes| ==> k !in writes[j].0
    ensures k in Overwrite(writes) && Overwrite(writes)[k] == writes[i].1
    decreases |writes|
  {
    var prefix := writes[..|writes| - 1];
    if i < |writes| - 1 {
      assert prefix[i] == writes[i];
      forall j | i < j < |prefix| ensures k !in prefix[j].0 {
        assert prefix[j] == writes[j];
      }
      OverwriteLast(prefix, k, i);
    }
  }

  lemma {:induction false} OverwriteKeys(writes: seq<(set<Signal>, Option<string>)>, k: Signal)
    ensures k in Overwrite(writes) <==> exists i :: 0 <= i < |writes| && k in writes[i].0
    decreases |writes|
  {
    if writes != [] {
      var prefix := writes[..|writes| - 1];
      OverwriteKeys(prefix, k);
      if exists i :: 0 <= i < |writes| && k in writes[i].0 {
        var i :| 0 <= i < |writes| && k in writes[i].0;
        if i < |prefix| {
          assert prefix[i] == writes[i];
        }
      }
      if exists i :: 0 <= i < |prefix| && k in prefix[i].0 {
        var i :| 0 <= i < |prefix| && k in prefix[i].0;
        assert writes[i] == prefix[i];
      }
    }
  }

  /** Later commits overwrite: a recorded key maps to the sha of the last commit that recorded it. */
  lemma LastWriterWins(commits: seq<Commit>, includeCoauthors: bool, k: Signal, i: nat)
    requires i < |commits| && k in CommitKeys(commits[i], includeCoauthors)
    requires forall j :: i < j < |commits| ==> k !in CommitKeys(commits[j], includeCoauthors)
    ensures k in CommitMetadata(commits, includeCoauthors)
    ensures CommitMetadata(commits, includeCoauthors)[k] == commits[i].sha
  {
    OverwriteLast(Writes(commits, includeCoauthors), k, i);
  }

  /** The metadata holds exactly the keys some commit records. */
  lemma MetadataKeys(commits: seq<Commit>, includeCoauthors: bool, k: Signal)
    ensures k in CommitMetadata(commits, includeCoauthors) <==>
      exists i :: 0 <= i < |commits| && k in CommitKeys(commits[i], includeCoauthors)
  {
    var w := Writes(commits, includeCoauthors);
    OverwriteKeys(w, k);
    if exists i :: 0 <= i < |w| && k in w[i].0 {
      var i :| 0 <= i < |w| && k in w[i].0;
      assert k in CommitKeys(commits[i], includeCoauthors);
    }
  }

  // ---------------------------------------------------------------- linked issues

  /** `source.issue` of a timeline event: whether it carries a non-null `pull_request`, and its number. */
  datatype SourceIssue = SourceIssue(pullRequest: bool, number: Option<int>)
  datatype EventSource = EventSource(issue: Option<SourceIssue>)
  datatype TimelineEvent = TimelineEvent(event: Option<string>, source: Option<EventSource>)

  /** The comprehension's filter: a cross-reference whose source is not a pull request
      (a missing `source` or `issue` counts as not a pull request). */
  predicate Selected(ev: TimelineEvent) {
    ev.event == Some("cross-referenced")
    && !(ev.source.Some? && ev.source.value.issue.Some? && ev.source.value.issue.value.pullRequest)
  }

  /** `event["source"]["issue"]["number"]`, raising `KeyError` on a missing key. */
  function IssueNumber(ev: TimelineEvent): Result<int> {
    if ev.source.None? then Err(KeyError("source"))
    else if ev.source.value.issue.None? then Err(KeyError("issue"))
    else if ev.source.value.issue.value.number.None? then Err(KeyError("number"))
    else Ok(ev.source.value.issue.value.number.value)
  }

  function SelectIssues(events: seq<TimelineEvent>): Result<seq<int>>
    decreases |events|
  {
    if events == [] then Ok([])
    else if Selected(events[0]) then
      var n :- IssueNumber(events[0]);
      var rest :- SelectIssues(events[1..]);
      Ok([n] + rest)
    else SelectIssues(events[1..])
  }

  /** `get_linked_issues` on the timeline reply. */
  function LinkedIssues(status: nat, events: seq<TimelineEvent>): Result<seq<int>> {
    if status != 200 then Ok([]) else SelectIssues(events)
  }

  /** The selected events, in order. */
  function Selection(events: seq<TimelineEvent>): (s: seq<TimelineEvent>)
    ensures forall i :: 0 <= i < |s| ==> Selected(s[i])
    decreases |events|
  {
    if events == [] then []
    else if Selected(events[0]) then [events[0]] + Selection(events[1..])
    else Selection(events[1..])
  }

  /** The result lists, in order, the issue numbers of the selected events; it raises exactly
      when a selected event lacks `source`, `issue` or `number`. */
  lemma {:induction false} SelectIssuesIsFilter(events: seq<TimelineEvent>)
    ensures SelectIssues(events).Ok? <==> forall i :: 0 <= i < |Selection(events)| ==> IssueNumber(Selection(events)[i]).Ok?
    ensures SelectIssues(events).Ok? ==>
      && |SelectIssues(events).value| == |Selection(events)|
      && forall i :: 0 <= i < |Selection(events)| ==> SelectIssues(events).value[i] == IssueNumber(Selection(events)[i]).value
    decreases |events|
  {
    if events != [] {
      SelectIssuesIsFilter(events[1..]);
      if Selected(events[0]) {
        var s := Selection(events);
        assert s == [events[0]] + Selection(events[1..]);
        var t := Selection(events[1..]);
        assert s[0] == events[0];
        assert forall i :: 1 <= i < |s| ==> s[i] == t[i - 1];
        if IssueNumber(events[0]).Ok? && SelectIssues(events[1..]).Err? {
          var i :| 0 <= i < |t| && IssueNumber(t[i]).Err?;
          assert s[i + 1] == t[i];
        }
      } else {
        assert Selection(events) == Selection(events[1..]);
      }
    }
  }

  /** A failed timeline request gives no issues. */
  lemma LinkedIssuesNonOk(status: nat, events: seq<TimelineEvent>)
    requires status != 200
    ensures LinkedIssues(status, events) == Ok([])
  {
  }

  // ---------------------------------------------------------------- metadata contributors

  /** The replies `collect_metadata_contributors` reads: `user.login` of each review and PR
      comment, the timeline reply, and per issue number its author's login and its comments'. */
  datatype MetadataSources = MetadataSources(
    reviews: seq<Option<string>>,
    prComments: seq<Option<string>>,
    timelineStatus: nat,
    timeline: seq<TimelineEvent>,
    issueAuthor: int -> Option<string>,
    issueComments: int -> seq<Option<string>>)

  datatype MetadataFlags = MetadataFlags(reviews: bool, prComment: bool, issues: bool, issueComments: bool)

  /** The truthy logins of a list. */
  function Logins(users: seq<Option<string>>): set<string> {
    set u | u in users && Truthy(u) :: u.value
  }

  /** The logins taken from one linked issue. */
  function IssueLogins(src: MetadataSources, flags: MetadataFlags, n: int): set<string> {
    (if flags.issues then Logins([src.issueAuthor(n)]) else {})
    + (if flags.issueComments then Logins(src.issueComments(n)) else {})
  }

  function AllIssueLogins(src: MetadataSources, flags: MetadataFlags, issues: seq<int>): set<string>
    decreases |issues|
  {
    if issues == [] then {}
    else AllIssueLogins(src, flags, issues[..|issues| - 1]) + IssueLogins(src, flags, issues[|issues| - 1])
  }

  /** `collect_metadata_contributors` after the fetches. */
  function MetadataContributors(src: MetadataSources, flags: MetadataFlags): Result<set<string>> {
    var direct := (if flags.reviews then Logins(src.reviews) else {})
      + (if flags.prComment then Logins(src.prComments) else {});
    if !flags.issues && !flags.issueComments then Ok(direct)
    else
      match LinkedIssues(src.timelineStatus, src.timeline)
      case Err(e) => Err(e)
      case Ok(issues) => Ok(direct + AllIssueLogins(src, flags, issues))
  }

  /** Add the truthy logins of `users`, one at a time. */
  method AddLogins(acc: set<string>, users: seq<Option<string>>) returns (r: set<string>)
    ensures r == acc + Logins(users)
  {
    r := acc;
    for i := 0 to |users|
      invariant r == acc + Logins(users[..i])
    {
      assert Logins(users[..i + 1]) == Logins(users[..i]) + Logins([users[i]]) by {
        assert users[..i + 1] == users[..i] + [users[i]];
      }
      if Truthy(users[i]) {
        r := r + {users[i].value};
      }
    }
    assert users[..|users|] == users;
  }

  /** The loop over the linked issues. */
  method AddIssueLogins(acc: set<string>, src: MetadataSources, flags: MetadataFlags, linked: seq<int>) returns (r: set<string>)
    ensures r == acc + AllIssueLogins(src, flags, linked)
  {
    r := acc;
    for k := 0 to |linked|
      invariant r == acc + AllIssueLogins(src, flags, linked[..k])
    {
      assert linked[..k + 1][..k] == linked[..k];
      if flags.issues {
        r := AddLogins(r, [src.issueAuthor(linked[k])]);
      }
      if flags.issueComments {
        r := AddLogins(r, src.issueComments(linked[k]));
      }
    }
    assert linked[..|linked|] == linked;
  }

  /** `collect_metadata_contributors` as written: one loop per source. */
  method CollectMetadataContributors(src: MetadataSources, flags: MetadataFlags) returns (r: Result<set<string>>)
    ensures r == MetadataContributors(src, flags)
  {
    var contributors: set<string> := {};
    if flags.reviews {
      contributors := AddLogins(contributors, src.reviews);
    }
    if flags.prComment {
      contributors := AddLogins(contributors, src.prComments);
    }
    if flags.issues || flags.issueComments {
      var reply := LinkedIssues(src.timelineStatus, src.timeline);
      if reply.Err? {
        assert MetadataContributors(src, flags) == Err(reply.error);
        return Err(reply.error);
      }
      contributors := AddIssueLogins(contributors, src, flags, reply.value);
      assert MetadataContributors(src, flags).Ok?;
      assert MetadataContributors(src, flags).value == contributors;
    } else {
      assert MetadataContributors(src, flags).Ok?;
      assert MetadataContributors(src, flags).value == contributors;
    }
    r := Ok(contributors);
  }

  lemma {:induction false} AllIssueLoginsMembers(src: MetadataSources, flags: MetadataFlags, issues: seq<int>, x: string)
    ensures x in AllIssueLogins(src, flags, issues) <==> exists k :: 0 <= k < |issues| && x in IssueLogins(src, flags, issues[k])
    decreases |issues|
  {
    if issues != [] {
      var prefix := issues[..|issues| - 1];
      AllIssueLoginsMembers(src, flags, prefix, x);
      if exists k :: 0 <= k < |issues| && x in IssueLogins(src, flags, issues[k]) {
        var k :| 0 <= k < |issues| && x in IssueLogins(src, flags, issues[k]);
        if k < |prefix| {
          assert prefix[k] == issues[k];
        }
      }
      if exists k :: 0 <= k < |prefix| && x in IssueLogins(src, flags, prefix[k]) {
        var k :| 0 <= k < |prefix| && x in IssueLogins(src, flags, prefix[k]);
        assert issues[k] == prefix[k];
      }
    }
  }

  /** A login is collected exactly when it is truthy and appears in an enabled source; issue
      and issue-comment logins come only through the linked issues. */
  lemma MetadataMembership(src: MetadataSources, flags: MetadataFlags, x: string)
    requires MetadataContributors(src, flags).Ok?
    ensures x in MetadataContributors(src, flags).value <==>
      x != "" && (
        || (flags.reviews && Some(x) in src.reviews)
        || (flags.prComment && Some(x) in src.prComments)
        || ((flags.issues || flags.issueComments) &&
            exists k :: 0 <= k < |LinkedIssues(src.timelineStatus, src.timeline).value| &&
              var n := LinkedIssues(src.timelineStatus, src.timeline).value[k];
              (flags.issues && src.issueAuthor(n) == Some(x)) || (flags.issueComments && Some(x) in src.issueComments(n))))
  {
    if flags.issues || flags.issueComments {
      AllIssueLoginsMembers(src, flags, LinkedIssues(src.timelineStatus, src.timeline).value, x);
    }
  }

  /** With the issue flags off the timeline is not consulted: its reply cannot change or fail the result. */
  lemma TimelineOnlyForIssues(src: MetadataSources, flags: MetadataFlags, status: nat, events: seq<TimelineEvent>)
    requires !flags.issues && !flags.issueComments
    ensures MetadataContributors(src, flags).Ok?
    ensures MetadataContributors(src.(timelineStatus := status, timeline := events), flags) == MetadataContributors(src, flags)
  {
  }
}
