/** The merge of `CffManager.update_cff`: each contributor signal becomes a candidate author
    entry, which is appended to the `authors` list unless an entry already there denotes the
    same contributor. GitHub profiles and the ORCID service are parameters (`Lookups`). */
module CffMerge {
  import opened Wrappers
  import opened Text
  import opened Signals
  import opened Authors
  import opened Provenance
  import Orcid

  /** The fields of a GitHub user profile that `update_cff` reads; JSON `null` or absent is `None`. */
  datatype Profile = Profile(kind: Option<string>, name: Option<string>, email: Option<string>, bio: Option<string>)

  /** The reply to `GET https://api.github.com/users/{login}`. */
  datatype ProfileReply = ProfileReply(status: nat, user: Profile)

  /** The services `update_cff` consults: the GitHub user endpoint and the three ORCID helpers
      (`extract_orcid`, `search_orcid` with the log lines it appends, `validate_orcid`). */
  datatype Lookups = Lookups(
    profile: string -> ProfileReply,
    extractOrcid: Option<string> -> Option<string>,
    searchOrcid: (string, Option<string>) -> (Option<string>, seq<string>),
    validateOrcid: string -> bool)

  /** What stays fixed during one merge: the evidence per signal, the repository the commit
      links point at, and the services. */
  datatype Env = Env(details: Evidence, repoForCompare: string, lookups: Lookups)

  /** The candidate built for one signal: skipped with warnings, or an entry to deduplicate
      together with its identifier for the "already exists" warning, its warnings and ORCID logs. */
  datatype Build =
    | Skipped(warnings: seq<string>)
    | Candidate(entry: Author, identifier: string, warnings: seq<string>, logs: seq<string>)

  /** The variables the merge loop updates. */
  datatype RunState = RunState(authors: seq<Author>, warnings: seq<string>, logs: seq<string>, already: set<Signal>)

  /** What `update_cff` produces: the new author list (written to the CFF file), the warnings
      and ORCID logs (written to the output file) and the returned `missing_authors`. */
  datatype Outcome = Outcome(authors: seq<Author>, warnings: seq<string>, logs: seq<string>, missing: set<Signal>)

  const NoneSplit: string := "'NoneType' object has no attribute 'split'"
  const NoneStrip: string := "'NoneType' object has no attribute 'strip'"
  const SingleNameWarning: string := ": Only one name part found, treated as entity for deduplication consistency."

  function Members(s: seq<Signal>): set<Signal> {
    set c | c in s
  }

  // ---------------------------------------------------------------- entry building

  /** `https://github.com/{login.casefold().strip()}`. */
  function ProfileUrl(h: string): string {
    "https://github.com/" + Norm(h)
  }

  function OrcidUrl(id: string): string {
    "https://orcid.org/" + id
  }

  /** `if email: entry["email"] = email`. */
  function WithEmail(e: Author, email: Option<string>): Author {
    if Truthy(email) then e["email" := email.value] else e
  }

  /** Store a valid iD as a URL; otherwise leave the entry and warn. */
  function AttachOrcid(e: Author, orcid: Option<string>, valid: string -> bool, who: string): (Author, seq<string>) {
    if Truthy(orcid) && valid(orcid.value) then (e["orcid" := OrcidUrl(orcid.value)], [])
    else if Truthy(orcid) then (e, ["- " + who + ": ORCID `" + orcid.value + "` is invalid or unreachable."])
    else (e, ["- " + who + ": No ORCID found."])
  }

  /** The iD from the bio, or else (for a non-empty name) from a search, with the search's logs. */
  function OrcidChoice(lk: Lookups, fullName: string, user: Profile): (Option<string>, seq<string>) {
    var found := lk.extractOrcid(user.bio);
    if !Truthy(found) && fullName != "" then lk.searchOrcid(fullName, user.email) else (found, [])
  }

  /** The candidate for a GitHub login. */
  function HandleCandidate(lk: Lookups, h: string, note: string): Build {
    var reply := lk.profile(h);
    if reply.status != 200 then
      Skipped(["- @" + h + ": Unable to fetch user data from GitHub API. Status code: " + NatToString(reply.status) + note])
    else
      var user := reply.user;
      if user.kind == Some("Organization") then
        Candidate(WithEmail(map["name" := OrElse(user.name, h), "alias" := ProfileUrl(h)], user.email), FoldCase(h), [], [])
      else
        var fullName := OrElse(user.name, h);
        var parts := SplitFirstSpace(fullName);
        if |parts| > 1 then
          var (orcid, logs) := OrcidChoice(lk, fullName, user);
          var person := WithEmail(map["given-names" := parts[0], "family-names" := parts[1], "alias" := ProfileUrl(h)], user.email);
          var (entry, warnings) := AttachOrcid(person, orcid, lk.validateOrcid, "@" + h);
          Candidate(entry, FoldCase(h), warnings, logs)
        else
          Candidate(map["name" := fullName, "alias" := ProfileUrl(h)], FoldCase(h), ["- @" + h + SingleNameWarning + note], [])
  }

  /** The keys a baseline author needs for the name-and-email scan. */
  predicate HasPersonKeys(a: Author) {
    "given-names" in a && "family-names" in a && "email" in a
  }

  /** `"{given} {family}".strip().casefold() == name.strip().casefold()`. */
  predicate NameAgrees(a: Author, name: string)
    requires HasPersonKeys(a)
  {
    FoldCase(Strip(a["given-names"] + " " + a["family-names"])) == FoldCase(Strip(name))
  }

  predicate EmailAgrees(a: Author, email: string)
    requires HasPersonKeys(a)
  {
    FoldCase(Strip(a["email"])) == FoldCase(Strip(email))
  }

  predicate IsBaselineMatch(a: Author, name: string, email: string) {
    HasPersonKeys(a) && NameAgrees(a, name) && EmailAgrees(a, email)
  }

  /** The scan for a listed author with the same name and email; the email is only read
      (and `None` only raises) once a name agrees. */
  function BaselineMatch(authors: seq<Author>, name: string, email: Option<string>): (r: Result<Option<Author>>)
    ensures r.Ok? && r.value.Some? ==>
      r.value.value in authors && email.Some? && IsBaselineMatch(r.value.value, name, email.value)
    ensures r.Err? ==> email.None? && r.error == AttributeError(NoneStrip)
    decreases |authors|
  {
    if authors == [] then Ok(None)
    else if HasPersonKeys(authors[0]) && NameAgrees(authors[0], name) then
      if email.None? then Err(AttributeError(NoneStrip))
      else if EmailAgrees(authors[0], email.value) then Ok(Some(authors[0]))
      else BaselineMatch(authors[1..], name, email)
    else BaselineMatch(authors[1..], name, email)
  }

  /** The fields copied from the matched author. */
  function CopiedPerson(p: Author): Author
    requires HasPersonKeys(p)
  {
    var e := map["given-names" := p["given-names"], "family-names" := p["family-names"], "email" := p["email"]];
    if "orcid" in p then e["orcid" := p["orcid"]] else e
  }

  /** The candidate for a commit author `(name, email)`. */
  function PairCandidate(lk: Lookups, authors: seq<Author>, name: Option<string>, email: Option<string>, note: string): Result<Build> {
    if name.None? then Err(AttributeError(NoneSplit))
    else
      var n := name.value;
      var found :- BaselineMatch(authors, n, email);
      if found.None? then Ok(UnmatchedPair(n, email, note))
      else Ok(MatchedPair(lk, found.value, n, email, note))
  }

  /** A pair no listed person matches: an entity carrying the raw name, or skipped when blank. */
  function UnmatchedPair(n: string, email: Option<string>, note: string): Build {
    if Strip(n) == "" then Skipped(["- Commit author with email `" + Show(email) + "` has no name and was skipped." + note])
    else Candidate(WithEmail(map["name" := n], email), OrElse(email, FoldCase(n)), [], [])
  }

  /** A pair matching listed person `p`: `p`'s fields, then the split name and the pair's email. */
  function MatchedPair(lk: Lookups, p: Author, n: string, email: Option<string>, note: string): Build
    requires HasPersonKeys(p)
  {
    var id := OrElse(email, FoldCase(n));
    var base := CopiedPerson(p);
    var parts := SplitFirstSpace(n);
    if |parts| > 1 then
      var (orcid, logs) := lk.searchOrcid(n, email);
      var person := WithEmail(base["given-names" := parts[0]]["family-names" := parts[1]], email);
      var (entry, warnings) := AttachOrcid(person, orcid, lk.validateOrcid, "`" + n + "`");
      Candidate(entry, id, warnings, logs)
    else
      Candidate(WithEmail(base["name" := n], email), id, ["- `" + n + "`" + SingleNameWarning + note], [])
  }

  function BuildEntry(lk: Lookups, authors: seq<Author>, c: Signal, note: string): Result<Build> {
    match c
    case Handle(h) => Ok(HandleCandidate(lk, h, note))
    case Pair(n, e) => PairCandidate(lk, authors, n, e, note)
  }

  // ---------------------------------------------------------------- deduplication

  /** `any(is_same_person(a, entry) for a in authors)`: stops at the first match, raises at the
      first unknown-shaped author reached. */
  function MatchesAny(authors: seq<Author>, e: Author): Result<bool>
    decreases |authors|
  {
    if authors == [] then Ok(false)
    else
      var same :- SameIdentity(authors[0], e);
      if same then Ok(true) else MatchesAny(authors[1..], e)
  }

  /** One iteration of the merge loop. */
  function Step(env: Env, st: RunState, c: Signal): Result<RunState> {
    var note :- ContributionNote(c, env.details, env.repoForCompare);
    var b :- BuildEntry(env.lookups, st.authors, c, note);
    Admit(st, c, b)
  }

  /** The end of an iteration: a skip keeps its warnings; a candidate is reported as already
      present when it matches a listed author, and appended otherwise. */
  function Admit(st: RunState, c: Signal, b: Build): Result<RunState> {
    match b
    case Skipped(w) => Ok(st.(warnings := st.warnings + w))
    case Candidate(e, id, w, l) =>
      var dup :- MatchesAny(st.authors, e);
      if dup then
        Ok(RunState(st.authors, st.warnings + w + ["- " + id + ": Already exists in CFF file."], st.logs + l, st.already + {c}))
      else
        Ok(RunState(st.authors + [e], st.warnings + w, st.logs + l, st.already))
  }

  /** The loop over the signals in iteration order; the first exception ends it. */
  function Run(env: Env, init: RunState, order: seq<Signal>): Result<RunState>
    decreases |order|
  {
    if order == [] then Ok(init)
    else
      var st :- Run(env, init, order[..|order| - 1]);
      Step(env, st, order[|order| - 1])
  }

  /** `update_cff` with `flags["post_comment"]` false: the argument checks, then the loop over
      a copy of the authors, then the contributors not reported as already present. */
  function UpdateOutcome(env: Env, original: seq<Author>, contributors: seq<Signal>,
                         token: string, repo: string, prNumber: string, outputFile: string): Result<Outcome>
  {
    if token == "" then Err(ValueError("GitHub token is not provided."))
    else if repo == "" then Err(ValueError("Repository is not provided."))
    else if prNumber == "" then Err(ValueError("Pull request number is not provided."))
    else if outputFile == "" then Err(ValueError("Output file path is not provided."))
    else
      var st :- Run(env, RunState(original, [], [], {}), contributors);
      Ok(Outcome(st.authors, st.warnings, st.logs, Members(contributors) - st.already))
  }

  // ---------------------------------------------------------------- the code as written

  /** The scan of `update_cff` over the authors for a name-and-email match, with `break`. */
  method FindBaselinePerson(authors: seq<Author>, name: string, email: Option<string>) returns (r: Result<Option<Author>>)
    ensures r == BaselineMatch(authors, name, email)
  {
    r := Ok(None);
    var i := 0;
    while i < |authors|
      invariant 0 <= i <= |authors|
      invariant r == Ok(None)
      invariant BaselineMatch(authors, name, email) == BaselineMatch(authors[i..], name, email)
    {
      var existing := authors[i];
      assert authors[i..][1..] == authors[i + 1..];
      if HasPersonKeys(existing) {
        var existingName := FoldCase(Strip(existing["given-names"] + " " + existing["family-names"]));
        if existingName == FoldCase(Strip(name)) {
          if email.None? {
            return Err(AttributeError(NoneStrip));
          }
          if FoldCase(Strip(existing["email"])) == FoldCase(Strip(email.value)) {
            r := Ok(Some(existing));
            break;
          }
        }
      }
      i := i + 1;
    }
  }

  /** The entry building for a login, assigning into `entry` as the loop body does. */
  method BuildHandleEntry(lk: Lookups, h: string, note: string) returns (b: Build)
    ensures b == HandleCandidate(lk, h, note)
  {
    var identifier := FoldCase(h);
    var resp := lk.profile(h);
    if resp.status != 200 {
      return Skipped(["- @" + h + ": Unable to fetch user data from GitHub API. Status code: " + NatToString(resp.status) + note]);
    }
    var user := resp.user;
    var profileUrl := ProfileUrl(h);
    var entry: Author := map[];
    var warnings: seq<string> := [];
    var logs: seq<string> := [];
    if user.kind == Some("Organization") {
      entry := entry["name" := OrElse(user.name, h)];
      entry := entry["alias" := profileUrl];
      if Truthy(user.email) {
        entry := entry["email" := user.email.value];
      }
      assert entry == WithEmail(map["name" := OrElse(user.name, h), "alias" := profileUrl], user.email);
    } else {
      var fullName := OrElse(user.name, h);
      var nameParts := SplitFirstSpace(fullName);
      if |nameParts| > 1 {
        entry := entry["given-names" := nameParts[0]];
        entry := entry["family-names" := nameParts[1]];
        entry := entry["alias" := profileUrl];
        assert entry == map["given-names" := nameParts[0], "family-names" := nameParts[1], "alias" := profileUrl];
      } else {
        entry := entry["name" := fullName];
        entry := entry["alias" := profileUrl];
        warnings := warnings + ["- @" + h + SingleNameWarning + note];
        assert entry == map["name" := fullName, "alias" := profileUrl];
        return Candidate(entry, identifier, warnings, logs);
      }
      if Truthy(user.email) {
        entry := entry["email" := user.email.value];
      }
      ghost var person := entry;
      assert person == WithEmail(map["given-names" := nameParts[0], "family-names" := nameParts[1], "alias" := profileUrl], user.email);
      var orcid := lk.extractOrcid(user.bio);
      if !Truthy(orcid) && fullName != "" {
        var searched := lk.searchOrcid(fullName, user.email);
        orcid := searched.0;
        logs := logs + searched.1;
        assert logs == searched.1;
      }
      assert orcid == OrcidChoice(lk, fullName, user).0 && logs == OrcidChoice(lk, fullName, user).1;
      var who := "@" + h;
      assert warnings == [] && entry == person;
      if Truthy(orcid) && lk.validateOrcid(orcid.value) {
        entry := entry["orcid" := OrcidUrl(orcid.value)];
        assert entry == AttachOrcid(person, orcid, lk.validateOrcid, who).0;
        assert warnings == AttachOrcid(person, orcid, lk.validateOrcid, who).1;
      } else if Truthy(orcid) {
        warnings := warnings + ["- " + who + ": ORCID `" + orcid.value + "` is invalid or unreachable."];
        assert entry == AttachOrcid(person, orcid, lk.validateOrcid, who).0;
        assert warnings == AttachOrcid(person, orcid, lk.validateOrcid, who).1;
      } else {
        warnings := warnings + ["- " + who + ": No ORCID found."];
        assert entry == AttachOrcid(person, orcid, lk.validateOrcid, who).0;
        assert warnings == AttachOrcid(person, orcid, lk.validateOrcid, who).1;
      }
    }
    b := Candidate(entry, identifier, warnings, logs);
  }

  /** The entry building for a commit author, assigning into `entry` as the loop body does. */
  method BuildPairEntry(lk: Lookups, authors: seq<Author>, name: Option<string>, email: Option<string>, note: string)
    returns (r: Result<Build>)
    ensures r == PairCandidate(lk, authors, name, email, note)
  {
    if name.None? {
      return Err(AttributeError(NoneSplit));
    }
    var nameParts := SplitFirstSpace(name.value);
    var fullName := name.value;
    var entry: Author := map[];
    var warnings: seq<string> := [];
    var logs: seq<string> := [];
    var existing :- FindBaselinePerson(authors, fullName, email);
    if existing.None? {
      if Strip(fullName) == "" {
        return Ok(Skipped(["- Commit author with email `" + Show(email) + "` has no name and was skipped." + note]));
      }
      entry := entry["name" := fullName];
      if Truthy(email) {
        entry := entry["email" := email.value];
      }
      assert entry == WithEmail(map["name" := fullName], email);
    } else {
      var p := existing.value;
      entry := entry["given-names" := p["given-names"]];
      entry := entry["family-names" := p["family-names"]];
      entry := entry["email" := p["email"]];
      if "orcid" in p {
        entry := entry["orcid" := p["orcid"]];
      }
      assert entry == CopiedPerson(p);
      if |nameParts| > 1 {
        entry := entry["given-names" := nameParts[0]];
        entry := entry["family-names" := nameParts[1]];
        if Truthy(email) {
          entry := entry["email" := email.value];
        }
        ghost var person := entry;
        assert person == WithEmail(CopiedPerson(p)["given-names" := nameParts[0]]["family-names" := nameParts[1]], email);
        var searched := lk.searchOrcid(fullName, email);
        var orcid := searched.0;
        logs := logs + searched.1;
        assert logs == searched.1;
        var who := "`" + fullName + "`";
        if Truthy(orcid) && lk.validateOrcid(orcid.value) {
          entry := entry["orcid" := OrcidUrl(orcid.value)];
        } else if Truthy(orcid) {
          warnings := warnings + ["- " + who + ": ORCID `" + orcid.value + "` is invalid or unreachable."];
        } else {
          warnings := warnings + ["- " + who + ": No ORCID found."];
        }
        assert entry == AttachOrcid(person, orcid, lk.validateOrcid, who).0;
        assert warnings == AttachOrcid(person, orcid, lk.validateOrcid, who).1;
      } else {
        entry := entry["name" := fullName];
        if Truthy(email) {
          entry := entry["email" := email.value];
        }
        warnings := warnings + ["- `" + fullName + "`" + SingleNameWarning + note];
        assert entry == WithEmail(CopiedPerson(p)["name" := fullName], email);
        assert warnings == ["- `" + fullName + "`" + SingleNameWarning + note] && logs == [];
      }
    }
    var identifier := OrElse(email, FoldCase(fullName));
    r := Ok(Candidate(entry, identifier, warnings, logs));
  }

  /** The body of the merge loop for one signal. */
  method ProcessSignal(env: Env, st: RunState, c: Signal) returns (r: Result<RunState>)
    ensures r == Step(env, st, c)
  {
    var note :- GetContributionNote(c, env.details, env.repoForCompare);
    var b: Build;
    match c {
      case Handle(h) =>
        b := BuildHandleEntry(env.lookups, h, note);
      case Pair(n, e) =>
        b :- BuildPairEntry(env.lookups, st.authors, n, e, note);
    }
    if b.Skipped? {
      return Ok(st.(warnings := st.warnings + b.warnings));
    }
    var warnings := st.warnings + b.warnings;
    var logs := st.logs + b.logs;
    var dup :- MatchesAny(st.authors, b.entry);
    if dup {
      return Ok(RunState(st.authors, warnings + ["- " + b.identifier + ": Already exists in CFF file."], logs, st.already + {c}));
    }
    r := Ok(RunState(st.authors + [b.entry], warnings, logs, st.already));
  }

  /** `update_cff` for fixed services; `contributors` is the set in its iteration order, and
      `original` is never changed (the source works on a deep copy). */
  method UpdateCff(env: Env, original: seq<Author>, contributors: seq<Signal>,
                   token: string, repo: string, prNumber: string, outputFile: string) returns (r: Result<Outcome>)
    ensures r == UpdateOutcome(env, original, contributors, token, repo, prNumber, outputFile)
  {
    if token == "" {
      return Err(ValueError("GitHub token is not provided."));
    }
    if repo == "" {
      return Err(ValueError("Repository is not provided."));
    }
    if prNumber == "" {
      return Err(ValueError("Pull request number is not provided."));
    }
    if outputFile == "" {
      return Err(ValueError("Output file path is not provided."));
    }
    var init := RunState(original, [], [], {});
    var authors := original;
    var warnings: seq<string> := [];
    var logs: seq<string> := [];
    var already: set<Signal> := {};
    var i := 0;
    while i < |contributors|
      invariant 0 <= i <= |contributors|
      invariant Run(env, init, contributors[..i]) == Ok(RunState(authors, warnings, logs, already))
    {
      assert contributors[..i + 1][..i] == contributors[..i];
      var step := ProcessSignal(env, RunState(authors, warnings, logs, already), contributors[i]);
      if step.Err? {
        ErrorsStick(env, init, contributors, i + 1);
        return Err(step.error);
      }
      authors, warnings, logs, already := step.value.authors, step.value.warnings, step.value.logs, step.value.already;
      i := i + 1;
    }
    assert contributors[..i] == contributors;
    r := Ok(Outcome(authors, warnings, logs, Members(contributors) - already));
  }

  // ---------------------------------------------------------------- the loop as a whole

  /** Once a prefix of the signals raises, the whole run raises that exception. */
  lemma {:induction false} ErrorsStick(env: Env, init: RunState, order: seq<Signal>, m: nat)
    requires m <= |order| && Run(env, init, order[..m]).Err?
    ensures Run(env, init, order) == Run(env, init, order[..m])
    decreases |order| - m
  {
    if m < |order| {
      var longer := order[..m + 1];
      assert longer[..m] == order[..m];
      assert Run(env, init, longer) == Run(env, init, order[..m]);
      ErrorsStick(env, init, order, m + 1);
    } else {
      assert order[..m] == order;
    }
  }

  /** The note is built before anything else, so a signal without evidence (or with an
      empty login, or a pair of falsy values) aborts the whole merge. */
  lemma NoteFailureAborts(env: Env, init: RunState, order: seq<Signal>, k: nat)
    requires k < |order| && ContributionNote(order[k], env.details, env.repoForCompare).Err?
    ensures Run(env, init, order).Err?
  {
    var prefix := order[..k + 1];
    assert prefix[..k] == order[..k];
    assert prefix[k] == order[k];
    assert Run(env, init, prefix).Err?;
    ErrorsStick(env, init, order, k + 1);
  }

  /** `after` extends `before` by one well-shaped entry that matches none of `before`. */
  predicate AppendsFresh(before: seq<Author>, after: seq<Author>) {
    && |after| == |before| + 1
    && after[..|before|] == before
    && Known(after[|before|])
    && forall i :: 0 <= i < |before| ==> SameIdentity(before[i], after[|before|]) == Ok(false)
  }

  /** Every entry from position `base` on is well-shaped and matches no entry before it. */
  predicate FreshFrom(authors: seq<Author>, base: nat) {
    && base <= |authors|
    && (forall j :: base <= j < |authors| ==> Known(authors[j]))
    && forall i, j :: 0 <= i < j < |authors| && base <= j ==> SameIdentity(authors[i], authors[j]) == Ok(false)
  }

  lemma {:induction false} MatchesAnyCases(authors: seq<Author>, e: Author)
    ensures MatchesAny(authors, e) == Ok(false) <==> forall i :: 0 <= i < |authors| ==> SameIdentity(authors[i], e) == Ok(false)
    ensures MatchesAny(authors, e) == Ok(true) ==> exists i :: 0 <= i < |authors| && SameIdentity(authors[i], e) == Ok(true)
    decreases |authors|
  {
    if authors != [] {
      MatchesAnyCases(authors[1..], e);
      assert forall i :: 1 <= i < |authors| ==> authors[1..][i - 1] == authors[i];
      if MatchesAny(authors, e) == Ok(true) && SameIdentity(authors[0], e) != Ok(true) {
        var i :| 0 <= i < |authors[1..]| && SameIdentity(authors[1..][i], e) == Ok(true);
        assert SameIdentity(authors[i + 1], e) == Ok(true);
      }
    }
  }

  /** One iteration changes at most one thing: it appends one fresh entry, or reports the signal
      as already present, or neither; warnings and logs only grow. */
  lemma StepEffect(env: Env, st: RunState, c: Signal)
    requires Step(env, st, c).Ok?
    ensures var st' := Step(env, st, c).value;
      && st.warnings <= st'.warnings && st.logs <= st'.logs
      && (|| (st'.authors == st.authors && st'.already == st.already)
          || (st'.authors == st.authors && st'.already == st.already + {c})
          || (AppendsFresh(st.authors, st'.authors) && st'.already == st.already))
  {
    var note := ContributionNote(c, env.details, env.repoForCompare).value;
    var b := BuildEntry(env.lookups, st.authors, c, note).value;
    if b.Candidate? {
      EntriesAreKnown(env.lookups, st.authors, c, note);
    }
    AdmitEffect(st, c, b);
  }

  lemma AdmitEffect(st: RunState, c: Signal, b: Build)
    requires Admit(st, c, b).Ok?
    requires b.Candidate? ==> Known(b.entry)
    ensures var st' := Admit(st, c, b).value;
      && st.warnings <= st'.warnings && st.logs <= st'.logs
      && (|| (st'.authors == st.authors && st'.already == st.already)
          || (st'.authors == st.authors && st'.already == st.already + {c})
          || (AppendsFresh(st.authors, st'.authors) && st'.already == st.already))
  {
    if b.Candidate? {
      MatchesAnyCases(st.authors, b.entry);
      if MatchesAny(st.authors, b.entry) == Ok(false) {
        var st' := Admit(st, c, b).value;
        assert st'.authors == st.authors + [b.entry];
        assert st'.authors[..|st.authors|] == st.authors;
      }
    }
  }

  /** Every candidate has the entity or the person shape. */
  lemma EntriesAreKnown(lk: Lookups, authors: seq<Author>, c: Signal, note: string)
    requires BuildEntry(lk, authors, c, note).Ok? && BuildEntry(lk, authors, c, note).value.Candidate?
    ensures Known(BuildEntry(lk, authors, c, note).value.entry)
  {
    match c
    case Handle(h) => HandleEntryIsIdentifiable(lk, h, note);
    case Pair(n, email) => PairEntryIsKnown(lk, authors, n.value, email, note);
  }

  lemma PairEntryIsKnown(lk: Lookups, authors: seq<Author>, n: string, email: Option<string>, note: string)
    requires PairCandidate(lk, authors, Some(n), email, note).Ok? && PairCandidate(lk, authors, Some(n), email, note).value.Candidate?
    ensures Known(PairCandidate(lk, authors, Some(n), email, note).value.entry)
  {
    var found := BaselineMatch(authors, n, email).value;
    if found.Some? {
      MatchedPairIsKnown(lk, found.value, n, email, note);
    }
  }

  lemma MatchedPairIsKnown(lk: Lookups, p: Author, n: string, email: Option<string>, note: string)
    requires HasPersonKeys(p)
    ensures Known(MatchedPair(lk, p, n, email, note).entry)
  {
    var parts := SplitFirstSpace(n);
    if |parts| > 1 {
      var (orcid, logs) := lk.searchOrcid(n, email);
      var person := WithEmail(CopiedPerson(p)["given-names" := parts[0]]["family-names" := parts[1]], email);
      assert "name" !in person && "given-names" in person && "family-names" in person;
      AttachKeepsKeys(person, orcid, lk.validateOrcid, "`" + n + "`");
    }
  }

  /** Attaching an iD touches only the `orcid` field. */
  lemma AttachKeepsKeys(e: Author, orcid: Option<string>, valid: string -> bool, who: string)
    ensures var r := AttachOrcid(e, orcid, valid, who).0;
      forall k :: k in e && k != "orcid" ==> k in r && r[k] == e[k]
    ensures AttachOrcid(e, orcid, valid, who).0.Keys <= e.Keys + {"orcid"}
  {
  }

  /** The baseline stays a prefix of the list, and warnings and logs only grow. */
  lemma {:induction false} RunKeepsPrefix(env: Env, init: RunState, order: seq<Signal>)
    requires Run(env, init, order).Ok?
    ensures var fin := Run(env, init, order).value;
      init.authors <= fin.authors && init.warnings <= fin.warnings && init.logs <= fin.logs
    decreases |order|
  {
    if order != [] {
      var prefix := order[..|order| - 1];
      RunKeepsPrefix(env, init, prefix);
      var st := Run(env, init, prefix).value;
      StepGrows(env, st, order[|order| - 1]);
      PrefixTransitive(init.authors, st.authors, Run(env, init, order).value.authors);
      PrefixTransitive(init.warnings, st.warnings, Run(env, init, order).value.warnings);
      PrefixTransitive(init.logs, st.logs, Run(env, init, order).value.logs);
    }
  }

  lemma PrefixTransitive<T>(a: seq<T>, b: seq<T>, c: seq<T>)
    requires a <= b && b <= c
    ensures a <= c
  {
    assert c[..|b|][..|a|] == c[..|a|];
  }

  /** Only processed signals are reported as present, and each signal has at most one effect:
      an append or a report. */
  lemma {:induction false} RunReports(env: Env, init: RunState, order: seq<Signal>)
    requires Run(env, init, order).Ok?
    ensures var fin := Run(env, init, order).value;
      && init.already <= fin.already <= init.already + Members(order)
      && |fin.authors| + |fin.already| <= |init.authors| + |init.already| + |order|
    decreases |order|
  {
    if order != [] {
      var prefix := order[..|order| - 1];
      var c := order[|order| - 1];
      RunReports(env, init, prefix);
      var st := Run(env, init, prefix).value;
      var fin := Run(env, init, order).value;
      StepGrows(env, st, c);
      assert fin.already <= init.already + Members(order) by {
        assert forall x :: x in Members(prefix) ==> x in Members(order) by {
          assert forall i :: 0 <= i < |prefix| ==> prefix[i] == order[i];
        }
        assert c in Members(order);
      }
    }
  }

  lemma StepGrows(env: Env, st: RunState, c: Signal)
    requires Step(env, st, c).Ok?
    ensures var st' := Step(env, st, c).value;
      && st.authors <= st'.authors && st.warnings <= st'.warnings && st.logs <= st'.logs
      && st.already <= st'.already <= st.already + {c}
      && |st'.authors| + |st'.already| <= |st.authors| + |st.already| + 1
  {
    StepEffect(env, st, c);
  }

  /** Each appended entry is well-shaped and matches no entry before it. */
  lemma {:induction false} RunFresh(env: Env, init: RunState, order: seq<Signal>)
    requires Run(env, init, order).Ok?
    ensures FreshFrom(Run(env, init, order).value.authors, |init.authors|)
    decreases |order|
  {
    if order != [] {
      var prefix := order[..|order| - 1];
      var c := order[|order| - 1];
      RunFresh(env, init, prefix);
      var st := Run(env, init, prefix).value;
      StepEffect(env, st, c);
      var fin := Run(env, init, order).value;
      if fin.authors != st.authors {
        FreshAppend(st.authors, fin.authors, |init.authors|);
      }
    }
  }

  lemma FreshAppend(before: seq<Author>, after: seq<Author>, base: nat)
    requires FreshFrom(before, base) && AppendsFresh(before, after)
    ensures FreshFrom(after, base)
  {
    forall i, j | 0 <= i < j < |after| && base <= j
      ensures SameIdentity(after[i], after[j]) == Ok(false)
    {
      assert after[i] == before[i];
      if j < |before| {
        assert after[j] == before[j];
      }
    }
    forall j | base <= j < |after| ensures Known(after[j]) {
      if j < |before| {
        assert after[j] == before[j];
      }
    }
  }

  /** Appended entries do not match any other entry in either order, so if the baseline
      holds no two entries of the same contributor, neither does the result. */
  lemma AppendedArePairwiseDistinct(authors: seq<Author>, base: nat, i: nat, j: nat)
    requires FreshFrom(authors, base)
    requires i < |authors| && j < |authors| && i != j && (base <= i || base <= j)
    ensures SameIdentity(authors[i], authors[j]) == Ok(false)
  {
    if j < i {
      SameIdentitySymmetric(authors[i], authors[j]);
    }
  }

  /** An unsuccessful profile request produces a warning carrying the status code and
      leaves the list and the reported set alone. */
  lemma NonOkProfileSkips(env: Env, st: RunState, h: string)
    requires ContributionNote(Handle(h), env.details, env.repoForCompare).Ok?
    requires env.lookups.profile(h).status != 200
    ensures var note := ContributionNote(Handle(h), env.details, env.repoForCompare).value;
      Step(env, st, Handle(h)) == Ok(st.(warnings := st.warnings +
        ["- @" + h + ": Unable to fetch user data from GitHub API. Status code: "
          + NatToString(env.lookups.profile(h).status) + note]))
  {
  }

  /** Processing the same login again never adds a second entry (the services being fixed). */
  lemma HandleIdempotent(env: Env, st: RunState, h: string)
    requires Step(env, st, Handle(h)).Ok?
    ensures Step(env, Step(env, st, Handle(h)).value, Handle(h)).Ok?
    ensures Step(env, Step(env, st, Handle(h)).value, Handle(h)).value.authors == Step(env, st, Handle(h)).value.authors
  {
    var note := ContributionNote(Handle(h), env.details, env.repoForCompare).value;
    var b := HandleCandidate(env.lookups, h, note);
    assert Step(env, st, Handle(h)) == Admit(st, Handle(h), b);
    var s1 := Admit(st, Handle(h), b).value;
    assert Step(env, s1, Handle(h)) == Admit(s1, Handle(h), b);
    if b.Candidate? {
      HandleEntryIsIdentifiable(env.lookups, h, note);
    }
    AdmitIdempotent(st, Handle(h), b);
  }

  /** Admitting the same candidate twice appends it at most once. */
  lemma AdmitIdempotent(st: RunState, c: Signal, b: Build)
    requires Admit(st, c, b).Ok?
    requires b.Candidate? ==> Known(b.entry) && Identifiable(b.entry)
    ensures Admit(Admit(st, c, b).value, c, b).Ok?
    ensures Admit(Admit(st, c, b).value, c, b).value.authors == Admit(st, c, b).value.authors
  {
    if b.Candidate? && MatchesAny(st.authors, b.entry) == Ok(false) {
      SelfSame(b.entry);
      MatchesAnyAppend(st.authors, b.entry);
    }
  }

  lemma HandleEntryIsIdentifiable(lk: Lookups, h: string, note: string)
    requires HandleCandidate(lk, h, note).Candidate?
    ensures Known(HandleCandidate(lk, h, note).entry) && Identifiable(HandleCandidate(lk, h, note).entry)
  {
    var e := HandleCandidate(lk, h, note).entry;
    assert Get(e, "alias") == ProfileUrl(h);
    assert Strip(ProfileUrl(h)) != "" by {
      StripBlank(ProfileUrl(h));
      assert !IsSpace(ProfileUrl(h)[0]);
    }
  }

  lemma MatchesAnyAppend(authors: seq<Author>, e: Author)
    requires MatchesAny(authors, e) == Ok(false) && SameIdentity(e, e) == Ok(true)
    ensures MatchesAny(authors + [e], e) == Ok(true)
    decreases |authors|
  {
    if authors != [] {
      assert (authors + [e])[1..] == authors[1..] + [e];
    }
  }

  /** The outcome: the argument checks in their order, the baseline kept as a prefix, the new
      entries pairwise distinct from all others, and the returned set exactly the signals not
      reported as already present. */
  lemma UpdateOutcomeProperties(env: Env, original: seq<Author>, contributors: seq<Signal>,
                                token: string, repo: string, prNumber: string, outputFile: string)
    ensures token == "" ==>
      UpdateOutcome(env, original, contributors, token, repo, prNumber, outputFile) == Err(ValueError("GitHub token is not provided."))
    ensures token != "" && repo == "" ==>
      UpdateOutcome(env, original, contributors, token, repo, prNumber, outputFile) == Err(ValueError("Repository is not provided."))
    ensures token != "" && repo != "" && prNumber == "" ==>
      UpdateOutcome(env, original, contributors, token, repo, prNumber, outputFile) == Err(ValueError("Pull request number is not provided."))
    ensures token != "" && repo != "" && prNumber != "" && outputFile == "" ==>
      UpdateOutcome(env, original, contributors, token, repo, prNumber, outputFile) == Err(ValueError("Output file path is not provided."))
    ensures var r := UpdateOutcome(env, original, contributors, token, repo, prNumber, outputFile);
      r.Ok? ==>
        && original <= r.value.authors
        && FreshFrom(r.value.authors, |original|)
        && r.value.missing <= Members(contributors)
        && Members(contributors) - r.value.missing == Run(env, RunState(original, [], [], {}), contributors).value.already
  {
    var r := UpdateOutcome(env, original, contributors, token, repo, prNumber, outputFile);
    if r.Ok? {
      RunKeepsPrefix(env, RunState(original, [], [], {}), contributors);
      RunReports(env, RunState(original, [], [], {}), contributors);
      RunFresh(env, RunState(original, [], [], {}), contributors);
    }
  }

  // ---------------------------------------------------------------- entry shapes

  /** An organisation becomes an entity named by its profile name or else its login, with the
      profile URL as alias and the email only when it is truthy. */
  lemma OrganizationEntry(lk: Lookups, h: string, note: string)
    requires lk.profile(h).status == 200 && lk.profile(h).user.kind == Some("Organization")
    ensures var b := HandleCandidate(lk, h, note); var u := lk.profile(h).user;
      && b.Candidate? && Classify(b.entry) == Entity
      && b.entry["name"] == OrElse(u.name, h) && b.entry["alias"] == "https://github.com/" + Norm(h)
      && ("email" in b.entry <==> Truthy(u.email))
      && (Truthy(u.email) ==> b.entry["email"] == u.email.value)
      && b.entry.Keys <= {"name", "alias", "email"}
      && b.identifier == FoldCase(h) && b.warnings == [] && b.logs == []
  {
  }

  /** A user whose name has a space becomes a person split at the first space; a valid iD is
      stored as a URL, and otherwise a warning is issued and the entry is still built. */
  lemma PersonEntry(lk: Lookups, h: string, note: string)
    requires lk.profile(h).status == 200 && lk.profile(h).user.kind != Some("Organization")
    requires ' ' in OrElse(lk.profile(h).user.name, h)
    ensures var b := HandleCandidate(lk, h, note); var u := lk.profile(h).user;
      var full := OrElse(u.name, h); var orcid := OrcidChoice(lk, full, u).0;
      && b.Candidate? && Classify(b.entry) == Person
      && b.entry["given-names"] + " " + b.entry["family-names"] == full
      && ' ' !in b.entry["given-names"]
      && b.entry["alias"] == "https://github.com/" + Norm(h)
      && ("email" in b.entry <==> Truthy(u.email))
      && ("orcid" in b.entry <==> Truthy(orcid) && lk.validateOrcid(orcid.value))
      && ("orcid" in b.entry ==> b.entry["orcid"] == "https://orcid.org/" + orcid.value)
      && ("orcid" !in b.entry ==> |b.warnings| == 1)
  {
    var u := lk.profile(h).user;
    var full := OrElse(u.name, h);
    var parts := SplitFirstSpace(full);
    var (orcid, logs) := OrcidChoice(lk, full, u);
    var person := WithEmail(map["given-names" := parts[0], "family-names" := parts[1], "alias" := ProfileUrl(h)], u.email);
    PersonCandidate(lk, h, note);
    assert "name" !in person && "orcid" !in person;
    assert person["given-names"] == parts[0] && person["family-names"] == parts[1] && person["alias"] == ProfileUrl(h);
    assert "email" in person <==> Truthy(u.email);
    AttachKeepsKeys(person, orcid, lk.validateOrcid, "@" + h);
  }

  lemma PersonCandidate(lk: Lookups, h: string, note: string)
    requires lk.profile(h).status == 200 && lk.profile(h).user.kind != Some("Organization")
    requires ' ' in OrElse(lk.profile(h).user.name, h)
    ensures var u := lk.profile(h).user; var full := OrElse(u.name, h);
      var parts := SplitFirstSpace(full);
      var (orcid, logs) := OrcidChoice(lk, full, u);
      var person := WithEmail(map["given-names" := parts[0], "family-names" := parts[1], "alias" := ProfileUrl(h)], u.email);
      var attached := AttachOrcid(person, orcid, lk.validateOrcid, "@" + h);
      |parts| == 2 && HandleCandidate(lk, h, note) == Candidate(attached.0, FoldCase(h), attached.1, logs)
  {
  }

  /** A user with a one-word name becomes an entity with a warning, and the ORCID services are
      not consulted: the candidate is the same whatever they answer. */
  lemma SingleNameEntry(lk: Lookups, lk': Lookups, h: string, note: string)
    requires lk.profile(h).status == 200 && lk.profile(h).user.kind != Some("Organization")
    requires ' ' !in OrElse(lk.profile(h).user.name, h)
    requires lk'.profile == lk.profile
    ensures var full := OrElse(lk.profile(h).user.name, h);
      HandleCandidate(lk, h, note) == Candidate(map["name" := full, "alias" := "https://github.com/" + Norm(h)],
        FoldCase(h), ["- @" + h + SingleNameWarning + note], [])
    ensures HandleCandidate(lk', h, note) == HandleCandidate(lk, h, note)
  {
  }

  /** The baseline scan returns the first listed author with the same name and email; without
      an email it raises as soon as a name agrees. */
  lemma BaselineMatchIsFirst(authors: seq<Author>, name: string, email: Option<string>)
    ensures email.Some? ==> BaselineMatch(authors, name, email).Ok?
    ensures email.Some? ==> (BaselineMatch(authors, name, email) == Ok(None) <==>
      forall i :: 0 <= i < |authors| ==> !IsBaselineMatch(authors[i], name, email.value))
    ensures email.Some? && BaselineMatch(authors, name, email).value.Some? ==>
      exists k :: 0 <= k < |authors| && BaselineMatch(authors, name, email) == Ok(Some(authors[k]))
        && IsBaselineMatch(authors[k], name, email.value)
        && forall j :: 0 <= j < k ==> !IsBaselineMatch(authors[j], name, email.value)
    ensures email.None? ==> (BaselineMatch(authors, name, email).Err? <==>
      exists i :: 0 <= i < |authors| && HasPersonKeys(authors[i]) && NameAgrees(authors[i], name))
    ensures email.None? ==> BaselineMatch(authors, name, email) != Ok(Some(map[]))
  {
    if email.Some? {
      BaselineMatchWithEmail(authors, name, email.value);
    } else {
      BaselineMatchWithoutEmail(authors, name);
    }
  }

  lemma {:induction false} BaselineMatchWithEmail(authors: seq<Author>, name: string, email: string)
    ensures BaselineMatch(authors, name, Some(email)).Ok?
    ensures BaselineMatch(authors, name, Some(email)) == Ok(None) <==>
      forall i :: 0 <= i < |authors| ==> !IsBaselineMatch(authors[i], name, email)
    ensures BaselineMatch(authors, name, Some(email)).value.Some? ==>
      exists k :: 0 <= k < |authors| && BaselineMatch(authors, name, Some(email)) == Ok(Some(authors[k]))
        && IsBaselineMatch(authors[k], name, email)
        && forall j :: 0 <= j < k ==> !IsBaselineMatch(authors[j], name, email)
    decreases |authors|
  {
    if authors != [] {
      var tail := authors[1..];
      BaselineMatchWithEmail(tail, name, email);
      assert forall i :: 1 <= i < |authors| ==> tail[i - 1] == authors[i];
      var r := BaselineMatch(authors, name, Some(email));
      if r.value.Some? && !IsBaselineMatch(authors[0], name, email) {
        assert r == BaselineMatch(tail, name, Some(email));
        var k :| 0 <= k < |tail| && BaselineMatch(tail, name, Some(email)) == Ok(Some(tail[k]))
          && IsBaselineMatch(tail[k], name, email)
          && forall j :: 0 <= j < k ==> !IsBaselineMatch(tail[j], name, email);
        assert tail[k] == authors[k + 1];
        forall j | 0 <= j < k + 1
          ensures !IsBaselineMatch(authors[j], name, email)
        {
          if j > 0 {
            assert authors[j] == tail[j - 1];
          }
        }
      }
    }
  }

  lemma {:induction false} BaselineMatchWithoutEmail(authors: seq<Author>, name: string)
    ensures BaselineMatch(authors, name, None).Err? <==>
      exists i :: 0 <= i < |authors| && HasPersonKeys(authors[i]) && NameAgrees(authors[i], name)
    ensures BaselineMatch(authors, name, None) != Ok(Some(map[]))
    decreases |authors|
  {
    if authors != [] {
      var tail := authors[1..];
      BaselineMatchWithoutEmail(tail, name);
      assert forall i :: 1 <= i < |authors| ==> tail[i - 1] == authors[i];
      if BaselineMatch(authors, name, None).Err? && !(HasPersonKeys(authors[0]) && NameAgrees(authors[0], name)) {
        var i :| 0 <= i < |tail| && HasPersonKeys(tail[i]) && NameAgrees(tail[i], name);
        assert tail[i] == authors[i + 1];
      }
    }
  }

  /** An unmatched pair whose name is blank is skipped with a warning; any other unmatched
      pair becomes an entity carrying the raw name, even when it contains a space. */
  lemma UnmatchedPairEntry(lk: Lookups, authors: seq<Author>, n: string, email: Option<string>, note: string)
    requires BaselineMatch(authors, n, email) == Ok(None)
    ensures Strip(n) == "" ==>
      PairCandidate(lk, authors, Some(n), email, note) == Ok(Skipped(["- Commit author with email `" + Show(email) + "` has no name and was skipped." + note]))
    ensures Strip(n) != "" ==> var r := PairCandidate(lk, authors, Some(n), email, note);
      && r.Ok? && r.value.Candidate? && Classify(r.value.entry) == Entity
      && r.value.entry["name"] == n
      && ("email" in r.value.entry <==> Truthy(email))
      && r.value.entry.Keys <= {"name", "email"}
      && r.value.identifier == OrElse(email, FoldCase(n))
  {
  }

  /** A matched pair copies the given and family names, email and iD of the listed person. */
  lemma MatchedPairCopies(lk: Lookups, authors: seq<Author>, n: string, email: Option<string>, note: string, p: Author)
    requires BaselineMatch(authors, n, email) == Ok(Some(p))
    requires ' ' !in n
    ensures var r := PairCandidate(lk, authors, Some(n), email, note);
      && r.Ok? && r.value.Candidate?
      && r.value.entry["given-names"] == p["given-names"] && r.value.entry["family-names"] == p["family-names"]
      && r.value.entry["name"] == n
      && r.value.entry["email"] == (if Truthy(email) then email.value else p["email"])
      && ("orcid" in p ==> r.value.entry["orcid"] == p["orcid"])
  {
    MatchedPairCandidate(lk, authors, n, email, note, p);
    assert |SplitFirstSpace(n)| == 1;
    assert MatchedPair(lk, p, n, email, note).entry == WithEmail(CopiedPerson(p)["name" := n], email);
  }

  /** A pair with a baseline match is built from the matched person alone. */
  lemma MatchedPairCandidate(lk: Lookups, authors: seq<Author>, n: string, email: Option<string>, note: string, p: Author)
    requires BaselineMatch(authors, n, email) == Ok(Some(p))
    ensures HasPersonKeys(p) && PairCandidate(lk, authors, Some(n), email, note) == Ok(MatchedPair(lk, p, n, email, note))
  {
  }

  /** A pair whose name and non-blank email match a listed person, and whose name splits into
      two parts, is never appended: it is reported as present or the comparison raises. */
  lemma MatchedPersonIsPresent(env: Env, st: RunState, n: string, email: Option<string>, p: Author)
    requires BaselineMatch(st.authors, n, email) == Ok(Some(p))
    requires Classify(p) == Person && Strip(p["email"]) != ""
    requires ' ' in n
    requires Step(env, st, Pair(Some(n), email)).Ok?
    ensures Step(env, st, Pair(Some(n), email)).value.authors == st.authors
    ensures Pair(Some(n), email) in Step(env, st, Pair(Some(n), email)).value.already
  {
    var c := Pair(Some(n), email);
    var note := ContributionNote(c, env.details, env.repoForCompare).value;
    MatchedEntryIsSame(env.lookups, st.authors, n, email, note, p);
    var b := PairCandidate(env.lookups, st.authors, Some(n), email, note).value;
    assert Step(env, st, c) == Admit(st, c, b);
    var e := b.entry;
    MatchesAnyCases(st.authors, e);
    var k :| 0 <= k < |st.authors| && st.authors[k] == p;
    assert MatchesAny(st.authors, e) != Ok(false);
  }

  /** A matched pair whose name has a space becomes a person: the name split at the first space,
      the input email when truthy and the listed one otherwise, and the listed iD unless a valid
      one is found. */
  lemma MatchedSplitEntry(lk: Lookups, authors: seq<Author>, n: string, email: Option<string>, note: string, p: Author)
    requires BaselineMatch(authors, n, email) == Ok(Some(p))
    requires ' ' in n
    ensures var r := PairCandidate(lk, authors, Some(n), email, note);
      var parts := SplitFirstSpace(n); var orcid := lk.searchOrcid(n, email).0;
      && r.Ok? && r.value.Candidate? && Classify(r.value.entry) == Person
      && r.value.entry["given-names"] == parts[0] && r.value.entry["family-names"] == parts[1]
      && r.value.entry["given-names"] + " " + r.value.entry["family-names"] == n
      && r.value.entry["email"] == (if Truthy(email) then email.value else p["email"])
      && (Truthy(orcid) && lk.validateOrcid(orcid.value) ==> r.value.entry["orcid"] == OrcidUrl(orcid.value))
      && (!(Truthy(orcid) && lk.validateOrcid(orcid.value)) ==> ("orcid" in r.value.entry <==> "orcid" in p))
      && r.value.logs == lk.searchOrcid(n, email).1
  {
    MatchedPairCandidate(lk, authors, n, email, note, p);
    MatchedSplitFields(lk, p, n, email, note);
  }

  lemma MatchedSplitFields(lk: Lookups, p: Author, n: string, email: Option<string>, note: string)
    requires HasPersonKeys(p)
    requires ' ' in n
    ensures var b := MatchedPair(lk, p, n, email, note);
      var parts := SplitFirstSpace(n); var orcid := lk.searchOrcid(n, email).0;
      && |parts| == 2 && b.Candidate? && Classify(b.entry) == Person
      && b.entry["given-names"] == parts[0] && b.entry["family-names"] == parts[1]
      && b.entry["given-names"] + " " + b.entry["family-names"] == n
      && b.entry["email"] == (if Truthy(email) then email.value else p["email"])
      && (Truthy(orcid) && lk.validateOrcid(orcid.value) ==> b.entry["orcid"] == OrcidUrl(orcid.value))
      && (!(Truthy(orcid) && lk.validateOrcid(orcid.value)) ==> ("orcid" in b.entry <==> "orcid" in p))
      && b.logs == lk.searchOrcid(n, email).1
  {
    var parts := SplitFirstSpace(n);
    var (orcid, logs) := lk.searchOrcid(n, email);
    var person := WithEmail(CopiedPerson(p)["given-names" := parts[0]]["family-names" := parts[1]], email);
    MatchedSplitCandidate(lk, p, n, email, note);
    assert person["given-names"] == parts[0] && person["family-names"] == parts[1];
    assert person["email"] == (if Truthy(email) then email.value else p["email"]);
    assert "orcid" in person <==> "orcid" in p;
    AttachKeepsKeys(person, orcid, lk.validateOrcid, "`" + n + "`");
  }

  lemma MatchedSplitCandidate(lk: Lookups, p: Author, n: string, email: Option<string>, note: string)
    requires HasPersonKeys(p)
    requires ' ' in n
    ensures var parts := SplitFirstSpace(n);
      var (orcid, logs) := lk.searchOrcid(n, email);
      var person := WithEmail(CopiedPerson(p)["given-names" := parts[0]]["family-names" := parts[1]], email);
      var attached := AttachOrcid(person, orcid, lk.validateOrcid, "`" + n + "`");
      |parts| == 2 && MatchedPair(lk, p, n, email, note) == Candidate(attached.0, OrElse(email, FoldCase(n)), attached.1, logs)
  {
  }

  /** The candidate of such a pair is a person with the listed person's email up to case and
      padding, so `is_same_person` relates the two. */
  lemma MatchedEntryIsSame(lk: Lookups, authors: seq<Author>, n: string, email: Option<string>, note: string, p: Author)
    requires BaselineMatch(authors, n, email) == Ok(Some(p))
    requires Classify(p) == Person && Strip(p["email"]) != ""
    requires ' ' in n
    ensures var r := PairCandidate(lk, authors, Some(n), email, note);
      r.Ok? && r.value.Candidate? && SameIdentity(p, r.value.entry) == Ok(true)
  {
    MatchedPairCandidate(lk, authors, n, email, note, p);
    assert email.Some? && EmailAgrees(p, email.value);
    MatchedSplitFields(lk, p, n, email, note);
    var e := MatchedPair(lk, p, n, email, note).entry;
    StripFoldCase(p["email"]);
    StripFoldCase(email.value);
    assert Norm(Get(e, "email")) == Norm(Get(p, "email"));
    assert FieldMatch(p, e, "email");
    assert PersonMatch(p, e);
  }

  // ---------------------------------------------------------------- running again

  /** A login whose provenance note can be written; its candidate does not depend on the list. */
  predicate HandleNoted(env: Env, c: Signal) {
    c.Handle? && ContributionNote(c, env.details, env.repoForCompare).Ok?
  }

  function HandleBuild(env: Env, c: Signal): Build
    requires HandleNoted(env, c)
  {
    HandleCandidate(env.lookups, c.login, ContributionNote(c, env.details, env.repoForCompare).value)
  }

  /** A noted login whose candidate, if it has one, `authors` already holds. */
  predicate Settled(env: Env, authors: seq<Author>, c: Signal) {
    HandleNoted(env, c) && (HandleBuild(env, c).Candidate? ==> MatchesAny(authors, HandleBuild(env, c).entry) == Ok(true))
  }

  /** The logins of `order` that yield a candidate entry (their profile was answered with 200). */
  function Produced(env: Env, order: seq<Signal>): set<Signal> {
    set c | c in order && HandleNoted(env, c) && HandleBuild(env, c).Candidate?
  }

  /** A match found in a list is still found once more entries follow it. */
  lemma {:induction false} MatchesAnyExtend(authors: seq<Author>, longer: seq<Author>, e: Author)
    requires MatchesAny(authors, e) == Ok(true) && authors <= longer
    ensures MatchesAny(longer, e) == Ok(true)
    decreases |authors|
  {
    assert longer[0] == authors[0];
    if SameIdentity(authors[0], e) != Ok(true) {
      MatchesAnyExtend(authors[1..], longer[1..], e);
    }
  }

  /** A noted login's iteration is the match-and-append step on its candidate. */
  lemma HandleStep(env: Env, st: RunState, c: Signal)
    requires HandleNoted(env, c)
    ensures Step(env, st, c) == Admit(st, c, HandleBuild(env, c))
  {
  }

  /** An admitted identifiable candidate is held by the list afterwards, which only grew. */
  lemma AdmitHolds(st: RunState, c: Signal, b: Build)
    requires Admit(st, c, b).Ok?
    requires b.Candidate? ==> Known(b.entry) && Identifiable(b.entry)
    ensures st.authors <= Admit(st, c, b).value.authors
    ensures b.Candidate? ==> MatchesAny(Admit(st, c, b).value.authors, b.entry) == Ok(true)
  {
    if b.Candidate? {
      SelfSame(b.entry);
      if MatchesAny(st.authors, b.entry) == Ok(false) {
        MatchesAnyAppend(st.authors, b.entry);
      }
    }
  }

  /** A candidate the list already holds is only reported; a skip changes neither list nor set. */
  lemma AdmitHeld(st: RunState, c: Signal, b: Build)
    requires b.Candidate? ==> MatchesAny(st.authors, b.entry) == Ok(true)
    ensures Admit(st, c, b).Ok?
    ensures Admit(st, c, b).value.authors == st.authors
    ensures Admit(st, c, b).value.already == st.already + (if b.Candidate? then {c} else {})
  {
  }

  /** Settling survives appending further entries. */
  lemma SettledExtend(env: Env, authors: seq<Author>, longer: seq<Author>, c: Signal)
    requires Settled(env, authors, c) && authors <= longer
    ensures Settled(env, longer, c)
  {
    if HandleBuild(env, c).Candidate? {
      MatchesAnyExtend(authors, longer, HandleBuild(env, c).entry);
    }
  }

  /** Every signal of `order` is a settled login. */
  predicate AllSettled(env: Env, authors: seq<Author>, order: seq<Signal>)
    decreases |order|
  {
    order == [] || (AllSettled(env, authors, order[..|order| - 1]) && Settled(env, authors, order[|order| - 1]))
  }

  /** `AllSettled` says that every member of the order is settled. */
  lemma {:induction false} AllSettledMembers(env: Env, authors: seq<Author>, order: seq<Signal>)
    requires AllSettled(env, authors, order)
    ensures forall d :: d in order ==> Settled(env, authors, d)
    decreases |order|
  {
    if order != [] {
      AllSettledMembers(env, authors, order[..|order| - 1]);
      assert order == order[..|order| - 1] + [order[|order| - 1]];
    }
  }

  lemma {:induction false} AllSettledExtend(env: Env, authors: seq<Author>, longer: seq<Author>, order: seq<Signal>)
    requires AllSettled(env, authors, order) && authors <= longer
    ensures AllSettled(env, longer, order)
    decreases |order|
  {
    if order != [] {
      AllSettledExtend(env, authors, longer, order[..|order| - 1]);
      SettledExtend(env, authors, longer, order[|order| - 1]);
    }
  }

  /** The iteration over a login settles it and only appends to the list. */
  lemma SettleOne(env: Env, mid: RunState, c: Signal, fin: RunState)
    requires c.Handle? && Step(env, mid, c) == Ok(fin)
    ensures mid.authors <= fin.authors && Settled(env, fin.authors, c)
  {
    assert HandleNoted(env, c);
    var b := HandleBuild(env, c);
    HandleStep(env, mid, c);
    if b.Candidate? {
      HandleEntryIsIdentifiable(env.lookups, c.login, ContributionNote(c, env.details, env.repoForCompare).value);
    }
    AdmitHolds(mid, c, b);
  }

  /** The iteration over the last login of `order` settles it and keeps every login settled before. */
  lemma SettleStep(env: Env, mid: RunState, order: seq<Signal>, fin: RunState)
    requires order != [] && order[|order| - 1].Handle?
    requires Step(env, mid, order[|order| - 1]) == Ok(fin)
    requires AllSettled(env, mid.authors, order[..|order| - 1])
    ensures AllSettled(env, fin.authors, order)
  {
    SettleOne(env, mid, order[|order| - 1], fin);
    AllSettledExtend(env, mid.authors, fin.authors, order[..|order| - 1]);
  }

  /** A successful run is a successful run over all but the last signal, then one iteration. */
  lemma RunLast(env: Env, init: RunState, order: seq<Signal>)
    requires order != [] && Run(env, init, order).Ok?
    ensures Run(env, init, order[..|order| - 1]).Ok?
    ensures Step(env, Run(env, init, order[..|order| - 1]).value, order[|order| - 1]) == Run(env, init, order)
  {
  }

  /** After a successful run over logins, the final list holds the candidate of every one of them. */
  lemma {:induction false} FirstRunSettles(env: Env, init: RunState, order: seq<Signal>)
    requires forall d :: d in order ==> d.Handle?
    requires Run(env, init, order).Ok?
    ensures AllSettled(env, Run(env, init, order).value.authors, order)
    decreases |order|
  {
    if order != [] {
      var prefix := order[..|order| - 1];
      RunLast(env, init, order);
      FirstRunSettles(env, init, prefix);
      SettleStep(env, Run(env, init, prefix).value, order, Run(env, init, order).value);
    }
  }

  /** A run over logins that a list already settles appends nothing and reports every login
      that yields a candidate as already present. */
  lemma {:induction false} SettledRunIsQuiet(env: Env, st: RunState, order: seq<Signal>)
    requires AllSettled(env, st.authors, order)
    ensures Run(env, st, order).Ok?
    ensures Run(env, st, order).value.authors == st.authors
    ensures Run(env, st, order).value.already == st.already + Produced(env, order)
    decreases |order|
  {
    if order == [] {
      assert Produced(env, order) == {};
    } else {
      var prefix := order[..|order| - 1];
      var c := order[|order| - 1];
      SettledRunIsQuiet(env, st, prefix);
      var mid := Run(env, st, prefix).value;
      var b := HandleBuild(env, c);
      HandleStep(env, mid, c);
      AdmitHeld(mid, c, b);
      ProducedSnoc(env, order);
    }
  }

  /** The last login of `order` adds itself to the candidate-producing logins exactly when it
      yields a candidate. */
  lemma ProducedSnoc(env: Env, order: seq<Signal>)
    requires order != [] && HandleNoted(env, order[|order| - 1])
    ensures var c := order[|order| - 1];
      Produced(env, order) == Produced(env, order[..|order| - 1]) + (if HandleBuild(env, c).Candidate? then {c} else {})
  {
    var prefix := order[..|order| - 1];
    assert order == prefix + [order[|order| - 1]];
    assert forall d :: d in order <==> d in prefix || d == order[|order| - 1];
  }

  /** Idempotence for logins: running the merge again over the same logins, starting from the list
      the first run produced, appends nothing and reports as already present every login whose
      profile yields an entry. */
  lemma HandleRunIdempotent(env: Env, init: RunState, order: seq<Signal>)
    requires forall d :: d in order ==> d.Handle?
    requires Run(env, init, order).Ok?
    ensures var fin := Run(env, init, order).value;
      var again := Run(env, RunState(fin.authors, [], [], {}), order);
      again.Ok? && again.value.authors == fin.authors && again.value.already == Produced(env, order)
  {
    var fin := Run(env, init, order).value;
    FirstRunSettles(env, init, order);
    SettledRunIsQuiet(env, RunState(fin.authors, [], [], {}), order);
  }

  /** The same for `update_cff`: a second call over the written authors keeps them unchanged and
      leaves missing only the logins whose profile request failed. */
  lemma HandleUpdateIdempotent(env: Env, original: seq<Author>, contributors: seq<Signal>,
                               token: string, repo: string, prNumber: string, outputFile: string)
    requires forall d :: d in contributors ==> d.Handle?
    requires UpdateOutcome(env, original, contributors, token, repo, prNumber, outputFile).Ok?
    ensures var out := UpdateOutcome(env, original, contributors, token, repo, prNumber, outputFile).value;
      var again := UpdateOutcome(env, out.authors, contributors, token, repo, prNumber, outputFile);
      && again.Ok? && again.value.authors == out.authors
      && again.value.missing == Members(contributors) - Produced(env, contributors)
  {
    HandleRunIdempotent(env, RunState(original, [], [], {}), contributors);
  }

  /** For commit authors a second run is not idempotent: a pair whose blank name and email agree
      with a blank listed person copies that person into an entity with a blank name, which
      matches nothing, so every run appends it again. */
  lemma PairRerunAppendsAgain(env: Env)
    requires ContributionNote(Pair(Some("\t"), Some("")), env.details, env.repoForCompare).Ok?
    ensures var p: Author := map["given-names" := "", "family-names" := "", "email" := ""];
      var e: Author := p["name" := "\t"];
      var c := Pair(Some("\t"), Some(""));
      && Run(env, RunState([p], [], [], {}), [c]).Ok?
      && Run(env, RunState([p], [], [], {}), [c]).value.authors == [p, e]
      && Run(env, RunState([p, e], [], [], {}), [c]).Ok?
      && Run(env, RunState([p, e], [], [], {}), [c]).value.authors == [p, e, e]
  {
    var p: Author := map["given-names" := "", "family-names" := "", "email" := ""];
    var e: Author := p["name" := "\t"];
    var c := Pair(Some("\t"), Some(""));
    assert [c][..0] == [];
    BlankPairAppended(env, RunState([p], [], [], {}));
    BlankPairAppended(env, RunState([p, e], [], [], {}));
  }

  /** Either list the blank pair meets matches it to the blank person, and builds the blank
      entity, which matches no listed author. */
  lemma BlankPairAppended(env: Env, st: RunState)
    requires ContributionNote(Pair(Some("\t"), Some("")), env.details, env.repoForCompare).Ok?
    requires var p: Author := map["given-names" := "", "family-names" := "", "email" := ""];
      st.authors == [p] || st.authors == [p, p["name" := "\t"]]
    ensures var p: Author := map["given-names" := "", "family-names" := "", "email" := ""];
      var c := Pair(Some("\t"), Some(""));
      Step(env, st, c).Ok? && Step(env, st, c).value.authors == st.authors + [p["name" := "\t"]]
  {
    var p: Author := map["given-names" := "", "family-names" := "", "email" := ""];
    var e: Author := p["name" := "\t"];
    var c := Pair(Some("\t"), Some(""));
    var note := ContributionNote(c, env.details, env.repoForCompare).value;
    BlankPersonFacts(env.lookups, note);
    assert BaselineMatch(st.authors, "\t", Some("")) == Ok(Some(p));
    assert MatchesAny(st.authors, e) == Ok(false);
  }

  lemma BlankPersonFacts(lk: Lookups, note: string)
    ensures var p: Author := map["given-names" := "", "family-names" := "", "email" := ""];
      var e: Author := p["name" := "\t"];
      && BaselineMatch([p], "\t", Some("")) == Ok(Some(p))
      && BaselineMatch([p, e], "\t", Some("")) == Ok(Some(p))
      && MatchedPair(lk, p, "\t", Some(""), note).entry == e
      && MatchesAny([p], e) == Ok(false)
      && MatchesAny([p, e], e) == Ok(false)
  {
    var p: Author := map["given-names" := "", "family-names" := "", "email" := ""];
    var e: Author := p["name" := "\t"];
    assert Strip(" ") == "" && Strip("\t") == "" && Strip("") == "";
    assert FoldCase("") == "";
    assert NameAgrees(p, "\t") && EmailAgrees(p, "");
    assert SplitFirstSpace("\t") == ["\t"];
    assert CopiedPerson(p) == p;
    assert SameIdentity(p, e) == Ok(false);
    assert Get(e, "name") == "\t" && Get(e, "alias") == "";
    assert SameIdentity(e, e) == Ok(false);
    assert MatchesAny([e], e) == Ok(false);
    assert [p, e][1..] == [e];
  }

  /** A run over two signals is two iterations. */
  lemma RunTwo(env: Env, init: RunState, a: Signal, b: Signal)
    ensures Run(env, init, [a, b]) == if Step(env, init, a).Err? then Step(env, init, a) else Step(env, Step(env, init, a).value, b)
  {
    assert [a, b][..1] == [a] && [a][..0] == [];
    assert Run(env, init, []) == Ok(init);
    assert Run(env, init, [a]) == Step(env, init, a);
  }

  /** The organisation login "x" named "ACME" without email, with its note written. */
  predicate AcmeSetting(env: Env) {
    && env.lookups.profile("x").status == 200
    && env.lookups.profile("x").user.kind == Some("Organization")
    && env.lookups.profile("x").user.name == Some("ACME") && env.lookups.profile("x").user.email == None
    && ContributionNote(Handle("x"), env.details, env.repoForCompare).Ok?
    && ContributionNote(Pair(Some("ACME"), None), env.details, env.repoForCompare).Ok?
  }

  /** The login's candidate is the aliased entity, whatever the list. */
  lemma AcmeHandleStep(env: Env, st: RunState)
    requires AcmeSetting(env)
    ensures Step(env, st, Handle("x"))
      == Admit(st, Handle("x"), Candidate(map["name" := "ACME", "alias" := "https://github.com/x"], "x", [], []))
  {
    assert FoldCase("x") == "x" && Strip("x") == "x";
    assert ProfileUrl("x") == "https://github.com/x";
  }

  /** The commit author's candidate is the bare entity when no listed author has person keys. */
  lemma AcmePairStep(env: Env, st: RunState)
    requires AcmeSetting(env)
    requires forall a :: a in st.authors ==> "given-names" !in a
    ensures Step(env, st, Pair(Some("ACME"), None))
      == Admit(st, Pair(Some("ACME"), None), Candidate(map["name" := "ACME"], FoldCase("ACME"), [], []))
  {
    assert Strip("ACME") == "ACME";
    BaselineMatchWithoutEmail(st.authors, "ACME");
  }

  /** Into a list holding neither entry, each candidate is appended. */
  lemma AcmeIntoEmpty(env: Env, st: RunState)
    requires AcmeSetting(env) && st.authors == []
    ensures Step(env, st, Handle("x")).Ok? && Step(env, st, Handle("x")).value.authors == [map["name" := "ACME", "alias" := "https://github.com/x"]]
    ensures Step(env, st, Handle("x")).value.already == st.already
    ensures Step(env, st, Pair(Some("ACME"), None)).Ok? && Step(env, st, Pair(Some("ACME"), None)).value.authors == [map["name" := "ACME"]]
    ensures Step(env, st, Pair(Some("ACME"), None)).value.already == st.already
  {
    AcmeHandleStep(env, st);
    AcmePairStep(env, st);
  }

  /** Once the aliased entity is listed, the commit author is reported present. */
  lemma AcmePairAfterHandle(env: Env, st: RunState)
    requires AcmeSetting(env) && st.authors == [map["name" := "ACME", "alias" := "https://github.com/x"]]
    ensures Step(env, st, Pair(Some("ACME"), None)).Ok?
    ensures Step(env, st, Pair(Some("ACME"), None)).value.authors == st.authors
    ensures Step(env, st, Pair(Some("ACME"), None)).value.already == st.already + {Pair(Some("ACME"), None)}
  {
    assert forall a :: a in st.authors ==> a == st.authors[0];
    AcmePairStep(env, st);
    AcmeNamedHeld(st);
  }

  lemma AcmeNamedHeld(st: RunState)
    requires st.authors == [map["name" := "ACME", "alias" := "https://github.com/x"]]
    ensures MatchesAny(st.authors, map["name" := "ACME"]) == Ok(true)
  {
    assert Strip("ACME") == "ACME";
    assert FieldMatch(st.authors[0], map["name" := "ACME"], "name");
  }

  /** Once the bare entity is listed, the login is reported present. */
  lemma AcmeHandleAfterPair(env: Env, st: RunState)
    requires AcmeSetting(env) && st.authors == [map["name" := "ACME"]]
    ensures Step(env, st, Handle("x")).Ok?
    ensures Step(env, st, Handle("x")).value.authors == st.authors
    ensures Step(env, st, Handle("x")).value.already == st.already + {Handle("x")}
  {
    var org: Author := map["name" := "ACME", "alias" := "https://github.com/x"];
    AcmeHandleStep(env, st);
    assert Strip("ACME") == "ACME";
    assert FieldMatch(st.authors[0], org, "name");
    assert MatchesAny(st.authors, org) == Ok(true);
    AdmitHeld(st, Handle("x"), Candidate(org, "x", [], []));
  }

  /** Login first: the aliased entity is kept and the commit author is reported present. */
  lemma AcmeHandleFirst(env: Env)
    requires AcmeSetting(env)
    ensures var r := Run(env, RunState([], [], [], {}), [Handle("x"), Pair(Some("ACME"), None)]);
      r.Ok? && r.value.authors == [map["name" := "ACME", "alias" := "https://github.com/x"]]
      && r.value.already == {Pair(Some("ACME"), None)}
  {
    var s0 := RunState([], [], [], {});
    RunTwo(env, s0, Handle("x"), Pair(Some("ACME"), None));
    AcmeIntoEmpty(env, s0);
    AcmePairAfterHandle(env, Step(env, s0, Handle("x")).value);
  }

  /** Commit author first: the bare entity is kept and the login is reported present. */
  lemma AcmePairFirst(env: Env)
    requires AcmeSetting(env)
    ensures var r := Run(env, RunState([], [], [], {}), [Pair(Some("ACME"), None), Handle("x")]);
      r.Ok? && r.value.authors == [map["name" := "ACME"]] && r.value.already == {Handle("x")}
  {
    var s0 := RunState([], [], [], {});
    RunTwo(env, s0, Pair(Some("ACME"), None), Handle("x"));
    AcmeIntoEmpty(env, s0);
    AcmeHandleAfterPair(env, Step(env, s0, Pair(Some("ACME"), None)).value);
  }

  /** The merge depends on the order the contributor set is iterated in: an organisation login
      and a commit author with the organisation's display name keep whichever entry comes first,
      and report the other one as already present. */
  lemma OrderMatters(env: Env)
    requires AcmeSetting(env)
    ensures var h := Handle("x"); var c := Pair(Some("ACME"), None);
      var one := UpdateOutcome(env, [], [h, c], "token", "owner/repo", "1", "out");
      var two := UpdateOutcome(env, [], [c, h], "token", "owner/repo", "1", "out");
      && one.Ok? && two.Ok?
      && one.value.authors == [map["name" := "ACME", "alias" := "https://github.com/x"]] && one.value.missing == {h}
      && two.value.authors == [map["name" := "ACME"]] && two.value.missing == {c}
  {
    var h := Handle("x");
    var c := Pair(Some("ACME"), None);
    AcmeHandleFirst(env);
    AcmePairFirst(env);
    assert Members([h, c]) == {h, c} && Members([c, h]) == {h, c};
  }

  /** With the reference helpers of `update_cff_authors.py` as the ORCID services, a login's entry
      stores an iD only as `https://orcid.org/` followed by a well-formed iD the registry reached. */
  lemma ReferenceOrcidIsWellFormed(profile: string -> ProfileReply, registry: string -> Orcid.SearchReply,
                                   reachable: string -> bool, h: string, note: string)
    ensures var lk := Lookups(profile, Orcid.ExtractOrcid, (n, e) => Orcid.SearchOrcid(n, e, registry),
                              o => Orcid.ValidateOrcid(Some(o), reachable));
      var b := HandleCandidate(lk, h, note);
      b.Candidate? && "orcid" in b.entry ==>
        exists id :: b.entry["orcid"] == OrcidUrl(id) && Orcid.IsOrcidFormat(id) && reachable(id)
  {
    var lk := Lookups(profile, Orcid.ExtractOrcid, (n, e) => Orcid.SearchOrcid(n, e, registry),
                      o => Orcid.ValidateOrcid(Some(o), reachable));
    var b := HandleCandidate(lk, h, note);
    var user := profile(h).user;
    if b.Candidate? && "orcid" in b.entry && profile(h).status == 200 && user.kind != Some("Organization") {
      var fullName := OrElse(user.name, h);
      var parts := SplitFirstSpace(fullName);
      if |parts| > 1 {
        var orcid := OrcidChoice(lk, fullName, user).0;
        var person := WithEmail(map["given-names" := parts[0], "family-names" := parts[1], "alias" := ProfileUrl(h)], user.email);
        assert "orcid" !in person;
        assert Truthy(orcid) && lk.validateOrcid(orcid.value);
        assert Orcid.ValidateOrcid(Some(orcid.value), reachable);
        assert b.entry["orcid"] == OrcidUrl(orcid.value);
      }
    }
  }
}
