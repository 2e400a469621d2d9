/** The older merge of `update_cff_authors.process_contributors`: the same candidate entries in
    an earlier form (raw handle as `alias`, an extra `type` key, silent skips), deduplicated by
    an unguarded `is_same_person` closure, and reported as the list `new_users`. */
module LegacyMerge {
  import opened Wrappers
  import opened Text
  import opened Signals
  import opened Authors
  import Orcid
  import CffMerge

  // ---------------------------------------------------------------- the legacy predicate

  /** `f"{given.strip().lower()} {family.strip().lower()}".strip()` with absent parts as "". */
  function LegacyFullName(a: Author): string {
    Strip(FoldCase(Strip(Get(a, "given-names"))) + " " + FoldCase(Strip(Get(a, "family-names"))))
  }

  /** The closure `is_same_person`: any of alias, email, orcid (lower-cased, absent as "") or the
      joined full name agrees. There is no shape check and no emptiness check. */
  predicate LegacySame(a: Author, b: Author) {
    || FoldCase(Get(a, "alias")) == FoldCase(Get(b, "alias"))
    || FoldCase(Get(a, "email")) == FoldCase(Get(b, "email"))
    || FoldCase(Get(a, "orcid")) == FoldCase(Get(b, "orcid"))
    || LegacyFullName(a) == LegacyFullName(b)
  }

  /** `any(is_same_person(a, entry) for a in cff["authors"])`. */
  predicate LegacyMatchesAny(authors: seq<Author>, e: Author) {
    exists i :: 0 <= i < |authors| && LegacySame(authors[i], e)
  }

  /** Two entries that both lack `alias` are judged the same, whatever else they hold. */
  lemma AbsentAliasMatches(a: Author, b: Author)
    requires "alias" !in a && "alias" !in b
    ensures LegacySame(a, b) && LegacySame(b, a)
  {
  }

  /** For every entity and person whose aliases agree up to case, the closure matches them in
      both directions while the current predicate answers no in both. */
  lemma SharedAliasAcrossShapes(a: Author, b: Author)
    requires Classify(a) == Entity && Classify(b) == Person
    requires FoldCase(Get(a, "alias")) == FoldCase(Get(b, "alias"))
    ensures LegacySame(a, b) && LegacySame(b, a)
    ensures SameIdentity(a, b) == Ok(false) && SameIdentity(b, a) == Ok(false)
  {
  }

  /** For every author of unknown shape the current predicate raises on either side, while the
      closure still answers, matching it with anything whose email agrees up to case. */
  lemma UnknownStillAnswers(a: Author, b: Author)
    requires !Known(a)
    ensures SameIdentity(a, b).Err? && SameIdentity(b, a).Err?
    ensures FoldCase(Get(a, "email")) == FoldCase(Get(b, "email")) ==> LegacySame(a, b) && LegacySame(b, a)
  {
  }

  /** Two entries with blank or absent emails are the same for the closure; the current
      predicate never matches on a blank field. */
  lemma BlankEmailsMatch(a: Author, b: Author)
    requires Get(a, "email") == "" && Get(b, "email") == ""
    ensures LegacySame(a, b) && LegacySame(b, a)
    ensures !FieldMatch(a, b, "email") && !FieldMatch(b, a, "email")
  {
    StripBlank("");
  }

  /** Unlike `CffManager.is_same_person`, the closure takes two distinct organisations without
      aliases for the same contributor. */
  lemma LegacyMatchesDistinctEntities()
    ensures var a: Author := map["name" := "Acme"];
      var b: Author := map["name" := "Globex"];
      LegacySame(a, b) && SameIdentity(a, b) == Ok(false)
  {
    var a: Author := map["name" := "Acme"];
    var b: Author := map["name" := "Globex"];
    assert Get(a, "alias") == "" == Get(b, "alias");
    assert Get(a, "name")[0] != Get(b, "name")[0];
    assert Strip(Get(a, "name")) != "" && Strip(Get(a, "alias")) == "";
  }

  /** It matches an entity with a person, which the current predicate never does. */
  lemma LegacyMatchesAcrossShapes()
    ensures var a: Author := map["name" := "Acme", "alias" := "acme"];
      var p: Author := map["given-names" := "Ada", "family-names" := "Lovelace", "alias" := "acme"];
      LegacySame(a, p) && SameIdentity(a, p) == Ok(false)
  {
    var a: Author := map["name" := "Acme", "alias" := "acme"];
    var p: Author := map["given-names" := "Ada", "family-names" := "Lovelace", "alias" := "acme"];
    assert Get(a, "alias") == "acme" == Get(p, "alias");
  }

  /** It accepts an author of unknown shape, which the current predicate rejects. */
  lemma LegacyAcceptsUnknownShape()
    ensures var u: Author := map["email" := "x@y"];
      var p: Author := map["given-names" := "Ada", "family-names" := "Lovelace", "email" := "x@y"];
      LegacySame(u, p) && SameIdentity(u, p).Err?
  {
    var u: Author := map["email" := "x@y"];
    var p: Author := map["given-names" := "Ada", "family-names" := "Lovelace", "email" := "x@y"];
    assert Get(u, "email") == "x@y" == Get(p, "email");
    assert Classify(u) == Unknown;
  }

  /** It misses two persons whose emails differ only by padding, since it does not strip. */
  lemma LegacyMissesPaddedEmail()
    ensures var p: Author := map["given-names" := "A", "family-names" := "B", "alias" := "a", "email" := "x", "orcid" := "1"];
      var q: Author := map["given-names" := "C", "family-names" := "D", "alias" := "c", "email" := " x", "orcid" := "2"];
      !LegacySame(p, q) && SameIdentity(p, q) == Ok(true)
  {
    var p: Author := map["given-names" := "A", "family-names" := "B", "alias" := "a", "email" := "x", "orcid" := "1"];
    var q: Author := map["given-names" := "C", "family-names" := "D", "alias" := "c", "email" := " x", "orcid" := "2"];
    PaddedFieldsDiffer(p, q);
    PaddedEmailsAgree(p, q);
  }

  lemma PaddedFieldsDiffer(p: Author, q: Author)
    requires p == map["given-names" := "A", "family-names" := "B", "alias" := "a", "email" := "x", "orcid" := "1"]
    requires q == map["given-names" := "C", "family-names" := "D", "alias" := "c", "email" := " x", "orcid" := "2"]
    ensures !LegacySame(p, q)
  {
    assert FoldCase("a") == "a" && FoldCase("c") == "c" && FoldCase("x") == "x" && FoldCase(" x") == " x";
    assert FoldCase("1") == "1" && FoldCase("2") == "2";
    PaddedNamesDiffer(p, q);
  }

  lemma PaddedNamesDiffer(p: Author, q: Author)
    requires p["given-names" := "A"]["family-names" := "B"] == p && q["given-names" := "C"]["family-names" := "D"] == q
    ensures LegacyFullName(p) != LegacyFullName(q)
  {
    assert Get(p, "given-names") == "A" && Get(p, "family-names") == "B";
    assert Get(q, "given-names") == "C" && Get(q, "family-names") == "D";
    assert Strip("A") == "A" && Strip("B") == "B" && Strip("C") == "C" && Strip("D") == "D";
    assert FoldCase("A") == "a" && FoldCase("B") == "b" && FoldCase("C") == "c" && FoldCase("D") == "d";
    assert Strip("a b") == "a b" && Strip("c d") == "c d";
  }

  lemma PaddedEmailsAgree(p: Author, q: Author)
    requires p == map["given-names" := "A", "family-names" := "B", "alias" := "a", "email" := "x", "orcid" := "1"]
    requires q == map["given-names" := "C", "family-names" := "D", "alias" := "c", "email" := " x", "orcid" := "2"]
    ensures SameIdentity(p, q) == Ok(true)
  {
    assert FoldCase("x") == "x" && FoldCase(" x") == " x";
    assert Strip(" x") == "x" && Strip("x") == "x";
    assert FieldMatch(p, q, "email");
  }

  // ---------------------------------------------------------------- entry building

  /** The services the legacy loop calls: the GitHub user endpoint, the ORCID search and the
      ORCID record lookup used by `validate_orcid`. */
  datatype Services = Services(
    profile: string -> CffMerge.ProfileReply,
    registry: string -> Orcid.SearchReply,
    reachable: string -> bool)

  /** `f" (commit: `{sha[:7]}`)"` when the signal's metadata carries a truthy sha. */
  function ShaNote(meta: map<Signal, Option<string>>, c: Signal): string {
    if c in meta && Truthy(meta[c]) then " (commit: `" + Take(meta[c].value, 7) + "`)" else ""
  }

  const MissingFamilyWarning: string := ": Missing family name, treated as entity instead of person."

  function Valid(svc: Services): string -> bool {
    o => Orcid.ValidateOrcid(Some(o), svc.reachable)
  }

  /** The iD from the bio, or else (for a non-empty name) from a search, with the search's logs. */
  function OrcidChoice(svc: Services, fullName: string, user: CffMerge.Profile): (Option<string>, seq<string>) {
    var found := Orcid.ExtractOrcid(user.bio);
    if !Truthy(found) && fullName != "" then Orcid.SearchOrcid(fullName, user.email, svc.registry) else (found, [])
  }

  /** The legacy candidate for a GitHub login; a failed profile request skips without warning. */
  function HandleCandidate(svc: Services, h: string, shaNote: string): CffMerge.Build {
    var reply := svc.profile(h);
    if reply.status != 200 then CffMerge.Skipped([])
    else
      var user := reply.user;
      if user.kind == Some("Organization") then
        CffMerge.Candidate(CffMerge.WithEmail(map["name" := OrElse(user.name, h), "alias" := h, "type" := "entity"], user.email),
                           FoldCase(h), [], [])
      else
        var fullName := OrElse(user.name, h);
        var parts := SplitFirstSpace(fullName);
        if |parts| > 1 then
          var (orcid, logs) := OrcidChoice(svc, fullName, user);
          var person := CffMerge.WithEmail(map["given-names" := parts[0], "family-names" := parts[1], "alias" := h, "type" := "person"], user.email);
          var (entry, warnings) := CffMerge.AttachOrcid(person, orcid, Valid(svc), "@" + h);
          CffMerge.Candidate(entry, FoldCase(h), warnings, logs)
        else
          CffMerge.Candidate(map["type" := "entity", "name" := fullName, "alias" := h], FoldCase(h),
                             ["- @" + h + MissingFamilyWarning + shaNote], [])
  }

  /** The legacy candidate for a commit author `(name, email)`. The scan and its exceptions are
      those of the current merge; a matched single-token name becomes a fresh entity. */
  function PairCandidate(svc: Services, authors: seq<Author>, name: Option<string>, email: Option<string>, shaNote: string): Result<CffMerge.Build> {
    if name.None? then Err(AttributeError(CffMerge.NoneSplit))
    else
      var n := name.value;
      var found :- CffMerge.BaselineMatch(authors, n, email);
      if found.None? then Ok(UnmatchedPair(n, email, shaNote))
      else Ok(MatchedPair(svc, found.value, n, email, shaNote))
  }

  /** A pair no author matches: an entity named by the raw name, or skipped when the name is blank. */
  function UnmatchedPair(n: string, email: Option<string>, shaNote: string): CffMerge.Build {
    if Strip(n) == "" then CffMerge.Skipped(["- Commit author with email `" + Show(email) + "` has no name and was skipped." + shaNote])
    else CffMerge.Candidate(CffMerge.WithEmail(map["name" := n, "type" := "entity"], email), OrElse(email, FoldCase(n)), [], [])
  }

  /** A pair that matches author `p`: a person copied from `p` when the name splits, else a fresh entity. */
  function MatchedPair(svc: Services, p: Author, n: string, email: Option<string>, shaNote: string): CffMerge.Build
    requires CffMerge.HasPersonKeys(p)
  {
    var id := OrElse(email, FoldCase(n));
    var parts := SplitFirstSpace(n);
    if |parts| > 1 then
      var base := CffMerge.CopiedPerson(p);
      var person := CffMerge.WithEmail(base["given-names" := parts[0]]["family-names" := parts[1]], email)["type" := "person"];
      var (orcid, logs) := Orcid.SearchOrcid(n, email, svc.registry);
      var (entry, warnings) := CffMerge.AttachOrcid(person, orcid, Valid(svc), "`" + n + "`");
      CffMerge.Candidate(entry, id, warnings, logs)
    else
      CffMerge.Candidate(CffMerge.WithEmail(map["type" := "entity", "name" := n], email), id,
                         ["- `" + n + "`" + MissingFamilyWarning + shaNote], [])
  }

  function BuildEntry(svc: Services, meta: map<Signal, Option<string>>, authors: seq<Author>, c: Signal): Result<CffMerge.Build> {
    match c
    case Handle(h) => Ok(HandleCandidate(svc, h, ShaNote(meta, c)))
    case Pair(n, e) => PairCandidate(svc, authors, n, e, ShaNote(meta, c))
  }

  // ---------------------------------------------------------------- the loop

  /** The variables the legacy loop updates. */
  datatype LegacyState = LegacyState(authors: seq<Author>, newUsers: seq<string>, warnings: seq<string>, logs: seq<string>)

  function Step(svc: Services, meta: map<Signal, Option<string>>, st: LegacyState, c: Signal): Result<LegacyState> {
    var b :- BuildEntry(svc, meta, st.authors, c);
    match b
    case Skipped(w) => Ok(st.(warnings := st.warnings + w))
    case Candidate(e, id, w, l) =>
      if LegacyMatchesAny(st.authors, e) then
        Ok(LegacyState(st.authors, st.newUsers, st.warnings + w + ["- " + id + ": Already exists in CFF file."], st.logs + l))
      else
        Ok(LegacyState(st.authors + [e], st.newUsers + [id], st.warnings + w, st.logs + l))
  }

  /** The loop over the contributors in iteration order; the first exception ends it. */
  function Run(svc: Services, meta: map<Signal, Option<string>>, init: LegacyState, order: seq<Signal>): Result<LegacyState>
    decreases |order|
  {
    if order == [] then Ok(init)
    else
      var st :- Run(svc, meta, init, order[..|order| - 1]);
      Step(svc, meta, st, order[|order| - 1])
  }

  /** `process_contributors` after the file is loaded: `authors` is `cff["authors"]` (absent
      as `[]`), `contributors` the set in iteration order. */
  method ProcessContributors(svc: Services, meta: map<Signal, Option<string>>, authors0: seq<Author>, contributors: seq<Signal>)
    returns (r: Result<LegacyState>)
    ensures r == Run(svc, meta, LegacyState(authors0, [], [], []), contributors)
  {
    var init := LegacyState(authors0, [], [], []);
    var authors := authors0;
    var newUsers: seq<string> := [];
    var warnings: seq<string> := [];
    var logs: seq<string> := [];
    for i := 0 to |contributors|
      invariant Run(svc, meta, init, contributors[..i]) == Ok(LegacyState(authors, newUsers, warnings, logs))
    {
      assert contributors[..i + 1][..i] == contributors[..i];
      var c := contributors[i];
      var b := BuildEntry(svc, meta, authors, c);
      if b.Err? {
        ErrorsStick(svc, meta, init, contributors, i + 1);
        return Err(b.error);
      }
      match b.value {
        case Skipped(w) =>
          warnings := warnings + w;
        case Candidate(e, id, w, l) =>
          warnings := warnings + w;
          logs := logs + l;
          if LegacyMatchesAny(authors, e) {
            warnings := warnings + ["- " + id + ": Already exists in CFF file."];
          } else {
            authors := authors + [e];
            newUsers := newUsers + [id];
          }
      }
    }
    assert contributors[..|contributors|] == contributors;
    r := Ok(LegacyState(authors, newUsers, warnings, logs));
  }

  /** Once a prefix of the contributors raises, the whole loop raises that exception. */
  lemma {:induction false} ErrorsStick(svc: Services, meta: map<Signal, Option<string>>, init: LegacyState, order: seq<Signal>, m: nat)
    requires m <= |order| && Run(svc, meta, init, order[..m]).Err?
    ensures Run(svc, meta, init, order) == Run(svc, meta, init, order[..m])
    decreases |order| - m
  {
    if m < |order| {
      assert order[..m + 1][..m] == order[..m];
      ErrorsStick(svc, meta, init, order, m + 1);
    } else {
      assert order[..m] == order;
    }
  }

  // ---------------------------------------------------------------- properties

  /** One step either appends the candidate and its identifier together, after the closure
      matched no listed author, or leaves both lists as they were. */
  lemma StepEffect(svc: Services, meta: map<Signal, Option<string>>, st: LegacyState, c: Signal)
    requires Step(svc, meta, st, c).Ok?
    ensures var st' := Step(svc, meta, st, c).value;
      || (st'.authors == st.authors && st'.newUsers == st.newUsers)
      || (exists e, id :: st'.authors == st.authors + [e] && st'.newUsers == st.newUsers + [id]
            && !LegacyMatchesAny(st.authors, e)
            && BuildEntry(svc, meta, st.authors, c).value.Candidate?
            && e == BuildEntry(svc, meta, st.authors, c).value.entry
            && id == BuildEntry(svc, meta, st.authors, c).value.identifier)
  {
    var b := BuildEntry(svc, meta, st.authors, c).value;
    if b.Candidate? && !LegacyMatchesAny(st.authors, b.entry) {
      var st' := Step(svc, meta, st, c).value;
      assert st'.authors == st.authors + [b.entry] && st'.newUsers == st.newUsers + [b.identifier];
    }
  }

  /** Over the whole loop the listed authors keep their prefix, and `new_users` grows by exactly
      one identifier per appended entry; no appended entry matches an entry before it. */
  lemma {:induction false} RunAppendsWithIdentifiers(svc: Services, meta: map<Signal, Option<string>>, init: LegacyState, order: seq<Signal>)
    requires Run(svc, meta, init, order).Ok?
    ensures var fin := Run(svc, meta, init, order).value;
      && init.authors <= fin.authors
      && init.newUsers <= fin.newUsers
      && |fin.authors| - |init.authors| == |fin.newUsers| - |init.newUsers|
      && forall j :: |init.authors| <= j < |fin.authors| ==> !LegacyMatchesAny(fin.authors[..j], fin.authors[j])
    decreases |order|
  {
    if order != [] {
      var prefix := order[..|order| - 1];
      RunAppendsWithIdentifiers(svc, meta, init, prefix);
      var st := Run(svc, meta, init, prefix).value;
      StepEffect(svc, meta, st, order[|order| - 1]);
      var fin := Run(svc, meta, init, order).value;
      assert fin == Step(svc, meta, st, order[|order| - 1]).value;
      forall j | |init.authors| <= j < |fin.authors|
        ensures !LegacyMatchesAny(fin.authors[..j], fin.authors[j])
      {
        if j < |st.authors| {
          assert fin.authors[..j] == st.authors[..j];
          assert fin.authors[j] == st.authors[j];
        } else {
          assert fin.authors[..j] == st.authors;
        }
      }
    }
  }

  /** A failed profile request is skipped without a warning and changes nothing. */
  lemma NonOkProfileSkipsSilently(svc: Services, meta: map<Signal, Option<string>>, st: LegacyState, h: string)
    requires svc.profile(h).status != 200
    ensures Step(svc, meta, st, Handle(h)) == Ok(st)
  {
    assert st.warnings + [] == st.warnings;
  }

  /** A fetched handle's entry carries the raw handle as `alias`, an extra `type` key, and the
      lower-cased handle as identifier. */
  lemma HandleEntryShape(svc: Services, h: string, shaNote: string)
    requires svc.profile(h).status == 200
    ensures var b := HandleCandidate(svc, h, shaNote);
      && b.Candidate?
      && "alias" in b.entry && b.entry["alias"] == h
      && "type" in b.entry && (b.entry["type"] == "entity" || b.entry["type"] == "person")
      && (b.entry["type"] == "entity" <==> "name" in b.entry)
      && b.identifier == FoldCase(h)
  {
    var user := svc.profile(h).user;
    if user.kind != Some("Organization") && |SplitFirstSpace(OrElse(user.name, h))| > 1 {
      PersonEntryShape(svc, h, shaNote);
    }
  }

  lemma PersonEntryShape(svc: Services, h: string, shaNote: string)
    requires svc.profile(h).status == 200
    requires svc.profile(h).user.kind != Some("Organization")
    requires |SplitFirstSpace(OrElse(svc.profile(h).user.name, h))| > 1
    ensures var e := HandleCandidate(svc, h, shaNote).entry;
      && "alias" in e && e["alias"] == h && "type" in e && e["type"] == "person" && "name" !in e
  {
    var user := svc.profile(h).user;
    var fullName := OrElse(user.name, h);
    var parts := SplitFirstSpace(fullName);
    var (orcid, logs) := OrcidChoice(svc, fullName, user);
    var e0: Author := map["given-names" := parts[0], "family-names" := parts[1], "alias" := h, "type" := "person"];
    var person := CffMerge.WithEmail(e0, user.email);
    assert "alias" in person && person["alias"] == h && "type" in person && person["type"] == "person" && "name" !in person;
    CffMerge.AttachKeepsKeys(person, orcid, Valid(svc), "@" + h);
    PersonCandidate(svc, h, shaNote);
  }

  lemma PersonCandidate(svc: Services, h: string, shaNote: string)
    requires svc.profile(h).status == 200
    requires svc.profile(h).user.kind != Some("Organization")
    requires |SplitFirstSpace(OrElse(svc.profile(h).user.name, h))| > 1
    ensures var user := svc.profile(h).user; var fullName := OrElse(user.name, h);
      var parts := SplitFirstSpace(fullName);
      var (orcid, logs) := OrcidChoice(svc, fullName, user);
      var person := CffMerge.WithEmail(map["given-names" := parts[0], "family-names" := parts[1], "alias" := h, "type" := "person"], user.email);
      var attached := CffMerge.AttachOrcid(person, orcid, Valid(svc), "@" + h);
      HandleCandidate(svc, h, shaNote) == CffMerge.Candidate(attached.0, FoldCase(h), attached.1, logs)
  {
  }

  /** A handle already appended is never appended again. */
  lemma HandleIdempotent(svc: Services, meta: map<Signal, Option<string>>, st: LegacyState, h: string)
    requires svc.profile(h).status == 200
    requires Step(svc, meta, st, Handle(h)).Ok?
    ensures var st' := Step(svc, meta, st, Handle(h)).value;
      Step(svc, meta, st', Handle(h)).Ok? && Step(svc, meta, st', Handle(h)).value.authors == st'.authors
  {
    var st' := Step(svc, meta, st, Handle(h)).value;
    var b := HandleCandidate(svc, h, ShaNote(meta, Handle(h)));
    HandleEntryShape(svc, h, ShaNote(meta, Handle(h)));
    if !LegacyMatchesAny(st.authors, b.entry) {
      assert st'.authors[|st.authors|] == b.entry;
      assert LegacySame(st'.authors[|st.authors|], b.entry);
    } else {
      var i :| 0 <= i < |st.authors| && LegacySame(st.authors[i], b.entry);
      assert st'.authors[i] == st.authors[i];
    }
  }

  /** Pair entries never carry `alias`, so once any listed author lacks one, no commit author
      can be appended: the closure matches them on the absent alias. */
  lemma PairBlockedByAliaslessAuthor(svc: Services, meta: map<Signal, Option<string>>, st: LegacyState, name: Option<string>, email: Option<string>, k: nat)
    requires k < |st.authors| && "alias" !in st.authors[k]
    requires Step(svc, meta, st, Pair(name, email)).Ok?
    ensures Step(svc, meta, st, Pair(name, email)).value.authors == st.authors
    ensures Step(svc, meta, st, Pair(name, email)).value.newUsers == st.newUsers
  {
    var b := BuildEntry(svc, meta, st.authors, Pair(name, email)).value;
    if b.Candidate? {
      PairEntryHasNoAlias(svc, st.authors, name, email, ShaNote(meta, Pair(name, email)));
      AbsentAliasMatches(st.authors[k], b.entry);
    }
  }

  lemma PairEntryHasNoAlias(svc: Services, authors: seq<Author>, name: Option<string>, email: Option<string>, shaNote: string)
    requires PairCandidate(svc, authors, name, email, shaNote).Ok?
    requires PairCandidate(svc, authors, name, email, shaNote).value.Candidate?
    ensures "alias" !in PairCandidate(svc, authors, name, email, shaNote).value.entry
  {
    var found := CffMerge.BaselineMatch(authors, name.value, email).value;
    if found.Some? {
      MatchedPairHasNoAlias(svc, found.value, name.value, email, shaNote);
    }
  }

  /** A matched pair never carries an alias, even when the author it matched had one. */
  lemma MatchedPairHasNoAlias(svc: Services, p: Author, n: string, email: Option<string>, shaNote: string)
    requires CffMerge.HasPersonKeys(p)
    ensures "alias" !in MatchedPair(svc, p, n, email, shaNote).entry
  {
    var parts := SplitFirstSpace(n);
    if |parts| > 1 {
      var (orcid, logs) := Orcid.SearchOrcid(n, email, svc.registry);
      var person := CffMerge.WithEmail(CffMerge.CopiedPerson(p)["given-names" := parts[0]]["family-names" := parts[1]], email)["type" := "person"];
      assert "alias" !in person;
      CffMerge.AttachKeepsKeys(person, orcid, Valid(svc), "`" + n + "`");
    }
  }

  /** The identifier reported for a commit author is its email when truthy, else its lower-cased name. */
  lemma PairIdentifier(svc: Services, authors: seq<Author>, n: string, email: Option<string>, shaNote: string)
    requires PairCandidate(svc, authors, Some(n), email, shaNote).Ok?
    requires PairCandidate(svc, authors, Some(n), email, shaNote).value.Candidate?
    ensures PairCandidate(svc, authors, Some(n), email, shaNote).value.identifier == if Truthy(email) then email.value else FoldCase(n)
  {
  }

  /** A matched commit author with a single-token name becomes a fresh entity with a warning,
      not the listed person it matched. */
  lemma MatchedSingleNameBecomesEntity(svc: Services, authors: seq<Author>, n: string, email: Option<string>, shaNote: string)
    requires CffMerge.BaselineMatch(authors, n, email).Ok? && CffMerge.BaselineMatch(authors, n, email).value.Some?
    requires ' ' !in n
    ensures var b := PairCandidate(svc, authors, Some(n), email, shaNote);
      && b.Ok? && b.value.Candidate?
      && Classify(b.value.entry) == Entity
      && b.value.entry["name"] == n && b.value.entry["type"] == "entity"
      && b.value.warnings == ["- `" + n + "`" + MissingFamilyWarning + shaNote]
  {
    assert |SplitFirstSpace(n)| == 1;
  }
}
