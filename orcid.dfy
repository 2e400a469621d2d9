/** The ORCID helpers of update_cff_authors.py: pulling an iD out of a profile bio
    (`extract_orcid`), the format check that guards the registry lookup
    (`validate_orcid`), and the registry search by name and email (`search_orcid`).
    The registry is a parameter: a function from request URL to reply. */
module Orcid {
  import opened Wrappers
  import opened Text

  /** `\d{4}-\d{4}-\d{4}-\d{4}` exactly. */
  predicate IsOrcidId(s: string) {
    |s| == 19 && forall k :: 0 <= k < 19 ==> if k % 5 == 4 then s[k] == '-' else IsDigit(s[k])
  }

  const HttpPrefix: string := "http://orcid.org/"
  const HttpsPrefix: string := "https://orcid.org/"

  /** The iD of an `https?://orcid\.org/(\d{4}-\d{4}-\d{4}-\d{4})` match starting at `i`, if any. */
  function LinkAt(text: string, i: nat): (r: Option<string>)
    requires i <= |text|
    ensures r.Some? ==> IsOrcidId(r.value)
  {
    var t := text[i..];
    if StartsWith(t, HttpPrefix) && |t| >= 36 && IsOrcidId(t[17..36]) then Some(t[17..36])
    else if StartsWith(t, HttpsPrefix) && |t| >= 37 && IsOrcidId(t[18..37]) then Some(t[18..37])
    else None
  }

  /** `re.search` from position `i`: the match that starts leftmost. */
  function FirstLinkFrom(text: string, i: nat): Option<string>
    requires i <= |text|
    decreases |text| - i
  {
    match LinkAt(text, i)
    case Some(id) => Some(id)
    case None => if i == |text| then None else FirstLinkFrom(text, i + 1)
  }

  /** `extract_orcid`. */
  function ExtractOrcid(text: Option<string>): Option<string> {
    if !Truthy(text) then None else FirstLinkFrom(text.value, 0)
  }

  lemma {:induction false} FirstLinkFromIsLeftmost(text: string, i: nat)
    requires i <= |text|
    ensures FirstLinkFrom(text, i).Some? <==> exists j :: i <= j <= |text| && LinkAt(text, j).Some?
    ensures forall j :: i <= j <= |text| && LinkAt(text, j).Some? && (forall k :: i <= k < j ==> LinkAt(text, k).None?)
                   ==> FirstLinkFrom(text, i) == LinkAt(text, j)
    decreases |text| - i
  {
    if LinkAt(text, i).None? && i < |text| {
      FirstLinkFromIsLeftmost(text, i + 1);
      assert FirstLinkFrom(text, i) == FirstLinkFrom(text, i + 1);
    }
  }

  /** The iD returned comes from the leftmost link in the text, and there is one exactly when some
      position starts a link; empty and missing text give `None`. */
  lemma ExtractOrcidIsLeftmost(text: Option<string>)
    ensures !Truthy(text) ==> ExtractOrcid(text) == None
    ensures Truthy(text) ==>
      (ExtractOrcid(text).Some? <==> exists j :: 0 <= j <= |text.value| && LinkAt(text.value, j).Some?)
    ensures Truthy(text) ==>
      forall j :: 0 <= j <= |text.value| && LinkAt(text.value, j).Some? && (forall k :: 0 <= k < j ==> LinkAt(text.value, k).None?)
        ==> ExtractOrcid(text) == LinkAt(text.value, j)
  {
    if Truthy(text) {
      FirstLinkFromIsLeftmost(text.value, 0);
    }
  }

  /** What `re.match(r"^\d{4}-\d{4}-\d{4}-\d{4}$", s)` accepts: Python's `$` also matches
      before a final newline. */
  predicate IsOrcidFormat(s: string) {
    IsOrcidId(s) || (|s| == 20 && s[19] == '\n' && IsOrcidId(s[..19]))
  }

  /** `validate_orcid`: a falsy or malformed value is rejected before the registry is asked;
      otherwise the registry answer (`status == 200`, exceptions read as `False`) decides. */
  function ValidateOrcid(orcid: Option<string>, reachable: string -> bool): bool {
    if !Truthy(orcid) || !IsOrcidFormat(orcid.value) then false else reachable(orcid.value)
  }

  /** A malformed value is rejected whatever the registry would say. */
  lemma MalformedRejectedWithoutLookup(orcid: Option<string>, r1: string -> bool, r2: string -> bool)
    requires !Truthy(orcid) || !IsOrcidFormat(orcid.value)
    ensures !ValidateOrcid(orcid, r1) && ValidateOrcid(orcid, r1) == ValidateOrcid(orcid, r2)
  {
  }

  /** A well-formed value is exactly as valid as the registry says. */
  lemma WellFormedAskRegistry(orcid: string, reachable: string -> bool)
    requires IsOrcidId(orcid)
    ensures ValidateOrcid(Some(orcid), reachable) == reachable(orcid)
    ensures ValidateOrcid(Some(orcid + "\n"), reachable) == reachable(orcid + "\n")
  {
    assert (orcid + "\n")[..19] == orcid;
  }

  /** Every iD found in a bio passes the format check. */
  lemma ExtractedIdsAreWellFormed(text: Option<string>)
    ensures ExtractOrcid(text).Some? ==> IsOrcidFormat(ExtractOrcid(text).value)
  {
    if Truthy(text) {
      ExtractedFromIsWellFormed(text.value, 0);
    }
  }

  lemma {:induction false} ExtractedFromIsWellFormed(text: string, i: nat)
    requires i <= |text|
    ensures FirstLinkFrom(text, i).Some? ==> IsOrcidId(FirstLinkFrom(text, i).value)
    decreases |text| - i
  {
    if LinkAt(text, i).None? && i < |text| {
      ExtractedFromIsWellFormed(text, i + 1);
    }
  }

  // ---------------------------------------------------------------- search_orcid

  /** The parts of the registry record that `search_orcid` reads; absent names are "". */
  datatype PersonalDetails = PersonalDetails(
    creditName: string,
    otherNames: seq<string>,
    givenNames: string,
    familyName: string)

  datatype DetailsReply = DetailsFailed(reason: string) | Details(record: PersonalDetails)

  /** The reply to a search request: an exception (HTTP error, bad JSON, missing key),
      no results, or the first result's iD together with the reply for its personal details. */
  datatype SearchReply =
    | SearchFailed(reason: string)
    | NoResults
    | FirstResult(orcidId: string, details: DetailsReply)

  const SearchEndpoint: string := "https://pub.orcid.org/v3.0/search/?q="

  /** The given part of the name: the stripped name up to its first space. */
  function GivenPart(fullName: string): string {
    SplitFirstSpace(Strip(fullName))[0]
  }

  /** The family part: what follows the first space of the stripped name, or "". */
  function FamilyPart(fullName: string): string {
    var parts := SplitFirstSpace(Strip(fullName));
    if |parts| > 1 then parts[1] else ""
  }

  /** The name part of the query: the given part, and the family part when there is one. */
  function NameQuery(fullName: string): string {
    var q := "given-names:" + GivenPart(fullName);
    if FamilyPart(fullName) != "" then q + " AND family-name:" + FamilyPart(fullName) else q
  }

  /** The query string of `search_orcid`. */
  function SearchQuery(fullName: string, email: Option<string>): string {
    if Truthy(email) then NameQuery(fullName) + " OR email:\"" + email.value + "\"" else NameQuery(fullName)
  }

  /** The given and family parts split the stripped name at its first space. */
  lemma NameParts(fullName: string)
    ensures ' ' !in GivenPart(fullName)
    ensures ' ' in Strip(fullName) ==> GivenPart(fullName) + " " + FamilyPart(fullName) == Strip(fullName)
    ensures ' ' !in Strip(fullName) ==> GivenPart(fullName) == Strip(fullName) && FamilyPart(fullName) == ""
  {
  }

  lemma NameQueryStart(fullName: string)
    ensures StartsWith(NameQuery(fullName), "given-names:" + GivenPart(fullName))
  {
    var g := "given-names:" + GivenPart(fullName);
    var f := FamilyPart(fullName);
    ConcatPrefix(g, " AND family-name:", f);
    ConcatPrefix(g, "", "");
    assert g + "" + "" == g;
  }

  lemma ConcatPrefix(a: string, b: string, c: string)
    ensures StartsWith(a + b + c, a)
  {
    assert (a + b + c)[..|a|] == a;
  }

  lemma OneWordQuery(fullName: string)
    requires ' ' !in Strip(fullName)
    ensures SearchQuery(fullName, None) == "given-names:" + Strip(fullName)
  {
    NameParts(fullName);
  }

  /** The query starts with the given part; a one-word name is queried on its own; an absent
      or empty email adds nothing; a truthy one is appended as an `OR` clause. */
  lemma SearchQueryShape(fullName: string, email: Option<string>)
    ensures StartsWith(SearchQuery(fullName, email), "given-names:" + GivenPart(fullName))
    ensures ' ' !in Strip(fullName) ==> SearchQuery(fullName, None) == "given-names:" + Strip(fullName)
    ensures !Truthy(email) ==> SearchQuery(fullName, email) == SearchQuery(fullName, None)
    ensures Truthy(email) ==> SearchQuery(fullName, email) == SearchQuery(fullName, None) + " OR email:\"" + email.value + "\""
  {
    var g := "given-names:" + GivenPart(fullName);
    var n := NameQuery(fullName);
    var q := SearchQuery(fullName, email);
    NameQueryStart(fullName);
    if Truthy(email) {
      assert q == n + (" OR email:\"" + email.value + "\"");
      assert q[..|n|] == n;
      assert q[..|g|] == n[..|g|];
    }
    if ' ' !in Strip(fullName) {
      OneWordQuery(fullName);
    }
  }

  /** The names of a record a search hit is compared with, stripped and lower-cased. */
  function RecordNames(d: PersonalDetails): seq<string> {
    [FoldCase(Strip(d.creditName))]
    + seq(|d.otherNames|, i requires 0 <= i < |d.otherNames| => FoldCase(Strip(d.otherNames[i])))
    + [FoldCase(Strip(d.givenNames + " " + d.familyName))]
  }

  /** The hit is accepted when the stripped, lower-cased name is one of the record's names. */
  predicate NameMatches(fullName: string, d: PersonalDetails) {
    FoldCase(Strip(fullName)) in RecordNames(d)
  }

  /** `search_orcid`: the iD it returns and the log lines it appends. */
  function SearchOrcid(fullName: string, email: Option<string>, registry: string -> SearchReply): (Option<string>, seq<string>) {
    match registry(SearchEndpoint + SearchQuery(fullName, email))
    case SearchFailed(e) => (None, ["- `" + fullName + "`: ORCID search failed: " + e])
    case NoResults => (None, [])
    case FirstResult(id, DetailsFailed(e)) => (None, ["- `" + fullName + "`: ORCID search failed: " + e])
    case FirstResult(id, Details(d)) =>
      if NameMatches(fullName, d) then
        var combined := Strip(d.givenNames + " " + d.familyName);
        var shown := if d.creditName != "" then d.creditName else combined;
        (Some(id), ["- `" + fullName + "` matched to ORCID `" + id + "` (record name: **" + shown + "**)"])
      else
        (None, ["- `" + fullName + "`: ORCID `" + id + "` found but name mismatch"])
  }

  /** The name test reads: credit name, any other name, or "given family". */
  lemma NameMatchesCases(fullName: string, d: PersonalDetails)
    ensures NameMatches(fullName, d) <==>
      || FoldCase(Strip(fullName)) == FoldCase(Strip(d.creditName))
      || (exists i :: 0 <= i < |d.otherNames| && FoldCase(Strip(fullName)) == FoldCase(Strip(d.otherNames[i])))
      || FoldCase(Strip(fullName)) == FoldCase(Strip(d.givenNames + " " + d.familyName))
  {
    var names := RecordNames(d);
    var t := FoldCase(Strip(fullName));
    if t in names {
      var k :| 0 <= k < |names| && names[k] == t;
      if 0 < k < |names| - 1 {
        assert names[k] == FoldCase(Strip(d.otherNames[k - 1]));
      }
    }
    if exists i :: 0 <= i < |d.otherNames| && t == FoldCase(Strip(d.otherNames[i])) {
      var i :| 0 <= i < |d.otherNames| && t == FoldCase(Strip(d.otherNames[i]));
      assert names[i + 1] == t;
    }
  }

  /** An iD is returned only for a first hit whose record carries the searched name, and
      always for one; every call logs at most one line, and none only when nothing was found. */
  lemma SearchOrcidAcceptsOnlyMatchingNames(fullName: string, email: Option<string>, registry: string -> SearchReply)
    ensures var (id, logs) := SearchOrcid(fullName, email, registry);
      var reply := registry(SearchEndpoint + SearchQuery(fullName, email));
      && (id.Some? <==> reply.FirstResult? && reply.details.Details? && NameMatches(fullName, reply.details.record))
      && (id.Some? ==> id.value == reply.orcidId)
      && |logs| <= 1
      && (|logs| == 0 <==> reply.NoResults?)
  {
    var reply := registry(SearchEndpoint + SearchQuery(fullName, email));
    match reply
    case SearchFailed(e) =>
    case NoResults =>
    case FirstResult(id, DetailsFailed(e)) =>
    case FirstResult(id, Details(d)) =>
  }
}
