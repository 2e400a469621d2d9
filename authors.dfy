/** The two shapes of a CITATION.cff author entry and the predicate that decides
    whether two entries denote the same contributor (`CffManager.get_cff_author_type`
    and `CffManager.is_same_person`). */
module Authors {
  import opened Wrappers
  import opened Text

  /** An entry of the `authors` list: field name to value. */
  type Author = map<string, string>

  datatype AuthorType = Entity | Person | Unknown

  /** `get_cff_author_type`: decided by which keys are present, `name` first. */
  function Classify(a: Author): AuthorType {
    if "name" in a then Entity
    else if "given-names" in a && "family-names" in a then Person
    else Unknown
  }

  predicate Known(a: Author) {
    Classify(a) != Unknown
  }

  /** `a.get(key, "")`. */
  function Get(a: Author, key: string): string {
    if key in a then a[key] else ""
  }

  /** `value.casefold().strip()`. */
  function Norm(s: string): string {
    Strip(FoldCase(s))
  }

  /** One clause of the predicate: the normalised values agree and `a`'s value is not blank. */
  predicate FieldMatch(a: Author, b: Author, key: string) {
    Norm(Get(a, key)) == Norm(Get(b, key)) && Strip(Get(a, key)) != ""
  }

  /** The normalised full name `"{given} {family}".strip()` built from normalised parts. */
  function FullName(a: Author): string {
    Strip(Norm(Get(a, "given-names")) + " " + Norm(Get(a, "family-names")))
  }

  predicate EntityMatch(a: Author, b: Author) {
    FieldMatch(a, b, "name") || FieldMatch(a, b, "alias")
  }

  predicate PersonMatch(a: Author, b: Author) {
    || FieldMatch(a, b, "alias")
    || FieldMatch(a, b, "email")
    || FieldMatch(a, b, "orcid")
    || (FullName(a) == FullName(b) && FullName(a) != "")
  }

  /** `is_same_person`: raises for an unknown shape, never matches across shapes; entities
      compare `name` or `alias`, persons `alias`, `email`, `orcid` or the full name. */
  function SameIdentity(a: Author, b: Author): Result<bool> {
    if Classify(a) == Unknown || Classify(b) == Unknown then
      Err(ValueError("Cannot compare unknown author types."))
    else if Classify(a) != Classify(b) then Ok(false)
    else if Classify(a) == Entity then Ok(EntityMatch(a, b))
    else Ok(PersonMatch(a, b))
  }

  /** An entry that `SameIdentity` relates to itself: it has a non-blank field that is compared. */
  predicate Identifiable(a: Author) {
    if Classify(a) == Entity then Strip(Get(a, "name")) != "" || Strip(Get(a, "alias")) != ""
    else
      || Strip(Get(a, "alias")) != ""
      || Strip(Get(a, "email")) != ""
      || Strip(Get(a, "orcid")) != ""
      || FullName(a) != ""
  }

  /** Same keys, and every value equal up to case and surrounding white space. */
  predicate Equivalent(a: Author, b: Author) {
    a.Keys == b.Keys && forall k :: k in a ==> Norm(a[k]) == Norm(b[k])
  }

  // ---------------------------------------------------------------- classification

  /** `name` wins over the person fields; both person fields are needed for a person. */
  lemma ClassificationOrder(a: Author)
    ensures "name" in a ==> Classify(a) == Entity
    ensures Classify(a) == Person <==> "name" !in a && "given-names" in a && "family-names" in a
    ensures Classify(a) == Unknown <==> "name" !in a && !("given-names" in a && "family-names" in a)
  {
  }

  // ---------------------------------------------------------------- identity

  /** The predicate raises exactly when one side has the unknown shape. */
  lemma UnknownIsRejected(a: Author, b: Author)
    ensures SameIdentity(a, b).Err? <==> !Known(a) || !Known(b)
  {
  }

  /** A person and an entity are never the same contributor. */
  lemma CrossTypeNeverSame(a: Author, b: Author)
    requires Known(a) && Known(b) && Classify(a) != Classify(b)
    ensures SameIdentity(a, b) == Ok(false)
  {
  }

  lemma FieldMatchSymmetric(a: Author, b: Author, key: string)
    ensures FieldMatch(a, b, key) <==> FieldMatch(b, a, key)
  {
    NormBlank(Get(a, key));
    NormBlank(Get(b, key));
  }

  /** `is_same_person(a, b)` and `is_same_person(b, a)` agree, errors included. */
  lemma SameIdentitySymmetric(a: Author, b: Author)
    ensures SameIdentity(a, b) == SameIdentity(b, a)
  {
    FieldMatchSymmetric(a, b, "name");
    FieldMatchSymmetric(a, b, "alias");
    FieldMatchSymmetric(a, b, "email");
    FieldMatchSymmetric(a, b, "orcid");
  }

  /** Changing the case or the surrounding white space of any values leaves the verdict unchanged. */
  lemma NormalisationInvariant(a: Author, a': Author, b: Author)
    requires Equivalent(a, a')
    ensures SameIdentity(a, b) == SameIdentity(a', b)
  {
    assert Classify(a) == Classify(a');
    if Classify(a) == Entity {
      EquivalentField(a, a', b, "name");
      EquivalentField(a, a', b, "alias");
    } else if Classify(a) == Person {
      EquivalentPersonMatch(a, a', b);
    }
  }

  lemma EquivalentPersonMatch(a: Author, a': Author, b: Author)
    requires Equivalent(a, a')
    ensures PersonMatch(a, b) == PersonMatch(a', b)
  {
    EquivalentField(a, a', b, "alias");
    EquivalentField(a, a', b, "email");
    EquivalentField(a, a', b, "orcid");
    EquivalentField(a, a', b, "given-names");
    EquivalentField(a, a', b, "family-names");
    assert FullName(a) == FullName(a');
  }

  lemma EquivalentField(a: Author, a': Author, b: Author, key: string)
    requires Equivalent(a, a')
    ensures Norm(Get(a, key)) == Norm(Get(a', key))
    ensures FieldMatch(a, b, key) <==> FieldMatch(a', b, key)
  {
    NormBlank(Get(a, key));
    NormBlank(Get(a', key));
  }

  /** What `Equivalent` allows: recasing a value and padding it with white space. */
  lemma NormIgnoresCaseAndPadding(s: string, t: string, pre: string, post: string)
    requires AllSpace(pre) && AllSpace(post) && FoldCase(t) == FoldCase(s)
    ensures Norm(pre + t + post) == Norm(s)
  {
    FoldCaseConcat(pre, t);
    FoldCaseConcat(pre + t, post);
    FoldCaseConcat(post, "");
    StripPadding(FoldCase(pre), FoldCase(t), FoldCase(post));
  }

  /** A blank `alias`, `email` or `orcid` takes no part: the verdict is as if it were absent. */
  lemma BlankFieldIgnored(a: Author, b: Author, key: string)
    requires key == "alias" || key == "email" || key == "orcid"
    requires Strip(Get(a, key)) == ""
    ensures SameIdentity(a, b) == SameIdentity(a - {key}, b)
  {
    var a' := a - {key};
    assert Classify(a') == Classify(a);
    assert Get(a', "given-names") == Get(a, "given-names");
    assert Get(a', "family-names") == Get(a, "family-names");
    assert FullName(a') == FullName(a);
    assert !FieldMatch(a, b, key) && !FieldMatch(a', b, key);
    if Classify(a) == Person {
      assert Get(a', "alias") == Get(a, "alias") || key == "alias";
      assert Get(a', "email") == Get(a, "email") || key == "email";
      assert Get(a', "orcid") == Get(a, "orcid") || key == "orcid";
      assert PersonMatch(a, b) == PersonMatch(a', b);
    } else if Classify(a) == Entity {
      assert Get(a', "name") == Get(a, "name");
      assert Get(a', "alias") == Get(a, "alias") || key == "alias";
      assert EntityMatch(a, b) == EntityMatch(a', b);
    }
  }

  /** An entry none of whose compared fields holds text matches nothing. */
  lemma BlankNeverSame(a: Author, b: Author)
    requires !Identifiable(a)
    ensures SameIdentity(a, b) != Ok(true)
  {
    if Classify(a) == Entity {
      assert !EntityMatch(a, b);
    } else if Classify(a) == Person {
      assert !PersonMatch(a, b);
    }
  }

  /** Entities are compared on `name` and `alias` only: `email` and every other field are ignored. */
  lemma EntityComparedOnNameAndAlias(a: Author, a': Author, b: Author)
    requires Classify(a) == Entity && Classify(a') == Entity
    requires Get(a, "name") == Get(a', "name") && Get(a, "alias") == Get(a', "alias")
    ensures SameIdentity(a, b) == SameIdentity(a', b)
  {
  }

  /** A well-shaped entry with a non-blank compared field is the same as itself. */
  lemma SelfSame(a: Author)
    ensures SameIdentity(a, a) == Ok(true) <==> Known(a) && Identifiable(a)
  {
  }
}
