/** `core/validation/standards.ts`: the standards registry loaded from
    `standards.yaml` and the standards a tool cites, checked for completeness,
    cross-references and slug format. The registry is a parameter: an ordered
    list of `(slug, record)` entries, the order of `Object.entries`. */
module CoreStandardValidation {
  import opened Text
  import opened Seqs
  import opened Js
  import opened Validation
  import SlugFormat
  import CrossReferences

  /** `Object.entries(standards)`: each slug with its parsed record. */
  type Registry = seq<(string, Record)>

  const StandardWording := CrossReferences.Wording(
    "Standard", "related_standards", "related_standards", "standards", "standards", false)

  /** Every declared field but `description`, which is optional. */
  const RequiredStandardFields: seq<string> :=
    ["title", "icon", "domain", "purpose", "format_technology", "maintainer_origin", "status"]

  const UnknownHint := "Add missing standards to standards.yaml"

  /** `Object.keys(standards)`, in entry order. */
  function Keys(all: Registry): (keys: seq<string>)
    ensures |keys| == |all|
    ensures forall i :: 0 <= i < |all| ==> keys[i] == all[i].0
  {
    seq(|all|, i requires 0 <= i < |all| => all[i].0)
  }

  /** `validateStandardSlug(slug)`: the four slug tests against field
      `standards`; nothing exactly for the empty string and canonical slugs. */
  function ValidateStandardSlug(slug: string): (r: seq<ValidationError>)
    ensures |r| == |SlugFormat.FailedChecks(slug)| <= 4 && AllErrors(r)
    ensures forall i :: 0 <= i < |r| ==> r[i].field == "standards"
    ensures r == [] <==> slug == "" || SlugFormat.Kebab(slug)
  {
    SlugFormat.NoErrorsIffKebab(slug, "standards", "Standard");
    SlugFormat.SlugErrors(slug, "standards", "Standard")
  }

  lemma RequiredStandardFieldsDistinct()
    ensures Distinct(RequiredStandardFields)
  {
    var f := RequiredStandardFields;
    assert f[0][0] == 't' && f[1][0] == 'i' && f[2][0] == 'd' && f[3][0] == 'p';
    assert f[4][0] == 'f' && f[5][0] == 'm' && f[6][0] == 's';
  }

  function MissingMessage(slug: string): string -> string {
    field => "Standard '" + slug + "' missing required '" + field + "' field in standards.yaml"
  }

  /** The required-field loop: exactly one error per required field that is
      missing, not a string, or blank, and none against any other field. */
  function MissingFieldErrors(slug: string, standard: Record): (r: seq<ValidationError>)
    ensures AllErrors(r)
    ensures forall f :: f in RequiredStandardFields ==>
      |FieldErrors(r, f)| == (if MissingOrBlank(Get(standard, f)) then 1 else 0)
    ensures forall f :: f !in RequiredStandardFields ==> FieldErrors(r, f) == []
  {
    RequiredStandardFieldsDistinct();
    RequiredFieldErrors(RequiredStandardFields, f => Get(standard, f), MissingMessage(slug))
  }

  /** A standard is complete when every required field holds a non-blank string. */
  predicate Complete(standard: Record) {
    forall i :: 0 <= i < |RequiredStandardFields| ==> Filled(Get(standard, RequiredStandardFields[i]))
  }

  lemma MissingFieldsEmptyIffComplete(slug: string, standard: Record)
    ensures MissingFieldErrors(slug, standard) == [] <==> Complete(standard)
  {
    RequiredStandardFieldsDistinct();
    RequiredFieldErrorsEmptyIff(RequiredStandardFields, f => Get(standard, f), MissingMessage(slug));
  }

  /** `description` is optional: whatever it holds, the required-field errors
      are the same. */
  lemma DescriptionNeverChecked(slug: string, standard: Record, v: Value)
    ensures MissingFieldErrors(slug, standard["description" := v]) == MissingFieldErrors(slug, standard)
  {
    RequiredStandardFieldsDistinct();
    var fields := RequiredStandardFields;
    assert "description" !in fields by {
      assert forall i :: 0 <= i < |fields| ==> fields[i][0] != 'd' || |fields[i]| != 11;
    }
    RequiredFieldErrorsAgree(fields, f => Get(standard["description" := v], f), f => Get(standard, f), MissingMessage(slug));
  }

  /** `validateStandardMetadata(slug, standard, allStandards)`: the required-field
      errors, then the checks of `related_standards` against the registry's keys,
      with no self-reference check. */
  function ValidateStandardMetadata(slug: string, standard: Record, all: Registry): (r: seq<ValidationError>)
    ensures AllErrors(r)
    ensures !Truthy(Get(standard, "related_standards")) ==> r == MissingFieldErrors(slug, standard)
    ensures Truthy(Get(standard, "related_standards")) && !Get(standard, "related_standards").Arr? ==>
      r == MissingFieldErrors(slug, standard)
        + [ValidationError("related_standards", CrossReferences.NotArrayMessage(StandardWording, slug), Error)]
  {
    var missing := MissingFieldErrors(slug, standard);
    var related := CrossReferences.RelatedErrors(StandardWording, slug, Get(standard, "related_standards"), Keys(all));
    AllErrorsConcat(missing, related);
    missing + related
  }

  /** A registered, canonical standard may list itself in `related_standards`:
      there is no self-reference check, so such a list raises nothing. */
  lemma SelfReferenceAllowed(slug: string, standard: Record, all: Registry)
    requires slug in Keys(all) && SlugFormat.Kebab(slug)
    requires Get(standard, "related_standards") == Arr([slug])
    ensures ValidateStandardMetadata(slug, standard, all) == MissingFieldErrors(slug, standard)
  {
    var items := [slug];
    var known := Keys(all);
    assert CrossReferences.AllWellFormed(items) && Distinct(items);
    assert forall i :: 0 <= i < |items| ==> items[i] in known;
    CrossReferences.RelatedCleanIff(StandardWording, slug, items, known);
    var related := CrossReferences.RelatedErrors(StandardWording, slug, Arr(items), known);
    assert related == [];
    assert ValidateStandardMetadata(slug, standard, all) == MissingFieldErrors(slug, standard) + related;
  }

  /** The related list of a standard passes when absent or falsy, or an array of
      registered, distinct, canonical slugs. */
  predicate RelatedClean(standard: Record, known: seq<string>) {
    var related := Get(standard, "related_standards");
    !Truthy(related)
    || (&& related.Arr?
        && (forall i :: 0 <= i < |related.items| ==> related.items[i] in known)
        && Distinct(related.items)
        && CrossReferences.AllWellFormed(related.items))
  }

  lemma MetadataCleanIff(slug: string, standard: Record, all: Registry)
    ensures ValidateStandardMetadata(slug, standard, all) == [] <==>
      Complete(standard) && RelatedClean(standard, Keys(all))
  {
    MissingFieldsEmptyIffComplete(slug, standard);
    var related := Get(standard, "related_standards");
    if related.Arr? {
      CrossReferences.RelatedCleanIff(StandardWording, slug, related.items, Keys(all));
    }
  }

  /** `validateStandards(tool, filename)` against the registry keys `known`. */
  function ValidateStandards(tool: Record, known: seq<string>): (r: seq<ValidationError>)
    ensures !Truthy(Get(tool, "standards")) ==> r == []
    ensures Truthy(Get(tool, "standards")) && !Get(tool, "standards").Arr? ==> r == [CrossReferences.NotArrayStandards]
    ensures Get(tool, "standards") == Arr([]) ==> r == [CrossReferences.EmptyStandards]
    ensures Get(tool, "standards").Arr? && Get(tool, "standards").items != [] ==>
      && AllErrors(r)
      && r == CrossReferences.ToolListErrors(Get(tool, "standards").items, known, UnknownHint)
        + SlugFormat.SlugErrorsEach(Get(tool, "standards").items, "standards", "Standard")
    ensures Get(tool, "standards").Arr? && Outside(Get(tool, "standards").items, known) != [] ==>
      r[0].message == CrossReferences.UnknownStandardsMessage(Outside(Get(tool, "standards").items, known), known,
        "Add missing standards to standards.yaml")
  {
    CrossReferences.StandardsErrors(Get(tool, "standards"), known, UnknownHint)
  }

  /** A cited list that is non-empty raises nothing exactly when every entry is a
      registered key, none repeats, and each is a canonical slug. */
  lemma ValidateStandardsCleanIff(tool: Record, known: seq<string>)
    requires Get(tool, "standards").Arr? && Get(tool, "standards").items != []
    ensures ValidateStandards(tool, known) == [] <==>
      var items := Get(tool, "standards").items;
      && (forall i :: 0 <= i < |items| ==> items[i] in known)
      && Distinct(items)
      && CrossReferences.AllWellFormed(items)
  {
    CrossReferences.StandardsCleanIff(Get(tool, "standards").items, known, UnknownHint);
  }

  /** Everything one registry entry contributes to the registry-wide list. */
  function EntryErrors(entry: (string, Record), all: Registry): (r: seq<ValidationError>)
    ensures AllErrors(r)
    ensures r == [] <==>
      && (entry.0 == "" || SlugFormat.Kebab(entry.0))
      && Complete(entry.1)
      && RelatedClean(entry.1, Keys(all))
  {
    var slugErrors := ValidateStandardSlug(entry.0);
    var metadata := ValidateStandardMetadata(entry.0, entry.1, all);
    AllErrorsConcat(slugErrors, metadata);
    MetadataCleanIff(entry.0, entry.1, all);
    slugErrors + metadata
  }

  /** `validateAllStandards()` over the registry `all`: never a warning, and
      valid exactly when every entry's slug, fields and related list pass. */
  function ValidateAllStandards(all: Registry): (r: ValidationResult)
    ensures r.warnings == []
    ensures r.valid <==> forall i :: 0 <= i < |all| ==> EntryErrors(all[i], all) == []
    ensures r.valid <==> r.errors == []
  {
    var collected := Collect(all, e => EntryErrors(e, all));
    SummarizeOnlyErrors(collected);
    Summarize(collected)
  }
}
