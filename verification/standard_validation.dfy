/** `standardValidation.ts`, the older standards validator: it checks the
    display map of `standards.ts` (title and icon only) and a tool's
    `standards` list against that map's keys. */
module StandardValidation {
  import opened Text
  import opened Seqs
  import opened Js
  import opened Validation
  import opened StandardMetadata
  import SlugFormat
  import CrossReferences
  import CoreStandardValidation
  import CategoryValidation

  /** The map's entries seen as parsed records, keyed by standard name. */
  type Registry = seq<(string, Record)>

  const RequiredDisplayFields: seq<string> := ["title", "icon"]

  const UnknownHint := "Add missing standards to STANDARD_METADATA in standards.ts"

  /** `validateStandardSlug(slug)`: the same four tests as the other copies,
      reported against `standards`. */
  function ValidateStandardSlug(slug: string): (r: seq<ValidationError>)
    ensures |r| == |SlugFormat.FailedChecks(slug)| <= 4 && AllErrors(r)
    ensures forall i :: 0 <= i < |r| ==> r[i].field == "standards"
    ensures r == [] <==> slug == "" || SlugFormat.Kebab(slug)
  {
    SlugFormat.NoErrorsIffKebab(slug, "standards", "Standard");
    SlugFormat.SlugErrors(slug, "standards", "Standard")
  }

  function MissingMessage(slug: string): string -> string {
    field => "Standard '" + slug + "' missing required '" + field + "' field in STANDARD_METADATA"
  }

  /** `validateStandardMetadata(slug, metadata)`: at most one error for `title`
      and one for `icon`, and nothing about any other field. */
  function ValidateStandardMetadata(slug: string, metadata: Record): (r: seq<ValidationError>)
    ensures AllErrors(r) && |r| <= 2
    ensures forall f :: f in RequiredDisplayFields ==>
      |FieldErrors(r, f)| == (if MissingOrBlank(Get(metadata, f)) then 1 else 0)
    ensures forall f :: f !in RequiredDisplayFields ==> FieldErrors(r, f) == []
  {
    assert RequiredDisplayFields[0][0] == 't' && RequiredDisplayFields[1][0] == 'i';
    RequiredFieldErrors(RequiredDisplayFields, f => Get(metadata, f), MissingMessage(slug))
  }

  /** No metadata error exactly when both title and icon are filled. */
  lemma MetadataCleanIff(slug: string, metadata: Record)
    ensures ValidateStandardMetadata(slug, metadata) == [] <==>
      Filled(Get(metadata, "title")) && Filled(Get(metadata, "icon"))
  {
    var fields := RequiredDisplayFields;
    assert fields[0][0] == 't' && fields[1][0] == 'i';
    RequiredFieldErrorsEmptyIff(fields, f => Get(metadata, f), MissingMessage(slug));
  }

  /** `validateStandards(tool, filename)` against the map's keys `known`. */
  function ValidateStandards(tool: Record, known: seq<string>): (r: seq<ValidationError>)
    ensures !Truthy(Get(tool, "standards")) ==> r == []
    ensures Truthy(Get(tool, "standards")) && !Get(tool, "standards").Arr? ==> r == [CrossReferences.NotArrayStandards]
    ensures Get(tool, "standards") == Arr([]) ==> r == [CrossReferences.EmptyStandards]
    ensures Get(tool, "standards").Arr? && Get(tool, "standards").items != [] ==>
      && AllErrors(r)
      && r == CrossReferences.ToolListErrors(Get(tool, "standards").items, known, UnknownHint)
        + SlugFormat.SlugErrorsEach(Get(tool, "standards").items, "standards", "Standard")
    ensures Get(tool, "standards").Arr? && Outside(Get(tool, "standards").items, known) != [] ==>
      r[0].message == CrossReferences.UnknownStandardsMessage(Outside(Get(tool, "standards").items, known), known,
        "Add missing standards to STANDARD_METADATA in standards.ts")
  {
    CrossReferences.StandardsErrors(Get(tool, "standards"), known, UnknownHint)
  }

  /** Against keys that all contain a capital letter, a non-empty list always
      draws an error: its first entry is either unknown or not a valid slug. */
  lemma NonEmptyListAlwaysFails(tool: Record, known: seq<string>)
    requires forall i :: 0 <= i < |known| ==> HasCapital(known[i])
    requires Get(tool, "standards").Arr? && Get(tool, "standards").items != []
    ensures HasError(ValidateStandards(tool, known))
  {
    var items := Get(tool, "standards").items;
    var r := ValidateStandards(tool, known);
    var listed := CrossReferences.ToolListErrors(items, known, UnknownHint);
    var formats := SlugFormat.SlugErrorsEach(items, "standards", "Standard");
    if items[0] in known {
      var j :| 0 <= j < |known| && known[j] == items[0];
      var k :| 0 <= k < |items[0]| && IsAsciiUpper(items[0][k]);
      SlugFormat.UppercaseFailsTwice(items[0], k);
      assert formats != [];
    } else {
      assert items[0] in Outside(items, known);
      assert listed != [];
    }
    assert |r| > 0;
    assert r[0].severity == Error;
  }

  /** Against the shipped map, any non-empty `standards` list is rejected. */
  lemma ShippedKeysRejectEveryList(tool: Record)
    requires Get(tool, "standards").Arr? && Get(tool, "standards").items != []
    ensures HasError(ValidateStandards(tool, MetaKeys(STANDARD_METADATA)))
  {
    ShippedKeysHaveCapital();
    NonEmptyListAlwaysFails(tool, MetaKeys(STANDARD_METADATA));
  }

  /** Everything one map entry contributes to the registry-wide list. */
  function EntryErrors(entry: (string, Record)): (r: seq<ValidationError>)
    ensures AllErrors(r)
    ensures r == [] <==>
      && (entry.0 == "" || SlugFormat.Kebab(entry.0))
      && Filled(Get(entry.1, "title")) && Filled(Get(entry.1, "icon"))
  {
    var slugErrors := ValidateStandardSlug(entry.0);
    var metadata := ValidateStandardMetadata(entry.0, entry.1);
    AllErrorsConcat(slugErrors, metadata);
    MetadataCleanIff(entry.0, entry.1);
    slugErrors + metadata
  }

  /** `validateAllStandards()` over the map's entries: never a warning, and valid
      exactly when every key is a valid slug and every entry has title and icon. */
  function ValidateAllStandards(all: Registry): (r: ValidationResult)
    ensures r.warnings == []
    ensures r.valid <==> forall i :: 0 <= i < |all| ==> EntryErrors(all[i]) == []
    ensures r.valid <==> r.errors == []
  {
    var collected := Collect(all, EntryErrors);
    SummarizeOnlyErrors(collected);
    Summarize(collected)
  }

  /** The shipped map as the validator sees it. */
  function ShippedRegistry(): (r: Registry)
    ensures |r| == |STANDARD_METADATA|
    ensures forall i :: 0 <= i < |r| ==> r[i] == (STANDARD_METADATA[i].0, AsRecord(STANDARD_METADATA[i].1))
  {
    seq(|STANDARD_METADATA|, i requires 0 <= i < |STANDARD_METADATA| =>
      (STANDARD_METADATA[i].0, AsRecord(STANDARD_METADATA[i].1)))
  }

  /** The shipped entries carry no title, so the shipped map never validates. */
  lemma ShippedMapInvalid()
    ensures !ValidateAllStandards(ShippedRegistry()).valid
    ensures |ValidateAllStandards(ShippedRegistry()).errors| > 0
  {
    var all := ShippedRegistry();
    ShippedKeysListed();
    assert Get(all[0].1, "title") == Undefined;
    assert EntryErrors(all[0]) != [];
  }

  /** The three copies of the slug check agree: the two standards copies give
      the same errors, and the category copy as many, failing the same tests. */
  lemma SlugCopiesAgree(slug: string)
    ensures CoreStandardValidation.ValidateStandardSlug(slug) == ValidateStandardSlug(slug)
    ensures |CategoryValidation.ValidateCategorySlug(slug)| == |ValidateStandardSlug(slug)|
  {
  }
}
