/** `categoryValidation.ts`: the slug check, the per-category completeness and
    related-list checks, and the registry-wide summary. */
module CategoryValidation {
  import opened Text
  import opened Seqs
  import opened Js
  import opened Validation
  import opened Categories
  import SlugFormat
  import CrossReferences

  /** A registry entry: the declared fields, plus the optional `related` list
      that the declared type does not name and so is absent from every shipped
      entry. */
  datatype CategoryEntry = CategoryEntry(category: Category, related: Value)

  const CategoryWording := CrossReferences.Wording(
    "Category", "related", "related categories", "categories", "slug", true)

  const RequiredCategoryFields: seq<string> := ["slug", "title", "icon", "description"]

  /** `validateCategorySlug(slug)`: no error exactly for the empty string and the
      canonical kebab-case slugs; otherwise one to four errors against `slug`. */
  function ValidateCategorySlug(slug: string): (r: seq<ValidationError>)
    ensures |r| <= 4 && AllErrors(r)
    ensures forall i :: 0 <= i < |r| ==> r[i].field == "slug"
    ensures r == [] <==> slug == "" || SlugFormat.Kebab(slug)
  {
    SlugFormat.NoErrorsIffKebab(slug, "slug", "Category");
    SlugFormat.SlugErrors(slug, "slug", "Category")
  }

  /** `category[field]` for the declared fields. */
  function FieldValue(c: Category, field: string): Value {
    match field
    case "slug" => Str(c.slug)
    case "title" => Str(c.title)
    case "icon" => Str(c.icon)
    case "description" => Str(c.description)
    case _ => Undefined
  }

  function MissingMessage(slug: string): string -> string {
    field => "Category '" + slug + "' missing required '" + field + "' field in categories.ts"
  }

  lemma RequiredCategoryFieldsDistinct()
    ensures Distinct(RequiredCategoryFields)
  {
    assert RequiredCategoryFields[0][0] == 's' && RequiredCategoryFields[1][0] == 't';
    assert RequiredCategoryFields[2][0] == 'i' && RequiredCategoryFields[3][0] == 'd';
  }

  /** The required-field loop: one error per missing or blank declared field,
      naming it, and none against any other field. */
  function MissingFieldErrors(c: Category): (r: seq<ValidationError>)
    ensures AllErrors(r)
    ensures forall f :: f in RequiredCategoryFields ==>
      |FieldErrors(r, f)| == (if MissingOrBlank(FieldValue(c, f)) then 1 else 0)
    ensures forall f :: f !in RequiredCategoryFields ==> FieldErrors(r, f) == []
  {
    RequiredCategoryFieldsDistinct();
    RequiredFieldErrors(RequiredCategoryFields, f => FieldValue(c, f), MissingMessage(c.slug))
  }

  lemma FieldValuesOfRequired(c: Category)
    ensures FieldValue(c, RequiredCategoryFields[0]) == Str(c.slug)
    ensures FieldValue(c, RequiredCategoryFields[1]) == Str(c.title)
    ensures FieldValue(c, RequiredCategoryFields[2]) == Str(c.icon)
    ensures FieldValue(c, RequiredCategoryFields[3]) == Str(c.description)
  {
  }

  /** No required-field error exactly when all four fields hold a non-blank string. */
  lemma MissingFieldsEmptyIffComplete(c: Category)
    ensures MissingFieldErrors(c) == [] <==> Complete(c)
  {
    RequiredCategoryFieldsDistinct();
    var lookup := f => FieldValue(c, f);
    RequiredFieldErrorsEmptyIff(RequiredCategoryFields, lookup, MissingMessage(c.slug));
    FieldValuesOfRequired(c);
    MissingOrBlankIff(Str(c.slug));
    MissingOrBlankIff(Str(c.title));
    MissingOrBlankIff(Str(c.icon));
    MissingOrBlankIff(Str(c.description));
  }

  /** `validateCategoryMetadata(category, allCategories)`: the required-field
      errors, then the checks of `related` against the registry's slugs. */
  function ValidateCategoryMetadata(entry: CategoryEntry, all: seq<CategoryEntry>): (r: seq<ValidationError>)
    ensures AllErrors(r)
    ensures !Truthy(entry.related) ==> r == MissingFieldErrors(entry.category)
    ensures Truthy(entry.related) && !entry.related.Arr? ==>
      r == MissingFieldErrors(entry.category)
        + [ValidationError("related", CrossReferences.NotArrayMessage(CategoryWording, entry.category.slug), Error)]
  {
    var missing := MissingFieldErrors(entry.category);
    var related := CrossReferences.RelatedErrors(CategoryWording, entry.category.slug, entry.related, EntrySlugs(all));
    AllErrorsConcat(missing, related);
    missing + related
  }

  function EntrySlugs(all: seq<CategoryEntry>): (slugs: seq<string>)
    ensures |slugs| == |all|
    ensures forall i :: 0 <= i < |all| ==> slugs[i] == all[i].category.slug
  {
    seq(|all|, i requires 0 <= i < |all| => all[i].category.slug)
  }

  /** A related-list naming its owner always draws the self-reference error. */
  lemma SelfReferenceReported(entry: CategoryEntry, all: seq<CategoryEntry>)
    requires entry.related.Arr? && entry.category.slug in entry.related.items
    ensures ValidationError("related", CrossReferences.SelfMessage(CategoryWording, entry.category.slug), Error)
      in ValidateCategoryMetadata(entry, all)
  {
    var w := CategoryWording;
    var slug := entry.category.slug;
    var items := entry.related.items;
    var known := EntrySlugs(all);
    var listed := CrossReferences.RelatedListErrors(w, slug, items, known);
    var k := if Outside(items, known) != [] then 1 else 0;
    assert listed[k] == ValidationError("related", CrossReferences.SelfMessage(w, slug), Error);
    var related := CrossReferences.RelatedErrors(w, slug, entry.related, known);
    assert related[k] == listed[k];
    assert ValidateCategoryMetadata(entry, all)[|MissingFieldErrors(entry.category)| + k] == related[k];
  }

  /** The related-list of an entry passes when it is absent or falsy, or an array
      of known, distinct, canonical slugs that does not name its owner. */
  predicate RelatedClean(entry: CategoryEntry, known: seq<string>) {
    !Truthy(entry.related)
    || (&& entry.related.Arr?
        && (forall i :: 0 <= i < |entry.related.items| ==> entry.related.items[i] in known)
        && entry.category.slug !in entry.related.items
        && Distinct(entry.related.items)
        && CrossReferences.AllWellFormed(entry.related.items))
  }

  /** The metadata check raises nothing exactly when the category is complete and
      its related-list is clean. */
  lemma MetadataCleanIff(entry: CategoryEntry, all: seq<CategoryEntry>)
    ensures ValidateCategoryMetadata(entry, all) == [] <==>
      Complete(entry.category) && RelatedClean(entry, EntrySlugs(all))
  {
    MissingFieldsEmptyIffComplete(entry.category);
    if entry.related.Arr? {
      CrossReferences.RelatedCleanIff(CategoryWording, entry.category.slug, entry.related.items, EntrySlugs(all));
    }
  }

  /** Everything one entry contributes to the registry-wide list. */
  function EntryErrors(entry: CategoryEntry, all: seq<CategoryEntry>): (r: seq<ValidationError>)
    ensures AllErrors(r)
    ensures r == [] <==>
      && (entry.category.slug == "" || SlugFormat.Kebab(entry.category.slug))
      && Complete(entry.category)
      && RelatedClean(entry, EntrySlugs(all))
  {
    var slugErrors := ValidateCategorySlug(entry.category.slug);
    var metadata := ValidateCategoryMetadata(entry, all);
    AllErrorsConcat(slugErrors, metadata);
    MetadataCleanIff(entry, all);
    slugErrors + metadata
  }

  /** `validateAllCategories()` over the registry `all`: never a warning, and
      valid exactly when every entry's slug, fields and related-list pass. */
  function ValidateAllCategories(all: seq<CategoryEntry>): (r: ValidationResult)
    ensures r.warnings == []
    ensures r.valid <==> forall i :: 0 <= i < |all| ==> EntryErrors(all[i], all) == []
  {
    var collected := Collect(all, e => EntryErrors(e, all));
    SummarizeOnlyErrors(collected);
    Summarize(collected)
  }

  /** The shipped registry: the declared categories, none carrying `related`. */
  function ShippedEntries(): (r: seq<CategoryEntry>)
    ensures |r| == |CATEGORIES|
    ensures forall i :: 0 <= i < |r| ==> r[i] == CategoryEntry(CATEGORIES[i], Undefined)
  {
    seq(|CATEGORIES|, i requires 0 <= i < |CATEGORIES| => CategoryEntry(CATEGORIES[i], Undefined))
  }

  /** The shipped categories pass the registry-wide validation. */
  lemma ShippedCategoriesValid()
    ensures ValidateAllCategories(ShippedEntries()).valid
  {
    var all := ShippedEntries();
    ShippedCategoriesWellFormed();
    forall i | 0 <= i < |all|
      ensures EntryErrors(all[i], all) == []
    {
      SlugFormat.NoErrorsIffKebab(all[i].category.slug, "slug", "Category");
    }
  }
}
