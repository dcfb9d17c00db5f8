/** The category registry `CATEGORIES` and its two accessors. The registry's
    order is the display order everywhere it is listed. */
module Categories {
  import opened Text
  import opened Seqs
  import opened Optional
  import SlugFormat

  datatype Category = Category(slug: string, title: string, icon: string, description: string)

  /** The shipped registry, in display order. Long descriptions are written as
      concatenations of shorter literals, which denote the same strings. */
  const CATEGORIES: seq<Category> := [
    Category("validators", "Validators", "\U{2713}",
      "Schema validation " + "and business rule checking tools"),
    Category("converters", "Converters & Transformers", "\U{21C4}",
      "Format conversion " + "and data transformation utilities"),
    Category("version-tools", "Version Upgrade Tools", "\U{2B06}",
      "Migration and compatibility utilities"),
    Category("sdks", "SDKs & Libraries", "\U{1F4E6}",
      "Programming language " + "bindings and libraries"),
    Category("reference-implementations", "Reference Implementations", "\U{1F3AF}",
      "Working examples and demo applications"),
    Category("development", "Development Tools", "\U{1F6E0}",
      "Browsers, editors, and generators"),
    Category("data-quality", "Data Quality Tools", "\U{1F4CA}",
      "Validation, enrichment, and cleaning"),
    Category("testing", "Testing Utilities", "\U{1F9EA}",
      "Test data generation and validation"),
    Category("metadata", "Metadata Tools", "\U{1F3F7}",
      "Catalog generation and discovery"),
    Category("route-planners", "Route Planners", "\U{1F5FA}\U{FE0F}",
      "Intermodal travel information system"),
    Category("references", "References", "\U{1F4DA}",
      "Technical documentation, "
      + "specifications, and implementation guides "
      + "for mobility data standards and systems")
  ]

  /** `CATEGORIES.map(cat => cat.slug)` over a given registry. */
  function GetCategorySlugs(registry: seq<Category>): (slugs: seq<string>)
    ensures |slugs| == |registry|
    ensures forall i :: 0 <= i < |registry| ==> slugs[i] == registry[i].slug
  {
    seq(|registry|, i requires 0 <= i < |registry| => registry[i].slug)
  }

  /** Position `i` holds the first category whose slug is `slug`. */
  predicate FirstWithSlug(registry: seq<Category>, slug: string, i: int) {
    0 <= i < |registry| && registry[i].slug == slug && forall j :: 0 <= j < i ==> registry[j].slug != slug
  }

  /** `CATEGORIES.find(cat => cat.slug === slug)`: the first category with
      exactly that slug. */
  function GetCategoryBySlug(registry: seq<Category>, slug: string): (r: Option<Category>)
    ensures r.None? <==> forall i :: 0 <= i < |registry| ==> registry[i].slug != slug
    ensures r.Some? ==> r.value.slug == slug && exists i :: FirstWithSlug(registry, slug, i) && registry[i] == r.value
  {
    if |registry| == 0 then None
    else if registry[0].slug == slug then Some(registry[0])
    else
      var r := GetCategoryBySlug(registry[1..], slug);
      assert forall i :: 1 <= i < |registry| ==> registry[i] == registry[1..][i - 1];
      r
  }

  /** In a registry with distinct slugs, looking up the i-th slug returns the
      i-th category. */
  lemma {:induction false} LookupOfListedSlug(registry: seq<Category>, i: nat)
    requires Distinct(GetCategorySlugs(registry))
    requires i < |registry|
    ensures GetCategoryBySlug(registry, GetCategorySlugs(registry)[i]) == Some(registry[i])
  {
    var slugs := GetCategorySlugs(registry);
    var r := GetCategoryBySlug(registry, slugs[i]);
    var k :| FirstWithSlug(registry, slugs[i], k) && registry[k] == r.value;
    assert slugs[k] == slugs[i];
  }

  /** Every field holds a character other than white space. */
  predicate Complete(c: Category) {
    !IsBlank(c.slug) && !IsBlank(c.title) && !IsBlank(c.icon) && !IsBlank(c.description)
  }

  /** The shipped slugs are pairwise distinct and start with `validators`. */
  lemma ShippedSlugsDistinct()
    ensures |CATEGORIES| == 11
    ensures Distinct(GetCategorySlugs(CATEGORIES))
    ensures GetCategorySlugs(CATEGORIES)[0] == "validators"
  {
    var slugs := GetCategorySlugs(CATEGORIES);
    assert slugs == ["validators", "converters", "version-tools", "sdks", "reference-implementations",
      "development", "data-quality", "testing", "metadata", "route-planners", "references"];
  }

  /** A kebab-case slug and fields that start with a character other than white
      space: the form in which the facts are checked on the literal. */
  predicate Shaped(c: Category) {
    && SlugFormat.Kebab(c.slug)
    && |c.title| > 0 && !IsWhitespace(c.title[0])
    && |c.icon| > 0 && !IsWhitespace(c.icon[0])
    && |c.description| > 0 && !IsWhitespace(c.description[0])
  }

  lemma ShapedIsWellFormed(c: Category)
    requires Shaped(c)
    ensures SlugFormat.FailedChecks(c.slug) == [] && Complete(c)
  {
    SlugFormat.NoErrorsIffKebab(c.slug, "slug", "Category");
    assert !IsWhitespace(c.slug[0]);
  }

  lemma ShippedCategory0()
    ensures Shaped(CATEGORIES[0])
  {
    assert SlugFormat.Kebab("validators");
  }

  lemma ShippedCategory1()
    ensures Shaped(CATEGORIES[1])
  {
    assert SlugFormat.Kebab("converters");
  }

  lemma ShippedCategory2()
    ensures Shaped(CATEGORIES[2])
  {
    assert SlugFormat.Kebab("version-tools");
  }

  lemma ShippedCategory3()
    ensures Shaped(CATEGORIES[3])
  {
    assert SlugFormat.Kebab("sdks");
  }

  /** The longest shipped slug, checked word by word. */
  lemma LongestSlugIsKebab()
    ensures SlugFormat.Kebab("reference-implementations")
  {
    assert SlugFormat.Kebab("reference") && SlugFormat.Kebab("implementations");
    SlugFormat.KebabJoin("reference", "implementations");
    assert "reference" + "-" + "implementations" == "reference-implementations";
  }

  lemma ShippedCategory4()
    ensures Shaped(CATEGORIES[4])
  {
    LongestSlugIsKebab();
  }

  lemma ShippedCategory5()
    ensures Shaped(CATEGORIES[5])
  {
    assert SlugFormat.Kebab("development");
  }

  lemma ShippedCategory6()
    ensures Shaped(CATEGORIES[6])
  {
    assert SlugFormat.Kebab("data-quality");
  }

  lemma ShippedCategory7()
    ensures Shaped(CATEGORIES[7])
  {
    assert SlugFormat.Kebab("testing");
  }

  lemma ShippedCategory8()
    ensures Shaped(CATEGORIES[8])
  {
    assert SlugFormat.Kebab("metadata");
  }

  lemma ShippedCategory9()
    ensures Shaped(CATEGORIES[9])
  {
    assert SlugFormat.Kebab("route-planners");
  }

  lemma ShippedCategory10()
    ensures Shaped(CATEGORIES[10])
  {
    assert SlugFormat.Kebab("references");
  }

  /** Every shipped category passes the four slug tests and has all four fields. */
  lemma ShippedCategoriesWellFormed()
    ensures forall i :: 0 <= i < |CATEGORIES| ==>
      SlugFormat.FailedChecks(CATEGORIES[i].slug) == [] && Complete(CATEGORIES[i])
  {
    forall i | 0 <= i < |CATEGORIES|
      ensures SlugFormat.FailedChecks(CATEGORIES[i].slug) == [] && Complete(CATEGORIES[i])
    {
      if i == 0 { ShippedCategory0(); }
      else if i == 1 { ShippedCategory1(); }
      else if i == 2 { ShippedCategory2(); }
      else if i == 3 { ShippedCategory3(); }
      else if i == 4 { ShippedCategory4(); }
      else if i == 5 { ShippedCategory5(); }
      else if i == 6 { ShippedCategory6(); }
      else if i == 7 { ShippedCategory7(); }
      else if i == 8 { ShippedCategory8(); }
      else if i == 9 { ShippedCategory9(); }
      else { ShippedCategory10(); }
      ShapedIsWellFormed(CATEGORIES[i]);
    }
  }
}
