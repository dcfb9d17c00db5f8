/** `core/utils/tagResolver.ts`: a blog post's tag resolved, by a fixed
    priority, to a category page, a standard page, or the blog filtered by tag.
    The category registry, the standards registry (reduced to each key's title)
    and the blog tag mapping are parameters. */
module TagResolver {
  import opened Optional
  import opened Categories
  import opened BlogTags
  import opened Uri
  import opened Text

  datatype TagType = CategoryTag | StandardTag | BlogTagType

  /** `ResolvedTag`. */
  datatype ResolvedTag = ResolvedTag(slug: string, title: string, kind: TagType, url: string)

  /** What the resolver consults. */
  datatype Registries = Registries(categories: seq<Category>, standards: map<string, string>, blogTags: BlogTagMap)

  /** `resolveTag(tag)`: the first category with exactly this slug wins; then a
      standard under exactly this key; then the blog tag title. The slug is
      always the tag itself. */
  function ResolveTag(reg: Registries, tag: string): (r: ResolvedTag)
    ensures r.slug == tag
    ensures r.kind == CategoryTag <==> GetCategoryBySlug(reg.categories, tag).Some?
    ensures r.kind == StandardTag <==> GetCategoryBySlug(reg.categories, tag).None? && tag in reg.standards
    ensures r.kind == CategoryTag ==>
      r.title == GetCategoryBySlug(reg.categories, tag).value.title && r.url == "/categories/" + tag
    ensures r.kind == StandardTag ==> r.title == reg.standards[tag] && r.url == "/standards/" + tag
    ensures r.kind == BlogTagType ==>
      r.title == GetBlogTagTitle(reg.blogTags, tag) && r.url == "/blog?tag=" + EncodeUriComponent(tag)
  {
    match GetCategoryBySlug(reg.categories, tag)
    case Some(category) => ResolvedTag(tag, category.title, CategoryTag, "/categories/" + tag)
    case None =>
      if tag in reg.standards then ResolvedTag(tag, reg.standards[tag], StandardTag, "/standards/" + tag)
      else ResolvedTag(tag, GetBlogTagTitle(reg.blogTags, tag), BlogTagType, "/blog?tag=" + EncodeUriComponent(tag))
  }

  /** `resolveTags(tags)`: one resolution per tag, in order, duplicates kept. */
  function ResolveTags(reg: Registries, tags: seq<string>): (r: seq<ResolvedTag>)
    ensures |r| == |tags|
    ensures forall i :: 0 <= i < |tags| ==> r[i] == ResolveTag(reg, tags[i])
  {
    seq(|tags|, i requires 0 <= i < |tags| => ResolveTag(reg, tags[i]))
  }

  /** Resolving a list is resolving its parts: order and duplicates survive, and
      equal tags resolve identically. */
  lemma ResolveTagsConcat(reg: Registries, a: seq<string>, b: seq<string>)
    ensures ResolveTags(reg, a + b) == ResolveTags(reg, a) + ResolveTags(reg, b)
  {
  }

  /** The blog-tag link keeps the tag inside its query parameter, and the tag
      can be read back from it. */
  lemma BlogLinkCarriesTag(reg: Registries, tag: string)
    requires ResolveTag(reg, tag).kind == BlogTagType
    ensures var url := ResolveTag(reg, tag).url;
      && StartsWith(url, "/blog?tag=")
      && AllQuerySafe(url[|"/blog?tag="|..])
      && DecodeUriComponent(url[|"/blog?tag="|..]) == Some(tag)
  {
    var url := ResolveTag(reg, tag).url;
    assert url[|"/blog?tag="|..] == EncodeUriComponent(tag);
    DecodeEncode(tag);
  }

  /** A category slug shadows a standard key and a blog tag of the same
      spelling. */
  lemma CategoryShadowsOthers(reg: Registries, i: nat)
    requires i < |reg.categories|
    ensures ResolveTag(reg, reg.categories[i].slug).kind == CategoryTag
  {
    var cats := reg.categories;
    var slug := cats[i].slug;
    assert exists j :: 0 <= j < |cats| && cats[j].slug == slug by {
      assert 0 <= i < |cats| && cats[i].slug == slug;
    }
  }

  /** Against the shipped categories, `validators` resolves to its category
      page, while `VALIDATORS`, if no standard has that key, falls through to a
      blog tag. */
  lemma MatchingIsCaseSensitive(standards: map<string, string>, blogTags: BlogTagMap)
    requires "VALIDATORS" !in standards
    ensures ResolveTag(Registries(CATEGORIES, standards, blogTags), "validators")
      == ResolvedTag("validators", "Validators", CategoryTag, "/categories/validators")
    ensures ResolveTag(Registries(CATEGORIES, standards, blogTags), "VALIDATORS").kind == BlogTagType
  {
    var found := GetCategoryBySlug(CATEGORIES, "validators");
    assert CATEGORIES[0].slug == "validators";
    var k :| FirstWithSlug(CATEGORIES, "validators", k) && CATEGORIES[k] == found.value;
    assert k == 0;
    ShippedSlugsLowerCase();
  }

  /** No shipped category slug is written in capitals. */
  lemma ShippedSlugsLowerCase()
    ensures forall i :: 0 <= i < |CATEGORIES| ==> CATEGORIES[i].slug != "VALIDATORS"
  {
    forall i | 0 <= i < |CATEGORIES|
      ensures CATEGORIES[i].slug != "VALIDATORS"
    {
      assert CATEGORIES[i].slug[0] != 'V';
    }
  }
}
