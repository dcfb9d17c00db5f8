/** `core/metadata/blogTags.ts`: titles for blog tags, read from a mapping of
    tag slug to entry that the data loader parses from `blogTags.yaml`. */
module BlogTags {
  import opened Optional

  /** `BlogTag`: an entry carries a display title. */
  datatype BlogTag = BlogTag(title: string)

  /** The loaded mapping from tag slug to entry. */
  type BlogTagMap = map<string, BlogTag>

  /** `getBlogTagBySlug(slug)`: the entry under exactly `slug`, if any. */
  function GetBlogTagBySlug(tags: BlogTagMap, slug: string): (r: Option<BlogTag>)
    ensures r.Some? <==> slug in tags
    ensures r.Some? ==> r.value == tags[slug]
  {
    if slug in tags then Some(tags[slug]) else None
  }

  /** `getBlogTagTitle(slug)`: the entry's title when there is an entry whose
      title is not empty, and the slug itself otherwise (`||` treats an empty
      title as missing). */
  function GetBlogTagTitle(tags: BlogTagMap, slug: string): (title: string)
    ensures GetBlogTagBySlug(tags, slug).Some? && tags[slug].title != "" ==> title == tags[slug].title
    ensures GetBlogTagBySlug(tags, slug).None? || tags[slug].title == "" ==> title == slug
  {
    match GetBlogTagBySlug(tags, slug)
    case Some(tag) => if tag.title != "" then tag.title else slug
    case None => slug
  }

  /** A tag without an entry is titled by its own slug. */
  lemma UnknownTagTitledBySlug(tags: BlogTagMap, slug: string)
    requires GetBlogTagBySlug(tags, slug).None?
    ensures GetBlogTagTitle(tags, slug) == slug
  {
  }

  /** Lookup is by exact key: an entry under one spelling says nothing about a
      differently cased one. */
  lemma LookupIsExact(slug: string, other: string, tag: BlogTag)
    requires slug != other
    ensures GetBlogTagBySlug(map[slug := tag], other).None?
    ensures GetBlogTagTitle(map[slug := tag], other) == other
  {
  }
}
