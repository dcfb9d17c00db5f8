/** The `transform` of the two blog content loaders
    (`core/data-loaders/blog.data.ts` and the older `blog.data.ts`): each raw
    post is mapped to a `BlogPost`, unpublished and (outside preview mode)
    future posts are dropped, and the rest are sorted newest first. Date
    parsing, the clock and the preview switch are parameters. */
module Blog {
  import opened Js
  import opened Optional
  import opened Sorting

  /** What the content loader hands over for one markdown file. */
  datatype RawPost = RawPost(url: string, frontmatter: Record, excerpt: Value)

  /** `formatDate`'s result: the time stamp (noon UTC of the given day) and
      the rendered date. */
  datatype PostDate = PostDate(time: int, text: string)

  /** `formatDate(frontmatter.date)`. */
  type DateFormatter = Value -> PostDate

  /** `new Date(publishDate).getTime()`; `None` for an invalid date (NaN). */
  type TimeParser = Value -> Option<int>

  datatype BlogPost = BlogPost(
    title: Value,
    url: string,
    date: PostDate,
    author: Value,
    tags: Value,
    description: Value,
    excerpt: Value,
    published: bool,
    publishDate: Value)

  /** The mapping step: `published` is false only for an explicit `false`,
      `tags` is never falsy, `description` falls back to `''` and the excerpt
      to the front-matter description. */
  function ToPost(raw: RawPost, formatDate: DateFormatter): (p: BlogPost)
    ensures p.url == raw.url && p.title == Get(raw.frontmatter, "title")
    ensures p.author == Get(raw.frontmatter, "author") && p.publishDate == Get(raw.frontmatter, "publishDate")
    ensures p.date == formatDate(Get(raw.frontmatter, "date"))
    ensures p.published <==> Get(raw.frontmatter, "published") != Bool(false)
    ensures Truthy(p.tags) && (Truthy(Get(raw.frontmatter, "tags")) ==> p.tags == Get(raw.frontmatter, "tags"))
    ensures !Truthy(Get(raw.frontmatter, "tags")) ==> p.tags == Arr([])
    ensures Truthy(Get(raw.frontmatter, "description")) ==> p.description == Get(raw.frontmatter, "description")
    ensures !Truthy(Get(raw.frontmatter, "description")) ==> p.description == Str("")
    ensures Truthy(raw.excerpt) ==> p.excerpt == raw.excerpt
    ensures !Truthy(raw.excerpt) ==> p.excerpt == Get(raw.frontmatter, "description")
  {
    var fm := raw.frontmatter;
    BlogPost(
      Get(fm, "title"),
      raw.url,
      formatDate(Get(fm, "date")),
      Get(fm, "author"),
      Or(Get(fm, "tags"), Arr([])),
      Or(Get(fm, "description"), Str("")),
      Or(raw.excerpt, Get(fm, "description")),
      Get(fm, "published") != Bool(false),
      Get(fm, "publishDate"))
  }

  /** `raw.map(...)`. */
  function Posts(raws: seq<RawPost>, formatDate: DateFormatter): (posts: seq<BlogPost>)
    ensures |posts| == |raws|
    ensures forall i :: 0 <= i < |raws| ==> posts[i] == ToPost(raws[i], formatDate)
  {
    seq(|raws|, i requires 0 <= i < |raws| => ToPost(raws[i], formatDate))
  }

  /** A post dated after `now`: a truthy `publishDate` whose time is greater.
      An invalid date compares false and so is never in the future. */
  predicate Future(p: BlogPost, now: int, timeOf: TimeParser) {
    Truthy(p.publishDate) && timeOf(p.publishDate).Some? && timeOf(p.publishDate).value > now
  }

  /** The core filter: `!post.published` drops, preview mode keeps, a future
      publish date drops. */
  predicate CoreKeeps(p: BlogPost, preview: bool, now: int, timeOf: TimeParser) {
    if !p.published then false
    else if preview then true
    else if Truthy(p.publishDate) then
      match timeOf(p.publishDate)
      case Some(t) => !(t > now)
      case None => true
    else true
  }

  /** The older filter: the same steps, but the first one tests
      `post.published === false`. */
  predicate LegacyKeeps(p: BlogPost, preview: bool, now: int, timeOf: TimeParser) {
    if p.published == false then false
    else if preview then true
    else if Truthy(p.publishDate) then
      match timeOf(p.publishDate)
      case Some(t) => !(t > now)
      case None => true
    else true
  }

  /** What the filter keeps, in plain terms: a published post that is not in
      the future, or any published post in preview mode. */
  lemma KeepsIff(p: BlogPost, preview: bool, now: int, timeOf: TimeParser)
    ensures CoreKeeps(p, preview, now, timeOf) <==> p.published && (preview || !Future(p, now, timeOf))
    ensures LegacyKeeps(p, preview, now, timeOf) <==> CoreKeeps(p, preview, now, timeOf)
  {
  }

  /** `.filter(keep)`: the posts `keep` accepts, in their order. */
  function Kept(posts: seq<BlogPost>, keep: BlogPost -> bool): (r: seq<BlogPost>)
    ensures |r| <= |posts|
  {
    if |posts| == 0 then []
    else (if keep(posts[0]) then [posts[0]] else []) + Kept(posts[1..], keep)
  }

  /** The filter only drops posts: a post survives exactly when it was there
      and `keep` accepts it. */
  lemma {:induction false} KeptMembers(posts: seq<BlogPost>, keep: BlogPost -> bool, p: BlogPost)
    ensures p in Kept(posts, keep) <==> p in posts && keep(p)
  {
    if |posts| > 0 {
      KeptMembers(posts[1..], keep, p);
      assert posts == [posts[0]] + posts[1..];
    }
  }

  /** Two filters that agree on every post of a list keep the same posts. */
  lemma {:induction false} KeptAgree(posts: seq<BlogPost>, keep: BlogPost -> bool, other: BlogPost -> bool)
    requires forall i :: 0 <= i < |posts| ==> keep(posts[i]) == other(posts[i])
    ensures Kept(posts, keep) == Kept(posts, other)
  {
    if |posts| > 0 {
      assert forall i :: 1 <= i < |posts| ==> posts[1..][i - 1] == posts[i];
      KeptAgree(posts[1..], keep, other);
    }
  }

  /** The comparator `b.date.time - a.date.time` is at most zero exactly when
      `a` is not older than `b`. */
  predicate NewestFirst(a: BlogPost, b: BlogPost) {
    a.date.time >= b.date.time
  }

  lemma NewestFirstIsTotalOrder()
    ensures Total(NewestFirst) && Transitive(NewestFirst)
  {
  }

  /** The posts the core filter keeps, in input order. */
  function CoreKept(raws: seq<RawPost>, formatDate: DateFormatter, timeOf: TimeParser, now: int, preview: bool): seq<BlogPost> {
    Kept(Posts(raws, formatDate), p => CoreKeeps(p, preview, now, timeOf))
  }

  /** `transform(raw)` of `core/data-loaders/blog.data.ts`. */
  function CoreTransform(raws: seq<RawPost>, formatDate: DateFormatter, timeOf: TimeParser, now: int, preview: bool): (r: seq<BlogPost>)
    ensures |r| <= |raws|
  {
    var kept := CoreKept(raws, formatDate, timeOf, now, preview);
    SortPermutes(kept, NewestFirst);
    Sort(kept, NewestFirst)
  }

  /** `transform(raw)` of `blog.data.ts`. */
  function LegacyTransform(raws: seq<RawPost>, formatDate: DateFormatter, timeOf: TimeParser, now: int, preview: bool): (r: seq<BlogPost>)
    ensures |r| <= |raws|
  {
    var kept := Kept(Posts(raws, formatDate), p => LegacyKeeps(p, preview, now, timeOf));
    SortPermutes(kept, NewestFirst);
    Sort(kept, NewestFirst)
  }

  /** A post is kept exactly when it is the mapping of some raw entry, is
      published and, outside preview mode, is not in the future. */
  lemma CoreKeptMembers(raws: seq<RawPost>, formatDate: DateFormatter, timeOf: TimeParser, now: int, preview: bool, p: BlogPost)
    ensures p in CoreKept(raws, formatDate, timeOf, now, preview) <==>
      ((exists i :: 0 <= i < |raws| && p == ToPost(raws[i], formatDate))
        && p.published && (preview || !Future(p, now, timeOf)))
  {
    var posts := Posts(raws, formatDate);
    KeptMembers(posts, p => CoreKeeps(p, preview, now, timeOf), p);
    KeepsIff(p, preview, now, timeOf);
    if p in posts {
      var i :| 0 <= i < |posts| && posts[i] == p;
      assert p == ToPost(raws[i], formatDate);
    }
  }

  /** The output is newest first, is a reordering of the kept posts, and
      holds exactly the mapped posts the filter accepts. */
  lemma CoreTransformSpec(raws: seq<RawPost>, formatDate: DateFormatter, timeOf: TimeParser, now: int, preview: bool)
    ensures var r := CoreTransform(raws, formatDate, timeOf, now, preview);
      && SortedBy(r, NewestFirst)
      && multiset(r) == multiset(CoreKept(raws, formatDate, timeOf, now, preview))
      && forall p :: p in r <==> ((exists i :: 0 <= i < |raws| && p == ToPost(raws[i], formatDate))
        && p.published && (preview || !Future(p, now, timeOf)))
  {
    var kept := CoreKept(raws, formatDate, timeOf, now, preview);
    var r := CoreTransform(raws, formatDate, timeOf, now, preview);
    SortPermutes(kept, NewestFirst);
    NewestFirstIsTotalOrder();
    SortSorted(kept, NewestFirst);
    forall p
      ensures p in r <==> ((exists i :: 0 <= i < |raws| && p == ToPost(raws[i], formatDate))
        && p.published && (preview || !Future(p, now, timeOf)))
    {
      assert p in r <==> p in multiset(kept);
      CoreKeptMembers(raws, formatDate, timeOf, now, preview, p);
    }
  }

  /** Consecutive output posts never go forward in time. */
  lemma NewestFirstOrder(raws: seq<RawPost>, formatDate: DateFormatter, timeOf: TimeParser, now: int, preview: bool)
    ensures var r := CoreTransform(raws, formatDate, timeOf, now, preview);
      forall i :: 0 <= i < |r| - 1 ==> r[i].date.time >= r[i + 1].date.time
  {
    CoreTransformSpec(raws, formatDate, timeOf, now, preview);
  }

  /** No unpublished post is ever output, and outside preview mode no post
      dated after `now` either; a post without a publish date is not held
      back. */
  lemma OnlyPublishedAndDue(raws: seq<RawPost>, formatDate: DateFormatter, timeOf: TimeParser, now: int, preview: bool)
    ensures var r := CoreTransform(raws, formatDate, timeOf, now, preview);
      forall i :: 0 <= i < |r| ==> r[i].published && (!preview ==> !Future(r[i], now, timeOf))
  {
    CoreTransformSpec(raws, formatDate, timeOf, now, preview);
    var r := CoreTransform(raws, formatDate, timeOf, now, preview);
    forall i | 0 <= i < |r| ensures r[i].published && (!preview ==> !Future(r[i], now, timeOf)) {
      assert r[i] in r;
    }
  }

  /** In preview mode only the published filter applies: every published
      post is output, whatever its publish date. */
  lemma PreviewKeepsAllPublished(raws: seq<RawPost>, formatDate: DateFormatter, timeOf: TimeParser, now: int)
    ensures var r := CoreTransform(raws, formatDate, timeOf, now, true);
      forall i :: 0 <= i < |raws| && ToPost(raws[i], formatDate).published ==> ToPost(raws[i], formatDate) in r
  {
    CoreTransformSpec(raws, formatDate, timeOf, now, true);
  }

  /** The two loaders differ only in how the first filter step is written;
      as `published` is always a boolean they output the same list. */
  lemma TransformsAgree(raws: seq<RawPost>, formatDate: DateFormatter, timeOf: TimeParser, now: int, preview: bool)
    ensures LegacyTransform(raws, formatDate, timeOf, now, preview) == CoreTransform(raws, formatDate, timeOf, now, preview)
  {
    var posts := Posts(raws, formatDate);
    forall i | 0 <= i < |posts|
      ensures LegacyKeeps(posts[i], preview, now, timeOf) == CoreKeeps(posts[i], preview, now, timeOf)
    {
      KeepsIff(posts[i], preview, now, timeOf);
    }
    KeptAgree(posts, p => LegacyKeeps(p, preview, now, timeOf), p => CoreKeeps(p, preview, now, timeOf));
    assert Kept(posts, p => CoreKeeps(p, preview, now, timeOf)) == CoreKept(raws, formatDate, timeOf, now, preview);
  }
}
