/** `core/config/sidebar.ts`: category and standard navigation with tool-count
    badges. The tools are the core loader's output and the standards the
    parsed `standards.yaml`, both given as parameters. */
module CoreSidebar {
  import opened Js
  import opened Text
  import opened Optional
  import opened Seqs
  import opened Sorting
  import opened Categories
  import opened ToolLoading
  import opened Counting
  import opened SidebarItems

  /** ` <span class="sidebar-badge">n</span>`. */
  function Badge(n: int): string {
    " <span class=\"sidebar-badge\">" + IntToString(n) + "</span>"
  }

  /** `getCategoryItemsWithCounts`: one item per registry category, in registry
      order, titled with the number of times its slug occurs across the tools'
      categories. */
  function CategoryItems(registry: seq<Category>, tools: seq<Tool>): (items: seq<Item>)
    ensures |items| == |registry|
    ensures forall i :: 0 <= i < |registry| ==>
      items[i] == Item(registry[i].title + Badge(Count(CategoryKeys(tools), registry[i].slug)), CategoryLink(registry[i].slug))
  {
    var counts := CategoryCounts(GetCategorySlugs(registry), tools);
    assert forall i :: 0 <= i < |registry| ==> registry[i].slug in counts by {
      assert forall i :: 0 <= i < |registry| ==> GetCategorySlugs(registry)[i] == registry[i].slug;
    }
    seq(|registry|, i requires 0 <= i < |registry| =>
      Item(registry[i].title + Badge(counts[registry[i].slug]), CategoryLink(registry[i].slug)))
  }

  /** `getStandardCounts`: an entry for each standard some tool references,
      holding its number of references; `None` when visiting a tool's
      `standards` throws. */
  function StandardCounts(tools: seq<Tool>): (r: Option<map<string, int>>)
    ensures r.None? <==> StandardKeys(tools).None?
    ensures r.Some? ==> r.value.Keys == (set s | s in StandardKeys(tools).value)
    ensures r.Some? ==> forall s :: s in r.value ==> r.value[s] == Count(StandardKeys(tools).value, s) > 0
  {
    match StandardKeys(tools)
    case None => None
    case Some(keys) => Some(TallyAll(map[], keys))
  }

  /** A standard from `standards.yaml`: its title (empty when missing) and its
      `endorsed` value. A key with no mapping behind it reads as an empty title
      and an undefined `endorsed`. */
  datatype StandardEntry = StandardEntry(title: string, endorsed: Value)

  /** The intermediate record sorted for display. */
  datatype Row = Row(slug: string, title: string, count: int, endorsed: bool)

  /** `{ slug, title: standard?.title || slug, count: counts[slug] || 0,
      endorsed: standard?.endorsed ? '🏆' : '' }`. */
  function RowOf(slug: string, entry: StandardEntry, counts: map<string, int>): Row {
    Row(slug, if entry.title != "" then entry.title else slug,
      if slug in counts then counts[slug] else 0, Truthy(entry.endorsed))
  }

  /** The comparator's verdict "`a` may come first": endorsed before not
      endorsed, then titles in ascending order. */
  predicate RowLeq(a: Row, b: Row) {
    (a.endorsed && !b.endorsed) || (a.endorsed == b.endorsed && StrLeq(a.title, b.title))
  }

  lemma RowLeqIsTotalOrder()
    ensures Total(RowLeq) && Transitive(RowLeq)
  {
    forall a: Row, b: Row ensures RowLeq(a, b) || RowLeq(b, a) {
      StrLeqTotal(a.title, b.title);
    }
    forall a: Row, b: Row, c: Row | RowLeq(a, b) && RowLeq(b, c) ensures RowLeq(a, c) {
      if a.endorsed == b.endorsed && b.endorsed == c.endorsed {
        StrLeqTransitive(a.title, b.title, c.title);
      }
    }
  }

  /** The rows in registry (`Object.keys`) order, before sorting. */
  function Rows(registry: seq<(string, StandardEntry)>, counts: map<string, int>): (rows: seq<Row>)
    ensures |rows| == |registry|
    ensures forall i :: 0 <= i < |registry| ==> rows[i] == RowOf(registry[i].0, registry[i].1, counts)
  {
    seq(|registry|, i requires 0 <= i < |registry| => RowOf(registry[i].0, registry[i].1, counts))
  }

  /** The sorted rows `getStandardItemsWithCounts` renders. */
  function SortedRows(registry: seq<(string, StandardEntry)>, tools: seq<Tool>): (r: Option<seq<Row>>)
    ensures r.None? <==> StandardKeys(tools).None?
  {
    match StandardCounts(tools)
    case None => None
    case Some(counts) => Some(Sort(Rows(registry, counts), RowLeq))
  }

  /** The standard list has exactly one row per registry standard, each with
      its reference count (0 when none references it, so standards a tool
      names but the registry lacks are left out); endorsed standards come
      first and each group is ordered by title. */
  lemma SortedRowsSpec(registry: seq<(string, StandardEntry)>, tools: seq<Tool>)
    requires StandardKeys(tools).Some?
    ensures var rows := SortedRows(registry, tools).value;
      && multiset(rows) == multiset(Rows(registry, StandardCounts(tools).value))
      && (forall r :: r in rows ==> r.count == Count(StandardKeys(tools).value, r.slug))
      && (forall i, j :: 0 <= i < j < |rows| && rows[j].endorsed ==> rows[i].endorsed)
      && (forall i, j :: 0 <= i < j < |rows| && rows[i].endorsed == rows[j].endorsed ==> StrLeq(rows[i].title, rows[j].title))
  {
    var counts := StandardCounts(tools).value;
    var unsorted := Rows(registry, counts);
    var rows := Sort(unsorted, RowLeq);
    SortPermutes(unsorted, RowLeq);
    RowLeqIsTotalOrder();
    SortSorted(unsorted, RowLeq);
    forall r | r in rows ensures r.count == Count(StandardKeys(tools).value, r.slug) {
      assert r in multiset(unsorted);
      var i :| 0 <= i < |unsorted| && unsorted[i] == r;
    }
    forall i, j | 0 <= i < j < |rows| ensures RowLeq(rows[i], rows[j]) {
    }
  }

  function EndorsedMark(endorsed: bool): string {
    if endorsed then "\U{1F3C6}" else ""
  }

  /** `getStandardItemsWithCounts`: the sorted rows rendered as
      `<mark> <title> <badge>` linking to `/standards/<slug>`: item i renders
      sorted row i, so the items are endorsed first and then in title order. */
  function StandardItems(registry: seq<(string, StandardEntry)>, tools: seq<Tool>): (r: Option<seq<Item>>)
    ensures r.None? <==> StandardKeys(tools).None?
    ensures r.Some? ==> |r.value| == |registry|
    ensures r.Some? ==> forall i :: 0 <= i < |r.value| ==> StartsWith(r.value[i].link, "/standards/")
    ensures r.Some? ==> (|SortedRows(registry, tools).value| == |r.value|
      && forall i :: 0 <= i < |r.value| ==> r.value[i] == StandardItem(SortedRows(registry, tools).value[i]))
  {
    match SortedRows(registry, tools)
    case None => None
    case Some(rows) =>
      SortPermutes(Rows(registry, StandardCounts(tools).value), RowLeq);
      Some(seq(|rows|, i requires 0 <= i < |rows| =>
        StandardItem(rows[i])))
  }

  function StandardItem(row: Row): (item: Item)
    ensures StartsWith(item.link, "/standards/")
    ensures item.link == "/standards/" + row.slug
    ensures StartsWith(item.text, EndorsedMark(row.endorsed) + " " + row.title)
    ensures |Badge(row.count)| <= |item.text| && item.text[|item.text| - |Badge(row.count)|..] == Badge(row.count)
  {
    StartsWithConcat("/standards/", row.slug);
    StartsWithConcat(EndorsedMark(row.endorsed) + " " + row.title, Badge(row.count));
    Item(EndorsedMark(row.endorsed) + " " + row.title + Badge(row.count), "/standards/" + row.slug)
  }

  /** `getToolsSidebar`: the category items, then the endorsed tools. */
  function ToolsSidebar(registry: seq<Category>, tools: seq<Tool>): (sections: seq<Section>)
    ensures |sections| == 2 && sections[0].items == CategoryItems(registry, tools)
  {
    [Section("By Category", None, CategoryItems(registry, tools)),
     Section("NAPCORE Endorsed", None, FeaturedTools)]
  }

  const ToolsNavigation: seq<Item> := [
    Item("By Categories", "categories/"),
    Item("By Standards", "standards/"),
    Item("NAPCORE Endorsed", "categories/endorsed/"),
    Item("All", "all/")]

  /** `getCategoriesSidebar`: three expanded sections, `Tools`, `By Category`
      and `By Standard`; it throws exactly when counting the standards does. */
  function CategoriesSidebar(registry: seq<Category>, standards: seq<(string, StandardEntry)>, tools: seq<Tool>): (r: Option<seq<Section>>)
    ensures r.None? <==> StandardKeys(tools).None?
    ensures r.Some? ==> (
      && |r.value| == 3
      && r.value[0].text == "Tools" && r.value[1].text == "By Category" && r.value[2].text == "By Standard"
      && (forall i :: 0 <= i < 3 ==> r.value[i].collapsed == Some(false))
      && r.value[1].items == CategoryItems(registry, tools)
      && |r.value[2].items| == |standards|
      && r.value[2].items == StandardItems(standards, tools).value)
  {
    match StandardItems(standards, tools)
    case None => None
    case Some(items) =>
      Some([Section("Tools", Some(false), ToolsNavigation),
            Section("By Category", Some(false), CategoryItems(registry, tools)),
            Section("By Standard", Some(false), items)])
  }
}
