/** `sidebar.ts`: the older configuration, with category counts only, shown
    as `Title (n)`. The tools are the legacy loader's output. */
module LegacySidebar {
  import opened Text
  import opened Optional
  import opened Categories
  import opened ToolLoading
  import opened Counting
  import opened SidebarItems

  /** `getCategoryItemsWithCounts`: one `Title (n)` item per registry category,
      in registry order, `n` being the occurrences of its slug across the
      tools' categories. */
  function CategoryItems(registry: seq<Category>, tools: seq<Tool>): (items: seq<Item>)
    ensures |items| == |registry|
    ensures forall i :: 0 <= i < |registry| ==>
      items[i] == Item(registry[i].title + " (" + IntToString(Count(CategoryKeys(tools), registry[i].slug)) + ")",
        CategoryLink(registry[i].slug))
  {
    var counts := CategoryCounts(GetCategorySlugs(registry), tools);
    assert forall i :: 0 <= i < |registry| ==> registry[i].slug in counts by {
      assert forall i :: 0 <= i < |registry| ==> GetCategorySlugs(registry)[i] == registry[i].slug;
    }
    seq(|registry|, i requires 0 <= i < |registry| =>
      Item(registry[i].title + " (" + IntToString(counts[registry[i].slug]) + ")", CategoryLink(registry[i].slug)))
  }

  /** `getToolsSidebar`: the category items, then the featured tools. */
  function ToolsSidebar(registry: seq<Category>, tools: seq<Tool>): (sections: seq<Section>)
    ensures |sections| == 2 && sections[0].items == CategoryItems(registry, tools)
  {
    [Section("By Category", None, CategoryItems(registry, tools)),
     Section("Featured Tools", None, FeaturedTools)]
  }

  /** `getCategoriesSidebar`: a single section whose first item is the
      overview, followed by one item per category. */
  function CategoriesSidebar(registry: seq<Category>, tools: seq<Tool>): (sections: seq<Section>)
    ensures |sections| == 1 && sections[0].text == "Tool Categories"
    ensures |sections[0].items| == |registry| + 1
    ensures sections[0].items[0] == Item("Overview", "/categories/")
    ensures sections[0].items[1..] == CategoryItems(registry, tools)
  {
    [Section("Tool Categories", None, [Item("Overview", "/categories/")] + CategoryItems(registry, tools))]
  }
}
