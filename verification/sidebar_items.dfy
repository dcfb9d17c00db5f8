/** The shape both sidebar configurations share: sections of linked items. */
module SidebarItems {
  import opened Optional

  datatype Item = Item(text: string, link: string)

  /** A sidebar section; `collapsed` is absent in the older configuration. */
  datatype Section = Section(text: string, collapsed: Option<bool>, items: seq<Item>)

  /** The four hand-picked tools both `getToolsSidebar` versions list. */
  const FeaturedTools: seq<Item> := [
    Item("DATEX II Browser", "/tools/datex-browser"),
    Item("DATEX II Schema Tool", "/tools/datex-schema-tool"),
    Item("mobilityDCAT-AP Generator", "/tools/mobilitydcat-generator"),
    Item("ALERT-C Locations Tester", "/tools/alert-c-tester")]

  function CategoryLink(slug: string): string {
    "/categories/" + slug
  }
}
