/** `stats.data.ts`: the figures on the statistics page, computed from the
    legacy loader's tools and the registry's category slugs. */
module Stats {
  import opened Js
  import opened Optional
  import opened Seqs
  import opened ToolLoading
  import opened Counting

  datatype ToolStats = ToolStats(total: nat, active: nat, maintenance: nat, deprecated: nat)

  /** `tools.filter(t => t.status === status).length`. */
  function WithStatus(tools: seq<Tool>, status: string): (n: nat)
    ensures n <= |tools|
  {
    if |tools| == 0 then 0
    else (if tools[0].status == Str(status) then 1 else 0) + WithStatus(tools[1..], status)
  }

  /** A tool has one status, so the three status counts together never exceed
      the number of tools. */
  lemma {:induction false} StatusCountsBounded(tools: seq<Tool>)
    ensures WithStatus(tools, "active") + WithStatus(tools, "maintenance") + WithStatus(tools, "deprecated") <= |tools|
  {
    if |tools| > 0 {
      StatusCountsBounded(tools[1..]);
    }
  }

  /** `toolStats`: the number of tools and how many carry each known status;
      the three status counts add up to at most the total. */
  function ToolStatsOf(tools: seq<Tool>): (s: ToolStats)
    ensures s.total == |tools|
    ensures s.active + s.maintenance + s.deprecated <= s.total
  {
    StatusCountsBounded(tools);
    ToolStats(|tools|, WithStatus(tools, "active"), WithStatus(tools, "maintenance"), WithStatus(tools, "deprecated"))
  }

  /** `categorySlugs.filter(slug => categoryStats[slug] > 0).length`. */
  function Positive(slugs: seq<string>, counts: map<string, int>): (n: nat)
    requires forall i :: 0 <= i < |slugs| ==> slugs[i] in counts
    ensures n <= |slugs|
  {
    if |slugs| == 0 then 0
    else (if counts[slugs[0]] > 0 then 1 else 0) + Positive(slugs[1..], counts)
  }

  lemma {:induction false} PositiveCounts(slugs: seq<string>, counts: map<string, int>, keys: seq<string>)
    requires forall i :: 0 <= i < |slugs| ==> slugs[i] in counts && counts[slugs[i]] == Count(keys, slugs[i])
    ensures Positive(slugs, counts) == Registered(slugs, keys)
  {
    if |slugs| > 0 {
      assert forall i :: 0 <= i < |slugs[1..]| ==> slugs[1..][i] == slugs[i + 1];
      PositiveCounts(slugs[1..], counts, keys);
    }
  }

  /** The counts before `withTools` is filled in: `total` and `withTools`
      first, every slug reset to 0, then every category occurrence whose key is
      already present counted. */
  function Tallied(slugs: seq<string>, tools: seq<Tool>): (counts: map<string, int>)
    ensures counts.Keys == {"total", "withTools"} + set s | s in slugs
    ensures forall s :: s in slugs ==> counts[s] == Count(CategoryKeys(tools), s)
  {
    Tally(Zeroed(map["total" := |slugs|, "withTools" := 0], slugs), CategoryKeys(tools))
  }

  /** `categoryStats`. The key `total` is present before counting, so a tool
      category literally named `total` raises `categories.total` above the
      number of slugs. */
  function CategoryStats(slugs: seq<string>, tools: seq<Tool>): (stats: map<string, int>)
    ensures stats.Keys == {"total", "withTools"} + set s | s in slugs
    ensures "total" !in slugs ==> stats["total"] == |slugs| + Count(CategoryKeys(tools), "total")
  {
    var counts := Tallied(slugs, tools);
    counts["withTools" := Positive(slugs, counts)]
  }

  /** Every slug other than `withTools` holds its number of occurrences across
      the tools' categories, and `withTools` is the number of slugs that occur,
      at most the number of slugs. */
  lemma CategoryStatsSpec(slugs: seq<string>, tools: seq<Tool>)
    ensures var stats := CategoryStats(slugs, tools);
      && (forall s :: s in slugs && s != "withTools" ==> stats[s] == Count(CategoryKeys(tools), s))
      && stats["withTools"] == Registered(slugs, CategoryKeys(tools)) <= |slugs|
  {
    PositiveCounts(slugs, Tallied(slugs, tools), CategoryKeys(tools));
  }

  /** `standardsStats.total`: the number of distinct standards visited, which
      is the length of their first-occurrence list and at most the number of
      references. */
  function StandardsTotal(keys: seq<string>): (n: nat)
    ensures n == |Dedup(keys)| <= |keys|
  {
    SetSizeIsDedupLength(keys);
    DedupMembers(keys);
    |set s | s in keys|
  }

  datatype Statistics = Statistics(tools: ToolStats, categories: map<string, int>, standardsTotal: nat)

  /** `load()`: `None` when visiting some tool's `standards` throws. */
  function Load(slugs: seq<string>, tools: seq<Tool>): (r: Option<Statistics>)
    ensures r.None? <==> StandardKeys(tools).None?
    ensures r.Some? ==> r.value.tools.total == |tools| && r.value.categories == CategoryStats(slugs, tools)
    ensures r.Some? ==> (r.value.standardsTotal == 0 <==>
      forall i :: 0 <= i < |tools| && tools[i].standards.Arr? ==> tools[i].standards.items == [])
  {
    match StandardKeys(tools)
    case None => None
    case Some(keys) =>
      NoStandardsIff(tools);
      Some(Statistics(ToolStatsOf(tools), CategoryStats(slugs, tools), StandardsTotal(keys)))
  }

  lemma NoStandardsIff(tools: seq<Tool>)
    requires StandardKeys(tools).Some?
    ensures StandardsTotal(StandardKeys(tools).value) == 0 <==>
      forall i :: 0 <= i < |tools| && tools[i].standards.Arr? ==> tools[i].standards.items == []
  {
    var keys := StandardKeys(tools).value;
    DedupMembers(keys);
    if exists i :: 0 <= i < |tools| && tools[i].standards.Arr? && tools[i].standards.items != [] {
      var i :| 0 <= i < |tools| && tools[i].standards.Arr? && tools[i].standards.items != [];
      StandardKeysMembers(tools, tools[i].standards.items[0]);
      assert tools[i].standards.items[0] in Dedup(keys);
    }
    if |keys| > 0 {
      StandardKeysMembers(tools, keys[0]);
      assert keys[0] in Dedup(keys);
    }
  }
}
