/** The tallies behind the sidebars and the statistics page: how often each
    category or standard occurs across the loaded tools. A JavaScript object
    used as a counter is a `map<string, int>`; `Object.hasOwn(counts, k)` is
    `k in counts`. */
module Counting {
  import opened Js
  import opened Optional
  import opened Seqs
  import opened ToolLoading

  /** The number of positions of `xs` that hold `x`. */
  function Count(xs: seq<string>, x: string): (n: nat)
    ensures n <= |xs|
    ensures n == 0 <==> x !in xs
  {
    if |xs| == 0 then 0 else (if xs[0] == x then 1 else 0) + Count(xs[1..], x)
  }

  lemma {:induction false} CountConcat(a: seq<string>, b: seq<string>, x: string)
    ensures Count(a + b, x) == Count(a, x) + Count(b, x)
  {
    if |a| == 0 {
      assert a + b == b;
    } else {
      assert (a + b)[1..] == a[1..] + b;
      CountConcat(a[1..], b, x);
    }
  }

  /** The property keys `tool.categories.forEach` visits, tool by tool: each
      category value converted with `String(v)`. */
  function CategoryKeys(tools: seq<Tool>): (keys: seq<string>)
  {
    if |tools| == 0 then []
    else
      var cats := tools[0].categories;
      seq(|cats|, i requires 0 <= i < |cats| => Display(cats[i])) + CategoryKeys(tools[1..])
  }

  /** A key is visited exactly when some tool lists a category that converts
      to it. */
  lemma {:induction false} CategoryKeysMembers(tools: seq<Tool>, k: string)
    ensures k in CategoryKeys(tools) <==>
      exists t, c :: 0 <= t < |tools| && 0 <= c < |tools[t].categories| && Display(tools[t].categories[c]) == k
  {
    if |tools| > 0 {
      CategoryKeysMembers(tools[1..], k);
      var cats := tools[0].categories;
      var head := seq(|cats|, i requires 0 <= i < |cats| => Display(cats[i]));
      assert CategoryKeys(tools) == head + CategoryKeys(tools[1..]);
      if k in head {
        var c :| 0 <= c < |head| && head[c] == k;
        assert Display(tools[0].categories[c]) == k;
      }
      if exists t, c :: 0 <= t < |tools| && 0 <= c < |tools[t].categories| && Display(tools[t].categories[c]) == k {
        var t, c :| 0 <= t < |tools| && 0 <= c < |tools[t].categories| && Display(tools[t].categories[c]) == k;
        if t == 0 {
          assert head[c] == k;
        } else {
          assert tools[1..][t - 1] == tools[t];
        }
      }
    }
  }

  /** `keys.forEach(k => { if (Object.hasOwn(counts, k)) counts[k]++ })`: only
      keys already present are counted, once per occurrence. */
  function Tally(counts: map<string, int>, keys: seq<string>): (r: map<string, int>)
    ensures r.Keys == counts.Keys
    ensures forall k :: k in counts ==> r[k] == counts[k] + Count(keys, k)
  {
    if |keys| == 0 then counts
    else
      var k := keys[0];
      Tally(if k in counts then counts[k := counts[k] + 1] else counts, keys[1..])
  }

  /** `keys.forEach(k => { if (!Object.hasOwn(counts, k)) counts[k] = 0; counts[k]++ })`:
      every visited key gets an entry. */
  function TallyAll(counts: map<string, int>, keys: seq<string>): (r: map<string, int>)
    ensures r.Keys == counts.Keys + set k | k in keys
    ensures forall k :: k in r ==> r[k] == (if k in counts then counts[k] else 0) + Count(keys, k)
    decreases |keys|
  {
    if |keys| == 0 then counts
    else
      var k := keys[0];
      TallyAll(counts[k := (if k in counts then counts[k] else 0) + 1], keys[1..])
  }

  /** `slugs.forEach(s => { counts[s] = 0 })` on `counts`. */
  function Zeroed(counts: map<string, int>, slugs: seq<string>): (r: map<string, int>)
    ensures r.Keys == counts.Keys + set s | s in slugs
    ensures forall k :: k in r ==> r[k] == if k in slugs then 0 else counts[k]
    decreases |slugs|
  {
    if |slugs| == 0 then counts else Zeroed(counts[slugs[0] := 0], slugs[1..])
  }

  /** `getCategoryCounts` over the registry slugs and the loaded tools: the
      registry slugs are the keys, each counting its occurrences across all
      tools' categories; other categories are ignored. */
  function CategoryCounts(slugs: seq<string>, tools: seq<Tool>): (counts: map<string, int>)
    ensures counts.Keys == set s | s in slugs
    ensures forall s :: s in counts ==> counts[s] == Count(CategoryKeys(tools), s)
  {
    Tally(Zeroed(map[], slugs), CategoryKeys(tools))
  }

  /** How many of `keys` are among `slugs`. */
  function Registered(keys: seq<string>, slugs: seq<string>): (n: nat)
    ensures n <= |keys|
  {
    if |keys| == 0 then 0 else (if keys[0] in slugs then 1 else 0) + Registered(keys[1..], slugs)
  }

  lemma {:induction false} RegisteredCons(keys: seq<string>, s: string, rest: seq<string>)
    requires s !in rest
    ensures Registered(keys, [s] + rest) == Count(keys, s) + Registered(keys, rest)
  {
    if |keys| > 0 {
      RegisteredCons(keys[1..], s, rest);
    }
  }

  lemma {:induction false} RegisteredNone(keys: seq<string>)
    ensures Registered(keys, []) == 0
  {
    if |keys| > 0 {
      RegisteredNone(keys[1..]);
    }
  }

  /** The sum of `counts[s]` over `slugs`. */
  function SumOver(counts: map<string, int>, slugs: seq<string>): int
    requires forall i :: 0 <= i < |slugs| ==> slugs[i] in counts
  {
    if |slugs| == 0 then 0 else counts[slugs[0]] + SumOver(counts, slugs[1..])
  }

  lemma {:induction false} SumOverCounts(keys: seq<string>, counts: map<string, int>, slugs: seq<string>)
    requires Distinct(slugs)
    requires forall i :: 0 <= i < |slugs| ==> slugs[i] in counts && counts[slugs[i]] == Count(keys, slugs[i])
    ensures SumOver(counts, slugs) == Registered(keys, slugs)
  {
    if |slugs| == 0 {
      RegisteredNone(keys);
    } else {
      assert slugs == [slugs[0]] + slugs[1..];
      assert slugs[0] !in slugs[1..] by {
        forall j | 0 <= j < |slugs[1..]| ensures slugs[1..][j] != slugs[0] {
          assert slugs[1..][j] == slugs[j + 1];
        }
      }
      assert forall i :: 0 <= i < |slugs[1..]| ==> slugs[1..][i] == slugs[i + 1];
      SumOverCounts(keys, counts, slugs[1..]);
      RegisteredCons(keys, slugs[0], slugs[1..]);
    }
  }

  /** Over a registry with distinct slugs the category counts add up to the
      number of category occurrences that are registered, which is at most the
      number of occurrences: unregistered categories are not counted. */
  lemma CategoryCountsSum(slugs: seq<string>, tools: seq<Tool>)
    requires Distinct(slugs)
    ensures var counts := CategoryCounts(slugs, tools);
      SumOver(counts, slugs) == Registered(CategoryKeys(tools), slugs) <= |CategoryKeys(tools)|
  {
    SumOverCounts(CategoryKeys(tools), CategoryCounts(slugs, tools), slugs);
  }

  /** The standards `tool.standards.forEach` visits for one tool. A falsy
      value, or one without a positive `length`, is skipped; a non-empty string
      has a length but no `forEach`, so the call throws (`None`). */
  function StandardsVisited(v: Value): (r: Option<seq<string>>)
    ensures r.None? <==> v.Str? && v.s != ""
    ensures r.Some? && r.value != [] ==> v.Arr? && r.value == v.items
  {
    match v
    case Arr(items) => Some(items)
    case Str(s) => if s == "" then Some([]) else None
    case _ => Some([])
  }

  /** The standards visited across all tools, in order, or `None` when a visit
      throws. */
  function StandardKeys(tools: seq<Tool>): (r: Option<seq<string>>)
    ensures r.None? <==> exists i :: 0 <= i < |tools| && StandardsVisited(tools[i].standards).None?
  {
    if |tools| == 0 then Some([])
    else
      match StandardsVisited(tools[0].standards)
      case None => None
      case Some(head) =>
        match StandardKeys(tools[1..])
        case None =>
          assert exists i :: 0 <= i < |tools| && StandardsVisited(tools[i].standards).None? by {
            var i :| 0 <= i < |tools[1..]| && StandardsVisited(tools[1..][i].standards).None?;
            assert tools[i + 1] == tools[1..][i];
          }
          None
        case Some(rest) =>
          assert forall i :: 1 <= i < |tools| ==> tools[i] == tools[1..][i - 1];
          Some(head + rest)
  }

  /** A standard is visited exactly when some tool's `standards` array lists it. */
  lemma {:induction false} StandardKeysMembers(tools: seq<Tool>, s: string)
    requires StandardKeys(tools).Some?
    ensures s in StandardKeys(tools).value <==>
      exists i :: 0 <= i < |tools| && tools[i].standards.Arr? && s in tools[i].standards.items
  {
    if |tools| > 0 {
      StandardKeysMembers(tools[1..], s);
      var v := tools[0].standards;
      assert StandardKeys(tools).value == StandardsVisited(v).value + StandardKeys(tools[1..]).value;
      assert forall i :: 1 <= i < |tools| ==> tools[i] == tools[1..][i - 1];
      if exists i :: 0 <= i < |tools| && tools[i].standards.Arr? && s in tools[i].standards.items {
        var i :| 0 <= i < |tools| && tools[i].standards.Arr? && s in tools[i].standards.items;
        if i > 0 {
          assert tools[1..][i - 1] == tools[i];
        }
      }
    }
  }
}
