/** What both tool loaders share: the file filter, the slug taken from the file
    name, the admission gate and the normalised `Tool` record. */
module ToolLoading {
  import opened Text
  import opened Js
  import opened FrontMatter
  import opened Optional

  /** A directory entry as the loader sees it: name, text, modification time. */
  datatype SourceFile = SourceFile(name: string, content: string, mtime: int)

  /** The parsed front matter of a file. */
  function Data(f: SourceFile, yaml: YamlParser): Document {
    ParseFrontMatter(f.content, yaml).data
  }

  /** The fields the loop reads from a file's data. Reading one from `null`
      throws; the loaders rule that out before they read, so a null document
      stands for no fields here. */
  function Fields(data: Document): (r: Record)
    ensures data.Mapping? ==> r == data.fields
    ensures data.NullDocument? ==> r == map[]
  {
    match data
    case Mapping(fields) => fields
    case NullDocument => map[]
  }

  /** `file.endsWith('.md') && file !== 'index.md'`. */
  predicate IsToolFile(name: string) {
    EndsWith(name, ".md") && name != "index.md"
  }

  /** `file.replace('.md', '')`: the first `.md` is removed, wherever it is. */
  function ToolSlug(name: string): string {
    ReplaceFirst(name, ".md", "")
  }

  /** Whatever follows it, the first `.md` of a name is the one removed, so
      `a.md-guide.md` gets the slug `a-guide.md`. */
  lemma FirstMdRemoved(stem: string, rest: string)
    requires !Includes(stem, ".md")
    ensures ToolSlug(stem + ".md" + rest) == stem + rest
  {
    var name := stem + ".md" + rest;
    var n := |stem|;
    assert OccursAt(name, ".md", n) by {
      assert name[n..n + 3] == ".md";
    }
    forall j | 0 <= j < n
      ensures !OccursAt(name, ".md", j)
    {
      if j + 3 <= n {
        assert name[j..j + 3] == stem[j..j + 3];
        assert !OccursAt(stem, ".md", j);
      } else if j + 3 <= |name| {
        assert name[j..j + 3][n - j] == '.';
      }
    }
    FirstOccurrenceFinds(name, ".md");
    var i := FirstOccurrence(name, ".md", 0);
    assert i != -1 && i <= n;
    assert i == n;
    assert name[..n] == stem && name[n + 3..] == rest;
    assert ToolSlug(name) == name[..n] + "" + name[n + 3..];
  }

  /** A stem without `.md` in it gets its own name back as slug. */
  lemma ToolSlugOfStem(stem: string)
    requires !Includes(stem, ".md")
    ensures ToolSlug(stem + ".md") == stem
  {
    FirstMdRemoved(stem, "");
    assert stem + ".md" + "" == stem + ".md";
  }

  /** `validationResult.valid && data.title && data.categories`: an empty
      `categories` array is truthy and passes. */
  predicate Admitted(valid: bool, data: Record) {
    valid && Truthy(Get(data, "title")) && Truthy(Get(data, "categories"))
  }

  /** The normalised record; the optional pass-through fields are kept under
      their names. */
  datatype Tool = Tool(
    slug: string,
    title: Value,
    description: Value,
    categories: seq<Value>,
    status: Value,
    standards: Value,
    tags: Value,
    extras: map<string, Value>)

  /** `Array.isArray(c) ? c : [c]`. */
  function CategoryList(c: Value): (r: seq<Value>)
    ensures c.Arr? ==> |r| == |c.items| && forall i :: 0 <= i < |r| ==> r[i] == Str(c.items[i])
    ensures !c.Arr? ==> r == [c]
  {
    if c.Arr? then seq(|c.items|, i requires 0 <= i < |c.items| => Str(c.items[i])) else [c]
  }

  /** The tool pushed for an admitted file: the slug from the name, title as
      given, `description || ''`, categories always a list, `status || 'unknown'`,
      `standards || []`, `tags || []`, and each pass-through field as read. */
  function Normalize(name: string, data: Record, extraFields: seq<string>): (t: Tool)
    ensures t.slug == ToolSlug(name) && t.title == Get(data, "title")
    ensures t.description == Or(Get(data, "description"), Str(""))
    ensures t.categories == CategoryList(Get(data, "categories"))
    ensures t.status == Or(Get(data, "status"), Str("unknown"))
    ensures t.standards == Or(Get(data, "standards"), Arr([]))
    ensures t.tags == Or(Get(data, "tags"), Arr([]))
    ensures forall f :: f in t.extras <==> f in extraFields
    ensures forall f :: f in t.extras ==> t.extras[f] == Get(data, f)
  {
    Tool(
      ToolSlug(name),
      Get(data, "title"),
      Or(Get(data, "description"), Str("")),
      CategoryList(Get(data, "categories")),
      Or(Get(data, "status"), Str("unknown")),
      Or(Get(data, "standards"), Arr([])),
      Or(Get(data, "tags"), Arr([])),
      map f | f in extraFields :: Get(data, f))
  }

  /** An admitted tool has a truthy title, a status, lists for `standards` and
      `tags` whenever the file gave none, and a category list that is empty
      only when the file wrote an empty array. */
  lemma AdmittedToolShape(name: string, data: Record, extraFields: seq<string>)
    requires Truthy(Get(data, "title")) && Truthy(Get(data, "categories"))
    ensures var t := Normalize(name, data, extraFields);
      && Truthy(t.title) && Truthy(t.status) && Truthy(t.standards) && Truthy(t.tags)
      && (t.categories == [] <==> Get(data, "categories") == Arr([]))
  {
    var c := Get(data, "categories");
    if c.Arr? && CategoryList(c) == [] {
      assert c.items == [];
    }
  }

  /** The validity verdict a loader gets for a file's data and name. */
  type Validator = (Document, string) -> bool

  /** One loop iteration that does not throw: the normalised tool for a
      markdown file whose verdict and data admit it, nothing for any other
      file. */
  function Accept(f: SourceFile, yaml: YamlParser, validate: Validator, extraFields: seq<string>): (r: Option<Tool>)
    ensures r.Some? <==> IsToolFile(f.name) && Admitted(validate(Data(f, yaml), f.name), Fields(Data(f, yaml)))
    ensures r.Some? ==> r.value == Normalize(f.name, Fields(Data(f, yaml)), extraFields)
  {
    if IsToolFile(f.name) && Admitted(validate(Data(f, yaml), f.name), Fields(Data(f, yaml))) then
      Some(Normalize(f.name, Fields(Data(f, yaml)), extraFields))
    else None
  }

  function AsList(o: Option<Tool>): seq<Tool> {
    match o
    case Some(t) => [t]
    case None => []
  }

  /** The loop over a listing: the accepted files' tools, in listing order. */
  function Collect(files: seq<SourceFile>, yaml: YamlParser, validate: Validator, extraFields: seq<string>): (tools: seq<Tool>)
    ensures |tools| <= |files|
  {
    if |files| == 0 then []
    else AsList(Accept(files[0], yaml, validate, extraFields)) + Collect(files[1..], yaml, validate, extraFields)
  }

  /** Collecting two listings one after the other is collecting their
      concatenation: the output keeps listing order and each file is judged on
      its own. */
  lemma {:induction false} CollectConcat(a: seq<SourceFile>, b: seq<SourceFile>, yaml: YamlParser, validate: Validator, extraFields: seq<string>)
    ensures Collect(a + b, yaml, validate, extraFields) == Collect(a, yaml, validate, extraFields) + Collect(b, yaml, validate, extraFields)
  {
    if |a| == 0 {
      assert a + b == b;
    } else {
      assert (a + b)[1..] == a[1..] + b;
      CollectConcat(a[1..], b, yaml, validate, extraFields);
    }
  }

  /** A tool is collected exactly when some listed file is accepted as it. */
  lemma {:induction false} CollectMembers(files: seq<SourceFile>, yaml: YamlParser, validate: Validator, extraFields: seq<string>, t: Tool)
    ensures t in Collect(files, yaml, validate, extraFields)
      <==> exists i :: 0 <= i < |files| && Accept(files[i], yaml, validate, extraFields) == Some(t)
  {
    if |files| > 0 {
      CollectMembers(files[1..], yaml, validate, extraFields, t);
      assert forall i :: 1 <= i < |files| ==> files[i] == files[1..][i - 1];
      if exists i :: 0 <= i < |files| && Accept(files[i], yaml, validate, extraFields) == Some(t) {
        var i :| 0 <= i < |files| && Accept(files[i], yaml, validate, extraFields) == Some(t);
        if i > 0 {
          assert files[1..][i - 1] == files[i];
        }
      }
    }
  }
}
