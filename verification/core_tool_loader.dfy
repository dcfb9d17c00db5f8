/** `core/data-loaders/tools.data.ts`: the tools directory read in listing
    order, each markdown file's front matter validated and, when admitted,
    normalised into a `Tool`. The validator it calls (`core/validation/tools`)
    is not part of this model; it is the parameter `validate`, which gives a
    verdict on a file's data or throws. */
module CoreToolLoader {
  import opened Js
  import opened Optional
  import opened FrontMatter
  import opened ToolLoading

  /** The optional fields the core loader passes through unchanged. */
  const CoreExtraFields: seq<string> := ["license", "repository", "website", "documentation", "demo",
    "developer", "maintainedBy", "mainContributor", "technology", "language", "type",
    "firstRelease", "lastUpdated"]

  /** `validateToolWithCache(data, file, filePath).valid`, or `None` when the
      call throws. */
  type CoreValidator = (Document, string) -> Option<bool>

  /** The verdict of a validator that did not throw. */
  function Passes(validate: CoreValidator): Validator {
    (data: Document, name: string) => validate(data, name) == Some(true)
  }

  /** The loop throws at this file: it is a markdown file and either its
      validation throws, or it passes with `null` data, whose `title` is then
      read. A null document that fails validation is skipped: `&&` stops before
      the read. */
  predicate Throws(f: SourceFile, yaml: YamlParser, validate: CoreValidator) {
    IsToolFile(f.name)
      && match validate(Data(f, yaml), f.name)
         case None => true
         case Some(valid) => valid && Data(f, yaml).NullDocument?
  }

  /** `load()`: it throws exactly when some markdown file throws. Otherwise a
      tool is in the output exactly when a listed markdown file with a valid
      verdict, a truthy title and truthy categories normalises to it, and no
      file contributes more than one tool. */
  function Load(files: seq<SourceFile>, yaml: YamlParser, validate: CoreValidator): (r: Option<seq<Tool>>)
    ensures r.None? <==> exists i :: 0 <= i < |files| && Throws(files[i], yaml, validate)
    ensures r.Some? ==> r.value == Collect(files, yaml, Passes(validate), CoreExtraFields)
    decreases |files|
  {
    if |files| == 0 then Some([])
    else if Throws(files[0], yaml, validate) then None
    else
      match Load(files[1..], yaml, validate)
      case None =>
        ShiftedThrow(files, yaml, validate);
        None
      case Some(rest) =>
        NoShiftedThrow(files, yaml, validate);
        Some(AsList(Accept(files[0], yaml, Passes(validate), CoreExtraFields)) + rest)
  }

  lemma ShiftedThrow(files: seq<SourceFile>, yaml: YamlParser, validate: CoreValidator)
    requires |files| > 0
    ensures (exists i :: 0 <= i < |files[1..]| && Throws(files[1..][i], yaml, validate))
      ==> exists i :: 0 <= i < |files| && Throws(files[i], yaml, validate)
  {
    if exists i :: 0 <= i < |files[1..]| && Throws(files[1..][i], yaml, validate) {
      var i :| 0 <= i < |files[1..]| && Throws(files[1..][i], yaml, validate);
      assert files[1..][i] == files[i + 1];
    }
  }

  lemma NoShiftedThrow(files: seq<SourceFile>, yaml: YamlParser, validate: CoreValidator)
    requires |files| > 0 && !Throws(files[0], yaml, validate)
    requires forall i :: 0 <= i < |files[1..]| ==> !Throws(files[1..][i], yaml, validate)
    ensures forall i :: 0 <= i < |files| ==> !Throws(files[i], yaml, validate)
  {
    forall i | 1 <= i < |files|
      ensures !Throws(files[i], yaml, validate)
    {
      assert files[i] == files[1..][i - 1];
    }
  }

  /** A load that returns gives each listed markdown file at most one tool, and
      a tool exactly for a file with a valid verdict, a truthy title and truthy
      categories. */
  lemma LoadMembers(files: seq<SourceFile>, yaml: YamlParser, validate: CoreValidator, t: Tool)
    ensures Load(files, yaml, validate).Some? ==> |Load(files, yaml, validate).value| <= |files|
    ensures Load(files, yaml, validate).Some? ==>
      (t in Load(files, yaml, validate).value <==> exists i :: (0 <= i < |files| && IsToolFile(files[i].name)
        && validate(Data(files[i], yaml), files[i].name) == Some(true)
        && Admitted(true, Fields(Data(files[i], yaml)))
        && t == Normalize(files[i].name, Fields(Data(files[i], yaml)), CoreExtraFields)))
  {
    CollectMembers(files, yaml, Passes(validate), CoreExtraFields, t);
  }

  /** The loader is a per-file filter: loading two listings one after the
      other is loading their concatenation, and that throws exactly when one of
      them does. */
  lemma LoadConcat(a: seq<SourceFile>, b: seq<SourceFile>, yaml: YamlParser, validate: CoreValidator)
    ensures Load(a + b, yaml, validate).None? <==> Load(a, yaml, validate).None? || Load(b, yaml, validate).None?
    ensures Load(a + b, yaml, validate).Some? ==>
      Load(a + b, yaml, validate).value == Load(a, yaml, validate).value + Load(b, yaml, validate).value
  {
    CollectConcat(a, b, yaml, Passes(validate), CoreExtraFields);
    var ab := a + b;
    assert forall i :: 0 <= i < |a| ==> ab[i] == a[i];
    assert forall i :: 0 <= i < |b| ==> ab[|a| + i] == b[i];
    if exists i :: 0 <= i < |ab| && Throws(ab[i], yaml, validate) {
      var i :| 0 <= i < |ab| && Throws(ab[i], yaml, validate);
      if i >= |a| {
        assert Throws(b[i - |a|], yaml, validate);
      }
    }
  }

  /** An empty `categories` array does not keep a tool out: with a valid
      verdict and a truthy title, the tool is loaded with no categories. */
  lemma EmptyCategoriesAdmitted(f: SourceFile, yaml: YamlParser, validate: CoreValidator, fields: Record)
    requires IsToolFile(f.name) && Data(f, yaml) == Mapping(fields) && validate(Data(f, yaml), f.name) == Some(true)
    requires Truthy(Get(fields, "title")) && Get(fields, "categories") == Arr([])
    ensures Load([f], yaml, validate).Some?
    ensures exists t :: t in Load([f], yaml, validate).value && t.categories == [] && t.slug == ToolSlug(f.name)
  {
    var t := Normalize(f.name, fields, CoreExtraFields);
    assert [f][0] == f;
    assert !Throws(f, yaml, validate);
    assert Load([f], yaml, validate).value == [t];
  }

  /** A markdown file whose front matter is `null` throws when the validator
      passes it, and is skipped when the validator rejects it. */
  lemma NullDocumentSkippedOrThrown(f: SourceFile, yaml: YamlParser, validate: CoreValidator)
    requires IsToolFile(f.name) && Data(f, yaml).NullDocument?
    ensures validate(NullDocument, f.name) == Some(true) ==> Load([f], yaml, validate).None?
    ensures validate(NullDocument, f.name) == Some(false) ==> Load([f], yaml, validate) == Some([])
  {
    assert [f][0] == f;
  }
}
