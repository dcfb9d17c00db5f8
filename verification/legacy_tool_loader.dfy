/** `tools.data.ts`: the legacy loader. Like the core one it walks the tools
    directory, but each file goes through `validateToolWithCache`, so the
    validation cache is threaded from file to file and survives between loads,
    and in production the first invalid file aborts the whole load. A markdown
    file whose front matter is `null` aborts it in either posture. The known
    category slugs are the parameter `known`. */
module LegacyToolLoader {
  import opened Js
  import opened FrontMatter
  import opened ToolLoading
  import opened Diagnostics
  import opened ToolValidation

  /** The optional fields the legacy loader passes through unchanged. */
  const LegacyExtraFields: seq<string> := ["license", "liveDemo", "sourceCode", "developer", "maintainedBy",
    "mainContributor", "technology", "firstRelease", "lastUpdated"]

  /** A load either returns its tools or throws; either way the validation
      cache keeps what was recorded before it ended. */
  datatype Outcome = Loaded(tools: seq<Tool>, cache: Cache) | Failed(message: string, cache: Cache)

  /** The cached validation of one file against the cache so far. */
  type Step = (Cache, SourceFile) -> Validated

  /** The tool a file contributes once its validation did not throw. */
  function Contribution(f: SourceFile, yaml: YamlParser, v: Validated): seq<Tool> {
    var fields := Fields(Data(f, yaml));
    if Admitted(v.result.valid, fields) then [Normalize(f.name, fields, LegacyExtraFields)] else []
  }

  /** The `TypeError` Node raises when the loop reads `title` from `null`: in
      `validateRequiredFields` on a cache miss, in the admission test on a hit.
      Either way the cache is left as it was. */
  const NullTitleRead := "Cannot read properties of null (reading 'title')"

  /** The loop of `load()` for a given validation step: files in listing order,
      a non-markdown file skipped, a `null` front matter thrown before its
      step, and the first aborting dispatch thrown. */
  function Thread(step: Step, yaml: YamlParser, cache: Cache, files: seq<SourceFile>): (o: Outcome)
    ensures o.Loaded? ==> |o.tools| <= |files|
    decreases |files|
  {
    if |files| == 0 then Loaded([], cache)
    else if !IsToolFile(files[0].name) then Thread(step, yaml, cache, files[1..])
    else if Data(files[0], yaml).NullDocument? then Failed(NullTitleRead, cache)
    else
      var v := step(cache, files[0]);
      if v.dispatch.Abort? then Failed(v.dispatch.message, v.cache)
      else
        var rest := Thread(step, yaml, v.cache, files[1..]);
        if rest.Failed? then rest else Loaded(Contribution(files[0], yaml, v) + rest.tools, rest.cache)
  }

  /** `validateToolWithCache(data, file, filePath)` with the file's mtime, as
      `Thread` calls it: on a file whose front matter is a mapping. */
  function Checker(posture: Posture, known: seq<string>, yaml: YamlParser): Step {
    (cache: Cache, f: SourceFile) => ValidateToolWithCache(posture, cache, Fields(Data(f, yaml)), known, f.name, f.mtime)
  }

  /** The verdict `validateTool` gives a mapping. */
  function Valid(known: seq<string>): Validator {
    (data: Document, name: string) => ValidateTool(Fields(data), known).valid
  }

  /** The verdict a cache hit gives: every file passes. */
  function Anything(): Validator {
    (data: Document, name: string) => true
  }

  // Facts about a validation step, as the generic loop lemmas use them.

  ghost predicate KeepsOthers(c: Cache, f: SourceFile, v: Validated) {
    forall n :: n != f.name ==> (n in v.cache <==> n in c) && (n in c ==> v.cache[n] == c[n])
  }

  ghost predicate Keeps(step: Step) {
    forall c: Cache, f: SourceFile :: KeepsOthers(c, f, step(c, f))
  }

  ghost predicate Records(step: Step) {
    forall c: Cache, f: SourceFile :: !step(c, f).dispatch.Abort? ==> Unchanged(step(c, f).cache, f.name, f.mtime)
  }

  ghost predicate SkipsHits(step: Step) {
    forall c: Cache, f: SourceFile :: Unchanged(c, f.name, f.mtime) ==> step(c, f) == Validated(Skipped, Silent, c)
  }

  ghost predicate NeverAborts(step: Step) {
    forall c: Cache, f: SourceFile :: !step(c, f).dispatch.Abort?
  }

  ghost predicate JudgesFresh(step: Step, yaml: YamlParser, validate: Validator) {
    forall c: Cache, f: SourceFile :: !Unchanged(c, f.name, f.mtime) ==> step(c, f).result.valid == validate(Data(f, yaml), f.name)
  }

  ghost predicate AbortsInvalid(step: Step, yaml: YamlParser, validate: Validator) {
    forall c: Cache, f: SourceFile :: !Unchanged(c, f.name, f.mtime) ==> (step(c, f).dispatch.Abort? <==> !validate(Data(f, yaml), f.name))
  }

  /** What `validateToolWithCache` guarantees the loop, which calls it on
      mappings only: other entries kept, the file recorded unless it threw,
      hits skipped, misses judged by `validateTool`; in development no call
      throws, in production exactly the invalid misses do. */
  lemma CheckerFacts(posture: Posture, known: seq<string>, yaml: YamlParser)
    ensures var step := Checker(posture, known, yaml);
      && Keeps(step) && Records(step) && SkipsHits(step) && JudgesFresh(step, yaml, Valid(known))
      && (posture == Development ==> NeverAborts(step))
      && (posture == Production ==> AbortsInvalid(step, yaml, Valid(known)))
  {
    var step := Checker(posture, known, yaml);
    forall c, f ensures KeepsOthers(c, f, step(c, f)) && StepFacts(posture, known, yaml, c, f, step(c, f)) {
      CheckerStep(posture, known, yaml, c, f);
    }
  }

  /** The per-file facts `CheckerFacts` collects. */
  ghost predicate StepFacts(posture: Posture, known: seq<string>, yaml: YamlParser, c: Cache, f: SourceFile, v: Validated) {
    && (!v.dispatch.Abort? ==> Unchanged(v.cache, f.name, f.mtime))
    && (Unchanged(c, f.name, f.mtime) ==> v == Validated(Skipped, Silent, c))
    && (!Unchanged(c, f.name, f.mtime) ==> v.result.valid == Valid(known)(Data(f, yaml), f.name))
    && (posture == Development ==> !v.dispatch.Abort?)
    && (posture == Production && !Unchanged(c, f.name, f.mtime) ==> (v.dispatch.Abort? <==> !Valid(known)(Data(f, yaml), f.name)))
  }

  lemma CheckerStep(posture: Posture, known: seq<string>, yaml: YamlParser, c: Cache, f: SourceFile)
    ensures KeepsOthers(c, f, Checker(posture, known, yaml)(c, f))
    ensures StepFacts(posture, known, yaml, c, f, Checker(posture, known, yaml)(c, f))
  {
    var data := Fields(Data(f, yaml));
    CacheStep(posture, c, data, known, f);
  }

  lemma CacheStep(posture: Posture, c: Cache, data: Record, known: seq<string>, f: SourceFile)
    ensures var v := ValidateToolWithCache(posture, c, data, known, f.name, f.mtime);
      && KeepsOthers(c, f, v)
      && (!v.dispatch.Abort? ==> Unchanged(v.cache, f.name, f.mtime))
      && (Unchanged(c, f.name, f.mtime) ==> v == Validated(Skipped, Silent, c))
      && (!Unchanged(c, f.name, f.mtime) ==> v.result.valid == ValidateTool(data, known).valid)
      && (posture == Development ==> !v.dispatch.Abort?)
      && (posture == Production && !Unchanged(c, f.name, f.mtime) ==> (v.dispatch.Abort? <==> !ValidateTool(data, known).valid))
  {
  }

  /** Names in a listing are distinct. */
  ghost predicate DistinctNames(files: seq<SourceFile>) {
    forall i, j :: 0 <= i < j < |files| ==> files[i].name != files[j].name
  }

  /** No file of the listing is a cache hit. */
  ghost predicate Fresh(cache: Cache, files: seq<SourceFile>) {
    forall i :: 0 <= i < |files| ==> !Unchanged(cache, files[i].name, files[i].mtime)
  }

  /** Every markdown file of the listing is a cache hit. */
  ghost predicate Cached(cache: Cache, files: seq<SourceFile>) {
    forall i :: 0 <= i < |files| && IsToolFile(files[i].name) ==> Unchanged(cache, files[i].name, files[i].mtime)
  }

  /** No markdown file of the listing has `null` front matter. */
  predicate NoNull(files: seq<SourceFile>, yaml: YamlParser) {
    forall i :: 0 <= i < |files| && IsToolFile(files[i].name) ==> Data(files[i], yaml).Mapping?
  }

  lemma TailFacts(cache: Cache, files: seq<SourceFile>)
    requires |files| > 0
    ensures DistinctNames(files) ==>
      DistinctNames(files[1..]) && forall i :: 0 <= i < |files[1..]| ==> files[1..][i].name != files[0].name
    ensures Fresh(cache, files) ==> Fresh(cache, files[1..])
    ensures Cached(cache, files) ==> Cached(cache, files[1..])
    ensures forall yaml: YamlParser :: NoNull(files, yaml) <==>
      (IsToolFile(files[0].name) ==> Data(files[0], yaml).Mapping?) && NoNull(files[1..], yaml)
  {
    assert forall i :: 0 <= i < |files[1..]| ==> files[1..][i] == files[i + 1];
  }

  /** A load whose validation only logs returns unless some markdown file has
      `null` front matter. */
  lemma {:induction false} ThreadNeverFails(step: Step, yaml: YamlParser, cache: Cache, files: seq<SourceFile>)
    ensures NeverAborts(step) && NoNull(files, yaml) ==> Thread(step, yaml, cache, files).Loaded?
    decreases |files|
  {
    if |files| > 0 && NeverAborts(step) && NoNull(files, yaml) {
      TailFacts(cache, files);
      ThreadNeverFails(step, yaml, cache, files[1..]);
      ThreadNeverFails(step, yaml, step(cache, files[0]).cache, files[1..]);
    }
  }

  /** Whatever the validation does, a markdown file with `null` front matter
      keeps the load from returning. */
  lemma {:induction false} ThreadNullFails(step: Step, yaml: YamlParser, cache: Cache, files: seq<SourceFile>)
    ensures !NoNull(files, yaml) ==> Thread(step, yaml, cache, files).Failed?
    decreases |files|
  {
    if |files| > 0 && !NoNull(files, yaml) {
      TailFacts(cache, files);
      ThreadNullFails(step, yaml, cache, files[1..]);
      ThreadNullFails(step, yaml, step(cache, files[0]).cache, files[1..]);
    }
  }

  /** A load over files that do not bear a name leaves that name's entry alone. */
  lemma {:induction false} ThreadKeeps(step: Step, yaml: YamlParser, cache: Cache, files: seq<SourceFile>, name: string)
    ensures Keeps(step) && (forall i :: 0 <= i < |files| ==> files[i].name != name) ==>
      var o := Thread(step, yaml, cache, files);
      (name in o.cache <==> name in cache) && (name in cache ==> o.cache[name] == cache[name])
    decreases |files|
  {
    if |files| > 0 && Keeps(step) && (forall i :: 0 <= i < |files| ==> files[i].name != name) {
      var f := files[0];
      assert f.name != name;
      assert forall i :: 0 <= i < |files[1..]| ==> files[1..][i] == files[i + 1];
      if !IsToolFile(f.name) {
        ThreadKeeps(step, yaml, cache, files[1..], name);
      } else {
        var v := step(cache, f);
        assert KeepsOthers(cache, f, v);
        ThreadKeeps(step, yaml, v.cache, files[1..], name);
      }
    }
  }

  /** A load that returns leaves every markdown file of a listing with
      distinct names cached with its mtime. */
  lemma {:induction false} ThreadCaches(step: Step, yaml: YamlParser, cache: Cache, files: seq<SourceFile>)
    ensures Keeps(step) && Records(step) && DistinctNames(files) ==>
      var o := Thread(step, yaml, cache, files);
      o.Loaded? ==> Cached(o.cache, files)
    decreases |files|
  {
    if |files| > 0 && Keeps(step) && Records(step) && DistinctNames(files) {
      var f := files[0];
      TailFacts(cache, files);
      if !IsToolFile(f.name) {
        ThreadCaches(step, yaml, cache, files[1..]);
        var rest := Thread(step, yaml, cache, files[1..]);
        if rest.Loaded? {
          CachedCons(rest.cache, files);
        }
      } else if Data(f, yaml).Mapping? && !step(cache, f).dispatch.Abort? {
        var v := step(cache, f);
        var rest := Thread(step, yaml, v.cache, files[1..]);
        ThreadCaches(step, yaml, v.cache, files[1..]);
        ThreadKeeps(step, yaml, v.cache, files[1..], f.name);
        if rest.Loaded? {
          CachedCons(rest.cache, files);
        }
      }
    }
  }

  /** What a load over cache hits gives: every file with a truthy title and
      categories, valid or not, and the cache as it was; or, when some markdown
      file has `null` front matter, the `TypeError` of reading its title. */
  function CachedOutcome(yaml: YamlParser, cache: Cache, files: seq<SourceFile>): Outcome {
    if NoNull(files, yaml) then Loaded(Collect(files, yaml, Anything(), LegacyExtraFields), cache)
    else Failed(NullTitleRead, cache)
  }

  lemma CachedCons(c: Cache, files: seq<SourceFile>)
    requires |files| > 0 && Cached(c, files[1..])
    requires IsToolFile(files[0].name) ==> Unchanged(c, files[0].name, files[0].mtime)
    ensures Cached(c, files)
  {
    assert forall i :: 1 <= i < |files| ==> files[i] == files[1..][i - 1];
  }

  /** One markdown file with a mapping whose validation did not throw: its
      contribution goes in front of what the rest of the listing gives. */
  lemma ThreadMapping(step: Step, yaml: YamlParser, cache: Cache, files: seq<SourceFile>)
    requires |files| > 0 && IsToolFile(files[0].name) && Data(files[0], yaml).Mapping?
    requires !step(cache, files[0]).dispatch.Abort?
    ensures var v := step(cache, files[0]);
      var rest := Thread(step, yaml, v.cache, files[1..]);
      Thread(step, yaml, cache, files) == if rest.Failed? then rest else Loaded(Contribution(files[0], yaml, v) + rest.tools, rest.cache)
  {
  }

  lemma CollectCons(files: seq<SourceFile>, yaml: YamlParser, validate: Validator)
    requires |files| > 0
    ensures Collect(files, yaml, validate, LegacyExtraFields)
      == AsList(Accept(files[0], yaml, validate, LegacyExtraFields)) + Collect(files[1..], yaml, validate, LegacyExtraFields)
  {
  }

  /** A markdown file contributes what the plain filter accepts when its
      verdict is the filter's. */
  lemma ContributionAccepts(f: SourceFile, yaml: YamlParser, v: Validated, validate: Validator)
    requires IsToolFile(f.name) && v.result.valid == validate(Data(f, yaml), f.name)
    ensures Contribution(f, yaml, v) == AsList(Accept(f, yaml, validate, LegacyExtraFields))
  {
  }

  /** When every markdown file is a cache hit, no validation throws and the
      cache stays as it was: the load admits every file with a truthy title and
      categories, unless a `null` front matter throws. */
  lemma {:induction false} ThreadCached(step: Step, yaml: YamlParser, cache: Cache, files: seq<SourceFile>)
    ensures SkipsHits(step) && Cached(cache, files) ==> Thread(step, yaml, cache, files) == CachedOutcome(yaml, cache, files)
    decreases |files|
  {
    if |files| > 0 && SkipsHits(step) && Cached(cache, files) {
      var f := files[0];
      TailFacts(cache, files);
      ThreadCached(step, yaml, cache, files[1..]);
      CollectCons(files, yaml, Anything());
      if IsToolFile(f.name) && Data(f, yaml).Mapping? {
        assert Unchanged(cache, f.name, f.mtime);
        var v := step(cache, f);
        assert v == Validated(Skipped, Silent, cache);
        ContributionAccepts(f, yaml, v, Anything());
        ThreadMapping(step, yaml, cache, files);
      }
    }
  }

  /** Validating the first file of a listing with distinct names leaves the
      rest of the listing uncached. */
  lemma FreshAfterStep(step: Step, cache: Cache, files: seq<SourceFile>)
    requires |files| > 0 && Keeps(step) && DistinctNames(files) && Fresh(cache, files)
    ensures Fresh(step(cache, files[0]).cache, files[1..])
  {
    var f := files[0];
    var v := step(cache, f);
    TailFacts(cache, files);
    assert KeepsOthers(cache, f, v);
    forall i | 0 <= i < |files[1..]| ensures !Unchanged(v.cache, files[1..][i].name, files[1..][i].mtime) {
      assert files[1..][i].name != f.name;
    }
  }

  /** On a listing of distinct names none of which is cached, a load that
      returns gives what the plain filter with the step's verdict gives. */
  lemma {:induction false} ThreadFresh(step: Step, yaml: YamlParser, validate: Validator, cache: Cache, files: seq<SourceFile>)
    requires Keeps(step) && JudgesFresh(step, yaml, validate) && DistinctNames(files) && Fresh(cache, files)
    ensures var o := Thread(step, yaml, cache, files);
      o.Loaded? ==> o.tools == Collect(files, yaml, validate, LegacyExtraFields)
    decreases |files|
  {
    if |files| > 0 {
      var f := files[0];
      TailFacts(cache, files);
      CollectCons(files, yaml, validate);
      if !IsToolFile(f.name) {
        ThreadFresh(step, yaml, validate, cache, files[1..]);
      } else if Data(f, yaml).Mapping? && !step(cache, f).dispatch.Abort? {
        var v := step(cache, f);
        FreshAfterStep(step, cache, files);
        assert !Unchanged(cache, f.name, f.mtime);
        ContributionAccepts(f, yaml, v, validate);
        ThreadFresh(step, yaml, validate, v.cache, files[1..]);
        ThreadMapping(step, yaml, cache, files);
      }
    }
  }

  /** On a listing of distinct names none of which is cached, when exactly the
      rejected misses throw, the load returns exactly when every markdown file
      has a mapping that passes. */
  lemma {:induction false} ThreadFreshIff(step: Step, yaml: YamlParser, validate: Validator, cache: Cache, files: seq<SourceFile>)
    requires Keeps(step) && AbortsInvalid(step, yaml, validate) && DistinctNames(files) && Fresh(cache, files)
    ensures Thread(step, yaml, cache, files).Loaded? <==> NoNull(files, yaml) && AllPass(files, yaml, validate)
    decreases |files|
  {
    if |files| > 0 {
      var f := files[0];
      TailFacts(cache, files);
      AllPassCons(files, yaml, validate);
      if !IsToolFile(f.name) {
        ThreadFreshIff(step, yaml, validate, cache, files[1..]);
      } else if Data(f, yaml).Mapping? {
        var v := step(cache, f);
        assert !Unchanged(cache, f.name, f.mtime);
        assert v.dispatch.Abort? <==> !validate(Data(f, yaml), f.name);
        if !v.dispatch.Abort? {
          FreshAfterStep(step, cache, files);
          ThreadFreshIff(step, yaml, validate, v.cache, files[1..]);
          ThreadMapping(step, yaml, cache, files);
        }
      }
    }
  }

  lemma AllPassCons(files: seq<SourceFile>, yaml: YamlParser, validate: Validator)
    requires |files| > 0
    ensures AllPass(files, yaml, validate) <==>
      (IsToolFile(files[0].name) ==> validate(Data(files[0], yaml), files[0].name)) && AllPass(files[1..], yaml, validate)
  {
    assert forall i :: 1 <= i < |files| ==> files[i] == files[1..][i - 1];
  }

  /** Every markdown file of the listing passes `validate`. */
  ghost predicate AllPass(files: seq<SourceFile>, yaml: YamlParser, validate: Validator) {
    forall i :: 0 <= i < |files| && IsToolFile(files[i].name) ==> validate(Data(files[i], yaml), files[i].name)
  }

  /** `load()` from the validation cache `cache`: a markdown file with `null`
      front matter makes it throw in either posture; in development that is the
      only way it throws; and it never returns more tools than files. */
  function LoadFrom(posture: Posture, known: seq<string>, yaml: YamlParser, cache: Cache, files: seq<SourceFile>): (o: Outcome)
    ensures !NoNull(files, yaml) ==> o.Failed?
    ensures posture == Development && NoNull(files, yaml) ==> o.Loaded?
    ensures o.Loaded? ==> |o.tools| <= |files|
  {
    CheckerFacts(posture, known, yaml);
    ThreadNeverFails(Checker(posture, known, yaml), yaml, cache, files);
    ThreadNullFails(Checker(posture, known, yaml), yaml, cache, files);
    Thread(Checker(posture, known, yaml), yaml, cache, files)
  }

  /** On a listing none of whose files is cached, a load that returns gives
      exactly what the plain filter with `validateTool`'s verdict gives. */
  lemma FreshLoadValidates(posture: Posture, known: seq<string>, yaml: YamlParser, cache: Cache, files: seq<SourceFile>)
    requires DistinctNames(files) && Fresh(cache, files)
    ensures var o := LoadFrom(posture, known, yaml, cache, files);
      o.Loaded? ==> o.tools == Collect(files, yaml, Valid(known), LegacyExtraFields)
  {
    CheckerFacts(posture, known, yaml);
    ThreadFresh(Checker(posture, known, yaml), yaml, Valid(known), cache, files);
  }

  /** In production, on a listing none of whose files is cached, the load
      returns exactly when every markdown file has a mapping that is valid. */
  lemma ProductionFreshLoadSucceedsIffAllValid(known: seq<string>, yaml: YamlParser, cache: Cache, files: seq<SourceFile>)
    requires DistinctNames(files) && Fresh(cache, files)
    ensures LoadFrom(Production, known, yaml, cache, files).Loaded?
      <==> forall i :: 0 <= i < |files| && IsToolFile(files[i].name) ==>
        Data(files[i], yaml).Mapping? && ValidateTool(Data(files[i], yaml).fields, known).valid
  {
    CheckerFacts(Production, known, yaml);
    ThreadFreshIff(Checker(Production, known, yaml), yaml, Valid(known), cache, files);
  }

  /** A load that returns leaves every markdown file cached with its mtime. */
  lemma LoadCachesEveryFile(posture: Posture, known: seq<string>, yaml: YamlParser, cache: Cache, files: seq<SourceFile>)
    requires DistinctNames(files)
    ensures var o := LoadFrom(posture, known, yaml, cache, files);
      o.Loaded? ==> Cached(o.cache, files)
  {
    CheckerFacts(posture, known, yaml);
    ThreadCaches(Checker(posture, known, yaml), yaml, cache, files);
  }

  /** When every markdown file is a cache hit, the load leaves the cache alone
      and, unless a `null` front matter throws, returns every file with a truthy
      title and categories, valid or not. */
  lemma CachedLoadAdmitsAll(posture: Posture, known: seq<string>, yaml: YamlParser, cache: Cache, files: seq<SourceFile>)
    requires Cached(cache, files)
    ensures NoNull(files, yaml) ==>
      LoadFrom(posture, known, yaml, cache, files) == Loaded(Collect(files, yaml, Anything(), LegacyExtraFields), cache)
    ensures !NoNull(files, yaml) ==> LoadFrom(posture, known, yaml, cache, files) == Failed(NullTitleRead, cache)
  {
    CheckerFacts(posture, known, yaml);
    ThreadCached(Checker(posture, known, yaml), yaml, cache, files);
  }

  /** The development rebuild quirk: a second load of an unchanged directory
      skips validation and so admits files the first load rejected as invalid.
      With a `null` front matter both loads throw. */
  lemma DevelopmentSecondLoadAdmitsAll(known: seq<string>, yaml: YamlParser, cache: Cache, files: seq<SourceFile>)
    requires DistinctNames(files)
    ensures var first := LoadFrom(Development, known, yaml, cache, files);
      NoNull(files, yaml) ==>
        LoadFrom(Development, known, yaml, first.cache, files) == Loaded(Collect(files, yaml, Anything(), LegacyExtraFields), first.cache)
    ensures var first := LoadFrom(Development, known, yaml, cache, files);
      !NoNull(files, yaml) ==> first.Failed? && LoadFrom(Development, known, yaml, first.cache, files).Failed?
  {
    if NoNull(files, yaml) {
      LoadCachesEveryFile(Development, known, yaml, cache, files);
      CachedLoadAdmitsAll(Development, known, yaml, LoadFrom(Development, known, yaml, cache, files).cache, files);
    }
  }
}
