/** `toolValidation.ts`: the checks of one tool's front matter (required
    fields, categories, status), its console report and dispatch, and the
    mtime cache that skips files already validated. */
module ToolValidation {
  import opened Text
  import opened Seqs
  import opened Js
  import opened Validation
  import opened Diagnostics
  import CrossReferences

  const ValidStatuses: seq<string> := ["active", "maintenance", "deprecated"]

  const ToolRequiredFields: seq<string> := ["title", "description"]

  const MissingCategories := ValidationError("categories", "Missing required field \"categories\"", Error)
  const NotArrayCategories := ValidationError("categories", "Field \"categories\" must be an array", Error)
  const EmptyCategories :=
    ValidationError("categories", "Categories array is empty - tool will not appear in any category", Warning)

  /** The unregistered entries, then the registry's distinct slugs in registry
      order (the `Set` is not sorted here). */
  function InvalidMessage(unknown: seq<string>, known: seq<string>): string {
    "Invalid categories: " + Join(unknown, ", ") + "\n   Valid categories are: " + Join(Dedup(known), ", ")
  }

  function DuplicateMessage(items: seq<string>): string {
    "Duplicate categories found: " + Join(DuplicateList(items), ", ")
  }

  /** The categories pass without an error: an array of registered slugs,
      possibly empty. */
  predicate CategoriesPass(categories: Value, known: seq<string>) {
    categories.Arr? && forall i :: 0 <= i < |categories.items| ==> categories.items[i] in known
  }

  /** The categories draw a warning: an empty array, or one that repeats a slug. */
  predicate CategoriesWarn(categories: Value) {
    categories.Arr? && (categories.items == [] || !Distinct(categories.items))
  }

  /** The checks of a non-empty array: one error listing every unregistered
      entry, and one warning listing every duplicated entry once. */
  function CategoryListErrors(items: seq<string>, known: seq<string>): (r: seq<ValidationError>)
    ensures forall i :: 0 <= i < |r| ==> r[i].field == "categories"
    ensures |r| == (if Outside(items, known) != [] then 1 else 0) + (if Distinct(items) then 0 else 1)
    ensures HasError(r) <==> Outside(items, known) != []
    ensures HasWarning(r) <==> !Distinct(items)
    ensures Outside(items, known) != [] ==>
      r[0] == ValidationError("categories", InvalidMessage(Outside(items, known), known), Error)
  {
    var unknown := Outside(items, known);
    DedupShorterIffRepeat(items);
    CrossReferences.Present(
      unknown != [], ValidationError("categories", InvalidMessage(unknown, known), Error),
      |Dedup(items)| < |items|, ValidationError("categories", DuplicateMessage(items), Warning),
      false, ValidationError("categories", "", Warning))
  }

  lemma SingleSeverity(e: ValidationError)
    ensures HasError([e]) <==> e.severity == Error
    ensures HasWarning([e]) <==> e.severity == Warning
  {
    assert [e][0] == e;
  }

  /** `validateCategories(tool)` on the value of `tool.categories`, against the
      registry slugs `known`: exactly one entry when the field is falsy, not an
      array, or an empty array; otherwise the list checks. An error arises
      exactly when the field is not an array of registered slugs, and a warning
      exactly for an empty or repeating one. */
  function ValidateCategories(categories: Value, known: seq<string>): (r: seq<ValidationError>)
    ensures forall i :: 0 <= i < |r| ==> r[i].field == "categories"
    ensures !Truthy(categories) ==> r == [MissingCategories]
    ensures Truthy(categories) && !categories.Arr? ==> r == [NotArrayCategories]
    ensures categories == Arr([]) ==> r == [EmptyCategories]
    ensures HasError(r) <==> !CategoriesPass(categories, known)
    ensures HasWarning(r) <==> CategoriesWarn(categories)
  {
    if !Truthy(categories) then
      SingleSeverity(MissingCategories);
      [MissingCategories]
    else if !categories.Arr? then
      SingleSeverity(NotArrayCategories);
      [NotArrayCategories]
    else if |categories.items| == 0 then
      SingleSeverity(EmptyCategories);
      [EmptyCategories]
    else
      OutsideEmptyIff(categories.items, known);
      CategoryListErrors(categories.items, known)
  }

  function RequiredMessage(field: string): string {
    "Missing or empty required field \"" + field + "\""
  }

  /** `validateRequiredFields(tool)`: one error for each of `title` and
      `description` that is missing, not a string, or blank, and none for any
      other field. */
  function ValidateRequiredFields(tool: Record): (r: seq<ValidationError>)
    ensures AllErrors(r) && |r| <= 2
    ensures forall f :: f in ToolRequiredFields ==>
      |FieldErrors(r, f)| == (if MissingOrBlank(Get(tool, f)) then 1 else 0)
    ensures forall f :: f !in ToolRequiredFields ==> FieldErrors(r, f) == []
  {
    assert ToolRequiredFields[0][0] == 't' && ToolRequiredFields[1][0] == 'd';
    RequiredFieldErrors(ToolRequiredFields, f => Get(tool, f), RequiredMessage)
  }

  lemma RequiredFieldsEmptyIff(tool: Record)
    ensures ValidateRequiredFields(tool) == [] <==> Filled(Get(tool, "title")) && Filled(Get(tool, "description"))
  {
    var fields := ToolRequiredFields;
    assert fields[0][0] == 't' && fields[1][0] == 'd';
    RequiredFieldErrorsEmptyIff(fields, f => Get(tool, f), RequiredMessage);
  }

  /** `VALID_STATUSES.includes(status)`: one of the three strings. */
  predicate StatusListed(status: Value) {
    status.Str? && status.s in ValidStatuses
  }

  const MissingStatus := ValidationError("status",
    "Missing status field. Recommended values: " + Join(ValidStatuses, ", "), Warning)

  function InvalidStatusMessage(status: Value): string {
    "Invalid status \"" + Display(status) + "\". Valid values: " + Join(ValidStatuses, ", ")
  }

  /** `validateStatus(tool)` on the value of `tool.status`: a warning for a
      falsy status, the empty string included; an error naming any other status
      that is not listed; nothing for a listed one. */
  function ValidateStatus(status: Value): (r: seq<ValidationError>)
    ensures !Truthy(status) ==> r == [MissingStatus]
    ensures Truthy(status) && !StatusListed(status) ==> r == [ValidationError("status", InvalidStatusMessage(status), Error)]
    ensures StatusListed(status) ==> r == []
  {
    if !Truthy(status) then [MissingStatus]
    else if !StatusListed(status) then [ValidationError("status", InvalidStatusMessage(status), Error)]
    else []
  }

  /** The status passes without an error: absent, falsy, or listed. */
  predicate StatusPass(status: Value) {
    !Truthy(status) || StatusListed(status)
  }

  lemma StatusSeverities(status: Value)
    ensures HasError(ValidateStatus(status)) <==> !StatusPass(status)
    ensures HasWarning(ValidateStatus(status)) <==> !Truthy(status)
  {
    var r := ValidateStatus(status);
    if r != [] {
      SingleSeverity(r[0]);
    }
  }

  /** The three groups of checks, in the order `validateTool` runs them. */
  function ToolEntries(tool: Record, known: seq<string>): seq<ValidationError> {
    ValidateRequiredFields(tool) + ValidateCategories(Get(tool, "categories"), known) + ValidateStatus(Get(tool, "status"))
  }

  lemma ToolEntriesSeverities(tool: Record, known: seq<string>)
    ensures HasError(ToolEntries(tool, known)) <==>
      || !Filled(Get(tool, "title")) || !Filled(Get(tool, "description"))
      || !CategoriesPass(Get(tool, "categories"), known)
      || !StatusPass(Get(tool, "status"))
    ensures HasWarning(ToolEntries(tool, known)) <==>
      CategoriesWarn(Get(tool, "categories")) || !Truthy(Get(tool, "status"))
  {
    var required := ValidateRequiredFields(tool);
    var categories := ValidateCategories(Get(tool, "categories"), known);
    var status := ValidateStatus(Get(tool, "status"));
    SeverityConcat(required + categories, status);
    SeverityConcat(required, categories);
    RequiredFieldsEmptyIff(tool);
    assert HasError(required) <==> required != [] by {
      assert required != [] ==> required[0].severity == Error;
    }
    assert !HasWarning(required);
    StatusSeverities(Get(tool, "status"));
  }

  /** `validateTool(tool)`: valid exactly when title and description are filled,
      the categories are an array of registered slugs, and the status is absent
      or listed; warnings (an empty or repeating list, a missing status) never
      touch validity. */
  function ValidateTool(tool: Record, known: seq<string>): (r: ValidationResult)
    ensures r.valid <==> r.errors == []
    ensures r.valid <==>
      && Filled(Get(tool, "title")) && Filled(Get(tool, "description"))
      && CategoriesPass(Get(tool, "categories"), known)
      && StatusPass(Get(tool, "status"))
    ensures r.warnings != [] <==> CategoriesWarn(Get(tool, "categories")) || !Truthy(Get(tool, "status"))
  {
    ToolEntriesSeverities(tool, known);
    SummarizeIff(ToolEntries(tool, known));
    Summarize(ToolEntries(tool, known))
  }

  /** A tool's `standards` never changes its result: this validator does not
      look at them. */
  lemma StandardsIgnored(tool: Record, known: seq<string>, standards: Value)
    ensures ValidateTool(tool["standards" := standards], known) == ValidateTool(tool, known)
  {
    var other := tool["standards" := standards];
    assert Get(other, "categories") == Get(tool, "categories");
    assert Get(other, "status") == Get(tool, "status");
    assert ToolRequiredFields[0][0] == 't' && ToolRequiredFields[1][0] == 'd';
    assert forall i :: 0 <= i < |ToolRequiredFields| ==> Get(other, ToolRequiredFields[i]) == Get(tool, ToolRequiredFields[i]);
    RequiredFieldErrorsAgree(ToolRequiredFields, f => Get(other, f), f => Get(tool, f), RequiredMessage);
    assert ToolEntries(other, known) == ToolEntries(tool, known);
  }

  /** A repeated registered slug only warns: a filled tool listing `validators`
      twice, with a listed status, stays valid. */
  lemma RepeatedCategoryStaysValid(tool: Record, known: seq<string>)
    requires Filled(Get(tool, "title")) && Filled(Get(tool, "description"))
    requires "validators" in known && Get(tool, "categories") == Arr(["validators", "validators"])
    requires StatusListed(Get(tool, "status"))
    ensures ValidateTool(tool, known).valid
    ensures ValidateTool(tool, known).warnings != []
  {
    var items := ["validators", "validators"];
    assert !Distinct(items) by {
      assert items[0] == items[1];
    }
    assert CategoriesPass(Arr(items), known);
  }

  function FailedHeader(filename: string): string {
    "\n\U{274C} Tool \"" + filename + "\" validation FAILED:"
  }

  function WarningsHeader(filename: string): string {
    "\n\U{26A0}\U{FE0F}  Tool \"" + filename + "\" validation warnings:"
  }

  /** `formatValidationResult(filename, result)`: empty exactly when there is
      nothing to report; the failure header appears exactly when there are
      errors, and the warnings header exactly when there are only warnings. */
  function FormatValidationResult(filename: string, r: ValidationResult): (message: string)
    ensures message == Report(FailedHeader(filename), WarningsHeader(filename), r)
    ensures r.errors != [] ==> StartsWith(message, FailedHeader(filename))
    ensures r.errors == [] && r.warnings != [] ==> StartsWith(message, WarningsHeader(filename))
    ensures message == "" <==> r.errors == [] && r.warnings == []
    ensures FailedHeader(filename) in ReportLines(FailedHeader(filename), WarningsHeader(filename), r) <==> r.errors != []
    ensures WarningsHeader(filename) in ReportLines(FailedHeader(filename), WarningsHeader(filename), r)
      <==> r.errors == [] && r.warnings != []
  {
    var failed := FailedHeader(filename);
    var warnings := WarningsHeader(filename);
    assert failed[1] != warnings[1];
    ReportEmptyIff(failed, warnings, r);
    HeadersIff(failed, warnings, r);
    Report(failed, warnings, r)
  }

  /** `handleValidationResult(filename, result)`: quiet for a clean result;
      `Tool validation failed: <filename>` and the report thrown for an invalid
      result in production; the report logged otherwise. */
  function HandleValidationResult(posture: Posture, filename: string, r: ValidationResult): (d: Dispatch)
    ensures d == Silent <==> r.valid && r.warnings == []
    ensures d.Abort? <==> !r.valid && posture == Production
    ensures d.Abort? ==> d.message == "Tool validation failed: " + filename + "\n" + FormatValidationResult(filename, r)
    ensures d.Log? ==> d.message == FormatValidationResult(filename, r)
  {
    var message := FormatValidationResult(filename, r);
    Decide(posture, r, message, "Tool validation failed: " + filename + "\n" + message)
  }

  /** The module-level `validationCache`: filename to the mtime last validated. */
  type Cache = map<string, int>

  /** One call's outcome: the result returned (not delivered when the dispatch
      aborts), what was reported, and the cache afterwards. */
  datatype Validated = Validated(result: ValidationResult, dispatch: Dispatch, cache: Cache)

  /** What a cache hit returns, whatever the file holds. */
  const Skipped := ValidationResult(true, [], [])

  /** `validationCache.get(filename) === mtime`. */
  predicate Unchanged(cache: Cache, filename: string, mtime: int) {
    filename in cache && cache[filename] == mtime
  }

  /** `validateToolWithCache(tool, filename, filepath)` with the file's mtime
      `mtime`: a hit returns `Skipped` quietly and leaves the cache alone; a miss
      validates and dispatches, and records `mtime` unless the dispatch threw.
      No other filename's entry changes. */
  function ValidateToolWithCache(posture: Posture, cache: Cache, tool: Record, known: seq<string>, filename: string, mtime: int): (v: Validated)
    ensures Unchanged(cache, filename, mtime) ==> v == Validated(Skipped, Silent, cache)
    ensures !Unchanged(cache, filename, mtime) ==>
      v.result == ValidateTool(tool, known) && v.dispatch == HandleValidationResult(posture, filename, v.result)
    ensures v.dispatch.Abort? <==> !Unchanged(cache, filename, mtime) && posture == Production && !v.result.valid
    ensures v.dispatch.Abort? ==> v.cache == cache
    ensures !v.dispatch.Abort? ==> Unchanged(v.cache, filename, mtime)
    ensures forall f :: f != filename ==> (f in v.cache <==> f in cache) && (f in cache ==> v.cache[f] == cache[f])
  {
    if Unchanged(cache, filename, mtime) then Validated(Skipped, Silent, cache)
    else
      var result := ValidateTool(tool, known);
      var dispatch := HandleValidationResult(posture, filename, result);
      Validated(result, dispatch, if dispatch.Abort? then cache else cache[filename := mtime])
  }

  /** In production every result the caller receives is valid: an invalid one
      throws. A cache hit is valid by construction. */
  lemma ProductionDeliversOnlyValid(cache: Cache, tool: Record, known: seq<string>, filename: string, mtime: int)
    ensures var v := ValidateToolWithCache(Production, cache, tool, known, filename, mtime);
      !v.dispatch.Abort? ==> v.result.valid
  {
  }

  /** A file rejected in production is not remembered: calling again on the
      same content validates and rejects it again. */
  lemma RejectedFileRevalidated(cache: Cache, tool: Record, known: seq<string>, filename: string, mtime: int)
    requires !Unchanged(cache, filename, mtime)
    ensures var v := ValidateToolWithCache(Production, cache, tool, known, filename, mtime);
      !ValidateTool(tool, known).valid ==>
        v.dispatch.Abort? && ValidateToolWithCache(Production, v.cache, tool, known, filename, mtime) == v
  {
  }

  /** After a call that did not throw, a second call for the same file and mtime
      returns `Skipped` whatever the tool now holds. */
  lemma SecondCallSkips(posture: Posture, cache: Cache, tool: Record, again: Record, known: seq<string>, filename: string, mtime: int)
    requires !ValidateToolWithCache(posture, cache, tool, known, filename, mtime).dispatch.Abort?
    ensures var v := ValidateToolWithCache(posture, cache, tool, known, filename, mtime);
      ValidateToolWithCache(posture, v.cache, again, known, filename, mtime) == Validated(Skipped, Silent, v.cache)
  {
  }

  /** In development an invalid tool is reported on its first load and then, its
      file unchanged, comes back valid on the next one. */
  lemma DevelopmentSecondLoadValid(cache: Cache, tool: Record, known: seq<string>, filename: string, mtime: int)
    requires !Unchanged(cache, filename, mtime)
    ensures var first := ValidateToolWithCache(Development, cache, tool, known, filename, mtime);
      !ValidateTool(tool, known).valid ==>
        && !first.result.valid && first.dispatch.Log?
        && ValidateToolWithCache(Development, first.cache, tool, known, filename, mtime).result.valid
  {
    var first := ValidateToolWithCache(Development, cache, tool, known, filename, mtime);
    if !ValidateTool(tool, known).valid {
      assert first.result == ValidateTool(tool, known);
      var d := HandleValidationResult(Development, filename, first.result);
      assert first.dispatch == d && !d.Abort? && d != Silent;
      assert Unchanged(first.cache, filename, mtime);
    }
  }
}
