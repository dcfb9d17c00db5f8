# Metadata integrity of the mobility-tools catalogue, in Dafny

This project models the part of the VitePress documentation site that keeps
the catalogue's metadata consistent: the registries of categories and
standards and their validators, the tool loaders that read tool pages'
front matter and admit or reject each tool, the slug generators, the tag
resolver for blog posts, the blog loader, the sidebar counts and the
statistics page. Each source function is a Dafny function over immutable
data. Its contract, or a lemma next to it, states what the function
guarantees to its callers.

Modules follow the source files:

- `Js`, `Text`, `Seqs`, `Optional` and `Sorting` are the JavaScript
  semantics the code relies on:
  - `Js`: truthiness, `||` and property lookup on parsed YAML values;
  - `Text`: `trim`, `toLowerCase`, `replace` with a string pattern, and
    code-point string order;
  - `Seqs`: de-duplication through `Set`;
  - `Sorting`: a stable sort.
- `Validation`, `Diagnostics` and `ValidationUtils` are the shared result
  type, the console report and the production/development decision.
- `SlugFormat` is the four-test slug check. It is written out three times
  in the source, once per validator.
- `Categories` and `CategoryValidation` cover `categories.ts` and
  `categoryValidation.ts`.
- `StandardMetadata`, `StandardValidation` and `CoreStandardValidation` are
  the two standards validators.
- `CrossReferences` holds the related-list and cited-list checks they share.
- `ToolValidation` covers `toolValidation.ts`, including the mtime cache.
- `FrontMatter`, `ToolLoading`, `LegacyToolLoader` and `CoreToolLoader` are
  the two `tools.data.ts` loaders.
- `SlugText`, `LegacySlug` and `CoreSlug` are the two `createSlug`
  functions.
- `BlogTags`, `TagResolver` and `Uri` cover tag resolution, including
  `encodeURIComponent` and its inverse.
- `Blog` models both blog loaders.
- `Counting`, `Stats`, `SidebarItems`, `CoreSidebar` and `LegacySidebar`
  cover the counts shown in the sidebars and on the statistics page.

The following become parameters:

- reading files;
- the YAML parser (a partial function);
- the clock and the preview switch;
- `NODE_ENV` (the `Posture`);
- the registries that are loaded from YAML.

The shipped constant registries `CATEGORIES` and `STANDARD_METADATA` are
written out, and lemmas state facts about them.

Where the documentation and the code disagree, the model follows the code:

- A tool whose front matter says `categories: []` is admitted. An empty
  array is truthy, so `data.categories` passes the loaders' gate
  (`CoreToolLoader.EmptyCategoriesAdmitted`).
- The per-category counts do not add up to the total number of category
  entries across tools. Slugs that are not in the registry are never
  counted. What holds is that the sum equals the number of registered
  occurrences (`Counting.CategoryCountsSum`).
- The legacy standards validator checks tools' `standards` lists against
  the keys of `STANDARD_METADATA`. Those keys are written with capitals and
  spaces (`DATEX II`), but each entry is also run through the kebab-case
  slug test, so every non-empty list fails
  (`StandardValidation.ShippedKeysRejectEveryList`).
- The legacy tool loader runs validation through an mtime cache. A cache
  hit returns a synthetic valid result, so a second development load
  admits tools the first load rejected
  (`LegacyToolLoader.DevelopmentSecondLoadAdmitsAll`).
- A tool page whose front matter block is empty or holds only comments
  parses to `null`. Reading its `title` then throws a `TypeError`, so the
  load fails in development as well as in production instead of skipping
  the page (`LegacyToolLoader.LoadFrom`). The core loader does the same
  whenever its validator passes such a page (`CoreToolLoader.Load`).

Source paths below are relative to the repository root.

## Model

| member | source | states |
|---|---|---|
| `FrontMatter.Split` | docs/.vitepress/tools.data.ts:28-36 | no match exactly when the file does not open with `---` and a line break, or no closing delimiter follows; otherwise the block ends at the FIRST closing delimiter (lazy group) and the body is everything after it |
| `FrontMatter.SplitCoversContent` | docs/.vitepress/tools.data.ts:28 | a match loses no character: opening line, block, closing delimiter and body concatenate back to the file |
| `FrontMatter.ParseFrontMatter` | docs/.vitepress/tools.data.ts:27-45 | without a match the data is `{}` and the content is returned whole; when YAML parsing throws the data is `{}` and the body is still returned; otherwise whatever the block parses to, `null` included |
| `FrontMatter.EmptyBlockData` | docs/.vitepress/tools.data.ts:28-40 | a file `---\n\n---\n` followed by a body matches with an empty block, so a parser that reads the empty block as `null` hands `null` to the loader |
| `FrontMatter.SplitRender` | docs/.vitepress/core/data-loaders/tools.data.ts:41-59 | a block with no carriage return and no line starting with `---`, written between delimiters, is read back exactly, and so is the body |
| `FrontMatter.NoOpeningNoData` | docs/.vitepress/core/data-loaders/tools.data.ts:45-47 | a file that does not start with `---` yields no data and is left whole |
| `ToolLoading.FirstMdRemoved` | docs/.vitepress/tools.data.ts:67 | the slug removes the first `.md` of the file name wherever it occurs, so `a.md-guide.md` becomes `a-guide.md` |
| `ToolLoading.ToolSlugOfStem` | docs/.vitepress/core/data-loaders/tools.data.ts:88 | a name `stem.md` whose stem holds no `.md` gets the slug `stem` |
| `ToolLoading.CategoryList` | docs/.vitepress/tools.data.ts:72 | an array of categories is kept element by element; any other value becomes a one-element list |
| `ToolLoading.Normalize` | docs/.vitepress/tools.data.ts:68-85 | the pushed tool: the slug from the name; the title as given; `description` defaults to `''`, `status` to `unknown`, and `standards` and `tags` to `[]` when falsy; exactly the listed pass-through fields, each as read |
| `ToolLoading.AdmittedToolShape` | docs/.vitepress/tools.data.ts:66-85 | an admitted tool has a truthy title, status, standards and tags, and its category list is empty exactly when the file wrote `categories: []` |
| `ToolLoading.Accept` | docs/.vitepress/core/data-loaders/tools.data.ts:75-94 | a file yields a tool exactly when it is a markdown file other than `index.md` and its verdict, title and categories are all truthy; the tool is the normalised record |
| `ToolLoading.CollectConcat` | docs/.vitepress/core/data-loaders/tools.data.ts:77-115 | the loop judges each file on its own: loading two listings in turn is loading their concatenation |
| `ToolLoading.CollectMembers` | docs/.vitepress/tools.data.ts:56-90 | a tool is in the output exactly when some listed file is accepted as it |
| `CoreToolLoader.Load` | docs/.vitepress/core/data-loaders/tools.data.ts:70-118 | the load throws exactly when some markdown file's validation throws or passes `null` data, whose `title` is then read; otherwise it returns what the per-file filter accepts |
| `CoreToolLoader.LoadMembers` | docs/.vitepress/core/data-loaders/tools.data.ts:77-115 | a load that returns has at most one tool per file, and a tool exactly when some markdown file (not `index.md`) with a valid verdict, a truthy title and truthy categories normalises to it |
| `CoreToolLoader.LoadConcat` | docs/.vitepress/core/data-loaders/tools.data.ts:77-115 | loading two listings in turn is loading their concatenation: it throws exactly when one of them does, and otherwise keeps listing order |
| `CoreToolLoader.EmptyCategoriesAdmitted` | docs/.vitepress/core/data-loaders/tools.data.ts:87 | a valid file with a title and `categories: []` is loaded, with no categories, under its file slug |
| `CoreToolLoader.NullDocumentSkippedOrThrown` | docs/.vitepress/core/data-loaders/tools.data.ts:84-87 | a markdown file with `null` front matter makes the load throw when its validator passes it, and is skipped when the validator rejects it |
| `LegacyToolLoader.Thread` | docs/.vitepress/tools.data.ts:56-90 | the loop threads the validation cache file by file and stops at the first `null` front matter or thrown validation; a load that returns has at most one tool per file |
| `LegacyToolLoader.CheckerFacts` | docs/.vitepress/toolValidation.ts:241-265 | what each cached-validation call on a mapping guarantees the loop: other cache entries kept; the file recorded unless it threw; a cache hit passes without throwing; a fresh file is judged by `validateTool`; in development the call never throws, in production exactly the invalid fresh files throw |
| `LegacyToolLoader.ThreadNeverFails` | docs/.vitepress/tools.data.ts:56-90 | when no validation throws, the loop returns unless some markdown file has `null` front matter |
| `LegacyToolLoader.ThreadNullFails` | docs/.vitepress/toolValidation.ts:109 | a markdown file with `null` front matter keeps the loop from returning, whatever the validation does: its `title` is read on a miss and on a hit alike |
| `LegacyToolLoader.ThreadFreshIff` | docs/.vitepress/tools.data.ts:56-90 | when exactly the invalid fresh files throw, a load over distinct uncached names returns exactly when every markdown file has a mapping that is valid |
| `LegacyToolLoader.LoadFrom` | docs/.vitepress/tools.data.ts:49-93 | a markdown file with `null` front matter makes the load throw in either posture; in development nothing else does; a returning load has at most one tool per file |
| `LegacyToolLoader.FreshLoadValidates` | docs/.vitepress/tools.data.ts:63-66 | on distinct names none of which is cached, a returning load gives exactly the files `validateTool` accepts that have a truthy title and categories |
| `LegacyToolLoader.ProductionFreshLoadSucceedsIffAllValid` | docs/.vitepress/toolValidation.ts:216-221 | in production, on distinct uncached names, the load returns exactly when every markdown file has a mapping that is valid |
| `LegacyToolLoader.LoadCachesEveryFile` | docs/.vitepress/toolValidation.ts:261-262 | a load that returns leaves every markdown file cached with its mtime |
| `LegacyToolLoader.CachedLoadAdmitsAll` | docs/.vitepress/toolValidation.ts:252-255 | when every markdown file is a cache hit, the load leaves the cache alone; it returns every file with a truthy title and categories, valid or not, unless some file has `null` front matter, when it throws the `TypeError` of reading `title` |
| `LegacyToolLoader.DevelopmentSecondLoadAdmitsAll` | docs/.vitepress/toolValidation.ts:241-265 | in development, a second load of the same directory skips validation, so every file with a title and categories is admitted whatever its validity; with a `null` front matter both loads throw |
| `Validation.OfSeverity` | docs/.vitepress/toolValidation.ts:167-168 | the filter keeps exactly the entries of the given severity |
| `Validation.SplitIsPermutation` | docs/.vitepress/categoryValidation.ts:155-157 | splitting by severity loses and invents nothing: errors and warnings together are a permutation of what was collected |
| `Validation.Summarize` | docs/.vitepress/toolValidation.ts:166-174 | `valid` holds exactly when no collected entry is an error, which is exactly when `errors` is empty; errors and warnings are the collected entries of each severity, with multiplicity |
| `Validation.SummarizeIff` | docs/.vitepress/core/validation/standards.ts:229-251 | a summary is valid exactly when nothing collected is an error, and has warnings exactly when something collected is a warning |
| `Validation.SummarizeOnlyErrors` | docs/.vitepress/categoryValidation.ts:143-164 | when every collected entry is an error, there are no warnings and the result is valid exactly when nothing was collected |
| `Validation.RequiredFieldErrors` | docs/.vitepress/categoryValidation.ts:64-76 | the required-field loop raises exactly one error per listed field that is missing, not a string or blank, naming that field, and none against any other field |
| `Validation.RequiredFieldErrorsEmptyIff` | docs/.vitepress/categoryValidation.ts:67-76 | no required-field error exactly when every listed field holds a non-blank string |
| `Validation.Prefixed` | docs/.vitepress/categoryValidation.ts:127-132 | re-prefixing keeps every entry's field and severity and puts the prefix before its message |
| `Validation.Collect` | docs/.vitepress/categoryValidation.ts:147-153 | the collection loop raises nothing exactly when every item raises nothing, and only errors when each item does |
| `Diagnostics.Bullet` | docs/.vitepress/validationUtils.ts:35 | a bullet line starts with `   - [`, ends with the message and is never mistaken for a header |
| `Diagnostics.Report` | docs/.vitepress/validationUtils.ts:48 | the joined report starts with the failure header when there are errors, and with the warnings header when there are only warnings |
| `Diagnostics.ReportLines` | docs/.vitepress/validationUtils.ts:30-46 | the failure header and one bullet per error when there are errors; the warnings header only when there are warnings and no errors; one bullet per warning at the end; no other header line |
| `Diagnostics.HeadersIff` | docs/.vitepress/validationUtils.ts:32-41 | the failure header appears exactly when there are errors, and the warnings header exactly when there are warnings but no errors |
| `Diagnostics.ReportEmptyIff` | docs/.vitepress/validationUtils.ts:48 | the joined report is empty exactly when there are neither errors nor warnings |
| `Diagnostics.Decide` | docs/.vitepress/validationUtils.ts:64-74 | silent exactly for a valid result without warnings; throws exactly for an invalid result in production; otherwise logs the report |
| `Diagnostics.NeverAbortsUnlessInvalidInProduction` | docs/.vitepress/validationUtils.ts:67-73 | development never fails the build, a valid result never does, and an invalid result is never silent |
| `ValidationUtils.FormatValidationResult` | docs/.vitepress/validationUtils.ts:26-49 | the message is the newline-joined report: it starts with the failure header when there are errors and with the warnings header when there are only warnings, then one bullet per entry; it is empty exactly when there is nothing to report |
| `ValidationUtils.HandleValidationResult` | docs/.vitepress/validationUtils.ts:58-75 | quiet for a clean result; throws `Validation failed: <context>` with the report exactly for an invalid result in production; otherwise logs the report |
| `SlugFormat.FailedChecks` | docs/.vitepress/categoryValidation.ts:18-52 | each of the four tests fails exactly on its condition: not lower-case, a character outside `[a-z0-9-]`, a hyphen at either end, a `--` |
| `SlugFormat.SlugErrors` | docs/.vitepress/categoryValidation.ts:15-55 | one error per failed test, in test order, against the given field, with that test's message; no test stops the others |
| `SlugFormat.NoFailureIffClean` | docs/.vitepress/categoryValidation.ts:18-52 | the four tests all pass exactly on strings of `[a-z0-9-]` with no hyphen at an end and no two adjacent hyphens |
| `SlugFormat.KebabIffClean` | docs/.vitepress/categoryValidation.ts:13 | a non-empty string passes exactly when it is in `^[a-z0-9]+(-[a-z0-9]+)*$` |
| `SlugFormat.NoErrorsIffKebab` | docs/.vitepress/categoryValidation.ts:15-55 | the slug check raises nothing exactly for the empty string and the canonical kebab-case slugs |
| `SlugFormat.UppercaseFailsTwice` | docs/.vitepress/categoryValidation.ts:19-35 | an upper-case letter fails both the lower-case test and the character-class test |
| `SlugFormat.SlugErrorsEach` | docs/.vitepress/standardValidation.ts:149-152 | checking every entry of a list gives at most four errors per entry, all against the field, and none exactly when every entry passes all four tests |
| `Categories.GetCategorySlugs` | docs/.vitepress/categories.ts:106-108 | the slugs of the registry, one per category, in registry order |
| `Categories.GetCategoryBySlug` | docs/.vitepress/categories.ts:113-115 | absent exactly when no category has the slug; otherwise the FIRST category whose slug is exactly the given one |
| `Categories.LookupOfListedSlug` | docs/.vitepress/categories.ts:113-115 | with distinct slugs, looking up the i-th slug gives the i-th category |
| `Categories.ShippedSlugsDistinct` | docs/.vitepress/categories.ts:30-98 | the shipped registry has eleven categories with pairwise distinct slugs, `validators` first |
| `Categories.ShippedCategoriesWellFormed` | docs/.vitepress/categories.ts:30-98 | every shipped category has a slug that passes the four slug tests and four non-blank fields |
| `CategoryValidation.ValidateCategorySlug` | docs/.vitepress/categoryValidation.ts:15-55 | at most four errors, all against `slug`; none exactly for the empty string or a canonical kebab-case slug |
| `CategoryValidation.MissingFieldErrors` | docs/.vitepress/categoryValidation.ts:64-76 | one error per missing or blank declared field, naming it, and none against any other field |
| `CategoryValidation.MissingFieldsEmptyIffComplete` | docs/.vitepress/categoryValidation.ts:67-76 | no required-field error exactly when all four fields are non-blank |
| `CategoryValidation.ValidateCategoryMetadata` | docs/.vitepress/categoryValidation.ts:60-138 | only errors; with a falsy `related` only the required-field errors; a truthy non-array `related` adds exactly the "must be an array" error |
| `CategoryValidation.SelfReferenceReported` | docs/.vitepress/categoryValidation.ts:103-109 | a related-list naming its own category always draws the self-reference error |
| `CategoryValidation.MetadataCleanIff` | docs/.vitepress/categoryValidation.ts:60-138 | the metadata check is silent exactly when the category is complete and its related-list is absent or falsy, or an array of registered, distinct, well-formed slugs without its own |
| `CategoryValidation.EntryErrors` | docs/.vitepress/categoryValidation.ts:147-153 | an entry contributes nothing exactly when its slug is empty or kebab-case, it is complete and its related-list is clean |
| `CategoryValidation.ValidateAllCategories` | docs/.vitepress/categoryValidation.ts:143-164 | never a warning; valid exactly when every entry contributes nothing |
| `CategoryValidation.ShippedCategoriesValid` | docs/.vitepress/categoryValidation.ts:143-164 | the shipped registry validates |
| `CrossReferences.RelatedListErrors` | docs/.vitepress/categoryValidation.ts:90-122 | in this order: the error listing every unregistered entry and the sorted registry keys, the self-reference error, and the error listing every duplicated entry once; each is present exactly when its condition holds, with the message stated |
| `CrossReferences.ListErrorsEmptyIff` | docs/.vitepress/categoryValidation.ts:90-122 | the entry checks are silent exactly when every entry is registered, the owner is not listed and no entry repeats |
| `CrossReferences.OwnedFormatErrors` | docs/.vitepress/categoryValidation.ts:124-133 | one re-prefixed error per slug-test failure of any entry, each message starting with the owner's prefix |
| `CrossReferences.RelatedErrors` | docs/.vitepress/categoryValidation.ts:79-135 | nothing for a falsy list; exactly the "must be an array" error for a truthy non-array; for an array, the entry checks followed by the format errors |
| `CrossReferences.RelatedCleanIff` | docs/.vitepress/core/validation/standards.ts:101-150 | an array related-list is silent exactly when its entries are registered, distinct, well formed and do not include the owner |
| `CrossReferences.ToolListErrors` | docs/.vitepress/standardValidation.ts:120-147 | first the "Unknown standards" error listing the unknown entries, the sorted keys and the hint, then the "Duplicate standards found" error listing every duplicate once; each is present exactly when its condition holds |
| `CrossReferences.StandardsErrors` | docs/.vitepress/standardValidation.ts:92-154 | nothing for a falsy list; the "must be an array" error for a non-array; the "empty" warning for `[]`; for a non-empty array exactly the list checks followed by each entry's slug errors, all errors |
| `CrossReferences.ToolListEmptyIff` | docs/.vitepress/standardValidation.ts:120-147 | the list checks are silent exactly when every entry is known and none repeats |
| `CrossReferences.StandardsCleanIff` | docs/.vitepress/standardValidation.ts:92-154 | a non-empty list is silent exactly when its entries are known, distinct and canonical slugs |
| `CrossReferences.KnownListHasNoUnknownError` | docs/.vitepress/standardValidation.ts:126-147 | a list of known entries draws one error if it repeats an entry and none otherwise |
| `StandardMetadata.Lookup` | docs/.vitepress/standards.ts:84 | an own-property lookup: absent exactly when no key matches, otherwise an entry under the key, which is the entry under the key when the keys are distinct, as in an object literal |
| `StandardMetadata.GetStandardMetadata` | docs/.vitepress/standards.ts:83-88 | the entry under the name, or the default icon without description |
| `StandardMetadata.LookupOfKey` | docs/.vitepress/standards.ts:83-88 | with distinct keys, every key finds exactly its own entry |
| `StandardMetadata.AsRecord` | docs/.vitepress/standards.ts:12-15 | an entry seen as a record has its icon, a description exactly when it declares one, and never a title |
| `StandardMetadata.ShippedKeysListed` | docs/.vitepress/standards.ts:21-78 | the shipped map has fourteen entries, with the listed keys in insertion order |
| `StandardMetadata.ShippedKeysDistinct` | docs/.vitepress/standards.ts:21-78 | the shipped keys are pairwise distinct |
| `StandardMetadata.ShippedIconsPresent` | docs/.vitepress/standards.ts:21-78 | every shipped entry has a non-empty icon |
| `StandardMetadata.ShippedKeysHaveCapital` | docs/.vitepress/standards.ts:21-78 | every shipped key contains an upper-case ASCII letter |
| `StandardValidation.ValidateStandardSlug` | docs/.vitepress/standardValidation.ts:18-58 | one error per failed slug test against `standards`; none exactly for the empty string or a kebab-case slug |
| `StandardValidation.ValidateStandardMetadata` | docs/.vitepress/standardValidation.ts:63-87 | exactly one error for each of `title` and `icon` that is missing or blank, and no other |
| `StandardValidation.MetadataCleanIff` | docs/.vitepress/standardValidation.ts:63-87 | silent exactly when both title and icon are non-blank strings |
| `StandardValidation.ValidateStandards` | docs/.vitepress/standardValidation.ts:92-154 | nothing for a falsy list, one error for a non-array, one warning for an empty array, and otherwise exactly the shared cited-list checks against the map's keys followed by the slug errors; the unknown-standards message ends with the hint to add them to `STANDARD_METADATA` |
| `StandardValidation.NonEmptyListAlwaysFails` | docs/.vitepress/standardValidation.ts:118-153 | against keys that all contain a capital, a non-empty list always fails: an unknown entry fails the key check, a known one the slug check |
| `StandardValidation.ShippedKeysRejectEveryList` | docs/.vitepress/standardValidation.ts:92-154 | against the shipped map, every non-empty `standards` list is rejected |
| `StandardValidation.EntryErrors` | docs/.vitepress/standardValidation.ts:162-170 | an entry contributes nothing exactly when its key is empty or kebab-case and its title and icon are filled |
| `StandardValidation.ValidateAllStandards` | docs/.vitepress/standardValidation.ts:159-180 | never a warning; valid exactly when every entry contributes nothing |
| `StandardValidation.ShippedRegistry` | docs/.vitepress/standardValidation.ts:162 | the shipped map's entries in insertion order, each seen as a record |
| `StandardValidation.ShippedMapInvalid` | docs/.vitepress/standardValidation.ts:159-180 | the shipped map never validates, because no entry has a title |
| `StandardValidation.SlugCopiesAgree` | docs/.vitepress/core/validation/standards.ts:19-59 | the two standards copies of the slug check give the same errors, and the category copy the same number |
| `CoreStandardValidation.ValidateStandardSlug` | docs/.vitepress/core/validation/standards.ts:19-59 | one error per failed slug test; none exactly for the empty string or a kebab-case slug |
| `CoreStandardValidation.MissingFieldErrors` | docs/.vitepress/core/validation/standards.ts:77-97 | one error per required field that is missing or blank, and none against any other field |
| `CoreStandardValidation.MissingFieldsEmptyIffComplete` | docs/.vitepress/core/validation/standards.ts:77-97 | no required-field error exactly when every required field is a non-blank string |
| `CoreStandardValidation.DescriptionNeverChecked` | docs/.vitepress/core/validation/standards.ts:77-98 | `description` is optional: no value of it changes the required-field errors |
| `CoreStandardValidation.ValidateStandardMetadata` | docs/.vitepress/core/validation/standards.ts:69-153 | only errors; with a falsy `related_standards` only the required-field errors; a truthy non-array adds exactly the "must be an array" error |
| `CoreStandardValidation.SelfReferenceAllowed` | docs/.vitepress/core/validation/standards.ts:101-150 | unlike the category validator, a registered standard may list itself in `related_standards` |
| `CoreStandardValidation.MetadataCleanIff` | docs/.vitepress/core/validation/standards.ts:69-153 | silent exactly when the standard is complete and its related list is absent, falsy, or registered, distinct and well-formed slugs |
| `CoreStandardValidation.ValidateStandards` | docs/.vitepress/core/validation/standards.ts:162-222 | nothing for a falsy list, one error for a non-array, one warning for an empty array, and otherwise exactly the shared cited-list checks against the registry keys followed by the slug errors, all errors; the unknown-standards message ends with the hint to add them to `standards.yaml` |
| `CoreStandardValidation.ValidateStandardsCleanIff` | docs/.vitepress/core/validation/standards.ts:162-222 | a non-empty list is silent exactly when its entries are registered, distinct and canonical slugs |
| `CoreStandardValidation.EntryErrors` | docs/.vitepress/core/validation/standards.ts:233-240 | an entry contributes nothing exactly when its slug passes, it is complete and its related list is clean |
| `CoreStandardValidation.ValidateAllStandards` | docs/.vitepress/core/validation/standards.ts:229-251 | never a warning; valid exactly when every entry contributes nothing |
| `ToolValidation.CategoryListErrors` | docs/.vitepress/toolValidation.ts:71-99 | a non-empty array draws an error exactly when some entry is unregistered and a warning exactly when some entry repeats |
| `ToolValidation.ValidateCategories` | docs/.vitepress/toolValidation.ts:38-100 | missing, non-array and empty categories each draw their one entry; an error exactly when the categories are not an array of registered slugs; a warning exactly for an empty array or a repeat |
| `ToolValidation.ValidateRequiredFields` | docs/.vitepress/toolValidation.ts:105-127 | one error for each of `title` and `description` that is missing, not a string or blank |
| `ToolValidation.RequiredFieldsEmptyIff` | docs/.vitepress/toolValidation.ts:109-125 | no required-field error exactly when title and description are both filled |
| `ToolValidation.ValidateStatus` | docs/.vitepress/toolValidation.ts:132-153 | a missing status draws the warning, an unlisted one the error naming it, a listed one nothing |
| `ToolValidation.StatusSeverities` | docs/.vitepress/toolValidation.ts:136-150 | the status raises an error exactly when it is truthy and unlisted, and a warning exactly when it is falsy |
| `ToolValidation.ToolEntriesSeverities` | docs/.vitepress/toolValidation.ts:161-164 | the collected entries hold an error exactly when a required field, the categories or the status fail, and a warning exactly when the categories or the status warn |
| `ToolValidation.ValidateTool` | docs/.vitepress/toolValidation.ts:158-175 | valid exactly when title and description are filled, the categories are registered and the status is absent or listed; warnings exactly for empty or repeated categories or a missing status |
| `ToolValidation.StandardsIgnored` | docs/.vitepress/toolValidation.ts:158-175 | a tool's `standards` never changes the verdict |
| `ToolValidation.RepeatedCategoryStaysValid` | docs/.vitepress/toolValidation.ts:86-98 | a repeated registered category only warns: the tool stays valid |
| `ToolValidation.FormatValidationResult` | docs/.vitepress/toolValidation.ts:180-203 | the tool report is the newline-joined report: it starts with the tool's failure header when there are errors and with its warnings header when there are only warnings, then one bullet per entry; it is empty exactly when there is nothing to report |
| `ToolValidation.HandleValidationResult` | docs/.vitepress/toolValidation.ts:210-227 | quiet for a clean result; throws `Tool validation failed: <file>` with the report exactly for an invalid result in production; otherwise logs |
| `ToolValidation.ValidateToolWithCache` | docs/.vitepress/toolValidation.ts:241-265 | a cache hit returns a synthetic valid result silently and leaves the cache alone; otherwise the file is validated and dispatched, and cached with its mtime unless that threw; no other entry changes |
| `ToolValidation.ProductionDeliversOnlyValid` | docs/.vitepress/toolValidation.ts:216-221 | in production every result a caller receives is valid |
| `ToolValidation.RejectedFileRevalidated` | docs/.vitepress/toolValidation.ts:258-262 | a file rejected in production is not cached, so the next call validates it again |
| `ToolValidation.SecondCallSkips` | docs/.vitepress/toolValidation.ts:249-255 | after a call that did not throw, a second call for the same file and mtime is a silent valid cache hit, whatever the file now holds |
| `ToolValidation.DevelopmentSecondLoadValid` | docs/.vitepress/toolValidation.ts:241-265 | in development an invalid tool is reported once and then passes as valid on the next call |
| `LegacySlug.CollapseHyphens` | docs/.vitepress/utils.ts:16 | the result has no `--`, keeps only characters of the input and changes nothing that has none |
| `LegacySlug.DropLeadingHyphens` | docs/.vitepress/utils.ts:17 | a suffix of the input that does not start with a hyphen; unchanged when the input does not start with one |
| `LegacySlug.DropTrailingHyphens` | docs/.vitepress/utils.ts:18 | a prefix of the input that does not end with a hyphen; unchanged when the input does not end with one |
| `LegacySlug.CreateSlug` | docs/.vitepress/utils.ts:11-19 | the slug is clean: only `[a-z0-9_-]`, no `--`, no hyphen at either end |
| `LegacySlug.CreateSlugFixedIffClean` | docs/.vitepress/utils.ts:11-19 | a string is its own slug exactly when it is clean |
| `LegacySlug.CreateSlugIdempotent` | docs/.vitepress/utils.ts:11-19 | slugging a slug changes nothing |
| `LegacySlug.DatexExample` | docs/.vitepress/utils.ts:8 | `DATEX II` becomes `datex-ii` |
| `LegacySlug.MobilityDcatExample` | docs/.vitepress/utils.ts:9 | `mobilityDCAT-AP` becomes `mobilitydcat-ap` |
| `SlugText.DashRuns` | docs/.vitepress/utils.ts:14 | the result has no white space, every character is a hyphen or from the input, and a string without white space is unchanged |
| `SlugText.KeepWordChars` | docs/.vitepress/utils.ts:15 | only word characters and hyphens of the input remain, and a string made only of them is unchanged |
| `SlugText.DashSingleSpace` | docs/.vitepress/core/utils/slugify.ts:15 | a single space between two words becomes a single hyphen |
| `CoreSlug.TrimKeepsChars` | docs/.vitepress/core/utils/slugify.ts:14 | trimming keeps only characters of the original |
| `CoreSlug.CreateSlug` | docs/.vitepress/core/utils/slugify.ts:11-17 | the slug consists only of `[a-z0-9_-]` |
| `CoreSlug.CreateSlugFixedIffSlugChars` | docs/.vitepress/core/utils/slugify.ts:11-17 | a string is its own slug exactly when it consists of `[a-z0-9_-]`, so `--` and edge hyphens survive |
| `CoreSlug.CreateSlugIdempotent` | docs/.vitepress/core/utils/slugify.ts:11-17 | slugging a slug changes nothing |
| `CoreSlug.DatexExample` | docs/.vitepress/core/utils/slugify.ts:8-9 | `DATEX II` becomes `datex-ii`, and `datex-ii` stays as it is |
| `CoreSlug.SpacedHyphenExample` | docs/.vitepress/core/utils/slugify.ts:15-16 | `a - b` becomes `a---b`: each space becomes a hyphen and the existing hyphen is kept |
| `BlogTags.GetBlogTagBySlug` | docs/.vitepress/core/metadata/blogTags.ts:34-36 | an entry exactly when the slug is a key, and then that key's entry |
| `BlogTags.GetBlogTagTitle` | docs/.vitepress/core/metadata/blogTags.ts:24-27 | the entry's title when it exists and is non-empty, the slug itself otherwise |
| `BlogTags.UnknownTagTitledBySlug` | docs/.vitepress/core/metadata/blogTags.ts:26 | a tag without an entry is titled by its slug |
| `BlogTags.LookupIsExact` | docs/.vitepress/core/metadata/blogTags.ts:24-36 | lookup is by exact key: an entry under one spelling gives nothing for another |
| `TagResolver.ResolveTag` | docs/.vitepress/core/utils/tagResolver.ts:30-61 | the slug is kept; a category exactly when some category has the slug, then a standard exactly when it is a standards key, else a blog tag; each with its title and its url |
| `TagResolver.ResolveTags` | docs/.vitepress/core/utils/tagResolver.ts:68-70 | one resolution per tag, in order |
| `TagResolver.ResolveTagsConcat` | docs/.vitepress/core/utils/tagResolver.ts:68-70 | resolving a list is resolving its parts: order and duplicates survive |
| `TagResolver.BlogLinkCarriesTag` | docs/.vitepress/core/utils/tagResolver.ts:54-60 | a blog-tag link is `/blog?tag=` followed by a query-safe encoding of the tag, which decodes back to the tag |
| `TagResolver.CategoryShadowsOthers` | docs/.vitepress/core/utils/tagResolver.ts:31-40 | a category slug always resolves as a category, whatever the standards and blog tags hold |
| `TagResolver.MatchingIsCaseSensitive` | docs/.vitepress/core/utils/tagResolver.ts:32-33 | `validators` resolves to its category while `VALIDATORS` falls through to a blog tag |
| `Uri.EncodeUriComponent` | docs/.vitepress/core/utils/tagResolver.ts:59 | the encoding is never shorter than its input and never contains a character with meaning in a query |
| `Uri.EncodeConcat` | docs/.vitepress/core/utils/tagResolver.ts:59 | encoding works character by character |
| `Uri.EncodeFixedIffUnreserved` | docs/.vitepress/core/utils/tagResolver.ts:59 | a string is its own encoding exactly when it consists of unreserved characters |
| `Uri.DecodeEncode` | docs/.vitepress/core/utils/tagResolver.ts:59 | decoding undoes the encoding for every string |
| `Blog.ToPost` | docs/.vitepress/core/data-loaders/blog.data.ts:36-46 | `published` is false only for an explicit `false`; `tags` is never falsy and defaults to `[]`; `description` defaults to `''`; the excerpt falls back to the front-matter description; the other fields are copied |
| `Blog.KeepsIff` | docs/.vitepress/core/data-loaders/blog.data.ts:47-61 | a post is kept exactly when it is published and, outside preview mode, not dated after `now`; both loaders' filters agree |
| `Blog.KeptMembers` | docs/.vitepress/core/data-loaders/blog.data.ts:47-61 | the filter only drops posts: a post survives exactly when it was there and is kept |
| `Blog.NewestFirstIsTotalOrder` | docs/.vitepress/core/data-loaders/blog.data.ts:62 | the comparator orders every pair of posts consistently |
| `Blog.CoreKeptMembers` | docs/.vitepress/core/data-loaders/blog.data.ts:36-61 | a post survives the map and filter exactly when it is the mapping of some raw entry, is published and, outside preview mode, is not dated after `now` |
| `Blog.CoreTransform` | docs/.vitepress/core/data-loaders/blog.data.ts:31-63 | never more posts than raw entries |
| `Sorting.InsertStable` | docs/.vitepress/core/data-loaders/blog.data.ts:62 | an inserted element goes ahead of every element ranked equal to it |
| `Sorting.SortStable` | docs/.vitepress/core/config/sidebar.ts:95-102 | the sort is stable, as `Array.prototype.sort` is: the elements ranked equal to any given one keep their input order |
| `Blog.CoreTransformSpec` | docs/.vitepress/core/data-loaders/blog.data.ts:35-62 | newest first, a permutation of the kept posts, and a post is output exactly when it is the mapping of some raw entry, published and (outside preview) not in the future |
| `Blog.NewestFirstOrder` | docs/.vitepress/core/data-loaders/blog.data.ts:62 | consecutive output posts never go forward in time |
| `Blog.OnlyPublishedAndDue` | docs/.vitepress/core/data-loaders/blog.data.ts:47-60 | every output post is published and, outside preview mode, not dated after `now` |
| `Blog.PreviewKeepsAllPublished` | docs/.vitepress/core/data-loaders/blog.data.ts:52 | in preview mode every published post is output, whatever its publish date |
| `Blog.LegacyTransform` | docs/.vitepress/blog.data.ts:23-55 | never more posts than raw entries |
| `Blog.TransformsAgree` | docs/.vitepress/blog.data.ts:41 | testing `published === false` and testing `!published` give the same output, as `published` is always a boolean |
| `Counting.Count` | docs/.vitepress/stats.data.ts:35-41 | the number of occurrences, never more than the length, and zero exactly when absent |
| `Counting.CategoryKeysMembers` | docs/.vitepress/core/config/sidebar.ts:22-28 | a key is visited exactly when some tool lists a category whose string form is that key |
| `Counting.Tally` | docs/.vitepress/core/config/sidebar.ts:22-28 | only keys already present are incremented, each by its number of occurrences; no key is added |
| `Counting.TallyAll` | docs/.vitepress/core/config/sidebar.ts:59-68 | every visited key gets an entry, and each entry is its previous value (0 if absent) plus its number of occurrences |
| `Counting.Zeroed` | docs/.vitepress/stats.data.ts:29-32 | every slug is set to 0 and every other entry kept |
| `Counting.CategoryCounts` | docs/.vitepress/core/config/sidebar.ts:12-31 | an entry for exactly the registry slugs, each holding its number of occurrences across the tools' categories |
| `Counting.CategoryCountsSum` | docs/.vitepress/core/config/sidebar.ts:12-31 | with distinct slugs the counts add up to the number of registered occurrences, never more than all category entries |
| `Counting.StandardsVisited` | docs/.vitepress/core/config/sidebar.ts:60-61 | visiting throws exactly for a non-empty string; an array's items are visited; other values visit nothing |
| `Counting.StandardKeys` | docs/.vitepress/core/config/sidebar.ts:59-68 | the visit throws exactly when it throws for some tool |
| `Counting.StandardKeysMembers` | docs/.vitepress/core/config/sidebar.ts:59-68 | a standard is visited exactly when some tool's `standards` array lists it |
| `Stats.StatusCountsBounded` | docs/.vitepress/stats.data.ts:15-17 | the three status counts together never exceed the number of tools |
| `Stats.ToolStatsOf` | docs/.vitepress/stats.data.ts:13-18 | `total` is the number of tools and the status counts together do not exceed it |
| `Stats.PositiveCounts` | docs/.vitepress/stats.data.ts:44 | the categories with a positive count are exactly the registry slugs some tool lists |
| `Stats.Tallied` | docs/.vitepress/stats.data.ts:24-41 | keys `total`, `withTools` and the slugs; each slug holds its number of occurrences |
| `Stats.CategoryStats` | docs/.vitepress/stats.data.ts:24-44 | keys `total`, `withTools` and the slugs; `total` is the number of slugs plus the tools' entries that name `total` itself |
| `Stats.CategoryStatsSpec` | docs/.vitepress/stats.data.ts:35-44 | every slug other than `withTools` holds its number of occurrences, and `withTools` is the number of slugs some tool lists, at most the number of slugs |
| `Stats.StandardsTotal` | docs/.vitepress/stats.data.ts:47-56 | the number of distinct standards visited, never more than the visits |
| `Stats.Load` | docs/.vitepress/stats.data.ts:8-64 | throws exactly when visiting some tool's standards does; otherwise the tool and category figures, and no standards exactly when no tool lists any |
| `Stats.NoStandardsIff` | docs/.vitepress/stats.data.ts:47-56 | the standards total is zero exactly when every tool's `standards` is not a non-empty array |
| `CoreSidebar.CategoryItems` | docs/.vitepress/core/config/sidebar.ts:39-46 | one item per registry category, in order, its title followed by the badge with the slug's number of occurrences, linking to `/categories/<slug>` |
| `CoreSidebar.StandardCounts` | docs/.vitepress/core/config/sidebar.ts:54-71 | throws exactly when visiting some tool's standards does; otherwise an entry for exactly the visited standards, each holding its positive number of references |
| `CoreSidebar.RowLeqIsTotalOrder` | docs/.vitepress/core/config/sidebar.ts:95-102 | the comparator is a total, transitive order |
| `CoreSidebar.Rows` | docs/.vitepress/core/config/sidebar.ts:84-92 | one row per registry standard, in key order |
| `CoreSidebar.SortedRows` | docs/.vitepress/core/config/sidebar.ts:79-102 | throws exactly when counting the standards does |
| `CoreSidebar.SortedRowsSpec` | docs/.vitepress/core/config/sidebar.ts:84-102 | a permutation of the registry's rows, each with its reference count; endorsed standards first, and titles in order within each group |
| `CoreSidebar.StandardItem` | docs/.vitepress/core/config/sidebar.ts:104-107 | a standard's item links to `/standards/<slug>`, its text starts with the endorsed mark and the title and ends with the count badge |
| `CoreSidebar.StandardItems` | docs/.vitepress/core/config/sidebar.ts:79-108 | throws exactly when counting does; otherwise one item per registry standard, item i rendering sorted row i, so endorsed first and then in title order |
| `CoreSidebar.ToolsSidebar` | docs/.vitepress/core/config/sidebar.ts:116-132 | two sections, the first holding the category items |
| `CoreSidebar.CategoriesSidebar` | docs/.vitepress/core/config/sidebar.ts:140-163 | throws exactly when counting does; otherwise three expanded sections `Tools`, `By Category` (the category items) and `By Standard` (exactly the standard items) |
| `LegacySidebar.CategoryItems` | docs/.vitepress/sidebar.ts:28-35 | one `Title (n)` item per registry category, in order, with the slug's number of occurrences |
| `LegacySidebar.ToolsSidebar` | docs/.vitepress/sidebar.ts:38-54 | two sections, the first holding the category items |
| `LegacySidebar.CategoriesSidebar` | docs/.vitepress/sidebar.ts:57-67 | a single section `Tool Categories`: an overview item, then the category items |

## Left out

- File-system reads and listing order are inputs: a listing is a sequence of `SourceFile` records.
- YAML parsing is the parameter `yaml`, a partial function. It yields a mapping or `null`; a document that is a scalar or a sequence has none of the fields the loaders read and is given as the empty mapping. The registries loaded from YAML are parameters: `standards.yaml` for the sidebar and the tag resolver, and `blogTags.yaml`.
- `core/validation/tools`, the validator the core tool loader calls, is not part of this model. The core loader takes its verdict, or its throwing, as the parameter `validate`.
- `core/metadata/categories` and `core/metadata/standards` are not part of this model. Their registries are parameters of the resolver and the sidebar.
- `console.error` output is modelled only as the `Log` and `Abort` dispatch values. The loaders' "Skipping tool" lines are left out.
- JavaScript numbers are integers here. `NaN` time stamps from invalid blog dates are left out. An invalid `publishDate` is `None` and is kept.
- `Date.now()`, `formatDate`, `new Date(...).getTime()` and `VITE_PREVIEW_MODE` are the parameters `now`, `formatDate`, `timeOf` and `preview`. The locale date string is not modelled.
- `String.prototype.localeCompare` and the default `sort` order are approximated by code-point order (`StrLeq`). `sort()` compares UTF-16 code units, so the two orders agree only on characters of the Basic Multilingual Plane: a character above U+FFFF (a surrogate pair) sorts before U+E000..U+FFFF in the source and after them here. This affects the key lists in the "Unknown standards" and "Unknown categories" messages and the title order of `CoreSidebar.SortedRowsSpec`.
- `toLowerCase` is ASCII only. Unicode case mappings such as U+0130 and U+212A are not modelled, and `\w` is `[A-Za-z0-9_]`.
- Property keys that clash with `Object.prototype` names (`constructor`, `toString`) are not modelled. Every lookup is an own-property lookup.
- Each sidebar function loads the tools again. The model takes one tool list for all of them, since the loads see the same directory.
- A standard's `title` in `standards.yaml` is taken to be a string; a non-string title is not modelled.
- A blog tag's entry is taken to have a string `title`; an entry that is `null` or has no `title`, for which `getBlogTagTitle` also falls back to the slug, is not modelled.
- `StandardMetadata.Lookup`: with a repeated key it finds the first entry, where a JavaScript object literal keeps the last. TypeScript rejects repeated keys in a literal, and `StandardMetadata.ShippedKeysDistinct` shows the shipped map has none.
- YAML arrays are modelled as arrays of strings, as the records' declared types say. Lists holding numbers, `null` or mappings (`categories: [1]`) are not modelled.
- `Blog.CoreTransform`: its own contract states only the length bound. Order, membership and permutation are stated by `Blog.CoreTransformSpec`.
- `Blog.LegacyTransform`: its own contract states only the length bound. Its output equals the core one by `Blog.TransformsAgree`.
- `CoreSidebar.SortedRows`: its own contract states only when it throws. The order and contents are stated by `CoreSidebar.SortedRowsSpec`.
- `CoreSidebar.ToolsSidebar` and `LegacySidebar.ToolsSidebar` do not state the fixed featured-tool items.
- The markdown plugins, theme code, build hooks and `standardDetails.data.ts` are outside the metadata-integrity layer.
