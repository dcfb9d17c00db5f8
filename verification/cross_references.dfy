/** The cross-reference checks a registry entry's related-list and a tool's
    `standards` list go through: shape, unknown entries, duplicates and the
    slug format of every entry. The wording differs between the copies, so it is
    a parameter. */
module CrossReferences {
  import opened Text
  import opened Seqs
  import opened Sorting
  import opened Js
  import opened Validation
  import SlugFormat

  /** `Array.from(new Set(known)).sort().join(', ')`: the distinct known keys in code-point order. */
  function SortedList(known: seq<string>): string {
    Join(Sort(Dedup(known), StrLeq), ", ")
  }

  lemma StrLeqIsTotalOrder()
    ensures Total(StrLeq) && Transitive(StrLeq)
  {
    forall a: string, b: string
      ensures StrLeq(a, b) || StrLeq(b, a)
    {
      StrLeqTotal(a, b);
    }
    forall a: string, b: string, c: string | StrLeq(a, b) && StrLeq(b, c)
      ensures StrLeq(a, c)
    {
      StrLeqTransitive(a, b, c);
    }
  }

  /** The words one registry uses in its related-list messages. */
  datatype Wording = Wording(
    noun: string,          // "Standard" / "Category"
    field: string,         // "related_standards" / "related"
    listName: string,      // "related_standards" / "related categories"
    plural: string,        // "standards" / "categories"
    slugField: string,     // field of the slug-format errors: "standards" / "slug"
    selfCheck: bool)       // whether an entry may not list itself

  function NotArrayMessage(w: Wording, slug: string): string {
    w.noun + " '" + slug + "' has invalid '" + w.field + "' field - must be an array"
  }

  function UnknownMessage(w: Wording, slug: string, unknown: seq<string>, known: seq<string>): string {
    w.noun + " '" + slug + "' has invalid " + w.listName + ": " + Join(unknown, ", ")
      + "\n   Valid " + w.plural + " are: " + SortedList(known)
  }

  function SelfMessage(w: Wording, slug: string): string {
    w.noun + " '" + slug + "' cannot reference itself in " + w.listName
  }

  function DuplicateMessage(w: Wording, slug: string, items: seq<string>): string {
    w.noun + " '" + slug + "' has duplicate " + w.listName + ": " + Join(DuplicateList(items), ", ")
  }

  function FormatPrefix(w: Wording, slug: string): string {
    w.noun + " '" + slug + "' " + w.field + ": "
  }

  /** The entries whose conditions hold, in order: the shape of a run of
      independent `if (cond) errors.push(entry)` statements. */
  function Present<T>(ca: bool, a: T, cb: bool, b: T, cc: bool, c: T): (r: seq<T>)
    ensures |r| == (if ca then 1 else 0) + (if cb then 1 else 0) + (if cc then 1 else 0)
    ensures forall i :: 0 <= i < |r| ==> (ca && r[i] == a) || (cb && r[i] == b) || (cc && r[i] == c)
    ensures ca ==> r[0] == a
    ensures cb ==> r[if ca then 1 else 0] == b
    ensures cc ==> r[|r| - 1] == c
  {
    (if ca then [a] else []) + (if cb then [b] else []) + (if cc then [c] else [])
  }

  /** The entry-level checks of an array related-list, in this order: one
      error listing every unknown entry, one for a self-reference where the
      registry checks it, and one listing every duplicated entry once. */
  function RelatedListErrors(w: Wording, slug: string, items: seq<string>, known: seq<string>): (r: seq<ValidationError>)
    ensures forall i :: 0 <= i < |r| ==> r[i].field == w.field && r[i].severity == Error
    ensures |r| == (if Outside(items, known) != [] then 1 else 0)
      + (if w.selfCheck && slug in items then 1 else 0)
      + (if Distinct(items) then 0 else 1)
    ensures Outside(items, known) != [] ==>
      r[0] == ValidationError(w.field, UnknownMessage(w, slug, Outside(items, known), known), Error)
    ensures w.selfCheck && slug in items ==>
      r[if Outside(items, known) != [] then 1 else 0] == ValidationError(w.field, SelfMessage(w, slug), Error)
    ensures !Distinct(items) ==> r[|r| - 1] == ValidationError(w.field, DuplicateMessage(w, slug, items), Error)
  {
    var unknown := Outside(items, known);
    var unknownEntry := ValidationError(w.field, UnknownMessage(w, slug, unknown, known), Error);
    var selfEntry := ValidationError(w.field, SelfMessage(w, slug), Error);
    var duplicateEntry := ValidationError(w.field, DuplicateMessage(w, slug, items), Error);
    Present(unknown != [], unknownEntry, w.selfCheck && slug in items, selfEntry, !Distinct(items), duplicateEntry)
  }

  /** The slug-format errors of every entry, each message prefixed by its owner. */
  function OwnedFormatErrors(w: Wording, slug: string, items: seq<string>): (r: seq<ValidationError>)
    ensures AllErrors(r)
    ensures |r| == |SlugFormat.SlugErrorsEach(items, w.slugField, w.noun)|
    ensures forall i :: 0 <= i < |r| ==> StartsWith(r[i].message, FormatPrefix(w, slug))
  {
    var formats := SlugFormat.SlugErrorsEach(items, w.slugField, w.noun);
    var r := Prefixed(formats, FormatPrefix(w, slug));
    forall i | 0 <= i < |r|
      ensures r[i].severity == Error && StartsWith(r[i].message, FormatPrefix(w, slug))
    {
      assert formats[i] in formats;
      StartsWithConcat(FormatPrefix(w, slug), formats[i].message);
    }
    r
  }

  /** The checks of a related-list `related` owned by entry `slug`, against the
      registry keys `known`: nothing when the list is absent or falsy; one error
      when it is not an array; otherwise the list-level errors followed by the
      owner-prefixed slug-format errors of every entry. */
  function RelatedErrors(w: Wording, slug: string, related: Value, known: seq<string>): (r: seq<ValidationError>)
    ensures AllErrors(r)
    ensures !Truthy(related) ==> r == []
    ensures Truthy(related) && !related.Arr? ==> r == [ValidationError(w.field, NotArrayMessage(w, slug), Error)]
    ensures related.Arr? ==>
      r == RelatedListErrors(w, slug, related.items, known) + OwnedFormatErrors(w, slug, related.items)
  {
    match related
    case Arr(items) => ArrayErrors(w, slug, items, known)
    case _ => if Truthy(related) then [ValidationError(w.field, NotArrayMessage(w, slug), Error)] else []
  }

  /** The checks of an array related-list: the entry-level errors, then the
      slug-format errors, all of severity `error`. */
  function ArrayErrors(w: Wording, slug: string, items: seq<string>, known: seq<string>): (r: seq<ValidationError>)
    ensures AllErrors(r)
    ensures r == RelatedListErrors(w, slug, items, known) + OwnedFormatErrors(w, slug, items)
  {
    var listed := RelatedListErrors(w, slug, items, known);
    var formats := OwnedFormatErrors(w, slug, items);
    AllErrorsConcat(listed, formats);
    listed + formats
  }

  /** Every entry is empty or canonical kebab-case. */
  predicate AllWellFormed(items: seq<string>) {
    forall i :: 0 <= i < |items| ==> items[i] == "" || SlugFormat.Kebab(items[i])
  }

  lemma SlugErrorsEachEmptyIff(items: seq<string>, field: string, noun: string)
    ensures SlugFormat.SlugErrorsEach(items, field, noun) == [] <==> AllWellFormed(items)
  {
    forall i | 0 <= i < |items|
      ensures SlugFormat.FailedChecks(items[i]) == [] <==> items[i] == "" || SlugFormat.Kebab(items[i])
    {
      SlugFormat.NoErrorsIffKebab(items[i], field, noun);
    }
  }

  lemma ListErrorsEmptyIff(w: Wording, slug: string, items: seq<string>, known: seq<string>)
    ensures RelatedListErrors(w, slug, items, known) == [] <==>
      && (forall i :: 0 <= i < |items| ==> items[i] in known)
      && (w.selfCheck ==> slug !in items)
      && Distinct(items)
  {
    HasDuplicatesIffListed(items);
    DedupShorterIffRepeat(items);
    OutsideEmptyIff(items, known);
  }

  /** An array related-list raises nothing exactly when every entry is a known
      key, the owner is not listed where self-reference is checked, no entry
      repeats, and every entry is a canonical slug. */
  lemma RelatedCleanIff(w: Wording, slug: string, items: seq<string>, known: seq<string>)
    ensures RelatedErrors(w, slug, Arr(items), known) == [] <==>
      && (forall i :: 0 <= i < |items| ==> items[i] in known)
      && (w.selfCheck ==> slug !in items)
      && Distinct(items)
      && AllWellFormed(items)
  {
    ListErrorsEmptyIff(w, slug, items, known);
    SlugErrorsEachEmptyIff(items, w.slugField, w.noun);
    var listed := RelatedListErrors(w, slug, items, known);
    var formats := OwnedFormatErrors(w, slug, items);
    assert |listed + formats| == |listed| + |formats|;
  }

  function UnknownStandardsMessage(unknown: seq<string>, known: seq<string>, hint: string): string {
    "Unknown standards: " + Join(unknown, ", ") + "\n   Valid standards are: " + SortedList(known) + "\n   " + hint
  }

  function DuplicateStandardsMessage(items: seq<string>): string {
    "Duplicate standards found: " + Join(DuplicateList(items), ", ")
  }

  /** The entry-level checks of a tool's non-empty `standards` list, in this
      order: one error listing the unknown entries with the registry's keys and
      `hint`, one listing every duplicated entry once. */
  function ToolListErrors(items: seq<string>, known: seq<string>, hint: string): (r: seq<ValidationError>)
    ensures forall i :: 0 <= i < |r| ==> r[i].field == "standards" && r[i].severity == Error
    ensures |r| == (if Outside(items, known) != [] then 1 else 0) + (if Distinct(items) then 0 else 1)
    ensures Outside(items, known) != [] ==>
      r[0] == ValidationError("standards", UnknownStandardsMessage(Outside(items, known), known, hint), Error)
    ensures !Distinct(items) ==> r[|r| - 1] == ValidationError("standards", DuplicateStandardsMessage(items), Error)
  {
    var unknown := Outside(items, known);
    var unknownEntry := ValidationError("standards", UnknownStandardsMessage(unknown, known, hint), Error);
    var duplicateEntry := ValidationError("standards", DuplicateStandardsMessage(items), Error);
    (if unknown != [] then [unknownEntry] else []) + (if Distinct(items) then [] else [duplicateEntry])
  }

  const NotArrayStandards := ValidationError("standards", "Field \"standards\" must be an array", Error)
  const EmptyStandards :=
    ValidationError("standards", "Standards array is empty - tool will not appear in any standard page", Warning)

  /** `validateStandards(tool)` against the registry keys `known`: nothing for an
      absent or falsy list, one error for a non-array, one warning for an empty
      array, and otherwise the list-level errors followed by the slug-format
      errors of every entry. */
  function StandardsErrors(standards: Value, known: seq<string>, hint: string): (r: seq<ValidationError>)
    ensures !Truthy(standards) ==> r == []
    ensures Truthy(standards) && !standards.Arr? ==> r == [NotArrayStandards]
    ensures standards == Arr([]) ==> r == [EmptyStandards]
    ensures standards.Arr? && standards.items != [] ==>
      && AllErrors(r)
      && r == ToolListErrors(standards.items, known, hint) + SlugFormat.SlugErrorsEach(standards.items, "standards", "Standard")
  {
    if !Truthy(standards) then []
    else if !standards.Arr? then [NotArrayStandards]
    else if |standards.items| == 0 then [EmptyStandards]
    else
      var listed := ToolListErrors(standards.items, known, hint);
      var formats := SlugFormat.SlugErrorsEach(standards.items, "standards", "Standard");
      AllErrorsConcat(listed, formats);
      listed + formats
  }

  lemma ToolListEmptyIff(items: seq<string>, known: seq<string>, hint: string)
    ensures ToolListErrors(items, known, hint) == [] <==>
      (forall i :: 0 <= i < |items| ==> items[i] in known) && Distinct(items)
  {
    HasDuplicatesIffListed(items);
    DedupShorterIffRepeat(items);
    OutsideEmptyIff(items, known);
  }

  /** A non-empty array list raises nothing exactly when every entry is a known
      key, none repeats, and every entry is a canonical slug. */
  lemma StandardsCleanIff(items: seq<string>, known: seq<string>, hint: string)
    requires items != []
    ensures StandardsErrors(Arr(items), known, hint) == [] <==>
      && (forall i :: 0 <= i < |items| ==> items[i] in known)
      && Distinct(items)
      && AllWellFormed(items)
  {
    var listed := ToolListErrors(items, known, hint);
    var formats := SlugFormat.SlugErrorsEach(items, "standards", "Standard");
    assert |StandardsErrors(Arr(items), known, hint)| == |listed| + |formats|;
    ToolListEmptyIff(items, known, hint);
    SlugErrorsEachEmptyIff(items, "standards", "Standard");
  }

  /** Only duplicates and slug format can fault a list of known keys; the list is
      then never reported as unknown. */
  lemma KnownListHasNoUnknownError(items: seq<string>, known: seq<string>, hint: string)
    requires forall i :: 0 <= i < |items| ==> items[i] in known
    ensures |ToolListErrors(items, known, hint)| == (if Distinct(items) then 0 else 1)
  {
    HasDuplicatesIffListed(items);
    DedupShorterIffRepeat(items);
    OutsideEmptyIff(items, known);
  }
}
