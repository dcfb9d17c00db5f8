/** The kebab-case slug check shared, in three textual copies, by the category
    and standard validators. Four independent tests run on every slug and none
    stops the others; each failing test contributes one error. */
module SlugFormat {
  import opened Text
  import opened Validation

  /** The four tests, in the order they run. */
  datatype SlugCheck = NotLowercase | InvalidCharacters | EdgeHyphen | ConsecutiveHyphens

  /** A character of the class `[a-z0-9-]`. */
  predicate IsSlugChar(c: char) {
    IsAsciiLower(c) || IsDigit(c) || c == '-'
  }

  predicate IsAlnum(c: char) {
    IsAsciiLower(c) || IsDigit(c)
  }

  /** `/[^a-z0-9-]/.test(slug)`. */
  predicate HasInvalidChar(slug: string) {
    exists i :: 0 <= i < |slug| && !IsSlugChar(slug[i])
  }

  /** The tests that fail on `slug`, in order. */
  function FailedChecks(slug: string): (r: seq<SlugCheck>)
    ensures |r| <= 4
    ensures NotLowercase in r <==> slug != ToLower(slug)
    ensures InvalidCharacters in r <==> HasInvalidChar(slug)
    ensures EdgeHyphen in r <==> StartsWith(slug, "-") || EndsWith(slug, "-")
    ensures ConsecutiveHyphens in r <==> Includes(slug, "--")
  {
    (if slug != ToLower(slug) then [NotLowercase] else [])
    + (if HasInvalidChar(slug) then [InvalidCharacters] else [])
    + (if StartsWith(slug, "-") || EndsWith(slug, "-") then [EdgeHyphen] else [])
    + (if Includes(slug, "--") then [ConsecutiveHyphens] else [])
  }

  /** The message of a failed test, for a validator whose entity is `noun`. */
  function Message(noun: string, slug: string, check: SlugCheck): string {
    var subject := noun + " slug '" + slug + "' ";
    match check
    case NotLowercase => subject + "must be lowercase"
    case InvalidCharacters =>
      subject + "contains invalid characters (only lowercase letters, numbers, and hyphens allowed)"
    case EdgeHyphen => subject + "cannot start or end with a hyphen"
    case ConsecutiveHyphens => subject + "contains consecutive hyphens (use single hyphens)"
  }

  /** One error-severity entry against `field` per failed test, in test order. */
  function SlugErrors(slug: string, field: string, noun: string): (r: seq<ValidationError>)
    ensures |r| == |FailedChecks(slug)| <= 4
    ensures AllErrors(r)
    ensures forall i :: 0 <= i < |r| ==>
      r[i].field == field && r[i].message == Message(noun, slug, FailedChecks(slug)[i])
  {
    var checks := FailedChecks(slug);
    seq(|checks|, i requires 0 <= i < |checks| => ValidationError(field, Message(noun, slug, checks[i]), Error))
  }

  /** The language `^[a-z0-9]+(-[a-z0-9]+)*$`, read one character at a time
      from position `i`: an alphanumeric, then either the end, or the rest of the
      word, or a single hyphen that starts a new word. */
  predicate KebabFrom(s: string, i: nat)
    decreases |s| - i
  {
    i < |s| && IsAlnum(s[i])
    && (i + 1 == |s|
        || (IsAlnum(s[i + 1]) && KebabFrom(s, i + 1))
        || (s[i + 1] == '-' && i + 2 < |s| && KebabFrom(s, i + 2)))
  }

  /** `s` is a canonical kebab-case slug. */
  predicate Kebab(s: string) {
    KebabFrom(s, 0)
  }

  /** `slug.includes('--')` in terms of adjacent positions. */
  lemma IncludesDoubleHyphen(s: string)
    ensures Includes(s, "--") <==> exists i :: 0 <= i < |s| - 1 && s[i] == '-' && s[i + 1] == '-'
  {
    if Includes(s, "--") {
      var i :| 0 <= i <= |s| && OccursAt(s, "--", i);
      assert s[i..i + 2][0] == s[i] && s[i..i + 2][1] == s[i + 1];
    }
    if exists i :: 0 <= i < |s| - 1 && s[i] == '-' && s[i + 1] == '-' {
      var i :| 0 <= i < |s| - 1 && s[i] == '-' && s[i + 1] == '-';
      assert s[i..i + 2] == "--";
      assert OccursAt(s, "--", i);
    }
  }

  /** The conditions the four tests ask for, stated positionally. */
  predicate Clean(s: string) {
    && (forall i :: 0 <= i < |s| ==> IsSlugChar(s[i]))
    && (|s| > 0 ==> s[0] != '-' && s[|s| - 1] != '-')
    && (forall i :: 0 <= i < |s| - 1 ==> !(s[i] == '-' && s[i + 1] == '-'))
  }

  /** The four tests pass exactly on the `Clean` strings. */
  lemma NoFailureIffClean(s: string)
    ensures FailedChecks(s) == [] <==> Clean(s)
  {
    IncludesDoubleHyphen(s);
    ToLowerFixedIffNoUpper(s);
    if Clean(s) {
      forall i | 0 <= i < |s|
        ensures !IsAsciiUpper(s[i])
      {
        assert IsSlugChar(s[i]);
      }
      assert !StartsWith(s, "-") by {
        if |s| > 0 { assert s[..1][0] == s[0]; }
      }
      assert !EndsWith(s, "-") by {
        if |s| > 0 { assert s[|s| - 1..][0] == s[|s| - 1]; }
      }
    }
    if FailedChecks(s) == [] && |s| > 0 {
      assert s[..1] != "-";
      assert s[|s| - 1..] != "-";
      assert s[..1][0] == s[0];
      assert s[|s| - 1..][0] == s[|s| - 1];
    }
  }

  /** A non-empty suffix is in the kebab-case language exactly when it is `Clean`. */
  lemma {:induction false} KebabFromIffClean(s: string, i: nat)
    requires i < |s|
    ensures KebabFrom(s, i) <==> Clean(s[i..])
    decreases |s| - i
  {
    var t := s[i..];
    if i + 1 == |s| {
      return;
    }
    KebabFromIffClean(s, i + 1);
    assert s[i + 1..] == t[1..];
    assert forall k :: 0 <= k < |t| - 1 ==> t[1..][k] == t[k + 1];
    if i + 2 < |s| {
      KebabFromIffClean(s, i + 2);
      assert s[i + 2..] == t[2..];
      assert forall k :: 0 <= k < |t| - 2 ==> t[2..][k] == t[k + 2];
    }
    if Clean(t) {
      assert IsSlugChar(t[0]) && t[0] != '-';
      if t[1] == '-' {
        assert t[2] != '-';
      }
    }
  }

  lemma KebabIffClean(s: string)
    requires |s| > 0
    ensures Kebab(s) <==> Clean(s)
  {
    KebabFromIffClean(s, 0);
    assert s[0..] == s;
  }

  /** Two kebab-case slugs joined by a hyphen form a kebab-case slug. */
  lemma KebabJoin(a: string, b: string)
    requires Kebab(a) && Kebab(b)
    ensures Kebab(a + "-" + b)
  {
    var s := a + "-" + b;
    KebabIffClean(a);
    KebabIffClean(b);
    forall i | 0 <= i < |s| - 1
      ensures !(s[i] == '-' && s[i + 1] == '-')
    {
      if i < |a| - 1 {
        assert s[i] == a[i] && s[i + 1] == a[i + 1];
      } else if i == |a| - 1 {
        assert s[i] == a[|a| - 1];
      } else if i == |a| {
        assert s[i + 1] == b[0];
      } else {
        assert s[i] == b[i - |a| - 1] && s[i + 1] == b[i - |a|];
      }
    }
    forall i | 0 <= i < |s|
      ensures IsSlugChar(s[i])
    {
      if i < |a| {
        assert s[i] == a[i];
      } else if i > |a| {
        assert s[i] == b[i - |a| - 1];
      }
    }
    assert s[0] == a[0] && s[|s| - 1] == b[|b| - 1];
    KebabIffClean(s);
  }

  /** The four tests all pass exactly on the empty string and on the canonical
      kebab-case slugs `^[a-z0-9]+(-[a-z0-9]+)*$`. */
  lemma NoErrorsIffKebab(s: string, field: string, noun: string)
    ensures SlugErrors(s, field, noun) == [] <==> s == "" || Kebab(s)
  {
    NoFailureIffClean(s);
    if |s| > 0 {
      KebabIffClean(s);
    }
  }

  /** An upper-case letter fails both the lowercase test and the character-class
      test, so it always costs at least two errors. */
  lemma UppercaseFailsTwice(s: string, i: nat)
    requires i < |s| && IsAsciiUpper(s[i])
    ensures NotLowercase in FailedChecks(s) && InvalidCharacters in FailedChecks(s)
    ensures |FailedChecks(s)| >= 2
  {
    ToLowerFixedIffNoUpper(s);
    assert !IsSlugChar(s[i]);
  }

  /** `items.forEach(slug => errors.push(...validateSlug(slug)))`: the slug
      errors of every entry, concatenated in entry order. */
  function SlugErrorsEach(items: seq<string>, field: string, noun: string): (r: seq<ValidationError>)
    ensures AllErrors(r)
    ensures forall e :: e in r ==> e.field == field
    ensures |r| <= 4 * |items|
    ensures r == [] <==> forall i :: 0 <= i < |items| ==> FailedChecks(items[i]) == []
  {
    if |items| == 0 then []
    else
      var rest := SlugErrorsEach(items[1..], field, noun);
      assert forall i :: 1 <= i < |items| ==> items[i] == items[1..][i - 1];
      SlugErrors(items[0], field, noun) + rest
  }
}
