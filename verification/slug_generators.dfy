/** The character classes and regular-expression replacements the two
    `createSlug` functions are built from. `\w` is `[A-Za-z0-9_]`, as in a
    JavaScript pattern without the `u` flag. */
module SlugText {
  import opened Text

  /** `\w`. */
  predicate IsWordChar(c: char) {
    IsAsciiUpper(c) || IsAsciiLower(c) || IsDigit(c) || c == '_'
  }

  /** What a generated slug may contain: `[a-z0-9_-]`. */
  predicate IsSlugChar(c: char) {
    IsAsciiLower(c) || IsDigit(c) || c == '_' || c == '-'
  }

  predicate AllSlugChars(s: string) {
    forall i :: 0 <= i < |s| ==> IsSlugChar(s[i])
  }

  predicate NoWhitespace(s: string) {
    forall i :: 0 <= i < |s| ==> !IsWhitespace(s[i])
  }

  predicate NoUpper(s: string) {
    forall i :: 0 <= i < |s| ==> !IsAsciiUpper(s[i])
  }

  /** `replace(/\s+/g, '-')`, where `inRun` says the character before `s` was
      white space already replaced: every maximal run of white space becomes
      one hyphen. */
  function DashRuns(s: string, inRun: bool): (r: string)
    ensures NoWhitespace(r)
    ensures forall i :: 0 <= i < |r| ==> r[i] == '-' || r[i] in s
    ensures NoWhitespace(s) ==> r == s
  {
    if |s| == 0 then []
    else if IsWhitespace(s[0]) then (if inRun then "" else "-") + DashRuns(s[1..], true)
    else
      var rest := DashRuns(s[1..], false);
      assert forall i :: 0 <= i < |rest| ==> rest[i] == '-' || rest[i] in s by {
        assert forall c :: c in s[1..] ==> c in s;
      }
      [s[0]] + rest
  }

  function DashWhitespace(s: string): string {
    DashRuns(s, false)
  }

  /** `replace(/[^\w-]/g, '')` (and the same with `+`): every character that is
      neither a word character nor a hyphen is dropped. */
  function KeepWordChars(s: string): (r: string)
    ensures |r| <= |s|
    ensures forall i :: 0 <= i < |r| ==> (IsWordChar(r[i]) || r[i] == '-') && r[i] in s
    ensures (forall i :: 0 <= i < |s| ==> IsWordChar(s[i]) || s[i] == '-') ==> r == s
  {
    if |s| == 0 then []
    else
      var rest := KeepWordChars(s[1..]);
      assert forall c :: c in s[1..] ==> c in s;
      if IsWordChar(s[0]) || s[0] == '-' then [s[0]] + rest else rest
  }

  /** One space between two words becomes one hyphen. */
  lemma {:induction false} DashSingleSpace(a: string, b: string)
    requires NoWhitespace(a) && NoWhitespace(b)
    ensures DashWhitespace(a + " " + b) == a + "-" + b
  {
    if |a| == 0 {
      assert a + " " + b == [' '] + b;
      assert DashRuns([' '] + b, false) == "-" + DashRuns(b, true);
    } else {
      assert (a + " " + b)[1..] == a[1..] + " " + b;
      DashSingleSpace(a[1..], b);
      assert a + "-" + b == [a[0]] + (a[1..] + "-" + b);
    }
  }

  /** `DATEX II` lower-cased. */
  lemma DatexLower()
    ensures ToLower("DATEX II") == "datex ii"
  {
  }

  /** The space in `datex ii` becomes a hyphen. */
  lemma DatexDashed()
    ensures DashWhitespace("datex ii") == "datex-ii"
  {
    DatexWordsPlain();
    assert "datex" + " " + "ii" == "datex ii";
    assert "datex" + "-" + "ii" == "datex-ii";
    DashSingleSpace("datex", "ii");
  }

  lemma DatexWordsPlain()
    ensures NoWhitespace("datex") && NoWhitespace("ii")
  {
    assert AllSlugChars("datex") && AllSlugChars("ii");
    SlugCharsPlain("datex");
    SlugCharsPlain("ii");
  }

  /** A string with only slug characters has no capital and no white space. */
  lemma SlugCharsPlain(s: string)
    requires AllSlugChars(s)
    ensures NoUpper(s) && NoWhitespace(s)
  {
  }

  /** Lower-casing leaves a string without capitals; it changes nothing when
      there were none. */
  lemma LowerFacts(s: string)
    ensures NoUpper(ToLower(s))
    ensures NoUpper(s) ==> ToLower(s) == s
  {
    ToLowerFixedIffNoUpper(s);
  }

  /** The combined effect of the replacements on a lower-cased string: only
      slug characters remain. */
  lemma CleanedIsSlugChars(s: string)
    requires NoUpper(s)
    ensures AllSlugChars(KeepWordChars(DashWhitespace(s)))
  {
    var d := DashWhitespace(s);
    assert NoUpper(d) by {
      forall i | 0 <= i < |d| ensures !IsAsciiUpper(d[i]) {
        if d[i] != '-' {
          var j :| 0 <= j < |s| && s[j] == d[i];
        }
      }
    }
    var k := KeepWordChars(d);
    forall i | 0 <= i < |k| ensures IsSlugChar(k[i]) {
      var j :| 0 <= j < |d| && d[j] == k[i];
    }
  }
}

/** `createSlug` of `utils.ts`: lower-case, white-space runs to hyphens, other
    characters dropped, hyphen runs collapsed, edge hyphens removed. */
module LegacySlug {
  import opened Text
  import opened SlugText

  /** No two adjacent hyphens. */
  predicate NoDoubleHyphen(s: string) {
    forall i :: 0 <= i < |s| - 1 ==> !(s[i] == '-' && s[i + 1] == '-')
  }

  /** A string `createSlug` returns unchanged: slug characters only, no `--`,
      no hyphen at either end. */
  predicate Clean(s: string) {
    AllSlugChars(s) && NoDoubleHyphen(s) && (s == [] || (s[0] != '-' && s[|s| - 1] != '-'))
  }

  /** `replace(/--+/g, '-')`, where `afterHyphen` says the character before
      `s` was a kept hyphen. */
  function CollapseHyphens(s: string, afterHyphen: bool): (r: string)
    ensures NoDoubleHyphen(r)
    ensures afterHyphen ==> r == [] || r[0] != '-'
    ensures forall i :: 0 <= i < |r| ==> r[i] in s
    ensures NoDoubleHyphen(s) && (afterHyphen ==> s == [] || s[0] != '-') ==> r == s
  {
    if |s| == 0 then []
    else
      var rest := CollapseHyphens(s[1..], s[0] == '-');
      assert forall c :: c in s[1..] ==> c in s;
      if s[0] == '-' then
        (if afterHyphen then rest else "-" + rest)
      else
        [s[0]] + rest
  }

  /** `replace(/^-+/, '')`. */
  function DropLeadingHyphens(s: string): (r: string)
    ensures |r| <= |s| && r == s[|s| - |r|..]
    ensures r == [] || r[0] != '-'
    ensures s == [] || s[0] != '-' ==> r == s
  {
    if |s| > 0 && s[0] == '-' then DropLeadingHyphens(s[1..]) else s
  }

  /** `replace(/-+$/, '')`. */
  function DropTrailingHyphens(s: string): (r: string)
    ensures |r| <= |s| && r == s[..|r|]
    ensures r == [] || r[|r| - 1] != '-'
    ensures s == [] || s[|s| - 1] != '-' ==> r == s
  {
    if |s| > 0 && s[|s| - 1] == '-' then DropTrailingHyphens(s[..|s| - 1]) else s
  }

  /** Trimming hyphens off both ends of a string of slug characters without
      `--` leaves a clean string. */
  lemma TrimmedIsClean(s: string)
    requires AllSlugChars(s) && NoDoubleHyphen(s)
    ensures Clean(DropTrailingHyphens(DropLeadingHyphens(s)))
  {
    var a := DropLeadingHyphens(s);
    var b := DropTrailingHyphens(a);
    var k := |s| - |a|;
    forall i | 0 <= i < |b| ensures b[i] == s[k + i] {
      assert b[i] == a[i];
      assert a[i] == s[k..][i];
    }
    assert AllSlugChars(b) by {
      forall i | 0 <= i < |b| ensures IsSlugChar(b[i]) {
        assert b[i] == s[k + i];
      }
    }
    assert NoDoubleHyphen(b) by {
      forall i | 0 <= i < |b| - 1 ensures !(b[i] == '-' && b[i + 1] == '-') {
        assert b[i] == s[k + i] && b[i + 1] == s[k + i + 1];
      }
    }
    if b != [] {
      assert b[0] == a[0];
    }
  }

  /** `createSlug(name)`: the result is clean, that is made of `[a-z0-9_-]`
      only, with no `--` and no hyphen at either end. */
  function CreateSlug(name: string): (slug: string)
    ensures Clean(slug)
  {
    var lower := ToLower(name);
    var kept := KeepWordChars(DashWhitespace(lower));
    var collapsed := CollapseHyphens(kept, false);
    LowerFacts(name);
    CleanedIsSlugChars(lower);
    assert AllSlugChars(collapsed) by {
      forall i | 0 <= i < |collapsed| ensures IsSlugChar(collapsed[i]) {
        var j :| 0 <= j < |kept| && kept[j] == collapsed[i];
      }
    }
    TrimmedIsClean(collapsed);
    DropTrailingHyphens(DropLeadingHyphens(collapsed))
  }

  /** A string is its own slug exactly when it is clean. */
  lemma CreateSlugFixedIffClean(s: string)
    ensures CreateSlug(s) == s <==> Clean(s)
  {
    if Clean(s) {
      SlugCharsPlain(s);
      LowerFacts(s);
      assert ToLower(s) == s;
      assert DashWhitespace(s) == s;
      assert KeepWordChars(s) == s;
      assert CollapseHyphens(s, false) == s;
    }
  }

  /** Slugging a slug changes nothing. */
  lemma CreateSlugIdempotent(s: string)
    ensures CreateSlug(CreateSlug(s)) == CreateSlug(s)
  {
    CreateSlugFixedIffClean(CreateSlug(s));
  }

  /** Once lower-casing and the white-space replacement give a clean string,
      the remaining steps leave it as it is. */
  lemma SlugOfDashed(name: string, slug: string)
    requires DashWhitespace(ToLower(name)) == slug && Clean(slug)
    ensures CreateSlug(name) == slug
  {
    assert KeepWordChars(slug) == slug;
    assert CollapseHyphens(slug, false) == slug;
  }

  lemma DatexClean()
    ensures Clean("datex-ii")
  {
  }

  /** The documented example `DATEX II`. */
  lemma DatexExample()
    ensures CreateSlug("DATEX II") == "datex-ii"
  {
    DatexLower();
    DatexDashed();
    DatexClean();
    SlugOfDashed("DATEX II", "datex-ii");
  }

  /** The documented example `mobilityDCAT-AP`. */
  lemma MobilityDcatExample()
    ensures CreateSlug("mobilityDCAT-AP") == "mobilitydcat-ap"
  {
    assert ToLower("mobilityDCAT-AP") == "mobilitydcat-ap";
    assert NoWhitespace("mobilitydcat-ap");
    assert Clean("mobilitydcat-ap");
    SlugOfDashed("mobilityDCAT-AP", "mobilitydcat-ap");
  }
}

/** `createSlug` of `core/utils/slugify.ts`: lower-case, trim, white-space
    runs to hyphens, other characters dropped. Hyphens already present are
    kept as they are. */
module CoreSlug {
  import opened Text
  import opened SlugText

  /** A string with no white space at either end is its own trim. */
  lemma TrimFixed(s: string)
    requires s == [] || (!IsWhitespace(s[0]) && !IsWhitespace(s[|s| - 1]))
    ensures Trim(s) == s
  {
    assert TrimStart(s) == s;
    assert TrimEnd(s) == s;
  }

  /** Trimming keeps only characters of the original. */
  lemma TrimKeepsChars(s: string)
    ensures forall c :: c in Trim(s) ==> c in s
  {
    var t := TrimStart(s);
    var u := TrimEnd(t);
    forall c | c in u ensures c in s {
      var i :| 0 <= i < |u| && u[i] == c;
      assert u[i] == t[i] == s[|s| - |t| + i];
    }
  }

  /** `createSlug(text)`: only `[a-z0-9_-]` remain. */
  function CreateSlug(text: string): (slug: string)
    ensures AllSlugChars(slug)
  {
    var lower := ToLower(text);
    var trimmed := Trim(lower);
    LowerFacts(text);
    TrimKeepsChars(lower);
    assert NoUpper(trimmed) by {
      forall i | 0 <= i < |trimmed| ensures !IsAsciiUpper(trimmed[i]) {
        assert trimmed[i] in lower;
      }
    }
    CleanedIsSlugChars(trimmed);
    KeepWordChars(DashWhitespace(trimmed))
  }

  /** A string is its own slug exactly when it is made of slug characters, so
      every kebab-case string is fixed, including ones with `--` or an edge
      hyphen. */
  lemma CreateSlugFixedIffSlugChars(s: string)
    ensures CreateSlug(s) == s <==> AllSlugChars(s)
  {
    if AllSlugChars(s) {
      SlugCharsPlain(s);
      LowerFacts(s);
      assert ToLower(s) == s;
      assert s == [] || (!IsWhitespace(s[0]) && !IsWhitespace(s[|s| - 1]));
      TrimFixed(s);
      assert DashWhitespace(s) == s;
      assert KeepWordChars(s) == s;
    }
  }

  /** Slugging a slug changes nothing. */
  lemma CreateSlugIdempotent(s: string)
    ensures CreateSlug(CreateSlug(s)) == CreateSlug(s)
  {
    CreateSlugFixedIffSlugChars(CreateSlug(s));
  }

  /** Once lower-casing, trimming and the white-space replacement give slug
      characters only, dropping the other characters changes nothing. */
  lemma SlugOfDashed(text: string, slug: string)
    requires DashWhitespace(Trim(ToLower(text))) == slug && AllSlugChars(slug)
    ensures CreateSlug(text) == slug
  {
    assert KeepWordChars(slug) == slug;
  }

  /** The documented example `DATEX II`; its slug is its own slug. */
  lemma DatexExample()
    ensures CreateSlug("DATEX II") == "datex-ii"
    ensures CreateSlug("datex-ii") == "datex-ii"
  {
    DatexLower();
    DatexTrimmed();
    DatexDashed();
    DatexSlugChars();
    SlugOfDashed("DATEX II", "datex-ii");
    CreateSlugFixedIffSlugChars("datex-ii");
  }

  lemma DatexTrimmed()
    ensures Trim("datex ii") == "datex ii"
  {
    TrimFixed("datex ii");
  }

  lemma DatexSlugChars()
    ensures AllSlugChars("datex-ii")
  {
  }

  /** Hyphens already present are kept: a spaced hyphen becomes three. */
  lemma SpacedHyphenExample()
    ensures CreateSlug("a - b") == "a---b"
  {
    SpacedLower();
    SpacedTrimmed();
    SpacedHyphenDashed();
    SpacedSlugChars();
    SlugOfDashed("a - b", "a---b");
  }

  lemma SpacedLower()
    ensures ToLower("a - b") == "a - b"
  {
    assert NoUpper("a - b");
    LowerFacts("a - b");
  }

  lemma SpacedTrimmed()
    ensures Trim("a - b") == "a - b"
  {
    TrimFixed("a - b");
  }

  lemma SpacedSlugChars()
    ensures AllSlugChars("a---b")
  {
  }

  /** Each space around the hyphen becomes a hyphen of its own. */
  lemma SpacedHyphenDashed()
    ensures DashWhitespace("a - b") == "a---b"
  {
    DashSpaceHyphenSpaceB();
    assert "a - b" == ['a'] + " - b";
    assert ['a'] + "---b" == "a---b";
  }

  lemma DashSpaceHyphenSpaceB()
    ensures DashRuns(" - b", false) == "---b"
  {
    DashHyphenSpaceB();
    assert " - b" == [' '] + "- b";
    assert "-" + "--b" == "---b";
  }

  lemma DashSpaceB()
    ensures DashRuns(" b", false) == "-b"
  {
    assert " b"[1..] == "b";
  }

  lemma DashHyphenSpaceB()
    ensures DashRuns("- b", true) == "--b"
  {
    assert "- b" == ['-'] + " b";
    DashSpaceB();
  }
}
