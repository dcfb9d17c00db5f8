/** `parseFrontMatter`, shared verbatim by both tool loaders: the pattern
    `^---\r?\n([\s\S]*?)\r?\n---\r?\n([\s\S]*)$` splits a file into its YAML
    block and the markdown after it. YAML parsing itself is a parameter that may
    fail. */
module FrontMatter {
  import opened Text
  import opened Js
  import opened Optional

  /** What `parseYaml` returns for a block: a mapping, or `null` for a block
      with no content (empty, or comments only). A scalar or a sequence has
      none of the fields the loaders read and is given as the empty mapping. */
  datatype Document = Mapping(fields: Record) | NullDocument

  /** No front matter: the `{}` both failure paths return. */
  const NoData := Mapping(map[])

  /** `parseYaml` on a block: the document it denotes, or `None` when it throws. */
  type YamlParser = string -> Option<Document>

  /** The length of the opening line `---\r?\n`, or 0 when the file does not
      start with one. */
  function Opening(content: string): (n: nat)
    ensures n == 0 || n == 4 || n == 5
    ensures n == 4 <==> StartsWith(content, "---\n")
    ensures n == 5 <==> StartsWith(content, "---\r\n")
  {
    if StartsWith(content, "---\n") then
      assert content[3] == content[..4][3] == '\n';
      4
    else if StartsWith(content, "---\r\n") then 5
    else 0
  }

  /** The length of the closing delimiter `\r?\n---\r?\n` starting at `p`, or 0.
      A delimiter starts with a carriage return, or with a newline and three
      hyphens. */
  function Closing(content: string, p: nat): (n: nat)
    ensures n == 0 || (5 <= n <= 7 && p + n <= |content|)
    ensures n > 0 ==> content[p] == '\r' || (content[p] == '\n' && content[p + 1..p + 4] == "---")
  {
    if OccursAt(content, "\n---\n", p) then
      NewlineHyphens(content, "\n---\n", p);
      5
    else if OccursAt(content, "\n---\r\n", p) then
      NewlineHyphens(content, "\n---\r\n", p);
      6
    else if OccursAt(content, "\r\n---\n", p) then
      OccursAtChars(content, "\r\n---\n", p);
      6
    else if OccursAt(content, "\r\n---\r\n", p) then
      OccursAtChars(content, "\r\n---\r\n", p);
      7
    else 0
  }

  /** A pattern occurring at `p` fixes the characters from `p` on. */
  lemma OccursAtChars(s: string, pat: string, p: nat)
    requires OccursAt(s, pat, p)
    ensures forall k :: 0 <= k < |pat| ==> s[p + k] == pat[k]
  {
    forall k | 0 <= k < |pat|
      ensures s[p + k] == pat[k]
    {
      assert s[p..p + |pat|][k] == s[p + k];
    }
  }

  /** A pattern that starts with a newline and three hyphens puts them at `p`. */
  lemma NewlineHyphens(s: string, pat: string, p: nat)
    requires |pat| >= 4 && pat[..4] == "\n---" && OccursAt(s, pat, p)
    ensures s[p] == '\n' && s[p + 1..p + 4] == "---"
  {
    OccursAtChars(s, pat, p);
    assert pat[0] == '\n' && pat[1] == '-' && pat[2] == '-' && pat[3] == '-' by {
      assert pat[..4][0] == pat[0] && pat[..4][1] == pat[1] && pat[..4][2] == pat[2] && pat[..4][3] == pat[3];
    }
    assert s[p + 1..p + 4] == [s[p + 1], s[p + 2], s[p + 3]];
  }

  /** The lazy group: the first position at or after `from` where a closing
      delimiter starts, or -1. */
  function FirstClosing(content: string, from: nat): (r: int)
    requires from <= |content|
    ensures r == -1 || (from <= r < |content| && Closing(content, r) > 0)
    ensures forall j :: from <= j < |content| && Closing(content, j) > 0 ==> r != -1 && r <= j
    decreases |content| - from
  {
    if from == |content| then -1
    else if Closing(content, from) > 0 then from
    else FirstClosing(content, from + 1)
  }

  /** The two groups of a match: the YAML block and the markdown body. */
  function Split(content: string): (r: Option<(string, string)>)
    ensures r.None? <==> Opening(content) == 0 || FirstClosing(content, Opening(content)) == -1
    ensures r.Some? ==>
      var p := FirstClosing(content, Opening(content));
      && r.value.0 == content[Opening(content)..p]
      && r.value.1 == content[p + Closing(content, p)..]
  {
    var open := Opening(content);
    if open == 0 then None
    else
      var p := FirstClosing(content, open);
      if p == -1 then None
      else Some((content[open..p], content[p + Closing(content, p)..]))
  }

  /** A match takes the file apart without losing a character: opening line,
      YAML block, closing delimiter, body. */
  lemma SplitCoversContent(content: string)
    requires Split(content).Some?
    ensures var p := FirstClosing(content, Opening(content));
      content == content[..Opening(content)] + Split(content).value.0 + content[p..p + Closing(content, p)]
        + Split(content).value.1
  {
    var open := Opening(content);
    var p := FirstClosing(content, open);
    var close := Closing(content, p);
    assert content == content[..open] + content[open..p] + content[p..p + close] + content[p + close..];
  }

  datatype Parsed = Parsed(data: Document, body: string)

  /** `parseFrontMatter(content)`: without a match, no data and the content
      unchanged; with one, whatever the block parses to, `null` included (no
      data when parsing throws), and the body after the closing delimiter. */
  function ParseFrontMatter(content: string, yaml: YamlParser): (r: Parsed)
    ensures Split(content).None? ==> r == Parsed(NoData, content)
    ensures Split(content).Some? ==> r.body == Split(content).value.1
    ensures Split(content).Some? && yaml(Split(content).value.0).None? ==> r.data == NoData
    ensures Split(content).Some? && yaml(Split(content).value.0).Some? ==> r.data == yaml(Split(content).value.0).value
  {
    match Split(content)
    case None => Parsed(NoData, content)
    case Some((block, body)) =>
      match yaml(block)
      case None => Parsed(NoData, body)
      case Some(data) => Parsed(data, body)
  }

  /** The file a writer produces: an opening line, a block, a closing line, a
      body. */
  function Render(block: string, body: string): string {
    "---\n" + block + "\n---\n" + body
  }

  /** A block that has no carriage return and no line starting with `---` is
      read back from the rendered file exactly, and so is the body. */
  lemma SplitRender(block: string, body: string)
    requires forall i :: 0 <= i < |block| ==> block[i] != '\r'
    requires !Includes(block, "\n---")
    ensures Split(Render(block, body)) == Some((block, body))
  {
    var content := Render(block, body);
    var end := 4 + |block|;
    assert StartsWith(content, "---\n") by {
      assert content[..4] == "---\n";
    }
    assert content[end..end + 5] == "\n---\n";
    assert Closing(content, end) == 5;
    NoClosingInBlock(block, body);
    assert FirstClosing(content, 4) == end;
    assert content[4..end] == block;
    assert content[end + 5..] == body;
  }

  /** No closing delimiter starts inside a block without carriage returns or a
      line starting with `---`. */
  lemma NoClosingInBlock(block: string, body: string)
    requires forall i :: 0 <= i < |block| ==> block[i] != '\r'
    requires !Includes(block, "\n---")
    ensures forall j :: 4 <= j < 4 + |block| ==> Closing(Render(block, body), j) == 0
  {
    var content := Render(block, body);
    var end := 4 + |block|;
    forall j | 4 <= j < end
      ensures Closing(content, j) == 0
    {
      assert content[j] == block[j - 4];
      if j + 4 <= end {
        assert content[j..j + 4] == block[j - 4..j];
        assert !OccursAt(block, "\n---", j - 4);
        assert content[j..j + 4] == [content[j]] + content[j + 1..j + 4];
      } else if j + 4 <= |content| {
        assert content[end] == '\n';
        assert content[j + 1..j + 4][end - j - 1] == content[end];
      }
    }
  }

  lemma StartsWithLonger(s: string, longer: string, prefix: string)
    requires StartsWith(longer, prefix)
    ensures StartsWith(s, longer) ==> StartsWith(s, prefix)
  {
    if StartsWith(s, longer) {
      assert s[..|prefix|] == longer[..|prefix|];
    }
  }

  /** A file that does not open with `---` yields no data and is left whole. */
  lemma NoOpeningNoData(content: string, yaml: YamlParser)
    requires !StartsWith(content, "---")
    ensures ParseFrontMatter(content, yaml) == Parsed(NoData, content)
  {
    StartsWithLonger(content, "---\n", "---");
    StartsWithLonger(content, "---\r\n", "---");
  }

  /** A file whose block is empty, `---\n\n---\n` and a body, hands the loader
      whatever the parser makes of the empty block: `null` with `parseYaml`. */
  lemma EmptyBlockData(body: string, yaml: YamlParser)
    requires yaml("") == Some(NullDocument)
    ensures ParseFrontMatter("---\n\n---\n" + body, yaml) == Parsed(NullDocument, body)
  {
    SplitRender("", body);
    assert Render("", body) == "---\n\n---\n" + body;
  }
}
