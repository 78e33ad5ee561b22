/**
 * The text shown on an author page's idea card (components/AuthorIdeaCard.tsx):
 * the preview of an idea's text or rich-text body, stripped of markdown and
 * truncated.
 */
module TextPreview {
  import opened Wrappers
  import opened JsText
  import opened PortableText

  /** `text.substring(0, maxLength)` when `maxLength < |text|`: a negative bound
      counts as 0. */
  function CutAt(text: string, maxLength: int): (m: nat)
    requires maxLength < |text|
    ensures m <= |text| && (maxLength >= 0 ==> m == maxLength) && (maxLength < 0 ==> m == 0)
  {
    if maxLength < 0 then 0 else maxLength
  }

  /** `truncateText`: a text within the bound comes back unchanged; a longer one
      is cut to its first `maxLength` code units, trimmed, and marked with `...`.
      The result never exceeds the bound by more than the three dots. */
  function TruncateText(text: string, maxLength: int): (r: string)
    ensures |text| <= maxLength ==> r == text
    ensures |text| > maxLength ==>
              && |r| >= 3 && r[|r| - 3..] == "..."
              && |r| <= CutAt(text, maxLength) + 3
              && Trimmed(r[..|r| - 3])
  {
    if |text| <= maxLength then text
    else
      var kept := Trim(text[..CutAt(text, maxLength)]);
      assert (kept + "...")[..|kept|] == kept;
      kept + "..."
  }

  /** Trimming the first `m` code units of `text` keeps a contiguous piece of
      them and cuts off white space only. */
  lemma TrimOfPrefix(text: string, m: nat)
    requires m <= |text|
    ensures var kept := Trim(text[..m]);
            var k := m - |TrimStart(text[..m])|;
            && k + |kept| <= m
            && kept == text[k..k + |kept|]
            && (forall i :: 0 <= i < k ==> IsSpace(text[i]))
            && (forall i :: k + |kept| <= i < m ==> IsSpace(text[i]))
  {
    var cut := text[..m];
    TrimRemovesSpace(cut);
    var kept := Trim(cut);
    var k := m - |TrimStart(cut)|;
    assert kept == cut[k..k + |kept|];
    assert cut[k..k + |kept|] == text[k..k + |kept|];
  }

  /** What precedes the dots of a truncated text is the cut text without the
      white space at its ends; in particular, a text that does not start with
      white space keeps its first code units. */
  lemma TruncatedTextIsPrefix(text: string, maxLength: int)
    requires |text| > maxLength
    ensures var m := CutAt(text, maxLength);
            var r := TruncateText(text, maxLength);
            var shown := r[..|r| - 3];
            var k := m - |TrimStart(text[..m])|;
            && k + |shown| <= m
            && shown == text[k..k + |shown|]
            && (forall i :: 0 <= i < k ==> IsSpace(text[i]))
            && (forall i :: k + |shown| <= i < m ==> IsSpace(text[i]))
            && (text != [] && !IsSpace(text[0]) && m > 0 ==> shown == text[..|shown|])
  {
    var m := CutAt(text, maxLength);
    var r := TruncateText(text, maxLength);
    assert r[..|r| - 3] == Trim(text[..m]);
    TrimOfPrefix(text, m);
  }

  /** Truncating a text without line feeds adds none. */
  lemma NoNewlineSurvivesTruncation(text: string, maxLength: int)
    requires '\n' !in text
    ensures '\n' !in TruncateText(text, maxLength)
  {
    if |text| > maxLength {
      TruncatedTextIsPrefix(text, maxLength);
      var r := TruncateText(text, maxLength);
      assert r == r[..|r| - 3] + "...";
    }
  }

  predicate IsNewline(c: char) {
    c == '\n'
  }

  /** The last two steps of `stripMarkdown`: `.replace(/\n+/g, ' ')` and `trim()`.
      `rewrite` stands for the markdown rewrites that come before them. The result
      holds no line feed and has no white space at either end. */
  function StripMarkdown(text: string, rewrite: string -> string): (r: string)
    ensures '\n' !in r
    ensures Trimmed(r)
  {
    var flat := CollapseRuns(rewrite(text), IsNewline, ' ');
    CollapseRunsKeeps(rewrite(text), IsNewline, ' ', c => c != '\n');
    TrimRemovesSpace(flat);
    Trim(flat)
  }

  /** A text the rewrites leave alone, with no line feed and no white space at its
      ends, is its own stripped form. */
  lemma StripMarkdownFixed(text: string, rewrite: string -> string)
    requires rewrite(text) == text
    requires '\n' !in text && Trimmed(text)
    ensures StripMarkdown(text, rewrite) == text
  {
    CollapseRunsNoRun(text, IsNewline, ' ');
    TrimOfTrimmed(text);
  }

  /** Every run of line feeds between two other code units becomes one space. */
  lemma StripMarkdownJoinsLines(a: string, w: string, b: string, rewrite: string -> string)
    requires rewrite(a + w + b) == a + w + b
    requires a != [] && !IsSpace(a[0]) && '\n' !in a
    requires w != [] && forall i :: 0 <= i < |w| ==> w[i] == '\n'
    requires b != [] && !IsSpace(b[|b| - 1]) && '\n' !in b
    ensures StripMarkdown(a + w + b, rewrite) == a + " " + b
  {
    CollapseRunsSplit(a, w, b, IsNewline, ' ');
    CollapseRunsNoRun(a, IsNewline, ' ');
    CollapseRunsNoRun(b, IsNewline, ' ');
    var s := a + " " + b;
    assert s[0] == a[0] && s[|s| - 1] == b[|b| - 1];
    TrimOfTrimmed(s);
  }

  /** `parts.join(sep)`. */
  function Join(parts: seq<string>, sep: string): string {
    if |parts| == 0 then ""
    else if |parts| == 1 then parts[0]
    else Join(parts[..|parts| - 1], sep) + sep + parts[|parts| - 1]
  }

  /** The texts of the `span` children, in order; a missing `text` joins as the
      empty string. */
  function SpanTexts(children: seq<Span>): seq<string> {
    if children == [] then []
    else
      var last := children[|children| - 1];
      SpanTexts(children[..|children| - 1]) + (if last.typ == "span" then [last.text.GetOr("")] else [])
  }

  /** The text of one block: its span texts joined with nothing between them; a
      block without `children` gives the empty string. */
  function BlockText(b: Block): string {
    match b.children
    case None => ""
    case Some(children) => Join(SpanTexts(children), "")
  }

  /** The texts of the entries of type `block`, in order: one text per such
      entry, and none at all exactly when the body holds no `block`. */
  function BlockTexts(body: seq<Block>): (ts: seq<string>)
    ensures |ts| <= |body|
    ensures ts == [] <==> forall i :: 0 <= i < |body| ==> body[i].typ != "block"
  {
    if body == [] then []
    else
      var last := body[|body| - 1];
      BlockTexts(body[..|body| - 1]) + (if last.typ == "block" then [BlockText(last)] else [])
  }

  /** The raw text of a body: the block texts joined with single spaces. A body
      without any `block` entry has no raw text, and a body of one block has
      that block's text. */
  function RawText(body: seq<Block>): (r: string)
    ensures (forall i :: 0 <= i < |body| ==> body[i].typ != "block") ==> r == ""
    ensures |body| == 1 && body[0].typ == "block" ==> r == BlockText(body[0])
  {
    assert |body| == 1 ==> body[..0] == [];
    Join(BlockTexts(body), " ")
  }

  /** Appending an entry to a body: a `block` adds its text, after a space when
      some block came before; any other entry adds nothing. */
  lemma RawTextAppend(body: seq<Block>, b: Block)
    ensures b.typ != "block" ==> RawText(body + [b]) == RawText(body)
    ensures b.typ == "block" && BlockTexts(body) == [] ==> RawText(body + [b]) == BlockText(b)
    ensures b.typ == "block" && BlockTexts(body) != [] ==> RawText(body + [b]) == RawText(body) + " " + BlockText(b)
  {
    var s := body + [b];
    assert s[..|s| - 1] == body;
    assert s[|s| - 1] == b;
    assert BlockTexts(s) == BlockTexts(body) + (if b.typ == "block" then [BlockText(b)] else []);
    if b.typ != "block" {
      assert BlockTexts(s) == BlockTexts(body);
    }
  }

  /** Appending a child to a block: a `span` adds its text directly, any other
      child adds nothing. */
  lemma BlockTextAppend(children: seq<Span>, c: Span)
    ensures c.typ != "span" ==> BlockText(Block("block", Some(children + [c]))) == BlockText(Block("block", Some(children)))
    ensures c.typ == "span" ==>
              BlockText(Block("block", Some(children + [c]))) == BlockText(Block("block", Some(children))) + c.text.GetOr("")
  {
    var s := children + [c];
    assert s[..|s| - 1] == children;
    assert s[|s| - 1] == c;
    assert SpanTexts(s) == SpanTexts(children) + (if c.typ == "span" then [c.text.GetOr("")] else []);
    if c.typ != "span" {
      assert SpanTexts(s) == SpanTexts(children);
    } else if SpanTexts(children) != [] {
      assert SpanTexts(s)[..|SpanTexts(s)| - 1] == SpanTexts(children);
    }
  }

  /** The idea as the card receives it: an optional plain `text` and an optional
      rich-text `body`. */
  datatype CardIdea = CardIdea(text: Option<string>, body: Option<seq<Block>>, notes: Option<string>)

  /** `getTextPreview`: a non-empty `text` is preferred; otherwise a non-empty
      body gives its raw text; otherwise there is no preview. */
  function GetTextPreview(idea: CardIdea, rewrite: string -> string): (r: string)
    ensures Truthy(idea.text) ==> r == StripMarkdown(idea.text.value, rewrite)
    ensures !Truthy(idea.text) && idea.body.Some? && idea.body.value != [] ==>
              r == StripMarkdown(RawText(idea.body.value), rewrite)
    ensures !Truthy(idea.text) && (idea.body.None? || idea.body.value == []) ==> r == ""
    ensures '\n' !in r && Trimmed(r)
  {
    if Truthy(idea.text) then StripMarkdown(idea.text.value, rewrite)
    else if idea.body.Some? && |idea.body.value| > 0 then StripMarkdown(RawText(idea.body.value), rewrite)
    else ""
  }

  /** An idea created or edited by the server actions has no `text` and a body of
      one block holding its description, so its preview is the description
      stripped of markdown. */
  lemma CreatedIdeaPreview(description: string, notes: Option<string>, rewrite: string -> string)
    ensures GetTextPreview(CardIdea(None, Some(DescriptionBody(description)), notes), rewrite)
         == StripMarkdown(description, rewrite)
  {
    var body := DescriptionBody(description);
    assert body[..0] == [];
    assert BlockTexts(body) == [description] by {
      var children := body[0].children.value;
      assert children[..0] == [];
      assert SpanTexts(children) == [description];
    }
  }

  const DescriptionLimit := 120
  const NotesLimit := 80

  /** The description paragraph of the card, shown only for a non-empty preview,
      truncated to 120 code units. */
  function CardDescription(idea: CardIdea, rewrite: string -> string): (r: Option<string>)
    ensures r.Some? <==> GetTextPreview(idea, rewrite) != ""
    ensures r.Some? ==> r.value != "" && |r.value| <= DescriptionLimit + 3 && '\n' !in r.value
  {
    var preview := GetTextPreview(idea, rewrite);
    if preview == "" then None
    else
      NoNewlineSurvivesTruncation(preview, DescriptionLimit);
      Some(TruncateText(preview, DescriptionLimit))
  }

  /** The notes box of the card, shown only for non-empty notes, stripped and
      truncated to 80 code units. */
  function CardNotes(idea: CardIdea, rewrite: string -> string): (r: Option<string>)
    ensures r.Some? <==> Truthy(idea.notes)
    ensures r.Some? ==> |r.value| <= NotesLimit + 3 && '\n' !in r.value
  {
    if Truthy(idea.notes) then
      var stripped := StripMarkdown(idea.notes.value, rewrite);
      NoNewlineSurvivesTruncation(stripped, NotesLimit);
      Some(TruncateText(stripped, NotesLimit))
    else None
  }
}
