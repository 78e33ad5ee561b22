/**
 * The `comment` document type of the content store
 * (sanity/schemaTypes/commentType.ts): the validation rules of its fields and
 * the title its studio preview shows.
 */
module CommentSchema {
  import opened Wrappers
  import opened JsText

  /** The `author` object: a GitHub id and a display name. */
  datatype CommentAuthor = CommentAuthor(id: Option<string>, name: Option<string>)

  /** A comment document as stored; every field may be missing. */
  datatype CommentDoc = CommentDoc(
    ideaId: Option<string>,
    text: Option<string>,
    author: Option<CommentAuthor>,
    createdAt: Option<string>)

  const MinTextLength := 1
  const MaxTextLength := 500

  /** The field rules, one constructor per rule the schema declares. */
  datatype Rule =
    | IdeaIdRequired
    | TextRequired
    | TextMin
    | TextMax
    | AuthorRequired
    | AuthorIdRequired
    | CreatedAtRequired

  /** A document that satisfies every rule: `ideaId`, `text`, `author`,
      `author.id` and `createdAt` present, and a text of 1 to 500 code units. */
  predicate Valid(c: CommentDoc) {
    && c.ideaId.Some?
    && c.text.Some? && MinTextLength <= |c.text.value| <= MaxTextLength
    && c.author.Some? && c.author.value.id.Some?
    && c.createdAt.Some?
  }

  /** The rules a document breaks. A missing text breaks `required()`; the
      length rules judge a present text. A missing author object breaks its own
      `required()`, and the nested `id` rule is judged only on a present author. */
  function Violations(c: CommentDoc): (errs: set<Rule>)
    ensures errs == {} <==> Valid(c)
    ensures TextMax in errs <==> c.text.Some? && |c.text.value| > MaxTextLength
    ensures TextMin in errs <==> c.text.Some? && |c.text.value| < MinTextLength
    ensures TextRequired in errs <==> c.text.None?
    ensures AuthorIdRequired in errs ==> c.author.Some?
  {
    (if c.ideaId.None? then {IdeaIdRequired} else {})
    + (if c.text.None? then {TextRequired}
       else if |c.text.value| < MinTextLength then {TextMin}
       else if |c.text.value| > MaxTextLength then {TextMax}
       else {})
    + (if c.author.None? then {AuthorRequired}
       else if c.author.value.id.None? then {AuthorIdRequired}
       else {})
    + (if c.createdAt.None? then {CreatedAtRequired} else {})
  }

  const PreviewTextLength := 50

  /** The preview's title, `${authorName || 'Anonymous'}: ${text.substring(0, 50)}`
      followed by `...` when the text is longer than 50 code units. `None` when
      the document has no text: `prepare` then throws on `text.substring`. */
  function PreviewTitle(text: Option<string>, authorName: Option<string>): (r: Option<string>)
    ensures r.Some? <==> text.Some?
    ensures r.Some? ==>
              var prefix := Or(authorName, "Anonymous") + ": ";
              var shown := if |text.value| <= PreviewTextLength then |text.value| else PreviewTextLength;
              && |prefix| + shown <= |r.value|
              && r.value[..|prefix|] == prefix
              && r.value[|prefix|..|prefix| + shown] == text.value[..shown]
              && r.value[|prefix| + shown..] == (if |text.value| > PreviewTextLength then "..." else "")
  {
    match text
    case None => None
    case Some(t) =>
      var shown := if |t| <= PreviewTextLength then t else t[..PreviewTextLength];
      Some(Or(authorName, "Anonymous") + ": " + shown + (if |t| > PreviewTextLength then "..." else ""))
  }

  /** The title is never longer than the name, the separator and 53 code units;
      it reaches that length exactly when the text was cut, and otherwise shows
      the whole text. */
  lemma PreviewTitleBounds(text: string, authorName: Option<string>)
    ensures var r := PreviewTitle(Some(text), authorName).value;
            var prefix := Or(authorName, "Anonymous") + ": ";
            && |r| <= |prefix| + PreviewTextLength + 3
            && (|text| > PreviewTextLength <==> |r| == |prefix| + PreviewTextLength + 3)
            && (|text| <= PreviewTextLength ==> r == prefix + text)
  {
    var r := PreviewTitle(Some(text), authorName).value;
    var prefix := Or(authorName, "Anonymous") + ": ";
    if |text| <= PreviewTextLength {
      assert r == prefix + text;
    } else {
      assert |r| == |prefix| + PreviewTextLength + 3;
    }
  }

  /** Every valid comment has a preview title, whatever its author's name. */
  lemma ValidCommentHasTitle(c: CommentDoc)
    requires Valid(c)
    ensures PreviewTitle(c.text, c.author.value.name).Some?
    ensures |PreviewTitle(c.text, c.author.value.name).value| >= |Or(c.author.value.name, "Anonymous")| + 3
  {
  }
}
