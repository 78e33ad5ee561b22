/**
 * The server actions of lib/actions.ts with the content store abstracted away.
 * Each action either rejects its input before touching the store, or builds
 * one document and sends it; the store then accepts it or throws. The clock
 * (`new Date().toISOString()`) and the GitHub API are parameters.
 */
module Actions {
  import opened Wrappers
  import opened JsText
  import opened Slug
  import opened PortableText
  import CommentSchema

  /** What an action returns: `{ success: true, ... }` with the stored document,
      or `{ error }`. */
  datatype Response<D> = Success(doc: D) | Failure(error: string)

  /** What an action did: the document it sent to the store, if any, and what
      it returned. */
  datatype Outcome<D> = Outcome(sent: Option<D>, response: Response<D>)

  /** An early return before any store call. */
  function Reject<D>(error: string): Outcome<D> {
    Outcome(None, Failure(error))
  }

  /** One store call: `stored` says whether the store accepted the document or
      threw, in which case the `catch` returns `failure`. */
  function Send<D>(doc: D, stored: bool, failure: string): Outcome<D> {
    Outcome(Some(doc), if stored then Success(doc) else Failure(failure))
  }

  const TitleAndDescriptionRequired := "Title and description are required"
  const BioAndAuthorRequired := "Bio and author ID are required"
  const CommentTextRequired := "Comment text is required"
  const CreateIdeaFailed := "Failed to create idea. Please try again."
  const CreateBioFailed := "Failed to create bio. Please try again."
  const UpdateIdeaFailed := "Failed to update idea. Please try again."
  const AddCommentFailed := "Failed to add comment. Please try again."

  /** The `author` object of ideas, bios and comments. */
  datatype Author = Author(id: string, name: string)

  // ---------------------------------------------------------------- createIdea

  /** The fields `createIdea` reads from its form; `formData.get` yields `null`
      for a missing field. */
  datatype IdeaForm = IdeaForm(
    title: Option<string>,
    description: Option<string>,
    category: Option<string>,
    notes: Option<string>,
    authorId: Option<string>,
    authorName: Option<string>)

  /** An `idea` document as `createIdea` builds it. */
  datatype IdeaDoc = IdeaDoc(
    title: string,
    slug: string,
    body: seq<Block>,
    notes: string,
    author: Author,
    publishedAt: string,
    category: string)

  /** `v` when it is a non-empty string, `default` otherwise. */
  predicate FilledFrom(r: string, v: Option<string>, default: string) {
    (Truthy(v) ==> r == v.value) && (!Truthy(v) ==> r == default)
  }

  /** The new idea of a form that passed the guard: the description becomes the
      single block of the body, the slug is derived from the title, and every
      optional field left empty gets its default. */
  function NewIdea(form: IdeaForm, now: string): (d: IdeaDoc)
    requires Truthy(form.title) && Truthy(form.description)
    ensures d.title == form.title.value && d.title != ""
    ensures IsSlug(d.slug) && d.slug == GenerateSlug(d.title)
    ensures d.body == DescriptionBody(form.description.value)
    ensures FilledFrom(d.notes, form.notes, "")
    ensures FilledFrom(d.author.id, form.authorId, "anonymous")
    ensures FilledFrom(d.author.name, form.authorName, "Anonymous User")
    ensures FilledFrom(d.category, form.category, "other")
    ensures d.author.id != "" && d.author.name != "" && d.category != ""
    ensures d.publishedAt == now
  {
    IdeaDoc(
      form.title.value,
      GenerateSlug(form.title.value),
      DescriptionBody(form.description.value),
      Or(form.notes, ""),
      Author(Or(form.authorId, "anonymous"), Or(form.authorName, "Anonymous User")),
      now,
      Or(form.category, "other"))
  }

  /** `createIdea`: a missing or empty title or description is rejected without
      a store call; otherwise the new idea is sent. */
  function CreateIdea(form: IdeaForm, now: string, stored: bool): (o: Outcome<IdeaDoc>)
    ensures o.sent.None? <==> !Truthy(form.title) || !Truthy(form.description)
    ensures o.sent.None? ==> o.response == Failure(TitleAndDescriptionRequired)
    ensures o.sent.Some? ==> o.sent.value == NewIdea(form, now)
    ensures o.sent.Some? ==> (o.response.Success? <==> stored)
    ensures o.response.Success? ==> o.sent == Some(o.response.doc)
    ensures o.sent.Some? && !stored ==> o.response == Failure(CreateIdeaFailed)
  {
    if !Truthy(form.title) || !Truthy(form.description) then Reject(TitleAndDescriptionRequired)
    else Send(NewIdea(form, now), stored, CreateIdeaFailed)
  }

  /** A rejected form gives the same answer whatever the store and the clock would
      have done: nothing was asked of either. */
  lemma RejectedIdeaIgnoresStore(form: IdeaForm, now1: string, now2: string, stored1: bool, stored2: bool)
    requires !Truthy(form.title) || !Truthy(form.description)
    ensures CreateIdea(form, now1, stored1) == CreateIdea(form, now2, stored2)
  {
  }

  // ---------------------------------------------------------------- updateIdea

  /** The fields `updateIdea` receives; all four are strings. */
  datatype IdeaEdit = IdeaEdit(title: string, description: string, category: string, notes: string)

  /** The fields `updateIdea` sets on the idea `id`. */
  datatype IdeaPatch = IdeaPatch(
    id: string,
    title: string,
    slug: string,
    body: seq<Block>,
    notes: string,
    category: string,
    updatedAt: string)

  /** `updateIdea`: the same guard, slug and body as `createIdea`, the `notes`
      and `category` defaults, and an update time; author and publication date
      are left as they are. */
  function UpdateIdea(ideaId: string, edit: IdeaEdit, now: string, stored: bool): (o: Outcome<IdeaPatch>)
    ensures o.sent.None? <==> edit.title == "" || edit.description == ""
    ensures o.sent.None? ==> o.response == Failure(TitleAndDescriptionRequired)
    ensures o.sent.Some? ==>
              var p := o.sent.value;
              && p.id == ideaId && p.title == edit.title
              && IsSlug(p.slug) && p.slug == GenerateSlug(edit.title)
              && p.body == DescriptionBody(edit.description)
              && p.notes == edit.notes
              && (edit.category != "" ==> p.category == edit.category)
              && (edit.category == "" ==> p.category == "other")
              && p.updatedAt == now
    ensures o.sent.Some? ==> (o.response.Success? <==> stored)
    ensures o.response.Success? ==> o.sent == Some(o.response.doc)
    ensures o.sent.Some? && !stored ==> o.response == Failure(UpdateIdeaFailed)
  {
    if edit.title == "" || edit.description == "" then Reject(TitleAndDescriptionRequired)
    else
      var patch := IdeaPatch(
        ideaId, edit.title, GenerateSlug(edit.title), DescriptionBody(edit.description),
        if edit.notes != "" then edit.notes else "", if edit.category != "" then edit.category else "other",
        now);
      Send(patch, stored, UpdateIdeaFailed)
  }

  /** Editing an idea with the title, description, notes and category it was
      created with writes back the same slug, body, notes and category. */
  lemma UpdateWithSameFieldsKeepsIdea(form: IdeaForm, now: string, ideaId: string, later: string)
    requires Truthy(form.title) && Truthy(form.description)
    ensures var d := NewIdea(form, now);
            var p := UpdateIdea(ideaId, IdeaEdit(d.title, form.description.value, d.category, d.notes), later, true).sent;
            && p.Some?
            && p.value.slug == d.slug && p.value.body == d.body
            && p.value.notes == d.notes && p.value.category == d.category
  {
  }

  // ------------------------------------------------------------ createUserBio

  datatype BioForm = BioForm(bio: Option<string>, authorId: Option<string>, authorName: Option<string>)

  datatype BioDoc = BioDoc(bio: string, author: Author, createdAt: string, updatedAt: string)

  /** `createUserBio`: bio text and author id are required; the author name
      defaults to "Anonymous User". `createdAt` and `updatedAt` are two reads of
      the clock. */
  function CreateUserBio(form: BioForm, createdAt: string, updatedAt: string, stored: bool): (o: Outcome<BioDoc>)
    ensures o.sent.None? <==> !Truthy(form.bio) || !Truthy(form.authorId)
    ensures o.sent.None? ==> o.response == Failure(BioAndAuthorRequired)
    ensures o.sent.Some? ==>
              var b := o.sent.value;
              && b.bio == form.bio.value && b.bio != ""
              && b.author.id == form.authorId.value && b.author.id != ""
              && FilledFrom(b.author.name, form.authorName, "Anonymous User")
              && b.createdAt == createdAt && b.updatedAt == updatedAt
    ensures o.sent.Some? ==> (o.response.Success? <==> stored)
    ensures o.response.Success? ==> o.sent == Some(o.response.doc)
    ensures o.sent.Some? && !stored ==> o.response == Failure(CreateBioFailed)
  {
    if !Truthy(form.bio) || !Truthy(form.authorId) then Reject(BioAndAuthorRequired)
    else
      var bio := BioDoc(
        form.bio.value, Author(form.authorId.value, Or(form.authorName, "Anonymous User")),
        createdAt, updatedAt);
      Send(bio, stored, CreateBioFailed)
  }

  // ------------------------------------------------------ fetchGitHubUserName

  /** What the GitHub user endpoint gives back: no profile (a network error, an
      error status, or a body that is not JSON), or a profile with its `name`
      and `login`. */
  datatype GitHubReply = NoProfile | Profile(name: Option<string>, login: Option<string>)

  /** `s.split(c)[0]`: the part of `s` before the first `c`, all of `s` when it
      holds no `c`. */
  function BeforeFirst(s: string, c: char): (r: string)
    ensures |r| <= |s| && r == s[..|r|]
    ensures c !in r
    ensures c in s ==> |r| < |s| && s[|r|] == c
    ensures c !in s ==> r == s
  {
    if s == [] then []
    else if s[0] == c then []
    else [s[0]] + BeforeFirst(s[1..], c)
  }

  /** `fetchGitHubUserName`, with the user endpoint as the function `github`.
      "anonymous" has no name; an id holding `@` is an e-mail address and yields
      its local part without any request; any other id is looked up, and the
      profile's name, else its login, is used when non-empty. */
  function FetchGitHubUserName(githubId: string, github: string -> GitHubReply): (r: Option<string>)
    ensures githubId == "anonymous" ==> r.None?
    ensures githubId != "anonymous" && '@' in githubId ==> r == Some(BeforeFirst(githubId, '@'))
    ensures githubId != "anonymous" && '@' !in githubId ==>
              var reply := github(githubId);
              && (r.Some? <==> reply.Profile? && (Truthy(reply.name) || Truthy(reply.login)))
              && (r.Some? ==> r.value == (if Truthy(reply.name) then reply.name.value else reply.login.value))
              && (r.Some? ==> r.value != "")
  {
    if githubId == "anonymous" then None
    else if '@' in githubId then Some(BeforeFirst(githubId, '@'))
    else
      match github(githubId)
      case NoProfile => None
      case Profile(name, login) =>
        if Truthy(name) then name else if Truthy(login) then login else None
  }

  // ---------------------------------------------------------------- addComment

  /** The author name a comment is stored with: a provided name other than
      "Anonymous" wins; otherwise an id other than "anonymous" is looked up, and
      a non-empty result is used; otherwise "Anonymous". */
  function ResolveAuthorName(provided: Option<string>, authorId: string, github: string -> GitHubReply): (name: string)
    ensures name != ""
    ensures Truthy(provided) && provided.value != "Anonymous" ==> name == provided.value
    ensures !(Truthy(provided) && provided.value != "Anonymous") ==>
              && (authorId == "anonymous" ==> name == "Anonymous")
              && (authorId != "anonymous" ==> FilledFrom(name, FetchGitHubUserName(authorId, github), "Anonymous"))
  {
    if Truthy(provided) && provided.value != "Anonymous" then provided.value
    else if authorId != "anonymous" then Or(FetchGitHubUserName(authorId, github), "Anonymous")
    else "Anonymous"
  }

  /** The name is settled without the GitHub API when a name is provided, when
      the id is "anonymous", and when the id is an e-mail address. */
  lemma AuthorNameWithoutNetwork(provided: Option<string>, authorId: string, g1: string -> GitHubReply, g2: string -> GitHubReply)
    requires (Truthy(provided) && provided.value != "Anonymous") || authorId == "anonymous" || '@' in authorId
    ensures ResolveAuthorName(provided, authorId, g1) == ResolveAuthorName(provided, authorId, g2)
  {
  }

  /** For an e-mail id without a provided name, the comment is signed with the
      address's local part, or "Anonymous" when that part is empty. */
  lemma EmailAuthorName(provided: Option<string>, local: string, domain: string, github: string -> GitHubReply)
    requires !Truthy(provided) || provided.value == "Anonymous"
    requires '@' !in local
    ensures local != [] ==> ResolveAuthorName(provided, local + "@" + domain, github) == local
    ensures local == [] ==> ResolveAuthorName(provided, local + "@" + domain, github) == "Anonymous"
  {
    var id := local + "@" + domain;
    assert id[|local|] == '@';
    assert id[..|local|] == local;
    if local == [] {
      assert id != "anonymous";
    } else {
      assert id != "anonymous" by {
        assert '@' in id;
      }
    }
  }

  /** A comment as `addComment` builds it. */
  datatype CommentRecord = CommentRecord(ideaId: string, text: string, author: Author, createdAt: string)

  /** `addComment`: a text that is empty after trimming is rejected without a
      store call; otherwise the trimmed text is stored, signed with the resolved
      author name. */
  function AddComment(
    ideaId: string, text: string, authorId: string, provided: Option<string>,
    github: string -> GitHubReply, now: string, stored: bool): (o: Outcome<CommentRecord>)
    ensures o.sent.None? <==> Trim(text) == ""
    ensures o.sent.None? ==> o.response == Failure(CommentTextRequired)
    ensures o.sent.Some? ==>
              var c := o.sent.value;
              && c.ideaId == ideaId && c.createdAt == now
              && c.text == Trim(text) && c.text != "" && Trimmed(c.text) && |c.text| <= |text|
              && c.author == Author(authorId, ResolveAuthorName(provided, authorId, github))
    ensures o.sent.Some? ==> (o.response.Success? <==> stored)
    ensures o.response.Success? ==> o.sent == Some(o.response.doc)
    ensures o.sent.Some? && !stored ==> o.response == Failure(AddCommentFailed)
  {
    if Trim(text) == "" then Reject(CommentTextRequired)
    else
      var comment := CommentRecord(
        ideaId, Trim(text), Author(authorId, ResolveAuthorName(provided, authorId, github)), now);
      Send(comment, stored, AddCommentFailed)
  }

  /** The stored form of a comment record: every field present. */
  function AsDocument(c: CommentRecord): CommentSchema.CommentDoc {
    CommentSchema.CommentDoc(
      Some(c.ideaId), Some(c.text),
      Some(CommentSchema.CommentAuthor(Some(c.author.id), Some(c.author.name))),
      Some(c.createdAt))
  }

  /** A comment `addComment` stores satisfies the comment schema exactly when its
      trimmed text has at most 500 code units: the action checks the lower bound
      of the text rule but not the upper one. */
  lemma StoredCommentValidity(
    ideaId: string, text: string, authorId: string, provided: Option<string>,
    github: string -> GitHubReply, now: string, stored: bool)
    requires Trim(text) != ""
    ensures var o := AddComment(ideaId, text, authorId, provided, github, now, stored);
            o.sent.Some? && (CommentSchema.Valid(AsDocument(o.sent.value)) <==> |Trim(text)| <= CommentSchema.MaxTextLength)
    ensures var o := AddComment(ideaId, text, authorId, provided, github, now, stored);
            CommentSchema.Violations(AsDocument(o.sent.value)) <= {CommentSchema.Rule.TextMax}
  {
    var c := AddComment(ideaId, text, authorId, provided, github, now, stored).sent.value;
    assert |c.text| >= 1;
  }

  /** `n` copies of `c`. */
  function Repeat(c: char, n: nat): (r: string)
    ensures |r| == n && forall i :: 0 <= i < n ==> r[i] == c
  {
    if n == 0 then [] else [c] + Repeat(c, n - 1)
  }

  /** A concrete comment that is stored although the schema rejects it: 501
      letters. */
  lemma OverlongCommentIsStored(ideaId: string, authorId: string, github: string -> GitHubReply, now: string)
    ensures var o := AddComment(ideaId, Repeat('a', 501), authorId, None, github, now, true);
            && o.response.Success?
            && !CommentSchema.Valid(AsDocument(o.response.doc))
            && CommentSchema.Violations(AsDocument(o.response.doc)) == {CommentSchema.Rule.TextMax}
  {
    var text := Repeat('a', 501);
    assert !IsSpace(text[0]) && !IsSpace(text[|text| - 1]);
    TrimOfTrimmed(text);
  }
}
