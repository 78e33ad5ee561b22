# Ideas: vote buttons, server actions, text previews and comments in Dafny

This project models the parts of the "Ideas" app (a Next.js front end over a
Sanity content store) that carry rules:

- **Vote buttons** (`Votes`, components/IdeaCard.tsx). Each idea card keeps
  three state fields: `voteCount`, `isUpvoted` and `isDownvoted`. The upvote
  and downvote click handlers change them. They are modelled as the class
  `Votes.VoteButtons`, whose methods are proved against the functions
  `UpvoteClick` and `DownvoteClick`. Lemmas over click sequences show the card
  invariant: at most one button is lit, and the count equals the lit button's
  weight.
- **Relative dates** (`RelativeTime`, components/IdeaCard.tsx). The five
  labels of `formatDate` are chosen by whole elapsed hours.
- **Category colours** (`CategoryColors`, both card components). The lookup
  is `colors[category] || colors.other`. There are two tables: the idea
  card's and the author page's.
- **Server actions** (`Slug`, `Actions`, lib/actions.ts):
  - the slug normaliser `generateSlug`;
  - the guards of `createIdea`, `updateIdea`, `createUserBio` and
    `addComment`;
  - the documents those actions send to the store, with their defaults;
  - the rule that picks a comment's author name, including the branches of
    `fetchGitHubUserName` that need no network.
- **Text previews** (`TextPreview`, `PortableText`,
  components/AuthorIdeaCard.tsx):
  - `truncateText`;
  - the last two steps of `stripMarkdown`;
  - the flattening of a rich-text body in `getTextPreview`;
  - the card's description and notes boxes.
- **Comment documents** (`CommentSchema`,
  sanity/schemaTypes/commentType.ts). These cover the field rules and the
  studio preview title.

Conventions:
- JavaScript strings are `string` values. A JavaScript string is a sequence
  of UTF-16 code units, while an element of a Dafny `string` is a Unicode
  scalar value. The two agree for text whose characters all lie in the Basic
  Multilingual Plane, and the model is about such text (see "Left out").
- A value that may be `undefined` or `null` is an `Option`.
- JavaScript truthiness of such a string (present and non-empty) is
  `JsText.Truthy`.
- The content store, the GitHub API and the clock are parameters:
  - a `stored` flag says whether the store accepted a document or threw;
  - a function `github` gives the API's answer for an id;
  - time stamps are strings passed in.
- Each action returns an `Actions.Outcome`, which records two things: the
  document it sent to the store (if any) and what it returned. "No write"
  is therefore a statement about the `sent` field.

The vote state is local to each card: it starts at `0, false, false` and is
never read from or written to the store. The card's handlers do not check the
user, and neither does the model.

JavaScript builtins the code relies on are modelled in `JsText`:
- `trim` and `\s`, using ECMAScript's white-space and line-terminator code
  units;
- a global `replace` of a `[class]+` pattern by one character;
- `${n}` for a natural number.

## Model

| member | source | states |
|---|---|---|
| Votes.UpvoteClick | components/IdeaCard.tsx:108-121 | an upvote click keeps the card invariant; it toggles the direction between up and (neutral or down → up); the count changes by -1 when retracting, +2 when replacing a downvote and +1 from neutral |
| Votes.DownvoteClick | components/IdeaCard.tsx:200-213 | the mirror image: a downvote click keeps the invariant, toggles to or from down, and changes the count by +1, -2 or -1 |
| Votes.ReplayConsistent | components/IdeaCard.tsx:108-121 | every sequence of clicks from a consistent state ends in a consistent state (at most one button lit, count = lit weight) |
| Votes.ReachableStates | components/IdeaCard.tsx:33-37 | from the initial `0, false, false`, after any clicks, never both buttons lit, the count is within -1..1 and equals +1, -1 or 0 for up, down and neutral |
| Votes.TransitionDeltas | components/IdeaCard.tsx:111-118 | the six tally changes between the three directions: +1 and -1 from neutral, +2 from down, -2 from up, -1 retracting up, +1 retracting down |
| Votes.ClickTwice | components/IdeaCard.tsx:111-114 | two upvotes restore any state without a downvote, and from a downvote end at neutral; likewise for two downvotes |
| Votes.VoteButtons.constructor | components/IdeaCard.tsx:33-37 | a new card holds count 0 with neither button lit, and is consistent |
| Votes.VoteButtons.Upvote | components/IdeaCard.tsx:108-121 | the upvote handler updates the three fields in place to `UpvoteClick` of the old state and keeps the invariant; retract: count -1 and unlit; else: lit, downvote cleared, count +2 or +1 |
| Votes.VoteButtons.Downvote | components/IdeaCard.tsx:200-213 | the downvote handler updates the fields to `DownvoteClick` of the old state and keeps the invariant; retract: count +1; else: lit, upvote cleared, count -2 or -1 |
| RelativeTime.ElapsedHours | components/IdeaCard.tsx:42 | the whole hours h with h hours ≤ elapsed < h+1 hours, negative for future dates |
| RelativeTime.Classify | components/IdeaCard.tsx:43-47 | the label is "just now" iff h < 1, hours iff 1 ≤ h < 24 (showing h), one day iff 24 ≤ h < 48, days iff 48 ≤ h < 168 (showing 2..6 whole days), the locale date otherwise and for an unparseable date |
| RelativeTime.LabelText | components/IdeaCard.tsx:43-47 | an hours or days label is the decimal digits of its count followed by " hours ago" or " days ago", and the digits read back as that count |
| RelativeTime.FormatDate | components/IdeaCard.tsx:39-48 | a date in the future or less than an hour ago reads "Just now"; between 24 and 48 hours ago "1 day ago"; a week or more ago, or an unparseable date, shows the browser's locale date |
| RelativeTime.HoursLabel | components/IdeaCard.tsx:44 | from one to 24 hours the text is digits followed by " hours ago", and the digits read back as the elapsed whole hours, 1..23 |
| RelativeTime.DaysLabel | components/IdeaCard.tsx:46 | from two to seven days the text is digits followed by " days ago", reading back as the elapsed whole days, 2..6 |
| JsText.DecimalRoundTrip | components/IdeaCard.tsx:44 | the digits printed for a number read back as that number |
| CategoryColors.ColorFor | components/IdeaCard.tsx:60 | the intended lookup: a listed category with a non-empty entry gets its entry, any other string the `other` entry; the result is always one of the table's class lists |
| CategoryColors.LookupAsWritten | components/IdeaCard.tsx:60 | the lookup as JavaScript performs it: a name inherited by every object literal and not listed yields the inherited member, and any class list it yields comes from the table |
| CategoryColors.LookupAgreesOutsideInherited | components/IdeaCard.tsx:50-61 | outside the inherited names, the lookup as written and as intended give the same class list |
| CategoryColors.IdeaCardColor | components/IdeaCard.tsx:50-61 | under the intended fallback (`ColorFor`), the idea card's colour is the table's entry for the seven categories and gray for any other string; the lookup as written is `LookupAsWritten`, which differs on the inherited names |
| CategoryColors.IdeaCardColorsDistinct | components/IdeaCard.tsx:51-59 | two different categories never share a colour on the idea card |
| CategoryColors.InheritedNameEscapesFallback | components/IdeaCard.tsx:60 | "toString" (idea card) and "constructor" (author card) are not categories, yet the lookup as written returns the inherited member instead of the gray fallback |
| CategoryColors.AuthorCardColor | components/AuthorIdeaCard.tsx:28-39 | under the intended fallback (`ColorFor`), the author card's colour is its table's entry for the seven keys it lists and gray for every other string; the lookup as written is `LookupAsWritten`, which differs on the inherited names |
| CategoryColors.CreativeIsGrayOnAuthorCard | components/AuthorIdeaCard.tsx:32 | with the table as written a `creative` idea is gray on the author page but purple on the idea card, and the `design` key matches no category |
| CategoryColors.AuthorCardColorCorrected | components/AuthorIdeaCard.tsx:28-39 | with `creative` in place of `design` the author card agrees with the idea card on every string, and no category but `other` is gray |
| Slug.LowerUnit | lib/actions.ts:58 | lower-casing a code unit maps each ASCII capital to its small letter and never yields an ASCII capital |
| Slug.ToLower | lib/actions.ts:58 | `toLowerCase()` leaves no ASCII capital |
| Slug.ToLowerAppend | lib/actions.ts:58 | lower-casing distributes over concatenation |
| Slug.KeepWordSpaceHyphen | lib/actions.ts:59 | the filter keeps only word characters, white space and `-`, and brings in no capital |
| Slug.KeepAppend | lib/actions.ts:59 | the filter distributes over concatenation |
| Slug.GenerateSlug | lib/actions.ts:56-62 | a slug holds only a-z, 0-9, `_` and `-` |
| Slug.HyphenatedIsSlug | lib/actions.ts:59-60 | already before the trim, only slug characters are left: no white space survives the hyphenation |
| Slug.SlugUntrimmed | lib/actions.ts:61 | the final `trim()` never removes anything |
| Slug.SlugOfSlug | lib/actions.ts:56-62 | a string of slug characters is its own slug |
| Slug.GenerateSlugIdempotent | lib/actions.ts:179-185 | slugging a slug changes nothing; `updateIdea` uses the same function as `createIdea` |
| Slug.SlugOfSpaceRun | lib/actions.ts:60 | after a slug-shaped prefix, a maximal white-space run of any length becomes exactly one `-` and the rest is slugged on its own |
| Slug.SlugOfPaddedSlug | lib/actions.ts:60-61 | white space around a slug is hyphenated, not trimmed: w1 + a + w2 gives "-a-" |
| Slug.SlugOfSpacedHyphen | lib/actions.ts:59-60 | a + " - " + b gives a + "---" + b for slug-shaped a and b |
| Slug.SlugOfPaddedLetter | lib/actions.ts:56-62 | " a " gives "-a-" |
| Slug.SlugOfSpacedHyphenLetters | lib/actions.ts:56-62 | "a - b" gives "a---b" |
| JsText.CollapseRuns | lib/actions.ts:60 | the global `[class]+` replacement by one character never lengthens the string and empties only the empty string |
| JsText.CollapseRunsSplit | lib/actions.ts:60 | a global `[class]+` replacement turns one maximal run into one separator, whatever its length, and works independently on each side of it |
| JsText.Trim | lib/actions.ts:61 | `trim()` leaves no white space at either end and never lengthens |
| JsText.TrimRemovesSpace | lib/actions.ts:232 | `trim()` keeps a contiguous piece of its input and everything cut off is white space |
| Actions.NewIdea | lib/actions.ts:66-96 | the new idea keeps the non-empty title, derives a slug from it, puts the description in a single block, and fills notes, author id, author name and category from the form when non-empty or with `''`, `anonymous`, `Anonymous User`, `other`; author id, name and category are never empty |
| Actions.CreateIdea | lib/actions.ts:43-107 | nothing is sent iff the title or the description is missing or empty, and the answer is then the "required" error; otherwise the new idea is sent, and the answer is that idea iff the store accepts it, else the "failed to create" error |
| Actions.RejectedIdeaIgnoresStore | lib/actions.ts:52-54 | a rejected form gets the same answer whatever the store and clock would do |
| Actions.UpdateIdea | lib/actions.ts:171-228 | nothing is sent iff the title or the description is empty; otherwise the patch targets the given id with the title, its slug, the one-block body, the notes, the category or `other`, and the update time; the answer follows the store |
| Actions.UpdateWithSameFieldsKeepsIdea | lib/actions.ts:189-214 | editing an idea with the fields it was created with writes back the same slug, body, notes and category |
| Actions.CreateUserBio | lib/actions.ts:109-139 | nothing is sent iff the bio or the author id is missing or empty; otherwise the bio keeps both, the name defaults to `Anonymous User`, and the answer follows the store |
| Actions.BeforeFirst | lib/actions.ts:19 | `split('@')[0]` is the longest prefix without `@`: the whole id without one, else the part up to the first `@` |
| Actions.FetchGitHubUserName | lib/actions.ts:14-41 | no name for "anonymous"; an id with `@` gives its local part; any other id gives the profile's non-empty name, else its non-empty login, else nothing |
| Actions.ResolveAuthorName | lib/actions.ts:236-248 | the name is never empty: a provided name other than "Anonymous" wins, else a non-"anonymous" id's non-empty looked-up name, else "Anonymous" |
| Actions.AuthorNameWithoutNetwork | lib/actions.ts:16-20 | with a provided name, the id "anonymous" or an e-mail id, the name does not depend on the GitHub API |
| Actions.EmailAuthorName | lib/actions.ts:18-20 | an e-mail id signs with its local part, or "Anonymous" when that part is empty |
| Actions.AddComment | lib/actions.ts:230-268 | nothing is sent iff the text is empty after trimming; otherwise the comment stores the idea id, the non-empty trimmed text and the resolved author, and the answer follows the store |
| Actions.StoredCommentValidity | lib/actions.ts:232-259 | a comment `addComment` stores satisfies the comment schema iff its trimmed text has at most 500 code units; the length cap is the only rule it can break |
| Actions.OverlongCommentIsStored | lib/actions.ts:232-234 | a 501-letter comment is stored and answered with success, yet breaks exactly the schema's maximum-length rule |
| CommentSchema.Violations | sanity/schemaTypes/commentType.ts:8-46 | a document breaks no rule iff it has an idea id, an author with an id, a creation time and a text of 1 to 500 code units; the length rules are judged only on a present text |
| CommentSchema.PreviewTitle | sanity/schemaTypes/commentType.ts:58 | the title exists iff there is a text; it is the author name or "Anonymous", then ": ", then the first min(50, length) code units of the text, then "..." iff the text is longer than 50 |
| CommentSchema.PreviewTitleBounds | sanity/schemaTypes/commentType.ts:58 | the title is at most the prefix plus 53 code units, reaches that exactly when the text was cut, and shows the whole text otherwise |
| CommentSchema.ValidCommentHasTitle | sanity/schemaTypes/commentType.ts:18 | every valid comment has a preview title longer than its name prefix |
| TextPreview.TruncateText | components/AuthorIdeaCard.tsx:76-79 | a text within the bound comes back unchanged; a longer one ends with "...", is at most the bound plus 3 long, and has no white space at the ends of its kept part |
| TextPreview.TruncatedTextIsPrefix | components/AuthorIdeaCard.tsx:78 | the kept part is the first `maxLength` code units without the white space at their ends; for a text not starting with white space it is a prefix |
| TextPreview.NoNewlineSurvivesTruncation | components/AuthorIdeaCard.tsx:76-79 | truncation brings in no line feed |
| TextPreview.StripMarkdown | components/AuthorIdeaCard.tsx:52-53 | the stripped text holds no line feed and has no white space at either end |
| TextPreview.StripMarkdownFixed | components/AuthorIdeaCard.tsx:52-53 | a text with no line feed or edge white space that the rewrites leave alone is returned unchanged |
| TextPreview.StripMarkdownJoinsLines | components/AuthorIdeaCard.tsx:52 | a run of line feeds between two lines becomes exactly one space |
| TextPreview.BlockTexts | components/AuthorIdeaCard.tsx:62-69 | one text per `block` entry at most, and none exactly when the body holds no `block` |
| TextPreview.RawText | components/AuthorIdeaCard.tsx:62-70 | a body without any `block` entry has an empty raw text, and a body of one block has that block's text |
| TextPreview.RawTextAppend | components/AuthorIdeaCard.tsx:62-70 | only entries of type `block` contribute to the raw text, and block texts are joined with single spaces |
| TextPreview.BlockTextAppend | components/AuthorIdeaCard.tsx:65-68 | within a block only `span` children contribute, concatenated with no separator, a missing text as the empty string |
| TextPreview.GetTextPreview | components/AuthorIdeaCard.tsx:56-74 | a non-empty `text` is preferred over the body; otherwise a non-empty body gives its stripped raw text; otherwise the preview is empty; the preview never holds a line feed and is trimmed |
| TextPreview.CreatedIdeaPreview | components/AuthorIdeaCard.tsx:60-71 | an idea written by the server actions previews as its stripped description |
| TextPreview.CardDescription | components/AuthorIdeaCard.tsx:104-108 | the description paragraph appears iff the preview is non-empty, and is at most 123 code units with no line feed |
| TextPreview.CardNotes | components/AuthorIdeaCard.tsx:111-116 | the notes box appears iff the notes are non-empty, and is at most 83 code units with no line feed |

## Left out

- The store calls are not modelled, and neither is `revalidatePath` (lib/actions.ts:98-100, 130-132, 216-221, 261-262). Each store call is a `stored` flag, and the stored document is taken to be the document sent; the `_id` and other fields the store adds are not modelled.
- `getUserBio` and `updateUserBio` (lib/actions.ts:141-169) are a single store query and a single store patch with no rule of their own.
- The GitHub request (lib/actions.ts:22-36) is the parameter `github`. Its headers and token are not modelled, and network errors, error statuses and malformed bodies are all `NoProfile`.
- The clock (`new Date().toISOString()`) and `toLocaleDateString` are parameters. `RelativeTime` takes the two instants as milliseconds, and an unparseable date is `None`. `Actions.CreateUserBio` takes its two clock reads separately.
- The card animations are not modelled: `upvoteAnim`, `downvoteAnim`, their timers, and `preventDefault`/`stopPropagation` (components/IdeaCard.tsx:34-35, 109-110, 119-120, 201-202, 211-212).
- The markdown rewrites of `stripMarkdown` (components/AuthorIdeaCard.tsx:43-51) are the parameter `rewrite`. Only the line-feed collapse and the trim are modelled.
- The rich-text body is reduced to what the preview reads: `_type`, `children` and `text`. Block keys, styles, marks and mark definitions are not modelled.
- Slug.LowerUnit: lower-cases ASCII capitals, KELVIN SIGN and LATIN CAPITAL LETTER I WITH DOT ABOVE, and leaves every other code unit as it is. Every such code unit either has no case, so its lower case is itself, which is what the model keeps; or it lower-cases to a non-ASCII code unit that is not white space, which the slug filter drops either way. So the slug is unaffected.
- CommentSchema.Violations: a required field counts as present when it is not `undefined`. How the studio treats an empty string is not modelled.
- CommentSchema.PreviewTitle: the preview subtitle, a locale date, is not modelled.
- Ideas, bios and other documents are not validated against their own schemas.
- Characters outside the Basic Multilingual Plane are not modelled. JavaScript stores each as two UTF-16 code units (a surrogate pair) and counts it twice in `length`, while a Dafny `string` holds it as one element. A lone surrogate, such as `substring` can leave behind, is not representable at all. Every length rule below is therefore exact only for text without such characters.
- CommentSchema.Violations: the 1 and 500 bounds are compared with the number of characters, which equals the UTF-16 length only for text without characters outside the Basic Multilingual Plane.
- Actions.StoredCommentValidity: the 500 cap is judged on the number of characters, so it matches the schema only for text without characters outside the Basic Multilingual Plane.
- CommentSchema.PreviewTitle: `substring(0, 50)` and the length test count characters, not UTF-16 code units; for text with characters outside the Basic Multilingual Plane the real title may show fewer characters or end in half a surrogate pair.
- TextPreview.TruncateText: the length test and the cut count characters, not UTF-16 code units; text with characters outside the Basic Multilingual Plane may be cut in JavaScript where the model returns it whole.
- TextPreview.CardDescription: the bound of 120 (plus the three dots) counts characters, so it matches the card only for text without characters outside the Basic Multilingual Plane.
- TextPreview.CardNotes: the bound of 80 (plus the three dots) counts characters, likewise.

## Findings

| source | as written | input that shows it | evidently intended | confidence | as-written member | corrected member |
|---|---|---|---|---|---|---|
| components/AuthorIdeaCard.tsx:32 | the author card's colour table has the key `design`, which no idea can carry (the idea schema, the creation form and the idea card all use `creative`) | category `creative` | `creative` shown purple, as on the idea card | not executed | CategoryColors.CreativeIsGrayOnAuthorCard | CategoryColors.AuthorCardColorCorrected |
| components/IdeaCard.tsx:60 | `colors[category] \|\| colors.other` on an object literal also finds the names every object inherits | category `toString` | any category outside the table falls back to the gray `other` entry | not executed | CategoryColors.InheritedNameEscapesFallback | CategoryColors.ColorFor |
