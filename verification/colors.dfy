/**
 * The category badge colours (`getCategoryColor` in components/IdeaCard.tsx and
 * components/AuthorIdeaCard.tsx): a table from category to Tailwind class list,
 * looked up with `colors[category] || colors.other`.
 */
module CategoryColors {

  const Blue := "bg-blue-500/20 text-blue-300 border-blue-500/30"
  const Green := "bg-green-500/20 text-green-300 border-green-500/30"
  const Purple := "bg-purple-500/20 text-purple-300 border-purple-500/30"
  const Red := "bg-red-500/20 text-red-300 border-red-500/30"
  const Yellow := "bg-yellow-500/20 text-yellow-300 border-yellow-500/30"
  const Pink := "bg-pink-500/20 text-pink-300 border-pink-500/30"
  const Gray := "bg-gray-500/20 text-gray-300 border-gray-500/30"

  /** The category values an idea can carry: the options of the idea schema's
      `category` field and of the creation form's select. */
  const Categories: set<string> :=
    {"technology", "business", "creative", "health", "education", "entertainment", "other"}

  /** The table of the idea card. */
  const IdeaCardColors: map<string, string> := map[
    "technology" := Blue, "business" := Green, "creative" := Purple, "health" := Red,
    "education" := Yellow, "entertainment" := Pink, "other" := Gray]

  /** The table of the author page's card, which lists `design` where the idea
      card lists `creative`. */
  const AuthorCardColors: map<string, string> := map[
    "technology" := Blue, "business" := Green, "design" := Purple, "health" := Red,
    "education" := Yellow, "entertainment" := Pink, "other" := Gray]

  /** The names every object literal inherits from `Object.prototype`; indexing
      the table with one of them yields a function or an object, never
      `undefined`. */
  const InheritedNames: set<string> := {
    "constructor", "hasOwnProperty", "isPrototypeOf", "propertyIsEnumerable",
    "toLocaleString", "toString", "valueOf", "__proto__", "__defineGetter__",
    "__defineSetter__", "__lookupGetter__", "__lookupSetter__"}

  /** What `colors[category] || colors.other` evaluates to. */
  datatype Found = ClassList(classes: string) | InheritedMember(name: string)

  /** The lookup as JavaScript performs it on an object literal: an own entry if
      it is truthy, else a truthy inherited member, else the `other` entry. */
  function LookupAsWritten(colors: map<string, string>, category: string): (r: Found)
    requires "other" in colors
    ensures category !in colors && category in InheritedNames ==> r.InheritedMember?
    ensures r.ClassList? ==> r.classes in colors.Values
  {
    if category in colors && colors[category] != "" then ClassList(colors[category])
    else if category !in colors && category in InheritedNames then InheritedMember(category)
    else ClassList(colors["other"])
  }

  /** The lookup as intended: the category's own entry, and the `other` entry for
      every category the table does not list. */
  function ColorFor(colors: map<string, string>, category: string): (r: string)
    requires "other" in colors
    ensures category in colors && colors[category] != "" ==> r == colors[category]
    ensures category !in colors ==> r == colors["other"]
    ensures r in colors.Values
  {
    if category in colors && colors[category] != "" then colors[category] else colors["other"]
  }

  /** Outside the inherited names the lookup as written and as intended agree. */
  lemma LookupAgreesOutsideInherited(colors: map<string, string>, category: string)
    requires "other" in colors
    requires category in colors || category !in InheritedNames
    ensures LookupAsWritten(colors, category) == ClassList(ColorFor(colors, category))
  {
  }

  /** The idea card's badge colour, with the intended lookup. */
  function IdeaCardColor(category: string): (r: string)
    ensures category in IdeaCardColors ==> r == IdeaCardColors[category]
    ensures category !in IdeaCardColors ==> r == Gray
  {
    ColorFor(IdeaCardColors, category)
  }

  /** Every category value gets a colour of its own on the idea card; only `other`
      (and any value outside the seven) is gray. */
  lemma IdeaCardColorsDistinct(c: string, d: string)
    requires c in Categories && d in Categories && c != d
    ensures IdeaCardColor(c) != IdeaCardColor(d)
  {
  }

  /** "toString" is not a category, yet the lookup as written does not fall back
      to the `other` entry for it: it returns the inherited method. */
  lemma InheritedNameEscapesFallback()
    ensures LookupAsWritten(IdeaCardColors, "toString") == InheritedMember("toString")
    ensures LookupAsWritten(AuthorCardColors, "constructor") == InheritedMember("constructor")
    ensures IdeaCardColor("toString") == Gray
  {
  }

  /** The author card's badge colour: its table, `design` key included, under
      the intended fallback. The lookup as written is `LookupAsWritten`. */
  function AuthorCardColor(category: string): (r: string)
    ensures category in AuthorCardColors ==> r == AuthorCardColors[category]
    ensures category !in AuthorCardColors ==> r == Gray
  {
    ColorFor(AuthorCardColors, category)
  }

  /** With the table as written, a `creative` idea is gray on the author page but
      purple on the idea card, and the `design` entry matches no category. */
  lemma CreativeIsGrayOnAuthorCard()
    ensures AuthorCardColor("creative") == Gray
    ensures IdeaCardColor("creative") == Purple
    ensures "design" in AuthorCardColors && "design" !in Categories
  {
  }

  /** The author card's table with `creative` in place of `design`. */
  const CorrectedAuthorCardColors: map<string, string> := AuthorCardColors - {"design"} + map["creative" := Purple]

  /** The author card's badge colour with the corrected table: it agrees with the
      idea card on every string, so each category looks the same on both pages. */
  function AuthorCardColorCorrected(category: string): (r: string)
    ensures r == IdeaCardColor(category)
    ensures category in Categories && category != "other" ==> r != Gray
  {
    assert CorrectedAuthorCardColors == IdeaCardColors;
    ColorFor(CorrectedAuthorCardColors, category)
  }
}
