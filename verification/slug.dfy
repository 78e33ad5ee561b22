/**
 * `generateSlug` in lib/actions.ts (written out twice, identically, in
 * `createIdea` and in `updateIdea`): lower-case the title, drop every code unit
 * that is not a word character, white space or `-`, turn each run of white
 * space into one `-`, then `trim()`.
 */
module Slug {
  import opened JsText

  /** `toLowerCase` of one code unit. ASCII capitals map to their small letters;
      the two non-ASCII code units whose lower case contains an ASCII letter map
      as Unicode says (KELVIN SIGN to `k`, LATIN CAPITAL LETTER I WITH DOT ABOVE
      to `i` and a combining dot). Every other code unit is kept as it is. Either
      it has no case, so its lower case is itself, as here; or it is a non-ASCII
      capital whose lower case is a non-ASCII code unit that is not white space,
      which the slug filter drops just as it drops the capital. So the slug is
      unaffected. */
  function LowerUnit(c: char): (r: string)
    ensures 'A' <= c <= 'Z' ==> r == [(c as int + 32) as char]
    ensures forall i :: 0 <= i < |r| ==> !('A' <= r[i] <= 'Z')
  {
    if 'A' <= c <= 'Z' then [(c as int + 32) as char]
    else if c == '\U{212A}' then "k"
    else if c == '\U{0130}' then "i\U{0307}"
    else [c]
  }

  predicate NoCapital(s: string) {
    forall i :: 0 <= i < |s| ==> !('A' <= s[i] <= 'Z')
  }

  /** `toLowerCase()`: the result holds no ASCII capital. */
  function ToLower(s: string): (r: string)
    ensures NoCapital(r)
  {
    if s == [] then [] else ToLower(s[..|s| - 1]) + LowerUnit(s[|s| - 1])
  }

  /** `\w` without the `u` flag: ASCII letters, digits and `_`. */
  predicate IsWordChar(c: char) {
    ('a' <= c <= 'z') || ('A' <= c <= 'Z') || ('0' <= c <= '9') || c == '_'
  }

  predicate Kept(c: char) {
    IsWordChar(c) || IsSpace(c) || c == '-'
  }

  /** `.replace(/[^\w\s-]/g, '')`: the code units of `s` that are word
      characters, white space or `-`, in order. */
  function KeepWordSpaceHyphen(s: string): (r: string)
    ensures forall i :: 0 <= i < |r| ==> Kept(r[i])
    ensures NoCapital(s) ==> NoCapital(r)
  {
    if s == [] then []
    else if Kept(s[0]) then [s[0]] + KeepWordSpaceHyphen(s[1..])
    else KeepWordSpaceHyphen(s[1..])
  }

  /** `.replace(/\s+/g, '-')`. */
  function HyphenateSpaces(s: string): string {
    CollapseRuns(s, IsSpace, '-')
  }

  /** The code units a slug is made of: small ASCII letters, digits, `_`, `-`. */
  predicate IsSlugChar(c: char) {
    ('a' <= c <= 'z') || ('0' <= c <= '9') || c == '_' || c == '-'
  }

  predicate IsSlug(s: string) {
    forall i :: 0 <= i < |s| ==> IsSlugChar(s[i])
  }

  /** The slug of a title. It consists of slug characters only, and the final
      `trim()` never removes anything: no white space survives the hyphenation. */
  function GenerateSlug(title: string): (r: string)
    ensures IsSlug(r)
  {
    var hyphenated := HyphenateSpaces(KeepWordSpaceHyphen(ToLower(title)));
    HyphenatedIsSlug(title);
    TrimOfTrimmed(hyphenated);
    Trim(hyphenated)
  }

  /** After the hyphenation the string consists of slug characters only. */
  lemma HyphenatedIsSlug(title: string)
    ensures IsSlug(HyphenateSpaces(KeepWordSpaceHyphen(ToLower(title))))
  {
    var kept := KeepWordSpaceHyphen(ToLower(title));
    assert forall i :: 0 <= i < |kept| ==> IsSpace(kept[i]) || IsSlugChar(kept[i]);
    CollapseRunsKeeps(kept, IsSpace, '-', IsSlugChar);
  }

  /** The final `trim()` never removes anything: no white space survives the
      hyphenation. */
  lemma SlugUntrimmed(title: string)
    ensures GenerateSlug(title) == HyphenateSpaces(KeepWordSpaceHyphen(ToLower(title)))
  {
    HyphenatedIsSlug(title);
    TrimOfTrimmed(HyphenateSpaces(KeepWordSpaceHyphen(ToLower(title))));
  }

  /** Lower-casing distributes over concatenation. */
  lemma {:induction false} ToLowerAppend(x: string, y: string)
    ensures ToLower(x + y) == ToLower(x) + ToLower(y)
    decreases |y|
  {
    if y != [] {
      var y' := y[..|y| - 1];
      assert (x + y)[..|x + y| - 1] == x + y';
      ToLowerAppend(x, y');
    } else {
      assert x + y == x;
    }
  }

  /** A string of code units that lower-case to themselves is its own lower case. */
  lemma {:induction false} ToLowerFixed(s: string)
    requires forall i :: 0 <= i < |s| ==> LowerUnit(s[i]) == [s[i]]
    ensures ToLower(s) == s
    decreases |s|
  {
    if s != [] {
      ToLowerFixed(s[..|s| - 1]);
      assert s == s[..|s| - 1] + [s[|s| - 1]];
    }
  }

  /** The filter distributes over concatenation. */
  lemma {:induction false} KeepAppend(x: string, y: string)
    ensures KeepWordSpaceHyphen(x + y) == KeepWordSpaceHyphen(x) + KeepWordSpaceHyphen(y)
    decreases |x|
  {
    if x == [] {
      assert x + y == y;
    } else {
      assert (x + y)[0] == x[0] && (x + y)[1..] == x[1..] + y;
      KeepAppend(x[1..], y);
    }
  }

  /** A string made only of kept code units passes the filter unchanged. */
  lemma {:induction false} KeepAll(s: string)
    requires forall i :: 0 <= i < |s| ==> Kept(s[i])
    ensures KeepWordSpaceHyphen(s) == s
    decreases |s|
  {
    if s != [] {
      KeepAll(s[1..]);
    }
  }

  /** A slug is its own slug. */
  lemma SlugOfSlug(s: string)
    requires IsSlug(s)
    ensures GenerateSlug(s) == s
  {
    forall i | 0 <= i < |s| ensures LowerUnit(s[i]) == [s[i]] && Kept(s[i]) && !IsSpace(s[i]) {
      assert IsSlugChar(s[i]);
    }
    ToLowerFixed(s);
    KeepAll(s);
    CollapseRunsNoRun(s, IsSpace, '-');
  }

  /** Slugging is idempotent. */
  lemma GenerateSlugIdempotent(title: string)
    ensures GenerateSlug(GenerateSlug(title)) == GenerateSlug(title)
  {
    SlugOfSlug(GenerateSlug(title));
  }

  lemma UnitFixed(c: char)
    requires IsSlugChar(c) || IsSpace(c)
    ensures LowerUnit(c) == [c] && Kept(c)
  {
    assert !('A' <= c <= 'Z') && c != '\U{212A}' && c != '\U{0130}';
  }

  /** Slug characters and white space are their own lower case and pass the filter. */
  lemma LowerAndKeepFixed(s: string)
    requires forall i :: 0 <= i < |s| ==> IsSlugChar(s[i]) || IsSpace(s[i])
    ensures ToLower(s) == s && KeepWordSpaceHyphen(s) == s
  {
    forall i | 0 <= i < |s| ensures LowerUnit(s[i]) == [s[i]] && Kept(s[i]) {
      UnitFixed(s[i]);
    }
    ToLowerFixed(s);
    KeepAll(s);
  }

  /** A prefix already lower-cased and filtered passes the first two steps unchanged. */
  lemma LowerKeepPrefix(p: string, b: string)
    requires forall i :: 0 <= i < |p| ==> IsSlugChar(p[i]) || IsSpace(p[i])
    ensures KeepWordSpaceHyphen(ToLower(p + b)) == p + KeepWordSpaceHyphen(ToLower(b))
  {
    LowerAndKeepFixed(p);
    ToLowerAppend(p, b);
    KeepAppend(p, ToLower(b));
  }

  /** A string starting with a slug character still starts with it after the
      first two steps. */
  lemma LowerKeepHead(b: string)
    requires b != [] && IsSlugChar(b[0])
    ensures var k := KeepWordSpaceHyphen(ToLower(b)); k != [] && k[0] == b[0]
  {
    assert b == [b[0]] + b[1..];
    LowerKeepPrefix([b[0]], b[1..]);
  }

  /** After a slug-shaped prefix, a maximal run of white space becomes exactly one
      `-`, whatever its length, and the rest is slugged on its own. */
  lemma {:induction false} SlugOfSpaceRun(a: string, w: string, b: string)
    requires IsSlug(a)
    requires w != [] && forall i :: 0 <= i < |w| ==> IsSpace(w[i])
    requires b == [] || IsSlugChar(b[0])
    ensures GenerateSlug(a + w + b) == a + "-" + GenerateSlug(b)
  {
    var kb := KeepWordSpaceHyphen(ToLower(b));
    SlugThenSpace(a, w);
    LowerKeepPrefix(a + w, b);
    assert a + w + kb == (a + w) + kb;
    if b != [] {
      LowerKeepHead(b);
    }
    HyphenateAfterSlug(a, w, kb);
    SlugUntrimmed(a + w + b);
    SlugUntrimmed(b);
  }

  lemma SlugThenSpace(a: string, w: string)
    requires IsSlug(a)
    requires forall i :: 0 <= i < |w| ==> IsSpace(w[i])
    ensures forall i :: 0 <= i < |a + w| ==> IsSlugChar((a + w)[i]) || IsSpace((a + w)[i])
  {
  }

  /** Hyphenation leaves slug characters alone and turns the run that follows
      them into one `-`. */
  lemma {:induction false} HyphenateAfterSlug(a: string, w: string, kb: string)
    requires IsSlug(a)
    requires w != [] && forall i :: 0 <= i < |w| ==> IsSpace(w[i])
    requires kb == [] || !IsSpace(kb[0])
    ensures HyphenateSpaces(a + w + kb) == a + "-" + HyphenateSpaces(kb)
  {
    assert a == [] || IsSlugChar(a[|a| - 1]);
    CollapseRunsSplit(a, w, kb, IsSpace, '-');
    CollapseRunsNoRun(a, IsSpace, '-');
  }

  /** White space at either end is not trimmed but hyphenated, as in " a "
      giving "-a-". */
  lemma SlugOfPaddedSlug(w1: string, a: string, w2: string)
    requires IsSlug(a) && a != []
    requires w1 != [] && forall i :: 0 <= i < |w1| ==> IsSpace(w1[i])
    requires w2 != [] && forall i :: 0 <= i < |w2| ==> IsSpace(w2[i])
    ensures GenerateSlug(w1 + a + w2) == "-" + a + "-"
  {
    var t := w1 + a + w2;
    PaddedSlugChars(w1, a, w2);
    LowerAndKeepFixed(t);
    HyphenatePadded(w1, a, w2);
    SlugUntrimmed(t);
  }

  lemma PaddedSlugChars(w1: string, a: string, w2: string)
    requires IsSlug(a)
    requires forall i :: 0 <= i < |w1| ==> IsSpace(w1[i])
    requires forall i :: 0 <= i < |w2| ==> IsSpace(w2[i])
    ensures var t := w1 + a + w2;
            forall i :: 0 <= i < |t| ==> IsSlugChar(t[i]) || IsSpace(t[i])
  {
    var t := w1 + a + w2;
    forall i | 0 <= i < |t| ensures IsSlugChar(t[i]) || IsSpace(t[i]) {
      if i < |w1| {
        assert t[i] == w1[i];
      } else if i < |w1| + |a| {
        assert t[i] == a[i - |w1|];
      } else {
        assert t[i] == w2[i - |w1| - |a|];
      }
    }
  }

  lemma HyphenatePadded(w1: string, a: string, w2: string)
    requires IsSlug(a) && a != []
    requires w1 != [] && forall i :: 0 <= i < |w1| ==> IsSpace(w1[i])
    requires w2 != [] && forall i :: 0 <= i < |w2| ==> IsSpace(w2[i])
    ensures HyphenateSpaces(w1 + a + w2) == "-" + a + "-"
  {
    var aw := a + w2;
    assert CollapseRuns(aw, IsSpace, '-') == a + "-" by {
      assert IsSlugChar(a[|a| - 1]);
      CollapseRunsSplit(a, w2, [], IsSpace, '-');
      CollapseRunsNoRun(a, IsSpace, '-');
      assert a + w2 + [] == aw;
    }
    assert CollapseRuns(w1 + aw, IsSpace, '-') == "-" + CollapseRuns(aw, IsSpace, '-') by {
      assert aw[0] == a[0] && IsSlugChar(a[0]);
      CollapseRunsOneRun(w1, aw, IsSpace, '-');
    }
    assert w1 + a + w2 == w1 + aw;
  }

  /** A hyphen with a space on each side becomes three hyphens: each space turns
      into one of its own. */
  lemma SlugOfSpacedHyphen(a: string, b: string)
    requires IsSlug(a) && IsSlug(b)
    ensures GenerateSlug(a + " - " + b) == a + "---" + b
  {
    var t := a + " " + ("-" + " " + b);
    assert t == a + " - " + b;
    SlugOrSpaceConcat(a, b);
    LowerAndKeepFixed(t);
    HyphenateSpacedHyphen(a, b);
    SlugUntrimmed(t);
  }

  lemma SlugOrSpaceConcat(a: string, b: string)
    requires IsSlug(a) && IsSlug(b)
    ensures var t := a + " " + ("-" + " " + b);
            forall i :: 0 <= i < |t| ==> IsSlugChar(t[i]) || IsSpace(t[i])
  {
  }

  lemma HyphenateSpacedHyphen(a: string, b: string)
    requires IsSlug(a) && IsSlug(b)
    ensures HyphenateSpaces(a + " " + ("-" + " " + b)) == a + "---" + b
  {
    var hyphen, space := ['-'], [' '];
    var rest := hyphen + space + b;
    assert IsSpace(' ') && !IsSpace('-');
    assert a == [] || !IsSpace(a[|a| - 1]) by {
      if a != [] {
        assert IsSlugChar(a[|a| - 1]);
      }
    }
    assert b == [] || !IsSpace(b[0]) by {
      if b != [] {
        assert IsSlugChar(b[0]);
      }
    }
    assert CollapseRuns(rest, IsSpace, '-') == hyphen + hyphen + b by {
      CollapseRunsSplit(hyphen, space, b, IsSpace, '-');
      CollapseRunsNoRun(hyphen, IsSpace, '-');
      CollapseRunsNoRun(b, IsSpace, '-');
    }
    assert CollapseRuns(a + space + rest, IsSpace, '-') == a + hyphen + CollapseRuns(rest, IsSpace, '-') by {
      assert rest[0] == '-';
      CollapseRunsSplit(a, space, rest, IsSpace, '-');
      CollapseRunsNoRun(a, IsSpace, '-');
    }
    assert a + " " + ("-" + " " + b) == a + space + rest;
    assert a + hyphen + (hyphen + hyphen + b) == a + "---" + b;
  }

  /** " a " is slugged as "-a-". */
  lemma SlugOfPaddedLetter()
    ensures GenerateSlug(" a ") == "-a-"
  {
    var t := " a ";
    assert t == " " + "a" + " ";
    SlugOfPaddedSlug(" ", "a", " ");
  }

  /** "a - b" is slugged as "a---b". */
  lemma SlugOfSpacedHyphenLetters()
    ensures GenerateSlug("a - b") == "a---b"
  {
    var a, b := ['a'], ['b'];
    assert IsSlugChar('a') && IsSlugChar('b');
    SlugOfSpacedHyphen(a, b);
    assert a + " - " + b == "a - b";
    assert a + "---" + b == "a---b";
  }
}
