/**
 * The pieces of JavaScript's string semantics the application relies on.
 * A JavaScript string is a sequence of UTF-16 code units. It is modelled as
 * `string`, whose elements are Unicode scalar values; the two agree on text
 * made of Basic Multilingual Plane characters, which is what the model covers.
 */
module JsText {
  import opened Wrappers

  /** The code units ECMAScript's `\s` class and `String.prototype.trim` treat as
      white space: WhiteSpace (tab, vertical tab, form feed, space, no-break space,
      byte order mark, the space separators U+1680, U+2000 to U+200A, U+202F,
      U+205F, U+3000) and LineTerminator (LF, CR, U+2028, U+2029). */
  predicate IsSpace(c: char) {
    var n := c as int;
    if n < 0x00A0 then (0x09 <= n <= 0x0D) || n == 0x20
    else (n == 0x00A0 || n == 0x1680 || (0x2000 <= n <= 0x200A) || n == 0x2028 || n == 0x2029
          || n == 0x202F || n == 0x205F || n == 0x3000 || n == 0xFEFF)
  }

  /** A string whose first and last code units are not white space. */
  predicate Trimmed(s: string) {
    s == [] || (!IsSpace(s[0]) && !IsSpace(s[|s| - 1]))
  }

  /** JavaScript truthiness of a possibly-absent string: present and non-empty. */
  predicate Truthy(v: Option<string>) {
    v.Some? && v.value != ""
  }

  /** `v || fallback` for a possibly-absent string. */
  function Or(v: Option<string>, fallback: string): string {
    if Truthy(v) then v.value else fallback
  }

  /** Removes the white space at the start. */
  function TrimStart(s: string): (r: string)
    ensures |r| <= |s|
    ensures r == [] || !IsSpace(r[0])
  {
    if s != [] && IsSpace(s[0]) then TrimStart(s[1..]) else s
  }

  /** Removes the white space at the end. */
  function TrimEnd(s: string): (r: string)
    ensures |r| <= |s|
    ensures r == [] || !IsSpace(r[|r| - 1])
    ensures r != [] ==> r[0] == s[0]
  {
    if s != [] && IsSpace(s[|s| - 1]) then TrimEnd(s[..|s| - 1]) else s
  }

  /** `String.prototype.trim`: no white space is left at either end. */
  function Trim(s: string): (r: string)
    ensures Trimmed(r)
    ensures |r| <= |s|
  {
    TrimEnd(TrimStart(s))
  }

  /** `TrimStart` removes a prefix made of white space only. */
  lemma {:induction false} TrimStartRemovesSpace(s: string)
    ensures var r := TrimStart(s);
            r == s[|s| - |r|..] && forall i :: 0 <= i < |s| - |r| ==> IsSpace(s[i])
    decreases |s|
  {
    if s != [] && IsSpace(s[0]) {
      TrimStartRemovesSpace(s[1..]);
    }
  }

  /** `TrimEnd` removes a suffix made of white space only. */
  lemma {:induction false} TrimEndRemovesSpace(s: string)
    ensures var r := TrimEnd(s);
            r == s[..|r|] && forall i :: |r| <= i < |s| ==> IsSpace(s[i])
    decreases |s|
  {
    if s != [] && IsSpace(s[|s| - 1]) {
      TrimEndRemovesSpace(s[..|s| - 1]);
    }
  }

  /** `trim` keeps a contiguous piece of `s`, and everything it cuts off on either
      side is white space. */
  lemma TrimRemovesSpace(s: string)
    ensures var r := Trim(s);
            var k := |s| - |TrimStart(s)|;
            && k + |r| <= |s| && r == s[k..k + |r|]
            && (forall i :: 0 <= i < k ==> IsSpace(s[i]))
            && (forall i :: k + |r| <= i < |s| ==> IsSpace(s[i]))
  {
    TrimStartRemovesSpace(s);
    TrimEndRemovesSpace(TrimStart(s));
  }

  /** Trimming a string without white space at its ends gives it back. */
  lemma TrimOfTrimmed(s: string)
    requires Trimmed(s)
    ensures Trim(s) == s
  {
    assert TrimStart(s) == s;
    assert TrimEnd(s) == s;
  }

  /** A global regular-expression replacement of `[class]+` by the single code unit
      `sep`, where `inRun` decides membership of the class: `.replace(/\s+/g, '-')`
      and `.replace(/\n+/g, ' ')`. The matcher is greedy, so every maximal run of
      class members becomes exactly one `sep`; here the `sep` is emitted at the last
      member of each run. */
  function CollapseRuns(s: string, inRun: char -> bool, sep: char): (r: string)
    ensures |r| <= |s|
    ensures r == [] <==> s == []
  {
    if s == [] then []
    else if !inRun(s[0]) then [s[0]] + CollapseRuns(s[1..], inRun, sep)
    else if |s| > 1 && inRun(s[1]) then CollapseRuns(s[1..], inRun, sep)
    else [sep] + CollapseRuns(s[1..], inRun, sep)
  }

  /** If every code unit of `s` outside the class has property `ok`, and so does
      `sep`, then every code unit of the result has it and none is in the class
      (when `sep` is not). */
  lemma {:induction false} CollapseRunsKeeps(s: string, inRun: char -> bool, sep: char, ok: char -> bool)
    requires ok(sep) && !inRun(sep)
    requires forall i :: 0 <= i < |s| ==> inRun(s[i]) || ok(s[i])
    ensures forall i :: 0 <= i < |CollapseRuns(s, inRun, sep)| ==>
              ok(CollapseRuns(s, inRun, sep)[i]) && !inRun(CollapseRuns(s, inRun, sep)[i])
    decreases |s|
  {
    if s != [] {
      CollapseRunsKeeps(s[1..], inRun, sep, ok);
    }
  }

  /** A string with no class member comes back unchanged. */
  lemma {:induction false} CollapseRunsNoRun(s: string, inRun: char -> bool, sep: char)
    requires forall i :: 0 <= i < |s| ==> !inRun(s[i])
    ensures CollapseRuns(s, inRun, sep) == s
    decreases |s|
  {
    if s != [] {
      CollapseRunsNoRun(s[1..], inRun, sep);
    }
  }

  /** A non-empty run followed by a non-member (or by nothing) becomes one `sep`. */
  lemma {:induction false} CollapseRunsOneRun(w: string, b: string, inRun: char -> bool, sep: char)
    requires w != [] && forall i :: 0 <= i < |w| ==> inRun(w[i])
    requires b == [] || !inRun(b[0])
    ensures CollapseRuns(w + b, inRun, sep) == [sep] + CollapseRuns(b, inRun, sep)
    decreases |w|
  {
    var s := w + b;
    assert s[0] == w[0] && s[1..] == w[1..] + b;
    if |w| == 1 {
      assert s[1..] == b;
    } else {
      assert s[1] == w[1];
      CollapseRunsOneRun(w[1..], b, inRun, sep);
    }
  }

  /** The replacement works on each side of a boundary that no run crosses. */
  lemma {:induction false} CollapseRunsAppend(a: string, t: string, inRun: char -> bool, sep: char)
    requires a == [] || t == [] || !inRun(a[|a| - 1]) || !inRun(t[0])
    ensures CollapseRuns(a + t, inRun, sep) == CollapseRuns(a, inRun, sep) + CollapseRuns(t, inRun, sep)
    decreases |a|
  {
    if a != [] {
      var a1 := a[1..];
      assert a == [a[0]] + a1;
      assert a + t == [a[0]] + (a1 + t);
      assert a1 == [] || a1[|a1| - 1] == a[|a| - 1];
      CollapseRunsAppend(a1, t, inRun, sep);
      CollapseRunsStep(a[0], a1, t, inRun, sep);
    } else {
      assert a + t == t;
    }
  }

  /** One step of the replacement, for a code unit before `rest + t`. */
  lemma {:induction false} CollapseRunsStep(c: char, rest: string, t: string, inRun: char -> bool, sep: char)
    requires rest == [] ==> t == [] || !inRun(c) || !inRun(t[0])
    requires CollapseRuns(rest + t, inRun, sep) == CollapseRuns(rest, inRun, sep) + CollapseRuns(t, inRun, sep)
    ensures CollapseRuns([c] + (rest + t), inRun, sep) == CollapseRuns([c] + rest, inRun, sep) + CollapseRuns(t, inRun, sep)
  {
    var s, x := [c] + (rest + t), [c] + rest;
    assert s[1..] == rest + t && x[1..] == rest;
    if rest != [] {
      assert s[1] == rest[0] == x[1];
    } else if t != [] {
      assert s[1] == t[0];
    }
  }

  /** The replacement distributes over the string around one maximal run `w`:
      the run becomes exactly one `sep` however long it is. */
  lemma {:induction false} CollapseRunsSplit(a: string, w: string, b: string, inRun: char -> bool, sep: char)
    requires a == [] || !inRun(a[|a| - 1])
    requires w != [] && forall i :: 0 <= i < |w| ==> inRun(w[i])
    requires b == [] || !inRun(b[0])
    ensures CollapseRuns(a + w + b, inRun, sep)
         == CollapseRuns(a, inRun, sep) + [sep] + CollapseRuns(b, inRun, sep)
  {
    assert a + w + b == a + (w + b);
    CollapseRunsAppend(a, w + b, inRun, sep);
    CollapseRunsOneRun(w, b, inRun, sep);
  }

  /** The decimal digits JavaScript prints for a non-negative integer (`${n}`). */
  function DecimalString(n: nat): (r: string)
    ensures |r| >= 1
    ensures forall i :: 0 <= i < |r| ==> '0' <= r[i] <= '9'
    ensures |r| > 1 ==> r[0] != '0'
  {
    if n < 10 then [Digit(n)] else DecimalString(n / 10) + [Digit(n % 10)]
  }

  function Digit(d: nat): (c: char)
    requires d < 10
    ensures '0' <= c <= '9'
  {
    (48 + d) as char
  }

  /** The value of a string of decimal digits. */
  function DecimalValue(s: string): nat
    requires forall i :: 0 <= i < |s| ==> '0' <= s[i] <= '9'
  {
    if s == [] then 0 else 10 * DecimalValue(s[..|s| - 1]) + (s[|s| - 1] as int - 48)
  }

  /** Printing a number and reading the digits back gives the number. */
  lemma {:induction false} DecimalRoundTrip(n: nat)
    ensures DecimalValue(DecimalString(n)) == n
  {
    if n >= 10 {
      DecimalRoundTrip(n / 10);
      var s := DecimalString(n);
      assert s[..|s| - 1] == DecimalString(n / 10);
    }
  }
}
