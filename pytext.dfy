/**
 * The few Python `str` and `list` operations the reporter relies on,
 * with the semantics CPython gives them: `str.isspace`, `str.strip()`,
 * `str.startswith`, `str.split(sep)`, `str.split(sep, 1)`, `s[n:]` and
 * list indexing with a negative index.
 */
module PyText {

  /** `c.isspace()`: the characters `str.strip()` removes when given no argument. */
  predicate IsSpace(c: char) {
    ('\t' <= c <= '\r') || ('\U{1C}' <= c <= ' ') || c == '\U{85}' || c == '\U{A0}'
    || c == '\U{1680}' || ('\U{2000}' <= c <= '\U{200A}') || c == '\U{2028}'
    || c == '\U{2029}' || c == '\U{202F}' || c == '\U{205F}' || c == '\U{3000}'
  }

  /** The index of the first non-whitespace character at or after i (|s| if none). */
  function SpanStart(s: string, i: nat): (k: nat)
    requires i <= |s|
    ensures i <= k <= |s|
    decreases |s| - i
  {
    if i < |s| && IsSpace(s[i]) then SpanStart(s, i + 1) else i
  }

  /** Moving back from j, but not below lo, the index just past the last non-whitespace character. */
  function SpanEnd(s: string, lo: nat, j: nat): (k: nat)
    requires lo <= j <= |s|
    ensures lo <= k <= j
    decreases j
  {
    if lo < j && IsSpace(s[j - 1]) then SpanEnd(s, lo, j - 1) else j
  }

  lemma {:induction false} SpanStartStops(s: string, i: nat)
    requires i <= |s|
    ensures forall j :: i <= j < SpanStart(s, i) ==> IsSpace(s[j])
    ensures SpanStart(s, i) == |s| || !IsSpace(s[SpanStart(s, i)])
    decreases |s| - i
  {
    if i < |s| && IsSpace(s[i]) {
      SpanStartStops(s, i + 1);
    }
  }

  lemma {:induction false} SpanEndStops(s: string, lo: nat, j: nat)
    requires lo <= j <= |s|
    ensures forall m :: SpanEnd(s, lo, j) <= m < j ==> IsSpace(s[m])
    ensures SpanEnd(s, lo, j) == lo || !IsSpace(s[SpanEnd(s, lo, j) - 1])
    decreases j
  {
    if lo < j && IsSpace(s[j - 1]) {
      SpanEndStops(s, lo, j - 1);
    }
  }

  /** `s.strip()`: whitespace removed at both ends, nothing removed inside. */
  function Strip(s: string): string {
    var a := SpanStart(s, 0);
    s[a..SpanEnd(s, a, |s|)]
  }

  /**
   * What `strip()` removes: the result is a slice of the text with no
   * whitespace at either end, only whitespace was cut off, and a text
   * that neither starts nor ends with whitespace comes back unchanged.
   */
  lemma StripTrims(s: string)
    ensures exists a, b ::
      && 0 <= a <= b <= |s| && Strip(s) == s[a..b]
      && (forall j :: 0 <= j < a ==> IsSpace(s[j]))
      && (forall j :: b <= j < |s| ==> IsSpace(s[j]))
    ensures Strip(s) == [] || (!IsSpace(Strip(s)[0]) && !IsSpace(Strip(s)[|Strip(s)| - 1]))
    ensures s != [] && !IsSpace(s[0]) && !IsSpace(s[|s| - 1]) ==> Strip(s) == s
  {
    var a := SpanStart(s, 0);
    SpanStartStops(s, 0);
    SpanEndStops(s, a, |s|);
    var b := SpanEnd(s, a, |s|);
    assert Strip(s) == s[a..b];
  }

  /** `s.startswith(p)` */
  predicate StartsWith(s: string, p: string) {
    |p| <= |s| && s[..|p|] == p
  }

  /** `s.index(c)`: the position of the first occurrence of `c`. */
  function FirstIndex(s: string, c: char): (r: nat)
    requires c in s
    ensures r < |s| && s[r] == c
  {
    if s[0] == c then 0
    else
      1 + FirstIndex(s[1..], c)
  }

  /** No earlier occurrence: `FirstIndex` is the first one. */
  lemma {:induction false} FirstIndexIsFirst(s: string, c: char)
    requires c in s
    ensures c !in s[..FirstIndex(s, c)]
    decreases |s|
  {
    if s[0] != c {
      var r := FirstIndex(s[1..], c);
      FirstIndexIsFirst(s[1..], c);
      assert s[..r + 1] == [s[0]] + s[1..][..r];
    }
  }

  /** `sep.join(parts)` for a one-character separator. */
  function Join(parts: seq<string>, sep: char): string
    requires |parts| >= 1
    decreases |parts|
  {
    if |parts| == 1 then parts[0] else parts[0] + [sep] + Join(parts[1..], sep)
  }

  /** A text is what lies before position k, the character at k, and what lies after it. */
  lemma CutAround(s: string, k: nat)
    requires k < |s|
    ensures s[..k] + [s[k]] + s[k + 1..] == s
  {
  }

  /** `s.split(sep)` for a one-character separator: never empty. */
  function Split(s: string, sep: char): (parts: seq<string>)
    ensures |parts| >= 1
    decreases |s|
  {
    if sep in s then
      var k := FirstIndex(s, sep);
      [s[..k]] + Split(s[k + 1..], sep)
    else [s]
  }

  /**
   * No part of a split holds the separator, and the first part is a prefix
   * of the text that ends where the text ends or at a separator.
   */
  lemma {:induction false} SplitParts(s: string, sep: char)
    ensures forall i :: 0 <= i < |Split(s, sep)| ==> sep !in Split(s, sep)[i]
    ensures Split(s, sep)[0] <= s
    ensures |Split(s, sep)[0]| == |s| || s[|Split(s, sep)[0]|] == sep
    decreases |s|
  {
    if sep in s {
      var k := FirstIndex(s, sep);
      FirstIndexIsFirst(s, sep);
      SplitParts(s[k + 1..], sep);
      assert Split(s, sep) == [s[..k]] + Split(s[k + 1..], sep);
    }
  }

  /** `s.split(sep, 1)`: two parts exactly when `sep` occurs. */
  function SplitOnce(s: string, sep: char): (parts: seq<string>)
    ensures 1 <= |parts| <= 2
    ensures |parts| == 2 <==> sep in s
  {
    if sep in s then
      var k := FirstIndex(s, sep);
      [s[..k], s[k + 1..]]
    else [s]
  }

  /**
   * The cut is at the first occurrence: the parts rebuild the text around
   * it, and without an occurrence the one part is the whole text.
   */
  lemma SplitOnceParts(s: string, sep: char)
    ensures sep !in SplitOnce(s, sep)[0] && SplitOnce(s, sep)[0] <= s
    ensures |SplitOnce(s, sep)| == 1 ==> SplitOnce(s, sep)[0] == s
    ensures |SplitOnce(s, sep)| == 2 ==> s == SplitOnce(s, sep)[0] + [sep] + SplitOnce(s, sep)[1]
  {
    if sep in s {
      var k := FirstIndex(s, sep);
      FirstIndexIsFirst(s, sep);
      CutAround(s, k);
    }
  }

  /** `parts[-1]` */
  function Last<T>(parts: seq<T>): T
    requires |parts| >= 1
  {
    parts[|parts| - 1]
  }

  /** `s[n:]`: empty once `n` reaches the end. */
  function Drop(s: string, n: nat): (r: string)
    ensures |r| == if n <= |s| then |s| - n else 0
    ensures r == s[|s| - |r|..]
  {
    if n <= |s| then s[n..] else []
  }

  /** `xs[j]` for a Python index: a negative `j` counts from the end. */
  function PyIndex<T>(xs: seq<T>, j: int): T
    requires -|xs| <= j < |xs|
  {
    if j < 0 then xs[|xs| + j] else xs[j]
  }

  /** Splitting and joining again gives back the text. */
  lemma {:induction false} JoinSplit(s: string, sep: char)
    ensures Join(Split(s, sep), sep) == s
    decreases |s|
  {
    if sep in s {
      var k := FirstIndex(s, sep);
      var rest := Split(s[k + 1..], sep);
      JoinSplit(s[k + 1..], sep);
      var parts := [s[..k]] + rest;
      assert Split(s, sep) == parts;
      assert parts[0] == s[..k] && parts[1..] == rest && |parts| >= 2;
      assert Join(parts, sep) == parts[0] + [sep] + Join(parts[1..], sep);
      CutAround(s, k);
    }
  }

  /** Joining parts free of the separator and splitting again gives back the parts. */
  lemma {:induction false} SplitJoin(parts: seq<string>, sep: char)
    requires |parts| >= 1
    requires forall i :: 0 <= i < |parts| ==> sep !in parts[i]
    ensures Split(Join(parts, sep), sep) == parts
    decreases |parts|
  {
    var s := Join(parts, sep);
    if |parts| > 1 {
      var tail := Join(parts[1..], sep);
      assert s == parts[0] + [sep] + tail;
      assert s[|parts[0]|] == sep;
      assert s[..|parts[0]|] == parts[0];
      var k := FirstIndex(s, sep);
      FirstIndexIsFirst(s, sep);
      assert k == |parts[0]|;
      assert s[k + 1..] == tail;
      SplitJoin(parts[1..], sep);
    }
  }
}
