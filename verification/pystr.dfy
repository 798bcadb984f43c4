/** Optional values, as used for "no match" and "not found" results. */
module Wrappers {
  datatype Option<+T> = None | Some(value: T)
}

/**
 * The pieces of Python's string behaviour that the extractor and the
 * indexer rely on: `str.isspace`, `str.strip`, literal prefix search and
 * the character classes `\s`, `\w`, `\d` and `.` (without DOTALL).
 */
module PyStr {
  import opened Wrappers

  /** Python's `str.isspace()` for one character (also the class `\s`). */
  predicate IsSpace(c: char) {
    var n := c as int;
    (9 <= n <= 13) || (28 <= n <= 32) || n == 0x85 || n == 0xA0 || n == 0x1680
    || (0x2000 <= n <= 0x200A) || n == 0x2028 || n == 0x2029 || n == 0x202F
    || n == 0x205F || n == 0x3000
  }

  /** The ASCII part of `\w`: letters, digits and underscore. */
  predicate IsWordChar(c: char) {
    ('a' <= c <= 'z') || ('A' <= c <= 'Z') || ('0' <= c <= '9') || c == '_'
  }

  /** The ASCII part of `\d`. */
  predicate IsDigit(c: char) {
    '0' <= c <= '9'
  }

  predicate AllSpace(s: string) {
    forall i :: 0 <= i < |s| ==> IsSpace(s[i])
  }

  /** Neither the first nor the last character is whitespace. */
  predicate IsStripped(s: string) {
    |s| == 0 || (!IsSpace(s[0]) && !IsSpace(s[|s| - 1]))
  }

  /** Scanning back from `e` (not below `lo`), the end of the last non-whitespace character. */
  function TrimEnd(s: string, lo: nat, e: nat): (h: nat)
    requires lo <= e <= |s|
    decreases e
    ensures lo <= h <= e
    ensures forall m :: h <= m < e ==> IsSpace(s[m])
    ensures h == lo || !IsSpace(s[h - 1])
  {
    if e > lo && IsSpace(s[e - 1]) then TrimEnd(s, lo, e - 1) else e
  }

  /** Where `str.strip()` cuts: all before `lo` and all from `hi` on is whitespace. */
  function StripBounds(s: string): (b: (nat, nat))
    ensures b.0 <= b.1 <= |s|
    ensures forall m :: 0 <= m < b.0 ==> IsSpace(s[m])
    ensures forall m :: b.1 <= m < |s| ==> IsSpace(s[m])
    ensures b.0 < b.1 ==> !IsSpace(s[b.0]) && !IsSpace(s[b.1 - 1])
  {
    var lo := SkipRun(s, 0, Space);
    (lo, TrimEnd(s, lo, |s|))
  }

  /** `str.strip()` with no argument: leading and trailing whitespace removed. */
  function Strip(s: string): (r: string)
    ensures IsStripped(r) && |r| <= |s|
    ensures exists lo: nat :: lo + |r| <= |s| && s[lo..lo + |r|] == r
                              && AllSpace(s[..lo]) && AllSpace(s[lo + |r|..])
    ensures r == "" <==> AllSpace(s)
    ensures IsStripped(s) ==> r == s
  {
    var b := StripBounds(s);
    assert AllSpace(s[..b.0]) && AllSpace(s[b.1..]);
    s[b.0..b.1]
  }

  /** Stripping twice is stripping once. */
  lemma StripIdempotent(s: string)
    ensures Strip(Strip(s)) == Strip(s)
  {
  }

  /** Stripping a stripped, non-empty text followed by whitespace gives the text back. */
  lemma StripPadded(a: string, w: string)
    requires IsStripped(a) && a != "" && AllSpace(w)
    ensures Strip(a + w) == a
  {
    var s := a + w;
    assert s[..|a|] == a;
    assert forall j :: |a| <= j < |s| ==> s[j] == w[j - |a|];
    var b := StripBounds(s);
    assert b.0 == 0 by {
      assert !IsSpace(s[0]);
    }
    assert b.1 == |a| by {
      assert !IsSpace(s[|a| - 1]);
    }
  }

  /** `pat` occurs in `t` at offset `i`. */
  predicate StartsWithAt(t: string, i: nat, pat: string) {
    i + |pat| <= |t| && t[i..i + |pat|] == pat
  }

  /** The first offset at or after `j` where `pat` occurs (a left-to-right scan). */
  function FindFrom(t: string, pat: string, j: nat): (r: Option<nat>)
    requires |pat| > 0
    decreases |t| - j
    ensures r.Some? ==> j <= r.value && StartsWithAt(t, r.value, pat)
    ensures r.Some? ==> forall k :: j <= k < r.value ==> !StartsWithAt(t, k, pat)
    ensures r.None? ==> forall k: nat :: j <= k ==> !StartsWithAt(t, k, pat)
  {
    if j + |pat| > |t| then None
    else if StartsWithAt(t, j, pat) then Some(j)
    else FindFrom(t, pat, j + 1)
  }

  /** The character classes a regular expression here repeats with `*` or `+`. */
  datatype CharClass =
    | Space            // \s
    | Word             // \w
    | Digit            // \d
    | LineChar         // . without DOTALL: anything but a newline
    | Inside(q: char)  // what .*? may cross inside a q-quoted string on one line

  predicate InClass(c: char, k: CharClass) {
    match k
    case Space => IsSpace(c)
    case Word => IsWordChar(c)
    case Digit => IsDigit(c)
    case LineChar => c != '\n'
    case Inside(q) => c != q && c != '\n'
  }

  /** The end of the longest run of class `k` starting at `j` (a greedy repeat). */
  function SkipRun(t: string, j: nat, k: CharClass): (e: nat)
    requires j <= |t|
    decreases |t| - j
    ensures j <= e <= |t|
    ensures forall m :: j <= m < e ==> InClass(t[m], k)
    ensures e == |t| || !InClass(t[e], k)
  {
    if j < |t| && InClass(t[j], k) then SkipRun(t, j + 1, k) else j
  }
}
