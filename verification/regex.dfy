/**
 * The eight regular expressions of the core, each as a matcher that
 * answers "does the pattern match starting exactly at offset i, and with
 * which span", plus Python's `re.finditer` as a left-to-right scanner:
 * the leftmost match is reported and scanning resumes at its end.
 *
 * With backtracking, each of these patterns has at most one match at a
 * given offset: a lazy `.*?` body takes the shortest run that lets the
 * closing delimiter follow, and a greedy `\s+`, `\w+` or `\d+` takes the
 * longest run (the neighbouring classes are disjoint, so giving back a
 * character never helps).
 */
module Regex {
  import opened Wrappers
  import opened PyStr

  /** One match: the span of the whole match and of group 1
      (the whole match again for a pattern without a group). */
  datatype Match = Match(start: nat, groupStart: nat, groupEnd: nat, end: nat)

  /** A non-empty match that lies inside a text of length `n`. */
  predicate Within(m: Match, n: nat) {
    m.start <= m.groupStart <= m.groupEnd <= m.end <= n && m.start < m.end
  }

  const Fence := "```"
  const PythonOpen := "```python\n"
  const PlainOpen := "```\n"
  const FenceClose := "\n```"

  datatype Pattern =
    | PythonFence          // ```python\n(.*?)\n```           with DOTALL
    | PlainFence           // ```\n(.*?)\n```                 with DOTALL
    | BareFence            // ```(.*?)```                     with DOTALL
    | OptionalPythonFence  // ```(?:python)?\n(.*?)\n```      with DOTALL
    | AnyFence             // the three fence patterns as one alternation
    | QuotedString         // a "-quoted or '-quoted run, lazily, on one line
    | LineComment          // #.*$                            with MULTILINE
    | FunctionName         // def\s+(\w+)\s*\(
    | Number               // \b\d+\b

  /**
   * A fenced block at `i`: the opener, then the shortest body (any
   * characters, newlines included) after which the closer follows.
   */
  function FenceMatch(t: string, i: nat, open: string, close: string): (r: Option<Match>)
    requires |close| > 0
    ensures r.Some? ==>
      && r.value.start == i && StartsWithAt(t, i, open)
      && r.value.groupStart == i + |open| <= r.value.groupEnd
      && StartsWithAt(t, r.value.groupEnd, close)
      && r.value.end == r.value.groupEnd + |close|
      && (forall k :: r.value.groupStart <= k < r.value.groupEnd ==> !StartsWithAt(t, k, close))
    ensures r.None? ==>
      !StartsWithAt(t, i, open) || forall k: nat :: i + |open| <= k ==> !StartsWithAt(t, k, close)
  {
    if StartsWithAt(t, i, open) then
      match FindFrom(t, close, i + |open|)
      case Some(k) => Some(Match(i, i + |open|, k, k + |close|))
      case None => None
    else None
  }

  /**
   * The optional `python` tag is tried first; when the tag is present but
   * no body and closer follow it, dropping the tag cannot help, because
   * the newline would then have to stand where the `p` is.
   */
  function OptionalPythonFenceAt(t: string, i: nat): (r: Option<Match>)
    ensures r.Some? ==>
      && r.value.start == i
      && (if StartsWithAt(t, i, PythonOpen) then r.value.groupStart == i + |PythonOpen|
          else StartsWithAt(t, i, PlainOpen) && r.value.groupStart == i + |PlainOpen|)
      && r.value.groupStart <= r.value.groupEnd
      && StartsWithAt(t, r.value.groupEnd, FenceClose)
      && r.value.end == r.value.groupEnd + |FenceClose|
      && (forall k :: r.value.groupStart <= k < r.value.groupEnd ==> !StartsWithAt(t, k, FenceClose))
    ensures r.None? ==>
      && (StartsWithAt(t, i, PythonOpen) ==>
            forall k: nat :: i + |PythonOpen| <= k ==> !StartsWithAt(t, k, FenceClose))
      && (StartsWithAt(t, i, PlainOpen) ==>
            forall k: nat :: i + |PlainOpen| <= k ==> !StartsWithAt(t, k, FenceClose))
  {
    if StartsWithAt(t, i, PythonOpen) then
      assert t[i + 3] == 'p';
      FenceMatch(t, i, PythonOpen, FenceClose)
    else FenceMatch(t, i, PlainOpen, FenceClose)
  }

  /**
   * The three fence patterns joined into one alternation: at each offset
   * the tagged form is tried first, then the untagged one, then the bare
   * one, so each fence is consumed by exactly one of them.
   */
  function AnyFenceAt(t: string, i: nat): (r: Option<Match>)
    ensures r.Some? <==>
      || FenceMatch(t, i, PythonOpen, FenceClose).Some?
      || FenceMatch(t, i, PlainOpen, FenceClose).Some?
      || FenceMatch(t, i, Fence, Fence).Some?
    ensures FenceMatch(t, i, PythonOpen, FenceClose).Some? ==> r == FenceMatch(t, i, PythonOpen, FenceClose)
  {
    match FenceMatch(t, i, PythonOpen, FenceClose)
    case Some(m) => Some(m)
    case None =>
      match FenceMatch(t, i, PlainOpen, FenceClose)
      case Some(m) => Some(m)
      case None => FenceMatch(t, i, Fence, Fence)
  }

  predicate IsQuote(c: char) {
    c == '"' || c == '\''
  }

  /** No newline in `t[a..b]`. */
  predicate OnOneLine(t: string, a: nat, b: nat)
    requires a <= b <= |t|
  {
    forall m :: a <= m < b ==> t[m] != '\n'
  }

  /** A string literal at `i`: a quote, then the shortest run without a
      newline that the same quote closes. */
  function QuotedStringAt(t: string, i: nat): (r: Option<Match>)
    requires i <= |t|
    ensures r.Some? ==>
      && r.value.start == r.value.groupStart == i && r.value.groupEnd == r.value.end
      && i + 2 <= r.value.end <= |t|
      && IsQuote(t[i]) && t[r.value.end - 1] == t[i]
      && (forall k :: i < k < r.value.end - 1 ==> t[k] != t[i] && t[k] != '\n')
    ensures r.None? ==>
      || i == |t| || !IsQuote(t[i])
      || forall e :: i < e < |t| && t[e] == t[i] ==> !OnOneLine(t, i + 1, e)
  {
    if i < |t| && IsQuote(t[i]) then
      var e := SkipRun(t, i + 1, Inside(t[i]));
      if e < |t| && t[e] == t[i] then Some(Match(i, i, e + 1, e + 1))
      else
        assert forall e' :: i < e' < |t| && t[e'] == t[i] ==> e <= e' && t[e] == '\n';
        None
    else None
  }

  /** A comment at `i`: a `#` and everything up to the end of its line. */
  function LineCommentAt(t: string, i: nat): (r: Option<Match>)
    requires i <= |t|
    ensures r.Some? <==> i < |t| && t[i] == '#'
    ensures r.Some? ==>
      && r.value.start == r.value.groupStart == i && r.value.groupEnd == r.value.end
      && i < r.value.end <= |t| && OnOneLine(t, i, r.value.end)
      && (r.value.end == |t| || t[r.value.end] == '\n')
  {
    if i < |t| && t[i] == '#' then
      var e := SkipRun(t, i, LineChar);
      Some(Match(i, i, e, e))
    else None
  }

  /** `def`, whitespace in `[i+3, gs)`, an identifier in `[gs, ge)`,
      optional whitespace in `[ge, e-1)` and `(` at `e-1`. */
  predicate DefShape(t: string, i: nat, gs: nat, ge: nat, e: nat) {
    && StartsWithAt(t, i, "def") && i + 3 < gs < ge < e <= |t|
    && (forall k :: i + 3 <= k < gs ==> IsSpace(t[k]))
    && (forall k :: gs <= k < ge ==> IsWordChar(t[k]))
    && (forall k :: ge <= k < e - 1 ==> IsSpace(t[k]))
    && t[e - 1] == '('
  }

  /** A function definition head at `i`; group 1 is the function's name. */
  function FunctionNameAt(t: string, i: nat): (r: Option<Match>)
    requires i <= |t|
    ensures r.Some? ==>
      r.value.start == i && DefShape(t, i, r.value.groupStart, r.value.groupEnd, r.value.end)
    ensures r.None? ==> forall gs: nat, ge: nat, e: nat :: !DefShape(t, i, gs, ge, e)
  {
    if StartsWithAt(t, i, "def") then
      var gs := SkipRun(t, i + 3, Space);
      var ge := SkipRun(t, gs, Word);
      var close := SkipRun(t, ge, Space);
      if i + 3 < gs < ge && close < |t| && t[close] == '(' then
        Some(Match(i, gs, ge, close + 1))
      else
        assert forall gs': nat, ge': nat, e': nat :: !DefShape(t, i, gs', ge', e') by {
          forall gs': nat, ge': nat, e': nat ensures !DefShape(t, i, gs', ge', e') {
            DefShapeIsGreedy(t, i, gs', ge', e');
          }
        }
        None
    else None
  }

  /** A def-head shape is the one the greedy runs find. */
  lemma DefShapeIsGreedy(t: string, i: nat, gs: nat, ge: nat, e: nat)
    ensures DefShape(t, i, gs, ge, e) ==>
      && gs == SkipRun(t, i + 3, Space)
      && ge == SkipRun(t, gs, Word)
      && e - 1 == SkipRun(t, ge, Space)
  {
    if DefShape(t, i, gs, ge, e) {
      assert !IsSpace(t[gs]);
      assert !IsWordChar(t[ge]);
    }
  }

  /** Between `k - 1` and `k` one side is a word character and the other is not. */
  predicate WordBoundary(t: string, k: nat)
    requires k <= |t|
  {
    (k > 0 && IsWordChar(t[k - 1])) != (k < |t| && IsWordChar(t[k]))
  }

  /** Digits in `[i, e)`, with a word boundary on both sides. */
  predicate NumberShape(t: string, i: nat, e: nat) {
    && i < e <= |t|
    && (forall k :: i <= k < e ==> IsDigit(t[k]))
    && WordBoundary(t, i) && WordBoundary(t, e)
  }

  /** A whole-word number at `i`. */
  function NumberAt(t: string, i: nat): (r: Option<Match>)
    requires i <= |t|
    ensures r.Some? ==>
      && r.value.start == r.value.groupStart == i && r.value.groupEnd == r.value.end
      && NumberShape(t, i, r.value.end)
    ensures r.None? ==> forall e: nat :: !NumberShape(t, i, e)
  {
    if i < |t| && IsDigit(t[i]) && WordBoundary(t, i) then
      var e := SkipRun(t, i, Digit);
      if WordBoundary(t, e) then Some(Match(i, i, e, e))
      else
        assert forall e': nat :: !NumberShape(t, i, e') by {
          forall e': nat ensures !NumberShape(t, i, e') {
          }
        }
        None
    else None
  }

  /** The match of pattern `p` that starts exactly at `i`, if any. */
  function MatchAt(p: Pattern, t: string, i: nat): (r: Option<Match>)
    requires i <= |t|
    ensures r.Some? ==> r.value.start == i && Within(r.value, |t|)
  {
    match p
    case PythonFence => FenceMatch(t, i, PythonOpen, FenceClose)
    case PlainFence => FenceMatch(t, i, PlainOpen, FenceClose)
    case BareFence => FenceMatch(t, i, Fence, Fence)
    case OptionalPythonFence => OptionalPythonFenceAt(t, i)
    case AnyFence => AnyFenceAt(t, i)
    case QuotedString => QuotedStringAt(t, i)
    case LineComment => LineCommentAt(t, i)
    case FunctionName => FunctionNameAt(t, i)
    case Number => NumberAt(t, i)
  }

  /** A matcher over a text of length `n` reports, at each offset, nothing
      or a non-empty match that starts there and ends inside the text. */
  ghost predicate Anchored(f: nat -> Option<Match>, n: nat) {
    forall i: nat :: f(i).Some? ==> f(i).value.start == i && Within(f(i).value, n)
  }

  /**
   * The left-to-right scan of `re.finditer` from offset `from`: report the
   * match at the current offset and resume at its end, or move on by one.
   * Every match reported is the matcher's match at its start, and matches
   * come in document order without overlapping.
   */
  function Scan(f: nat -> Option<Match>, n: nat, from: nat): (ms: seq<Match>)
    requires from <= n && Anchored(f, n)
    decreases n - from
    ensures forall k :: 0 <= k < |ms| ==>
      && from <= ms[k].start && Within(ms[k], n) && f(ms[k].start) == Some(ms[k])
    ensures forall j, k :: 0 <= j < k < |ms| ==> ms[j].end <= ms[k].start
  {
    if from == n then []
    else
      match f(from)
      case Some(m) => [m] + Scan(f, n, m.end)
      case None => Scan(f, n, from + 1)
  }

  /** The scan reports first the leftmost match at or after `from`. */
  lemma {:induction false} ScanLeftmost(f: nat -> Option<Match>, n: nat, from: nat, i: nat)
    requires from <= i <= n && Anchored(f, n)
    requires f(i).Some?
    requires forall k :: from <= k < i ==> f(k).None?
    ensures Scan(f, n, from) == [f(i).value] + Scan(f, n, f(i).value.end)
    decreases i - from
  {
    if from < i {
      ScanLeftmost(f, n, from + 1, i);
    }
  }

  /** Where the matcher reports nothing, the scan reports nothing. */
  lemma {:induction false} ScanNoMatch(f: nat -> Option<Match>, n: nat, from: nat)
    requires from <= n && Anchored(f, n)
    requires forall k :: from <= k < n ==> f(k).None?
    ensures Scan(f, n, from) == []
    decreases n - from
  {
    if from < n {
      ScanNoMatch(f, n, from + 1);
    }
  }

  /** Every offset where the matcher reports a match is the start of a
      reported match or lies inside one (match number `k`): the scan skips
      only what a reported match already consumed. */
  lemma {:induction false} ScanCovers(f: nat -> Option<Match>, n: nat, from: nat, i: nat) returns (k: nat)
    requires from <= i <= n && Anchored(f, n)
    requires f(i).Some?
    ensures k < |Scan(f, n, from)|
    ensures Scan(f, n, from)[k].start <= i < Scan(f, n, from)[k].end
    decreases n - from
  {
    assert from < n;
    match f(from)
    case Some(m) =>
      var rest := Scan(f, n, m.end);
      assert Scan(f, n, from) == [m] + rest;
      if i < m.end {
        k := 0;
      } else {
        var j := ScanCovers(f, n, m.end, i);
        k := j + 1;
        assert Scan(f, n, from)[k] == rest[j];
      }
    case None =>
      k := ScanCovers(f, n, from + 1, i);
  }

  /** A fence pattern with the given opener and closer as a matcher over `t`. */
  function FenceMatcher(t: string, open: string, close: string): (f: nat -> Option<Match>)
    requires |close| > 0
    ensures Anchored(f, |t|)
  {
    (i: nat) => FenceMatch(t, i, open, close)
  }

  /**
   * Pattern `p` as a matcher over `t`.  A fence pattern is chosen once,
   * so that its matcher is the fence matcher itself.
   */
  function Matcher(p: Pattern, t: string): (f: nat -> Option<Match>)
    ensures Anchored(f, |t|)
  {
    match p
    case PythonFence => FenceMatcher(t, PythonOpen, FenceClose)
    case PlainFence => FenceMatcher(t, PlainOpen, FenceClose)
    case BareFence => FenceMatcher(t, Fence, Fence)
    case _ => (i: nat) => if i <= |t| then MatchAt(p, t, i) else None
  }

  /** The matcher reports, at each offset of the text, the pattern's match there. */
  lemma MatcherAgrees(p: Pattern, t: string)
    ensures forall i: nat :: i <= |t| ==> Matcher(p, t)(i) == MatchAt(p, t, i)
  {
  }

  /**
   * `re.finditer(p, t)` scanned from offset `from`: every match reported
   * is the pattern's match at its start, matches come in document order
   * and do not overlap.
   */
  function FindAll(p: Pattern, t: string, from: nat): (ms: seq<Match>)
    requires from <= |t|
    ensures forall k :: 0 <= k < |ms| ==>
      && from <= ms[k].start && Within(ms[k], |t|)
      && MatchAt(p, t, ms[k].start) == Some(ms[k])
    ensures forall j, k :: 0 <= j < k < |ms| ==> ms[j].end <= ms[k].start
  {
    MatcherAgrees(p, t);
    Scan(Matcher(p, t), |t|, from)
  }

  /** The scan of pattern `p` reports first its leftmost match at or after `from`. */
  lemma FindAllLeftmost(p: Pattern, t: string, from: nat, i: nat)
    requires from <= i <= |t|
    requires MatchAt(p, t, i).Some?
    requires forall k :: from <= k < i ==> MatchAt(p, t, k).None?
    ensures FindAll(p, t, from) == [MatchAt(p, t, i).value] + FindAll(p, t, MatchAt(p, t, i).value.end)
  {
    MatcherAgrees(p, t);
    ScanLeftmost(Matcher(p, t), |t|, from, i);
  }

  /** Where pattern `p` matches nowhere, the scan reports nothing. */
  lemma FindAllNoMatch(p: Pattern, t: string, from: nat)
    requires from <= |t|
    requires forall k :: from <= k <= |t| ==> MatchAt(p, t, k).None?
    ensures FindAll(p, t, from) == []
  {
    MatcherAgrees(p, t);
    ScanNoMatch(Matcher(p, t), |t|, from);
  }

  /** Every offset where pattern `p` matches lies within a reported match. */
  lemma FindAllCovers(p: Pattern, t: string, from: nat, i: nat) returns (k: nat)
    requires from <= i <= |t|
    requires MatchAt(p, t, i).Some?
    ensures k < |FindAll(p, t, from)|
    ensures FindAll(p, t, from)[k].start <= i < FindAll(p, t, from)[k].end
  {
    MatcherAgrees(p, t);
    k := ScanCovers(Matcher(p, t), |t|, from, i);
  }
}
