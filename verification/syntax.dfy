/**
 * The syntax indexer of the code editor: five independent passes over a
 * text snapshot, each producing tagged spans of character offsets into
 * that snapshot. Keywords are found by a Tk text search loop; strings,
 * comments, function names and numbers by `re.finditer`.
 */
module Syntax {
  import opened Wrappers
  import opened PyStr
  import opened Regex

  /** The five tags the editor configures, in the order they are applied. */
  datatype Tag = KeywordTag | StringTag | CommentTag | FunctionTag | NumberTag

  /** A `tag_add(tag, start, end)` call, with offsets into the snapshot. */
  datatype Span = Span(tag: Tag, start: nat, end: nat)

  /** A non-empty run of word characters. */
  predicate IsWord(w: string) {
    |w| > 0 && forall i :: 0 <= i < |w| ==> IsWordChar(w[i])
  }

  type Word = w: string | IsWord(w) witness "_"

  /** The fixed keyword list, searched in this order (declared in three
      parts so that each part is checked to hold words on its own). */
  const Keywords: seq<Word> := KeywordsHead + KeywordsMiddle + KeywordsTail
  const KeywordsHead: seq<Word> :=
    ["def", "class", "import", "from", "return", "if", "else", "elif", "try"]
  const KeywordsMiddle: seq<Word> :=
    ["except", "finally", "for", "while", "in", "is", "None", "True", "False"]
  const KeywordsTail: seq<Word> :=
    ["and", "or", "not", "with", "as", "break", "continue", "global", "lambda"]

  /** The list holds the 27 keywords, from `def` to `lambda`. */
  lemma KeywordList()
    ensures |Keywords| == 27 && Keywords[0] == "def" && Keywords[26] == "lambda"
    ensures forall kw :: kw in Keywords ==> IsWord(kw)
  {
  }

  /** `\mkw\M`: `kw` at `p`, with no word character just before or just after. */
  predicate WholeWordAt(c: string, kw: string, p: nat) {
    && StartsWithAt(c, p, kw)
    && (p == 0 || !IsWordChar(c[p - 1]))
    && (p + |kw| == |c| || !IsWordChar(c[p + |kw|]))
  }

  /** `text.search(r'\m' + kw + r'\M', j, end, regexp=True)`: the first
      whole-word occurrence at or after `j`. */
  function SearchFrom(c: string, kw: string, j: nat): (r: Option<nat>)
    requires IsWord(kw) && j <= |c|
    decreases |c| - j
    ensures r.Some? ==> j <= r.value && WholeWordAt(c, kw, r.value)
    ensures r.Some? ==> forall k :: j <= k < r.value ==> !WholeWordAt(c, kw, k)
    ensures r.None? ==> forall k: nat :: j <= k ==> !WholeWordAt(c, kw, k)
  {
    if j + |kw| > |c| then None
    else if WholeWordAt(c, kw, j) then Some(j)
    else SearchFrom(c, kw, j + 1)
  }

  /** Every whole-word occurrence of `kw` at or after `j`, in increasing order. */
  function WordOccurrences(c: string, kw: string, j: nat): (ps: seq<nat>)
    requires IsWord(kw) && j <= |c|
    decreases |c| - j
    ensures forall k :: 0 <= k < |ps| ==> j <= ps[k] && WholeWordAt(c, kw, ps[k])
    ensures forall a, b :: 0 <= a < b < |ps| ==> ps[a] < ps[b]
  {
    if j == |c| then []
    else (if WholeWordAt(c, kw, j) then [j] else []) + WordOccurrences(c, kw, j + 1)
  }

  /** Every whole-word occurrence at or after `j` is listed. */
  lemma {:induction false} OccurrencesComplete(c: string, kw: string, j: nat, p: nat)
    requires IsWord(kw) && j <= p && WholeWordAt(c, kw, p)
    ensures p + |kw| <= |c|
    ensures p in WordOccurrences(c, kw, j)
    decreases p - j
  {
    if j < p {
      OccurrencesComplete(c, kw, j + 1, p);
    }
  }

  /** Offsets with no occurrence contribute nothing. */
  lemma {:induction false} OccurrencesSkip(c: string, kw: string, j: nat, p: nat)
    requires IsWord(kw) && j <= p <= |c|
    requires forall k :: j <= k < p ==> !WholeWordAt(c, kw, k)
    ensures WordOccurrences(c, kw, j) == WordOccurrences(c, kw, p)
    decreases p - j
  {
    if j < p {
      OccurrencesSkip(c, kw, j + 1, p);
    }
  }

  /** Whole-word occurrences of a word never overlap: inside one, the
      character before is a word character. */
  lemma NoOccurrenceInside(c: string, kw: string, p: nat, q: nat)
    requires IsWord(kw) && StartsWithAt(c, p, kw) && p < q < p + |kw|
    ensures !WholeWordAt(c, kw, q)
  {
    assert c[q - 1] == c[p..p + |kw|][q - 1 - p];
  }

  /** One step of the search loop: the search result, then the rest of the
      occurrences from the end of the one found. */
  lemma SearchStep(c: string, kw: string, j: nat)
    requires IsWord(kw) && j <= |c|
    ensures SearchFrom(c, kw, j).None? ==> WordOccurrences(c, kw, j) == []
    ensures SearchFrom(c, kw, j).Some? ==>
              var p := SearchFrom(c, kw, j).value;
              && p + |kw| <= |c|
              && WordOccurrences(c, kw, j) == [p] + WordOccurrences(c, kw, p + |kw|)
  {
    var r := SearchFrom(c, kw, j);
    if r.Some? {
      OccurrenceFound(c, kw, j, r.value);
    } else {
      FirstOccurrence(c, kw, j);
    }
  }

  /** The first occurrence at or after `j` heads the list, and the rest
      of the list starts after its end. */
  lemma OccurrenceFound(c: string, kw: string, j: nat, p: nat)
    requires IsWord(kw) && j <= p && WholeWordAt(c, kw, p)
    requires forall k :: j <= k < p ==> !WholeWordAt(c, kw, k)
    ensures p + |kw| <= |c|
    ensures WordOccurrences(c, kw, j) == [p] + WordOccurrences(c, kw, p + |kw|)
  {
    OccurrencesComplete(c, kw, j, p);
    OccurrencesSkip(c, kw, j, p);
    assert WordOccurrences(c, kw, p) == [p] + WordOccurrences(c, kw, p + 1);
    forall q | p + 1 <= q < p + |kw| ensures !WholeWordAt(c, kw, q) {
      NoOccurrenceInside(c, kw, p, q);
    }
    OccurrencesSkip(c, kw, p + 1, p + |kw|);
  }

  /** The first listed occurrence is an occurrence. */
  lemma FirstOccurrence(c: string, kw: string, j: nat)
    requires IsWord(kw) && j <= |c|
    ensures WordOccurrences(c, kw, j) != [] ==> WholeWordAt(c, kw, WordOccurrences(c, kw, j)[0])
  {
  }

  /** Spans for the occurrences `ps` of keyword `kw`, each `len(kw)` long. */
  function KeywordSpansOf(kw: string, ps: seq<nat>): seq<Span> {
    seq(|ps|, i requires 0 <= i < |ps| => Span(KeywordTag, ps[i], ps[i] + |kw|))
  }

  lemma KeywordSpansOfCons(kw: string, p: nat, ps: seq<nat>)
    ensures KeywordSpansOf(kw, [p] + ps) == [Span(KeywordTag, p, p + |kw|)] + KeywordSpansOf(kw, ps)
  {
  }

  /** The spans still to be added once the loop has reached offset `j`. */
  function SpansFrom(c: string, kw: string, j: nat): seq<Span>
    requires IsWord(kw) && j <= |c|
  {
    KeywordSpansOf(kw, WordOccurrences(c, kw, j))
  }

  /** One iteration of the search loop in terms of the spans still to add. */
  lemma TagStep(c: string, kw: string, j: nat)
    requires IsWord(kw) && j <= |c|
    ensures SearchFrom(c, kw, j).None? ==> SpansFrom(c, kw, j) == []
    ensures SearchFrom(c, kw, j).Some? ==>
              var p := SearchFrom(c, kw, j).value;
              && j <= p && p + |kw| <= |c|
              && SpansFrom(c, kw, j) == [Span(KeywordTag, p, p + |kw|)] + SpansFrom(c, kw, p + |kw|)
  {
    SearchStep(c, kw, j);
    if SearchFrom(c, kw, j).Some? {
      var p := SearchFrom(c, kw, j).value;
      var rest := WordOccurrences(c, kw, p + |kw|);
      assert WordOccurrences(c, kw, j) == [p] + rest;
      KeywordSpansOfCons(kw, p, rest);
    } else {
      assert WordOccurrences(c, kw, j) == [];
    }
  }

  /**
   * The `while True` search loop for one keyword: search from the current
   * index, tag the occurrence found, resume at its end, stop when the
   * search finds nothing. It tags every whole-word occurrence, in order.
   */
  method TagKeyword(c: string, kw: string) returns (spans: seq<Span>)
    requires IsWord(kw)
    ensures spans == KeywordSpansOf(kw, WordOccurrences(c, kw, 0))
  {
    spans := [];
    var start := 0;
    while true
      invariant start <= |c|
      invariant spans + SpansFrom(c, kw, start) == SpansFrom(c, kw, 0)
      decreases |c| - start
    {
      TagStep(c, kw, start);
      var found := SearchFrom(c, kw, start);
      if found.None? {
        break;
      }
      var p := found.value;
      var end := p + |kw|;
      assert (spans + [Span(KeywordTag, p, end)]) + SpansFrom(c, kw, end)
          == spans + ([Span(KeywordTag, p, end)] + SpansFrom(c, kw, end));
      spans := spans + [Span(KeywordTag, p, end)];
      start := end;
    }
  }

  /** The keyword spans of the keywords in `ks`, keyword by keyword. */
  function KeywordSpans(c: string, ks: seq<Word>): seq<Span> {
    if ks == [] then []
    else KeywordSpans(c, ks[..|ks| - 1]) + KeywordSpansOf(ks[|ks| - 1], WordOccurrences(c, ks[|ks| - 1], 0))
  }

  /** The keyword pass: the search loop run for each keyword of `ks` in turn. */
  method KeywordPass(c: string, ks: seq<Word>) returns (spans: seq<Span>)
    ensures spans == KeywordSpans(c, ks)
  {
    spans := [];
    for i := 0 to |ks|
      invariant spans == KeywordSpans(c, ks[..i])
    {
      var found := TagKeyword(c, ks[i]);
      assert ks[..i + 1][..i] == ks[..i];
      spans := spans + found;
    }
    assert ks[..|ks|] == ks;
  }

  /** The spans of one `finditer` pass: group 1 of each match (the whole
      match for every pattern but the function head). */
  function PassSpans(p: Pattern, tag: Tag, c: string): (r: seq<Span>)
    ensures |r| == |FindAll(p, c, 0)|
    ensures forall i :: 0 <= i < |r| ==>
              r[i] == Span(tag, FindAll(p, c, 0)[i].groupStart, FindAll(p, c, 0)[i].groupEnd)
  {
    var ms := FindAll(p, c, 0);
    seq(|ms|, i requires 0 <= i < |ms| => Span(tag, ms[i].groupStart, ms[i].groupEnd))
  }

  /** All spans of one snapshot, pass by pass. */
  function HighlightSpans(c: string): seq<Span> {
    KeywordSpans(c, Keywords)
      + PassSpans(QuotedString, StringTag, c)
      + PassSpans(LineComment, CommentTag, c)
      + PassSpans(FunctionName, FunctionTag, c)
      + PassSpans(Number, NumberTag, c)
  }

  /** What a span of each tag covers in the snapshot. */
  ghost predicate SpanValid(c: string, s: Span) {
    && s.start < s.end <= |c|
    && match s.tag
       case KeywordTag =>
         c[s.start..s.end] in Keywords && WholeWordAt(c, c[s.start..s.end], s.start)
       case StringTag =>
         && s.start + 2 <= s.end && IsQuote(c[s.start]) && c[s.end - 1] == c[s.start]
         && forall k :: s.start < k < s.end - 1 ==> c[k] != c[s.start] && c[k] != '\n'
       case CommentTag =>
         c[s.start] == '#' && OnOneLine(c, s.start, s.end) && (s.end == |c| || c[s.end] == '\n')
       case FunctionTag =>
         exists i: nat, e: nat :: DefShape(c, i, s.start, s.end, e)
       case NumberTag =>
         NumberShape(c, s.start, s.end)
  }

  /** Each keyword span is a whole-word occurrence of a listed keyword. */
  lemma {:induction false} KeywordSpansValid(c: string, ks: seq<Word>)
    requires forall kw :: kw in ks ==> kw in Keywords
    ensures forall s :: s in KeywordSpans(c, ks) ==> s.tag == KeywordTag && SpanValid(c, s)
  {
    if ks != [] {
      var kw := ks[|ks| - 1];
      KeywordSpansValid(c, ks[..|ks| - 1]);
      var ps := WordOccurrences(c, kw, 0);
      forall s | s in KeywordSpansOf(kw, ps) ensures s.tag == KeywordTag && SpanValid(c, s) {
        var i :| 0 <= i < |ps| && s == KeywordSpansOf(kw, ps)[i];
        assert WholeWordAt(c, kw, ps[i]);
        assert c[s.start..s.end] == kw;
      }
    }
  }

  /** Every whole-word occurrence of a listed keyword gets a keyword span. */
  lemma {:induction false} KeywordSpansComplete(c: string, ks: seq<Word>, kw: Word, p: nat)
    requires kw in ks && WholeWordAt(c, kw, p)
    ensures Span(KeywordTag, p, p + |kw|) in KeywordSpans(c, ks)
  {
    var last := ks[|ks| - 1];
    if kw == last {
      var ps := WordOccurrences(c, kw, 0);
      OccurrencesComplete(c, kw, 0, p);
      var i :| 0 <= i < |ps| && ps[i] == p;
      assert KeywordSpansOf(kw, ps)[i] == Span(KeywordTag, p, p + |kw|);
    } else {
      assert kw in ks[..|ks| - 1];
      KeywordSpansComplete(c, ks[..|ks| - 1], kw, p);
    }
  }

  /** Each span of the string pass is a string literal on one line. */
  lemma StringSpansValid(c: string, s: Span)
    requires s in PassSpans(QuotedString, StringTag, c)
    ensures s.tag == StringTag && SpanValid(c, s)
  {
    var ms := FindAll(QuotedString, c, 0);
    var i :| 0 <= i < |ms| && s == PassSpans(QuotedString, StringTag, c)[i];
    QuotedSpanValid(c, ms[i]);
  }

  lemma QuotedSpanValid(c: string, m: Match)
    requires m.start <= |c| && QuotedStringAt(c, m.start) == Some(m)
    ensures SpanValid(c, Span(StringTag, m.groupStart, m.groupEnd))
  {
  }

  /** Each span of the comment pass runs from a `#` to the end of its line. */
  lemma CommentSpansValid(c: string, s: Span)
    requires s in PassSpans(LineComment, CommentTag, c)
    ensures s.tag == CommentTag && SpanValid(c, s)
  {
    var i :| 0 <= i < |PassSpans(LineComment, CommentTag, c)| && s == PassSpans(LineComment, CommentTag, c)[i];
    assert MatchAt(LineComment, c, FindAll(LineComment, c, 0)[i].start).Some?;
  }

  /** Each span of the function pass is the name in a `def` head. */
  lemma FunctionSpansValid(c: string, s: Span)
    requires s in PassSpans(FunctionName, FunctionTag, c)
    ensures s.tag == FunctionTag && SpanValid(c, s)
  {
    var ms := FindAll(FunctionName, c, 0);
    var i :| 0 <= i < |ms| && s == PassSpans(FunctionName, FunctionTag, c)[i];
    assert MatchAt(FunctionName, c, ms[i].start).Some?;
    assert DefShape(c, ms[i].start, s.start, s.end, ms[i].end);
  }

  /** Each span of the number pass is a whole-word run of digits. */
  lemma NumberSpansValid(c: string, s: Span)
    requires s in PassSpans(Number, NumberTag, c)
    ensures s.tag == NumberTag && SpanValid(c, s)
  {
    var i :| 0 <= i < |PassSpans(Number, NumberTag, c)| && s == PassSpans(Number, NumberTag, c)[i];
    assert MatchAt(Number, c, FindAll(Number, c, 0)[i].start).Some?;
  }

  /**
   * Every span `highlight_syntax` adds lies inside the snapshot, at the
   * character offsets of what it tags, and tags what its rule describes.
   */
  lemma HighlightSpansValid(c: string)
    ensures forall s :: s in HighlightSpans(c) ==> SpanValid(c, s)
  {
    KeywordSpansValid(c, Keywords);
    forall s | s in HighlightSpans(c) ensures SpanValid(c, s) {
      if s in PassSpans(QuotedString, StringTag, c) {
        StringSpansValid(c, s);
      } else if s in PassSpans(LineComment, CommentTag, c) {
        CommentSpansValid(c, s);
      } else if s in PassSpans(FunctionName, FunctionTag, c) {
        FunctionSpansValid(c, s);
      } else if s in PassSpans(Number, NumberTag, c) {
        NumberSpansValid(c, s);
      }
    }
  }

  /** Every `#` lies inside a comment span: the comment pass reaches every line. */
  lemma CommentCovers(c: string, i: nat) returns (s: Span)
    requires i < |c| && c[i] == '#'
    ensures s in HighlightSpans(c) && s.tag == CommentTag && s.start <= i < s.end
  {
    var k := FindAllCovers(LineComment, c, 0, i);
    s := PassSpans(LineComment, CommentTag, c)[k];
    assert s in PassSpans(LineComment, CommentTag, c);
  }

  /** Every whole-word run of digits is tagged as a number. */
  lemma NumberCovers(c: string, i: nat, e: nat) returns (s: Span)
    requires NumberShape(c, i, e)
    ensures s in HighlightSpans(c) && s == Span(NumberTag, i, e)
  {
    var k := FindAllCovers(Number, c, 0, i);
    var m := FindAll(Number, c, 0)[k];
    NumberStartsAtBoundary(c, m.start, m.end, i, e);
    s := PassSpans(Number, NumberTag, c)[k];
    assert s in PassSpans(Number, NumberTag, c);
  }

  /** Two whole-word digit runs that overlap are the same run. */
  lemma NumberStartsAtBoundary(c: string, a: nat, b: nat, i: nat, e: nat)
    requires NumberShape(c, a, b) && NumberShape(c, i, e) && a <= i < b
    ensures a == i && b == e
  {
  }

  /** The spans moved by `d` characters: `f"{first_line}+{offset}c"`. */
  function Shift(spans: seq<Span>, d: nat): (r: seq<Span>)
    ensures |r| == |spans|
    ensures forall i :: 0 <= i < |r| ==>
              r[i] == Span(spans[i].tag, spans[i].start + d, spans[i].end + d)
  {
    seq(|spans|, i requires 0 <= i < |spans| => Span(spans[i].tag, spans[i].start + d, spans[i].end + d))
  }

  /** Highlighting a slice `[lo, hi)` of a buffer tags only inside that slice. */
  lemma ShiftedSpansInRange(buffer: string, lo: nat, hi: nat)
    requires lo <= hi <= |buffer|
    ensures forall s :: s in Shift(HighlightSpans(buffer[lo..hi]), lo) ==> lo <= s.start < s.end <= hi
  {
    var c := buffer[lo..hi];
    HighlightSpansValid(c);
    var r := Shift(HighlightSpans(c), lo);
    forall s | s in r ensures lo <= s.start < s.end <= hi {
      var i :| 0 <= i < |r| && r[i] == s;
      assert HighlightSpans(c)[i] in HighlightSpans(c);
    }
  }
}
