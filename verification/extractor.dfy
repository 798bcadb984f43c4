/**
 * The code-block extractor: `extract_code_from_response` (three fence
 * patterns, each scanned over the whole text, results concatenated
 * pattern by pattern), the older single-pattern `extract_code_blocks`,
 * the user message that embeds the editor's code in a fence, and the
 * first-occurrence de-duplication used when fragments become tabs.
 */
module CodeBlocks {
  import opened Wrappers
  import opened PyStr
  import opened Regex

  /** Group 1 of a match. */
  function Group(t: string, m: Match): string
    requires Within(m, |t|)
  {
    t[m.groupStart..m.groupEnd]
  }

  /** `match.group(1).strip()` for each match, in order. */
  function StrippedGroups(t: string, ms: seq<Match>): (r: seq<string>)
    requires forall k :: 0 <= k < |ms| ==> Within(ms[k], |t|)
    ensures |r| == |ms|
    ensures forall k :: 0 <= k < |r| ==> r[k] == Strip(Group(t, ms[k]))
  {
    seq(|ms|, k requires 0 <= k < |ms| => Strip(Group(t, ms[k])))
  }

  /** The list comprehension's `if code` filter. */
  function DropEmpty(xs: seq<string>): (r: seq<string>)
    ensures forall x :: x in r <==> x in xs && x != ""
    ensures |r| <= |xs|
  {
    if xs == [] then []
    else (if xs[0] != "" then [xs[0]] else []) + DropEmpty(xs[1..])
  }

  /** Dropping blanks distributes over concatenation, so the kept elements
      stay in their order and keep their multiplicity. */
  lemma {:induction false} DropEmptyAppend(xs: seq<string>, ys: seq<string>)
    ensures DropEmpty(xs + ys) == DropEmpty(xs) + DropEmpty(ys)
    decreases |xs|
  {
    if xs == [] {
      assert xs + ys == ys;
    } else {
      assert (xs + ys)[1..] == xs[1..] + ys;
      DropEmptyAppend(xs[1..], ys);
    }
  }

  /** A list without blanks is kept whole; a list of blanks only is dropped whole. */
  lemma {:induction false} DropEmptyExtremes(xs: seq<string>)
    ensures (forall k :: 0 <= k < |xs| ==> xs[k] != "") ==> DropEmpty(xs) == xs
    ensures (forall k :: 0 <= k < |xs| ==> xs[k] == "") ==> DropEmpty(xs) == []
    decreases |xs|
  {
    if xs != [] {
      DropEmptyExtremes(xs[1..]);
    }
  }

  /** The non-empty stripped bodies of one pattern, in document order. */
  function Fragments(p: Pattern, t: string): (r: seq<string>)
    ensures forall k :: 0 <= k < |r| ==> r[k] != "" && IsStripped(r[k])
  {
    var r := DropEmpty(StrippedGroups(t, FindAll(p, t, 0)));
    assert forall k :: 0 <= k < |r| ==> r[k] in r;
    r
  }

  /** A fragment of one pattern is exactly a non-blank stripped group 1 of one of its matches. */
  lemma FragmentsMembers(p: Pattern, t: string, x: string)
    ensures x in Fragments(p, t) <==>
      x != "" && exists k :: 0 <= k < |FindAll(p, t, 0)| && x == Strip(Group(t, FindAll(p, t, 0)[k]))
  {
    var gs := StrippedGroups(t, FindAll(p, t, 0));
    assert x in gs <==> exists k :: 0 <= k < |gs| && gs[k] == x;
  }

  /** When no body of the pattern is blank, the fragments are its stripped
      bodies one for one, in document order. */
  lemma FragmentsInOrder(p: Pattern, t: string)
    requires forall k :: 0 <= k < |FindAll(p, t, 0)| ==> Strip(Group(t, FindAll(p, t, 0)[k])) != ""
    ensures |Fragments(p, t)| == |FindAll(p, t, 0)|
    ensures forall k :: 0 <= k < |Fragments(p, t)| ==> Fragments(p, t)[k] == Strip(Group(t, FindAll(p, t, 0)[k]))
  {
    DropEmptyExtremes(StrippedGroups(t, FindAll(p, t, 0)));
  }

  /** `Fragments` for a fence pattern given by its opener and closer. */
  function FenceFragments(t: string, open: string, close: string): (r: seq<string>)
    requires |close| > 0
    ensures forall k :: 0 <= k < |r| ==> r[k] != "" && IsStripped(r[k])
  {
    var r := DropEmpty(StrippedGroups(t, Scan(FenceMatcher(t, open, close), |t|, 0)));
    assert forall k :: 0 <= k < |r| ==> r[k] in r;
    r
  }

  /** A scan that reports one match gives that match's fragment, if any. */
  lemma FragmentsOfOneMatch(p: Pattern, t: string, m: Match)
    requires FindAll(p, t, 0) == [m]
    ensures Within(m, |t|)
    ensures Fragments(p, t) == if Strip(Group(t, m)) == "" then [] else [Strip(Group(t, m))]
  {
    assert FindAll(p, t, 0)[0] == m;
    assert StrippedGroups(t, [m]) == [Strip(Group(t, m))];
  }

  /**
   * `extract_code_from_response`: every fragment of the tagged pattern,
   * then every fragment of the untagged one, then every fragment of the
   * bare one, each stripped and none empty.
   */
  function ExtractCodeFromResponse(text: string): (r: seq<string>)
    ensures forall k :: 0 <= k < |r| ==> r[k] != "" && IsStripped(r[k])
  {
    FenceFragments(text, PythonOpen, FenceClose) + FenceFragments(text, PlainOpen, FenceClose)
      + FenceFragments(text, Fence, Fence)
  }

  /** The extractor in terms of each pattern's `finditer` scan. */
  lemma ExtractInPatternOrder(text: string)
    ensures ExtractCodeFromResponse(text)
      == Fragments(PythonFence, text) + Fragments(PlainFence, text) + Fragments(BareFence, text)
  {
    assert FindAll(PythonFence, text, 0) == Scan(FenceMatcher(text, PythonOpen, FenceClose), |text|, 0);
    assert FindAll(PlainFence, text, 0) == Scan(FenceMatcher(text, PlainOpen, FenceClose), |text|, 0);
    assert FindAll(BareFence, text, 0) == Scan(FenceMatcher(text, Fence, Fence), |text|, 0);
  }

  /** The patterns of `extract_code_from_response`, in the order they are tried. */
  const FencePatterns: seq<Pattern> := [PythonFence, PlainFence, BareFence]

  /** In `parts[0] + parts[1] + parts[2]`, elements of an earlier part come before elements of a later one. */
  lemma PartsInOrder(parts: seq<seq<string>>, u: nat, v: nat, a': nat, b': nat)
    requires |parts| == 3 && u < v < 3 && a' < |parts[u]| && b' < |parts[v]|
    ensures var r := parts[0] + parts[1] + parts[2];
      exists a, b :: 0 <= a < b < |r| && r[a] == parts[u][a'] && r[b] == parts[v][b']
  {
    var r := parts[0] + parts[1] + parts[2];
    var a := if u == 0 then a' else |parts[0]| + a';
    var b := if v == 1 then |parts[0]| + b' else |parts[0]| + |parts[1]| + b';
    assert r[a] == parts[u][a'] && r[b] == parts[v][b'];
  }

  /** Each pattern's fragments, in the order the patterns are tried. */
  function PatternFragments(t: string): (fs: seq<seq<string>>)
    ensures |fs| == 3
    ensures forall u :: 0 <= u < 3 ==> fs[u] == Fragments(FencePatterns[u], t)
  {
    seq(3, u requires 0 <= u < 3 => Fragments(FencePatterns[u], t))
  }

  /** The extractor's result is the patterns' fragments joined in pattern order. */
  lemma ExtractAsParts(t: string)
    ensures var fs := PatternFragments(t); ExtractCodeFromResponse(t) == fs[0] + fs[1] + fs[2]
  {
    ExtractInPatternOrder(t);
  }

  /** A non-blank body of a match of pattern `u` is among that pattern's fragments. */
  lemma BodyIsFragment(t: string, u: nat, i: nat) returns (a: nat)
    requires u < 3 && i < |FindAll(FencePatterns[u], t, 0)|
    requires Strip(Group(t, FindAll(FencePatterns[u], t, 0)[i])) != ""
    ensures a < |PatternFragments(t)[u]|
    ensures PatternFragments(t)[u][a] == Strip(Group(t, FindAll(FencePatterns[u], t, 0)[i]))
  {
    var x := Strip(Group(t, FindAll(FencePatterns[u], t, 0)[i]));
    FragmentsMembers(FencePatterns[u], t, x);
    var f := PatternFragments(t)[u];
    assert x in f;
    a :| a < |f| && f[a] == x;
  }

  /**
   * Pattern order: a non-blank body found by an earlier pattern of the list
   * is reported before a non-blank body found by a later one, wherever the
   * two fences lie in the text.
   */
  lemma PatternOrder(t: string, u: nat, v: nat, i: nat, j: nat)
    requires u < v < 3
    requires i < |FindAll(FencePatterns[u], t, 0)| && j < |FindAll(FencePatterns[v], t, 0)|
    requires Strip(Group(t, FindAll(FencePatterns[u], t, 0)[i])) != ""
    requires Strip(Group(t, FindAll(FencePatterns[v], t, 0)[j])) != ""
    ensures var r := ExtractCodeFromResponse(t);
      exists a, b :: 0 <= a < b < |r|
        && r[a] == Strip(Group(t, FindAll(FencePatterns[u], t, 0)[i]))
        && r[b] == Strip(Group(t, FindAll(FencePatterns[v], t, 0)[j]))
  {
    var a' := BodyIsFragment(t, u, i);
    var b' := BodyIsFragment(t, v, j);
    ExtractAsParts(t);
    PartsInOrder(PatternFragments(t), u, v, a', b');
  }

  /** `extract_code_blocks`: one stripped body per match of the optionally
      tagged pattern, in document order, empty bodies kept. */
  function ExtractCodeBlocks(text: string): (r: seq<string>)
    ensures |r| == |FindAll(OptionalPythonFence, text, 0)|
    ensures forall k :: 0 <= k < |r| ==> r[k] == Strip(Group(text, FindAll(OptionalPythonFence, text, 0)[k]))
    ensures forall k :: 0 <= k < |r| ==> IsStripped(r[k])
  {
    StrippedGroups(text, FindAll(OptionalPythonFence, text, 0))
  }

  /**
   * The extractor as evidently intended: the three fence forms tried as
   * one alternation, so each fence is reported once, in document order,
   * stripped, and empty bodies dropped.
   */
  function ExtractCodeCorrected(text: string): (r: seq<string>)
    ensures forall k :: 0 <= k < |r| ==> r[k] != "" && IsStripped(r[k])
  {
    Fragments(AnyFence, text)
  }

  /** The text holds no triple backtick. */
  ghost predicate NoFence(s: string) {
    forall i: nat :: !StartsWithAt(s, i, Fence)
  }

  /** An occurrence of a pattern is an occurrence of each of its prefixes. */
  lemma PrefixOccurs(t: string, i: nat, pat: string, q: string)
    requires q <= pat
    ensures StartsWithAt(t, i, pat) ==> StartsWithAt(t, i, q)
  {
    if StartsWithAt(t, i, pat) {
      assert t[i..i + |q|] == t[i..i + |pat|][..|q|];
    }
  }

  /** Every fence pattern starts with a triple backtick. */
  lemma FencePatternsNeedFence(t: string, i: nat)
    requires i <= |t| && !StartsWithAt(t, i, Fence)
    ensures MatchAt(PythonFence, t, i).None?
    ensures MatchAt(PlainFence, t, i).None?
    ensures MatchAt(BareFence, t, i).None?
    ensures MatchAt(OptionalPythonFence, t, i).None?
    ensures MatchAt(AnyFence, t, i).None?
  {
    PrefixOccurs(t, i, PythonOpen, Fence);
    PrefixOccurs(t, i, PlainOpen, Fence);
  }

  /** Text without a triple backtick yields no fragment, by either extractor. */
  lemma NoFenceNoFragments(text: string)
    requires NoFence(text)
    ensures ExtractCodeFromResponse(text) == []
    ensures ExtractCodeBlocks(text) == []
    ensures ExtractCodeCorrected(text) == []
  {
    forall k | 0 <= k <= |text|
      ensures MatchAt(PythonFence, text, k).None? && MatchAt(PlainFence, text, k).None?
      ensures MatchAt(BareFence, text, k).None? && MatchAt(OptionalPythonFence, text, k).None?
      ensures MatchAt(AnyFence, text, k).None?
    {
      FencePatternsNeedFence(text, k);
    }
    FindAllNoMatch(PythonFence, text, 0);
    FindAllNoMatch(PlainFence, text, 0);
    FindAllNoMatch(BareFence, text, 0);
    FindAllNoMatch(OptionalPythonFence, text, 0);
    FindAllNoMatch(AnyFence, text, 0);
  }

  /** What `send_message` puts between the user's words and the editor's code. */
  const CodeHeader := "\n\nCurrent code:\n"

  /** The user message: the stripped input, and the stripped editor code in
      a `python`-tagged fence when there is any. */
  function Combine(userInput: string, code: string): (r: string)
    ensures code == "" ==> r == userInput
  {
    if code != "" then userInput + CodeHeader + PythonOpen + code + FenceClose else userInput
  }

  /** Before the code fence, the combined message holds no triple backtick. */
  lemma NoFenceBeforeCode(u: string, code: string, k: nat)
    requires NoFence(u) && code != ""
    requires k < |u| + |CodeHeader|
    ensures !StartsWithAt(Combine(u, code), k, Fence)
  {
    var t := Combine(u, code);
    assert t == u + CodeHeader + PythonOpen + code + FenceClose;
    if k + 3 <= |u| {
      assert t[k..k + 3] == u[k..k + 3];
      assert !StartsWithAt(u, k, Fence);
    } else if k < |u| {
      assert t[|u|] == '\n';
      assert t[k..k + 3][|u| - k] == t[|u|];
    } else {
      assert t[k] == CodeHeader[k - |u|];
      assert t[k..k + 3][0] == t[k];
    }
  }

  /** Inside the code, the combined message holds no fence closer. */
  lemma NoCloserInCode(u: string, code: string, k: nat)
    requires NoFence(code) && code != ""
    requires |u| + |CodeHeader| + |PythonOpen| <= k < |u| + |CodeHeader| + |PythonOpen| + |code|
    ensures !StartsWithAt(Combine(u, code), k, FenceClose)
  {
    var t := Combine(u, code);
    var b := |u| + |CodeHeader| + |PythonOpen|;
    var e := b + |code|;
    assert t == u + CodeHeader + PythonOpen + code + FenceClose;
    assert t[b..e] == code;
    if k + 4 <= e {
      assert code[k + 1 - b..k + 4 - b] == t[k + 1..k + 4] == t[k..k + 4][1..];
      assert !StartsWithAt(code, k + 1 - b, Fence);
    } else {
      assert t[k..k + 4][e - k] == t[e] == '\n';
    }
  }

  /** The combined message's only triple backticks open and close the code fence. */
  lemma CombinedFences(u: string, code: string, k: nat)
    requires NoFence(u) && NoFence(code) && code != ""
    ensures StartsWithAt(Combine(u, code), k, Fence) ==>
              k == |u| + |CodeHeader| || k == |Combine(u, code)| - 3
  {
    var t := Combine(u, code);
    assert t == u + CodeHeader + PythonOpen + code + FenceClose;
    var p := |u| + |CodeHeader|;
    var b := p + |PythonOpen|;
    var e := b + |code|;
    if k < p {
      NoFenceBeforeCode(u, code, k);
    } else if k == p || k == e + 1 {
    } else if k < b {
      var j := if k < p + 3 then p + 3 else k;
      assert t[j] == PythonOpen[j - p];
      assert t[k..k + 3][j - k] == t[j];
    } else if k + 3 <= e {
      assert t[k..k + 3] == code[k - b..k + 3 - b];
      assert !StartsWithAt(code, k - b, Fence);
    } else if k <= e {
      assert t[k..k + 3][e - k] == t[e] == '\n';
    }
  }

  /** Before the code fence, no fence pattern matches the combined message. */
  lemma CombinedNothingBefore(u: string, code: string, k: nat)
    requires NoFence(u) && code != ""
    requires k < |u| + |CodeHeader|
    ensures var t := Combine(u, code);
      && MatchAt(PythonFence, t, k).None? && MatchAt(PlainFence, t, k).None?
      && MatchAt(BareFence, t, k).None? && MatchAt(OptionalPythonFence, t, k).None?
      && MatchAt(AnyFence, t, k).None?
  {
    NoFenceBeforeCode(u, code, k);
    FencePatternsNeedFence(Combine(u, code), k);
  }

  /** The tagged fence around the code: group 1 is exactly the code. */
  lemma CombinedTaggedMatch(u: string, code: string)
    requires NoFence(u) && NoFence(code) && code != ""
    ensures var t := Combine(u, code);
      var p := |u| + |CodeHeader|;
      var m := Match(p, p + |PythonOpen|, |t| - |FenceClose|, |t|);
      && MatchAt(PythonFence, t, p) == Some(m)
      && MatchAt(OptionalPythonFence, t, p) == Some(m)
      && MatchAt(AnyFence, t, p) == Some(m)
  {
    var t := Combine(u, code);
    assert t == u + CodeHeader + PythonOpen + code + FenceClose;
    var p := |u| + |CodeHeader|;
    var b := p + |PythonOpen|;
    var e := b + |code|;
    assert StartsWithAt(t, p, PythonOpen) by {
      assert t[p..p + |PythonOpen|] == PythonOpen;
    }
    assert StartsWithAt(t, e, FenceClose) by {
      assert t[e..e + |FenceClose|] == FenceClose;
    }
    forall k | b <= k < e ensures !StartsWithAt(t, k, FenceClose) {
      NoCloserInCode(u, code, k);
    }
  }

  /** The bare pattern also matches at the tagged fence, and its group 1
      runs from the tag to the newline before the closing fence. */
  lemma CombinedBareMatch(u: string, code: string)
    requires NoFence(u) && NoFence(code) && code != ""
    ensures var t := Combine(u, code);
      var p := |u| + |CodeHeader|;
      MatchAt(BareFence, t, p) == Some(Match(p, p + |Fence|, |t| - |Fence|, |t|))
  {
    var t := Combine(u, code);
    assert t == u + CodeHeader + PythonOpen + code + FenceClose;
    var p := |u| + |CodeHeader|;
    var e := p + |PythonOpen| + |code|;
    assert StartsWithAt(t, p, Fence) by {
      assert t[p..p + 3] == Fence;
    }
    assert StartsWithAt(t, e + 1, Fence) by {
      assert t[e + 1..e + 4] == Fence;
    }
    forall k | p + 3 <= k < e + 1 ensures !StartsWithAt(t, k, Fence) {
      CombinedFences(u, code, k);
    }
  }

  /** The untagged pattern matches nowhere in the combined message. */
  lemma CombinedNoPlainMatch(u: string, code: string, k: nat)
    requires NoFence(u) && NoFence(code) && code != ""
    requires k <= |Combine(u, code)|
    ensures MatchAt(PlainFence, Combine(u, code), k).None?
  {
    var t := Combine(u, code);
    assert t == u + CodeHeader + PythonOpen + code + FenceClose;
    var p := |u| + |CodeHeader|;
    CombinedFences(u, code, k);
    PrefixOccurs(t, k, PlainOpen, Fence);
    assert t[p + 3] == 'p';
    if k == p && k + 4 <= |t| {
      assert t[k..k + 4][3] == t[p + 3];
    }
  }

  /** The scans of the tagged patterns over the combined message: one match, around the code. */
  lemma CombinedTaggedScans(u: string, code: string)
    requires NoFence(u) && NoFence(code) && code != ""
    ensures var t := Combine(u, code);
      var p := |u| + |CodeHeader|;
      var m := Match(p, p + |PythonOpen|, |t| - |FenceClose|, |t|);
      && FindAll(PythonFence, t, 0) == [m]
      && FindAll(OptionalPythonFence, t, 0) == [m]
      && FindAll(AnyFence, t, 0) == [m]
  {
    var t := Combine(u, code);
    var p := |u| + |CodeHeader|;
    forall k | 0 <= k < p
      ensures MatchAt(PythonFence, t, k).None? && MatchAt(OptionalPythonFence, t, k).None?
      ensures MatchAt(AnyFence, t, k).None?
    {
      CombinedNothingBefore(u, code, k);
    }
    CombinedTaggedMatch(u, code);
    FindAllLeftmost(PythonFence, t, 0, p);
    FindAllLeftmost(OptionalPythonFence, t, 0, p);
    FindAllLeftmost(AnyFence, t, 0, p);
  }

  /** The scans of the other two patterns over the combined message: the
      bare one matches the tagged fence, the untagged one matches nothing. */
  lemma CombinedOtherScans(u: string, code: string)
    requires NoFence(u) && NoFence(code) && code != ""
    ensures var t := Combine(u, code);
      var p := |u| + |CodeHeader|;
      && FindAll(BareFence, t, 0) == [Match(p, p + |Fence|, |t| - |Fence|, |t|)]
      && FindAll(PlainFence, t, 0) == []
  {
    var t := Combine(u, code);
    var p := |u| + |CodeHeader|;
    forall k | 0 <= k < p ensures MatchAt(BareFence, t, k).None? {
      CombinedNothingBefore(u, code, k);
    }
    CombinedBareMatch(u, code);
    FindAllLeftmost(BareFence, t, 0, p);
    forall k | 0 <= k <= |t| ensures MatchAt(PlainFence, t, k).None? {
      CombinedNoPlainMatch(u, code, k);
    }
    FindAllNoMatch(PlainFence, t, 0);
  }

  /**
   * The message `send_message` builds, read back by the extractor, when
   * neither the user's input nor the stripped editor code holds a triple
   * backtick: the first fragment is the code, and the bare pattern finds
   * the same fence again with its tag line in front of the code.
   */
  lemma CombinedExtraction(u: string, code: string)
    requires NoFence(u) && NoFence(code)
    requires IsStripped(code) && code != ""
    ensures ExtractCodeFromResponse(Combine(u, code)) == [code, "python\n" + code]
  {
    var t := Combine(u, code);
    var p := |u| + |CodeHeader|;
    var m1 := Match(p, p + |PythonOpen|, |t| - |FenceClose|, |t|);
    var m3 := Match(p, p + |Fence|, |t| - |Fence|, |t|);
    assert FindAll(PythonFence, t, 0) == [m1] by {
      CombinedTaggedScans(u, code);
    }
    assert FindAll(PlainFence, t, 0) == [] && FindAll(BareFence, t, 0) == [m3] by {
      CombinedOtherScans(u, code);
    }
    assert Group(t, m1) == code && Group(t, m3) == ("python\n" + code) + "\n" by {
      CombinedGroups(u, code);
    }
    StripPadded("python\n" + code, "\n");
    ExtractFromThreeScans(t, m1, m3);
  }

  /** The extractor over a text where the tagged and the bare pattern each
      match once and the untagged one not at all. */
  lemma ExtractFromThreeScans(t: string, m1: Match, m3: Match)
    requires FindAll(PythonFence, t, 0) == [m1]
    requires FindAll(PlainFence, t, 0) == []
    requires FindAll(BareFence, t, 0) == [m3]
    requires Within(m1, |t|) && Within(m3, |t|)
    requires Strip(Group(t, m1)) != "" && Strip(Group(t, m3)) != ""
    ensures ExtractCodeFromResponse(t) == [Strip(Group(t, m1)), Strip(Group(t, m3))]
  {
    var a, b, c := Fragments(PythonFence, t), Fragments(PlainFence, t), Fragments(BareFence, t);
    assert a == [Strip(Group(t, m1))] by {
      FragmentsOfOneMatch(PythonFence, t, m1);
    }
    assert b == [] by {
      assert StrippedGroups(t, []) == [];
    }
    assert c == [Strip(Group(t, m3))] by {
      FragmentsOfOneMatch(BareFence, t, m3);
    }
    assert ExtractCodeFromResponse(t) == a + b + c;
  }

  /** Group 1 of the tagged match is the code; group 1 of the bare match
      is the tag line, the code and the newline before the closing fence. */
  lemma CombinedGroups(u: string, code: string)
    requires code != ""
    ensures var t := Combine(u, code);
      var p := |u| + |CodeHeader|;
      var e := |t| - |FenceClose|;
      && t[p + |PythonOpen|..e] == code
      && t[p + |Fence|..e + 1] == ("python\n" + code) + "\n"
  {
    var t := Combine(u, code);
    var h := u + CodeHeader;
    assert t == h + PythonOpen + code + FenceClose;
    var p := |h|;
    var e := |t| - |FenceClose|;
    assert PythonOpen[3..] == "python\n";
    assert FenceClose[..1] == "\n";
    assert t[p + 3..e + 1] == PythonOpen[3..] + code + FenceClose[..1];
  }

  /** The older extractor reads the same message back as the code alone. */
  lemma CombinedBlocks(u: string, code: string)
    requires NoFence(u) && NoFence(code)
    requires IsStripped(code) && code != ""
    ensures ExtractCodeBlocks(Combine(u, code)) == [code]
  {
    var t := Combine(u, code);
    assert t == u + CodeHeader + PythonOpen + code + FenceClose;
    CombinedTaggedScans(u, code);
    assert t[|u| + |CodeHeader| + |PythonOpen|..|t| - |FenceClose|] == code;
  }

  /** With the corrected extractor the same message yields the code once. */
  lemma CorrectedCombinedExtraction(u: string, code: string)
    requires NoFence(u) && NoFence(code)
    requires IsStripped(code) && code != ""
    ensures ExtractCodeCorrected(Combine(u, code)) == [code]
  {
    var t := Combine(u, code);
    assert t == u + CodeHeader + PythonOpen + code + FenceClose;
    CombinedTaggedScans(u, code);
    assert t[|u| + |CodeHeader| + |PythonOpen|..|t| - |FenceClose|] == code;
  }

  /** No string repeats. */
  predicate Distinct(xs: seq<string>) {
    forall i, j :: 0 <= i < j < |xs| ==> xs[i] != xs[j]
  }

  /**
   * The fragments that `create_code_tabs` turns into tabs: each one the
   * first time it is seen, in the order seen, later exact repeats skipped.
   */
  function Dedup(xs: seq<string>): (r: seq<string>)
    ensures Distinct(r)
    ensures forall x :: x in r <==> x in xs
    ensures |r| <= |xs|
  {
    if xs == [] then []
    else
      var init := xs[..|xs| - 1];
      var d := Dedup(init);
      if xs[|xs| - 1] in init then d else d + [xs[|xs| - 1]]
  }

  /** Fragments seen later never reorder or remove tabs made for earlier ones. */
  lemma {:induction false} DedupPrefix(xs: seq<string>, ys: seq<string>)
    ensures Dedup(xs) <= Dedup(xs + ys)
    decreases |ys|
  {
    if ys != [] {
      var zs := xs + ys;
      DedupPrefix(xs, ys[..|ys| - 1]);
      assert zs[..|zs| - 1] == xs + ys[..|ys| - 1];
    } else {
      assert xs + ys == xs;
    }
  }

  /** Without repeats, every fragment gets its own tab, in order. */
  lemma {:induction false} DedupDistinct(xs: seq<string>)
    requires Distinct(xs)
    ensures Dedup(xs) == xs
  {
    if xs != [] {
      var init := xs[..|xs| - 1];
      assert Distinct(init);
      DedupDistinct(init);
      assert xs[|xs| - 1] !in init;
      assert init + [xs[|xs| - 1]] == xs;
    }
  }
}
