/**
 * The tabbed code assistant (`Canvas/14b_canvas_5.py`): one highlighting
 * editor per notebook tab, highlighting debounced and limited to the
 * visible lines, and a chat session whose worker opens one new tab per
 * distinct code fragment once the response is complete or cancelled.
 */
module Canvas5 {
  import opened Wrappers
  import opened PyStr
  import opened CodeBlocks
  import opened Regex
  import opened Syntax
  import opened Stream

  /** Every `#` on the visible lines lies inside a comment span of the visible-range pass. */
  lemma VisibleCommentTagged(buffer: string, lo: nat, hi: nat, i: nat) returns (s: Span)
    requires lo <= i < hi <= |buffer| && buffer[i] == '#'
    ensures s in Shift(HighlightSpans(buffer[lo..hi]), lo)
    ensures s.tag == CommentTag && s.start <= i < s.end <= hi
  {
    var c := buffer[lo..hi];
    var t := CommentCovers(c, i - lo);
    var spans := HighlightSpans(c);
    var k :| 0 <= k < |spans| && spans[k] == t;
    s := Shift(spans, lo)[k];
    ShiftedSpansInRange(buffer, lo, hi);
  }

  /** A code editor: its text, its tagged spans and its debounce timer. */
  class SyntaxHighlightingText {
    var text: string
    var tags: seq<Span>
    /** `_highlight_timer`: the id of the last `_do_highlight` callback scheduled, once there is one. */
    var timer: Option<nat>
    /** Ids of scheduled `_do_highlight` callbacks that have neither run nor been cancelled. */
    var pending: set<nat>
    /** The id that the next `after` call returns. */
    var nextId: nat

    /** At most one highlight is pending, and it is the one the timer names. */
    ghost predicate Valid()
      reads this
    {
      && (timer.Some? ==> timer.value < nextId)
      && pending <= (if timer.Some? then {timer.value} else {})
    }

    constructor ()
      ensures Valid()
      ensures text == "" && tags == [] && timer == None && pending == {}
    {
      text := "";
      tags := [];
      timer := None;
      pending := {};
      nextId := 0;
    }

    /**
     * `highlight_syntax`: cancel the pending callback, if there is a timer,
     * and schedule a new one.  `after` adds to the pending callbacks, so it
     * is the cancel that leaves exactly one pending.
     */
    method HighlightSyntax()
      requires Valid()
      modifies this
      ensures Valid()
      ensures timer == Some(old(nextId)) && pending == {old(nextId)}
      ensures old(nextId) !in old(pending)
      ensures text == old(text) && tags == old(tags)
    {
      if timer.Some? {
        pending := pending - {timer.value};
      }
      timer := Some(nextId);
      pending := pending + {nextId};
      nextId := nextId + 1;
    }

    /**
     * `_do_highlight`: remove the five tags over the whole buffer, then tag
     * the visible characters `[lo, hi)`, with offsets into the visible
     * content moved by `lo`.
     */
    method DoHighlight(lo: nat, hi: nat)
      requires lo <= hi <= |text|
      modifies this
      ensures text == old(text) && timer == old(timer) && pending == old(pending) && nextId == old(nextId)
      ensures tags == Shift(HighlightSpans(text[lo..hi]), lo)
      ensures forall s :: s in tags ==> lo <= s.start < s.end <= hi
    {
      tags := [];
      var content := text[lo..hi];
      var keywordSpans := KeywordPass(content, Keywords);
      tags := Shift(keywordSpans
        + PassSpans(QuotedString, StringTag, content)
        + PassSpans(LineComment, CommentTag, content)
        + PassSpans(FunctionName, FunctionTag, content)
        + PassSpans(Number, NumberTag, content), lo);
      ShiftedSpansInRange(text, lo, hi);
    }

    /** The pending callback `id` runs, with `[lo, hi)` visible at that moment. */
    method Fire(id: nat, lo: nat, hi: nat)
      requires Valid() && id in pending && lo <= hi <= |text|
      modifies this
      ensures Valid() && pending == {}
      ensures text == old(text) && timer == old(timer)
      ensures tags == Shift(HighlightSpans(text[lo..hi]), lo)
    {
      pending := pending - {id};
      DoHighlight(lo, hi);
    }
  }

  /** The first-seen order of tab creation for the fragments of `text`. */
  function CodeTabs(text: string): (r: seq<string>)
    ensures Distinct(r)
    ensures forall x :: x in r <==> x in ExtractCodeFromResponse(text)
    ensures forall k :: 0 <= k < |r| ==> r[k] != "" && IsStripped(r[k])
  {
    var r := Dedup(ExtractCodeFromResponse(text));
    assert forall k :: 0 <= k < |r| ==> r[k] in r;
    r
  }

  class ChatCodeEditor {
    var history: seq<Message>
    var isStreaming: bool
    var accumulated: string
    /** The notebook's tabs, in order, each by the code its editor holds. */
    var tabs: seq<string>
    /** The selected tab. */
    var current: nat

    /** The notebook always shows at least one tab, and one of them is selected. */
    ghost predicate Valid()
      reads this
    {
      0 < |tabs| && current < |tabs|
    }

    /** The constructor: `setup_ui` creates the first, empty tab. */
    constructor ()
      ensures Valid()
      ensures history == [] && !isStreaming && accumulated == ""
      ensures tabs == [""] && current == 0
    {
      history := [];
      isStreaming := false;
      accumulated := "";
      tabs := [""];
      current := 0;
    }

    /** `create_new_tab`: a new tab holding `code` is added at the end and selected. */
    method CreateNewTab(code: string)
      modifies this
      ensures tabs == old(tabs) + [code] && current == |tabs| - 1
      ensures history == old(history) && isStreaming == old(isStreaming) && accumulated == old(accumulated)
    {
      tabs := tabs + [code];
      current := |tabs| - 1;
    }

    /**
     * `close_tab`: the last remaining tab is never closed.  Otherwise tab
     * `k` is removed; when it was the selected one, the tab that follows
     * it (or, for the last tab, the one before it) becomes selected.
     */
    method CloseTab(k: nat) returns (closed: bool)
      requires Valid() && k < |tabs|
      modifies this
      ensures Valid()
      ensures closed <==> |old(tabs)| > 1
      ensures closed ==> tabs == old(tabs)[..k] + old(tabs)[k + 1..] && |tabs| == |old(tabs)| - 1
      ensures closed && k < old(current) ==> tabs[current] == old(tabs)[old(current)]
      ensures closed && k > old(current) ==> current == old(current)
      ensures closed && k == old(current) ==> current == if k < |tabs| then k else k - 1
      ensures !closed ==> tabs == old(tabs) && current == old(current)
      ensures history == old(history) && isStreaming == old(isStreaming) && accumulated == old(accumulated)
    {
      if |tabs| > 1 {
        tabs := tabs[..k] + tabs[k + 1..];
        if k < current {
          current := current - 1;
        } else if k == current && k == |tabs| {
          current := k - 1;
        }
        closed := true;
      } else {
        closed := false;
      }
    }

    /** `get_current_code`: the selected editor's text, stripped (the trailing newline Tk adds included). */
    function CurrentCode(): (code: string)
      requires Valid()
      reads this
      ensures IsStripped(code)
      ensures code == "" <==> AllSpace(tabs[current])
    {
      Strip(tabs[current])
    }

    /**
     * `send_message`: ignored while streaming or when the stripped input
     * is blank; otherwise appends one user message combining the stripped
     * input with the selected tab's code, and sets the flag.
     */
    method SendMessage(entry: string) returns (started: bool)
      requires Valid()
      modifies this
      ensures Valid()
      ensures started <==> !old(isStreaming) && !AllSpace(entry)
      ensures history == old(history) + (if started then [Message(User, Combine(Strip(entry), CurrentCode()))] else [])
      ensures isStreaming == (old(isStreaming) || started)
      ensures tabs == old(tabs) && current == old(current) && accumulated == old(accumulated)
    {
      if isStreaming {
        return false;
      }
      var userInput := Strip(entry);
      var code := CurrentCode();
      if userInput == "" {
        return false;
      }
      history := history + [Message(User, Combine(userInput, code))];
      isStreaming := true;
      started := true;
    }

    /**
     * The loop of `create_code_tabs` over `blocks`: a new tab for each
     * block not in `seen_blocks`, which collects the blocks met so far.
     */
    method OpenTabs(blocks: seq<string>)
      requires Valid()
      modifies this
      ensures Valid()
      ensures tabs == old(tabs) + Dedup(blocks)
      ensures Dedup(blocks) == [] ==> current == old(current)
      ensures Dedup(blocks) != [] ==> current == |tabs| - 1
      ensures history == old(history) && isStreaming == old(isStreaming) && accumulated == old(accumulated)
    {
      var seenBlocks: set<string> := {};
      for k := 0 to |blocks|
        invariant forall x :: x in seenBlocks <==> x in blocks[..k]
        invariant tabs == old(tabs) + Dedup(blocks[..k])
        invariant Dedup(blocks[..k]) == [] ==> current == old(current)
        invariant Dedup(blocks[..k]) != [] ==> current == |tabs| - 1
        invariant Valid()
        invariant history == old(history) && isStreaming == old(isStreaming) && accumulated == old(accumulated)
      {
        assert blocks[..k + 1][..k] == blocks[..k];
        if blocks[k] !in seenBlocks {
          seenBlocks := seenBlocks + {blocks[k]};
          CreateNewTab(blocks[k]);
        }
      }
      assert blocks[..|blocks|] == blocks;
    }

    /**
     * `create_code_tabs`: one new tab per fragment of `text` not seen
     * before in this pass, in the order found; the last one opened ends up
     * selected.
     */
    method CreateCodeTabs(text: string)
      requires Valid()
      modifies this
      ensures Valid()
      ensures tabs == old(tabs) + CodeTabs(text)
      ensures CodeTabs(text) == [] ==> current == old(current)
      ensures CodeTabs(text) != [] ==> current == |tabs| - 1
      ensures history == old(history) && isStreaming == old(isStreaming) && accumulated == old(accumulated)
    {
      var codeBlocks := ExtractCodeFromResponse(text);
      OpenTabs(codeBlocks);
    }

    /**
     * `cancel_stream`: clears the flag and, when some response text has
     * accumulated, opens the tabs for its fragments.
     */
    method CancelStream()
      requires Valid()
      modifies this
      ensures Valid() && !isStreaming
      ensures tabs == old(tabs) + CodeTabs(accumulated)
      ensures CodeTabs(accumulated) == [] ==> current == old(current)
      ensures CodeTabs(accumulated) != [] ==> current == |tabs| - 1
      ensures history == old(history) && accumulated == old(accumulated)
    {
      isStreaming := false;
      if accumulated != "" {
        CreateCodeTabs(accumulated);
      } else {
        NoFenceNoFragments("");
      }
    }

    /**
     * One visit of the loop head after `i` chunks: the cancel, if it lands
     * now, clears the flag and opens the tabs; then the loop goes on only
     * if the stream has a chunk left and the flag is still set.
     */
    method AtLoopHead(src: ChunkSource, cancelAt: Moment, i: nat) returns (go: bool)
      requires Valid() && isStreaming && i <= EndPoint(src) && (cancelAt.At? ==> i <= cancelAt.pull)
      modifies this
      ensures Valid()
      ensures isStreaming <==> cancelAt != At(i)
      ensures go ==> i < EndPoint(src) && (cancelAt.At? ==> i < cancelAt.pull)
      ensures !go ==> src.failAt == At(i) || i == |src.chunks| || cancelAt == At(i)
      ensures isStreaming ==> tabs == old(tabs)
      ensures !isStreaming ==> tabs == old(tabs) + CodeTabs(accumulated)
      ensures isStreaming || CodeTabs(accumulated) == [] ==> current == old(current)
      ensures !isStreaming && CodeTabs(accumulated) != [] ==> current == |tabs| - 1
      ensures history == old(history) && accumulated == old(accumulated)
    {
      if cancelAt == At(i) {
        CancelStream();
      }
      if src.failAt == At(i) || i == |src.chunks| {
        return false;
      }
      go := isStreaming;
    }

    /** The loop body once the flag is found set: append chunk `i`. */
    method AppendChunk(chunks: seq<string>, i: nat)
      requires i < |chunks|
      requires accumulated == Concat(chunks[..i])
      modifies this
      ensures accumulated == Concat(chunks[..i + 1])
      ensures history == old(history) && isStreaming == old(isStreaming)
      ensures tabs == old(tabs) && current == old(current)
    {
      ConcatSnoc(chunks, i);
      accumulated := accumulated + chunks[i];
    }

    /**
     * The `for` loop of `stream_model_response`, from an empty accumulated
     * response: it stops at the end of the stream, at the pull that raises,
     * or when the flag is found cleared by a cancel landing at `cancelAt`.
     */
    method ReceiveChunks(src: ChunkSource, cancelAt: Moment) returns (i: nat)
      requires Valid() && isStreaming && accumulated == ""
      modifies this
      ensures Valid()
      ensures i <= EndPoint(src) && (cancelAt.At? ==> i <= cancelAt.pull)
      ensures src.failAt == At(i) || i == |src.chunks| || cancelAt == At(i)
      ensures isStreaming <==> cancelAt != At(i)
      ensures accumulated == Concat(src.chunks[..i])
      ensures isStreaming ==> tabs == old(tabs)
      ensures !isStreaming ==> tabs == old(tabs) + CodeTabs(accumulated)
      ensures isStreaming || CodeTabs(accumulated) == [] ==> current == old(current)
      ensures !isStreaming && CodeTabs(accumulated) != [] ==> current == |tabs| - 1
      ensures history == old(history)
    {
      i := 0;
      ghost var tabs0 := tabs;
      ghost var current0 := current;
      ghost var history0 := history;
      while true
        invariant Valid()
        invariant i <= EndPoint(src)
        invariant accumulated == Concat(src.chunks[..i])
        invariant isStreaming && (cancelAt.At? ==> i <= cancelAt.pull)
        invariant tabs == tabs0 && current == current0 && history == history0
        decreases EndPoint(src) - i
      {
        var go := AtLoopHead(src, cancelAt, i);
        if !go {
          break;
        }
        AppendChunk(src.chunks, i);
        i := i + 1;
      }
    }

    /**
     * The `finally` block: if the flag is still set, commit the response
     * and open the tabs for its fragments; then clear the flag.
     */
    method Finish()
      requires Valid()
      modifies this
      ensures Valid() && !isStreaming
      ensures history == old(history) + (if old(isStreaming) then [Message(Assistant, accumulated)] else [])
      ensures old(isStreaming) ==> tabs == old(tabs) + CodeTabs(accumulated)
      ensures !old(isStreaming) ==> tabs == old(tabs)
      ensures !old(isStreaming) || CodeTabs(accumulated) == [] ==> current == old(current)
      ensures old(isStreaming) && CodeTabs(accumulated) != [] ==> current == |tabs| - 1
      ensures accumulated == old(accumulated)
    {
      if isStreaming {
        history := history + [Message(Assistant, accumulated)];
        CreateCodeTabs(accumulated);
      }
      isStreaming := false;
    }

    /**
     * `stream_model_response`: the accumulated response is reset, then
     * grows chunk by chunk until the stream ends or raises, or a cancel
     * clears the flag.  If the flag is still set in `finally`, the response
     * is committed and its fragments become tabs; after a cancel they
     * became tabs in `cancel_stream`.  Either way, for the single cancel
     * modelled here, each distinct fragment of the received text is opened
     * exactly once.
     */
    method StreamModelResponse(src: ChunkSource, cancelAt: Moment)
      requires Valid() && isStreaming
      modifies this
      ensures Valid()
      ensures accumulated == Received(src, cancelAt)
      ensures history == old(history) + (if Commits(src, cancelAt) then [Message(Assistant, accumulated)] else [])
      ensures !isStreaming
      ensures tabs == old(tabs) + CodeTabs(accumulated)
      ensures CodeTabs(accumulated) == [] ==> current == old(current)
      ensures CodeTabs(accumulated) != [] ==> current == |tabs| - 1
    {
      accumulated := "";
      var i := ReceiveChunks(src, cancelAt);
      LoopExit(src, cancelAt, i);
      Finish();
    }
  }
}
