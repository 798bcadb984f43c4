/**
 * The single-editor code assistant (`Canvas/14b_canvas_4.py`): one
 * highlighting editor that is re-highlighted in full, and a chat session
 * whose worker replaces the editor's text with the last extracted code
 * fragment after every chunk.
 */
module Canvas4 {
  import opened PyStr
  import opened CodeBlocks
  import opened Regex
  import opened Syntax
  import opened Stream

  /** The editor text after `update_code_editor(newCode)`: replaced unless the code is blank. */
  function Updated(editor: string, newCode: string): string {
    if Strip(newCode) != "" then newCode else editor
  }

  /**
   * The editor text after one extraction pass over `text`: the last
   * fragment, or the editor unchanged when there is none.
   */
  function Refreshed(editor: string, text: string): string {
    var bs := ExtractCodeFromResponse(text);
    if bs != [] then bs[|bs| - 1] else editor
  }

  /** The editor text after the worker has appended the first `n` chunks, refreshing after each. */
  function EditorAfter(editor: string, chunks: seq<string>, n: nat): string
    requires n <= |chunks|
    decreases n, 1
  {
    if n == 0 then editor else PassAfter(editor, chunks, n)
  }

  /** The pass that follows the `n`-th append, over the text accumulated from the first `n` chunks. */
  function PassAfter(editor: string, chunks: seq<string>, n: nat): string
    requires 0 < n <= |chunks|
    decreases n, 0
  {
    Refreshed(EditorAfter(editor, chunks, n - 1), Concat(chunks[..n]))
  }

  /** The editor text after each append, from none to all of `chunks`. */
  function EditorTrail(editor: string, chunks: seq<string>): (tr: seq<string>)
    ensures |tr| == |chunks| + 1
  {
    seq(|chunks| + 1, n requires 0 <= n <= |chunks| => EditorAfter(editor, chunks, n))
  }

  /**
   * Handing the last fragment to `update_code_editor` always replaces the
   * editor's text, because a fragment is never blank.
   */
  lemma RefreshUpdatesEditor(editor: string, text: string)
    ensures var bs := ExtractCodeFromResponse(text);
      Refreshed(editor, text) == if bs != [] then Updated(editor, bs[|bs| - 1]) else editor
  {
    var bs := ExtractCodeFromResponse(text);
    if bs != [] {
      var last := bs[|bs| - 1];
      assert last != "" && IsStripped(last);
      assert Strip(last) == last;
    }
  }

  /** Running the same pass twice leaves the editor as running it once. */
  lemma RefreshIdempotent(editor: string, text: string)
    ensures Refreshed(Refreshed(editor, text), text) == Refreshed(editor, text)
  {
  }

  /**
   * The final pass in `finally` never changes what the loop's own passes
   * left: it reruns the pass over the same accumulated text.
   */
  lemma FinalPassChangesNothing(editor: string, chunks: seq<string>, n: nat)
    requires n <= |chunks|
    ensures Refreshed(EditorAfter(editor, chunks, n), Concat(chunks[..n])) == EditorAfter(editor, chunks, n)
  {
    if n == 0 {
      assert chunks[..0] == [];
      NoFenceNoFragments("");
    } else {
      RefreshIdempotent(EditorAfter(editor, chunks, n - 1), Concat(chunks[..n]));
    }
  }

  /**
   * After the worker has appended `n > 0` chunks, the editor holds the
   * last fragment of the text accumulated so far, if there is one.
   */
  lemma EditorShowsLatestFragment(editor: string, chunks: seq<string>, n: nat)
    requires 0 < n <= |chunks|
    ensures var bs := ExtractCodeFromResponse(Concat(chunks[..n]));
      bs != [] ==> EditorAfter(editor, chunks, n) == bs[|bs| - 1]
  {
  }

  /**
   * A response laid out like the message `send_message` builds, with one
   * python-tagged fence holding `code`, leaves the editor with the tag line
   * on top of the code: the bare pattern's fragment is the last one.
   */
  lemma TaggedFenceShowsTagLine(editor: string, u: string, code: string)
    requires NoFence(u) && NoFence(code)
    requires IsStripped(code) && code != ""
    ensures Refreshed(editor, Combine(u, code)) == "python\n" + code
  {
    CombinedExtraction(u, code);
  }

  /** The code editor: its text (`"1.0"` to `"end-1c"`) and the tagged spans. */
  class SyntaxHighlightingText {
    var text: string
    var tags: seq<Span>

    constructor ()
      ensures text == "" && tags == []
    {
      text := "";
      tags := [];
    }

    /**
     * `highlight_syntax`: removes the five tags over the whole buffer, then
     * runs the keyword search loop and the four `finditer` passes over the
     * whole text, with offsets that are character indices into it.
     */
    method HighlightSyntax()
      modifies this
      ensures text == old(text)
      ensures tags == HighlightSpans(text)
      ensures forall s :: s in tags ==> s.start < s.end <= |text|
    {
      tags := [];
      var keywordSpans := KeywordPass(text, Keywords);
      tags := keywordSpans
        + PassSpans(QuotedString, StringTag, text)
        + PassSpans(LineComment, CommentTag, text)
        + PassSpans(FunctionName, FunctionTag, text)
        + PassSpans(Number, NumberTag, text);
      HighlightSpansValid(text);
    }
  }

  class ChatCodeEditor {
    var history: seq<Message>
    var isStreaming: bool
    var accumulated: string
    const editor: SyntaxHighlightingText

    constructor ()
      ensures history == [] && !isStreaming && accumulated == ""
      ensures fresh(editor) && editor.text == "" && editor.tags == []
    {
      history := [];
      isStreaming := false;
      accumulated := "";
      editor := new SyntaxHighlightingText();
    }

    /**
     * `update_code_editor`: blank code leaves the editor alone; otherwise
     * its whole text becomes the code and is highlighted again.
     */
    method UpdateCodeEditor(newCode: string)
      modifies editor
      ensures editor.text == Updated(old(editor.text), newCode)
      ensures AllSpace(newCode) ==> editor.text == old(editor.text) && editor.tags == old(editor.tags)
      ensures !AllSpace(newCode) ==> editor.text == newCode && editor.tags == HighlightSpans(newCode)
    {
      if Strip(newCode) != "" {
        editor.text := newCode;
        editor.HighlightSyntax();
      }
    }

    /** Extract the fragments of `text` and hand the last one, if any, to `update_code_editor`. */
    method RefreshEditor(text: string)
      modifies editor
      ensures editor.text == Refreshed(old(editor.text), text)
    {
      var codeBlocks := ExtractCodeFromResponse(text);
      RefreshUpdatesEditor(editor.text, text);
      if codeBlocks != [] {
        UpdateCodeEditor(codeBlocks[|codeBlocks| - 1]);
      }
    }

    /**
     * The loop body once the flag is found set: append chunk `i`, then
     * refresh the editor with the new accumulated text.
     */
    method AppendChunk(ghost editor0: string, chunks: seq<string>, i: nat)
      requires i < |chunks|
      requires accumulated == Concat(chunks[..i])
      requires editor.text == EditorAfter(editor0, chunks, i)
      modifies this, editor
      ensures accumulated == Concat(chunks[..i + 1])
      ensures editor.text == EditorAfter(editor0, chunks, i + 1)
      ensures history == old(history) && isStreaming == old(isStreaming)
    {
      ConcatSnoc(chunks, i);
      accumulated := accumulated + chunks[i];
      RefreshEditor(accumulated);
    }

    /** The pass in `finally`, which leaves the editor as the loop left it. */
    method FinalPass(ghost editor0: string, chunks: seq<string>, n: nat)
      requires n <= |chunks|
      requires accumulated == Concat(chunks[..n])
      requires editor.text == EditorAfter(editor0, chunks, n)
      modifies editor
      ensures editor.text == old(editor.text)
    {
      FinalPassChangesNothing(editor0, chunks, n);
      RefreshEditor(accumulated);
    }

    /**
     * `send_message`: ignored while streaming or when the stripped input
     * is blank; otherwise appends one user message combining the stripped
     * input with the stripped editor text, and sets the flag.
     */
    method SendMessage(entry: string) returns (started: bool)
      modifies this
      ensures started <==> !old(isStreaming) && !AllSpace(entry)
      ensures history == old(history) + (if started then [Message(User, Combine(Strip(entry), Strip(editor.text)))] else [])
      ensures isStreaming == (old(isStreaming) || started)
      ensures accumulated == old(accumulated)
    {
      if isStreaming {
        return false;
      }
      var userInput := Strip(entry);
      var code := Strip(editor.text);
      if userInput == "" {
        return false;
      }
      history := history + [Message(User, Combine(userInput, code))];
      isStreaming := true;
      started := true;
    }

    /** `cancel_stream`: only clears the flag. */
    method CancelStream()
      modifies this
      ensures !isStreaming
      ensures history == old(history) && accumulated == old(accumulated)
    {
      isStreaming := false;
    }

    /**
     * One visit of the loop head after `i` chunks: the cancel, if it lands
     * now, clears the flag; then the loop goes on only if the stream has a
     * chunk left and the flag is still set.
     */
    method AtLoopHead(src: ChunkSource, cancelAt: Moment, i: nat) returns (go: bool)
      requires isStreaming && i <= EndPoint(src) && (cancelAt.At? ==> i <= cancelAt.pull)
      modifies this
      ensures isStreaming <==> cancelAt != At(i)
      ensures go ==> i < EndPoint(src) && (cancelAt.At? ==> i < cancelAt.pull)
      ensures !go ==> src.failAt == At(i) || i == |src.chunks| || cancelAt == At(i)
      ensures history == old(history) && accumulated == old(accumulated)
    {
      if cancelAt == At(i) {
        CancelStream();
      }
      if src.failAt == At(i) || i == |src.chunks| {
        return false;
      }
      go := isStreaming;
    }

    /**
     * One turn of the worker loop after `i` chunks: the cancel (if it lands
     * now), the pull, the check of the flag and, when the loop goes on, the
     * append and the refresh of the editor.
     */
    method Pull(src: ChunkSource, cancelAt: Moment, ghost editor0: string, ghost trail: seq<string>, i: nat) returns (go: bool)
      requires isStreaming && i <= EndPoint(src) && (cancelAt.At? ==> i <= cancelAt.pull)
      requires accumulated == Concat(src.chunks[..i])
      requires trail == EditorTrail(editor0, src.chunks) && editor.text == trail[i]
      modifies this, editor
      ensures history == old(history)
      ensures go ==> isStreaming && i < EndPoint(src) && (cancelAt.At? ==> i < cancelAt.pull)
      ensures go ==> accumulated == Concat(src.chunks[..i + 1])
      ensures go ==> editor.text == trail[i + 1]
      ensures !go ==> src.failAt == At(i) || i == |src.chunks| || cancelAt == At(i)
      ensures !go ==> (isStreaming <==> cancelAt != At(i))
      ensures !go ==> accumulated == old(accumulated) && editor.text == old(editor.text)
    {
      go := AtLoopHead(src, cancelAt, i);
      if go {
        AppendChunk(editor0, src.chunks, i);
      }
    }

    /**
     * The `for` loop of `stream_model_response`, from an empty accumulated
     * response: it stops at the end of the stream, at the pull that raises,
     * or when the flag is found cleared by a cancel landing at `cancelAt`.
     * After `i` chunks the editor shows entry `i` of its trail.
     */
    method ReceiveChunks(src: ChunkSource, cancelAt: Moment, ghost editor0: string) returns (i: nat)
      requires isStreaming && accumulated == "" && editor.text == editor0
      modifies this, editor
      ensures i <= EndPoint(src) && (cancelAt.At? ==> i <= cancelAt.pull)
      ensures src.failAt == At(i) || i == |src.chunks| || cancelAt == At(i)
      ensures isStreaming <==> cancelAt != At(i)
      ensures accumulated == Concat(src.chunks[..i])
      ensures editor.text == EditorTrail(editor0, src.chunks)[i]
      ensures history == old(history)
    {
      i := 0;
      ghost var trail := EditorTrail(editor0, src.chunks);
      ghost var history0 := history;
      while true
        invariant i <= EndPoint(src)
        invariant accumulated == Concat(src.chunks[..i])
        invariant editor.text == trail[i]
        invariant isStreaming && (cancelAt.At? ==> i <= cancelAt.pull)
        invariant history == history0
        decreases EndPoint(src) - i
      {
        var go := Pull(src, cancelAt, editor0, trail, i);
        if !go {
          break;
        }
        i := i + 1;
      }
    }

    /**
     * `stream_model_response`: the accumulated response is reset, then
     * grows chunk by chunk; after each chunk the last extracted fragment
     * replaces the editor's text.  A cancel landing at `cancelAt` only
     * clears the flag, so `finally` then skips both the assistant message
     * and the final pass.
     */
    method StreamModelResponse(src: ChunkSource, cancelAt: Moment)
      requires isStreaming
      modifies this, editor
      ensures accumulated == Received(src, cancelAt)
      ensures history == old(history) + (if Commits(src, cancelAt) then [Message(Assistant, accumulated)] else [])
      ensures !isStreaming
      ensures editor.text == EditorAfter(old(editor.text), src.chunks, Consumed(src, cancelAt))
    {
      accumulated := "";
      var i := ReceiveChunks(src, cancelAt, editor.text);
      LoopExit(src, cancelAt, i);
      if isStreaming {
        history := history + [Message(Assistant, accumulated)];
        FinalPass(old(editor.text), src.chunks, i);
      }
      isStreaming := false;
    }
  }
}
