/**
 * The single-window chat client (`GUImemStrThread32b.py`): the module
 * globals `chat_history`, `is_streaming` and `loading_dots`, together with
 * the loading label and the pending animation ticks, become the fields of
 * one session object.
 */
module MemChat {
  import opened PyStr
  import opened Stream

  /** The loading label's text before its dots. */
  const LoadingText := "Model yanıt veriyor"

  /** `"." * k` */
  function Dots(k: nat): (s: string)
    ensures |s| == k
    ensures forall j :: 0 <= j < k ==> s[j] == '.'
  {
    if k == 0 then "" else Dots(k - 1) + "."
  }

  class ChatSession {
    var history: seq<Message>
    var isStreaming: bool
    var loadingDots: nat
    /** The text of the loading label. */
    var loadingLabel: string
    /** Calls of `update_loading_dots` scheduled with `root.after` and not yet run. */
    var ticks: nat

    constructor ()
      ensures history == [] && !isStreaming && loadingDots == 0
      ensures loadingLabel == "" && ticks == 0
    {
      history := [];
      isStreaming := false;
      loadingDots := 0;
      loadingLabel := "";
      ticks := 0;
    }

    /**
     * `update_loading_dots`: while streaming, show the label with
     * `loading_dots % 4` dots, count up and schedule the next tick;
     * otherwise clear the label and schedule nothing.
     */
    method UpdateLoadingDots()
      modifies this
      ensures isStreaming == old(isStreaming) && history == old(history)
      ensures isStreaming ==>
        && |loadingLabel| == |LoadingText| + old(loadingDots) % 4
        && loadingLabel[..|LoadingText|] == LoadingText
        && (forall k :: |LoadingText| <= k < |loadingLabel| ==> loadingLabel[k] == '.')
        && loadingDots == old(loadingDots) + 1
        && ticks == old(ticks) + 1
      ensures !isStreaming ==>
        loadingLabel == "" && loadingDots == old(loadingDots) && ticks == old(ticks)
    {
      if isStreaming {
        loadingLabel := LoadingText + Dots(loadingDots % 4);
        loadingDots := loadingDots + 1;
        ticks := ticks + 1;
      } else {
        loadingLabel := "";
      }
    }

    /** A scheduled tick runs. */
    method Tick()
      requires ticks > 0
      modifies this
      ensures isStreaming == old(isStreaming) && history == old(history)
      ensures isStreaming ==> loadingDots == old(loadingDots) + 1 && ticks == old(ticks)
      ensures !isStreaming ==> loadingLabel == "" && ticks == old(ticks) - 1
    {
      ticks := ticks - 1;
      UpdateLoadingDots();
    }

    /** `start_loading_animation`: reset the counter and run one tick at once. */
    method StartLoadingAnimation()
      modifies this
      ensures isStreaming == old(isStreaming) && history == old(history)
      ensures isStreaming ==> loadingLabel == LoadingText && loadingDots == 1 && ticks == old(ticks) + 1
      ensures !isStreaming ==> loadingLabel == "" && loadingDots == 0 && ticks == old(ticks)
    {
      loadingDots := 0;
      UpdateLoadingDots();
    }

    /**
     * `send_message` as written: blank input is ignored; otherwise the raw
     * input is appended and the flag is set, with no check of whether a
     * stream is already running.  The animation is started before the
     * flag is set, so starting from idle leaves the label empty with no
     * tick scheduled.
     */
    method SendMessage(entry: string) returns (started: bool)
      modifies this
      ensures started <==> !AllSpace(entry)
      ensures history == old(history) + (if started then [Message(User, entry)] else [])
      ensures isStreaming == (started || old(isStreaming))
      ensures started && !old(isStreaming) ==> loadingLabel == "" && loadingDots == 0 && ticks == old(ticks)
      ensures started && old(isStreaming) ==> loadingLabel == LoadingText && loadingDots == 1 && ticks == old(ticks) + 1
      ensures !started ==> loadingLabel == old(loadingLabel) && ticks == old(ticks) && loadingDots == old(loadingDots)
    {
      if Strip(entry) == "" {
        return false;
      }
      history := history + [Message(User, entry)];
      StartLoadingAnimation();
      isStreaming := true;
      started := true;
    }

    /** `send_message` with the flag set before the animation starts, so the first tick shows. */
    method SendMessageCorrected(entry: string) returns (started: bool)
      modifies this
      ensures started <==> !AllSpace(entry)
      ensures history == old(history) + (if started then [Message(User, entry)] else [])
      ensures isStreaming == (started || old(isStreaming))
      ensures started ==> loadingLabel == LoadingText && loadingDots == 1 && ticks == old(ticks) + 1
      ensures !started ==> loadingLabel == old(loadingLabel) && ticks == old(ticks) && loadingDots == old(loadingDots)
    {
      if Strip(entry) == "" {
        return false;
      }
      history := history + [Message(User, entry)];
      isStreaming := true;
      StartLoadingAnimation();
      started := true;
    }

    /** `cancel_stream`: only clears the flag. */
    method CancelStream()
      modifies this
      ensures !isStreaming
      ensures history == old(history) && loadingDots == old(loadingDots)
      ensures loadingLabel == old(loadingLabel) && ticks == old(ticks)
    {
      isStreaming := false;
    }

    /**
     * `stream_model_response` on the worker: chunks are appended to the
     * local `model_response` until the stream ends or raises, or until the
     * flag is found false; a cancel landing at `cancelAt` runs in between.
     * In `finally` the response is committed only if the flag is still
     * set; then the flag is cleared and the label is cleared.
     * The worker is only started by `send_message`, right after setting
     * the flag.
     */
    method StreamModelResponse(src: ChunkSource, cancelAt: Moment) returns (response: string)
      requires isStreaming
      modifies this
      ensures response == Received(src, cancelAt)
      ensures history == old(history) + (if Commits(src, cancelAt) then [Message(Assistant, response)] else [])
      ensures !isStreaming && loadingLabel == ""
      ensures loadingDots == old(loadingDots) && ticks == old(ticks)
    {
      response := "";
      var i := 0;
      while true
        invariant i <= EndPoint(src)
        invariant response == Concat(src.chunks[..i])
        invariant isStreaming && (cancelAt.At? ==> i <= cancelAt.pull)
        invariant history == old(history)
        invariant loadingDots == old(loadingDots) && ticks == old(ticks)
        decreases EndPoint(src) - i
      {
        if cancelAt == At(i) {
          CancelStream();
        }
        if src.failAt == At(i) || i == |src.chunks| {
          break;
        }
        if !isStreaming {
          break;
        }
        ConcatSnoc(src.chunks, i);
        response := response + src.chunks[i];
        i := i + 1;
      }
      LoopExit(src, cancelAt, i);
      if isStreaming {
        history := history + [Message(Assistant, response)];
      }
      isStreaming := false;
      loadingLabel := "";
    }
  }
}
