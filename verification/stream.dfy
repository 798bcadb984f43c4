/**
 * One request/response cycle of the chat model, with the model's token
 * stream abstracted: the chunks it would yield, the pull (if any) that
 * raises instead, and the moment (if any) at which the user cancels.
 *
 * All three programs run the same worker loop: pull a chunk, stop if the
 * streaming flag is false, otherwise append the chunk; afterwards commit
 * the accumulated text as an assistant message only if the flag is still
 * set, and clear the flag.  The functions here say what that loop ends
 * with; the methods in the program modules are proved against them.
 */
module Stream {
  datatype Role = User | Assistant

  /** A point in the stream, counted in pulls, at which something happens, if it happens at all. */
  datatype Moment = Never | At(pull: nat)

  /** One entry of `chat_history`: a role and the message text. */
  datatype Message = Message(role: Role, content: string)

  /**
   * What `ollama.chat(..., stream=True)` yields: the chunk texts in order,
   * and, when `failAt == At(k)`, pull number `k` raises (pull 0 standing
   * for the call that opens the stream) instead of yielding or ending.
   */
  datatype ChunkSource = ChunkSource(chunks: seq<string>, failAt: Moment)

  /** The chunk texts joined in order. */
  function Concat(xs: seq<string>): string {
    if xs == [] then "" else Concat(xs[..|xs| - 1]) + xs[|xs| - 1]
  }

  /** Appending one more chunk appends its text. */
  lemma ConcatSnoc(xs: seq<string>, i: nat)
    requires i < |xs|
    ensures Concat(xs[..i + 1]) == Concat(xs[..i]) + xs[i]
  {
    assert xs[..i + 1][..i] == xs[..i];
  }

  /** The text accumulated after more pulls extends the text accumulated after fewer. */
  lemma {:induction false} ConcatPrefix(xs: seq<string>, n: nat, m: nat)
    requires n <= m <= |xs|
    ensures Concat(xs[..n]) <= Concat(xs[..m])
    decreases m - n
  {
    if n < m {
      ConcatPrefix(xs, n, m - 1);
      ConcatSnoc(xs, m - 1);
    }
  }

  /**
   * How many chunks the loop can consume when nobody cancels: all of
   * them, or those before the pull that raises.
   */
  function EndPoint(src: ChunkSource): (n: nat)
    ensures n <= |src.chunks|
    ensures src.failAt.At? ==> n <= src.failAt.pull
    ensures n == |src.chunks| || src.failAt == At(n)
  {
    if src.failAt.At? && src.failAt.pull < |src.chunks| then src.failAt.pull
    else |src.chunks|
  }

  /**
   * `cancelAt == At(i)`: the cancel action clears the flag after `i`
   * chunks have been appended, before the loop looks at the flag again.
   * Returns whether that happens while the worker is still running.
   */
  predicate CancelledInTime(src: ChunkSource, cancelAt: Moment) {
    cancelAt.At? && cancelAt.pull <= EndPoint(src)
  }

  /**
   * How many chunks the worker appends to the accumulated text: the first
   * visit of the loop head at which the cancel has landed, the pull
   * raises or the stream is exhausted.
   */
  function Consumed(src: ChunkSource, cancelAt: Moment): (n: nat)
    ensures n <= |src.chunks|
    ensures cancelAt == At(n) || src.failAt == At(n) || n == |src.chunks|
    ensures forall i: nat :: i < n ==> cancelAt != At(i) && src.failAt != At(i)
    ensures n <= EndPoint(src)
    ensures CancelledInTime(src, cancelAt) ==> n == cancelAt.pull
    ensures !CancelledInTime(src, cancelAt) ==> n == EndPoint(src)
  {
    if CancelledInTime(src, cancelAt) then cancelAt.pull else EndPoint(src)
  }

  /** The accumulated response when the worker leaves its loop. */
  function Received(src: ChunkSource, cancelAt: Moment): string {
    Concat(src.chunks[..Consumed(src, cancelAt)])
  }

  /** Whether the flag is still set in `finally`, so that the assistant message is committed. */
  predicate Commits(src: ChunkSource, cancelAt: Moment) {
    !CancelledInTime(src, cancelAt)
  }

  /**
   * Where the worker loop stops: at the end of the stream, at the pull
   * that raises, or at the cancel.  Stopping there means it has consumed
   * `Consumed` chunks and commits exactly when the cancel was not the cause.
   */
  lemma LoopExit(src: ChunkSource, cancelAt: Moment, i: nat)
    requires i <= EndPoint(src) && (cancelAt.At? ==> i <= cancelAt.pull)
    requires src.failAt == At(i) || i == |src.chunks| || cancelAt == At(i)
    ensures i == Consumed(src, cancelAt)
    ensures Commits(src, cancelAt) <==> cancelAt != At(i)
  {
  }

  /** The accumulated response is always a prefix of the whole stream's text. */
  lemma ReceivedIsPrefix(src: ChunkSource, cancelAt: Moment)
    ensures Received(src, cancelAt) <= Concat(src.chunks)
  {
    ConcatPrefix(src.chunks, Consumed(src, cancelAt), |src.chunks|);
    assert src.chunks[..|src.chunks|] == src.chunks;
  }

  /** A cancel that lands earlier never leaves more text than one that lands later. */
  lemma EarlierCancelReceivesLess(src: ChunkSource, i: nat, j: nat)
    requires i <= j
    ensures Received(src, At(i)) <= Received(src, At(j))
    ensures Received(src, At(j)) <= Received(src, Never)
  {
    ConcatPrefix(src.chunks, Consumed(src, At(i)), Consumed(src, At(j)));
    ConcatPrefix(src.chunks, Consumed(src, At(j)), Consumed(src, Never));
  }

  /** Without failure or cancel the whole stream is received and committed. */
  lemma CompleteStreamCommitsAll(chunks: seq<string>)
    ensures Commits(ChunkSource(chunks, Never), Never)
    ensures Received(ChunkSource(chunks, Never), Never) == Concat(chunks)
  {
    assert chunks[..|chunks|] == chunks;
  }

  /**
   * A cancel while the worker runs stops consumption at that point and
   * the assistant message is never committed.
   */
  lemma CancelCommitsNothing(src: ChunkSource, i: nat)
    requires i <= EndPoint(src)
    ensures Consumed(src, At(i)) == i
    ensures !Commits(src, At(i))
    ensures Received(src, At(i)) == Concat(src.chunks[..i])
  {
  }

  /**
   * A stream that raises at pull `k` without a cancel still commits the
   * text received before the failure.
   */
  lemma FailureCommitsPartialText(src: ChunkSource, k: nat)
    requires src.failAt == At(k) && k <= |src.chunks|
    ensures Commits(src, Never)
    ensures Received(src, Never) == Concat(src.chunks[..k])
  {
  }

  /** Cancelling after the first of three chunks leaves exactly the first chunk's text. */
  lemma CancelAfterFirstOfThree(a: string, b: string, c: string)
    ensures Received(ChunkSource([a, b, c], Never), At(1)) == a
    ensures !Commits(ChunkSource([a, b, c], Never), At(1))
  {
    var xs := [a, b, c];
    ConcatSnoc(xs, 0);
  }
}
