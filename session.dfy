/** `useStreamingExplanation`: the five state cells of the hook and `executeStream`, which
    drives one generator to its end. The generator is given as the chunks it yields
    followed by how it ends. Each setter call is recorded in the ghost log `updates`, so
    the order in which the cells change is part of the contract. */
module Session {
  import opened Types
  import opened Text
  import opened Errors

  /** How the generator ends after its chunks: it returns a value (`None` for a falsy
      one) or it throws. */
  datatype End = Done(value: Option<Explanation>) | Fail(error: Thrown)

  /** One call of a state setter. */
  datatype Update =
    | SetExplanation(explanation: Option<Explanation>)
    | SetStreamingContent(content: string)
    | SetIsStreaming(streaming: bool)
    | SetLoading(loading: bool)
    | SetError(error: Option<string>)

  /** The five state cells. */
  datatype View = View(explanation: Option<Explanation>, streamingContent: string,
                       isStreaming: bool, loading: bool, error: Option<string>)

  function ApplyUpdate(v: View, u: Update): View {
    match u
    case SetExplanation(x) => v.(explanation := x)
    case SetStreamingContent(c) => v.(streamingContent := c)
    case SetIsStreaming(b) => v.(isStreaming := b)
    case SetLoading(b) => v.(loading := b)
    case SetError(e) => v.(error := e)
  }

  /** The cells after a sequence of setter calls, applied in order. */
  function Replay(v: View, us: seq<Update>): View
    decreases |us|
  {
    if |us| == 0 then v else ApplyUpdate(Replay(v, us[..|us| - 1]), us[|us| - 1])
  }

  /** The calls made before the generator is first asked for a value. */
  const StartUpdates: seq<Update> :=
    [SetLoading(true), SetIsStreaming(true), SetError(None), SetExplanation(None), SetStreamingContent("")]

  /** One `setStreamingContent` per chunk, with the content accumulated so far. */
  function ChunkUpdates(chunks: seq<string>): (us: seq<Update>)
    ensures |us| == |chunks|
    decreases |chunks|
  {
    if |chunks| == 0 then []
    else ChunkUpdates(chunks[..|chunks| - 1]) + [SetStreamingContent(Concat(chunks))]
  }

  /** The call made once the generator has ended: the explanation when a truthy value
      was returned, the shown message when it threw. */
  function EndUpdates(end: End): seq<Update> {
    match end
    case Done(value) => if value.Some? then [SetExplanation(value)] else []
    case Fail(e) => [SetError(Some(HandleApiError(e)))]
  }

  /** The calls of the `finally` block. */
  const FinalUpdates: seq<Update> := [SetLoading(false), SetIsStreaming(false)]

  /** Every setter call of one `executeStream`, in order. */
  function SessionUpdates(chunks: seq<string>, end: End): seq<Update> {
    StartUpdates + ChunkUpdates(chunks) + EndUpdates(end) + FinalUpdates
  }

  class StreamingSession {
    var explanation: Option<Explanation>
    var streamingContent: string
    var isStreaming: bool
    var loading: bool
    var error: Option<string>
    /** Every setter call so far, in order. */
    ghost var updates: seq<Update>

    function Current(): View
      reads this
    {
      View(explanation, streamingContent, isStreaming, loading, error)
    }

    /** The initial state of the hook. */
    constructor()
      ensures Current() == View(None, "", false, false, None)
      ensures updates == []
    {
      explanation := None;
      streamingContent := "";
      isStreaming := false;
      loading := false;
      error := None;
      updates := [];
    }

    /** One setter call. */
    method Set(u: Update)
      modifies this
      ensures Current() == ApplyUpdate(old(Current()), u)
      ensures updates == old(updates) + [u]
    {
      updates := updates + [u];
      match u
      case SetExplanation(x) => explanation := x;
      case SetStreamingContent(c) => streamingContent := c;
      case SetIsStreaming(b) => isStreaming := b;
      case SetLoading(b) => loading := b;
      case SetError(e) => error := e;
    }

    /** `executeStream`: resets the cells, shows the accumulated content after every
        chunk, stores a truthy returned explanation or the message of a thrown error, and
        finally clears both flags. */
    method ExecuteStream(chunks: seq<string>, end: End)
      modifies this
      ensures updates == old(updates) + SessionUpdates(chunks, end)
      ensures explanation == (if end.Done? then end.value else None)
      ensures streamingContent == Concat(chunks)
      ensures error == (if end.Fail? then Some(HandleApiError(end.error)) else None)
      ensures !loading && !isStreaming
    {
      Begin();
      ShowChunks(chunks);
      Conclude(end);
    }

    /** The five calls before the generator is first asked for a value. */
    method Begin()
      modifies this
      ensures Current() == View(None, "", true, true, None)
      ensures updates == old(updates) + StartUpdates
    {
      Set(SetLoading(true));
      Set(SetIsStreaming(true));
      Set(SetError(None));
      Set(SetExplanation(None));
      Set(SetStreamingContent(""));
    }

    /** The `while` loop over the generator's chunks: `content` accumulates them and is
        shown after each one. */
    method ShowChunks(chunks: seq<string>)
      modifies this
      requires Current() == View(None, "", true, true, None)
      ensures Current() == View(None, Concat(chunks), true, true, None)
      ensures updates == old(updates) + ChunkUpdates(chunks)
    {
      var content := "";
      var i := 0;
      while i < |chunks|
        invariant 0 <= i <= |chunks|
        invariant content == Concat(chunks[..i])
        invariant Current() == View(None, content, true, true, None)
        invariant updates == old(updates) + ChunkUpdates(chunks[..i])
      {
        assert chunks[..i + 1][..i] == chunks[..i];
        content := content + chunks[i];
        Set(SetStreamingContent(content));
        i := i + 1;
      }
      assert chunks[..i] == chunks;
    }

    /** After the loop: the returned explanation when it is truthy, the shown message when
        the generator threw, and then the `finally` block. */
    method Conclude(end: End)
      modifies this
      requires explanation == None && error == None
      ensures explanation == (if end.Done? then end.value else None)
      ensures error == (if end.Fail? then Some(HandleApiError(end.error)) else None)
      ensures streamingContent == old(streamingContent)
      ensures !loading && !isStreaming
      ensures updates == old(updates) + EndUpdates(end) + FinalUpdates
    {
      if end.Fail? {
        Set(SetError(Some(HandleApiError(end.error))));
      } else {
        var finalExplanation: Option<Explanation> := None;
        if end.value.Some? {
          finalExplanation := end.value;
        }
        if finalExplanation.Some? {
          Set(SetExplanation(finalExplanation));
        }
      }
      Set(SetLoading(false));
      Set(SetIsStreaming(false));
    }
  }

  lemma {:induction false} ReplayAppend(v: View, a: seq<Update>, b: seq<Update>)
    ensures Replay(v, a + b) == Replay(Replay(v, a), b)
    decreases |b|
  {
    if |b| == 0 {
      assert a + b == a;
    } else {
      assert (a + b)[..|a + b| - 1] == a + b[..|b| - 1];
      ReplayAppend(v, a, b[..|b| - 1]);
    }
  }

  lemma ReplaySnoc(v: View, a: seq<Update>, u: Update)
    ensures Replay(v, a + [u]) == ApplyUpdate(Replay(v, a), u)
  {
    assert (a + [u])[..|a|] == a;
  }

  /** Replaying the chunk updates leaves only the accumulated content changed. */
  lemma {:induction false} ReplayChunks(v: View, chunks: seq<string>)
    ensures Replay(v, ChunkUpdates(chunks))
         == if |chunks| == 0 then v else v.(streamingContent := Concat(chunks))
    decreases |chunks|
  {
    if |chunks| > 0 {
      var init := chunks[..|chunks| - 1];
      var us := ChunkUpdates(chunks);
      assert us[..|us| - 1] == ChunkUpdates(init);
      ReplayChunks(v, init);
    }
  }

  /** Whatever the cells held before, the setter calls of one session leave them as
      `ExecuteStream` promises: the log and the cells agree. */
  lemma SessionOutcome(v: View, chunks: seq<string>, end: End)
    ensures Replay(v, SessionUpdates(chunks, end))
         == View(if end.Done? then end.value else None, Concat(chunks), false, false,
                 if end.Fail? then Some(HandleApiError(end.error)) else None)
  {
    var s := Replay(v, StartUpdates);
    ReplayStart(v);
    ReplayAppend(v, StartUpdates, ChunkUpdates(chunks));
    ReplayChunks(s, chunks);
    var c := Replay(v, StartUpdates + ChunkUpdates(chunks));
    assert c == View(None, Concat(chunks), true, true, None) by {
      if |chunks| == 0 {
        assert Concat(chunks) == "";
      }
    }
    assert SessionUpdates(chunks, end)
        == (StartUpdates + ChunkUpdates(chunks)) + (EndUpdates(end) + FinalUpdates);
    ReplayAppend(v, StartUpdates + ChunkUpdates(chunks), EndUpdates(end) + FinalUpdates);
    ReplayEnd(c, end);
  }

  lemma ReplayStart(v: View)
    ensures Replay(v, StartUpdates) == View(None, "", true, true, None)
  {
    var u := StartUpdates;
    ReplaySnoc(v, [], u[0]);
    ReplaySnoc(v, u[..1], u[1]);
    ReplaySnoc(v, u[..2], u[2]);
    ReplaySnoc(v, u[..3], u[3]);
    ReplaySnoc(v, u[..4], u[4]);
    assert [] + [u[0]] == u[..1] && u[..1] + [u[1]] == u[..2] && u[..2] + [u[2]] == u[..3];
    assert u[..3] + [u[3]] == u[..4] && u[..4] + [u[4]] == u;
  }

  lemma ReplayEnd(c: View, end: End)
    requires c.explanation == None && c.error == None
    ensures Replay(c, EndUpdates(end) + FinalUpdates)
         == c.(explanation := if end.Done? then end.value else None,
               error := if end.Fail? then Some(HandleApiError(end.error)) else None,
               loading := false, isStreaming := false)
  {
    var e := EndUpdates(end);
    ReplayAppend(c, e, FinalUpdates);
    if |e| > 0 {
      ReplaySnoc(c, [], e[0]);
      assert [] + [e[0]] == e;
    }
    var d := Replay(c, e);
    ReplaySnoc(d, [], FinalUpdates[0]);
    ReplaySnoc(d, [FinalUpdates[0]], FinalUpdates[1]);
    assert [] + [FinalUpdates[0]] == [FinalUpdates[0]];
    assert [FinalUpdates[0]] + [FinalUpdates[1]] == FinalUpdates;
  }

  /** The k-th chunk update shows the first k + 1 chunks. */
  lemma {:induction false} ChunkUpdateAt(chunks: seq<string>, k: nat)
    requires k < |chunks|
    ensures ChunkUpdates(chunks)[k] == SetStreamingContent(Concat(chunks[..k + 1]))
    decreases |chunks|
  {
    var init := chunks[..|chunks| - 1];
    if k < |init| {
      ChunkUpdateAt(init, k);
      assert init[..k + 1] == chunks[..k + 1];
    } else {
      assert chunks[..k + 1] == chunks;
    }
  }

  /** Every chunk update sets the streamed content. */
  lemma {:induction false} ChunkUpdatesShowContent(chunks: seq<string>)
    ensures forall k :: 0 <= k < |chunks| ==> ChunkUpdates(chunks)[k].SetStreamingContent?
    decreases |chunks|
  {
    if |chunks| > 0 {
      ChunkUpdatesShowContent(chunks[..|chunks| - 1]);
    }
  }

  /** An explanation is stored only after the last chunk has been shown, and nothing
      shows content after it. */
  lemma ExplanationAfterChunks(chunks: seq<string>, end: End)
    ensures var us := SessionUpdates(chunks, end);
      forall j :: 0 <= j < |us| && us[j].SetExplanation? && us[j].explanation.Some? ==>
        j == |StartUpdates| + |chunks|
        && forall i :: 0 <= i < |us| && us[i].SetStreamingContent? ==> i < j
  {
    var us := SessionUpdates(chunks, end);
    var m := |StartUpdates|;
    var n := m + |chunks|;
    var cu := ChunkUpdates(chunks);
    var tail := EndUpdates(end) + FinalUpdates;
    assert us == StartUpdates + cu + tail;
    ChunkUpdatesShowContent(chunks);
    assert forall k :: 0 <= k < m ==> us[k] == StartUpdates[k];
    assert forall k :: m <= k < n ==> us[k] == cu[k - m];
    assert forall k :: n <= k < |us| ==> us[k] == tail[k - n];
    assert forall k :: 0 <= k < |tail| ==> !tail[k].SetStreamingContent?;
    assert forall k :: 0 < k < |tail| ==> !tail[k].SetExplanation?;
  }
}
