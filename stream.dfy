/**
 * The viewer side shared by every server: a generator that, pass after pass,
 * reads `image.jpg`, processes it and yields one multipart part; when that
 * raises, it tries `placeholder.jpg` the same way and then sleeps 0.1 s.
 * The processing differs per server and is a parameter.
 */
module Stream {
  import opened Wrappers
  import opened Multipart
  import opened FrameStores

  /** Turns a file's bytes into a payload; None when some stage raised. */
  type Pipeline = Bytes -> Option<Bytes>

  /** One pass of the generator: the part it yields, if any, and whether it slept afterwards. */
  datatype StepResult = StepResult(chunk: Option<Bytes>, slept: bool)

  /** What a viewer's generator does, in order: yield a part, or sleep for the pacing interval. */
  datatype Event = Emit(chunk: Bytes) | Pause

  /** The live payload of a pass: reading `image.jpg` raises when it is absent. */
  function LivePayload(live: Pipeline, snap: Snapshot): Option<Bytes>
  {
    match snap.image
    case None => None
    case Some(data) => live(data)
  }

  /** The placeholder payload: tried only when `os.path.exists(PLACEHOLDER_PATH)`, and dropped when it raises. */
  function PlaceholderPayload(fallback: Pipeline, snap: Snapshot): Option<Bytes>
  {
    match snap.placeholder
    case None => None
    case Some(data) => fallback(data)
  }

  /** One pass of the `while True` loop. */
  function Step(live: Pipeline, fallback: Pipeline, snap: Snapshot): (r: StepResult)
    ensures r.chunk.Some? ==> ParseChunk(r.chunk.value).Some?
    ensures !r.slept ==> r.chunk.Some?
  {
    match LivePayload(live, snap)
    case Some(payload) => StepResult(Some(Chunk(payload)), false)
    case None =>
      var chunk := match PlaceholderPayload(fallback, snap)
                   case Some(payload) => Some(Chunk(payload))
                   case None => None;
      StepResult(chunk, true)
  }

  /** When the current frame processes, the pass yields its part and does not sleep. */
  lemma StepLive(live: Pipeline, fallback: Pipeline, snap: Snapshot, payload: Bytes)
    requires snap.image.Some? && live(snap.image.value) == Some(payload)
    ensures Step(live, fallback, snap) == StepResult(Some(Chunk(payload)), false)
  {
  }

  /**
   * When the current frame is absent or raises, the pass yields the
   * placeholder's part if the placeholder exists and processes, nothing
   * otherwise, and sleeps in either case.
   */
  lemma StepFallback(live: Pipeline, fallback: Pipeline, snap: Snapshot)
    requires LivePayload(live, snap).None?
    ensures Step(live, fallback, snap).slept
    ensures Step(live, fallback, snap).chunk ==
              if snap.placeholder.Some? && fallback(snap.placeholder.value).Some?
              then Some(Chunk(fallback(snap.placeholder.value).value))
              else None
  {
  }

  function StepEvents(r: StepResult): seq<Event>
  {
    (if r.chunk.Some? then [Emit(r.chunk.value)] else []) + (if r.slept then [Pause] else [])
  }

  /** Reference definition of what a generator does over the given passes. */
  function Trace(live: Pipeline, fallback: Pipeline, polls: seq<Snapshot>): seq<Event>
    decreases |polls|
  {
    if |polls| == 0 then []
    else Trace(live, fallback, polls[..|polls| - 1]) + StepEvents(Step(live, fallback, polls[|polls| - 1]))
  }

  /**
   * The generator, run for as many passes as `polls` has snapshots; `polls[i]`
   * is what the two files held at pass i (the ingest handler may write
   * between passes).
   */
  method Generate(live: Pipeline, fallback: Pipeline, polls: seq<Snapshot>) returns (events: seq<Event>)
    ensures events == Trace(live, fallback, polls)
  {
    events := [];
    var i := 0;
    while i < |polls|
      invariant 0 <= i <= |polls|
      invariant events == Trace(live, fallback, polls[..i])
    {
      assert polls[..i + 1][..i] == polls[..i];
      var snap := polls[i];
      var current := if snap.image.Some? then live(snap.image.value) else None;
      if current.Some? {
        events := events + [Emit(Chunk(current.value))];
      } else {
        if snap.placeholder.Some? {
          var fallbackPayload := fallback(snap.placeholder.value);
          if fallbackPayload.Some? {
            events := events + [Emit(Chunk(fallbackPayload.value))];
          }
        }
        events := events + [Pause];
      }
      i := i + 1;
    }
    assert polls[..|polls|] == polls;
  }

  /** Everything a generator yields is a well-framed part. */
  lemma {:induction false} TraceYieldsFramedChunks(live: Pipeline, fallback: Pipeline, polls: seq<Snapshot>)
    ensures forall i | 0 <= i < |Trace(live, fallback, polls)| && Trace(live, fallback, polls)[i].Emit? ::
              ParseChunk(Trace(live, fallback, polls)[i].chunk).Some?
    decreases |polls|
  {
    if |polls| > 0 {
      TraceYieldsFramedChunks(live, fallback, polls[..|polls| - 1]);
    }
  }

  /**
   * While the current frame keeps processing, the generator yields one part
   * per pass, from the current frame, and never sleeps.
   */
  lemma {:induction false} SteadyLiveNeverPauses(live: Pipeline, fallback: Pipeline, polls: seq<Snapshot>)
    requires forall i | 0 <= i < |polls| :: LivePayload(live, polls[i]).Some?
    ensures Trace(live, fallback, polls) ==
              seq(|polls|, i requires 0 <= i < |polls| => Emit(Chunk(LivePayload(live, polls[i]).value)))
    decreases |polls|
  {
    if |polls| > 0 {
      var n := |polls| - 1;
      var front := polls[..n];
      assert forall i | 0 <= i < n :: front[i] == polls[i];
      SteadyLiveNeverPauses(live, fallback, front);
    }
  }

  /**
   * With no processable current frame and no placeholder, a viewer gets no
   * part at all, only sleeps.
   */
  lemma {:induction false} NoFrameOnlyPauses(live: Pipeline, fallback: Pipeline, polls: seq<Snapshot>)
    requires forall i | 0 <= i < |polls| :: LivePayload(live, polls[i]).None? && polls[i].placeholder.None?
    ensures Trace(live, fallback, polls) == seq(|polls|, _ => Pause)
    decreases |polls|
  {
    if |polls| > 0 {
      var n := |polls| - 1;
      var front := polls[..n];
      assert forall i | 0 <= i < n :: front[i] == polls[i];
      NoFrameOnlyPauses(live, fallback, front);
    }
  }

  /** `block` repeated `n` times. */
  function Repeat<T>(block: seq<T>, n: nat): (r: seq<T>)
    ensures |r| == n * |block|
  {
    if n == 0 then [] else Repeat(block, n - 1) + block
  }

  /**
   * Before any frame arrives, with a processable placeholder, every pass
   * yields the placeholder's part and then sleeps.
   */
  lemma {:induction false} PlaceholderBeforeFirstFrame(live: Pipeline, fallback: Pipeline, polls: seq<Snapshot>, placeholder: Bytes, payload: Bytes)
    requires fallback(placeholder) == Some(payload)
    requires forall i | 0 <= i < |polls| :: polls[i] == Snapshot(None, Some(placeholder))
    ensures Trace(live, fallback, polls) == Repeat([Emit(Chunk(payload)), Pause], |polls|)
    decreases |polls|
  {
    if |polls| > 0 {
      var n := |polls| - 1;
      var front := polls[..n];
      assert forall i | 0 <= i < n :: front[i] == polls[i];
      PlaceholderBeforeFirstFrame(live, fallback, front, placeholder, payload);
    }
  }

  function Pauses(events: seq<Event>): nat
    decreases |events|
  {
    if |events| == 0 then 0
    else Pauses(events[..|events| - 1]) + (if events[|events| - 1].Pause? then 1 else 0)
  }

  /** The passes whose current frame is absent or raises. */
  function FailedPasses(live: Pipeline, polls: seq<Snapshot>): nat
    decreases |polls|
  {
    if |polls| == 0 then 0
    else FailedPasses(live, polls[..|polls| - 1]) + (if LivePayload(live, polls[|polls| - 1]).None? then 1 else 0)
  }

  lemma {:induction false} PausesAppend(a: seq<Event>, b: seq<Event>)
    ensures Pauses(a + b) == Pauses(a) + Pauses(b)
    decreases |b|
  {
    if |b| == 0 {
      assert a + b == a;
    } else {
      assert (a + b)[..|a + b| - 1] == a + b[..|b| - 1];
      PausesAppend(a, b[..|b| - 1]);
    }
  }

  lemma PausesOfStep(r: StepResult)
    ensures Pauses(StepEvents(r)) == if r.slept then 1 else 0
  {
    var es := StepEvents(r);
    if r.chunk.Some? && r.slept {
      assert es == [Emit(r.chunk.value), Pause];
      assert es[..1] == [Emit(r.chunk.value)] && es[..1][..0] == [];
      assert Pauses(es[..1]) == 0;
    } else if r.chunk.Some? || r.slept {
      assert |es| == 1 && es[..0] == [];
    }
  }

  /** The generator sleeps exactly once per pass whose current frame failed, and never otherwise. */
  lemma {:induction false} PausesCountFailedPasses(live: Pipeline, fallback: Pipeline, polls: seq<Snapshot>)
    ensures Pauses(Trace(live, fallback, polls)) == FailedPasses(live, polls)
    decreases |polls|
  {
    if |polls| > 0 {
      var n := |polls| - 1;
      var r := Step(live, fallback, polls[n]);
      PausesCountFailedPasses(live, fallback, polls[..n]);
      PausesAppend(Trace(live, fallback, polls[..n]), StepEvents(r));
      PausesOfStep(r);
      assert r.slept <==> LivePayload(live, polls[n]).None?;
    }
  }
}
