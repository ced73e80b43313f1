/**
 * main.py: the same FastAPI and OpenCV server without logging, except that
 * its placeholder branch yields the decoded sample buffer (`img.tobytes()`)
 * instead of a JPEG, under the same `image/jpeg` header.
 */
module MainServer {
  import opened Wrappers
  import opened Multipart
  import opened Imaging
  import opened FrameStores
  import Cv2
  import opened Ingest
  import opened Stream

  /** The body of `ws_handler`'s loop: it tests for a disconnect message first. */
  function Decide(cv: Cv2.Codec, m: WsMessage): (d: Decision)
    ensures d.Disconnect? <==> m.kind == WebsocketDisconnect
    ensures d.Store? ==> m.kind == WebsocketReceive && m.bytes == Some(d.data) && |d.data| > MinFrameBytes
    ensures !d.Fail?
  {
    FastApiGate(data => Cv2.Validate(cv, data), true, m)
  }

  function Decider(cv: Cv2.Codec): WsMessage -> Decision
  {
    m => Decide(cv, m)
  }

  /**
   * A binary message is stored, unchanged, only when it is over 5000 bytes
   * and decodes; every other received message, text included, leaves
   * `image.jpg` as it is.
   */
  lemma StoresOnlyLargeDecodableFrames(cv: Cv2.Codec, m: WsMessage)
    requires m.kind == WebsocketReceive
    ensures Decide(cv, m).Store? ==> m.bytes == Some(Decide(cv, m).data)
    ensures Decide(cv, m).Store? <==> m.bytes.Some? && |m.bytes.value| > MinFrameBytes && Cv2.IsValidImage(cv, m.bytes.value)
    ensures !Decide(cv, m).Store? ==> Decide(cv, m) == Keep
  {
  }

  /**
   * The first disconnect message ends the loop at once, whatever follows it,
   * with `image.jpg` as the messages before it left it.
   */
  lemma DisconnectEndsLoop(cv: Cv2.Codec, msgs: seq<WsMessage>, init: Option<Bytes>, k: nat)
    requires k < |msgs| && msgs[k].kind == WebsocketDisconnect
    requires forall j | 0 <= j < k :: msgs[j].kind == WebsocketReceive
    ensures Run(Decider(cv), msgs, init) == Session(Run(Decider(cv), msgs[..k], init).slot, k + 1, Disconnected)
  {
    forall j | 0 <= j < k
      ensures !Decider(cv)(msgs[j]).Ends()
    {
      StoresOnlyLargeDecodableFrames(cv, msgs[j]);
    }
    RunStopsAtFirstEnd(Decider(cv), msgs, init, k);
  }

  /** `ws_handler` */
  method WsHandler(store: FrameStore, cv: Cv2.Codec, msgs: seq<WsMessage>) returns (exit: Exit, received: nat)
    modifies store
    ensures var r := Run(Decider(cv), msgs, old(store.image));
            store.image == r.slot && exit == r.exit && received == r.received
    ensures !exit.Raised?
  {
    exit, received := Receive(store, Decider(cv), msgs);
  }

  /** `mjpeg_generator`, over the given passes. */
  method MjpegGenerator(cv: Cv2.Codec, detect: Cv2.Detector, polls: seq<Snapshot>) returns (events: seq<Event>)
    ensures events == Trace(Cv2.Annotated(cv, detect), Cv2.Raw(cv), polls)
  {
    events := Generate(Cv2.Annotated(cv, detect), Cv2.Raw(cv), polls);
  }

  /** The current frame's part carries the JPEG encoding of the annotated decoded frame; no sleep follows. */
  lemma LiveChunkIsAnnotatedJpeg(cv: Cv2.Codec, detect: Cv2.Detector, snap: Snapshot,
                                 decoded: Option<Pixels>, annotated: Pixels, jpeg: Bytes)
    requires snap.image.Some? && cv.imdecode(snap.image.value) == Ok(decoded)
    requires detect(decoded) == Ok(annotated) && cv.imencode(annotated) == Ok(jpeg)
    ensures Step(Cv2.Annotated(cv, detect), Cv2.Raw(cv), snap) == StepResult(Some(Chunk(jpeg)), false)
  {
  }

  /**
   * When the current frame fails and the placeholder decodes, the part
   * carries the placeholder's raw samples, whatever the detector and the
   * encoder would produce, and the pass sleeps.
   */
  lemma PlaceholderChunkIsRawSamples(cv: Cv2.Codec, detect: Cv2.Detector, snap: Snapshot, img: Pixels)
    requires LivePayload(Cv2.Annotated(cv, detect), snap).None?
    requires snap.placeholder.Some? && cv.imdecode(snap.placeholder.value) == Ok(Some(img))
    ensures Step(Cv2.Annotated(cv, detect), Cv2.Raw(cv), snap) == StepResult(Some(Chunk(img.samples)), true)
  {
  }

  /**
   * When the current frame fails and the placeholder is absent or does not
   * decode (imdecode returns None or raises), the pass yields nothing and sleeps.
   */
  lemma NoChunkWithoutDecodablePlaceholder(cv: Cv2.Codec, detect: Cv2.Detector, snap: Snapshot)
    requires LivePayload(Cv2.Annotated(cv, detect), snap).None?
    requires snap.placeholder.None? || !Cv2.IsValidImage(cv, snap.placeholder.value)
    ensures Step(Cv2.Annotated(cv, detect), Cv2.Raw(cv), snap) == StepResult(None, true)
  {
    if snap.placeholder.Some? {
      Cv2.RawSamplesIffValid(cv, snap.placeholder.value);
    }
  }
}
