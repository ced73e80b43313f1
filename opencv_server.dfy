/**
 * fastapiMain_opencv.py: FastAPI, OpenCV validation, YOLO annotation of the
 * current frame and of the placeholder.
 */
module OpenCvServer {
  import opened Wrappers
  import opened Multipart
  import opened Imaging
  import opened FrameStores
  import Cv2
  import opened Ingest
  import opened Stream

  /** The body of `ws_handler`'s loop: it tests for a disconnect message first. */
  function Decide(cv: Cv2.Codec, m: WsMessage): (d: Decision)
    ensures d.Disconnect? <==> m.kind == WebsocketDisconnect
    ensures d.Store? ==> m.kind == WebsocketReceive && m.bytes == Some(d.data) && Cv2.IsValidImage(cv, d.data)
    ensures !d.Fail?
  {
    FastApiGate(data => Cv2.Validate(cv, data), true, m)
  }

  function Decider(cv: Cv2.Codec): WsMessage -> Decision
  {
    m => Decide(cv, m)
  }

  /** The messages `ws_handler` writes to `image.jpg`. */
  predicate Accepted(cv: Cv2.Codec, m: WsMessage)
  {
    && m.kind == WebsocketReceive
    && m.bytes.Some?
    && |m.bytes.value| > MinFrameBytes
    && Cv2.IsValidImage(cv, m.bytes.value)
  }

  /**
   * A message is stored exactly when it is a received binary frame over 5000
   * bytes that decodes, and then its bytes are stored unchanged; nothing the
   * decoder does makes the loop raise.
   */
  lemma StoresExactlyAccepted(cv: Cv2.Codec, m: WsMessage)
    ensures Decide(cv, m).Store? <==> Accepted(cv, m)
    ensures Decide(cv, m).Store? ==> Decide(cv, m).data == m.bytes.value
    ensures !Decide(cv, m).Fail?
  {
  }

  /** A binary frame of at most 5000 bytes is dropped. */
  lemma SmallFrameKept(cv: Cv2.Codec, data: Bytes, text: Option<string>)
    requires |data| <= MinFrameBytes
    ensures Decide(cv, WsMessage(WebsocketReceive, Some(data), text)) == Keep
  {
  }

  /** A binary frame over 5000 bytes that does not decode is dropped. */
  lemma InvalidFrameKept(cv: Cv2.Codec, data: Bytes, text: Option<string>)
    requires |data| > MinFrameBytes && !Cv2.IsValidImage(cv, data)
    ensures Decide(cv, WsMessage(WebsocketReceive, Some(data), text)) == Keep
  {
  }

  /** A binary frame over 5000 bytes that decodes replaces `image.jpg` with exactly those bytes. */
  lemma ValidFrameStored(cv: Cv2.Codec, data: Bytes, text: Option<string>)
    requires |data| > MinFrameBytes && Cv2.IsValidImage(cv, data)
    ensures Decide(cv, WsMessage(WebsocketReceive, Some(data), text)) == Store(data)
  {
  }

  /** A text message is only logged. */
  lemma TextKept(cv: Cv2.Codec, text: Option<string>)
    ensures Decide(cv, WsMessage(WebsocketReceive, None, text)) == Keep
  {
  }

  /**
   * The first disconnect message ends the session, with `image.jpg` as the
   * messages before it left it.
   */
  lemma DisconnectEndsSession(cv: Cv2.Codec, msgs: seq<WsMessage>, init: Option<Bytes>, k: nat)
    requires k < |msgs| && msgs[k].kind == WebsocketDisconnect
    requires forall j | 0 <= j < k :: msgs[j].kind == WebsocketReceive
    ensures Run(Decider(cv), msgs, init) == Session(Run(Decider(cv), msgs[..k], init).slot, k + 1, Disconnected)
  {
    forall j | 0 <= j < k
      ensures !Decider(cv)(msgs[j]).Ends()
    {
      StoresExactlyAccepted(cv, msgs[j]);
    }
    RunStopsAtFirstEnd(Decider(cv), msgs, init, k);
  }

  /** After a session, `image.jpg` holds the last frame the loop accepted. */
  lemma SlotHoldsLastAcceptedFrame(cv: Cv2.Codec, msgs: seq<WsMessage>, init: Option<Bytes>, k: nat)
    requires k < Run(Decider(cv), msgs, init).received && Accepted(cv, msgs[k])
    requires forall j | k < j < Run(Decider(cv), msgs, init).received :: !Accepted(cv, msgs[j])
    ensures Run(Decider(cv), msgs, init).slot == msgs[k].bytes
  {
    var n := Run(Decider(cv), msgs, init).received;
    var prefix := msgs[..n];
    forall j | 0 <= j < n
      ensures prefix[j] == msgs[j]
      ensures Decider(cv)(prefix[j]).Store? <==> Accepted(cv, msgs[j])
    {
      StoresExactlyAccepted(cv, msgs[j]);
    }
    StoresExactlyAccepted(cv, msgs[k]);
    RunKeepsLastStored(Decider(cv), msgs, init);
    LastStoredIsLastStore(Decider(cv), prefix, init, k);
  }

  /** A session that accepts no frame leaves `image.jpg` as it was. */
  lemma SlotKeptWithoutAcceptedFrame(cv: Cv2.Codec, msgs: seq<WsMessage>, init: Option<Bytes>)
    requires forall j | 0 <= j < Run(Decider(cv), msgs, init).received :: !Accepted(cv, msgs[j])
    ensures Run(Decider(cv), msgs, init).slot == init
  {
    var n := Run(Decider(cv), msgs, init).received;
    var prefix := msgs[..n];
    forall j | 0 <= j < n
      ensures !Decider(cv)(prefix[j]).Store?
    {
      StoresExactlyAccepted(cv, msgs[j]);
    }
    RunKeepsLastStored(Decider(cv), msgs, init);
    LastStoredWithoutStore(Decider(cv), prefix, init);
  }

  /** `ws_handler`: the receive loop over the messages of one connection. */
  method WsHandler(store: FrameStore, cv: Cv2.Codec, msgs: seq<WsMessage>) returns (exit: Exit, received: nat)
    modifies store
    ensures var r := Run(Decider(cv), msgs, old(store.image));
            store.image == r.slot && exit == r.exit && received == r.received
    ensures !exit.Raised?
  {
    exit, received := Receive(store, Decider(cv), msgs);
  }

  /** `mjpeg_generator`, over the given passes. */
  method MjpegGenerator(cv: Cv2.Codec, detect: Cv2.Detector, polls: seq<Snapshot>) returns (events: seq<Event>)
    ensures events == Trace(Cv2.Annotated(cv, detect), Cv2.Annotated(cv, detect), polls)
  {
    events := Generate(Cv2.Annotated(cv, detect), Cv2.Annotated(cv, detect), polls);
  }

  /** When every stage succeeds on the current frame, the pass yields the JPEG of the annotated frame and does not sleep. */
  lemma LiveChunkIsAnnotatedJpeg(cv: Cv2.Codec, detect: Cv2.Detector, snap: Snapshot,
                                 decoded: Option<Pixels>, annotated: Pixels, jpeg: Bytes)
    requires snap.image.Some? && cv.imdecode(snap.image.value) == Ok(decoded)
    requires detect(decoded) == Ok(annotated) && cv.imencode(annotated) == Ok(jpeg)
    ensures Step(Cv2.Annotated(cv, detect), Cv2.Annotated(cv, detect), snap) == StepResult(Some(Chunk(jpeg)), false)
  {
  }

  /**
   * When the current frame fails, the pass yields the annotated JPEG of the
   * placeholder when every stage succeeds on it, and sleeps.
   */
  lemma FallbackAnnotatesPlaceholder(cv: Cv2.Codec, detect: Cv2.Detector, snap: Snapshot,
                                     decoded: Option<Pixels>, annotated: Pixels, jpeg: Bytes)
    requires LivePayload(Cv2.Annotated(cv, detect), snap).None?
    requires snap.placeholder.Some? && cv.imdecode(snap.placeholder.value) == Ok(decoded)
    requires detect(decoded) == Ok(annotated) && cv.imencode(annotated) == Ok(jpeg)
    ensures Step(Cv2.Annotated(cv, detect), Cv2.Annotated(cv, detect), snap) == StepResult(Some(Chunk(jpeg)), true)
  {
  }

  /** When the current frame and the placeholder both fail, or there is no placeholder, the pass yields nothing and sleeps. */
  lemma NothingWhenBothFail(cv: Cv2.Codec, detect: Cv2.Detector, snap: Snapshot)
    requires LivePayload(Cv2.Annotated(cv, detect), snap).None?
    requires snap.placeholder.None? || Cv2.AnnotatedJpeg(cv, detect, snap.placeholder.value).None?
    ensures Step(Cv2.Annotated(cv, detect), Cv2.Annotated(cv, detect), snap) == StepResult(None, true)
  {
  }

  /**
   * End to end: once a session has accepted a frame and accepted nothing
   * after it, a viewer's next pass yields that frame, annotated and encoded,
   * whenever detection and encoding succeed on it.
   */
  lemma AcceptedFrameReachesViewers(cv: Cv2.Codec, detect: Cv2.Detector, msgs: seq<WsMessage>,
                                    init: Option<Bytes>, placeholder: Option<Bytes>, k: nat, jpeg: Bytes)
    requires k < Run(Decider(cv), msgs, init).received && Accepted(cv, msgs[k])
    requires forall j | k < j < Run(Decider(cv), msgs, init).received :: !Accepted(cv, msgs[j])
    requires Cv2.AnnotatedJpeg(cv, detect, msgs[k].bytes.value) == Some(jpeg)
    ensures var snap := Snapshot(Run(Decider(cv), msgs, init).slot, placeholder);
            Step(Cv2.Annotated(cv, detect), Cv2.Annotated(cv, detect), snap) == StepResult(Some(Chunk(jpeg)), false)
  {
    SlotHoldsLastAcceptedFrame(cv, msgs, init, k);
  }
}
