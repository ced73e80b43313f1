/**
 * fastapiMain.py: FastAPI with Pillow. No annotation; frames are re-encoded
 * as JPEG; the handler does not test for disconnect messages and lets
 * exceptions other than `UnidentifiedImageError` escape.
 */
module PilServer {
  import opened Wrappers
  import opened Multipart
  import opened Imaging
  import opened FrameStores
  import Pil
  import opened Ingest
  import opened Stream

  /**
   * The body of `ws_handler`'s loop: no test of the message type, so a
   * disconnect message leads to the `RuntimeError` of the next `receive()`.
   */
  function Decide(pil: Pil.Codec, m: WsMessage): (d: Decision)
    ensures d.Store? ==> m.kind == WebsocketReceive && m.bytes == Some(d.data) && pil.open(d.data).Ok?
    ensures !d.Disconnect?
    ensures d.Fail? <==> m.kind == WebsocketDisconnect
                         || (m.bytes.Some? && |m.bytes.value| > MinFrameBytes
                             && pil.open(m.bytes.value).Err? && pil.open(m.bytes.value) != Err(UnidentifiedImageError))
  {
    FastApiGate(data => Pil.IsValidImage(pil, data), false, m)
  }

  function Decider(pil: Pil.Codec): WsMessage -> Decision
  {
    m => Decide(pil, m)
  }

  /** A binary frame over 5000 bytes that `Image.open` accepts replaces `image.jpg` with exactly those bytes. */
  lemma ValidFrameStored(pil: Pil.Codec, data: Bytes, text: Option<string>)
    requires |data| > MinFrameBytes && pil.open(data).Ok?
    ensures Decide(pil, WsMessage(WebsocketReceive, Some(data), text)) == Store(data)
  {
  }

  /** A binary frame of at most 5000 bytes, or one `Image.open` does not identify, is dropped. */
  lemma SmallOrUnidentifiedFrameKept(pil: Pil.Codec, data: Bytes, text: Option<string>)
    requires |data| <= MinFrameBytes || pil.open(data) == Err(UnidentifiedImageError)
    ensures Decide(pil, WsMessage(WebsocketReceive, Some(data), text)) == Keep
  {
  }

  /** A text message, or any received message without bytes, is only logged. */
  lemma TextKept(pil: Pil.Codec, text: Option<string>)
    ensures Decide(pil, WsMessage(WebsocketReceive, None, text)) == Keep
  {
  }

  /** Any other exception from `Image.open` on a large frame escapes the loop and ends the session. */
  lemma OtherOpenErrorEscapes(pil: Pil.Codec, msgs: seq<WsMessage>, init: Option<Bytes>, k: nat, e: PyError)
    requires k < |msgs| && msgs[k].kind == WebsocketReceive
    requires msgs[k].bytes.Some? && |msgs[k].bytes.value| > MinFrameBytes
    requires pil.open(msgs[k].bytes.value) == Err(e) && e != UnidentifiedImageError
    requires forall j | 0 <= j < k :: !Decide(pil, msgs[j]).Fail?
    ensures Run(Decider(pil), msgs, init) == Session(Run(Decider(pil), msgs[..k], init).slot, k + 1, Raised(e))
  {
    assert Decider(pil)(msgs[k]) == Fail(e);
    forall j | 0 <= j < k
      ensures !Decider(pil)(msgs[j]).Ends()
    {
    }
    RunStopsAtFirstEnd(Decider(pil), msgs, init, k);
  }

  /**
   * The handler never tests for a disconnect message: after the first one,
   * the next `receive()` raises `RuntimeError`, which neither except clause
   * catches, so the session ends with that exception and the slot as the
   * messages before it left it.
   */
  lemma DisconnectRaises(pil: Pil.Codec, msgs: seq<WsMessage>, init: Option<Bytes>, k: nat)
    requires k < |msgs| && msgs[k].kind == WebsocketDisconnect
    requires forall j | 0 <= j < k :: !Decide(pil, msgs[j]).Fail?
    ensures Run(Decider(pil), msgs, init) == Session(Run(Decider(pil), msgs[..k], init).slot, k + 1, Raised(RuntimeError))
  {
    assert Decider(pil)(msgs[k]) == Fail(RuntimeError);
    forall j | 0 <= j < k
      ensures !Decider(pil)(msgs[j]).Ends()
    {
    }
    RunStopsAtFirstEnd(Decider(pil), msgs, init, k);
  }

  /** `ws_handler` */
  method WsHandler(store: FrameStore, pil: Pil.Codec, msgs: seq<WsMessage>) returns (exit: Exit, received: nat)
    modifies store
    ensures var r := Run(Decider(pil), msgs, old(store.image));
            store.image == r.slot && exit == r.exit && received == r.received
    ensures exit != Disconnected
    ensures exit == Closed ==> forall j | 0 <= j < |msgs| :: msgs[j].kind == WebsocketReceive
  {
    exit, received := Receive(store, Decider(pil), msgs);
  }

  /** `mjpeg_generator`, over the given passes. */
  method MjpegGenerator(pil: Pil.Codec, polls: seq<Snapshot>) returns (events: seq<Event>)
    ensures events == Trace(Pil.Reencoded(pil), Pil.Reencoded(pil), polls)
  {
    events := Generate(Pil.Reencoded(pil), Pil.Reencoded(pil), polls);
  }

  /** The current frame's part carries the frame saved again as JPEG, with no annotation; no sleep follows. */
  lemma LiveChunkIsReencoded(pil: Pil.Codec, snap: Snapshot, image: Pixels, jpeg: Bytes)
    requires snap.image.Some? && pil.open(snap.image.value) == Ok(image) && pil.save(image) == Ok(jpeg)
    ensures Step(Pil.Reencoded(pil), Pil.Reencoded(pil), snap) == StepResult(Some(Chunk(jpeg)), false)
  {
  }

  /**
   * When opening or saving the current frame raises, the placeholder is
   * re-encoded and framed the same way if it exists and re-encodes; the pass
   * sleeps in every case.
   */
  lemma FallbackReencodesPlaceholder(pil: Pil.Codec, snap: Snapshot)
    requires snap.image.None? || Pil.Reencode(pil, snap.image.value).None?
    ensures Step(Pil.Reencoded(pil), Pil.Reencoded(pil), snap) ==
              if snap.placeholder.Some? && Pil.Reencode(pil, snap.placeholder.value).Some?
              then StepResult(Some(Chunk(Pil.Reencode(pil, snap.placeholder.value).value)), true)
              else StepResult(None, true)
  {
  }
}
