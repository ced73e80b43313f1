/**
 * flaskMain.py: Flask for viewers, the `websockets` package for the
 * producer, Pillow for images. Every message, text or binary, goes through
 * the size gate.
 */
module FlaskServer {
  import opened Wrappers
  import opened Multipart
  import opened Imaging
  import opened FrameStores
  import Pil
  import opened Ingest
  import opened Stream

  /** What `async for message in websocket` yields: bytes for a binary frame, str for a text frame. */
  datatype FrameMessage = Binary(data: Bytes) | Text(text: string)

  /** `len(message)`: bytes of a binary frame, code points of a text frame. */
  function Length(m: FrameMessage): nat
  {
    match m
    case Binary(data) => |data|
    case Text(text) => |text|
  }

  /**
   * `is_valid_image(message)`. On a str, `BytesIO` raises `TypeError`,
   * which the handler does not catch.
   */
  function IsValidImage(pil: Pil.Codec, m: FrameMessage): (r: Result<bool, PyError>)
    ensures m.Text? ==> r == Err(TypeError)
    ensures m.Binary? ==> r == Pil.IsValidImage(pil, m.data)
    ensures r == Ok(true) ==> m.Binary? && pil.open(m.data).Ok?
  {
    match m
    case Text(_) => Err(TypeError)
    case Binary(data) => Pil.IsValidImage(pil, data)
  }

  /** The body of `handler`'s loop. */
  function Decide(pil: Pil.Codec, m: FrameMessage): (d: Decision)
    ensures d.Store? ==> m == Binary(d.data)
    ensures d.Store? <==> m.Binary? && |m.data| > MinFrameBytes && pil.open(m.data).Ok?
    ensures d.Fail? <==> Length(m) > MinFrameBytes
                         && (m.Text? || (pil.open(m.data).Err? && pil.open(m.data) != Err(UnidentifiedImageError)))
    ensures !d.Disconnect?
  {
    if Length(m) > MinFrameBytes then
      match IsValidImage(pil, m)
      case Ok(valid) => if valid then Store(m.data) else Keep
      case Err(e) => Fail(e)
    else Keep
  }

  function Decider(pil: Pil.Codec): FrameMessage -> Decision
  {
    m => Decide(pil, m)
  }

  /** Whatever its kind, a message of 5000 bytes or code points or fewer is never written. */
  lemma SizeGateOnEveryMessage(pil: Pil.Codec, m: FrameMessage)
    requires Length(m) <= MinFrameBytes
    ensures Decide(pil, m) == Keep
  {
  }

  /** A message over 5000 bytes that `Image.open` accepts overwrites `image.jpg` with exactly that message. */
  lemma ValidFrameStored(pil: Pil.Codec, data: Bytes)
    requires |data| > MinFrameBytes && pil.open(data).Ok?
    ensures Decide(pil, Binary(data)) == Store(data)
  {
  }

  /** A message over 5000 bytes that `Image.open` does not identify is dropped. */
  lemma UnidentifiedFrameKept(pil: Pil.Codec, data: Bytes)
    requires |data| > MinFrameBytes && pil.open(data) == Err(UnidentifiedImageError)
    ensures Decide(pil, Binary(data)) == Keep
  {
  }

  /**
   * Text is never stored; the first text message longer than 5000 code points
   * makes validation raise `TypeError`, which ends the session with
   * `image.jpg` as the messages before it left it.
   */
  lemma LongTextEndsSession(pil: Pil.Codec, msgs: seq<FrameMessage>, init: Option<Bytes>, k: nat)
    requires k < |msgs| && msgs[k].Text? && |msgs[k].text| > MinFrameBytes
    requires forall j | 0 <= j < k :: !Decide(pil, msgs[j]).Fail?
    ensures !Decide(pil, msgs[k]).Store?
    ensures Run(Decider(pil), msgs, init) == Session(Run(Decider(pil), msgs[..k], init).slot, k + 1, Raised(TypeError))
  {
    assert Decider(pil)(msgs[k]) == Fail(TypeError);
    forall j | 0 <= j < k
      ensures !Decider(pil)(msgs[j]).Ends()
    {
    }
    RunStopsAtFirstEnd(Decider(pil), msgs, init, k);
  }

  /**
   * Any other exception from `Image.open` on a large frame escapes
   * `is_valid_image` and `handler`, which catches only `ConnectionClosedOK`:
   * nothing is written and the session ends with that exception.
   */
  lemma OtherOpenErrorEscapes(pil: Pil.Codec, msgs: seq<FrameMessage>, init: Option<Bytes>, k: nat, e: PyError)
    requires k < |msgs| && msgs[k].Binary? && |msgs[k].data| > MinFrameBytes
    requires pil.open(msgs[k].data) == Err(e) && e != UnidentifiedImageError
    requires forall j | 0 <= j < k :: !Decide(pil, msgs[j]).Fail?
    ensures Run(Decider(pil), msgs, init) == Session(Run(Decider(pil), msgs[..k], init).slot, k + 1, Raised(e))
  {
    assert Decider(pil)(msgs[k]) == Fail(e);
    forall j | 0 <= j < k
      ensures !Decider(pil)(msgs[j]).Ends()
    {
    }
    RunStopsAtFirstEnd(Decider(pil), msgs, init, k);
  }

  /**
   * A valid frame followed by a message that is too short or unidentified:
   * `image.jpg` still holds the valid frame when the connection closes.
   */
  lemma NoiseAfterFrameKeepsFrame(pil: Pil.Codec, frame: Bytes, noise: Bytes, init: Option<Bytes>)
    requires |frame| > MinFrameBytes && pil.open(frame).Ok?
    requires |noise| <= MinFrameBytes || pil.open(noise) == Err(UnidentifiedImageError)
    ensures Run(Decider(pil), [Binary(frame), Binary(noise)], init) == Session(Some(frame), 2, Closed)
  {
    var msgs := [Binary(frame), Binary(noise)];
    assert msgs[1..] == [Binary(noise)] && msgs[1..][1..] == [];
    assert Decider(pil)(Binary(frame)) == Store(frame);
    assert Decider(pil)(Binary(noise)) == Keep;
    assert Run(Decider(pil), [Binary(noise)], Some(frame)) == Session(Some(frame), 1, Closed);
  }

  /** `handler` */
  method Handler(store: FrameStore, pil: Pil.Codec, msgs: seq<FrameMessage>) returns (exit: Exit, received: nat)
    modifies store
    ensures var r := Run(Decider(pil), msgs, old(store.image));
            store.image == r.slot && exit == r.exit && received == r.received
    ensures exit != Disconnected
  {
    exit, received := Receive(store, Decider(pil), msgs);
  }

  /** `get_image`, over the given passes. */
  method GetImage(pil: Pil.Codec, polls: seq<Snapshot>) returns (events: seq<Event>)
    ensures events == Trace(Pil.Reencoded(pil), Pil.Reencoded(pil), polls)
  {
    events := Generate(Pil.Reencoded(pil), Pil.Reencoded(pil), polls);
  }

  /**
   * A pass of `get_image`: the re-encoded current frame without sleeping;
   * otherwise the re-encoded placeholder if it exists and re-encodes, and a
   * sleep. Both parts are framed identically.
   */
  lemma GetImageStep(pil: Pil.Codec, snap: Snapshot)
    ensures var r := Step(Pil.Reencoded(pil), Pil.Reencoded(pil), snap);
            if snap.image.Some? && Pil.Reencode(pil, snap.image.value).Some? then
              r == StepResult(Some(Chunk(Pil.Reencode(pil, snap.image.value).value)), false)
            else if snap.placeholder.Some? && Pil.Reencode(pil, snap.placeholder.value).Some? then
              r == StepResult(Some(Chunk(Pil.Reencode(pil, snap.placeholder.value).value)), true)
            else
              r == StepResult(None, true)
  {
  }
}
