/**
 * The receive loop shared by every ingest handler. Each handler decides, per
 * message, whether the message overwrites `image.jpg`, is ignored, or ends the
 * loop; the loop itself is the same in every server.
 */
module Ingest {
  import opened Wrappers
  import opened Multipart
  import opened Imaging
  import opened FrameStores

  /** Frames of this many bytes or fewer are dropped without validation (`len(data) > 5000`). */
  const MinFrameBytes: nat := 5000

  /** What the loop body does with one message. */
  datatype Decision =
    | Store(data: Bytes)     // overwrite `image.jpg` with these bytes
    | Keep                   // leave the store as it is and receive the next message
    | Disconnect             // `break` out of the loop
    | Fail(error: PyError)   // an exception escapes the loop
  {
    predicate Ends() { Disconnect? || Fail? }
  }

  /**
   * How a handler finished: its messages ran out, a disconnect message made it
   * `break`, or an exception escaped.
   */
  datatype Exit = Closed | Disconnected | Raised(error: PyError)

  /** The slot after a session, how many messages the loop received, and how it finished. */
  datatype Session = Session(slot: Option<Bytes>, received: nat, exit: Exit)

  function ExitOf(d: Decision): Exit
    requires d.Ends()
  {
    if d.Disconnect? then Disconnected else Raised(d.error)
  }

  /** The slot after one message that does not end the loop. */
  function Updated(slot: Option<Bytes>, d: Decision): Option<Bytes>
  {
    if d.Store? then Some(d.data) else slot
  }

  /**
   * A whole session over the messages the transport delivers, starting from
   * `slot`. The session is `Closed` when the messages run out: for flaskMain.py
   * that is `async for` ending on a clean close; a FastAPI handler is handed a
   * client's close as a disconnect message, so for it `Closed` only marks the
   * end of the messages followed.
   */
  function Run<M>(decide: M -> Decision, msgs: seq<M>, slot: Option<Bytes>): (r: Session)
    ensures r.received <= |msgs|
    ensures r.exit.Closed? ==>
              r.received == |msgs| && forall i | 0 <= i < |msgs| :: !decide(msgs[i]).Ends()
    ensures !r.exit.Closed? ==>
              && 0 < r.received
              && decide(msgs[r.received - 1]).Ends()
              && r.exit == ExitOf(decide(msgs[r.received - 1]))
              && forall i | 0 <= i < r.received - 1 :: !decide(msgs[i]).Ends()
    decreases |msgs|
  {
    if |msgs| == 0 then Session(slot, 0, Closed)
    else
      var d := decide(msgs[0]);
      if d.Ends() then Session(slot, 1, ExitOf(d))
      else
        var r := Run(decide, msgs[1..], Updated(slot, d));
        assert forall i | 1 <= i < |msgs| :: msgs[i] == msgs[1..][i - 1];
        Session(r.slot, r.received + 1, r.exit)
  }

  /** Reference definition: the payload of the last message that is stored, or `init` when none is. */
  function LastStored<M>(decide: M -> Decision, msgs: seq<M>, init: Option<Bytes>): Option<Bytes>
    decreases |msgs|
  {
    if |msgs| == 0 then init
    else
      match decide(msgs[|msgs| - 1])
      case Store(data) => Some(data)
      case _ => LastStored(decide, msgs[..|msgs| - 1], init)
  }

  lemma {:induction false} LastStoredAfterFirst<M>(decide: M -> Decision, m: M, tail: seq<M>, init: Option<Bytes>)
    ensures LastStored(decide, [m] + tail, init) == LastStored(decide, tail, Updated(init, decide(m)))
    decreases |tail|
  {
    if |tail| == 0 {
      assert ([m] + tail)[..0] == [];
    } else {
      var front := tail[..|tail| - 1];
      assert ([m] + tail)[..|tail|] == [m] + front;
      LastStoredAfterFirst(decide, m, front, init);
    }
  }

  /**
   * Over any messages, the slot at the end of the session is the payload of
   * the last message the loop stored, or the initial slot if it stored none.
   */
  lemma {:induction false} RunKeepsLastStored<M>(decide: M -> Decision, msgs: seq<M>, init: Option<Bytes>)
    ensures var r := Run(decide, msgs, init);
            r.slot == LastStored(decide, msgs[..r.received], init)
    decreases |msgs|
  {
    if |msgs| > 0 {
      var d := decide(msgs[0]);
      if d.Ends() {
        assert msgs[..1] == [msgs[0]] + [];
        LastStoredAfterFirst(decide, msgs[0], [], init);
      } else {
        var rest := msgs[1..];
        RunKeepsLastStored(decide, rest, Updated(init, d));
        var k := Run(decide, rest, Updated(init, d)).received;
        assert msgs[..k + 1] == [msgs[0]] + rest[..k];
        LastStoredAfterFirst(decide, msgs[0], rest[..k], init);
      }
    }
  }

  /** The reference definition picks the last stored message. */
  lemma {:induction false} LastStoredIsLastStore<M>(decide: M -> Decision, msgs: seq<M>, init: Option<Bytes>, k: nat)
    requires k < |msgs| && decide(msgs[k]).Store?
    requires forall j | k < j < |msgs| :: !decide(msgs[j]).Store?
    ensures LastStored(decide, msgs, init) == Some(decide(msgs[k]).data)
    decreases |msgs|
  {
    if k < |msgs| - 1 {
      var front := msgs[..|msgs| - 1];
      assert forall j | k < j < |front| :: front[j] == msgs[j];
      LastStoredIsLastStore(decide, front, init, k);
    }
  }

  /** Without any stored message the reference definition is the initial slot. */
  lemma {:induction false} LastStoredWithoutStore<M>(decide: M -> Decision, msgs: seq<M>, init: Option<Bytes>)
    requires forall j | 0 <= j < |msgs| :: !decide(msgs[j]).Store?
    ensures LastStored(decide, msgs, init) == init
    decreases |msgs|
  {
    if |msgs| > 0 {
      var front := msgs[..|msgs| - 1];
      assert forall j | 0 <= j < |front| :: front[j] == msgs[j];
      LastStoredWithoutStore(decide, front, init);
    }
  }

  /**
   * A message that ends the loop, with none before it, ends the session right
   * there with the slot left as the earlier messages made it.
   */
  lemma {:induction false} RunStopsAtFirstEnd<M>(decide: M -> Decision, msgs: seq<M>, init: Option<Bytes>, k: nat)
    requires k < |msgs| && decide(msgs[k]).Ends()
    requires forall j | 0 <= j < k :: !decide(msgs[j]).Ends()
    ensures Run(decide, msgs, init) == Session(Run(decide, msgs[..k], init).slot, k + 1, ExitOf(decide(msgs[k])))
    decreases k
  {
    if k > 0 {
      var d := decide(msgs[0]);
      assert !d.Ends();
      var rest := msgs[1..];
      assert forall j | 0 <= j < k - 1 :: rest[j] == msgs[j + 1];
      RunStopsAtFirstEnd(decide, rest, Updated(init, d), k - 1);
      assert msgs[..k][1..] == rest[..k - 1];
    }
  }

  /** A session that runs on after a prefix with no ending message continues from the prefix's slot. */
  lemma {:induction false} RunSplits<M>(decide: M -> Decision, front: seq<M>, back: seq<M>, init: Option<Bytes>)
    requires forall j | 0 <= j < |front| :: !decide(front[j]).Ends()
    ensures var r := Run(decide, back, Run(decide, front, init).slot);
            Run(decide, front + back, init) == Session(r.slot, |front| + r.received, r.exit)
    decreases |front|
  {
    if |front| == 0 {
      assert front + back == back;
    } else {
      var d := decide(front[0]);
      assert (front + back)[0] == front[0];
      assert (front + back)[1..] == front[1..] + back;
      RunSplits(decide, front[1..], back, Updated(init, d));
    }
  }

  /**
   * The handlers' `while True` loop: receive a message, let the handler's
   * body decide, write `image.jpg` when it says so.
   */
  method Receive<M>(store: FrameStore, decide: M -> Decision, msgs: seq<M>) returns (exit: Exit, received: nat)
    modifies store
    ensures var r := Run(decide, msgs, old(store.image));
            store.image == r.slot && exit == r.exit && received == r.received
  {
    var i := 0;
    while i < |msgs|
      invariant 0 <= i <= |msgs|
      invariant var r := Run(decide, msgs[i..], store.image);
                Run(decide, msgs, old(store.image)) == Session(r.slot, i + r.received, r.exit)
    {
      assert msgs[i..][0] == msgs[i] && msgs[i..][1..] == msgs[i + 1..];
      match decide(msgs[i]) {
        case Store(data) =>
          store.Write(data);
        case Keep =>
        case Disconnect =>
          return Disconnected, i + 1;
        case Fail(e) =>
          return Raised(e), i + 1;
      }
      i := i + 1;
    }
    return Closed, |msgs|;
  }

  /** The type of a FastAPI ASGI message. */
  datatype MessageType = WebsocketReceive | WebsocketDisconnect

  /** A FastAPI `websocket.receive()` message: its type and its optional `bytes` and `text` entries. */
  datatype WsMessage = WsMessage(kind: MessageType, bytes: Option<Bytes>, text: Option<string>)

  /**
   * The body of the FastAPI handlers' loop. `validate` is the server's
   * `is_valid_image`; `checksDisconnect` whether the server tests the message type.
   * A message with bytes goes through the size gate and validation; a text
   * message, or one with neither entry, is only logged.
   *
   * A disconnect message ends a server that tests for it. A server that does
   * not test for it finds no `bytes` and no `text` entry in it and loops; its
   * next `receive()` then raises `RuntimeError`, because Starlette refuses a
   * receive once it has handed over a disconnect message. Nothing is received
   * after a disconnect message, so that raise is the disconnect message's outcome.
   */
  function FastApiGate(validate: Bytes -> Result<bool, PyError>, checksDisconnect: bool, m: WsMessage): (d: Decision)
    ensures d.Store? ==> m.kind == WebsocketReceive && m.bytes == Some(d.data)
                         && |d.data| > MinFrameBytes && validate(d.data) == Ok(true)
    ensures d.Fail? && m.kind == WebsocketReceive ==>
              m.bytes.Some? && |m.bytes.value| > MinFrameBytes && validate(m.bytes.value) == Err(d.error)
    ensures d.Disconnect? <==> checksDisconnect && m.kind == WebsocketDisconnect
    ensures !checksDisconnect && m.kind == WebsocketDisconnect ==> d == Fail(RuntimeError)
  {
    match m.kind
    case WebsocketDisconnect =>
      if checksDisconnect then Disconnect else Fail(RuntimeError)
    case WebsocketReceive =>
      match m.bytes
      case Some(data) =>
        if |data| > MinFrameBytes then
          match validate(data)
          case Ok(valid) => if valid then Store(data) else Keep
          case Err(e) => Fail(e)
        else Keep
      case None => Keep
  }
}
