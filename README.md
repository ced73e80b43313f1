# Frame relay: ingest gate, frame slot and MJPEG stream

The repository holds four variants of one server. A producer pushes camera
frames over a WebSocket; each accepted frame overwrites a single slot, the
file `image.jpg`. Every HTTP viewer gets its own generator that, pass after
pass, reads that slot, processes it and yields one part of a
`multipart/x-mixed-replace; boundary=frame` response. When the current frame
cannot be read or processed, the generator tries `placeholder.jpg` and sleeps
0.1 s.

The model keeps the logic once and makes the differences between the four
files parameters:

- `Ingest` is the receive loop of every handler. A per-message decision
  (`Store`, `Keep`, `Disconnect`, `Fail`) is the only thing a server supplies.
  `Run` is the session as a function and `Receive` the loop over a
  `FrameStore` object whose `image` field is `image.jpg`. `FastApiGate` is the
  loop body of the three FastAPI handlers: it takes the server's validator and
  whether the server tests for disconnect messages.
- `Stream` is the viewer side. `Step` is one pass; it is parameterised by the
  pipeline for the current frame and the pipeline for the placeholder. `Trace`
  is the sequence of yields and sleeps over a run of passes, and `Generate` is
  the loop. The generator loops forever in the source. Here it runs over a
  finite sequence of `Snapshot`s: what the two files held at each pass, since
  the ingest handler may write between passes.
- `Multipart` frames one part: `--frame` CRLF, `Content-Type: image/jpeg`
  CRLF CRLF, the payload, CRLF. That is 37 header bytes and 2 trailer bytes,
  in the part layout of section 5.1.1 of RFC 2046.
- `Cv2` and `Pil` hold the foreign calls as records of functions
  (`imdecode` and `imencode`; `Image.open` and `save`). The YOLO detector is a
  separate function type, `Cv2.Detector`. A raised exception is an `Err`;
  `imdecode` returning None is `Ok(None)`. The two modules also hold the
  validators and the per-file pipelines that two servers share.
- `OpenCvServer` (fastapiMain_opencv.py), `MainServer` (main.py), `PilServer`
  (fastapiMain.py) and `FlaskServer` (flaskMain.py) configure the core and
  state each file's own behaviour.

The variants differ as follows:

- The two OpenCV servers annotate frames with the detector.
- main.py's placeholder branch yields the raw decoded samples
  (`img.tobytes()`), not a JPEG, under the same `image/jpeg` header.
  `MainServer.PlaceholderChunkIsRawSamples` states this.
- fastapiMain.py never tests the message type. A disconnect message has no
  `bytes` and no `text` entry, so the loop goes round again, and the next
  `receive()` raises `RuntimeError` (Starlette refuses to receive after a
  disconnect). No except clause catches it, so a client's close always ends
  that handler with an exception. Its PIL validator catches only
  `UnidentifiedImageError`, so any other error from `Image.open` escapes the
  handler too.
- flaskMain.py applies the 5000 size gate to text messages too. A text
  message longer than 5000 code points reaches `is_valid_image`. There
  `BytesIO(str)` raises `TypeError`, which nothing catches, so the session
  ends.

Behaviour of the code worth noting:

- The code sleeps only after a failed pass, never after a successful one
  (`Stream.SteadyLiveNeverPauses`, `Stream.PausesCountFailedPasses`).
- The placeholder is used whenever processing of the current frame raises,
  not only when there is no current frame.
- A failing detector sends the pass to the placeholder. It never falls back
  to the unannotated frame.
- Frames carry no sequence number or timestamp.
- The slot is a file that is re-read and re-decoded on every pass.
- PIL validation only opens the image header, so a frame can pass validation
  and still fail to re-encode (`Pil.ReencodableIsValid`).

## Model

| member | source | states |
|---|---|---|
| `Multipart.Chunk` | fastapiMain_opencv.py:91-92 | a part is 39 bytes longer than its payload: the 37-byte boundary and header block, then the payload unchanged, then CRLF |
| `Multipart.ParseChunkInverse` | flaskMain.py:29-30 | the payload is recoverable: bytes parse to payload p exactly when they are the part built from p |
| `Multipart.ChunkInjective` | flaskMain.py:43-44 | distinct payloads give distinct parts |
| `Multipart.ConsecutiveChunksDelimited` | fastapiMain_opencv.py:134 | parts sent back to back are separated by CRLF `--frame`, the delimiter of boundary `frame` |
| `Cv2.IsValidImage` | fastapiMain_opencv.py:40-57 | true exactly when imdecode returns an image (not None); a decoder exception yields false and does not escape |
| `Cv2.AnnotatedJpeg` | fastapiMain_opencv.py:69-88 | a payload exists exactly when decode, detection and encoding all succeed, and it is the encoder's output for the detector's image |
| `Cv2.RawSamples` | main.py:61-63 | the placeholder payload is the decoded image's raw sample buffer, and exists only when imdecode returned an image |
| `Cv2.Validate` | fastapiMain_opencv.py:40-57 | `is_valid_image` as the two OpenCV handlers call it never raises, and is true exactly when imdecode returns an image |
| `Cv2.RawSamplesIffValid` | main.py:20-29 | main.py's raw placeholder branch yields a payload exactly for the bytes `is_valid_image` accepts |
| `Pil.IsValidImage` | fastapiMain.py:17-23 | true when `Image.open` succeeds; false only on `UnidentifiedImageError`; any other exception escapes unchanged |
| `Pil.Reencode` | fastapiMain.py:28-34 | a payload exists exactly when open and save both succeed, and it is the saved JPEG |
| `Pil.ReencodableIsValid` | flaskMain.py:11-17 | a re-encodable frame is valid, but a valid frame whose save raises yields no payload |
| `FrameStores.FrameStore.Write` | fastapiMain_opencv.py:167-168 | writing replaces the whole slot with exactly the given bytes |
| `Ingest.Run` | fastapiMain_opencv.py:149-177 | a session receives messages up to and including the first one that ends the loop, or all of them if none does; its exit is that message's (disconnect or raised error), else closed by the transport |
| `Ingest.RunKeepsLastStored` | fastapiMain_opencv.py:149-169 | after any session the slot is the last stored payload among the received messages, or the initial slot if none was stored |
| `Ingest.LastStoredIsLastStore` | fastapiMain_opencv.py:163-169 | the reference definition yields the payload of the last stored message |
| `Ingest.LastStoredWithoutStore` | fastapiMain_opencv.py:163-173 | the reference definition yields the initial slot when no message is stored |
| `Ingest.RunStopsAtFirstEnd` | fastapiMain_opencv.py:154-155 | the first ending message stops the session at once, with the slot the earlier messages left |
| `Ingest.RunSplits` | fastapiMain_opencv.py:149-151 | a session over a prefix with no ending message, followed by the rest, equals the rest run from the prefix's slot |
| `Ingest.Receive` | fastapiMain_opencv.py:148-179 | the imperative receive loop leaves the store, exit and message count exactly as `Run` says |
| `Ingest.FastApiGate` | fastapiMain_opencv.py:154-177 | a FastAPI loop body stores only a received message's own bytes, over 5000 and validated; on a received message it fails only when validation of such bytes raised; it disconnects exactly on a disconnect message when the server checks for one, and otherwise a disconnect message ends in `RuntimeError` |
| `Stream.Step` | fastapiMain_opencv.py:66-124 | every yielded part is well framed, and a pass that does not sleep always yields a part |
| `Stream.StepLive` | fastapiMain_opencv.py:67-92 | when the current frame processes, the pass yields its part and does not sleep |
| `Stream.StepFallback` | fastapiMain_opencv.py:94-124 | when the current frame is absent or raises, the pass yields the placeholder's part if the placeholder exists and processes, nothing otherwise, and sleeps |
| `Stream.Generate` | fastapiMain_opencv.py:60-124 | the generator loop produces exactly the reference trace of yields and sleeps for the given passes |
| `Stream.TraceYieldsFramedChunks` | fastapiMain_opencv.py:91-118 | every part a generator yields parses as a framed part |
| `Stream.SteadyLiveNeverPauses` | fastapiMain_opencv.py:66-92 | while the current frame keeps processing, there is one part per pass, from the current frame, and no sleep |
| `Stream.NoFrameOnlyPauses` | fastapiMain_opencv.py:97-124 | with no processable frame and no placeholder, a viewer receives no part at all, only sleeps |
| `Stream.PlaceholderBeforeFirstFrame` | fastapiMain_opencv.py:98-124 | before any frame exists, every pass yields the placeholder's part and then sleeps |
| `Stream.PausesCountFailedPasses` | fastapiMain_opencv.py:123-124 | the number of sleeps equals the number of passes whose current frame failed |
| `OpenCvServer.Decide` | fastapiMain_opencv.py:154-177 | the loop body breaks exactly on a disconnect message, stores only a received message's own bytes when they decode, and never raises |
| `OpenCvServer.StoresExactlyAccepted` | fastapiMain_opencv.py:158-169 | a message is stored exactly when it is a received binary frame over 5000 bytes that decodes; its bytes are stored unchanged; the loop never raises |
| `OpenCvServer.SmallFrameKept` | fastapiMain_opencv.py:163-173 | a binary frame of at most 5000 bytes leaves the slot unchanged |
| `OpenCvServer.InvalidFrameKept` | fastapiMain_opencv.py:165-171 | a binary frame over 5000 bytes that does not decode leaves the slot unchanged |
| `OpenCvServer.ValidFrameStored` | fastapiMain_opencv.py:163-169 | a binary frame over 5000 bytes that decodes replaces the slot with exactly those bytes |
| `OpenCvServer.TextKept` | fastapiMain_opencv.py:176-177 | a text message leaves the slot unchanged |
| `OpenCvServer.DisconnectEndsSession` | fastapiMain_opencv.py:149-155 | the first disconnect message ends the session with the slot as the messages before it left it |
| `OpenCvServer.SlotHoldsLastAcceptedFrame` | fastapiMain_opencv.py:149-168 | after a session the slot holds the last accepted binary payload |
| `OpenCvServer.SlotKeptWithoutAcceptedFrame` | fastapiMain_opencv.py:149-173 | a session that accepts nothing leaves the slot at its initial value |
| `OpenCvServer.WsHandler` | fastapiMain_opencv.py:137-186 | the handler updates the store as `Run` says and never ends by a raised error |
| `OpenCvServer.MjpegGenerator` | fastapiMain_opencv.py:60-124 | the generator annotates and encodes both the current frame and the placeholder |
| `OpenCvServer.LiveChunkIsAnnotatedJpeg` | fastapiMain_opencv.py:69-92 | the current frame's part carries the JPEG of the annotated decoded frame, with no sleep |
| `OpenCvServer.FallbackAnnotatesPlaceholder` | fastapiMain_opencv.py:94-118 | on failure the part carries the JPEG of the annotated placeholder, and the pass sleeps |
| `OpenCvServer.NothingWhenBothFail` | fastapiMain_opencv.py:98-124 | with no processable placeholder a failed pass yields nothing and sleeps |
| `OpenCvServer.AcceptedFrameReachesViewers` | fastapiMain_opencv.py:60-177 | once the last accepted frame is in the slot, a viewer's next pass yields it annotated and encoded, without sleeping |
| `MainServer.Decide` | main.py:81-91 | the loop body breaks exactly on a disconnect message, stores only a received message's own bytes and only when they are over 5000, and never raises |
| `MainServer.StoresOnlyLargeDecodableFrames` | main.py:83-91 | a received message is stored, unchanged, exactly when it has bytes over 5000 that decode; text and everything else is kept |
| `MainServer.DisconnectEndsLoop` | main.py:79-82 | the first disconnect message, at any position, ends the loop at once with the slot as the messages before it left it, whatever follows it |
| `MainServer.WsHandler` | main.py:76-98 | the handler updates the store as `Run` says and never ends by a raised error |
| `MainServer.MjpegGenerator` | main.py:31-70 | the generator annotates and encodes the current frame, and sends the placeholder's raw samples |
| `MainServer.LiveChunkIsAnnotatedJpeg` | main.py:34-52 | the current frame's part carries the JPEG of the annotated decoded frame, with no sleep |
| `MainServer.PlaceholderChunkIsRawSamples` | main.py:53-66 | on failure the part carries the placeholder's raw samples, whatever the detector and encoder do, and the pass sleeps |
| `MainServer.NoChunkWithoutDecodablePlaceholder` | main.py:53-70 | with the placeholder absent or undecodable, a failed pass yields nothing and sleeps |
| `PilServer.Decide` | fastapiMain.py:62-73 | the loop body never breaks; it stores only a received message's own bytes that `Image.open` accepts; it raises exactly on a disconnect message or on an error of `Image.open` other than `UnidentifiedImageError` on bytes over 5000 |
| `PilServer.ValidFrameStored` | fastapiMain.py:64-70 | a binary frame over 5000 bytes that `Image.open` accepts replaces the slot with exactly those bytes |
| `PilServer.SmallOrUnidentifiedFrameKept` | fastapiMain.py:67-68 | a binary frame of at most 5000 bytes, or one `Image.open` does not identify, leaves the slot unchanged |
| `PilServer.OtherOpenErrorEscapes` | fastapiMain.py:61-77 | another exception from `Image.open` on a large frame ends the session with that exception, the slot as before |
| `PilServer.TextKept` | fastapiMain.py:71-72 | a received message without bytes changes nothing and the loop continues |
| `PilServer.DisconnectRaises` | fastapiMain.py:62-77 | with no test of the message type, the first disconnect message is followed by a `RuntimeError` from `receive()` that ends the session, with the slot as the messages before it left it |
| `PilServer.WsHandler` | fastapiMain.py:59-77 | the handler updates the store as `Run` says, never ends by `break`, and ends cleanly only on a session with no disconnect message |
| `PilServer.MjpegGenerator` | fastapiMain.py:25-53 | the generator re-encodes both the current frame and the placeholder, with no annotation |
| `PilServer.LiveChunkIsReencoded` | fastapiMain.py:27-36 | the current frame's part carries the frame saved again as JPEG, with no sleep |
| `PilServer.FallbackReencodesPlaceholder` | fastapiMain.py:37-53 | on failure the placeholder is re-encoded and framed the same way if it can be, and the pass sleeps in every case |
| `FlaskServer.IsValidImage` | flaskMain.py:11-17 | on bytes, the PIL validation; on a text message, `TypeError`, which is not caught |
| `FlaskServer.Decide` | flaskMain.py:57-62 | a message is stored exactly when it is binary, over 5000 and `Image.open` accepts it, and then its own bytes; the loop raises exactly on a message over 5000 that is text or whose `Image.open` raises something other than `UnidentifiedImageError`; it never breaks |
| `FlaskServer.SizeGateOnEveryMessage` | flaskMain.py:57-59 | any message, text or binary, of length at most 5000 is never written |
| `FlaskServer.ValidFrameStored` | flaskMain.py:59-62 | a message over 5000 that validates overwrites the slot with exactly that message |
| `FlaskServer.UnidentifiedFrameKept` | flaskMain.py:60 | a message over 5000 that `Image.open` does not identify leaves the slot unchanged |
| `FlaskServer.LongTextEndsSession` | flaskMain.py:55-65 | the first text message longer than 5000, at any position, is never stored and ends the session with `TypeError`, with the slot as the messages before it left it |
| `FlaskServer.OtherOpenErrorEscapes` | flaskMain.py:11-17 | another exception from `Image.open` on a frame over 5000 escapes `handler`, ends the session at that message, and leaves the slot as the messages before it left it |
| `FlaskServer.NoiseAfterFrameKeepsFrame` | flaskMain.py:57-62 | a valid frame followed by a short or unidentified message leaves the valid frame in the slot |
| `FlaskServer.Handler` | flaskMain.py:55-65 | the handler updates the store as `Run` says and never ends on a disconnect message |
| `FlaskServer.GetImage` | flaskMain.py:19-49 | the generator re-encodes both files with PIL |
| `FlaskServer.GetImageStep` | flaskMain.py:20-48 | a pass yields the re-encoded current frame without sleeping; otherwise the re-encoded placeholder if it exists and re-encodes, and a sleep |

## Left out

- The HTTP and WebSocket transport (FastAPI, Flask, `websockets.serve`, uvicorn, `StreamingResponse`, `accept`/`receive`). Messages are a finite sequence of values. A FastAPI handler is handed a client's close as a disconnect message; the end of its sequence only marks where the model stops following the connection. Starlette's `receive()` raising `RuntimeError` after a disconnect message is modelled inside `Ingest.FastApiGate`; its other failures are not.
- FlaskServer.Handler: the end of the sequence is `async for` ending on a clean close. An abnormal close raises `ConnectionClosedError`, which `handler` does not catch (it catches only `ConnectionClosedOK`); that exit is not modelled.
- Filesystem I/O and `os.path.exists`. Each file is an `Option` of its bytes; an absent or unreadable file is `None`. A write to `image.jpg` that raises is not modelled.
- The image codecs and the YOLO model are function-valued parameters. What they compute is foreign numeric code.
- Concurrency: the race between the writer and the generators on `image.jpg`, and partially written files read by a generator. The Flask thread and the asyncio loop are also left out. The `Snapshot` sequence given to a generator stands for whatever interleaving occurred.
- The generators loop forever; the model covers any finite number of passes.
- `time.sleep(0.1)` is a `Pause` event, with no duration. All `print` logging is left out.
- A viewer disconnecting: the generator is closed at a `yield`, which ends it. That is not modelled.
- The server entry points (`index`, `websocket_endpoint`, `main`, `__main__`) only wire the endpoints together.
