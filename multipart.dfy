/**
 * Byte strings and the framing of one part of a `multipart/x-mixed-replace;
 * boundary=frame` response: the boundary line, the part's Content-Type header
 * and the blank line that ends it, the payload, and a closing line break
 * (section 5.1.1 of RFC 2046, with boundary `frame`).
 */
module Multipart {
  import opened Wrappers

  newtype Byte = b: int | 0 <= b < 0x100

  type Bytes = seq<Byte>

  /** The bytes of an ASCII string. */
  function Ascii(s: string): (r: Bytes)
    requires forall i | 0 <= i < |s| :: s[i] as int < 0x80
    ensures |r| == |s|
    ensures forall i | 0 <= i < |s| :: r[i] as int == s[i] as int
  {
    seq(|s|, i requires 0 <= i < |s| => s[i] as int as Byte)
  }

  const Boundary: string := "frame"

  /** `--frame` CRLF: the dash-boundary line that opens every part. */
  const BoundaryLine: Bytes := Ascii("--" + Boundary + "\r\n")

  /** The part's only header field, followed by the empty line that ends the headers. */
  const PartHeaders: Bytes := Ascii("Content-Type: image/jpeg\r\n\r\n")

  const Header: Bytes := BoundaryLine + PartHeaders

  const Trailer: Bytes := Ascii("\r\n")

  const HeaderLength: nat := 37

  const TrailerLength: nat := 2

  /** One part as the stream generators yield it. */
  function Chunk(payload: Bytes): (c: Bytes)
    ensures |c| == |payload| + HeaderLength + TrailerLength
    ensures c[..HeaderLength] == Header && c[|c| - TrailerLength..] == Trailer
    ensures c[HeaderLength..|c| - TrailerLength] == payload
  {
    assert |Header| == HeaderLength && |Trailer| == TrailerLength;
    Header + payload + Trailer
  }

  /** Recovers the payload of a part, or None when the bytes are not framed as one. */
  function ParseChunk(c: Bytes): (r: Option<Bytes>)
    ensures r.Some? ==> Chunk(r.value) == c
  {
    if |c| >= HeaderLength + TrailerLength
       && c[..HeaderLength] == Header
       && c[|c| - TrailerLength..] == Trailer
    then
      var payload := c[HeaderLength..|c| - TrailerLength];
      assert c == c[..HeaderLength] + payload + c[|c| - TrailerLength..];
      Some(payload)
    else
      None
  }

  /** Framing is invertible: a byte string is the part for `payload` exactly when it parses back to `payload`. */
  lemma ParseChunkInverse(c: Bytes, payload: Bytes)
    ensures ParseChunk(c) == Some(payload) <==> c == Chunk(payload)
  {
    if c == Chunk(payload) {
      assert ParseChunk(c).Some?;
    }
  }

  /** Framing is injective: distinct payloads give distinct parts. */
  lemma ChunkInjective(p: Bytes, q: Bytes)
    ensures Chunk(p) == Chunk(q) ==> p == q
  {
    if Chunk(p) == Chunk(q) {
      ParseChunkInverse(Chunk(p), p);
      ParseChunkInverse(Chunk(q), q);
    }
  }

  /**
   * When parts are sent back to back, the closing line break of one and the
   * boundary line of the next together form the delimiter CRLF `--frame`
   * that section 5.1.1 of RFC 2046 requires between body parts.
   */
  lemma ConsecutiveChunksDelimited(p: Bytes, q: Bytes)
    ensures var s := Chunk(p) + Chunk(q);
            var at := HeaderLength + |p|;
            s[at..at + 9] == Ascii("\r\n--" + Boundary)
  {
    var s := Chunk(p) + Chunk(q);
    var at := HeaderLength + |p|;
    assert s[at..at + 2] == Trailer;
    assert s[at + 2..at + 9] == BoundaryLine[..7];
    assert s[at..at + 9] == s[at..at + 2] + s[at + 2..at + 9];
  }
}
