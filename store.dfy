/**
 * The two files through which the ingest handlers and the stream generators
 * communicate: `image.jpg`, overwritten by every accepted frame, and
 * `placeholder.jpg`, which no server writes.
 */
module FrameStores {
  import opened Wrappers
  import opened Multipart

  /** What a generator reads from the two files in one pass; None when a file is absent or unreadable. */
  datatype Snapshot = Snapshot(image: Option<Bytes>, placeholder: Option<Bytes>)

  class FrameStore {
    /** The contents of `image.jpg`: None until a frame has been accepted. */
    var image: Option<Bytes>

    /** The contents of `placeholder.jpg`. */
    const placeholder: Option<Bytes>

    constructor (image: Option<Bytes>, placeholder: Option<Bytes>)
      ensures this.image == image && this.placeholder == placeholder
    {
      this.image := image;
      this.placeholder := placeholder;
    }

    /** `with open(IMAGE_PATH, "wb") as f: f.write(data)`: the whole file is replaced by `data`. */
    method Write(data: Bytes)
      modifies this
      ensures image == Some(data)
    {
      image := Some(data);
    }
  }
}
