/**
 * What the servers see of foreign code: decoded images and the Python
 * exceptions that the image libraries raise.
 */
module Imaging {
  import opened Multipart

  /**
   * A decoded image: a numpy array or an opened PIL image. Only its sample
   * buffer (`tobytes()`) is ever looked at; everything else about it is
   * handled by foreign code.
   */
  datatype Pixels = Pixels(samples: Bytes)

  /**
   * The exceptions whose class matters to the model; everything else is
   * `OtherError`. `RuntimeError` is what Starlette's `receive()` raises when
   * it is called again after it has handed over a disconnect message.
   */
  datatype PyError = UnidentifiedImageError | TypeError | RuntimeError | OtherError(name: string)
}

/**
 * The OpenCV calls of the two cv2 servers, and the detector they run on each
 * frame. The calls are foreign, so a codec is a record of functions: a result
 * `Err(e)` means the call raised `e`.
 */
module Cv2 {
  import opened Wrappers
  import opened Multipart
  import opened Imaging

  datatype Codec = Codec(
    /** `cv2.imdecode(np.frombuffer(b, np.uint8), cv2.IMREAD_COLOR)`; `Ok(None)` when it returns None. */
    imdecode: Bytes -> Result<Option<Pixels>, PyError>,
    /** `cv2.imencode('.jpg', img)[1].tobytes()`; the success flag is discarded, as the servers do. */
    imencode: Pixels -> Result<Bytes, PyError>)

  /**
   * `model(img, conf=0.25, iou=0.45, imgsz=640)[0].plot()`: the YOLO detector
   * and its drawing of boxes. It receives imdecode's result as it is, None included.
   */
  type Detector = Option<Pixels> -> Result<Pixels, PyError>

  /** `is_valid_image`: whether the bytes decode to an image; a raised exception is caught and means false. */
  function IsValidImage(cv: Codec, data: Bytes): (valid: bool)
    ensures valid <==> cv.imdecode(data).Ok? && cv.imdecode(data).value.Some?
    ensures cv.imdecode(data).Err? ==> !valid
  {
    match cv.imdecode(data)
    case Ok(img) => img.Some?
    case Err(_) => false
  }

  /**
   * `is_valid_image` as the receive loop calls it: it never raises, since
   * every exception is caught inside it.
   */
  function Validate(cv: Codec, data: Bytes): (r: Result<bool, PyError>)
    ensures r.Ok?
    ensures r.value <==> cv.imdecode(data).Ok? && cv.imdecode(data).value.Some?
  {
    Ok(IsValidImage(cv, data))
  }

  /** Decode, detect and draw, encode as JPEG: Some(jpeg) when no stage raised. */
  function AnnotatedJpeg(cv: Codec, detect: Detector, data: Bytes): (r: Option<Bytes>)
    ensures r.Some? ==> cv.imdecode(data).Ok?
                        && detect(cv.imdecode(data).value).Ok?
                        && cv.imencode(detect(cv.imdecode(data).value).value) == Ok(r.value)
    ensures r.Some? <==> cv.imdecode(data).Ok?
                         && detect(cv.imdecode(data).value).Ok?
                         && cv.imencode(detect(cv.imdecode(data).value).value).Ok?
    ensures cv.imdecode(data).Err? ==> r.None?
  {
    match cv.imdecode(data)
    case Err(_) => None
    case Ok(img) =>
      match detect(img)
      case Err(_) => None
      case Ok(annotated) =>
        match cv.imencode(annotated)
        case Err(_) => None
        case Ok(jpeg) => Some(jpeg)
  }

  /**
   * Decode and take the raw sample buffer (`img.tobytes()`), with no encoding.
   * When imdecode returns None, `None.tobytes()` raises.
   */
  function RawSamples(cv: Codec, data: Bytes): (r: Option<Bytes>)
    ensures r.Some? ==> cv.imdecode(data).Ok? && cv.imdecode(data).value.Some?
                        && r.value == cv.imdecode(data).value.value.samples
  {
    match cv.imdecode(data)
    case Ok(Some(img)) => Some(img.samples)
    case _ => None
  }

  /** `AnnotatedJpeg` as a per-file pipeline of the stream. */
  function Annotated(cv: Codec, detect: Detector): Bytes -> Option<Bytes>
  {
    data => AnnotatedJpeg(cv, detect, data)
  }

  /** `RawSamples` as a per-file pipeline of the stream. */
  function Raw(cv: Codec): Bytes -> Option<Bytes>
  {
    data => RawSamples(cv, data)
  }

  /** The raw branch yields a payload exactly for the frames `is_valid_image` accepts. */
  lemma RawSamplesIffValid(cv: Codec, data: Bytes)
    ensures RawSamples(cv, data).Some? <==> IsValidImage(cv, data)
  {
  }
}

/**
 * The Pillow calls of the two PIL servers. `Image.open` only reads the header
 * of the file; the pixels are decoded when the image is saved again.
 */
module Pil {
  import opened Wrappers
  import opened Multipart
  import opened Imaging

  datatype Codec = Codec(
    /** `Image.open(BytesIO(b))` */
    open: Bytes -> Result<Pixels, PyError>,
    /** `image.save(img_io, 'JPEG')` followed by reading `img_io` back */
    save: Pixels -> Result<Bytes, PyError>)

  /**
   * `is_valid_image`: true when `Image.open` succeeds, false when it raises
   * `UnidentifiedImageError`; any other exception is not caught and escapes.
   */
  function IsValidImage(pil: Codec, data: Bytes): (r: Result<bool, PyError>)
    ensures r == Ok(true) <==> pil.open(data).Ok?
    ensures r == Ok(false) <==> pil.open(data) == Err(UnidentifiedImageError)
    ensures r.Err? ==> pil.open(data) == Err(r.error) && r.error != UnidentifiedImageError
  {
    match pil.open(data)
    case Ok(_) => Ok(true)
    case Err(UnidentifiedImageError) => Ok(false)
    case Err(e) => Err(e)
  }

  /** Open and save again as JPEG: Some(jpeg) when neither call raised. */
  function Reencode(pil: Codec, data: Bytes): (r: Option<Bytes>)
    ensures r.Some? ==> pil.open(data).Ok? && pil.save(pil.open(data).value) == Ok(r.value)
    ensures r.Some? <==> pil.open(data).Ok? && pil.save(pil.open(data).value).Ok?
    ensures pil.open(data).Err? ==> r.None?
  {
    match pil.open(data)
    case Err(_) => None
    case Ok(image) =>
      match pil.save(image)
      case Err(_) => None
      case Ok(jpeg) => Some(jpeg)
  }

  /** `Reencode` as a per-file pipeline of the stream. */
  function Reencoded(pil: Codec): Bytes -> Option<Bytes>
  {
    data => Reencode(pil, data)
  }

  /** A frame that re-encodes passed validation, but not conversely: validation never decodes the pixels. */
  lemma ReencodableIsValid(pil: Codec, data: Bytes)
    ensures Reencode(pil, data).Some? ==> IsValidImage(pil, data) == Ok(true)
    ensures IsValidImage(pil, data) == Ok(true) && pil.save(pil.open(data).value).Err? ==> Reencode(pil, data).None?
  {
  }
}
