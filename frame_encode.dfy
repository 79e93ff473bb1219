/** Encoding a decoded frame (`encode_frame_as_base64_jpeg`): conversion to
    RGB24, the copy of the strided plane into a dense buffer, the image built
    from it, JPEG encoding and base64. The scaler, the JPEG encoder and base64
    are library code and enter as inputs. */
module FrameEncode {
  import opened Wrappers
  import opened Media
  import opened VideoErrors

  /** Start of row `y` in a plane whose rows are `stride` bytes apart. */
  function RowStart(y: nat, stride: nat): nat {
    y * stride
  }

  lemma MulMono(a: nat, b: nat, c: nat)
    requires a <= b
    ensures a * c <= b * c
  {
  }

  /** Every row below `height` ends inside the data. */
  lemma RowInside(data: seq<Byte>, stride: nat, width: nat, height: nat, y: nat)
    requires RowsFit(data, stride, width, height) && y < height
    ensures RowStart(y, stride) + 3 * width <= |data|
  {
    MulMono(y, height - 1, stride);
  }

  /** The `3 * width` pixel bytes of row `y`; the rest of the stride is
      padding. */
  function Row(data: seq<Byte>, stride: nat, width: nat, height: nat, y: nat): (row: seq<Byte>)
    requires RowsFit(data, stride, width, height) && y < height
    ensures |row| == 3 * width
  {
    RowInside(data, stride, width, height, y);
    data[RowStart(y, stride)..RowStart(y, stride) + 3 * width]
  }

  /** Fewer rows of a plane fit too. */
  lemma RowsFitFewer(data: seq<Byte>, stride: nat, width: nat, height: nat, h: nat)
    requires RowsFit(data, stride, width, height) && h <= height
    ensures RowsFit(data, stride, width, h)
  {
    if h > 0 {
      MulMono(h - 1, height - 1, stride);
    }
  }

  /** The first `h` rows of the plane, without padding, one after another. */
  function Packed(data: seq<Byte>, stride: nat, width: nat, h: nat): seq<Byte>
    requires RowsFit(data, stride, width, h)
    decreases h
  {
    if h == 0 then []
    else
      RowsFitFewer(data, stride, width, h, h - 1);
      Packed(data, stride, width, h - 1) + Row(data, stride, width, h, h - 1)
  }

  /** The packed buffer holds exactly `3 * width` bytes per row. */
  lemma {:induction false} PackedLength(data: seq<Byte>, stride: nat, width: nat, h: nat)
    requires RowsFit(data, stride, width, h)
    ensures |Packed(data, stride, width, h)| == 3 * width * h
    decreases h
  {
    if h > 0 {
      RowsFitFewer(data, stride, width, h, h - 1);
      PackedLength(data, stride, width, h - 1);
    }
  }

  /** Appending a block of `w` bytes to `n` such blocks: block `y` is the old
      block `y`, or the new one when `y == n`. */
  lemma BlockOfSnoc(init: seq<Byte>, row: seq<Byte>, w: nat, n: nat, y: nat)
    requires |init| == w * n && |row| == w && y <= n
    ensures 0 <= y * w && y * w + w <= |init + row|
    ensures y < n ==> y * w + w <= |init| && (init + row)[y * w..y * w + w] == init[y * w..y * w + w]
    ensures y == n ==> (init + row)[y * w..y * w + w] == row
  {
    MulMono(y, n, w);
    if y < n {
      MulMono(y + 1, n, w);
    }
  }

  /** Row `y` of the packed buffer is row `y` of the plane: the `3 * width`
      bytes from `y * 3 * width` on are `data[y * stride ..
      y * stride + 3 * width]`. */
  lemma {:induction false} PackedRow(data: seq<Byte>, stride: nat, width: nat, h: nat, y: nat)
    requires RowsFit(data, stride, width, h) && y < h
    ensures var p, w := Packed(data, stride, width, h), 3 * width;
      0 <= y * w && y * w + w <= |p| && p[y * w..y * w + w] == Row(data, stride, width, h, y)
    decreases h
  {
    var w := 3 * width;
    RowsFitFewer(data, stride, width, h, h - 1);
    var init := Packed(data, stride, width, h - 1);
    var row := Row(data, stride, width, h, h - 1);
    assert Packed(data, stride, width, h) == init + row;
    PackedLength(data, stride, width, h - 1);
    BlockOfSnoc(init, row, w, h - 1, y);
    if y < h - 1 {
      PackedRow(data, stride, width, h - 1, y);
      RowAnyHeight(data, stride, width, h - 1, h, y);
    }
  }

  /** A row does not depend on how many rows below it the plane has. */
  lemma RowAnyHeight(data: seq<Byte>, stride: nat, width: nat, h1: nat, h2: nat, y: nat)
    requires RowsFit(data, stride, width, h1) && RowsFit(data, stride, width, h2) && y < h1 && y < h2
    ensures Row(data, stride, width, h1, y) == Row(data, stride, width, h2, y)
  {
  }

  /** Padding is never copied: planes that agree on every row pack to the same
      buffer, whatever their padding bytes hold. */
  lemma {:induction false} PackedIgnoresPadding(d1: seq<Byte>, d2: seq<Byte>, stride: nat, width: nat, h: nat)
    requires RowsFit(d1, stride, width, h) && RowsFit(d2, stride, width, h)
    requires forall y :: 0 <= y < h ==> Row(d1, stride, width, h, y) == Row(d2, stride, width, h, y)
    ensures Packed(d1, stride, width, h) == Packed(d2, stride, width, h)
    decreases h
  {
    if h > 0 {
      RowsFitFewer(d1, stride, width, h, h - 1);
      RowsFitFewer(d2, stride, width, h, h - 1);
      var h' := h - 1;
      forall y | 0 <= y < h'
        ensures Row(d1, stride, width, h', y) == Row(d2, stride, width, h', y)
      {
        assert Row(d1, stride, width, h', y) == Row(d1, stride, width, h, y);
        assert Row(d2, stride, width, h', y) == Row(d2, stride, width, h, y);
      }
      PackedIgnoresPadding(d1, d2, stride, width, h - 1);
    }
  }

  /** The copy loop: each row's pixel bytes are appended to the buffer. */
  method PackRows(data: seq<Byte>, stride: nat, width: nat, height: nat) returns (buf: seq<Byte>)
    requires RowsFit(data, stride, width, height)
    ensures buf == Packed(data, stride, width, height)
  {
    buf := [];
    for y := 0 to height
      invariant RowsFit(data, stride, width, y)
      invariant buf == Packed(data, stride, width, y)
    {
      RowsFitFewer(data, stride, width, height, y + 1);
      RowInside(data, stride, width, height, y);
      var rowStart := y * stride;
      var rowEnd := rowStart + width * 3;
      assert data[rowStart..rowEnd] == Row(data, stride, width, y + 1, y);
      buf := buf + data[rowStart..rowEnd];
    }
  }

  /** An RGB image: `width * height` pixels of three bytes, row by row. */
  datatype Image = Image(width: nat, height: nat, pixels: seq<Byte>)

  /** `RgbImage::from_raw`: an image over the buffer, if the buffer holds at
      least `3 * width * height` bytes. */
  function FromRaw(width: nat, height: nat, buf: seq<Byte>): (img: Option<Image>)
    ensures img.Some? <==> |buf| >= 3 * width * height
    ensures img.Some? ==> img.value == Image(width, height, buf)
  {
    if |buf| < 3 * width * height then None else Some(Image(width, height, buf))
  }

  /** The library encoders: JPEG at a quality (failing with a reason), and
      base64 text of bytes. */
  datatype ImageCodec = ImageCodec(
    jpeg: (Image, nat) -> Result<seq<Byte>, string>,
    base64: seq<Byte> -> string)

  /** The image handed to the JPEG encoder for a converted plane. */
  function PlaneImage(data: seq<Byte>, stride: nat, width: nat, height: nat): Option<Image>
    requires RowsFit(data, stride, width, height)
  {
    FromRaw(width, height, Packed(data, stride, width, height))
  }

  /** JPEG-encode an image and turn the bytes into base64 text. */
  function JpegBase64(img: Image, quality: nat, codec: ImageCodec): Result<string, VideoError> {
    match codec.jpeg(img, quality)
    case Err(reason) => Err(VideoError("Failed to encode JPEG: " + reason, JPEG_ENCODE_ERROR))
    case Ok(bytes) => Ok(codec.base64(bytes))
  }

  /** The result of encoding `frame`: scaler errors, then the image, then the
      JPEG encoder's verdict, then base64. */
  function EncodeOutcome(frame: Frame, quality: nat, codec: ImageCodec): Result<string, VideoError> {
    match frame.rgb
    case ScalerFailed(reason) => Err(VideoError("Failed to create scaler: " + reason, SCALER_ERROR))
    case ScaleFailed(reason) => Err(VideoError("Failed to scale frame: " + reason, SCALE_ERROR))
    case Converted(stride, data) =>
      match PlaneImage(data, stride, frame.width, frame.height)
      case None => Err(VideoError("Failed to create image from frame data", IMAGE_ERROR))
      case Some(img) => JpegBase64(img, quality, codec)
  }

  /** Every row of the plane sits at its place in the packed buffer. */
  lemma PackedRows(data: seq<Byte>, stride: nat, width: nat, height: nat)
    requires RowsFit(data, stride, width, height)
    ensures var p := Packed(data, stride, width, height);
      forall y :: 0 <= y < height ==>
        0 <= y * (3 * width) && y * (3 * width) + 3 * width <= |p|
        && p[y * (3 * width)..y * (3 * width) + 3 * width] == Row(data, stride, width, height, y)
  {
    forall y | 0 <= y < height
      ensures 0 <= y * (3 * width) && y * (3 * width) + 3 * width <= |Packed(data, stride, width, height)|
      ensures Packed(data, stride, width, height)[y * (3 * width)..y * (3 * width) + 3 * width] == Row(data, stride, width, height, y)
    {
      PackedRow(data, stride, width, height, y);
    }
  }

  /** The image a converted plane gives: the frame's size and, row by row, the
      plane's pixel bytes without padding. */
  lemma PlaneImageRows(data: seq<Byte>, stride: nat, width: nat, height: nat)
    requires RowsFit(data, stride, width, height)
    ensures var img := PlaneImage(data, stride, width, height);
      && img.Some? && img.value.width == width && img.value.height == height
      && |img.value.pixels| == 3 * width * height
      && forall y :: 0 <= y < height ==>
           0 <= y * (3 * width) && y * (3 * width) + 3 * width <= |img.value.pixels|
           && img.value.pixels[y * (3 * width)..y * (3 * width) + 3 * width] == Row(data, stride, width, height, y)
  {
    PackedLength(data, stride, width, height);
    PackedRows(data, stride, width, height);
  }

  /** The packed buffer always has the size the image needs, so the image step
      never fails: only the scaler or the JPEG encoder can make encoding fail,
      and a converted frame is encoded from the image of its plane. */
  lemma EncodeOutcomes(frame: Frame, quality: nat, codec: ImageCodec)
    ensures var r := EncodeOutcome(frame, quality, codec);
      && (frame.rgb.ScalerFailed? ==> r == Err(VideoError("Failed to create scaler: " + frame.rgb.reason, SCALER_ERROR)))
      && (frame.rgb.ScaleFailed? ==> r == Err(VideoError("Failed to scale frame: " + frame.rgb.reason, SCALE_ERROR)))
      && (frame.rgb.Converted? ==>
            var img := PlaneImage(frame.rgb.data, frame.rgb.stride, frame.width, frame.height);
            img.Some? && r == JpegBase64(img.value, quality, codec))
  {
    if frame.rgb.Converted? {
      PackedLength(frame.rgb.data, frame.rgb.stride, frame.width, frame.height);
    }
  }

  /** No frame fails with IMAGE_ERROR, and the error codes tell the failing
      step apart. */
  lemma EncodeErrorCodes(frame: Frame, quality: nat, codec: ImageCodec)
    ensures var r := EncodeOutcome(frame, quality, codec);
      && (r.Err? ==> r.error.code in {SCALER_ERROR, SCALE_ERROR, JPEG_ENCODE_ERROR})
      && (r.Err? && r.error.code == SCALER_ERROR <==> frame.rgb.ScalerFailed?)
      && (r.Err? && r.error.code == SCALE_ERROR <==> frame.rgb.ScaleFailed?)
  {
    EncodeOutcomes(frame, quality, codec);
    assert SCALER_ERROR != SCALE_ERROR && SCALE_ERROR != JPEG_ENCODE_ERROR && SCALER_ERROR != JPEG_ENCODE_ERROR;
  }

  /** `encode_frame_as_base64_jpeg`, with the copy loop. */
  method EncodeFrame(frame: Frame, quality: nat, codec: ImageCodec) returns (r: Result<string, VideoError>)
    ensures r == EncodeOutcome(frame, quality, codec)
  {
    match frame.rgb
    case ScalerFailed(reason) => r := Err(VideoError("Failed to create scaler: " + reason, SCALER_ERROR));
    case ScaleFailed(reason) => r := Err(VideoError("Failed to scale frame: " + reason, SCALE_ERROR));
    case Converted(stride, data) =>
      var buf := PackRows(data, stride, frame.width, frame.height);
      var img := FromRaw(frame.width, frame.height, buf);
      if img.None? {
        return Err(VideoError("Failed to create image from frame data", IMAGE_ERROR));
      }
      var jpeg := codec.jpeg(img.value, quality);
      if jpeg.Err? {
        return Err(VideoError("Failed to encode JPEG: " + jpeg.error, JPEG_ENCODE_ERROR));
      }
      r := Ok(codec.base64(jpeg.value));
  }
}
