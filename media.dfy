/** What the multimedia library reports about a file, as plain data. The
    library itself (container parsing, stream ranking, decoding, scaling) is
    not modelled: its answers are the inputs of the engine. */
module Media {
  import opened Wrappers

  type Byte = b: int | 0 <= b < 256

  /** An FFmpeg rational (`AVRational`): numerator over denominator. */
  datatype Rational = Rational(num: int, den: int)

  /** What building a decoder from a stream's codec parameters gives: the
      codec-context step can fail, then the video-decoder step can fail, and a
      decoder reports its codec's name (if known) and the picture size. */
  datatype CodecOutcome =
    | CodecContextFailed(reason: string)
    | DecoderFailed(reason: string)
    | Decoder(codecName: Option<string>, width: nat, height: nat)

  /** The stream that `streams().best(Type::Video)` picks, with the metadata
      the engine reads from it (`duration` and `frames` are the library's
      signed 64-bit tick and frame counts). */
  datatype VideoStream = VideoStream(
    index: nat,
    timeBase: Rational,
    avgFrameRate: Rational,
    realFrameRate: Rational,
    duration: int,
    frames: int,
    codec: CodecOutcome)

  /** An opened container: its duration in AV_TIME_BASE units, its bit rate,
      and its best video stream, if it has one. */
  datatype Container = Container(duration: int, bitRate: int, bestVideo: Option<VideoStream>)

  /** Plane 0 of a decoded frame after conversion to packed RGB24, or why the
      conversion failed (creating the scaler, or running it). */
  datatype Conversion =
    | ScalerFailed(reason: string)
    | ScaleFailed(reason: string)
    | Converted(stride: nat, data: seq<Byte>)

  datatype FrameData = FrameData(pts: Option<int>, width: nat, height: nat, rgb: Conversion)

  /** A plane of `height` rows, `stride` bytes apart, each `3 * width` bytes
      of RGB24 long: a row fits in its stride and the last row ends inside
      the data. */
  predicate RowsFit(data: seq<Byte>, stride: nat, width: nat, height: nat) {
    && 3 * width <= stride
    && (height == 0 || (height - 1) * stride + 3 * width <= |data|)
  }

  /** The scaler allocates every row of its output. */
  predicate PlaneFits(f: FrameData) {
    f.rgb.Converted? ==> RowsFit(f.rgb.data, f.rgb.stride, f.width, f.height)
  }

  /** A decoded frame: presentation timestamp in stream ticks (absent for some
      codecs), picture size, and what converting it to RGB24 gives. */
  type Frame = f: FrameData | PlaneFits(f) witness FrameData(None, 0, 0, ScalerFailed(""))

  /** A demuxed packet: the stream it belongs to, its pts, whether the decoder
      refused it (`send_packet` error text), and the frames the decoder hands
      back after receiving it (the `receive_frame` loop). */
  datatype Packet = Packet(stream: nat, pts: Option<int>, sendError: Option<string>, decoded: seq<Frame>)

  /** End of stream: whether `send_eof` failed, and the frames still buffered
      in the decoder that the drain loop receives. */
  datatype Flush = Flush(eofError: Option<string>, decoded: seq<Frame>)

  /** The packets that reading on from a seek yields, and what flushing the
      decoder afterwards gives. */
  datatype Demuxed = Demuxed(packets: seq<Packet>, flush: Flush)

  /** A seek request in AV_TIME_BASE (microsecond) units: a target position
      with an exclusive upper bound (`seek(ts, ..max)`), or the start of the
      file (`seek(0, ..)`). */
  datatype SeekRequest = Around(position: int, before: int) | FromStart

  /** A video file as the library sees it: what opening it gives, and what each
      seek on a fresh opening gives. Every opening of the file gives the same
      answers (the file does not change while the engine reads it). */
  datatype MediaFile = MediaFile(
    open: Result<Container, string>,
    seek: SeekRequest -> Result<Demuxed, string>)
}
