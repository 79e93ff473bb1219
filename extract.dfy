/** Extracting one frame as base64 JPEG (`get_frame_at_time_with_quality` and
    its wrappers): open the file, pick the best video stream, build its
    decoder, convert the timestamp into stream ticks, seek (falling back to
    the start), select a frame and encode it. */
module Extract {
  import opened Wrappers
  import opened Media
  import opened VideoErrors
  import opened FrameSelect
  import opened FrameEncode

  const I64_MIN: int := -0x8000_0000_0000_0000

  /** Microseconds per second in seek positions. */
  const SEEK_UNIT: int := 1_000_000

  /** JPEG quality of `get_frame_at_time` and `get_first_frame`. */
  const DEFAULT_QUALITY: nat := 85

  /** Truncation toward zero. */
  function Trunc(x: real): (n: int)
    ensures n as real <= x < n as real + 1.0 || n as real - 1.0 < x <= n as real
    ensures x >= 0.0 ==> n >= 0 && n as real <= x
    ensures x < 0.0 ==> n <= 0 && x <= n as real
  {
    if x >= 0.0 then x.Floor else -((-x).Floor)
  }

  /** A float-to-`i64` cast: truncation toward zero, saturating at the bounds. */
  function ToI64(x: real): (n: int)
    ensures I64_MIN <= n <= I64_MAX
    ensures x >= 0.0 ==> 0 <= n && n as real <= x && (n < I64_MAX ==> x < n as real + 1.0)
    ensures x <= 0.0 ==> n <= 0 && x <= n as real && (n > I64_MIN ==> n as real - 1.0 < x)
  {
    var t := Trunc(x);
    if t > I64_MAX then I64_MAX else if t < I64_MIN then I64_MIN else t
  }

  /** The target in stream ticks: seconds times the denominator over the
      numerator of the time base. A zero numerator divides by zero in floating
      point: an infinity saturates to a bound, NaN casts to 0. */
  function TargetTicks(secs: real, tb: Rational): (t: int)
    ensures I64_MIN <= t <= I64_MAX
  {
    if tb.num == 0 then
      var scaled := secs * (tb.den as real);
      (if scaled > 0.0 then I64_MAX else if scaled < 0.0 then I64_MIN else 0)
    else ToI64(TickValue(secs, tb))
  }

  /** The exact number of ticks in `secs` seconds. */
  function TickValue(secs: real, tb: Rational): real
    requires tb.num != 0
  {
    secs * (tb.den as real) / (tb.num as real)
  }

  /** The first seek: the whole seconds of the timestamp in microseconds, with
      an upper bound one second later. */
  function FirstSeek(secs: real): SeekRequest {
    var pos := ToI64(secs) * SEEK_UNIT;
    Around(pos, pos + SEEK_UNIT)
  }

  /** The packets read after seeking: the requested seek, or on its failure a
      seek to the start; the error of the second seek if both fail. */
  function SeekPackets(file: MediaFile, secs: real): Result<Demuxed, string> {
    var first := file.seek(FirstSeek(secs));
    if first.Ok? then first else file.seek(FromStart)
  }

  /** The safety bound of the scan: two time-base denominators past the
      target. */
  function Horizon(target: int, tb: Rational): int {
    target + 2 * tb.den
  }

  /** The message of FRAME_NOT_FOUND, over the text the timestamp displays as. */
  function FrameNotFound(shown: string): VideoError {
    VideoError("Could not find frame at timestamp " + shown, FRAME_NOT_FOUND)
  }

  /** The outcome once the decoder exists: seek, select, encode. `showSecs` is
      how the timestamp displays. */
  function SelectAndEncode(stream: VideoStream, secs: real, quality: nat, file: MediaFile,
                           codec: ImageCodec, showSecs: real -> string): Result<string, VideoError> {
    match SeekPackets(file, secs)
    case Err(reason) => Err(FromFfmpeg(reason))
    case Ok(d) =>
      var target := TargetTicks(secs, stream.timeBase);
      match Select(d.packets, d.flush, stream.index, target, Horizon(target, stream.timeBase))
      case Picked(f) => EncodeOutcome(f, quality, codec)
      case NoFrame => Err(FrameNotFound(showSecs(secs)))
      case DecodeError(m) => Err(FromFfmpeg(m))
  }

  /** The whole extraction: library failures while opening the file or
      building the decoder keep their text under FFMPEG_ERROR; a file without
      video has NO_VIDEO_STREAM. */
  function ExtractOutcome(secs: real, quality: nat, file: MediaFile, codec: ImageCodec,
                          showSecs: real -> string): Result<string, VideoError> {
    match file.open
    case Err(reason) => Err(FromFfmpeg(reason))
    case Ok(c) =>
      match c.bestVideo
      case None => Err(VideoError("No video stream found", NO_VIDEO_STREAM))
      case Some(stream) =>
        match stream.codec
        case CodecContextFailed(reason) => Err(FromFfmpeg(reason))
        case DecoderFailed(reason) => Err(FromFfmpeg(reason))
        case Decoder(_, _, _) => SelectAndEncode(stream, secs, quality, file, codec, showSecs)
  }

  /** `get_frame_at_time_with_quality`. */
  method ExtractFrame(secs: real, quality: nat, file: MediaFile, codec: ImageCodec, showSecs: real -> string)
    returns (r: Result<string, VideoError>)
    ensures r == ExtractOutcome(secs, quality, file, codec, showSecs)
  {
    if file.open.Err? {
      return Err(FromFfmpeg(file.open.error));
    }
    var c := file.open.value;
    if c.bestVideo.None? {
      return Err(VideoError("No video stream found", NO_VIDEO_STREAM));
    }
    var stream := c.bestVideo.value;
    match stream.codec
    case CodecContextFailed(reason) => return Err(FromFfmpeg(reason));
    case DecoderFailed(reason) => return Err(FromFfmpeg(reason));
    case Decoder(_, _, _) =>
    var tb := stream.timeBase;
    var target := TargetTicks(secs, tb);
    var demuxed := file.seek(FirstSeek(secs));
    if demuxed.Err? {
      demuxed := file.seek(FromStart);
    }
    if demuxed.Err? {
      return Err(FromFfmpeg(demuxed.error));
    }
    var d := demuxed.value;
    var sel := SeekAndSelect(d.packets, d.flush, stream.index, target, target + tb.den * 2);
    match sel
    case Picked(f) => r := EncodeFrame(f, quality, codec);
    case NoFrame => r := Err(FrameNotFound(showSecs(secs)));
    case DecodeError(m) => r := Err(FromFfmpeg(m));
  }

  /** `get_frame_at_time`: quality 85. */
  method GetFrameAtTime(secs: real, file: MediaFile, codec: ImageCodec, showSecs: real -> string)
    returns (r: Result<string, VideoError>)
    ensures r == ExtractOutcome(secs, DEFAULT_QUALITY, file, codec, showSecs)
  {
    r := ExtractFrame(secs, DEFAULT_QUALITY, file, codec, showSecs);
  }

  /** `get_first_frame`: time 0 at quality 85. */
  method GetFirstFrame(file: MediaFile, codec: ImageCodec, showSecs: real -> string)
    returns (r: Result<string, VideoError>)
    ensures r == ExtractOutcome(0.0, DEFAULT_QUALITY, file, codec, showSecs)
  {
    r := ExtractFrame(0.0, DEFAULT_QUALITY, file, codec, showSecs);
  }

  /** The tick conversion is exact truncation for an ordinary time base: for a
      non-negative timestamp whose tick value is in range, the target is the
      whole number of ticks in it. */
  lemma TargetTicksTruncates(secs: real, tb: Rational)
    requires tb.num > 0 && tb.den > 0 && secs >= 0.0
    requires TickValue(secs, tb) < I64_MAX as real
    ensures TargetTicks(secs, tb) >= 0
    ensures TargetTicks(secs, tb) as real <= TickValue(secs, tb) < (TargetTicks(secs, tb) + 1) as real
  {
    assert TickValue(secs, tb) >= 0.0;
  }

  /** Two seconds at 1/1000 s per tick is 2000 ticks; the safety bound lies
      2000 ticks past the target. */
  lemma TargetTicksExample()
    ensures TargetTicks(2.0, Rational(1, 1000)) == 2000
    ensures TargetTicks(2.5, Rational(1, 1000)) == 2500
    ensures Horizon(2000, Rational(1, 1000)) == 4000
    ensures TargetTicks(-1.5, Rational(1, 2)) == -3
    ensures TargetTicks(1.0, Rational(0, 25)) == I64_MAX && TargetTicks(0.0, Rational(0, 25)) == 0
  {
  }

  /** A time base `1/den` makes the safety bound exactly two seconds of stream
      time past the target. */
  lemma HorizonIsTwoSeconds(target: int, tb: Rational)
    requires tb.num == 1 && tb.den > 0
    ensures (Horizon(target, tb) - target) as real * tb.num as real / tb.den as real == 2.0
  {
  }

  /** The seek request keeps only whole seconds and covers the following
      second; its failure falls back to the start, and the packets are read
      from the start exactly when the first seek fails. */
  lemma SeekFallback(file: MediaFile, secs: real)
    requires 0.0 <= secs < 1_000_000.0
    ensures FirstSeek(secs) == Around(secs.Floor * SEEK_UNIT, secs.Floor * SEEK_UNIT + SEEK_UNIT)
    ensures file.seek(FirstSeek(secs)).Ok? ==> SeekPackets(file, secs) == file.seek(FirstSeek(secs))
    ensures file.seek(FirstSeek(secs)).Err? ==> SeekPackets(file, secs) == file.seek(FromStart)
  {
  }

  /** The error codes of an extraction. Failures before any seek keep the
      library's text: FFMPEG_ERROR, or NO_VIDEO_STREAM for a file without
      video; later failures carry the code of their step, and IMAGE_ERROR never
      occurs. A frame is returned only after the decoder opened, a seek worked
      and the selection picked a frame. */
  lemma ExtractOutcomes(secs: real, quality: nat, file: MediaFile, codec: ImageCodec, showSecs: real -> string)
    ensures var r := ExtractOutcome(secs, quality, file, codec, showSecs);
      && (file.open.Err? ==> r == Err(FromFfmpeg(file.open.error)))
      && (file.open.Ok? && file.open.value.bestVideo.None? ==> r.Err? && r.error.code == NO_VIDEO_STREAM)
      && (file.open.Ok? && file.open.value.bestVideo.Some? && !file.open.value.bestVideo.value.codec.Decoder? ==>
            r.Err? && r.error.code == FFMPEG_ERROR)
      && (r.Err? ==> r.error.code in {FFMPEG_ERROR, NO_VIDEO_STREAM, FRAME_NOT_FOUND, SCALER_ERROR, SCALE_ERROR, JPEG_ENCODE_ERROR})
      && (r.Ok? ==>
            && file.open.Ok? && file.open.value.bestVideo.Some?
            && file.open.value.bestVideo.value.codec.Decoder?
            && SeekPackets(file, secs).Ok?
            && var s, d := file.open.value.bestVideo.value, SeekPackets(file, secs).value;
               var target := TargetTicks(secs, s.timeBase);
               Select(d.packets, d.flush, s.index, target, Horizon(target, s.timeBase)).Picked?)
  {
    if file.open.Ok? && file.open.value.bestVideo.Some? && file.open.value.bestVideo.value.codec.Decoder?
       && SeekPackets(file, secs).Ok? {
      var s, d := file.open.value.bestVideo.value, SeekPackets(file, secs).value;
      var target := TargetTicks(secs, s.timeBase);
      var sel := Select(d.packets, d.flush, s.index, target, Horizon(target, s.timeBase));
      if sel.Picked? {
        EncodeErrorCodes(sel.frame, quality, codec);
      }
    }
  }

  /** FRAME_NOT_FOUND is reported exactly when the file opened with a decoder,
      a seek succeeded and the selection found no frame. */
  lemma FrameNotFoundIff(secs: real, quality: nat, file: MediaFile, codec: ImageCodec, showSecs: real -> string)
    ensures var r := ExtractOutcome(secs, quality, file, codec, showSecs);
      r.Err? && r.error.code == FRAME_NOT_FOUND <==>
        && file.open.Ok? && file.open.value.bestVideo.Some?
        && file.open.value.bestVideo.value.codec.Decoder?
        && SeekPackets(file, secs).Ok?
        && var s, d := file.open.value.bestVideo.value, SeekPackets(file, secs).value;
           var target := TargetTicks(secs, s.timeBase);
           Select(d.packets, d.flush, s.index, target, Horizon(target, s.timeBase)) == NoFrame
  {
    var r := ExtractOutcome(secs, quality, file, codec, showSecs);
    if file.open.Ok? && file.open.value.bestVideo.Some? && file.open.value.bestVideo.value.codec.Decoder?
       && SeekPackets(file, secs).Ok? {
      var s, d := file.open.value.bestVideo.value, SeekPackets(file, secs).value;
      var target := TargetTicks(secs, s.timeBase);
      var sel := Select(d.packets, d.flush, s.index, target, Horizon(target, s.timeBase));
      if sel.Picked? {
        EncodeErrorCodes(sel.frame, quality, codec);
      }
    }
    assert FRAME_NOT_FOUND != FFMPEG_ERROR && FRAME_NOT_FOUND != NO_VIDEO_STREAM;
  }
}
