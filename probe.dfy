/** Container probing (`get_video_info`): the metadata derived from what the
    library reports, through fixed fallback chains. Seconds are `real`s. */
module Probe {
  import opened Wrappers
  import opened Media
  import opened VideoErrors

  /** FFmpeg's AV_TIME_BASE: container durations are in microseconds. */
  const AV_TIME_BASE: int := 1_000_000

  /** Frame rate used when neither rate the stream reports is usable. */
  const DEFAULT_FPS: real := 30.0

  const UNKNOWN_CODEC: string := "unknown"

  datatype VideoInfo = VideoInfo(
    durationSecs: real,
    fps: real,
    width: nat,
    height: nat,
    frameCount: nat,
    codec: string,
    bitrate: Option<nat>)

  function RateValue(r: Rational): real
    requires r.den != 0
  {
    r.num as real / r.den as real
  }

  /** Frames per second: the average frame rate if its denominator is non-zero,
      else the real (base) frame rate under the same test, else 30. */
  function DeriveFps(avg: Rational, base: Rational): real {
    if avg.den != 0 then RateValue(avg)
    else if base.den != 0 then RateValue(base)
    else DEFAULT_FPS
  }

  /** A usable average rate decides alone: the real rate is never consulted. */
  lemma FpsPrefersAverageRate(avg: Rational, base1: Rational, base2: Rational)
    requires avg.den != 0
    ensures DeriveFps(avg, base1) == DeriveFps(avg, base2) == RateValue(avg)
  {
  }

  /** A degenerate average rate falls back to a usable real rate. */
  lemma FpsFallsBackToRealRate(avg: Rational, base: Rational)
    requires avg.den == 0 && base.den != 0
    ensures DeriveFps(avg, base) == RateValue(base)
  {
  }

  /** Both rates degenerate: exactly the default. */
  lemma FpsDefault(avg: Rational, base: Rational)
    requires avg.den == 0 && base.den == 0
    ensures DeriveFps(avg, base) == 30.0
  {
  }

  /** Rates that are positive when usable give a positive frame rate. */
  lemma FpsPositive(avg: Rational, base: Rational)
    requires avg.den != 0 ==> avg.num * avg.den > 0
    requires base.den != 0 ==> base.num * base.den > 0
    ensures DeriveFps(avg, base) > 0.0
  {
    if avg.den != 0 {
      RatioPositive(avg);
    } else if base.den != 0 {
      RatioPositive(base);
    }
  }

  lemma RatioPositive(r: Rational)
    requires r.den != 0 && r.num * r.den > 0
    ensures RateValue(r) > 0.0
  {
    if r.den > 0 {
      assert r.num > 0;
    } else {
      assert r.num < 0;
      assert RateValue(r) == (-r.num) as real / (-r.den) as real;
    }
  }

  /** Duration in seconds: the container's duration if positive, else the
      stream's duration times its time base if both are usable, else 0. */
  function DeriveDuration(containerDuration: int, stream: VideoStream): real {
    if containerDuration > 0 then containerDuration as real / AV_TIME_BASE as real
    else if stream.duration > 0 && stream.timeBase.den != 0 then
      stream.duration as real * stream.timeBase.num as real / stream.timeBase.den as real
    else 0.0
  }

  /** A positive container duration decides alone, and is positive. */
  lemma DurationPrefersContainer(containerDuration: int, s1: VideoStream, s2: VideoStream)
    requires containerDuration > 0
    ensures DeriveDuration(containerDuration, s1) == DeriveDuration(containerDuration, s2)
    ensures DeriveDuration(containerDuration, s1) == containerDuration as real / 1_000_000.0 > 0.0
  {
  }

  /** Without a container duration, the stream's duration and time base give it. */
  lemma DurationFromStream(containerDuration: int, stream: VideoStream)
    requires containerDuration <= 0 && stream.duration > 0 && stream.timeBase.den != 0
    ensures DeriveDuration(containerDuration, stream)
         == stream.duration as real * stream.timeBase.num as real / stream.timeBase.den as real
  {
  }

  /** With a time base that is not negative the duration is never negative, and
      it is zero when neither source has a positive duration. */
  lemma DurationNonNegative(containerDuration: int, stream: VideoStream)
    requires stream.timeBase.den != 0 ==> stream.timeBase.num * stream.timeBase.den >= 0
    ensures DeriveDuration(containerDuration, stream) >= 0.0
    ensures containerDuration <= 0 && stream.duration <= 0 ==> DeriveDuration(containerDuration, stream) == 0.0
  {
    var tb := stream.timeBase;
    if containerDuration <= 0 && stream.duration > 0 && tb.den != 0 {
      var d := stream.duration as real;
      if tb.den > 0 {
        assert tb.num >= 0;
        assert d * tb.num as real >= 0.0;
      } else {
        assert tb.num <= 0;
        assert d * tb.num as real <= 0.0;
        assert d * tb.num as real / tb.den as real == (d * (-tb.num) as real) / (-tb.den) as real;
      }
    }
  }

  /** `f64::round`: to the nearest integer, halves away from zero. */
  function RoundHalfAway(x: real): (r: int)
    ensures x - 0.5 <= r as real <= x + 0.5
    ensures r as real - x == 0.5 ==> x >= 0.0
    ensures x - r as real == 0.5 ==> x < 0.0
  {
    if x >= 0.0 then (x + 0.5).Floor else -((-x + 0.5).Floor)
  }

  /** Frame count: the stream's own count if positive, else duration times frame
      rate rounded; `as u64` turns a negative estimate into 0. */
  function EstimateFrameCount(frames: int, durationSecs: real, fps: real): nat {
    if frames > 0 then frames
    else
      var r := RoundHalfAway(durationSecs * fps);
      if r < 0 then 0 else r
  }

  /** A positive stream count is kept; otherwise the estimate is within half a
      frame of duration times frame rate (when that product is not negative). */
  lemma FrameCountEstimate(frames: int, durationSecs: real, fps: real)
    ensures frames > 0 ==> EstimateFrameCount(frames, durationSecs, fps) == frames
    ensures frames <= 0 && durationSecs * fps >= 0.0 ==>
      var n := EstimateFrameCount(frames, durationSecs, fps) as real;
      durationSecs * fps - 0.5 <= n <= durationSecs * fps + 0.5
  {
  }

  /** Bit rate: present exactly when the container reports a positive one. */
  function DeriveBitrate(bitRate: int): (b: Option<nat>)
    ensures b.Some? <==> bitRate > 0
    ensures b.Some? ==> b.value == bitRate
  {
    if bitRate > 0 then Some(bitRate) else None
  }

  function CodecName(name: Option<string>): string {
    if name.Some? then name.value else UNKNOWN_CODEC
  }

  /** `get_video_info`: open, pick the best video stream, build its decoder,
      then derive the metadata. */
  function GetVideoInfo(path: string, open: Result<Container, string>): (r: Result<VideoInfo, VideoError>)
    ensures r.Ok? <==> open.Ok? && open.value.bestVideo.Some? && open.value.bestVideo.value.codec.Decoder?
    ensures open.Err? ==> r.Err? && r.error.code == OPEN_ERROR
    ensures open.Ok? && open.value.bestVideo.None? ==> r.Err? && r.error.code == NO_VIDEO_STREAM
    ensures open.Ok? && open.value.bestVideo.Some? ==>
      var codec := open.value.bestVideo.value.codec;
      (codec.CodecContextFailed? ==> r.Err? && r.error.code == CODEC_ERROR)
      && (codec.DecoderFailed? ==> r.Err? && r.error.code == DECODER_ERROR)
    ensures r.Ok? ==>
      var c := open.value;
      var s := c.bestVideo.value;
      var info := r.value;
      && info.fps == DeriveFps(s.avgFrameRate, s.realFrameRate)
      && info.durationSecs == DeriveDuration(c.duration, s)
      && info.frameCount == EstimateFrameCount(s.frames, info.durationSecs, info.fps)
      && info.bitrate == DeriveBitrate(c.bitRate)
      && info.width == s.codec.width && info.height == s.codec.height
      && info.codec == CodecName(s.codec.codecName)
  {
    match open
    case Err(reason) =>
      Err(VideoError("Failed to open video file '" + path + "': " + reason, OPEN_ERROR))
    case Ok(c) =>
      match c.bestVideo
      case None => Err(VideoError("No video stream found in file", NO_VIDEO_STREAM))
      case Some(s) =>
        match s.codec
        case CodecContextFailed(reason) =>
          Err(VideoError("Failed to get codec context: " + reason, CODEC_ERROR))
        case DecoderFailed(reason) =>
          Err(VideoError("Failed to create video decoder: " + reason, DECODER_ERROR))
        case Decoder(name, width, height) =>
          var fps := DeriveFps(s.avgFrameRate, s.realFrameRate);
          var duration := DeriveDuration(c.duration, s);
          Ok(VideoInfo(duration, fps, width, height, EstimateFrameCount(s.frames, duration, fps),
                       CodecName(name), DeriveBitrate(c.bitRate)))
  }
}
