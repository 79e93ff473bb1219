/** Thumbnails (`generate_thumbnails_with_options`, `generate_thumbnails`,
    `get_thumbnail_at_percent`): how many frames to extract for an interval,
    at which timestamps, and what the batch returns. */
module Thumbnails {
  import opened Wrappers
  import opened Media
  import opened VideoErrors
  import opened Probe
  import opened FrameEncode
  import opened Extract

  /** `usize::MAX` on a 64-bit target: what an infinite ratio casts to. */
  const USIZE_MAX: nat := 0xFFFF_FFFF_FFFF_FFFF

  /** The hard cap on thumbnails per batch. */
  const MAX_BATCH: nat := 100

  const BATCH_QUALITY: nat := 60
  const PERCENT_QUALITY: nat := 70

  function Ceil(x: real): (n: int)
    ensures n as real - 1.0 < x <= n as real
  {
    -((-x).Floor)
  }

  /** `(duration / interval).ceil() as usize` for a positive duration: a
      positive interval gives the rounded-up ratio, a zero interval an
      infinite one that saturates, a negative interval a negative one that
      casts to 0. */
  function RawCount(duration: real, interval: real): nat
    requires duration > 0.0
  {
    if interval > 0.0 then
      var c := Ceil(duration / interval);
      if c < 0 then 0 else if c > USIZE_MAX then USIZE_MAX else c
    else if interval == 0.0 then USIZE_MAX
    else 0
  }

  function Min(a: nat, b: nat): nat {
    if a <= b then a else b
  }

  /** The number of timestamps to try: at least one, at most the requested
      maximum, at most 100. */
  function ThumbnailCount(duration: real, interval: real, maxThumbnails: Option<nat>): (n: nat)
    requires duration > 0.0
    ensures n <= MAX_BATCH
    ensures maxThumbnails.Some? ==> n <= maxThumbnails.value
    ensures n >= 1 <==> maxThumbnails.None? || maxThumbnails.value >= 1
  {
    var raw := RawCount(duration, interval);
    var atLeastOne := if raw == 0 then 1 else raw;
    var capped := if maxThumbnails.Some? then Min(atLeastOne, maxThumbnails.value) else atLeastOne;
    Min(capped, MAX_BATCH)
  }

  function Timestamp(i: int, interval: real): real {
    i as real * interval
  }

  /** The first index from `from` below `count` whose timestamp reaches the
      duration, or `count`: where the loop's `break` ends it. */
  function StopIndex(count: nat, interval: real, duration: real, from: nat): (s: nat)
    requires from <= count
    ensures from <= s <= count
    ensures forall i :: from <= i < s ==> Timestamp(i, interval) < duration
    ensures s < count ==> Timestamp(s, interval) >= duration
    decreases count - from
  {
    if from == count then count
    else if Timestamp(from, interval) >= duration then from
    else StopIndex(count, interval, duration, from + 1)
  }

  /** The timestamps the loop tries, in order. */
  function Tried(count: nat, interval: real, duration: real): (ts: seq<real>)
    ensures |ts| <= count
    ensures forall i :: 0 <= i < |ts| ==> ts[i] == Timestamp(i, interval) < duration
  {
    seq(StopIndex(count, interval, duration, 0), i => Timestamp(i, interval))
  }

  /** What extracting at each of the timestamps `ts` gives. */
  function ExtractAt(ts: seq<real>, quality: nat, file: MediaFile, codec: ImageCodec,
                     showSecs: real -> string): (rs: seq<Result<string, VideoError>>)
    ensures |rs| == |ts|
  {
    seq(|ts|, k requires 0 <= k < |ts| => ExtractOutcome(ts[k], quality, file, codec, showSecs))
  }

  /** The successful results, in order. */
  function Oks(rs: seq<Result<string, VideoError>>): seq<string>
    decreases |rs|
  {
    if rs == [] then []
    else
      var rest := Oks(rs[..|rs| - 1]);
      if rs[|rs| - 1].Ok? then rest + [rs[|rs| - 1].value] else rest
  }

  /** The warning logged for a failed extraction. */
  function Warning(secs: real, e: VideoError, showSecs: real -> string): string {
    "Warning: Failed to extract frame at " + showSecs(secs) + ": " + Display(e)
  }

  /** The warnings logged for the failed results, in order. */
  function Warnings(ts: seq<real>, rs: seq<Result<string, VideoError>>, showSecs: real -> string): seq<string>
    requires |ts| == |rs|
    decreases |rs|
  {
    if rs == [] then []
    else
      var n := |rs| - 1;
      var rest := Warnings(ts[..n], rs[..n], showSecs);
      if rs[n].Err? then rest + [Warning(ts[n], rs[n].error, showSecs)] else rest
  }

  /** One more attempt of the extraction loop. */
  lemma BatchStep(ts: seq<real>, rs: seq<Result<string, VideoError>>, i: nat, showSecs: real -> string)
    requires |ts| == |rs| && i < |rs|
    ensures Oks(rs[..i + 1]) == if rs[i].Ok? then Oks(rs[..i]) + [rs[i].value] else Oks(rs[..i])
    ensures Warnings(ts[..i + 1], rs[..i + 1], showSecs)
         == if rs[i].Err? then Warnings(ts[..i], rs[..i], showSecs) + [Warning(ts[i], rs[i].error, showSecs)]
            else Warnings(ts[..i], rs[..i], showSecs)
  {
    assert rs[..i + 1][..i] == rs[..i] && ts[..i + 1][..i] == ts[..i];
  }

  /** The extraction loop: one attempt per index below `count`, stopping at
      the first timestamp at or past the duration; successes are kept and
      failures logged. */
  method ExtractBatch(count: nat, interval: real, duration: real, quality: nat, file: MediaFile,
                      codec: ImageCodec, showSecs: real -> string)
    returns (thumbnails: seq<string>, warnings: seq<string>)
    ensures var ts := Tried(count, interval, duration);
      var rs := ExtractAt(ts, quality, file, codec, showSecs);
      thumbnails == Oks(rs) && warnings == Warnings(ts, rs, showSecs)
  {
    ghost var ts := Tried(count, interval, duration);
    ghost var rs := ExtractAt(ts, quality, file, codec, showSecs);
    ghost var stop := StopIndex(count, interval, duration, 0);
    thumbnails, warnings := [], [];
    var i := 0;
    while i < count
      invariant 0 <= i <= stop
      invariant thumbnails == Oks(rs[..i])
      invariant warnings == Warnings(ts[..i], rs[..i], showSecs)
      decreases count - i
    {
      var timestamp := Timestamp(i, interval);
      if timestamp >= duration {
        break;
      }
      assert i < stop;
      BatchStep(ts, rs, i, showSecs);
      assert ts[i] == timestamp;
      var frame := ExtractFrame(timestamp, quality, file, codec, showSecs);
      assert frame == rs[i];
      match frame {
        case Ok(f) => thumbnails := thumbnails + [f];
        case Err(e) => warnings := warnings + [Warning(timestamp, e, showSecs)];
      }
      i := i + 1;
    }
    assert i == stop;
    assert rs[..i] == rs && ts[..i] == ts;
  }

  /** The batch outcome: probe errors pass through; a non-positive duration is
      ZERO_DURATION before anything is extracted; an empty batch is
      NO_THUMBNAILS. */
  function ThumbnailsOutcome(path: string, interval: real, quality: nat, maxThumbnails: Option<nat>,
                             file: MediaFile, codec: ImageCodec, showSecs: real -> string)
    : Result<seq<string>, VideoError>
  {
    match GetVideoInfo(path, file.open)
    case Err(e) => Err(e)
    case Ok(info) =>
      if info.durationSecs <= 0.0 then
        Err(VideoError("Cannot generate thumbnails for video with zero duration", ZERO_DURATION))
      else
        var ts := Tried(ThumbnailCount(info.durationSecs, interval, maxThumbnails), interval, info.durationSecs);
        var frames := Oks(ExtractAt(ts, quality, file, codec, showSecs));
        if frames == [] then Err(VideoError("Failed to generate any thumbnails", NO_THUMBNAILS))
        else Ok(frames)
  }

  /** The warnings a batch logs: one per failed extraction, none when no
      extraction is attempted. */
  function BatchWarnings(path: string, interval: real, quality: nat, maxThumbnails: Option<nat>,
                         file: MediaFile, codec: ImageCodec, showSecs: real -> string): seq<string>
  {
    match GetVideoInfo(path, file.open)
    case Err(_) => []
    case Ok(info) =>
      if info.durationSecs <= 0.0 then []
      else
        var ts := Tried(ThumbnailCount(info.durationSecs, interval, maxThumbnails), interval, info.durationSecs);
        Warnings(ts, ExtractAt(ts, quality, file, codec, showSecs), showSecs)
  }

  /** `generate_thumbnails_with_options`, with its loop; `warnings` are the
      lines written to the error log. */
  method GenerateThumbnails(path: string, interval: real, quality: nat, maxThumbnails: Option<nat>,
                            file: MediaFile, codec: ImageCodec, showSecs: real -> string)
    returns (r: Result<seq<string>, VideoError>, warnings: seq<string>)
    ensures r == ThumbnailsOutcome(path, interval, quality, maxThumbnails, file, codec, showSecs)
    ensures warnings == BatchWarnings(path, interval, quality, maxThumbnails, file, codec, showSecs)
  {
    warnings := [];
    var info := GetVideoInfo(path, file.open);
    if info.Err? {
      return Err(info.error), warnings;
    }
    var duration := info.value.durationSecs;
    if duration <= 0.0 {
      return Err(VideoError("Cannot generate thumbnails for video with zero duration", ZERO_DURATION)), warnings;
    }
    var count := RawCount(duration, interval);
    if count == 0 {
      count := 1;
    }
    if maxThumbnails.Some? {
      count := Min(count, maxThumbnails.value);
    }
    count := Min(count, MAX_BATCH);
    var thumbnails;
    thumbnails, warnings := ExtractBatch(count, interval, duration, quality, file, codec, showSecs);
    if thumbnails == [] {
      return Err(VideoError("Failed to generate any thumbnails", NO_THUMBNAILS)), warnings;
    }
    r := Ok(thumbnails);
  }

  /** `generate_thumbnails`: quality 60, no maximum besides the cap. */
  method GenerateThumbnailsDefault(path: string, interval: real, file: MediaFile, codec: ImageCodec,
                                   showSecs: real -> string)
    returns (r: Result<seq<string>, VideoError>, warnings: seq<string>)
    ensures r == ThumbnailsOutcome(path, interval, BATCH_QUALITY, None, file, codec, showSecs)
    ensures warnings == BatchWarnings(path, interval, BATCH_QUALITY, None, file, codec, showSecs)
  {
    r, warnings := GenerateThumbnails(path, interval, BATCH_QUALITY, None, file, codec, showSecs);
  }

  /** `f64::clamp(x, 0.0, 1.0)`. */
  function ClampUnit(x: real): (c: real)
    ensures 0.0 <= c <= 1.0
    ensures 0.0 <= x <= 1.0 ==> c == x
    ensures x < 0.0 ==> c == 0.0
    ensures x > 1.0 ==> c == 1.0
  {
    if x < 0.0 then 0.0 else if x > 1.0 then 1.0 else x
  }

  /** The timestamp `percent` per cent of the way into the video. */
  function PercentTimestamp(duration: real, percent: real): real {
    duration * ClampUnit(percent / 100.0)
  }

  /** The percent timestamp never leaves the video: it lies between 0 and the
      duration, is proportional inside 0 to 100 per cent, and is clamped to
      the start or the end outside it. */
  lemma PercentTimestampInside(duration: real, percent: real)
    requires duration >= 0.0
    ensures 0.0 <= PercentTimestamp(duration, percent) <= duration
    ensures 0.0 <= percent <= 100.0 ==> PercentTimestamp(duration, percent) == duration * percent / 100.0
    ensures percent <= 0.0 ==> PercentTimestamp(duration, percent) == 0.0
    ensures percent >= 100.0 ==> PercentTimestamp(duration, percent) == duration
  {
    var c := ClampUnit(percent / 100.0);
    assert duration * c <= duration * 1.0;
  }

  /** The outcome of `get_thumbnail_at_percent`: probe errors pass through,
      then the frame at the percent timestamp at quality 70. */
  function ThumbnailAtPercentOutcome(path: string, percent: real, file: MediaFile, codec: ImageCodec,
                                     showSecs: real -> string): Result<string, VideoError>
  {
    match GetVideoInfo(path, file.open)
    case Err(e) => Err(e)
    case Ok(info) =>
      ExtractOutcome(PercentTimestamp(info.durationSecs, percent), PERCENT_QUALITY, file, codec, showSecs)
  }

  /** `get_thumbnail_at_percent`. */
  method ThumbnailAtPercent(path: string, percent: real, file: MediaFile, codec: ImageCodec,
                            showSecs: real -> string)
    returns (r: Result<string, VideoError>)
    ensures r == ThumbnailAtPercentOutcome(path, percent, file, codec, showSecs)
  {
    var info := GetVideoInfo(path, file.open);
    if info.Err? {
      return Err(info.error);
    }
    var timestamp := info.value.durationSecs * ClampUnit(percent / 100.0);
    r := ExtractFrame(timestamp, PERCENT_QUALITY, file, codec, showSecs);
  }
}
