/** Properties of the thumbnail batch: how many timestamps it tries and
    where they lie, how the results are collected, and when it fails. */
module ThumbnailFacts {
  import opened Wrappers
  import opened Media
  import opened VideoErrors
  import opened Probe
  import opened FrameEncode
  import opened Extract
  import opened Thumbnails

  /** The count for a few durations and intervals: 10 s every 3 s gives 4;
      1000 s every second is capped at 100; a zero interval saturates and is
      capped at 100; a negative interval gives 0, raised to 1; a maximum of 2
      wins over 10. */
  lemma CountExamples()
    ensures ThumbnailCount(10.0, 3.0, None) == 4
    ensures ThumbnailCount(1000.0, 1.0, None) == 100
    ensures ThumbnailCount(5.0, 0.0, None) == 100
    ensures ThumbnailCount(5.0, -1.0, None) == 1
    ensures ThumbnailCount(10.0, 1.0, Some(2)) == 2
  {
    assert Ceil(10.0 / 3.0) == 4;
    assert Ceil(1000.0 / 1.0) == 1000;
    assert Ceil(10.0 / 1.0) == 10;
  }

  /** A whole index below the ratio `duration / interval` gives a timestamp
      before the end. */
  lemma BelowRatio(i: int, duration: real, interval: real)
    requires interval > 0.0 && (i as real) < duration / interval
    ensures Timestamp(i, interval) < duration
  {
    assert (duration / interval) * interval == duration;
    assert (i as real) * interval < (duration / interval) * interval;
  }

  /** In exact real arithmetic, every index below the count gives a timestamp
      before the end of a video with a positive duration. (In `f64` the
      rounded product `i * interval` can reach the rounded duration first.) */
  lemma TimestampsBeforeEnd(duration: real, interval: real, maxThumbnails: Option<nat>, i: nat)
    requires duration > 0.0 && i < ThumbnailCount(duration, interval, maxThumbnails)
    ensures Timestamp(i, interval) < duration
  {
    if interval > 0.0 {
      var c := Ceil(duration / interval);
      assert c >= 1;
      assert RawCount(duration, interval) <= c;
      assert i < c;
      BelowRatio(i, duration, interval);
    } else {
      assert (i as real) * interval <= 0.0;
    }
  }

  /** In exact real arithmetic, for a positive duration the loop's `break`
      never fires: every one of the `count` timestamps is tried, and they are
      `0, interval, 2 * interval, …`. */
  lemma BreakNeverFires(duration: real, interval: real, maxThumbnails: Option<nat>)
    requires duration > 0.0
    ensures var n := ThumbnailCount(duration, interval, maxThumbnails);
      && StopIndex(n, interval, duration, 0) == n
      && Tried(n, interval, duration) == seq(n, i => Timestamp(i, interval))
  {
    var n := ThumbnailCount(duration, interval, maxThumbnails);
    var s := StopIndex(n, interval, duration, 0);
    if s < n {
      TimestampsBeforeEnd(duration, interval, maxThumbnails, s);
      assert false;
    }
  }

  /** With a positive interval and no cap reached, the timestamps cover the
      video: one more step would reach or pass its end. */
  lemma TimestampsCoverVideo(duration: real, interval: real, maxThumbnails: Option<nat>)
    requires duration > 0.0 && interval > 0.0
    requires var n := ThumbnailCount(duration, interval, maxThumbnails);
      n < MAX_BATCH && (maxThumbnails.None? || n < maxThumbnails.value)
    ensures Timestamp(ThumbnailCount(duration, interval, maxThumbnails), interval) >= duration
  {
    var n := ThumbnailCount(duration, interval, maxThumbnails);
    var c := Ceil(duration / interval);
    assert n == c;
    assert (n as real) >= duration / interval;
    assert (n as real) * interval >= (duration / interval) * interval;
  }

  /** Collecting successes preserves the order of the attempts: the results of
      two runs of attempts one after the other are the results of each run,
      concatenated. */
  lemma {:induction false} OksAppend(a: seq<Result<string, VideoError>>, b: seq<Result<string, VideoError>>)
    ensures Oks(a + b) == Oks(a) + Oks(b)
    decreases |b|
  {
    if b == [] {
      assert a + b == a;
    } else {
      var b' := b[..|b| - 1];
      assert (a + b)[..|a + b| - 1] == a + b';
      OksAppend(a, b');
    }
  }

  /** No thumbnail is collected exactly when every attempt fails. */
  lemma {:induction false} OksEmptyIffAllFail(rs: seq<Result<string, VideoError>>)
    ensures Oks(rs) == [] <==> forall k :: 0 <= k < |rs| ==> rs[k].Err?
    decreases |rs|
  {
    if rs != [] {
      var init := rs[..|rs| - 1];
      OksEmptyIffAllFail(init);
      assert forall k :: 0 <= k < |init| ==> init[k] == rs[k];
    }
  }

  /** There are no more thumbnails than attempts. */
  lemma {:induction false} OksLength(rs: seq<Result<string, VideoError>>)
    ensures |Oks(rs)| <= |rs|
    decreases |rs|
  {
    if rs != [] {
      OksLength(rs[..|rs| - 1]);
    }
  }

  /** Every attempt either adds a thumbnail or logs a warning, never both. */
  lemma {:induction false} AttemptsAccounted(ts: seq<real>, rs: seq<Result<string, VideoError>>, showSecs: real -> string)
    requires |ts| == |rs|
    ensures |Oks(rs)| + |Warnings(ts, rs, showSecs)| == |rs|
    decreases |rs|
  {
    if rs != [] {
      AttemptsAccounted(ts[..|rs| - 1], rs[..|rs| - 1], showSecs);
    }
  }

  /** The error codes `get_video_info` can give. */
  lemma ProbeErrorCodes(path: string, open: Result<Container, string>)
    ensures var info := GetVideoInfo(path, open);
      info.Err? ==> info.error.code in {OPEN_ERROR, NO_VIDEO_STREAM, CODEC_ERROR, DECODER_ERROR}
  {
  }

  /** Probe errors pass through unchanged with nothing logged, and the batch
      fails with ZERO_DURATION exactly when the probe succeeds with a
      duration that is not positive, in which case nothing is extracted. */
  lemma ThumbnailsEarlyErrors(path: string, interval: real, quality: nat, maxThumbnails: Option<nat>,
                              file: MediaFile, codec: ImageCodec, showSecs: real -> string)
    ensures var info := GetVideoInfo(path, file.open);
      var r := ThumbnailsOutcome(path, interval, quality, maxThumbnails, file, codec, showSecs);
      var w := BatchWarnings(path, interval, quality, maxThumbnails, file, codec, showSecs);
      && (info.Err? ==> r == Err(info.error) && w == [])
      && (r.Err? && r.error.code == ZERO_DURATION <==> info.Ok? && info.value.durationSecs <= 0.0)
      && (info.Ok? && info.value.durationSecs <= 0.0 ==> w == [])
  {
    ProbeErrorCodes(path, file.open);
    assert ZERO_DURATION != NO_THUMBNAILS;
  }

  /** In exact real arithmetic, for a positive duration the batch is decided by
      the extractions at `i * interval` for every `i` below the count. */
  lemma PositiveOutcome(path: string, interval: real, quality: nat, maxThumbnails: Option<nat>,
                        file: MediaFile, codec: ImageCodec, showSecs: real -> string)
    requires GetVideoInfo(path, file.open).Ok? && GetVideoInfo(path, file.open).value.durationSecs > 0.0
    ensures var n := ThumbnailCount(GetVideoInfo(path, file.open).value.durationSecs, interval, maxThumbnails);
      var oks := Oks(ExtractAt(seq(n, i => Timestamp(i, interval)), quality, file, codec, showSecs));
      ThumbnailsOutcome(path, interval, quality, maxThumbnails, file, codec, showSecs)
        == if oks == [] then Err(VideoError("Failed to generate any thumbnails", NO_THUMBNAILS)) else Ok(oks)
  {
    var d := GetVideoInfo(path, file.open).value.durationSecs;
    BreakNeverFires(d, interval, maxThumbnails);
  }

  /** For a positive duration the batch tries the frames at `i * interval` for
      every `i` below the count, and fails with NO_THUMBNAILS exactly when each
      of those extractions fails. */
  lemma NoThumbnailsIffAllFail(path: string, interval: real, quality: nat, maxThumbnails: Option<nat>,
                               file: MediaFile, codec: ImageCodec, showSecs: real -> string)
    requires GetVideoInfo(path, file.open).Ok? && GetVideoInfo(path, file.open).value.durationSecs > 0.0
    ensures var n := ThumbnailCount(GetVideoInfo(path, file.open).value.durationSecs, interval, maxThumbnails);
      ThumbnailsOutcome(path, interval, quality, maxThumbnails, file, codec, showSecs)
        == Err(VideoError("Failed to generate any thumbnails", NO_THUMBNAILS))
      <==> forall i :: 0 <= i < n ==> ExtractOutcome(Timestamp(i, interval), quality, file, codec, showSecs).Err?
  {
    var d := GetVideoInfo(path, file.open).value.durationSecs;
    var n := ThumbnailCount(d, interval, maxThumbnails);
    PositiveOutcome(path, interval, quality, maxThumbnails, file, codec, showSecs);
    var rs := ExtractAt(seq(n, i => Timestamp(i, interval)), quality, file, codec, showSecs);
    OksEmptyIffAllFail(rs);
    forall i | 0 <= i < n
      ensures rs[i] == ExtractOutcome(Timestamp(i, interval), quality, file, codec, showSecs)
    {
    }
  }

  /** Otherwise the batch returns the successful frames among those attempts,
      in order, at least one and at most the count, and logs one warning for
      each failure. */
  lemma ThumbnailsFromAttempts(path: string, interval: real, quality: nat, maxThumbnails: Option<nat>,
                               file: MediaFile, codec: ImageCodec, showSecs: real -> string)
    requires GetVideoInfo(path, file.open).Ok? && GetVideoInfo(path, file.open).value.durationSecs > 0.0
    ensures var n := ThumbnailCount(GetVideoInfo(path, file.open).value.durationSecs, interval, maxThumbnails);
      var rs := ExtractAt(seq(n, i => Timestamp(i, interval)), quality, file, codec, showSecs);
      var r := ThumbnailsOutcome(path, interval, quality, maxThumbnails, file, codec, showSecs);
      && (r.Ok? ==> r.value == Oks(rs) && 1 <= |r.value| <= n)
      && |Oks(rs)| + |BatchWarnings(path, interval, quality, maxThumbnails, file, codec, showSecs)| == n
  {
    var d := GetVideoInfo(path, file.open).value.durationSecs;
    var n := ThumbnailCount(d, interval, maxThumbnails);
    BreakNeverFires(d, interval, maxThumbnails);
    var ts := seq(n, i => Timestamp(i, interval));
    var rs := ExtractAt(ts, quality, file, codec, showSecs);
    AttemptsAccounted(ts, rs, showSecs);
    OksLength(rs);
  }
}
