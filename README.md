# Video frame engine and melt runner, modelled in Dafny

This project models two files of a desktop video editor's native backend.

- `src-tauri/src/video_decoder.rs`, the frame-extraction engine. It covers:
  - what `get_video_info` derives from the container (frame rate, duration, frame count, bit rate, codec name);
  - the handle registry behind `open_video` and `close_video`;
  - the seek-and-select scan of `get_frame_at_time_with_quality`, which picks the decoded frame closest to a target timestamp;
  - the strided row copy and encoding in `encode_frame_as_base64_jpeg`;
  - the thumbnail batch `generate_thumbnails_with_options` and `get_thumbnail_at_percent`;
  - `VideoError` and its `Display`.
- `src-tauri/src/melt_runner.rs`, the wrapper around the `melt` command-line renderer. It covers:
  - how `find_melt` searches its candidate paths;
  - the argument list `run_melt_render` builds;
  - the `active_jobs` map with its cancellation flags (`run_melt_render`, `cancel_melt_render`);
  - how exit statuses become `RenderResult`, `ValidateResult`, `MeltCheckResult` and `MeltRawResult`.

The libraries the sources call are inputs to the model:

- **FFmpeg.** A `MediaFile` value holds what opening the file gives, and what each seek request gives. A seek yields the packets read after it (stream index, pts, `send_packet` error, the frames decoded from the packet), then the flush (`send_eof` error, the frames drained).
- **JPEG and base64 encoders.** These are function fields of `ImageCodec`.
- **Child processes.** A `Runner` function maps a program and its arguments to the process's output, or to the reason it could not be started.
- **Other outcomes.** The file-system check, the temp directory, the XML writes and lock poisoning enter as plain parameters.

Code that only computes a value is written as functions with lemmas. Code that loops or mutates is written as methods proved against those functions:

- `FrameSelect.ForwardPass`: the packet loop with its early return and safety break.
- `FrameSelect.Drain`, `FlushCandidate` and `FlushClosest`: the receive loops.
- `FrameEncode.PackRows`: the row copy.
- `Thumbnails.ExtractBatch`: the batch loop with its `break`.
- `MeltLocate.FindMelt`: the candidate loop.
- `MeltCommand.BuildRenderArgs`: the successive `arg` calls.
- The two registries are classes with a map field: `Handles.HandleRegistry` and `MeltJobs.MeltState`.

`get_frame_at_time_with_quality` differs from a plain closest-frame search in one place. The flush loop (video_decoder.rs:369-376) replaces the candidate whenever a flushed frame is closer than the difference held *before* the flush, but it never lowers that difference. The last such frame therefore wins, not the closest one.

The forward pass right above it (video_decoder.rs:344-349) runs a strict-improvement scan: it replaces the candidate on a smaller difference *and* lowers `closest_diff`. The flush repeats the comparison but drops the second assignment, so it evidently means to continue that scan. The model follows the code, and the difference is recorded under "## Findings":

- `FrameSelect.Select` and `SeekAndSelect` model the flush as written. Extraction (`Extract.ExtractFrame`) and everything built on it, the thumbnails included, use them.
- `FrameSelect.SelectCorrected` and `SeekAndSelectCorrected` model the intended flush, for comparison only.

Two properties that are easy to miss are proved:

- In the model's exact real arithmetic, the `break` of the thumbnail loop can never fire for a positive duration (`ThumbnailFacts.BreakNeverFires`). In `f64` it can, because of rounding (see "## Left out").
- A render's cancellation flag is set but never read: a render cancelled midway reports exactly what melt's exit status says (`MeltJobs.MeltState.RenderCancelledMidway`).

## Model

| member | source | states |
|---|---|---|
| VideoErrors.Display | src-tauri/src/video_decoder.rs:53-57 | the `Display` text: the code, `": "`, then the message (properties in DisplayStartsWithCode and DisplayInjective) |
| VideoErrors.FromFfmpeg | src-tauri/src/video_decoder.rs:61-68 | a library error keeps its text as the message under FFMPEG_ERROR |
| VideoErrors.DisplayStartsWithCode | src-tauri/src/video_decoder.rs:53-57 | the displayed error is the code, then `": "`, then the message |
| VideoErrors.DisplayExample | src-tauri/src/video_decoder.rs:53-57 | `TEST_CODE` with "Test error" displays as `TEST_CODE: Test error` |
| VideoErrors.DisplayInjective | src-tauri/src/video_decoder.rs:53-57 | for codes without a colon, the displayed text determines both code and message |
| Text.Utf8Length | src-tauri/src/video_decoder.rs:207 | `path.len()` counts UTF-8 bytes: between one and four per character, and one per character exactly for ASCII paths |
| Probe.DeriveFps | src-tauri/src/video_decoder.rs:117-129 | the frame rate: the average rate if its denominator is non-zero, else the real rate under the same test, else 30 (properties in the Fps lemmas) |
| Probe.FpsPrefersAverageRate | src-tauri/src/video_decoder.rs:118-120 | a usable average frame rate decides the fps alone: the real rate is never consulted |
| Probe.FpsFallsBackToRealRate | src-tauri/src/video_decoder.rs:121-125 | with a zero average denominator and a usable real rate, fps is the real rate |
| Probe.FpsDefault | src-tauri/src/video_decoder.rs:126-128 | with both denominators zero, fps is exactly 30 |
| Probe.FpsPositive | src-tauri/src/video_decoder.rs:118-129 | rates with positive numerator and denominator give a positive fps |
| Probe.DeriveDuration | src-tauri/src/video_decoder.rs:131-143 | the duration in seconds: the container's, else the stream's scaled by its time base, else 0 (properties in the Duration lemmas) |
| Probe.DurationPrefersContainer | src-tauri/src/video_decoder.rs:132-133 | a positive container duration decides alone and is that duration over AV_TIME_BASE |
| Probe.DurationFromStream | src-tauri/src/video_decoder.rs:134-139 | otherwise a positive stream duration with a usable time base gives duration × time base |
| Probe.DurationNonNegative | src-tauri/src/video_decoder.rs:132-143 | the duration is never negative, and it is 0 when neither source is positive |
| Probe.RoundHalfAway | src-tauri/src/video_decoder.rs:149 | `f64::round` lands within half a unit, and halves go away from zero |
| Probe.EstimateFrameCount | src-tauri/src/video_decoder.rs:145-150 | the stream's count if positive, else the rounded duration × fps, with a negative estimate cast to 0 |
| Probe.FrameCountEstimate | src-tauri/src/video_decoder.rs:146-150 | a positive stream frame count is kept; otherwise the estimate is within half a frame of duration × fps |
| Probe.DeriveBitrate | src-tauri/src/video_decoder.rs:159-163 | the bit rate is present exactly when the container's is positive, and then equals it |
| Probe.GetVideoInfo | src-tauri/src/video_decoder.rs:88-174 | info is returned exactly when the file opens, has a video stream and a decoder; each failure has its code (OPEN_ERROR, NO_VIDEO_STREAM, CODEC_ERROR, DECODER_ERROR) |
| Handles.HandleId | src-tauri/src/video_decoder.rs:207 | `video_<uuid>_<byte length of the path>` (partner: HandleIdDeterminesToken) |
| Handles.HandleIdDeterminesToken | src-tauri/src/video_decoder.rs:207 | two ids from same-length tokens are equal only if the tokens and the paths' byte lengths are |
| Handles.PrepareHandle | src-tauri/src/video_decoder.rs:177-204 | a missing file is FILE_NOT_FOUND before any probing; probe errors pass through; success snapshots the path, info, stream index and time base |
| Handles.HandleRegistry.constructor | src-tauri/src/video_decoder.rs:42-44 | the registry starts empty |
| Handles.HandleRegistry.Open | src-tauri/src/video_decoder.rs:177-217 | on success exactly one id is added and every other entry is unchanged; on any error the map is unchanged |
| Handles.HandleRegistry.Close | src-tauri/src/video_decoder.rs:220-228 | removes only that id; an unknown id is Ok and changes nothing; a poisoned lock is LOCK_ERROR |
| Handles.OpenTwiceCloseOnce | src-tauri/src/video_decoder.rs:177-228 | two opens with distinct tokens give distinct ids; closing the first leaves exactly the second; closing it again is still Ok |
| FrameSelect.ScanFindsClosest | src-tauri/src/video_decoder.rs:342-349 | the strict-improvement scan holds no frame iff no difference is below `i64::MAX`; otherwise it holds the least-difference frame, the earliest on ties |
| FrameSelect.ScanFromAppend | src-tauri/src/video_decoder.rs:342-349 | scanning two runs of frames one after the other is scanning their concatenation |
| FrameSelect.FirstExit | src-tauri/src/video_decoder.rs:351-355 | the index of the first frame at or past the target with a candidate held, and no such frame before it |
| FrameSelect.ForwardOutcome | src-tauri/src/video_decoder.rs:331-364 | the packet loop's outcome: the closest frame so far at the first exit, else the decoder error, else the candidate over the whole pass |
| FrameSelect.Select | src-tauri/src/video_decoder.rs:331-386 | the selection as written: the forward outcome, then a `send_eof` error, then the last flushed frame below the pre-flush difference (as-written half of the finding) |
| FrameSelect.SelectCorrected | src-tauri/src/video_decoder.rs:331-386 | the selection with the flush continuing the strict-improvement scan (corrected half of the finding) |
| FrameSelect.ForwardPass | src-tauri/src/video_decoder.rs:331-364 | the packet loop computes ForwardOutcome: early return, decoder error, or the candidate it holds |
| FrameSelect.Drain | src-tauri/src/video_decoder.rs:341-356 | the receive loop keeps the candidate equal to the scan of all frames seen, and stops exactly at the first frame at or past the target |
| FrameSelect.SeekAndSelect | src-tauri/src/video_decoder.rs:331-376 | the scan with the flush as written computes Select |
| FrameSelect.FlushCandidate | src-tauri/src/video_decoder.rs:367-376 | the flush as written keeps the last flushed frame below the pre-flush difference |
| FrameSelect.SeekAndSelectCorrected | src-tauri/src/video_decoder.rs:331-376 | the scan with the flush continuing the strict-improvement scan computes SelectCorrected |
| FrameSelect.FlushClosest | src-tauri/src/video_decoder.rs:367-376 | the corrected flush loop continues the scan from the held candidate |
| SelectFacts.FirstExitIsFirstReach | src-tauri/src/video_decoder.rs:351-355 | when differences fit, the early return happens exactly at the first frame whose pts reaches the target |
| SelectFacts.ReturnsClosestAtFirstReach | src-tauri/src/video_decoder.rs:342-355 | the call returns at the first frame at or past the target, and returns the closest frame among all decoded so far, that one included |
| SelectFacts.ForwardFramesArePrefix | src-tauri/src/video_decoder.rs:334-339 | the frames the pass decodes are a prefix of the selected stream's frames, in order |
| SelectFacts.OtherStreamIgnored | src-tauri/src/video_decoder.rs:335-337 | a packet of another stream changes nothing |
| SelectFacts.HorizonEndsPass | src-tauri/src/video_decoder.rs:359-363 | a decoded packet whose pts is past target + 2 × time-base denominator ends the pass |
| SelectFacts.NoPtsNeverStops | src-tauri/src/video_decoder.rs:359-363 | packets without pts never trigger the safety bound |
| SelectFacts.SelectErrors | src-tauri/src/video_decoder.rs:339-367 | a decoder error is the outcome iff there is no early return and `send_packet` or `send_eof` failed |
| SelectFacts.NoFrameIffNothingDecoded | src-tauri/src/video_decoder.rs:379-386 | with the flush as written, no frame is found iff nothing was decoded before or during the flush |
| SelectFacts.NoFrameIffNothingDecodedCorrected | src-tauri/src/video_decoder.rs:379-386 | the same for the corrected flush |
| SelectFacts.CorrectedFlushIsClosest | src-tauri/src/video_decoder.rs:366-376 | the corrected flush picks the closest frame among all frames of the pass and the flush |
| SelectFacts.FlushKeepsLastNotClosest | src-tauri/src/video_decoder.rs:369-376 | flushed frames at pts 0 and 5 for target 0: as written pts 5 is picked, corrected pts 0 |
| FrameEncode.PackedLength | src-tauri/src/video_decoder.rs:262-267 | the packed buffer holds exactly 3 × width × height bytes |
| FrameEncode.PackedRow | src-tauri/src/video_decoder.rs:263-266 | packed row y is `data[y*stride .. y*stride + 3*width]` |
| FrameEncode.PackedIgnoresPadding | src-tauri/src/video_decoder.rs:263-266 | padding bytes beyond each row are never copied |
| FrameEncode.PackRows | src-tauri/src/video_decoder.rs:262-267 | the copy loop builds the packed buffer, every slice in bounds for a plane whose rows fit |
| FrameEncode.FromRaw | src-tauri/src/video_decoder.rs:270-273 | the image exists iff the buffer holds at least 3 × width × height bytes |
| FrameEncode.PlaneImageRows | src-tauri/src/video_decoder.rs:262-273 | a converted plane always gives an image of the frame's size whose rows are the plane's rows |
| FrameEncode.EncodeOutcome | src-tauri/src/video_decoder.rs:231-287 | the encoding's result: scaler construction and scaling errors, then the packed RGB image, JPEG then base64 (partners: EncodeOutcomes, EncodeErrorCodes) |
| FrameEncode.EncodeOutcomes | src-tauri/src/video_decoder.rs:231-287 | scaler errors come first; a converted frame never fails with IMAGE_ERROR and is JPEG-encoded then base64-encoded |
| FrameEncode.EncodeErrorCodes | src-tauri/src/video_decoder.rs:245-283 | every encoding error is SCALER_ERROR, SCALE_ERROR or JPEG_ENCODE_ERROR, each iff its step fails |
| FrameEncode.EncodeFrame | src-tauri/src/video_decoder.rs:231-287 | the encoder computes EncodeOutcome |
| Extract.ToI64 | src-tauri/src/video_decoder.rs:319-320 | an `f64 as i64` cast stays in the i64 range, truncates toward zero, and is off the exact truncation only when it saturates at a bound |
| Extract.TargetTicks | src-tauri/src/video_decoder.rs:319-320 | the target tick is always in the i64 range, a zero numerator included |
| Extract.TargetTicksTruncates | src-tauri/src/video_decoder.rs:319-320 | the target tick is seconds × den / num, truncated toward zero |
| Extract.TargetTicksExample | src-tauri/src/video_decoder.rs:319-360 | 2 s and 2.5 s on a 1/1000 time base are 2000 and 2500 ticks; the horizon of 2000 is 4000; a zero numerator saturates |
| Extract.HorizonIsTwoSeconds | src-tauri/src/video_decoder.rs:360 | for a 1/den time base the safety horizon lies two seconds past the target |
| Extract.SeekFallback | src-tauri/src/video_decoder.rs:323-328 | the seek is to whole seconds in microseconds, bounded one second later, and falls back to the start on failure |
| Extract.ExtractOutcomes | src-tauri/src/video_decoder.rs:295-386 | open failures keep the library text under FFMPEG_ERROR, a missing stream is NO_VIDEO_STREAM, decoder failures FFMPEG_ERROR; every error code is one of the six the extraction can raise (never IMAGE_ERROR); a frame is returned only when the decoder opened, the seek worked and the as-written selection picked a frame |
| Extract.FrameNotFoundIff | src-tauri/src/video_decoder.rs:379-386 | FRAME_NOT_FOUND iff the decoder opens, the seek works and the scan ends with no frame |
| Extract.SelectAndEncode | src-tauri/src/video_decoder.rs:319-386 | once the decoder exists: seek failures are FFMPEG_ERROR, the as-written selection runs to the horizon, no frame is FRAME_NOT_FOUND with the shown timestamp, a picked frame is encoded (partners: ExtractOutcomes, FrameNotFoundIff) |
| Extract.ExtractOutcome | src-tauri/src/video_decoder.rs:295-386 | the extraction's result: open, stream and decoder errors, then seek, the as-written selection and encoding (partners: ExtractOutcomes, FrameNotFoundIff) |
| Extract.ExtractFrame | src-tauri/src/video_decoder.rs:295-386 | the extraction, with the as-written scan and flush, computes ExtractOutcome |
| Extract.GetFrameAtTime | src-tauri/src/video_decoder.rs:290-292 | quality 85 |
| Extract.GetFirstFrame | src-tauri/src/video_decoder.rs:459-461 | time 0 at quality 85 |
| Thumbnails.RawCount | src-tauri/src/video_decoder.rs:411 | `(duration / interval).ceil() as usize`: the rounded-up ratio, with an infinite ratio saturating and a negative one giving 0 |
| Thumbnails.ThumbnailCount | src-tauri/src/video_decoder.rs:411-422 | the count is at most 100; at most the maximum when one is given; and at least 1 exactly when no maximum of 0 is given |
| Thumbnails.StopIndex | src-tauri/src/video_decoder.rs:426-430 | the loop stops before the first timestamp at or past the duration |
| Thumbnails.Tried | src-tauri/src/video_decoder.rs:426-430 | at most `count` timestamps are tried, the i-th at `i × interval` and before the end |
| Thumbnails.ExtractBatch | src-tauri/src/video_decoder.rs:424-439 | the loop keeps the successes in order and logs one warning per failure, over the timestamps it tries |
| Thumbnails.ThumbnailsOutcome | src-tauri/src/video_decoder.rs:395-449 | the batch's result: probe error, ZERO_DURATION, NO_THUMBNAILS, or the successes in order (partners: the ThumbnailFacts lemmas) |
| Thumbnails.GenerateThumbnails | src-tauri/src/video_decoder.rs:395-449 | the batch computes ThumbnailsOutcome and logs BatchWarnings |
| Thumbnails.GenerateThumbnailsDefault | src-tauri/src/video_decoder.rs:390-392 | quality 60, no maximum |
| Thumbnails.ClampUnit | src-tauri/src/video_decoder.rs:454 | the clamp lies in [0, 1], is the identity inside, and gives the nearer end outside |
| Thumbnails.ThumbnailAtPercentOutcome | src-tauri/src/video_decoder.rs:452-456 | probe errors pass through, then the frame at the clamped percent of the duration at quality 70 (partners: PercentTimestampInside, ExtractOutcomes) |
| Thumbnails.PercentTimestampInside | src-tauri/src/video_decoder.rs:454 | the percent timestamp lies in [0, duration], is proportional between 0 and 100 per cent, and is clamped outside |
| Thumbnails.ThumbnailAtPercent | src-tauri/src/video_decoder.rs:452-456 | probe errors pass through; otherwise the frame at the percent timestamp is extracted at quality 70 |
| ThumbnailFacts.CountExamples | src-tauri/src/video_decoder.rs:411-422 | 10 s every 3 s gives 4; 1000 s every 1 s gives 100; a zero interval gives 100; a negative interval gives 1; a maximum of 2 gives 2 |
| ThumbnailFacts.TimestampsBeforeEnd | src-tauri/src/video_decoder.rs:411-428 | every index below the count gives a timestamp before the end of the video |
| ThumbnailFacts.BreakNeverFires | src-tauri/src/video_decoder.rs:426-430 | for a positive duration, all `count` timestamps `i × interval` are tried |
| ThumbnailFacts.TimestampsCoverVideo | src-tauri/src/video_decoder.rs:411-422 | when no cap applies, one more step would reach the end: the timestamps cover the video |
| ThumbnailFacts.OksAppend | src-tauri/src/video_decoder.rs:432-438 | the collected thumbnails keep the order of the attempts |
| ThumbnailFacts.OksEmptyIffAllFail | src-tauri/src/video_decoder.rs:432-446 | no thumbnail is collected exactly when every attempt fails |
| ThumbnailFacts.AttemptsAccounted | src-tauri/src/video_decoder.rs:432-438 | every attempt gives either a thumbnail or a warning |
| ThumbnailFacts.OksLength | src-tauri/src/video_decoder.rs:432-438 | there are never more thumbnails than attempts |
| ThumbnailFacts.ProbeErrorCodes | src-tauri/src/video_decoder.rs:89-115 | `get_video_info` fails only with OPEN_ERROR, NO_VIDEO_STREAM, CODEC_ERROR or DECODER_ERROR |
| ThumbnailFacts.ThumbnailsEarlyErrors | src-tauri/src/video_decoder.rs:401-408 | probe errors pass through unchanged; ZERO_DURATION iff the probe succeeds with a duration ≤ 0, with nothing extracted |
| ThumbnailFacts.PositiveOutcome | src-tauri/src/video_decoder.rs:424-448 | for a positive duration the batch is the successful extractions at `i × interval` for every i below the count, or NO_THUMBNAILS when there are none |
| ThumbnailFacts.NoThumbnailsIffAllFail | src-tauri/src/video_decoder.rs:426-446 | NO_THUMBNAILS iff each extraction at `i × interval`, i below the count, fails |
| ThumbnailFacts.ThumbnailsFromAttempts | src-tauri/src/video_decoder.rs:426-448 | a successful batch is the in-order list of successful extractions, between 1 and the count long |
| MeltLocate.FirstWorking | src-tauri/src/melt_runner.rs:118-124 | the first candidate whose `--version` succeeds, none before it working |
| MeltLocate.WhichPath | src-tauri/src/melt_runner.rs:127-134 | the `which melt` answer is used iff it succeeds and its trimmed output is not blank |
| Text.Trim | src-tauri/src/melt_runner.rs:129 | `str::trim` leaves a contiguous slice of the text, empty iff the text is all white space, otherwise neither starting nor ending with white space; everything cut off on either side is white space |
| Text.TrimIdempotent | src-tauri/src/melt_runner.rs:129 | trimming again changes nothing |
| MeltLocate.LocateMelt | src-tauri/src/melt_runner.rs:109-137 | the first working candidate in the fixed order wins; otherwise the `which` answer; none iff both fail |
| MeltLocate.FindMelt | src-tauri/src/melt_runner.rs:109-137 | the search loop computes LocateMelt |
| MeltLocate.SearchPathFirst | src-tauri/src/melt_runner.rs:111-121 | a working `melt` on the search path wins whatever else answers |
| MeltCommand.RenderArgs | src-tauri/src/melt_runner.rs:195-230 | the XML path, the settings in order, then the fixed tail (partner: RenderArgsLayout) |
| MeltCommand.XmlPath | src-tauri/src/melt_runner.rs:183 | `<job id>.mlt` joined onto the temp directory (partners: XmlPathInTempDir, XmlPathInjective, AbsoluteJobIdEscapes) |
| MeltCommand.BuildRenderArgs | src-tauri/src/melt_runner.rs:195-230 | the successive `arg` calls build RenderArgs |
| MeltCommand.Number | src-tauri/src/melt_runner.rs:210-221 | a numeric option is written exactly when given, as decimal digits whose value is the option |
| Text.NatToStringRoundTrip | src-tauri/src/melt_runner.rs:210-221 | the decimal text of a number reads back as that number |
| MeltCommand.LineInLines | src-tauri/src/melt_runner.rs:201-221 | an argument `key=value` is passed iff that key is present with that value |
| MeltCommand.RenderArgsLayout | src-tauri/src/melt_runner.rs:195-230 | the XML path is first; the settings follow; `preset=medium`, `-consumer`, `avformat:<output>`, `-progress` end the list; 5 arguments iff no option is given |
| MeltCommand.TextOptionSettings | src-tauri/src/melt_runner.rs:201-209 | `vcodec=`, `acodec=`, `ab=` with a value are present iff that option holds that value |
| MeltCommand.NumberOptionSettings | src-tauri/src/melt_runner.rs:210-221 | `crf=`, `width=`, `height=`, `frame_rate_num=` with a value are present iff that option is given and the value is its decimal text |
| MeltCommand.SettingsInOrder | src-tauri/src/melt_runner.rs:201-221 | the setting of an earlier option comes before that of a later one |
| MeltCommand.LinesAppend | src-tauri/src/melt_runner.rs:201-221 | consecutive settings give consecutive arguments |
| MeltCommand.XmlPathInTempDir | src-tauri/src/melt_runner.rs:183 | a job id that is not absolute names `<temp dir>/<job id>.mlt` |
| MeltCommand.XmlPathInjective | src-tauri/src/melt_runner.rs:183 | different job ids write different XML files |
| MeltCommand.AbsoluteJobIdEscapes | src-tauri/src/melt_runner.rs:183 | an absolute job id replaces the temp directory in the join |
| MeltJobs.RenderOutcome | src-tauri/src/melt_runner.rs:246-259 | success iff the exit status is success iff output_path is Some(output path) iff error is None; otherwise the error is `melt exited with error: ` + stderr |
| MeltJobs.PlanRender | src-tauri/src/melt_runner.rs:179-230 | "melt not found on system", the temp directory's error, "Failed to write MLT XML: …" in that order; otherwise melt is run with RenderArgs on `<job id>.mlt` |
| MeltJobs.MeltState.constructor | src-tauri/src/melt_runner.rs:69-73 | no jobs |
| MeltJobs.MeltState.Cancel | src-tauri/src/melt_runner.rs:267-273 | returns true iff the job is registered, then sets its flag to true; an unknown id changes nothing |
| MeltJobs.MeltState.StartRender | src-tauri/src/melt_runner.rs:179-230 | the job is registered with flag false only after the preparation steps succeed |
| MeltJobs.MeltState.FinishRender | src-tauri/src/melt_runner.rs:233-259 | after a finished run the job is removed, every other entry is untouched, and the exit status is reported whatever the flag |
| MeltJobs.MeltState.RunRender | src-tauri/src/melt_runner.rs:171-260 | the whole render: before registration the map is unchanged; a run that cannot start leaves the job registered; a finished run removes exactly that job |
| MeltJobs.MeltState.RenderCancelledMidway | src-tauri/src/melt_runner.rs:233-273 | a cancel during the run returns true, yet the render reports melt's exit status as if not cancelled |
| MeltResults.CheckMelt | src-tauri/src/melt_runner.rs:144-167 | available iff melt is found; then path is the found path and error None; otherwise error is the install hint and version and path are None |
| MeltResults.CandidateReportsVersion | src-tauri/src/melt_runner.rs:145-152 | melt found on a candidate path always reports a version |
| MeltResults.ValidateXml | src-tauri/src/melt_runner.rs:318-364 | valid iff melt is found, the temp file is written and `melt <file> -consumer xml` exits successfully; error is None iff valid; write failures are errors |
| MeltResults.ValidateReasons | src-tauri/src/melt_runner.rs:344-363 | an invalid project reports melt's stderr, or `Failed to validate: ` and the start failure |
| MeltResults.RunMeltRaw | src-tauri/src/melt_runner.rs:302-315 | melt runs with the caller's arguments; stdout and stderr are passed back and the exit code is -1 when the process has none |

## Left out

- FFmpeg itself is not modelled. Opening, stream ranking, codec and decoder construction, seeking, decoding and scaling are library code. Their answers are the fields of `MediaFile`, `Container`, `VideoStream`, `Packet` and `Flush`.
- JPEG encoding and base64 are library encoders with no visible logic. They are the function fields of `ImageCodec`.
- The Tauri command wrappers and `spawn_blocking` (video_decoder.rs:467-554) are async dispatch of the modelled functions. `src-tauri/src/lib.rs` is not part of this model.
- Mutexes are not modelled. Each registry is a single sequential map, and lock poisoning is a boolean parameter. Concurrency is modelled only as a cancel between the two halves of a render.
- f64 arithmetic is modelled as exact `real` arithmetic, with no rounding, NaN or infinity. The exception is `f64 as i64`, modelled as truncation toward zero with saturation (`Extract.ToI64`), and the infinite ratio of a zero interval (`Thumbnails.RawCount`).
- Extract.TargetTicks: i64 overflow is not modelled for `timestamp_secs as i64 * 1_000_000` (video_decoder.rs:324), for `target_ts + denominator * 2` (video_decoder.rs:360), or for `(frame_ts - target_ts).abs()` (video_decoder.rs:344 and 371). Integers are unbounded there. The last one overflows when a zero time-base numerator saturates the target to `i64::MAX` and a frame has pts -1.
- ThumbnailFacts.BreakNeverFires: holds only over exact reals. In `f64`, rounding can end the batch early: a duration of 0.1 + 0.2 (0.30000000000000004) with interval 0.1 gives a count of 4, but `3.0 * 0.1` already reaches the duration, so only 3 timestamps are tried. The same goes for `ThumbnailFacts.TimestampsBeforeEnd` and for "every index below the count" in `ThumbnailFacts.PositiveOutcome`, `NoThumbnailsIffAllFail` and `ThumbnailsFromAttempts`.
- FrameEncode.EncodeOutcome: the `Frame` subset type (`Media.PlaneFits`) requires the scaler's plane to hold every row, so the out-of-bounds panic that `&rgb_data[row_start..row_end]` (video_decoder.rs:266) would raise on a short plane is not modelled.
- MeltResults.CandidateReportsVersion: holds because a `Runner` is a function and so gives the same answer to the second, identical `--version` run (melt_runner.rs:119 and 147); a melt whose answer changed between the two runs is not modelled.
- Thumbnails.Warning: the decimal text of a `f64` (`{}` of a timestamp) is a parameter `showSecs`, because Rust's float formatting is not modelled.
- `get_video_info` and the frame extraction each open the file again. The model treats every opening as giving the same answers, because the file does not change while it is read.
- The uuid of `open_video` is a fresh token passed in, and the file-system existence check is a boolean.
- The melt runner's subprocesses are not executed. The `Runner` function answers for the whole machine, including the XML file just written, so the XML text itself does not appear in the model. `String::from_utf8_lossy` is folded into `ProcessOutput`, whose outputs are already text.
- `get_mlt_temp_dir_path`, `get_renders_dir`, `get_mlt_temp_dir` and `cleanup_mlt_temp_files` (melt_runner.rs:80-102, 276-299) only do directory I/O. Only their outcome (the temp directory or its error) enters the render and validate models.
- The removal of the temp XML file after a run is not modelled, since its result is ignored.
- `eprintln!` logging is modelled only as the returned list of warning lines of the thumbnail batch.

## Findings

| source | as written | input that shows it | evidently intended | confidence | as-written member | corrected member |
|---|---|---|---|---|---|---|
| src-tauri/src/video_decoder.rs:369-376 | the flush replaces the candidate whenever a flushed frame is closer than the difference held before the flush, but does not lower that difference, so the last such frame wins | nothing decoded before the flush, flushed frames at pts 0 and pts 5, target 0: the frame at pts 5 is encoded | the flush goes on with the same strict-improvement scan, so the frame at pts 0 (an exact match) is encoded | not executed | FrameSelect.Select, SelectFacts.FlushKeepsLastNotClosest | FrameSelect.SelectCorrected, SelectFacts.CorrectedFlushIsClosest |
