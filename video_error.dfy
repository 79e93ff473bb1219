/** `VideoError` of the frame-extraction engine: a machine-readable code and a
    human-readable message, and the codes the engine uses. */
module VideoErrors {

  datatype VideoError = VideoError(message: string, code: string)

  const OPEN_ERROR: string := "OPEN_ERROR"
  const NO_VIDEO_STREAM: string := "NO_VIDEO_STREAM"
  const CODEC_ERROR: string := "CODEC_ERROR"
  const DECODER_ERROR: string := "DECODER_ERROR"
  const FFMPEG_ERROR: string := "FFMPEG_ERROR"
  const FILE_NOT_FOUND: string := "FILE_NOT_FOUND"
  const LOCK_ERROR: string := "LOCK_ERROR"
  const SCALER_ERROR: string := "SCALER_ERROR"
  const SCALE_ERROR: string := "SCALE_ERROR"
  const IMAGE_ERROR: string := "IMAGE_ERROR"
  const JPEG_ENCODE_ERROR: string := "JPEG_ENCODE_ERROR"
  const FRAME_NOT_FOUND: string := "FRAME_NOT_FOUND"
  const ZERO_DURATION: string := "ZERO_DURATION"
  const NO_THUMBNAILS: string := "NO_THUMBNAILS"

  /** `From<ffmpeg::Error>`: a library failure keeps its text under FFMPEG_ERROR. */
  function FromFfmpeg(reason: string): VideoError {
    VideoError(reason, FFMPEG_ERROR)
  }

  /** `Display`: the code, a colon and a space, then the message. */
  function Display(e: VideoError): string {
    e.code + ": " + e.message
  }

  /** The displayed text starts with the code: what a log reader splits on. */
  lemma DisplayStartsWithCode(e: VideoError)
    ensures |Display(e)| == |e.code| + 2 + |e.message|
    ensures Display(e)[..|e.code|] == e.code && Display(e)[|e.code|..|e.code| + 2] == ": "
    ensures Display(e)[|e.code| + 2..] == e.message
  {
  }

  /** The source's own unit test of `Display`. */
  lemma DisplayExample()
    ensures Display(VideoError("Test error", "TEST_CODE")) == "TEST_CODE: Test error"
  {
  }

  /** As long as codes contain no colon (all of the engine's codes are upper-case
      words), the displayed text determines both the code and the message. */
  lemma DisplayInjective(e1: VideoError, e2: VideoError)
    requires forall i :: 0 <= i < |e1.code| ==> e1.code[i] != ':'
    requires forall i :: 0 <= i < |e2.code| ==> e2.code[i] != ':'
    requires Display(e1) == Display(e2)
    ensures e1 == e2
  {
    var s, n := Display(e1), |e1.code|;
    DisplayStartsWithCode(e1);
    DisplayStartsWithCode(e2);
    assert s[n] == ':' && s[|e2.code|] == ':';
    assert n == |e2.code|;
    assert e1.code == s[..n] == e2.code;
    assert e1.message == s[n + 2..] == e2.message;
  }
}
