/** The handle registry (`open_video`, `close_video`): a shared map from handle
    id to an immutable snapshot of a probed video. The mutex around it is
    modelled only by whether taking it fails (a poisoned lock). */
module Handles {
  import opened Wrappers
  import opened Text
  import opened Media
  import opened VideoErrors
  import opened Probe

  /** Snapshot taken at open time; it is never updated afterwards. */
  datatype VideoHandle = VideoHandle(path: string, info: VideoInfo, streamIndex: nat, timeBase: Rational)

  const LOCK_MESSAGE: string := "Failed to acquire lock on video handles"

  /** Length of the text form of a version-4 UUID (8-4-4-4-12 hex digits). */
  const UUID_TEXT_LENGTH: nat := 36

  /** `format!("video_{}_{}", uuid, path.len())`; `path.len()` counts UTF-8 bytes. */
  function HandleId(uuid: string, path: string): string {
    "video_" + uuid + "_" + NatToString(Utf8Length(path))
  }

  /** Ids made from tokens of the same length are equal only if both the tokens
      and the paths' byte lengths are: uniqueness rests on the random token. */
  lemma HandleIdDeterminesToken(u1: string, p1: string, u2: string, p2: string)
    requires |u1| == |u2|
    requires HandleId(u1, p1) == HandleId(u2, p2)
    ensures u1 == u2
    ensures Utf8Length(p1) == Utf8Length(p2)
  {
    var id := HandleId(u1, p1);
    var n := |u1|;
    assert u1 == id[6..6 + n] == u2;
    assert NatToString(Utf8Length(p1)) == id[7 + n..] == NatToString(Utf8Length(p2));
    NatToStringInjective(Utf8Length(p1), Utf8Length(p2));
  }

  /** The outcome `open_video` has before it reaches the registry: the file
      check, then the probe, then a second opening for the stream's index and
      time base. */
  function PrepareHandle(path: string, fileExists: bool, file: Result<Container, string>): (r: Result<VideoHandle, VideoError>)
    ensures !fileExists ==> r == Err(VideoError("Video file not found: " + path, FILE_NOT_FOUND))
    ensures fileExists && GetVideoInfo(path, file).Err? ==> r == Err(GetVideoInfo(path, file).error)
    ensures r.Ok? ==>
      fileExists && GetVideoInfo(path, file).Ok?
      && r.value == VideoHandle(path, GetVideoInfo(path, file).value,
                                file.value.bestVideo.value.index, file.value.bestVideo.value.timeBase)
  {
    if !fileExists then Err(VideoError("Video file not found: " + path, FILE_NOT_FOUND))
    else
      match GetVideoInfo(path, file)
      case Err(e) => Err(e)
      case Ok(info) =>
        match file
        case Err(reason) => Err(FromFfmpeg(reason))
        case Ok(c) =>
          match c.bestVideo
          case None => Err(VideoError("No video stream found", NO_VIDEO_STREAM))
          case Some(s) => Ok(VideoHandle(path, info, s.index, s.timeBase))
  }

  class HandleRegistry {
    var handles: map<string, VideoHandle>

    constructor ()
      ensures handles == map[]
    {
      handles := map[];
    }

    /** `open_video`. `fileExists` is what the file-system check answers, `uuid` the
        fresh random token, `poisoned` whether taking the lock fails. Nothing
        is probed when the file is missing, and the map changes only on
        success, by exactly the new id. */
    method Open(path: string, fileExists: bool, file: Result<Container, string>, uuid: string, poisoned: bool)
      returns (r: Result<string, VideoError>)
      modifies this
      ensures !fileExists ==> r == Err(VideoError("Video file not found: " + path, FILE_NOT_FOUND))
      ensures PrepareHandle(path, fileExists, file).Err? ==> r == Err(PrepareHandle(path, fileExists, file).error)
      ensures PrepareHandle(path, fileExists, file).Ok? && poisoned ==> r == Err(VideoError(LOCK_MESSAGE, LOCK_ERROR))
      ensures r.Err? ==> handles == old(handles)
      ensures r.Ok? <==> PrepareHandle(path, fileExists, file).Ok? && !poisoned
      ensures r.Ok? ==>
        && r.value == HandleId(uuid, path)
        && handles == old(handles)[r.value := PrepareHandle(path, fileExists, file).value]
        && handles.Keys == old(handles).Keys + {r.value}
        && (forall id :: id in old(handles) && id != r.value ==> handles[id] == old(handles)[id])
    {
      var prepared := PrepareHandle(path, fileExists, file);
      if prepared.Err? {
        return Err(prepared.error);
      }
      var id := HandleId(uuid, path);
      if poisoned {
        return Err(VideoError(LOCK_MESSAGE, LOCK_ERROR));
      }
      handles := handles[id := prepared.value];
      r := Ok(id);
    }

    /** `close_video`: removes the id if present; an unknown id is not an error. */
    method Close(id: string, poisoned: bool) returns (r: Result<(), VideoError>)
      modifies this
      ensures poisoned ==> r == Err(VideoError(LOCK_MESSAGE, LOCK_ERROR)) && handles == old(handles)
      ensures !poisoned ==> r == Ok(()) && handles == old(handles) - {id}
      ensures !poisoned && id !in old(handles) ==> handles == old(handles)
    {
      if poisoned {
        return Err(VideoError(LOCK_MESSAGE, LOCK_ERROR));
      }
      handles := handles - {id};
      r := Ok(());
    }
  }

  /** Opening a file twice with two different tokens of UUID length registers
      two separate handles; closing the first leaves exactly the second, and
      closing the first again still succeeds and changes nothing. */
  method OpenTwiceCloseOnce(path: string, file: Result<Container, string>, u1: string, u2: string)
    returns (registry: HandleRegistry, a: Result<string, VideoError>, b: Result<string, VideoError>,
             again: Result<(), VideoError>)
    requires |u1| == UUID_TEXT_LENGTH && |u2| == UUID_TEXT_LENGTH && u1 != u2
    requires PrepareHandle(path, true, file).Ok?
    ensures a == Ok(HandleId(u1, path)) && b == Ok(HandleId(u2, path)) && a.value != b.value
    ensures registry.handles == map[b.value := PrepareHandle(path, true, file).value]
    ensures again == Ok(())
  {
    registry := new HandleRegistry();
    a := registry.Open(path, true, file, u1, false);
    b := registry.Open(path, true, file, u2, false);
    assert a.value != b.value by {
      if a.value == b.value { HandleIdDeterminesToken(u1, path, u2, path); }
    }
    var closed := registry.Close(a.value, false);
    assert registry.handles == map[b.value := PrepareHandle(path, true, file).value];
    again := registry.Close(a.value, false);
  }
}
