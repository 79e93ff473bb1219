/** The command line of a render (`run_melt_render`): the job's XML file, one
    `key=value` setting per given option in a fixed order, the preset, and the
    consumer writing the output file. */
module MeltCommand {
  import opened Wrappers
  import opened Text

  type U32 = n: nat | n < 0x1_0000_0000

  /** `RenderOptions`: every setting is optional. */
  datatype RenderOptions = RenderOptions(
    videoCodec: Option<string>,
    audioCodec: Option<string>,
    audioBitrate: Option<string>,
    crf: Option<U32>,
    width: Option<U32>,
    height: Option<U32>,
    frameRate: Option<U32>)

  /** A numeric option as `format!("{}", n)` writes it. */
  function Number(n: Option<U32>): (s: Option<string>)
    ensures s.Some? <==> n.Some?
    ensures s.Some? ==> AllDigits(s.value) && DigitsValue(s.value) == n.value
  {
    if n.Some? then NatToStringRoundTrip(n.value); Some(NatToString(n.value)) else None
  }

  /** The settings melt receives, in the order the command adds them: each
      `key=` prefix with its value, or none when the option is absent. */
  function Settings(o: RenderOptions): seq<(string, Option<string>)> {
    [("vcodec=", o.videoCodec), ("acodec=", o.audioCodec), ("ab=", o.audioBitrate),
     ("crf=", Number(o.crf)), ("width=", Number(o.width)), ("height=", Number(o.height)),
     ("frame_rate_num=", Number(o.frameRate))]
  }

  /** The argument for one setting: `key=value` when given, nothing otherwise. */
  function Line(e: (string, Option<string>)): seq<string> {
    if e.1.Some? then [e.0 + e.1.value] else []
  }

  /** The arguments for a list of settings, in list order. */
  function Lines(t: seq<(string, Option<string>)>): (ls: seq<string>)
    ensures |ls| <= |t|
    decreases |t|
  {
    if t == [] then [] else Line(t[0]) + Lines(t[1..])
  }

  /** No argument comes from settings exactly when no setting is given. */
  lemma {:induction false} LinesEmpty(t: seq<(string, Option<string>)>)
    ensures Lines(t) == [] <==> forall k :: 0 <= k < |t| ==> t[k].1.None?
    decreases |t|
  {
    if t != [] {
      LinesEmpty(t[1..]);
      assert forall k :: 0 < k < |t| ==> t[k] == t[1..][k - 1];
    }
  }

  /** The arguments that always end the command. */
  function Tail(outputPath: string): seq<string> {
    ["preset=medium", "-consumer", "avformat:" + outputPath, "-progress"]
  }

  /** The whole argument list: XML file, settings, fixed tail. */
  function RenderArgs(xmlPath: string, outputPath: string, o: RenderOptions): seq<string> {
    [xmlPath] + Lines(Settings(o)) + Tail(outputPath)
  }

  /** `PathBuf::join` on Unix: an absolute name replaces the base; otherwise a
      separator is added unless the base is empty or already ends in one. */
  function Join(base: string, name: string): string {
    if |name| > 0 && name[0] == '/' then name
    else if base == [] || base[|base| - 1] == '/' then base + name
    else base + "/" + name
  }

  /** The job's XML file: `<job_id>.mlt` in the temp directory. */
  function XmlPath(tempDir: string, jobId: string): string {
    Join(tempDir, jobId + ".mlt")
  }

  /** Adding one more setting adds its argument at the end. */
  lemma LinesSnoc(t: seq<(string, Option<string>)>, k: nat)
    requires k < |t|
    ensures Lines(t[..k + 1]) == Lines(t[..k]) + Line(t[k])
  {
    assert t[..k + 1] == t[..k] + [t[k]];
    LinesAppend(t[..k], [t[k]]);
    assert [t[k]][1..] == [];
  }

  /** One `if let Some(..) = option { cmd.arg(..) }` step: the arguments so
      far are the XML file and the first `k` settings, and the `k`-th is
      added. */
  method AddSetting(args: seq<string>, ghost xmlPath: string, ghost t: seq<(string, Option<string>)>, k: nat,
                    prefix: string, value: Option<string>)
    returns (r: seq<string>)
    requires k < |t| && t[k] == (prefix, value)
    requires args == [xmlPath] + Lines(t[..k])
    ensures r == [xmlPath] + Lines(t[..k + 1])
  {
    LinesSnoc(t, k);
    r := args;
    if value.Some? {
      r := args + [prefix + value.value];
    }
  }

  /** The command construction, one `arg` call after another. */
  method BuildRenderArgs(xmlPath: string, outputPath: string, o: RenderOptions) returns (args: seq<string>)
    ensures args == RenderArgs(xmlPath, outputPath, o)
  {
    ghost var t := Settings(o);
    args := [xmlPath];
    assert t[..0] == [];
    var consumer := "avformat:" + outputPath;
    args := AddSetting(args, xmlPath, t, 0, "vcodec=", o.videoCodec);
    args := AddSetting(args, xmlPath, t, 1, "acodec=", o.audioCodec);
    args := AddSetting(args, xmlPath, t, 2, "ab=", o.audioBitrate);
    args := AddSetting(args, xmlPath, t, 3, "crf=", Number(o.crf));
    args := AddSetting(args, xmlPath, t, 4, "width=", Number(o.width));
    args := AddSetting(args, xmlPath, t, 5, "height=", Number(o.height));
    args := AddSetting(args, xmlPath, t, 6, "frame_rate_num=", Number(o.frameRate));
    assert t[..7] == t;
    args := args + ["preset=medium"];
    args := args + ["-consumer"];
    args := args + [consumer];
    args := args + ["-progress"];
  }

  /** The XML file comes first and the fixed tail last; in between are the
      settings, at most seven, none when no option is given. */
  lemma RenderArgsLayout(xmlPath: string, outputPath: string, o: RenderOptions)
    ensures var args := RenderArgs(xmlPath, outputPath, o);
      && 5 <= |args| <= 12
      && args[0] == xmlPath
      && args[|args| - 4..] == ["preset=medium", "-consumer", "avformat:" + outputPath, "-progress"]
      && args[1..|args| - 4] == Lines(Settings(o))
      && (|args| == 5 <==>
            o.videoCodec.None? && o.audioCodec.None? && o.audioBitrate.None? && o.crf.None?
            && o.width.None? && o.height.None? && o.frameRate.None?)
  {
    var t := Settings(o);
    var args := RenderArgs(xmlPath, outputPath, o);
    assert args[1..|args| - 4] == Lines(t);
    LinesEmpty(t);
    if |args| == 5 {
      assert forall k :: 0 <= k < |t| ==> t[k].1.None?;
      assert t[0].1.None? && t[1].1.None? && t[2].1.None? && t[3].1.None?;
      assert t[4].1.None? && t[5].1.None? && t[6].1.None?;
    }
  }

  /** A `key=` prefix: a key without `=`, then `=`. */
  predicate KeyPrefix(p: string) {
    |p| > 0 && p[|p| - 1] == '=' && forall k :: 0 <= k < |p| - 1 ==> p[k] != '='
  }

  /** A `key=value` argument names its key: it splits at its first `=`, so
      the key and the value can be read back. */
  lemma SplitAtEquals(p1: string, v1: string, p2: string, v2: string)
    requires KeyPrefix(p1) && KeyPrefix(p2) && p1 + v1 == p2 + v2
    ensures p1 == p2 && v1 == v2
  {
    var s := p1 + v1;
    assert s[|p1| - 1] == '=' && forall k :: 0 <= k < |p1| - 1 ==> s[k] != '=';
    assert s == p2 + v2;
    assert s[|p2| - 1] == '=' && forall k :: 0 <= k < |p2| - 1 ==> s[k] != '=';
    assert p1 == s[..|p1|] == p2;
    assert v1 == s[|p1|..] == v2;
  }

  /** An argument `key=value` is present exactly when the list holds that key
      with that value. */
  lemma {:induction false} LineInLines(t: seq<(string, Option<string>)>, prefix: string, value: string)
    requires KeyPrefix(prefix) && forall k :: 0 <= k < |t| ==> KeyPrefix(t[k].0)
    ensures prefix + value in Lines(t) <==> (prefix, Some(value)) in t
    decreases |t|
  {
    if t != [] {
      assert forall k :: 0 <= k < |t| - 1 ==> t[1..][k] == t[k + 1];
      LineInLines(t[1..], prefix, value);
      if t[0].1.Some? && prefix + value == t[0].0 + t[0].1.value {
        SplitAtEquals(prefix, value, t[0].0, t[0].1.value);
      }
      assert t == [t[0]] + t[1..];
    }
  }

  /** All seven keys are proper `key=` prefixes. */
  lemma SettingsKeys(o: RenderOptions)
    ensures var t := Settings(o); forall k :: 0 <= k < |t| ==> KeyPrefix(t[k].0)
  {
  }

  /** No two settings share a key. */
  lemma SettingsKeysDistinct(o: RenderOptions, i: nat, j: nat)
    requires i < j < 7
    ensures Settings(o)[i].0 != Settings(o)[j].0
  {
    var t := Settings(o);
    assert t[i].0[0] != t[j].0[0] || t[i].0[1] != t[j].0[1];
  }

  /** The `i`-th setting's argument, with value `v`, is present exactly when
      the setting has that value. */
  lemma SettingIff(o: RenderOptions, i: nat, v: string)
    requires i < 7
    ensures var t := Settings(o); t[i].0 + v in Lines(t) <==> t[i].1 == Some(v)
  {
    var t := Settings(o);
    SettingsKeys(o);
    LineInLines(t, t[i].0, v);
    if (t[i].0, Some(v)) in t {
      var j :| 0 <= j < |t| && t[j] == (t[i].0, Some(v));
      if i < j {
        SettingsKeysDistinct(o, i, j);
      } else if j < i {
        SettingsKeysDistinct(o, j, i);
      }
    }
  }

  /** Each text option gives its setting, with its value, exactly when it is
      given. */
  lemma TextOptionSettings(o: RenderOptions, v: string)
    ensures var ls := Lines(Settings(o));
      && ("vcodec=" + v in ls <==> o.videoCodec == Some(v))
      && ("acodec=" + v in ls <==> o.audioCodec == Some(v))
      && ("ab=" + v in ls <==> o.audioBitrate == Some(v))
  {
    SettingIff(o, 0, v);
    SettingIff(o, 1, v);
    SettingIff(o, 2, v);
  }

  /** Each numeric option gives its setting, its value in decimal, exactly
      when it is given. */
  lemma NumberOptionSettings(o: RenderOptions, v: string)
    ensures var ls := Lines(Settings(o));
      && ("crf=" + v in ls <==> o.crf.Some? && v == NatToString(o.crf.value))
      && ("width=" + v in ls <==> o.width.Some? && v == NatToString(o.width.value))
      && ("height=" + v in ls <==> o.height.Some? && v == NatToString(o.height.value))
      && ("frame_rate_num=" + v in ls <==> o.frameRate.Some? && v == NatToString(o.frameRate.value))
  {
    SettingIff(o, 3, v);
    SettingIff(o, 4, v);
    SettingIff(o, 5, v);
    SettingIff(o, 6, v);
  }

  /** The arguments of consecutive lists of settings are consecutive. */
  lemma {:induction false} LinesAppend(a: seq<(string, Option<string>)>, b: seq<(string, Option<string>)>)
    ensures Lines(a + b) == Lines(a) + Lines(b)
    decreases |a|
  {
    if a == [] {
      assert a + b == b;
    } else {
      assert (a + b)[0] == a[0] && (a + b)[1..] == a[1..] + b;
      LinesAppend(a[1..], b);
    }
  }

  /** A given setting sits right after the arguments of the settings before
      it. */
  lemma LineAt(t: seq<(string, Option<string>)>, i: nat)
    requires i < |t| && t[i].1.Some?
    ensures |Lines(t[..i])| < |Lines(t)|
    ensures Lines(t)[|Lines(t[..i])|] == t[i].0 + t[i].1.value
  {
    assert t == t[..i] + t[i..];
    LinesAppend(t[..i], t[i..]);
    assert t[i..][0] == t[i];
  }

  /** Settings keep their list order: the argument of an earlier given
      setting comes before that of a later one. */
  lemma SettingsInOrder(t: seq<(string, Option<string>)>, i: nat, j: nat)
    requires i < j < |t| && t[i].1.Some? && t[j].1.Some?
    ensures var p, q := |Lines(t[..i])|, |Lines(t[..j])|;
      && p < q < |Lines(t)|
      && Lines(t)[p] == t[i].0 + t[i].1.value
      && Lines(t)[q] == t[j].0 + t[j].1.value
  {
    LineAt(t, i);
    LineAt(t, j);
    assert t[..j] == t[..i] + t[i..j];
    LinesAppend(t[..i], t[i..j]);
    assert t[i..j][0] == t[i];
  }

  /** A job id that is not an absolute path names a file directly inside a
      temp directory that is not empty and does not end in a separator. */
  lemma XmlPathInTempDir(tempDir: string, jobId: string)
    requires tempDir != [] && tempDir[|tempDir| - 1] != '/'
    requires jobId == [] || jobId[0] != '/'
    ensures XmlPath(tempDir, jobId) == tempDir + "/" + jobId + ".mlt"
  {
    if jobId == [] {
      assert (jobId + ".mlt")[0] == '.';
    } else {
      assert (jobId + ".mlt")[0] == jobId[0];
    }
  }

  /** Jobs with different ids write different files. */
  lemma XmlPathInjective(tempDir: string, a: string, b: string)
    requires tempDir != [] && tempDir[|tempDir| - 1] != '/'
    requires (a == [] || a[0] != '/') && (b == [] || b[0] != '/')
    requires XmlPath(tempDir, a) == XmlPath(tempDir, b)
    ensures a == b
  {
    XmlPathInTempDir(tempDir, a);
    XmlPathInTempDir(tempDir, b);
    var n := |tempDir| + 1;
    var pa := tempDir + "/" + a + ".mlt";
    assert |a| == |b|;
    assert a == pa[n..n + |a|];
    assert b == (tempDir + "/" + b + ".mlt")[n..n + |b|];
  }

  /** A job id that is an absolute path escapes the temp directory: the join
      keeps only the id. */
  lemma AbsoluteJobIdEscapes(tempDir: string, jobId: string)
    requires |jobId| > 0 && jobId[0] == '/'
    ensures XmlPath(tempDir, jobId) == jobId + ".mlt"
  {
    assert (jobId + ".mlt")[0] == '/';
  }
}
