/** Properties of the frame selection: where the forward pass returns, which
    packets it ignores, when no frame or an error results, and how the flush
    as written differs from the flush that keeps the closest frame. */
module SelectFacts {
  import opened Wrappers
  import opened Media
  import opened FrameSelect

  /** Every difference is below the `i64::MAX` start value. This can fail even
      for 64-bit timestamps: a target saturated to `i64::MAX` (a zero time-base
      numerator) and a pts of -1 differ by `i64::MAX + 1`. */
  ghost predicate DiffsFit(fs: seq<Frame>, target: int) {
    forall j :: 0 <= j < |fs| ==> Diff(fs[j], target) < I64_MAX
  }

  /** First index at or after `from` whose pts reaches the target. */
  function FirstReach(fs: seq<Frame>, target: int, from: nat): (r: Option<nat>)
    requires from <= |fs|
    ensures r.Some? ==> from <= r.value < |fs| && PtsOrZero(fs[r.value]) >= target
    ensures r.Some? ==> forall j :: from <= j < r.value ==> PtsOrZero(fs[j]) < target
    ensures r.None? ==> forall j :: from <= j < |fs| ==> PtsOrZero(fs[j]) < target
    decreases |fs| - from
  {
    if from == |fs| then None
    else if PtsOrZero(fs[from]) >= target then Some(from)
    else FirstReach(fs, target, from + 1)
  }

  /** A non-empty prefix of frames whose differences fit always yields a
      candidate, so the early return happens exactly at the first frame whose
      pts reaches the target. */
  lemma {:induction false} FirstExitIsFirstReach(fs: seq<Frame>, target: int, from: nat)
    requires from <= |fs| && DiffsFit(fs, target)
    ensures FirstExit(fs, target, from) == FirstReach(fs, target, from)
    decreases |fs| - from
  {
    if from < |fs| {
      var pre := fs[..from + 1];
      ScanFindsClosest(pre, target);
      assert pre[from] == fs[from];
      assert Scan(pre, target).frame.Some?;
      FirstExitIsFirstReach(fs, target, from + 1);
    }
  }

  /** The scan returns at the first decoded frame whose pts reaches the target,
      and what it returns is the closest frame among all frames decoded up to
      and including that one (the earliest of them on a tie); the flush is
      never reached, so the corrected flush agrees. */
  lemma ReturnsClosestAtFirstReach(packets: seq<Packet>, flush: Flush, stream: nat, target: int, horizon: int)
    requires DiffsFit(ForwardScan(packets, stream, horizon).frames, target)
    requires FirstReach(ForwardScan(packets, stream, horizon).frames, target, 0).Some?
    ensures var fs := ForwardScan(packets, stream, horizon).frames;
      var k := FirstReach(fs, target, 0).value;
      exists m :: IsClosest(fs[..k + 1], target, m)
        && Select(packets, flush, stream, target, horizon) == Picked(fs[m])
        && SelectCorrected(packets, flush, stream, target, horizon) == Picked(fs[m])
  {
    var fs := ForwardScan(packets, stream, horizon).frames;
    FirstExitIsFirstReach(fs, target, 0);
    var k := FirstReach(fs, target, 0).value;
    var pre := fs[..k + 1];
    ScanFindsClosest(pre, target);
    var m :| IsClosest(pre, target, m) && Scan(pre, target).frame == Some(pre[m]);
    assert pre[m] == fs[m];
    assert ForwardOutcome(packets, stream, target, horizon) == Returned(fs[m]);
  }

  /** The frames of the selected stream, in packet order, from all packets. */
  function StreamFrames(packets: seq<Packet>, stream: nat): seq<Frame>
    decreases |packets|
  {
    if packets == [] then []
    else if packets[0].stream == stream then packets[0].decoded + StreamFrames(packets[1..], stream)
    else StreamFrames(packets[1..], stream)
  }

  /** The forward pass decodes only packets of the selected stream, in order,
      skipping none of them until it stops: its frames are a prefix of the
      selected stream's frames. */
  lemma {:induction false} ForwardFramesArePrefix(packets: seq<Packet>, stream: nat, horizon: int)
    ensures var fs := ForwardScan(packets, stream, horizon).frames;
      |fs| <= |StreamFrames(packets, stream)| && fs == StreamFrames(packets, stream)[..|fs|]
    decreases |packets|
  {
    if packets != [] {
      var p := packets[0];
      var rest := packets[1..];
      ForwardFramesArePrefix(rest, stream, horizon);
      if p.stream == stream && p.sendError.None? {
        var fs := ForwardScan(rest, stream, horizon).frames;
        var all := StreamFrames(rest, stream);
        if PassesHorizon(p, horizon) {
          assert (p.decoded + all)[..|p.decoded|] == p.decoded;
        } else {
          assert (p.decoded + all)[..|p.decoded + fs|] == p.decoded + all[..|fs|];
        }
      }
    }
  }

  /** A packet of another stream changes nothing: removing it gives the same
      pass, hence the same selection. */
  lemma {:induction false} OtherStreamIgnored(pre: seq<Packet>, q: Packet, post: seq<Packet>, stream: nat, horizon: int)
    requires q.stream != stream
    ensures ForwardScan(pre + [q] + post, stream, horizon) == ForwardScan(pre + post, stream, horizon)
    decreases |pre|
  {
    if pre == [] {
      assert ([q] + post)[1..] == post;
      assert pre + [q] + post == [q] + post && pre + post == post;
    } else {
      OtherStreamIgnored(pre[1..], q, post, stream, horizon);
      assert (pre + [q] + post)[0] == pre[0] && (pre + [q] + post)[1..] == pre[1..] + [q] + post;
      assert (pre + post)[0] == pre[0] && (pre + post)[1..] == pre[1..] + post;
    }
  }

  /** A decoded packet of the selected stream whose pts lies past the horizon
      ends the pass: nothing after it is read. */
  lemma {:induction false} HorizonEndsPass(pre: seq<Packet>, p: Packet, post: seq<Packet>, stream: nat, horizon: int)
    requires p.stream == stream && p.sendError.None? && PassesHorizon(p, horizon)
    ensures ForwardScan(pre + [p] + post, stream, horizon) == ForwardScan(pre + [p], stream, horizon)
    decreases |pre|
  {
    if pre == [] {
      assert pre + [p] + post == [p] + post && pre + [p] == [p];
    } else {
      HorizonEndsPass(pre[1..], p, post, stream, horizon);
      assert (pre + [p] + post)[0] == pre[0] && (pre + [p] + post)[1..] == pre[1..] + [p] + post;
      assert (pre + [p])[0] == pre[0] && (pre + [p])[1..] == pre[1..] + [p];
    }
  }

  /** Packets without pts never trigger the safety bound: if no packet of the
      selected stream has a pts or is refused, the pass decodes every frame of
      that stream. */
  lemma {:induction false} NoPtsNeverStops(packets: seq<Packet>, stream: nat, horizon: int)
    requires forall j :: 0 <= j < |packets| && packets[j].stream == stream ==>
      packets[j].pts.None? && packets[j].sendError.None?
    ensures ForwardScan(packets, stream, horizon) == Forward(StreamFrames(packets, stream), None)
    decreases |packets|
  {
    if packets != [] {
      assert forall j :: 0 <= j < |packets| - 1 ==> packets[1..][j] == packets[j + 1];
      NoPtsNeverStops(packets[1..], stream, horizon);
    }
  }

  /** A decoder error is the outcome exactly when the pass does not return
      early and either a packet was refused or `send_eof` failed. */
  lemma SelectErrors(packets: seq<Packet>, flush: Flush, stream: nat, target: int, horizon: int)
    ensures var fw := ForwardScan(packets, stream, horizon);
      Select(packets, flush, stream, target, horizon).DecodeError? <==>
        FirstExit(fw.frames, target, 0).None? && (fw.error.Some? || flush.eofError.Some?)
  {
  }

  lemma DiffsFitAppend(a: seq<Frame>, b: seq<Frame>, target: int)
    requires DiffsFit(a, target) && DiffsFit(b, target)
    ensures DiffsFit(a + b, target)
  {
    forall j | 0 <= j < |a + b|
      ensures Diff((a + b)[j], target) < I64_MAX
    {
      if j >= |a| {
        assert (a + b)[j] == b[j - |a|];
      }
    }
  }

  /** With differences that fit, the scan holds a frame exactly when it has
      seen one. */
  lemma ScanHoldsIffSeen(fs: seq<Frame>, target: int)
    requires DiffsFit(fs, target)
    ensures Scan(fs, target).frame.None? <==> fs == []
  {
    ScanFindsClosest(fs, target);
    if fs != [] {
      assert Diff(fs[0], target) < I64_MAX;
    }
  }

  /** Without decoder errors and with differences that fit, no frame is found
      exactly when no frame was decoded at all, before or during the flush. */
  lemma NoFrameIffNothingDecoded(packets: seq<Packet>, flush: Flush, stream: nat, target: int, horizon: int)
    requires ForwardScan(packets, stream, horizon).error.None? && flush.eofError.None?
    requires DiffsFit(ForwardScan(packets, stream, horizon).frames, target) && DiffsFit(flush.decoded, target)
    ensures var fs := ForwardScan(packets, stream, horizon).frames;
      Select(packets, flush, stream, target, horizon) == NoFrame <==> fs == [] && flush.decoded == []
  {
    var fs := ForwardScan(packets, stream, horizon).frames;
    ScanHoldsIffSeen(fs, target);
    if fs == [] {
      assert Scan(fs, target) == NoCandidate;
    }
    if flush.decoded != [] {
      assert Diff(flush.decoded[0], target) < I64_MAX;
    }
  }

  /** The same holds for the corrected flush. */
  lemma NoFrameIffNothingDecodedCorrected(packets: seq<Packet>, flush: Flush, stream: nat, target: int, horizon: int)
    requires ForwardScan(packets, stream, horizon).error.None? && flush.eofError.None?
    requires DiffsFit(ForwardScan(packets, stream, horizon).frames, target) && DiffsFit(flush.decoded, target)
    ensures var fs := ForwardScan(packets, stream, horizon).frames;
      SelectCorrected(packets, flush, stream, target, horizon) == NoFrame <==> fs == [] && flush.decoded == []
  {
    var fs := ForwardScan(packets, stream, horizon).frames;
    var all := fs + flush.decoded;
    ScanFromAppend(NoCandidate, fs, flush.decoded, target);
    DiffsFitAppend(fs, flush.decoded, target);
    ScanHoldsIffSeen(all, target);
    ScanHoldsIffSeen(fs, target);
  }

  /** The corrected flush picks, after a pass that read everything, the closest
      frame among all frames decoded by the pass and the flush. */
  lemma CorrectedFlushIsClosest(packets: seq<Packet>, flush: Flush, stream: nat, target: int, horizon: int)
    requires var fw := ForwardScan(packets, stream, horizon);
      FirstExit(fw.frames, target, 0).None? && fw.error.None? && flush.eofError.None?
    ensures var all := ForwardScan(packets, stream, horizon).frames + flush.decoded;
      match SelectCorrected(packets, flush, stream, target, horizon)
      case Picked(g) => exists k :: IsClosest(all, target, k) && g == all[k]
      case NoFrame => forall j :: 0 <= j < |all| ==> Diff(all[j], target) >= I64_MAX
      case DecodeError(_) => false
  {
    var fs := ForwardScan(packets, stream, horizon).frames;
    ScanFromAppend(NoCandidate, fs, flush.decoded, target);
    ScanFindsClosest(fs + flush.decoded, target);
  }

  /** The flush as written keeps the last flushed frame below the held
      difference, not the closest one: with nothing decoded before the flush
      and flushed frames at pts 0 and 5 for target 0, it encodes the frame at
      pts 5, where the corrected flush encodes the exact match at pts 0. */
  lemma FlushKeepsLastNotClosest()
    ensures var f0 := FrameData(Some(0), 0, 0, ScalerFailed(""));
      var f5 := FrameData(Some(5), 0, 0, ScalerFailed(""));
      var flush := Flush(None, [f0, f5]);
      && Diff(f0, 0) < Diff(f5, 0)
      && Select([], flush, 0, 0, 0) == Picked(f5)
      && SelectCorrected([], flush, 0, 0, 0) == Picked(f0)
  {
    var f0 := FrameData(Some(0), 0, 0, ScalerFailed(""));
    var f5 := FrameData(Some(5), 0, 0, ScalerFailed(""));
    var gs: seq<Frame> := [f0, f5];
    var one: seq<Frame> := [f0];
    assert one[..0] == [];
    assert ScanFrom(NoCandidate, one, 0) == Candidate(Some(f0), 0);
    assert gs[..1] == one;
    assert ScanFrom(NoCandidate, gs, 0) == Candidate(Some(f0), 0);
  }
}
