/** Frame selection (`get_frame_at_time_with_quality`, the packet loop and the
    flush): which decoded frame is encoded for a target timestamp.

    The outcome is specified in batch terms: the frames the forward pass
    decodes (`ForwardScan`), the first frame at which it may return early
    (`FirstExit`), the candidate a strict-improvement scan keeps (`Scan`) and
    the flush rule. `ForwardPass` is the packet loop of the source, proved to
    compute `ForwardOutcome`; `SeekAndSelect` adds the flush as written and
    computes `Select`; `SeekAndSelectCorrected` adds a flush that also lowers
    the held difference and computes `SelectCorrected`. */
module FrameSelect {
  import opened Wrappers
  import opened Media

  /** `i64::MAX`, the initial `closest_diff`. */
  const I64_MAX: int := 0x7FFF_FFFF_FFFF_FFFF

  function Abs(x: int): nat {
    if x < 0 then -x else x
  }

  /** A missing presentation timestamp counts as 0. */
  function PtsOrZero(f: Frame): int {
    if f.pts.Some? then f.pts.value else 0
  }

  function Diff(f: Frame, target: int): nat {
    Abs(PtsOrZero(f) - target)
  }

  /** `fs[k]` is the frame a strict-improvement scan over `fs` holds: of least
      difference, below the `i64::MAX` start value, and earliest among ties. */
  ghost predicate IsClosest(fs: seq<Frame>, target: int, k: int) {
    && 0 <= k < |fs|
    && Diff(fs[k], target) < I64_MAX
    && (forall j :: 0 <= j < |fs| ==> Diff(fs[k], target) <= Diff(fs[j], target))
    && (forall j :: 0 <= j < k ==> Diff(fs[k], target) < Diff(fs[j], target))
  }

  /** The candidate the scan holds: the frame kept so far and its difference
      (`closest_frame`, `closest_diff`). */
  datatype Candidate = Candidate(frame: Option<Frame>, diff: int)

  const NoCandidate := Candidate(None, I64_MAX)

  /** One comparison of the scan: a frame replaces the candidate only when it
      is strictly closer. */
  function Improve(c: Candidate, f: Frame, target: int): Candidate {
    if Diff(f, target) < c.diff then Candidate(Some(f), Diff(f, target)) else c
  }

  /** The candidate after comparing the frames `gs` in order, starting from
      `start`. */
  function ScanFrom(start: Candidate, gs: seq<Frame>, target: int): Candidate
    decreases |gs|
  {
    if gs == [] then start
    else Improve(ScanFrom(start, gs[..|gs| - 1], target), gs[|gs| - 1], target)
  }

  /** The candidate after comparing the frames `fs` in order, from none. */
  function Scan(fs: seq<Frame>, target: int): Candidate {
    ScanFrom(NoCandidate, fs, target)
  }

  /** The scan keeps the closest frame: a frame is held exactly when some frame
      differs by less than `i64::MAX`, and then it is the earliest frame of
      least difference, and the held difference is its difference. */
  lemma {:induction false} ScanFindsClosest(fs: seq<Frame>, target: int)
    ensures var c := Scan(fs, target);
      && (c.frame.None? <==> forall j :: 0 <= j < |fs| ==> Diff(fs[j], target) >= I64_MAX)
      && (c.frame.None? ==> c.diff == I64_MAX)
      && (c.frame.Some? ==> exists k :: IsClosest(fs, target, k) && c.frame == Some(fs[k]) && c.diff == Diff(fs[k], target))
    decreases |fs|
  {
    if fs != [] {
      var init := fs[..|fs| - 1];
      ScanFindsClosest(init, target);
      assert forall j :: 0 <= j < |init| ==> init[j] == fs[j];
      var prev := Scan(init, target);
      assert Scan(fs, target) == Improve(prev, fs[|fs| - 1], target);
      var last := |fs| - 1;
      if Diff(fs[last], target) < prev.diff {
        assert IsClosest(fs, target, last);
      } else if prev.frame.Some? {
        var k :| IsClosest(init, target, k) && prev.frame == Some(init[k]) && prev.diff == Diff(init[k], target);
        assert IsClosest(fs, target, k);
      }
    }
  }

  /** Scanning `fs` and then `gs` is scanning `fs + gs`. */
  lemma {:induction false} ScanFromAppend(start: Candidate, fs: seq<Frame>, gs: seq<Frame>, target: int)
    ensures ScanFrom(ScanFrom(start, fs, target), gs, target) == ScanFrom(start, fs + gs, target)
    decreases |gs|
  {
    if gs != [] {
      var init := gs[..|gs| - 1];
      ScanFromAppend(start, fs, init, target);
      assert (fs + gs)[..|fs + gs| - 1] == fs + init;
      assert (fs + gs)[|fs + gs| - 1] == gs[|gs| - 1];
    } else {
      assert fs + gs == fs;
    }
  }

  /** The forward pass may return after frame `k`: its pts reached the target
      and a candidate exists. */
  predicate ExitsAt(fs: seq<Frame>, target: int, k: nat)
    requires k < |fs|
  {
    PtsOrZero(fs[k]) >= target && Scan(fs[..k + 1], target).frame.Some?
  }

  /** First index at or after `from` where the forward pass returns. */
  function FirstExit(fs: seq<Frame>, target: int, from: nat): (e: Option<nat>)
    requires from <= |fs|
    ensures e.Some? ==>
      from <= e.value < |fs| && ExitsAt(fs, target, e.value)
      && forall j :: from <= j < e.value ==> !ExitsAt(fs, target, j)
    ensures e.None? ==> forall j :: from <= j < |fs| ==> !ExitsAt(fs, target, j)
    decreases |fs| - from
  {
    if from == |fs| then None
    else if ExitsAt(fs, target, from) then Some(from)
    else FirstExit(fs, target, from + 1)
  }

  /** The frames of the selected stream the forward pass decodes if it never
      returns early, and the decoder error that ends it, if any. */
  datatype Forward = Forward(frames: seq<Frame>, error: Option<string>)

  /** The safety bound: a packet whose pts lies past the horizon ends the scan;
      a packet without pts never does. */
  predicate PassesHorizon(p: Packet, horizon: int) {
    p.pts.Some? && p.pts.value > horizon
  }

  /** Packets of other streams are skipped undecoded; a refused packet ends the
      pass with its error; a packet past the horizon ends it after its frames. */
  function ForwardScan(packets: seq<Packet>, stream: nat, horizon: int): Forward
    decreases |packets|
  {
    if packets == [] then Forward([], None)
    else
      var p := packets[0];
      if p.stream != stream then ForwardScan(packets[1..], stream, horizon)
      else if p.sendError.Some? then Forward([], p.sendError)
      else if PassesHorizon(p, horizon) then Forward(p.decoded, None)
      else
        var rest := ForwardScan(packets[1..], stream, horizon);
        Forward(p.decoded + rest.frames, rest.error)
  }

  /** Index of the last frame of `gs` whose difference is below `bound`. */
  function LastBelow(gs: seq<Frame>, target: int, bound: int): (l: Option<nat>)
    ensures l.Some? ==>
      l.value < |gs| && Diff(gs[l.value], target) < bound
      && forall j :: l.value < j < |gs| ==> Diff(gs[j], target) >= bound
    ensures l.None? ==> forall j :: 0 <= j < |gs| ==> Diff(gs[j], target) >= bound
    decreases |gs|
  {
    if gs == [] then None
    else if Diff(gs[|gs| - 1], target) < bound then Some(|gs| - 1)
    else LastBelow(gs[..|gs| - 1], target, bound)
  }

  /** How the packet loop ends: it returned a frame early, a packet was
      refused with an error, or the packets ran out (or the safety bound was
      crossed) with the candidate it holds. */
  datatype Pass = Returned(frame: Frame) | Failed(message: string) | Drained(held: Candidate)

  /** The outcome of the packet loop. If the forward pass reaches a frame at or
      past the target with a candidate in hand, the closest frame decoded up
      to there is returned; otherwise a decoder error ends it; otherwise the
      candidate over all frames of the pass is held. */
  function ForwardOutcome(packets: seq<Packet>, stream: nat, target: int, horizon: int): Pass {
    var fw := ForwardScan(packets, stream, horizon);
    var fs := fw.frames;
    match FirstExit(fs, target, 0)
    case Some(k) => Returned(Scan(fs[..k + 1], target).frame.value)
    case None =>
      if fw.error.Some? then Failed(fw.error.value) else Drained(Scan(fs, target))
  }

  /** What the selection ends with: a frame to encode, no frame at all, or a
      decoder failure (`send_packet`/`send_eof` error text). */
  datatype Selection = Picked(frame: Frame) | NoFrame | DecodeError(message: string)

  /** The outcome of the scan, as the source computes it: after the packet
      loop, a failing `send_eof` is an error; otherwise each flushed frame
      whose difference is below the difference held before the flush replaces
      the candidate (that difference is not lowered while flushing), so the
      last such frame wins. */
  function Select(packets: seq<Packet>, flush: Flush, stream: nat, target: int, horizon: int): Selection {
    match ForwardOutcome(packets, stream, target, horizon)
    case Returned(f) => Picked(f)
    case Failed(m) => DecodeError(m)
    case Drained(held) =>
      if flush.eofError.Some? then DecodeError(flush.eofError.value)
      else
        match LastBelow(flush.decoded, target, held.diff)
        case Some(j) => Picked(flush.decoded[j])
        case None => if held.frame.Some? then Picked(held.frame.value) else NoFrame
  }

  /** The evidently intended outcome: the flush continues the same
      strict-improvement scan, lowering the held difference as it goes. */
  function SelectCorrected(packets: seq<Packet>, flush: Flush, stream: nat, target: int, horizon: int): Selection {
    match ForwardOutcome(packets, stream, target, horizon)
    case Returned(f) => Picked(f)
    case Failed(m) => DecodeError(m)
    case Drained(held) =>
      if flush.eofError.Some? then DecodeError(flush.eofError.value)
      else
        var c := ScanFrom(held, flush.decoded, target);
        if c.frame.Some? then Picked(c.frame.value) else NoFrame
  }

  /** The packet loop of the source: packets of the selected stream are fed to
      the decoder, each frame it returns is compared with the target
      (replacing the candidate only on a strictly smaller difference), the
      loop returns at the first frame at or past the target once it holds a
      candidate, and stops after a packet past the horizon. */
  method ForwardPass(packets: seq<Packet>, stream: nat, target: int, horizon: int) returns (r: Pass)
    ensures r == ForwardOutcome(packets, stream, target, horizon)
  {
    var closest: Option<Frame> := None;
    var closestDiff := I64_MAX;
    ghost var seen: seq<Frame> := [];
    ghost var whole := ForwardScan(packets, stream, horizon);
    var i := 0;
    var stopped := false;
    while i < |packets|
      invariant 0 <= i <= |packets|
      invariant !stopped ==> whole == Resume(seen, ForwardScan(packets[i..], stream, horizon))
      invariant stopped ==> whole == Forward(seen, None)
      invariant Tracks(seen, target, closest, closestDiff)
      invariant NoExitYet(seen, target)
      decreases |packets| - i, if stopped then 0 else 1
    {
      var p := packets[i];
      ForwardStep(packets, i, stream, horizon);
      if p.stream != stream {
        i := i + 1;
        continue;
      }
      if p.sendError.Some? {
        PassOnSendError(packets, stream, target, horizon, seen, p.sendError.value);
        return Failed(p.sendError.value);
      }
      ghost var before := seen;
      var exited;
      ghost var n;
      closest, closestDiff, exited, n := Drain(p.decoded, target, closest, closestDiff, seen);
      seen := before + p.decoded[..n];
      if exited {
        PrefixOfWhole(before, p.decoded, n, ForwardScan(packets[i..], stream, horizon).frames, whole.frames);
        PassAtExit(packets, stream, target, horizon, seen, closest, closestDiff);
        return Returned(closest.value);
      }
      assert p.decoded[..n] == p.decoded;
      if p.pts.Some? && p.pts.value > horizon {
        stopped := true;
      } else {
        i := i + 1;
      }
      if stopped {
        break;
      }
    }
    NoExitInWhole(seen, whole.frames, target);
    PassDrained(packets, stream, target, horizon, seen, closest, closestDiff);
    r := Drained(Candidate(closest, closestDiff));
  }

  /** The whole scan as the source runs it: the packet loop, `send_eof`, and
      the flush loop that compares against the difference held before it. */
  method SeekAndSelect(packets: seq<Packet>, flush: Flush, stream: nat, target: int, horizon: int)
    returns (sel: Selection)
    ensures sel == Select(packets, flush, stream, target, horizon)
  {
    var pass := ForwardPass(packets, stream, target, horizon);
    match pass
    case Returned(f) => sel := Picked(f);
    case Failed(m) => sel := DecodeError(m);
    case Drained(held) =>
      if flush.eofError.Some? {
        return DecodeError(flush.eofError.value);
      }
      var closest := FlushCandidate(flush.decoded, target, held.diff, held.frame);
      sel := if closest.Some? then Picked(closest.value) else NoFrame;
  }

  /** The scan with the flush loop corrected to lower the held difference. */
  method SeekAndSelectCorrected(packets: seq<Packet>, flush: Flush, stream: nat, target: int, horizon: int)
    returns (sel: Selection)
    ensures sel == SelectCorrected(packets, flush, stream, target, horizon)
  {
    var pass := ForwardPass(packets, stream, target, horizon);
    match pass
    case Returned(f) => sel := Picked(f);
    case Failed(m) => sel := DecodeError(m);
    case Drained(held) =>
      if flush.eofError.Some? {
        return DecodeError(flush.eofError.value);
      }
      var c := FlushClosest(flush.decoded, target, held);
      sel := if c.frame.Some? then Picked(c.frame.value) else NoFrame;
  }

  /** The drain loop of one packet: each frame the decoder returns is compared
      with the target, and the loop returns (`exited`) after the `n`th frame
      when that frame is at or past the target and a candidate is held. */
  method Drain(decoded: seq<Frame>, target: int, closest0: Option<Frame>, closestDiff0: int, ghost seen: seq<Frame>)
    returns (closest: Option<Frame>, closestDiff: int, exited: bool, ghost n: nat)
    requires Tracks(seen, target, closest0, closestDiff0)
    requires NoExitYet(seen, target)
    ensures n <= |decoded|
    ensures Tracks(seen + decoded[..n], target, closest, closestDiff)
    ensures !exited ==> n == |decoded| && NoExitYet(seen + decoded, target)
    ensures exited ==> 0 < n && closest.Some? && StopsAtEnd(seen + decoded[..n], target)
  {
    closest, closestDiff := closest0, closestDiff0;
    var j := 0;
    assert seen + decoded[..0] == seen;
    while j < |decoded|
      invariant 0 <= j <= |decoded|
      invariant Tracks(seen + decoded[..j], target, closest, closestDiff)
      invariant NoExitYet(seen + decoded[..j], target)
    {
      var f := decoded[j];
      var d := Abs(PtsOrZero(f) - target);
      AfterFrame(seen + decoded[..j], f, target, closest, closestDiff);
      if d < closestDiff {
        closestDiff := d;
        closest := Some(f);
      }
      assert seen + decoded[..j + 1] == seen + decoded[..j] + [f];
      if PtsOrZero(f) >= target && closest.Some? {
        return closest, closestDiff, true, j + 1;
      }
      j := j + 1;
    }
    assert decoded[..j] == decoded;
    return closest, closestDiff, false, j;
  }

  /** The flush loop: every flushed frame whose difference is below `bound`
      replaces the candidate; `bound` itself stays put. */
  method FlushCandidate(gs: seq<Frame>, target: int, bound: int, base: Option<Frame>) returns (closest: Option<Frame>)
    ensures closest == FlushPick(gs, target, bound, base)
  {
    closest := base;
    var k := 0;
    while k < |gs|
      invariant 0 <= k <= |gs|
      invariant closest == FlushPick(gs[..k], target, bound, base)
    {
      var g := gs[k];
      FlushStep(gs, k, target, bound, base);
      if Abs(PtsOrZero(g) - target) < bound {
        closest := Some(g);
      }
      k := k + 1;
    }
    assert gs[..k] == gs;
  }

  /** The corrected flush loop: a strictly closer flushed frame replaces the
      candidate and lowers the held difference. */
  method FlushClosest(gs: seq<Frame>, target: int, start: Candidate) returns (c: Candidate)
    ensures c == ScanFrom(start, gs, target)
  {
    var closest, closestDiff := start.frame, start.diff;
    var k := 0;
    while k < |gs|
      invariant 0 <= k <= |gs|
      invariant Candidate(closest, closestDiff) == ScanFrom(start, gs[..k], target)
    {
      var g := gs[k];
      assert gs[..k + 1][..k] == gs[..k];
      var d := Abs(PtsOrZero(g) - target);
      if d < closestDiff {
        closestDiff := d;
        closest := Some(g);
      }
      k := k + 1;
    }
    assert gs[..k] == gs;
    c := Candidate(closest, closestDiff);
  }

  /** Loop invariant of the scan: the candidate and its difference are those of
      the closest frame of the frames decoded so far. */
  ghost predicate Tracks(seen: seq<Frame>, target: int, closest: Option<Frame>, closestDiff: int) {
    Scan(seen, target) == Candidate(closest, closestDiff)
  }

  /** The candidate after the flush frames `gs`, starting from `base`. */
  ghost function FlushPick(gs: seq<Frame>, target: int, bound: int, base: Option<Frame>): Option<Frame> {
    var l := LastBelow(gs, target, bound);
    if l.Some? then Some(gs[l.value]) else base
  }

  /** The pass returns at the last frame of `fs` and at no frame before it. */
  ghost predicate StopsAtEnd(fs: seq<Frame>, target: int) {
    && 0 < |fs|
    && ExitsAt(fs, target, |fs| - 1)
    && forall j :: 0 <= j < |fs| - 1 ==> !ExitsAt(fs, target, j)
  }

  ghost predicate NoExitYet(seen: seq<Frame>, target: int) {
    forall j :: 0 <= j < |seen| ==> !ExitsAt(seen, target, j)
  }

  /** The frames decoded so far, followed by the rest of the pass. */
  function Resume(seen: seq<Frame>, rest: Forward): Forward {
    Forward(seen + rest.frames, rest.error)
  }

  /** One packet of the forward pass. */
  lemma ForwardStep(packets: seq<Packet>, i: nat, stream: nat, horizon: int)
    requires i < |packets|
    ensures var p, here, rest := packets[i], ForwardScan(packets[i..], stream, horizon), ForwardScan(packets[i + 1..], stream, horizon);
      && (p.stream != stream ==> here == rest)
      && (p.stream == stream && p.sendError.Some? ==> here == Forward([], p.sendError))
      && (p.stream == stream && p.sendError.None? && PassesHorizon(p, horizon) ==> here == Forward(p.decoded, None))
      && (p.stream == stream && p.sendError.None? && !PassesHorizon(p, horizon) ==> here == Resume(p.decoded, rest))
  {
    assert packets[i..][1..] == packets[i + 1..];
  }

  /** One frame of the drain loop: the candidate follows the closest frame, and
      the pass exits at the new frame exactly when the source's test holds. */
  lemma AfterFrame(seen: seq<Frame>, f: Frame, target: int, closest: Option<Frame>, closestDiff: int)
    requires Tracks(seen, target, closest, closestDiff)
    requires NoExitYet(seen, target)
    ensures var better := Diff(f, target) < closestDiff;
      var closest' := if better then Some(f) else closest;
      && Tracks(seen + [f], target, closest', if better then Diff(f, target) else closestDiff)
      && (!(PtsOrZero(f) >= target && closest'.Some?) ==> NoExitYet(seen + [f], target))
      && (PtsOrZero(f) >= target && closest'.Some? ==> StopsAtEnd(seen + [f], target))
  {
    var s' := seen + [f];
    assert s'[..|seen|] == seen;
    assert s'[..|seen| + 1] == s';
    forall j | 0 <= j < |seen|
      ensures ExitsAt(s', target, j) == ExitsAt(seen, target, j)
    {
      ExitsAtPrefix(seen, s', target, j);
    }
  }

  lemma PrefixOfWhole(before: seq<Frame>, decoded: seq<Frame>, n: nat, here: seq<Frame>, whole: seq<Frame>)
    requires n <= |decoded| && |decoded| <= |here| && here[..|decoded|] == decoded
    requires whole == before + here
    ensures |before + decoded[..n]| <= |whole| && whole[..|before + decoded[..n]|] == before + decoded[..n]
  {
    assert here[..n] == decoded[..n];
  }

  /** Adding frames after a prefix does not change where the prefix exits. */
  lemma ExitsAtPrefix(pre: seq<Frame>, fs: seq<Frame>, target: int, k: nat)
    requires |pre| <= |fs| && fs[..|pre|] == pre && k < |pre|
    ensures ExitsAt(fs, target, k) == ExitsAt(pre, target, k)
  {
    assert fs[..k + 1] == pre[..k + 1];
  }

  lemma NoExitInWhole(seen: seq<Frame>, fs: seq<Frame>, target: int)
    requires seen == fs
    requires NoExitYet(seen, target)
    ensures FirstExit(fs, target, 0).None?
  {
  }

  /** The scan stopped at the last frame of `pre`, the first exit of any
      continuation `fs` of it. */
  lemma ExitAtEnd(pre: seq<Frame>, fs: seq<Frame>, target: int)
    requires |pre| <= |fs| && fs[..|pre|] == pre
    requires StopsAtEnd(pre, target)
    ensures FirstExit(fs, target, 0) == Some(|pre| - 1)
    ensures fs[..|pre|] == pre
  {
    forall j | 0 <= j < |pre|
      ensures ExitsAt(fs, target, j) == ExitsAt(pre, target, j)
    {
      ExitsAtPrefix(pre, fs, target, j);
    }
  }

  lemma PassOnSendError(packets: seq<Packet>, stream: nat, target: int, horizon: int,
                        seen: seq<Frame>, message: string)
    requires ForwardScan(packets, stream, horizon) == Forward(seen, Some(message))
    requires NoExitYet(seen, target)
    ensures ForwardOutcome(packets, stream, target, horizon) == Failed(message)
  {
    NoExitInWhole(seen, seen, target);
  }

  lemma PassAtExit(packets: seq<Packet>, stream: nat, target: int, horizon: int,
                   seen: seq<Frame>, closest: Option<Frame>, closestDiff: int)
    requires var fs := ForwardScan(packets, stream, horizon).frames; |seen| <= |fs| && fs[..|seen|] == seen
    requires StopsAtEnd(seen, target)
    requires Tracks(seen, target, closest, closestDiff)
    ensures closest.Some? && ForwardOutcome(packets, stream, target, horizon) == Returned(closest.value)
  {
    var fs := ForwardScan(packets, stream, horizon).frames;
    ExitAtEnd(seen, fs, target);
    assert fs[..|seen|] == seen;
  }

  lemma PassDrained(packets: seq<Packet>, stream: nat, target: int, horizon: int,
                    seen: seq<Frame>, closest: Option<Frame>, closestDiff: int)
    requires ForwardScan(packets, stream, horizon) == Forward(seen, None)
    requires FirstExit(seen, target, 0).None?
    requires Tracks(seen, target, closest, closestDiff)
    ensures ForwardOutcome(packets, stream, target, horizon) == Drained(Candidate(closest, closestDiff))
  {
  }

  /** One frame of the flush loop. */
  lemma FlushStep(gs: seq<Frame>, k: nat, target: int, bound: int, base: Option<Frame>)
    requires k < |gs|
    ensures FlushPick(gs[..k + 1], target, bound, base)
         == if Diff(gs[k], target) < bound then Some(gs[k]) else FlushPick(gs[..k], target, bound, base)
  {
    assert gs[..k + 1][..k] == gs[..k];
  }
}
