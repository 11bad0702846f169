/**
 * DTS generation of libhb/enc_qsv.c for the case where the encoder does not
 * report decode timestamps itself (Media SDK API before 1.6, or variable
 * frame rate): the list_dts FIFO (hb_qsv_add_new_dts, hb_qsv_pop_next_dts),
 * the B-frame delay, the init_pts history and the initial delay written
 * for the edit list of the MP4 muxer.
 */
module DtsReorder {
  import opened Wrappers
  import opened QsvCommon
  import opened Profiles

  const INT64_MIN := -0x8000_0000_0000_0000

  /** BFRM_DELAY_MAX: the largest B-frame delay; init_pts holds one more entry than this. */
  const BFRM_DELAY_MAX := 16

  /** The hb_list_t of int64_t timestamps behind `list_dts`. */
  class DtsList {
    var items: seq<int>

    constructor ()
      ensures items == []
    {
      items := [];
    }
  }

  /** hb_qsv_add_new_dts: appends at the tail; does nothing for a NULL list. */
  method AddNewDts(list: DtsList?, newDts: int)
    modifies list
    ensures list != null ==> list.items == old(list.items) + [newDts]
  {
    if list != null {
      list.items := list.items + [newDts];
    }
  }

  /** What a pop gives back and the list it leaves. */
  datatype Popped = Popped(dts: int, rest: seq<int>)

  /** hb_qsv_pop_next_dts on a list holding `items`: the oldest entry, INT64_MIN when there is none. */
  function Pop(items: seq<int>): Popped
  {
    if items == [] then Popped(INT64_MIN, []) else Popped(items[0], items[1..])
  }

  /**
   * hb_qsv_pop_next_dts: removes and returns the oldest entry; returns
   * INT64_MIN and changes nothing for an empty or NULL list.
   */
  method PopNextDts(list: DtsList?) returns (nextDts: int)
    modifies list
    ensures list == null ==> nextDts == INT64_MIN
    ensures list != null ==> nextDts == Pop(old(list.items)).dts && list.items == Pop(old(list.items)).rest
    ensures list != null && old(list.items) == [] ==> nextDts == INT64_MIN && list.items == []
  {
    nextDts := INT64_MIN;
    if list != null && |list.items| > 0 {
      nextDts := list.items[0];
      list.items := list.items[1..];
    }
  }

  /** The values returned by `n` successive pops. */
  function PopSequence(items: seq<int>, n: nat): seq<int>
  {
    if n == 0 then [] else var p := Pop(items); [p.dts] + PopSequence(p.rest, n - 1)
  }

  /**
   * The list is a FIFO: successive pops return the entries in the order
   * they were added, then INT64_MIN once it is empty.
   */
  lemma {:induction false} PopsInOrder(items: seq<int>, n: nat)
    ensures |PopSequence(items, n)| == n
    ensures forall i :: 0 <= i < n ==> PopSequence(items, n)[i] == if i < |items| then items[i] else INT64_MIN
  {
    if n > 0 {
      var p := Pop(items);
      PopsInOrder(p.rest, n - 1);
      forall i | 0 <= i < n
        ensures PopSequence(items, n)[i] == if i < |items| then items[i] else INT64_MIN
      {
        if i > 0 {
          assert PopSequence(items, n)[i] == PopSequence(p.rest, n - 1)[i - 1];
        }
      }
    }
  }

  function Min(a: int, b: int): int { if a < b then a else b }
  function Max(a: int, b: int): int { if a > b then a else b }

  /** The profiles for which encqsvInit starts from no B-frame delay. */
  predicate NoBFrameProfile(codecProfile: int)
  {
    codecProfile == MFX_PROFILE_AVC_BASELINE || codecProfile == MFX_PROFILE_AVC_CONSTRAINED_HIGH
    || codecProfile == MFX_PROFILE_AVC_CONSTRAINED_BASELINE
  }

  /**
   * The initial `bfrm_delay` of encqsvInit: 0 or 1 by profile, then at most
   * GopRefDist - 1, at most GopPicSize - 2, and at least 0.
   */
  function InitialBfrmDelay(codecProfile: int, gopRefDist: int, gopPicSize: int): (d: int)
    ensures d == 0 || d == 1
    ensures d == 0 <==> NoBFrameProfile(codecProfile) || gopRefDist <= 1 || gopPicSize <= 2
  {
    var byProfile := if NoBFrameProfile(codecProfile) then 0 else 1;
    Max(Min(Min(byProfile, gopRefDist - 1), gopPicSize - 2), 0)
  }

  /**
   * `bfrm_workaround` after encqsvInit: DTS is generated by the encoder
   * glue only when there are B-frames and the frame rate is variable or the
   * Media SDK API is older than 1.6; `list_dts` exists exactly then.
   */
  function BfrmWorkaround(bfrmDelay: int, cfr: int, api16: bool): (w: bool)
    ensures w ==> bfrmDelay != 0
    ensures bfrmDelay != 0 && !api16 ==> w
    ensures bfrmDelay != 0 && cfr != 1 ==> w
    ensures cfr == 1 && api16 ==> !w
  {
    bfrmDelay != 0 && (cfr != 1 || !api16)
  }

  /**
   * DTS is generated by the glue only for a stream that can have B-frames:
   * never for the Baseline profiles, a GopRefDist of at most 1 or a GOP of
   * at most two frames; for one that can, exactly when the frame rate is
   * variable or the API predates 1.6.
   */
  lemma WorkaroundNeedsBFrames(codecProfile: int, gopRefDist: int, gopPicSize: int, cfr: int, api16: bool)
    ensures var w := BfrmWorkaround(InitialBfrmDelay(codecProfile, gopRefDist, gopPicSize), cfr, api16);
      && (NoBFrameProfile(codecProfile) || gopRefDist <= 1 || gopPicSize <= 2 ==> !w)
      && (!NoBFrameProfile(codecProfile) && gopRefDist > 1 && gopPicSize > 2 ==> (w <==> cfr != 1 || !api16))
  {
  }

  const INT64_MAX := 0x7FFF_FFFF_FFFF_FFFF
  const TWO_64 := 0x1_0000_0000_0000_0000
  const TWO_32 := 0x1_0000_0000

  /** A value taken as `uint64_t`: reduced modulo 2^64. */
  function U64(x: int): (u: nat)
    ensures u < TWO_64
    ensures 0 <= x < TWO_64 ==> u == x
  {
    x % TWO_64
  }

  /** A value stored in a 32-bit two's-complement `int`: its low 32 bits, read as signed. */
  function Int32(x: int): (v: int)
    ensures -TWO_32 / 2 <= v < TWO_32 / 2
    ensures (v - x) % TWO_32 == 0
    ensures -TWO_32 / 2 <= x < TWO_32 / 2 ==> v == x
  {
    var m := x % TWO_32;
    if m < TWO_32 / 2 then m else m - TWO_32
  }

  /**
   * The late correction of `bfrm_delay` on the first output frame with
   * B-pyramid: the gap between the first PTS and DTS in frame durations,
   * rounded, then at least 1 and at most BFRM_DELAY_MAX. The PTS is a
   * `mfxU64`, so the whole quotient is computed in unsigned 64-bit
   * arithmetic and then stored in an `int`.
   */
  function CorrectedBfrmDelay(timeStamp: int, decodeTimeStamp: int, duration: int): (d: int)
    requires 0 < duration <= INT64_MAX
    ensures 1 <= d <= BFRM_DELAY_MAX
    ensures var x := timeStamp - decodeTimeStamp + duration / 2;
      0 <= x < TWO_64 && x / duration < TWO_32 / 2 ==> d == Clip3(1, BFRM_DELAY_MAX, x / duration)
  {
    var x := timeStamp - decodeTimeStamp + duration / 2;
    QuotientInRange(x, duration);
    var frames := Int32(U64(x) / duration);
    Min(Max(frames, 1), BFRM_DELAY_MAX)
  }

  /** A quotient that fits both `uint64_t` and `int` comes through the two conversions unchanged. */
  lemma QuotientInRange(x: int, duration: int)
    requires 0 < duration
    ensures 0 <= x < TWO_64 && x / duration < TWO_32 / 2 ==> Int32(U64(x) / duration) == x / duration
  {
    if 0 <= x < TWO_64 && x / duration < TWO_32 / 2 {
      assert U64(x) == x;
      assert 0 <= x / duration;
    }
  }

  /**
   * A DTS later than the PTS is not read as a short delay: at 25 frames
   * per second (3600 ticks a frame) a DTS one frame after the PTS wraps
   * around to the largest delay.
   */
  lemma LateDtsWrapsToMaxDelay()
    ensures CorrectedBfrmDelay(0, 3600, 3600) == BFRM_DELAY_MAX
    ensures Clip3(1, BFRM_DELAY_MAX, (0 - 3600 + 3600 / 2) / 3600) == 1
  {
    var q := U64(0 - 3600 + 3600 / 2) / 3600;
    assert U64(-1800) == TWO_64 - 1800;
    assert q == 5124095576030430;
    assert Int32(q) == 2023406814;
  }

  /**
   * For a non-negative gap the quotient is the gap in frame durations
   * rounded to the nearest integer (halves upward): the gap lies within
   * half a duration of it.
   */
  lemma CorrectionRoundsToNearest(gap: int, duration: int)
    requires gap >= 0 && duration > 0
    ensures var q := (gap + duration / 2) / duration;
      q >= 0 && q * duration - duration / 2 <= gap < q * duration + duration - duration / 2
  {
    var x := gap + duration / 2;
    var q, r := x / duration, x % duration;
    assert x == q * duration + r && 0 <= r < duration;
  }

  /**
   * The state behind DTS generation: `init_pts`, the entries of
   * `list_dts`, `frames_in` and `frames_out`.
   */
  datatype History = History(initPts: seq<int>, queue: seq<int>, framesIn: nat, framesOut: nat)

  predicate ValidHistory(h: History)
  {
    |h.initPts| == BFRM_DELAY_MAX + 1
  }

  /**
   * The input side of DTS generation in encqsvWork, for one input frame
   * with timestamp `pts`: its timestamp is recorded in init_pts while
   * frames_in is at most BFRM_DELAY_MAX, and queued unless it is the first
   * frame.
   */
  function RecordPts(h: History, pts: int): (h': History)
    requires ValidHistory(h)
    ensures ValidHistory(h') && h'.framesIn == h.framesIn && h'.framesOut == h.framesOut
  {
    History(
      if h.framesIn <= BFRM_DELAY_MAX then h.initPts[h.framesIn := pts] else h.initPts,
      if h.framesIn != 0 then h.queue + [pts] else h.queue,
      h.framesIn,
      h.framesOut)
  }

  /** One input frame, with the `frames_in` increment at the end of encqsvWork. */
  function AcceptInput(h: History, pts: int): (h': History)
    requires ValidHistory(h)
    ensures ValidHistory(h')
  {
    RecordPts(h, pts).(framesIn := h.framesIn + 1)
  }

  /** init_pts[k] changes only for the input frame number k, and only for k <= BFRM_DELAY_MAX. */
  lemma InitPtsWrittenOnce(h: History, pts: int, k: nat)
    requires ValidHistory(h) && k <= BFRM_DELAY_MAX
    ensures AcceptInput(h, pts).initPts[k] != h.initPts[k] ==> k == h.framesIn
    ensures k == h.framesIn ==> AcceptInput(h, pts).initPts[k] == pts
  {
  }

  /** Every input timestamp except the first is appended to list_dts. */
  lemma QueuedUnlessFirst(h: History, pts: int)
    requires ValidHistory(h)
    ensures AcceptInput(h, pts).queue == if h.framesIn == 0 then h.queue else h.queue + [pts]
  {
  }

  /** The DTS of one output frame and the state after it. */
  datatype Emitted = Emitted(dts: int, next: History)

  /**
   * The output side of DTS generation in encqsvWork for a delay `d`,
   * including the `frames_out` increment: while frames_out <= d the DTS is
   * init_pts[frames_out] - init_pts[d], then the next popped timestamp.
   */
  function EmitDts(h: History, d: nat): (e: Emitted)
    requires ValidHistory(h) && d <= BFRM_DELAY_MAX
    ensures ValidHistory(e.next) && e.next.framesOut == h.framesOut + 1 && e.next.framesIn == h.framesIn
  {
    if h.framesOut <= d then Emitted(h.initPts[h.framesOut] - h.initPts[d], h.(framesOut := h.framesOut + 1))
    else
      var p := Pop(h.queue);
      Emitted(p.dts, h.(queue := p.rest, framesOut := h.framesOut + 1))
  }

  /** The timestamps list_dts receives from the inputs `pts`: all but the first. */
  function Queued(pts: seq<int>): seq<int>
  {
    if pts == [] then [] else pts[1..]
  }

  /** How many pops `o` output frames with delay `d` have done. */
  function PopsAfter(o: nat, d: nat): nat
  {
    if o > d + 1 then o - d - 1 else 0
  }

  /**
   * The state agrees with the input timestamps `pts` seen so far under the
   * delay `d`: init_pts holds the first ones, and list_dts the queued ones
   * not yet popped.
   */
  predicate Replays(h: History, pts: seq<int>, d: nat)
  {
    && ValidHistory(h)
    && h.framesIn == |pts|
    && (forall k :: 0 <= k < |pts| && k <= BFRM_DELAY_MAX ==> h.initPts[k] == pts[k])
    && PopsAfter(h.framesOut, d) <= |Queued(pts)|
    && h.queue == Queued(pts)[PopsAfter(h.framesOut, d)..]
  }

  /** The start of the encode: nothing in, nothing out. */
  lemma ReplayStart(initPts: seq<int>, d: nat)
    requires |initPts| == BFRM_DELAY_MAX + 1
    ensures Replays(History(initPts, [], 0, 0), [], d)
  {
  }

  /** An input frame keeps the agreement, with its timestamp added to the inputs. */
  lemma ReplayInput(h: History, pts: seq<int>, d: nat, p: int)
    requires Replays(h, pts, d)
    ensures Replays(AcceptInput(h, p), pts + [p], d)
  {
    var n := PopsAfter(h.framesOut, d);
    if pts != [] {
      assert Queued(pts + [p]) == Queued(pts) + [p];
      assert Queued(pts + [p])[n..] == Queued(pts)[n..] + [p];
    }
  }

  /**
   * The DTS the encoder gives output frame `i` under the delay `d`, in
   * terms of the input timestamps: `pts[i] - pts[d]` for the first d + 1
   * frames, then the timestamp of input i - d.
   */
  function ExpectedDts(pts: seq<int>, d: nat, i: nat): int
    requires i <= d ==> d < |pts|
    requires i > d ==> i - d < |pts|
  {
    if i <= d then pts[i] - pts[d] else pts[i - d]
  }

  /**
   * An output frame keeps the agreement and gets the expected DTS, as long
   * as the inputs it needs have arrived (init_pts[d] for the first d + 1
   * outputs, a queued timestamp after them).
   */
  lemma ReplayOutput(h: History, pts: seq<int>, d: nat)
    requires Replays(h, pts, d) && d <= BFRM_DELAY_MAX
    requires h.framesOut <= d ==> d < |pts|
    requires h.framesOut > d ==> h.framesOut - d < |pts|
    ensures Replays(EmitDts(h, d).next, pts, d)
    ensures EmitDts(h, d).dts == ExpectedDts(pts, d, h.framesOut)
  {
    if h.framesOut <= d {
      ReplayEarly(h, pts, d);
    } else {
      ReplayPop(h, pts, d);
    }
  }

  /** Output frames up to the delay read init_pts and pop nothing. */
  lemma ReplayEarly(h: History, pts: seq<int>, d: nat)
    requires Replays(h, pts, d) && d <= BFRM_DELAY_MAX && h.framesOut <= d < |pts|
    ensures Replays(EmitDts(h, d).next, pts, d)
    ensures EmitDts(h, d).dts == ExpectedDts(pts, d, h.framesOut)
  {
    var i := h.framesOut;
    assert EmitDts(h, d) == Emitted(h.initPts[i] - h.initPts[d], h.(framesOut := i + 1));
    assert PopsAfter(i + 1, d) == PopsAfter(i, d) == 0;
  }

  /** Later output frames pop the timestamp of input i - d. */
  lemma ReplayPop(h: History, pts: seq<int>, d: nat)
    requires Replays(h, pts, d) && d <= BFRM_DELAY_MAX && d < h.framesOut && h.framesOut - d < |pts|
    ensures Replays(EmitDts(h, d).next, pts, d)
    ensures EmitDts(h, d).dts == ExpectedDts(pts, d, h.framesOut)
  {
    var i := h.framesOut;
    var n := PopsAfter(i, d);
    assert n == i - d - 1 && PopsAfter(i + 1, d) == n + 1;
    var q := Queued(pts);
    assert q == pts[1..] && n < |q| && h.queue == q[n..];
    assert h.queue[0] == pts[i - d];
    assert EmitDts(h, d) == Emitted(h.queue[0], h.(queue := h.queue[1..], framesOut := i + 1));
    assert h.queue[1..] == q[n + 1..];
  }

  /** The frame at the delay gets DTS 0. */
  lemma DtsAtDelayIsZero(pts: seq<int>, d: nat)
    requires d < |pts|
    ensures ExpectedDts(pts, d, d) == 0
  {
  }

  predicate NonDecreasing(s: seq<int>)
  {
    forall i, j :: 0 <= i <= j < |s| ==> s[i] <= s[j]
  }

  /**
   * For non-negative, non-decreasing input timestamps the generated DTS
   * never decrease, and the DTS of output i is never later than the i-th
   * input timestamp.
   */
  lemma DtsMonotone(pts: seq<int>, d: nat, i: nat, j: nat)
    requires NonDecreasing(pts) && pts != [] && pts[0] >= 0
    requires d < |pts| && i <= j && j - d < |pts|
    ensures ExpectedDts(pts, d, i) <= ExpectedDts(pts, d, j)
    ensures i < |pts| ==> ExpectedDts(pts, d, i) <= pts[i]
  {
    if i <= d && j > d {
      assert pts[i] <= pts[d] && pts[0] <= pts[j - d];
    }
  }

  /**
   * `init_delay` after one output frame: set to -DTS when it is still 0 and
   * the DTS is negative (the offset of the edit list of section 8.6.1.2 of
   * ISO/IEC 14496-12).
   */
  function UpdateInitDelay(initDelay: int, dts: int): int
  {
    if initDelay == 0 && dts < 0 then -dts else initDelay
  }

  /** `init_delay` after the output frames with DTS `dtss`, from `initDelay` on. */
  function InitDelayAfter(initDelay: int, dtss: seq<int>): int
    decreases |dtss|
  {
    if dtss == [] then initDelay else InitDelayAfter(UpdateInitDelay(initDelay, dtss[0]), dtss[1..])
  }

  /** The position of the first negative DTS, if any. */
  function FirstNegative(dtss: seq<int>): (r: Option<nat>)
    ensures r.Some? ==> r.value < |dtss| && dtss[r.value] < 0 && forall k :: 0 <= k < r.value ==> dtss[k] >= 0
    ensures r.None? ==> forall k :: 0 <= k < |dtss| ==> dtss[k] >= 0
  {
    if dtss == [] then None
    else if dtss[0] < 0 then Some(0)
    else match FirstNegative(dtss[1..])
      case None => None
      case Some(k) => Some(k + 1)
  }

  /** Once set, `init_delay` keeps its value. */
  lemma {:induction false} InitDelayKept(initDelay: int, dtss: seq<int>)
    requires initDelay != 0
    ensures InitDelayAfter(initDelay, dtss) == initDelay
  {
    if dtss != [] {
      InitDelayKept(initDelay, dtss[1..]);
    }
  }

  /**
   * Starting from 0, `init_delay` ends as the negation of the first
   * negative DTS, or 0 when no DTS is negative.
   */
  lemma {:induction false} InitDelayFromFirstNegative(dtss: seq<int>)
    ensures InitDelayAfter(0, dtss) == match FirstNegative(dtss) case None => 0 case Some(k) => -dtss[k]
    ensures InitDelayAfter(0, dtss) >= 0
  {
    if dtss != [] {
      if dtss[0] < 0 {
        InitDelayKept(-dtss[0], dtss[1..]);
      } else {
        InitDelayFromFirstNegative(dtss[1..]);
      }
    }
  }
}
