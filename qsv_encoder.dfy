/**
 * The per-frame bookkeeping of the Quick Sync H.264 encoder in
 * libhb/enc_qsv.c: the state encqsvInit leaves in hb_work_private_t, and
 * encqsvWork, which records each input frame, submits it to the encoder,
 * drains finished tasks into output buffers (reframed bitstream, frame
 * type, timestamps, chapter mark) and flushes the encoder at the end of
 * the stream. The encoder itself is not modelled: its answers are the
 * parameters of the methods.
 */
module QsvEncoder {
  import opened Wrappers
  import opened QsvCommon
  import opened NalReframer
  import opened DtsReorder
  import opened ChapterCarrier
  import opened TaskRing
  import opened EncoderSetup

  /** A finished task as the encoder returns it: the Annex B bitstream and the fields of its mfxBitstream. */
  datatype Completed = Completed(bitstream: seq<Byte>, frameType: bv16, timeStamp: int, decodeTimeStamp: int)

  /** An output buffer of encqsvWork. */
  datatype Encoded = Encoded(
    data: seq<Byte>, marking: Marking,
    start: int, stop: int, duration: int, renderOffset: int,
    newChap: int)

  /** An input frame: its start, its chapter mark and, with opaque surfaces, the pipeline it comes with. */
  datatype InputFrame = InputFrame(pts: int, newChap: int, item: Option<nat>)

  /** What encqsvWork returns: HB_WORK_OK, HB_WORK_DONE, or the error of AV_QSV_CHECK_RESULT. */
  datatype WorkStatus = WorkOk | WorkDone | WorkError

  /**
   * The per-frame state of hb_work_private_t as a value: the DTS history
   * (init_pts, the entries of list_dts, empty when there is no list, and
   * the frame counters), `last_start`, `bfrm_delay`, `next_chapter` and
   * `init_delay`.
   */
  datatype EncState = EncState(dts: History, lastStart: int, bfrmDelay: int, nextChapter: Chapter, initDelay: int)

  /** What encqsvInit fixed for the whole encode: `bfrm_workaround`, the capabilities, API 1.6, chapter markers. */
  datatype Config = Config(bfrmWorkaround: bool, caps: Capabilities, api16: bool, chapterMarkers: bool)

  predicate ValidState(s: EncState)
  {
    ValidHistory(s.dts) && 0 <= s.bfrmDelay <= BFRM_DELAY_MAX
  }

  /** The input side's result: the state after it, whether the frame is forced to IDR, and its new_chap. */
  datatype Recorded = Recorded(next: EncState, forceKeyframe: bool, newChap: int)

  /**
   * The input side of encqsvWork for one frame: its start becomes
   * `last_start`, its timestamp enters the DTS history when DTS is
   * generated here, and its chapter mark is taken, dropped or left alone.
   */
  function InputStep(s: EncState, c: Config, frame: InputFrame): (r: Recorded)
    requires ValidState(s)
    ensures ValidState(r.next)
  {
    var m := OnInput(s.nextChapter, frame.newChap, c.chapterMarkers, frame.pts);
    var h := if s.bfrmDelay != 0 && c.bfrmWorkaround then RecordPts(s.dts, frame.pts) else s.dts;
    Recorded(s.(dts := h, lastStart := frame.pts, nextChapter := m.pending), m.forceKeyframe, m.newChap)
  }

  /** `bfrm_delay` for an output frame: corrected on the first one when B-pyramid can make it longer than 1. */
  function DelayFor(s: EncState, c: Config, timeStamp: int, decodeTimeStamp: int, duration: int): (d: int)
    requires ValidState(s) && 0 < duration <= INT64_MAX
    ensures 0 <= d <= BFRM_DELAY_MAX
  {
    if s.bfrmDelay != 0 && c.bfrmWorkaround && s.dts.framesOut == 0 && c.api16 && HasCap(c.caps, CAP_H264_BPYRAMID)
    then CorrectedBfrmDelay(timeStamp, decodeTimeStamp, duration)
    else s.bfrmDelay
  }

  /** The DTS of an output frame, with `bfrm_delay`, the entries of list_dts and `init_delay` after it. */
  datatype Timing = Timing(renderOffset: int, delay: int, queue: seq<int>, initDelay: int)

  /**
   * The DTS of an output frame with PTS `timeStamp`: the PTS itself
   * without B-frames, the encoder's DTS when it can be trusted, and
   * otherwise the DTS generated from the input history under the delay of
   * DelayFor; a first negative DTS sets `init_delay`.
   */
  function TimingOf(s: EncState, c: Config, timeStamp: int, decodeTimeStamp: int, duration: int): (t: Timing)
    requires ValidState(s) && 0 < duration <= INT64_MAX
    ensures 0 <= t.delay <= BFRM_DELAY_MAX
  {
    var d := DelayFor(s, c, timeStamp, decodeTimeStamp, duration);
    var generated := s.bfrmDelay != 0 && c.bfrmWorkaround;
    var dts := if s.bfrmDelay == 0 then timeStamp else if !c.bfrmWorkaround then decodeTimeStamp else EmitDts(s.dts, d).dts;
    Timing(dts, d, if generated then EmitDts(s.dts, d).next.queue else s.dts.queue,
           if s.bfrmDelay != 0 then UpdateInitDelay(s.initDelay, dts) else s.initDelay)
  }

  /** The output side's result: the state after it and the output buffer. */
  datatype Emission = Emission(next: EncState, frame: Encoded)

  /**
   * The output buffer encqsvWork makes of a drained task with a non-empty
   * bitstream, `duration` being the frame duration in 90 kHz ticks, and
   * the state after it: the frame is counted in `frames_out`.
   */
  function EmitStep(s: EncState, c: Config, done: Completed, duration: int): (r: Emission)
    requires ValidState(s) && 0 < duration <= INT64_MAX
    ensures ValidState(r.next)
  {
    var t := TimingOf(s, c, done.timeStamp, done.decodeTimeStamp, duration);
    var marking := MapFrameType(done.frameType);
    var a := OnOutput(s.nextChapter, marking.frameType == Idr, done.timeStamp);
    Emission(
      EncState(s.dts.(queue := t.queue, framesOut := s.dts.framesOut + 1), s.lastStart, t.delay, a.pending, t.initDelay),
      Encoded(Reframe(done.bitstream), marking, done.timeStamp, done.timeStamp + duration, duration, t.renderOffset, a.newChap))
  }

  /** EmitStep assembled from its parts. */
  lemma EmitStepOf(s: EncState, c: Config, done: Completed, duration: int, t: Timing, a: Attached)
    requires ValidState(s) && 0 < duration <= INT64_MAX
    requires t == TimingOf(s, c, done.timeStamp, done.decodeTimeStamp, duration)
    requires a == OnOutput(s.nextChapter, MapFrameType(done.frameType).frameType == Idr, done.timeStamp)
    ensures EmitStep(s, c, done, duration) == Emission(
      EncState(s.dts.(queue := t.queue, framesOut := s.dts.framesOut + 1), s.lastStart, t.delay, a.pending, t.initDelay),
      Encoded(Reframe(done.bitstream), MapFrameType(done.frameType), done.timeStamp, done.timeStamp + duration,
              duration, t.renderOffset, a.newChap))
  {
  }

  /**
   * What one output frame is and does: the reframed bitstream, the mapped
   * frame type, PTS and stop; the PTS as DTS without B-frames, the
   * encoder's DTS when it is trusted, and otherwise the generated DTS with
   * the DTS history advanced by one output; `init_delay` set by a first
   * negative DTS; the pending chapter mark exactly when the frame can
   * carry it; one more frame out, and the input side untouched.
   */
  lemma EmitStepFacts(s: EncState, c: Config, done: Completed, duration: int)
    requires ValidState(s) && 0 < duration <= INT64_MAX
    ensures var r := EmitStep(s, c, done, duration);
      && r.frame.data == Reframe(done.bitstream) && r.frame.marking == MapFrameType(done.frameType)
      && r.frame.start == done.timeStamp && r.frame.stop == done.timeStamp + duration && r.frame.duration == duration
      && r.next.dts.framesOut == s.dts.framesOut + 1 && r.next.dts.framesIn == s.dts.framesIn
      && r.next.dts.initPts == s.dts.initPts && r.next.lastStart == s.lastStart
      && (s.bfrmDelay == 0 ==> r.frame.renderOffset == done.timeStamp && r.next.bfrmDelay == 0)
      && (s.bfrmDelay != 0 && !c.bfrmWorkaround ==>
            r.frame.renderOffset == done.decodeTimeStamp && r.next.bfrmDelay == s.bfrmDelay && r.next.dts.queue == s.dts.queue)
      && (s.bfrmDelay != 0 && c.bfrmWorkaround ==>
            && r.next.bfrmDelay == (if s.dts.framesOut == 0 && c.api16 && HasCap(c.caps, CAP_H264_BPYRAMID)
                                    then CorrectedBfrmDelay(done.timeStamp, done.decodeTimeStamp, duration) else s.bfrmDelay)
            && r.frame.renderOffset == EmitDts(s.dts, r.next.bfrmDelay).dts
            && r.next.dts == EmitDts(s.dts, r.next.bfrmDelay).next)
      && r.next.initDelay == (if s.bfrmDelay != 0 then UpdateInitDelay(s.initDelay, r.frame.renderOffset) else s.initDelay)
      && (r.frame.newChap != 0 <==> Eligible(s.nextChapter, r.frame.marking.frameType == Idr, done.timeStamp))
      && (r.frame.newChap != 0 ==> r.frame.newChap == s.nextChapter.index && r.next.nextChapter == s.nextChapter.(index := 0))
      && (r.frame.newChap == 0 ==> r.next.nextChapter == s.nextChapter)
  {
  }

  /** The state after a run of drains and their output buffers. */
  datatype Drained = Drained(next: EncState, out: seq<Encoded>)

  /**
   * The end of encqsvWork for a frame the encoder accepted or kept: the
   * output of the drained task if there was a drain (`drains`) and the
   * task has data, and the frame counted in `frames_in`.
   */
  function OutputStep(s: EncState, c: Config, drains: bool, done: Completed, duration: int): (r: Drained)
    requires ValidState(s) && 0 < duration <= INT64_MAX
    ensures ValidState(r.next)
  {
    if drains && |done.bitstream| > 0 then
      var em := EmitStep(s, c, done, duration);
      Drained(CountInput(em.next), [em.frame])
    else Drained(CountInput(s), [])
  }

  /** One more frame counted in `frames_in`. */
  function CountInput(s: EncState): (s': EncState)
    requires ValidState(s)
    ensures ValidState(s')
  {
    s.(dts := s.dts.(framesIn := s.dts.framesIn + 1))
  }

  /** What encqsvWork does for an input frame: the state after it, its status, the IDR request and the output. */
  datatype WorkResult = WorkResult(next: EncState, status: WorkStatus, forceKeyframe: bool, out: seq<Encoded>)

  /**
   * encqsvWork for an input frame: the input side; then nothing more
   * without a sync point, an error if the submission, settled on
   * `settled`, failed, and otherwise the output side.
   */
  function WorkStep(s: EncState, c: Config, frame: InputFrame, syncFree: bool, settled: SubmitStatus, drains: bool,
                    done: Completed, duration: int): (r: WorkResult)
    requires ValidState(s) && 0 < duration <= INT64_MAX
    ensures ValidState(r.next)
  {
    var rec := InputStep(s, c, frame);
    if !syncFree then WorkResult(rec.next, WorkOk, rec.forceKeyframe, [])
    else if settled == Failed then WorkResult(rec.next, WorkError, rec.forceKeyframe, [])
    else
      var o := OutputStep(rec.next, c, drains, done, duration);
      WorkResult(o.next, WorkOk, rec.forceKeyframe, o.out)
  }

  /** One drained task `d`: an output buffer if it has data, nothing otherwise. */
  function DrainStep(s: EncState, c: Config, d: Completed, duration: int): (r: Drained)
    requires ValidState(s) && 0 < duration <= INT64_MAX
    ensures ValidState(r.next)
  {
    if |d.bitstream| > 0 then
      var em := EmitStep(s, c, d, duration);
      Drained(em.next, [em.frame])
    else Drained(s, [])
  }

  /** Draining the finished tasks `ds[i..n]` in order from `s`: an output buffer for each one with data. */
  function DrainFrom(s: EncState, c: Config, ds: seq<Completed>, i: nat, n: nat, duration: int): (r: Drained)
    requires ValidState(s) && 0 < duration <= INT64_MAX && i <= n <= |ds|
    ensures ValidState(r.next)
    decreases n - i
  {
    if i == n then Drained(s, [])
    else
      var first := DrainStep(s, c, ds[i], duration);
      var rest := DrainFrom(first.next, c, ds, i + 1, n, duration);
      Drained(rest.next, first.out + rest.out)
  }

  /** Draining the first `n` of the finished tasks `ds`. */
  function DrainFirst(s: EncState, c: Config, ds: seq<Completed>, n: nat, duration: int): (r: Drained)
    requires ValidState(s) && 0 < duration <= INT64_MAX && n <= |ds|
  {
    DrainFrom(s, c, ds, 0, n, duration)
  }

  /** Draining `ds[i..n + 1]` is draining `ds[i..n]`, then task `n`. */
  lemma {:induction false} DrainFromNext(s: EncState, c: Config, ds: seq<Completed>, i: nat, n: nat, duration: int)
    requires ValidState(s) && 0 < duration <= INT64_MAX && i <= n < |ds|
    ensures var before := DrainFrom(s, c, ds, i, n, duration);
      var last := DrainStep(before.next, c, ds[n], duration);
      DrainFrom(s, c, ds, i, n + 1, duration) == Drained(last.next, before.out + last.out)
    decreases n - i
  {
    var first := DrainStep(s, c, ds[i], duration);
    if i == n {
      assert DrainFrom(first.next, c, ds, i + 1, n + 1, duration) == Drained(first.next, []);
      assert first.out + [] == [] + first.out;
    } else {
      DrainFromNext(first.next, c, ds, i + 1, n, duration);
      var rest := DrainFrom(first.next, c, ds, i + 1, n, duration);
      var last := DrainStep(rest.next, c, ds[n], duration);
      assert first.out + (rest.out + last.out) == first.out + rest.out + last.out;
    }
  }

  /**
   * The number of drains of the end-of-stream loop of encqsvWork that
   * starts with `depth` tasks in flight and gets the settled answers
   * `rounds` (MFX_ERR_MORE_DATA once they run out), None when one fails:
   * each round drains every task in flight, one more when its submission
   * was accepted, and the loop stops at a round with MFX_ERR_MORE_DATA
   * that drained nothing.
   */
  function FlushDrains(depth: nat, rounds: seq<SubmitStatus>, k: nat): Option<nat>
    decreases |rounds| - Min(k, |rounds|), depth
  {
    var answer := if k < |rounds| then rounds[k] else MoreData;
    if answer == Failed then None
    else
      var n := if answer == Accepted then depth + 1 else depth;
      if answer == MoreData && n == 0 then Some(0)
      else Plus(n, FlushDrains(0, rounds, k + 1))
  }

  /**
   * Whether a submission of the end-of-stream loop that starts with
   * `depth` tasks in flight and gets the settled answers `rounds` from
   * round `k` on is accepted before the loop ends.
   */
  function FlushAccepts(depth: nat, rounds: seq<SubmitStatus>, k: nat): bool
    decreases |rounds| - Min(k, |rounds|), depth
  {
    var answer := if k < |rounds| then rounds[k] else MoreData;
    if answer == Failed then false
    else if answer == Accepted then true
    else if answer == MoreData && depth == 0 then false
    else FlushAccepts(0, rounds, k + 1)
  }

  /**
   * A submission is accepted in the end-of-stream loop only if one of the
   * remaining answers is a success, and always when the next answer is.
   */
  lemma {:induction false} FlushAcceptsBounds(depth: nat, rounds: seq<SubmitStatus>, k: nat)
    requires k <= |rounds|
    ensures FlushAccepts(depth, rounds, k) ==> exists j :: k <= j < |rounds| && rounds[j] == Accepted
    ensures k < |rounds| && rounds[k] == Accepted ==> FlushAccepts(depth, rounds, k)
    decreases |rounds| - k
  {
    if k == |rounds| {
      assert !FlushAccepts(0, rounds, k + 1);
    } else if rounds[k] != Failed && rounds[k] != Accepted && !(rounds[k] == MoreData && depth == 0) {
      FlushAcceptsBounds(0, rounds, k + 1);
    }
  }

  /** Round `k` fails, stops, or has its submission accepted or leaves the question to the next round. */
  lemma FlushAcceptsRound(depth: nat, rounds: seq<SubmitStatus>, k: nat)
    ensures var answer := if k < |rounds| then rounds[k] else MoreData;
      && (answer == Failed || (answer == MoreData && depth == 0) ==> !FlushAccepts(depth, rounds, k))
      && (answer != Failed && !(answer == MoreData && depth == 0) ==>
            FlushAccepts(depth, rounds, k) == (answer == Accepted || FlushAccepts(0, rounds, k + 1)))
  {
  }

  /** The sizes of the bitstreams of `ds[i..n]`, in order. */
  function Lengths(ds: seq<Completed>, i: nat, n: nat): (r: seq<nat>)
    requires i <= n <= |ds|
    ensures |r| == n - i
    decreases n - i
  {
    if n == i then [] else Lengths(ds, i, n - 1) + [|ds[n - 1].bitstream|]
  }

  /** Draining the tasks of `ds[i..n + 1]` is draining those of `ds[i..n]`, then task `n`. */
  lemma DrainManyNext(r: RingState, ds: seq<Completed>, i: nat, n: nat)
    requires WellFormed(r) && i <= n < |ds| && n - i < r.depth
    ensures DrainMany(r, Lengths(ds, i, n + 1)) == DrainOnce(DrainMany(r, Lengths(ds, i, n)), |ds[n].bitstream|)
  {
    assert Lengths(ds, i, n + 1)[..n - i] == Lengths(ds, i, n);
  }

  /** `n` more drains than a count, or still None. */
  function Plus(n: nat, o: Option<nat>): Option<nat>
  {
    match o
    case None => None
    case Some(m) => Some(n + m)
  }

  /**
   * Round `k` of the loop after `before` drains, the count still to come
   * being `total`: it fails, stops with `before` drains, or adds the `n`
   * tasks it drains and goes on with the next round.
   */
  lemma FlushDrainsRound(total: Option<nat>, before: nat, depth: nat, rounds: seq<SubmitStatus>, k: nat)
    requires total == Plus(before, FlushDrains(depth, rounds, k))
    ensures var answer := if k < |rounds| then rounds[k] else MoreData;
      var n := if answer == Accepted then depth + 1 else depth;
      && (answer == Failed ==> total == None)
      && (answer == MoreData && n == 0 ==> total == Some(before))
      && (answer != Failed && !(answer == MoreData && n == 0) ==>
            total == Plus(before + n, FlushDrains(0, rounds, k + 1)))
  {
  }

  /**
   * What encqsvWork does for an input frame, in terms of the encoder's
   * answers: an error exactly when a sync point was free and the
   * submission failed; otherwise the frame is counted in `frames_in`
   * unless there was no sync point; and one output buffer exactly when a
   * task with data was drained, the one the output side makes of it.
   */
  lemma WorkStepFacts(s: EncState, c: Config, frame: InputFrame, syncFree: bool, settled: SubmitStatus, drains: bool,
                      done: Completed, duration: int)
    requires ValidState(s) && 0 < duration <= INT64_MAX
    ensures var r := WorkStep(s, c, frame, syncFree, settled, drains, done, duration);
      var rec := InputStep(s, c, frame);
      && (r.status == WorkError <==> syncFree && settled == Failed)
      && r.status != WorkDone
      && r.forceKeyframe == rec.forceKeyframe
      && r.next.dts.framesIn == s.dts.framesIn + (if syncFree && settled != Failed then 1 else 0)
      && |r.out| <= 1
      && (|r.out| == 1 <==> syncFree && settled != Failed && drains && |done.bitstream| > 0)
      && (|r.out| == 1 ==> r.out[0] == EmitStep(rec.next, c, done, duration).frame)
      && r.next.lastStart == frame.pts
  {
    var rec := InputStep(s, c, frame);
    assert rec.next.dts.framesIn == s.dts.framesIn;
    if syncFree && settled != Failed && drains && |done.bitstream| > 0 {
      EmitStepFacts(rec.next, c, done, duration);
    }
  }

  /** The finished tasks in `ds[i..n]` that have data, in order. */
  function WithData(ds: seq<Completed>, i: nat, n: nat): (r: seq<Completed>)
    requires i <= n <= |ds|
    ensures |r| <= n - i
    ensures forall t :: t in r ==> t in ds[i..n] && |t.bitstream| > 0
    decreases n - i
  {
    if i == n then []
    else (if |ds[i].bitstream| > 0 then [ds[i]] else []) + WithData(ds, i + 1, n)
  }

  /** The output buffer `e` holds the reframed bitstream, the frame type and the PTS of the finished task `t`. */
  predicate Describes(e: Encoded, t: Completed)
  {
    e.data == Reframe(t.bitstream) && e.marking == MapFrameType(t.frameType) && e.start == t.timeStamp
  }

  /** Each output buffer of `out` describes the task at the same place in `ts`. */
  predicate DescribeAll(out: seq<Encoded>, ts: seq<Completed>)
  {
    |out| == |ts| && forall j {:trigger Describes(out[j], ts[j])} :: 0 <= j < |out| ==> Describes(out[j], ts[j])
  }

  /** Output buffers describing two runs of tasks, one after the other, describe the two runs together. */
  lemma DescribeAllAppend(a: seq<Encoded>, b: seq<Encoded>, ta: seq<Completed>, tb: seq<Completed>)
    requires DescribeAll(a, ta) && DescribeAll(b, tb)
    ensures DescribeAll(a + b, ta + tb)
  {
    forall j | 0 <= j < |a + b|
      ensures Describes((a + b)[j], (ta + tb)[j])
    {
      if j >= |a| {
        assert (a + b)[j] == b[j - |a|] && (ta + tb)[j] == tb[j - |a|];
      }
    }
  }

  /**
   * One drain makes an output buffer exactly when the task has data,
   * describing that task, counts it in `frames_out` and leaves the input
   * side of the state alone.
   */
  lemma DrainStepFacts(s: EncState, c: Config, d: Completed, duration: int)
    requires ValidState(s) && 0 < duration <= INT64_MAX
    ensures var r := DrainStep(s, c, d, duration);
      && DescribeAll(r.out, if |d.bitstream| > 0 then [d] else [])
      && r.next.dts.framesOut == s.dts.framesOut + |r.out|
      && r.next.dts.framesIn == s.dts.framesIn && r.next.dts.initPts == s.dts.initPts && r.next.lastStart == s.lastStart
  {
    if |d.bitstream| > 0 {
      EmitStepFacts(s, c, d, duration);
    }
  }

  /**
   * Draining `ds[i..n]` makes one output buffer per task with data, in
   * order, describing that task, and counts each in `frames_out`; the
   * input side of the state is untouched.
   */
  lemma {:induction false} DrainFromOutputs(s: EncState, c: Config, ds: seq<Completed>, i: nat, n: nat, duration: int)
    requires ValidState(s) && 0 < duration <= INT64_MAX && i <= n <= |ds|
    ensures var r := DrainFrom(s, c, ds, i, n, duration);
      && DescribeAll(r.out, WithData(ds, i, n))
      && r.next.dts.framesOut == s.dts.framesOut + |r.out|
      && r.next.dts.framesIn == s.dts.framesIn && r.next.dts.initPts == s.dts.initPts && r.next.lastStart == s.lastStart
    decreases n - i
  {
    if i < n {
      var first := DrainStep(s, c, ds[i], duration);
      DrainStepFacts(s, c, ds[i], duration);
      DrainFromOutputs(first.next, c, ds, i + 1, n, duration);
      var rest := DrainFrom(first.next, c, ds, i + 1, n, duration);
      var head: seq<Completed> := if |ds[i].bitstream| > 0 then [ds[i]] else [];
      assert DrainFrom(s, c, ds, i, n, duration) == Drained(rest.next, first.out + rest.out);
      assert WithData(ds, i, n) == head + WithData(ds, i + 1, n);
      DescribeAllAppend(first.out, rest.out, head, WithData(ds, i + 1, n));
      assert |first.out + rest.out| == |first.out| + |rest.out|;
    }
  }

  /**
   * The end-of-stream loop fails only when one of the remaining answers
   * is a failure; otherwise it drains the tasks in flight and at most one
   * more task per remaining round.
   */
  lemma {:induction false} FlushDrainsBounds(depth: nat, rounds: seq<SubmitStatus>, k: nat)
    requires k <= |rounds|
    ensures FlushDrains(depth, rounds, k) == None ==> exists j :: k <= j < |rounds| && rounds[j] == Failed
    ensures FlushDrains(depth, rounds, k) != None ==>
      depth <= FlushDrains(depth, rounds, k).value <= depth + |rounds| - k
    decreases |rounds| - k
  {
    if k == |rounds| {
      assert FlushDrains(0, rounds, k + 1) == Some(0);
    } else if rounds[k] != Failed {
      FlushDrainsBounds(0, rounds, k + 1);
    }
  }

  /** The data of a new output buffer of `capacity` bytes after parse_nalus has reframed `bitstream` into it. */
  method Payload(bitstream: seq<Byte>, capacity: nat) returns (data: seq<Byte>)
    requires |Reframe(bitstream)| <= capacity
    ensures data == Reframe(bitstream)
  {
    var buf := new OutBuffer(capacity);
    ParseNalus(bitstream, buf);
    data := buf.data[..buf.size];
  }

  class Encoder {
    /** `frames_in` and `frames_out`. */
    var framesIn: nat
    var framesOut: nat
    /** `last_start`, kept for the input continuity check. */
    var lastStart: int
    /** `init_pts[BFRM_DELAY_MAX + 1]`. */
    const initPts: array<int>
    /** `list_dts`: allocated only when DTS is generated here. */
    var listDts: DtsList?
    /** `bfrm_delay` and `bfrm_workaround`. */
    var bfrmDelay: int
    const bfrmWorkaround: bool
    /** `next_chapter`. */
    var nextChapter: Chapter
    /** `w->config->h264.init_delay`. */
    var initDelay: int
    /** The task list, async_depth, max_async_depth and delayed_processing. */
    const ring: Ring
    /** `hb_qsv_info->capabilities`, and whether Media SDK API 1.6 is available. */
    const caps: Capabilities
    const api16: bool
    /** `job->chapter_markers`. */
    const chapterMarkers: bool
    /** The size of the data area hb_video_buffer_init gives each output buffer. */
    const capacity: nat

    ghost predicate Valid()
      reads this, ring, listDts
    {
      && initPts.Length == BFRM_DELAY_MAX + 1
      && ring.Valid()
      && 0 <= bfrmDelay <= BFRM_DELAY_MAX
      && (bfrmWorkaround <==> listDts != null)
      && (bfrmWorkaround ==> bfrmDelay >= 1)
    }

    /** Between two calls of encqsvWork: a task is free for the next submission. */
    ghost predicate Idle()
      reads this, ring, listDts
    {
      Valid() && ring.asyncDepth < |ring.tasks|
    }

    /** The DTS history: init_pts, the entries of list_dts and the frame counters. */
    ghost function Dts(): History
      reads this, initPts, listDts
      requires listDts != null
    {
      History(initPts[..], listDts.items, framesIn, framesOut)
    }

    /** The per-frame state as a value. */
    ghost function State(): EncState
      reads this, initPts, listDts
    {
      EncState(History(initPts[..], if listDts == null then [] else listDts.items, framesIn, framesOut),
               lastStart, bfrmDelay, nextChapter, initDelay)
    }

    /** What encqsvInit fixed. */
    function Cfg(): Config
    {
      Config(bfrmWorkaround, caps, api16, chapterMarkers)
    }

    /** The reframed bitstream of a finished task fits an output buffer. */
    predicate Fits(d: Completed)
    {
      |Reframe(d.bitstream)| <= capacity
    }

    /**
     * The state encqsvInit and qsv_enc_init leave, for the profile,
     * GopRefDist, GopPicSize and AsyncDepth Media SDK settled on and the
     * job's `cfr`: the B-frame delay and whether DTS is generated here.
     */
    constructor (codecProfile: int, gopRefDist: int, gopPicSize: int, cfr: int, maxAsyncDepth: nat,
                 caps: Capabilities, api16: bool, chapterMarkers: bool, capacity: nat)
      ensures Valid() && fresh(ring) && fresh(initPts)
      ensures bfrmDelay == InitialBfrmDelay(codecProfile, gopRefDist, gopPicSize)
      ensures bfrmWorkaround == BfrmWorkaround(bfrmDelay, cfr, api16)
      ensures listDts != null ==> fresh(listDts) && listDts.items == []
      ensures framesIn == 0 && framesOut == 0 && lastStart == INT64_MIN && nextChapter == NoChapter && initDelay == 0
      ensures ring.asyncDepth == 0 && ring.maxAsyncDepth == maxAsyncDepth && ring.delayedProcessing == [] && ring.InOrder()
      ensures forall k :: 0 <= k < initPts.Length ==> initPts[k] == 0
      ensures this.caps == caps && this.api16 == api16 && this.chapterMarkers == chapterMarkers && this.capacity == capacity
    {
      framesIn, framesOut := 0, 0;
      lastStart := INT64_MIN;
      initPts := new int[BFRM_DELAY_MAX + 1](_ => 0);
      nextChapter := NoChapter;
      initDelay := 0;
      ring := new Ring(maxAsyncDepth);
      this.caps, this.api16, this.chapterMarkers, this.capacity := caps, api16, chapterMarkers, capacity;
      var delay := if NoBFrameProfile(codecProfile) then 0 else 1;
      delay := Min(delay, gopRefDist - 1);
      delay := Min(delay, gopPicSize - 2);
      delay := Max(delay, 0);
      bfrmDelay := delay;
      if delay != 0 && (cfr != 1 || !api16) {
        bfrmWorkaround := true;
        listDts := new DtsList();
      } else {
        bfrmWorkaround := false;
        listDts := null;
      }
    }

    /**
     * The input side of encqsvWork for one frame: its start becomes
     * `last_start`, it enters the DTS history when DTS is generated here,
     * and its chapter mark is taken, dropped or left alone.
     */
    method RecordInput(frame: InputFrame) returns (forceKeyframe: bool, newChap: int)
      requires Valid()
      modifies this, initPts, listDts
      ensures Valid()
      ensures listDts == old(listDts) && bfrmDelay == old(bfrmDelay)
      ensures framesIn == old(framesIn) && framesOut == old(framesOut) && initDelay == old(initDelay)
      ensures lastStart == frame.pts
      ensures listDts != null ==> Dts() == RecordPts(old(Dts()), frame.pts)
      ensures listDts == null ==> initPts[..] == old(initPts[..])
      ensures var m := OnInput(old(nextChapter), frame.newChap, chapterMarkers, frame.pts);
        nextChapter == m.pending && forceKeyframe == m.forceKeyframe && newChap == m.newChap
      ensures Recorded(State(), forceKeyframe, newChap) == InputStep(old(State()), Cfg(), frame)
    {
      lastStart := frame.pts;
      if bfrmDelay != 0 && bfrmWorkaround {
        if framesIn <= BFRM_DELAY_MAX {
          initPts[framesIn] := frame.pts;
        }
        if framesIn != 0 {
          AddNewDts(listDts, frame.pts);
        }
      }
      forceKeyframe, newChap := false, frame.newChap;
      if frame.newChap > 0 && chapterMarkers {
        if nextChapter.index == 0 {
          nextChapter := Chapter(frame.newChap, frame.pts);
          forceKeyframe := true;
        }
        newChap := 0;
      }
    }

    /**
     * The DTS (`renderOffset`) of an output frame with PTS `timeStamp`:
     * the PTS itself without B-frames, the encoder's DTS when it can be
     * trusted, and otherwise the DTS generated from the input history,
     * after the B-pyramid correction of the delay on the first output
     * frame. A first negative DTS sets `init_delay`.
     */
    method RenderOffset(timeStamp: int, decodeTimeStamp: int, duration: int) returns (renderOffset: int)
      requires Valid() && 0 < duration <= INT64_MAX
      modifies this, listDts
      ensures Valid()
      ensures listDts == old(listDts)
      ensures framesIn == old(framesIn) && framesOut == old(framesOut)
      ensures lastStart == old(lastStart) && nextChapter == old(nextChapter)
      ensures Timing(renderOffset, bfrmDelay, State().dts.queue, initDelay)
        == TimingOf(old(State()), Cfg(), timeStamp, decodeTimeStamp, duration)
    {
      renderOffset := timeStamp;
      if bfrmDelay != 0 {
        if !bfrmWorkaround {
          renderOffset := decodeTimeStamp;
        } else {
          if framesOut == 0 && api16 && HasCap(caps, CAP_H264_BPYRAMID) {
            bfrmDelay := CorrectedBfrmDelay(timeStamp, decodeTimeStamp, duration);
          }
          if framesOut <= bfrmDelay {
            renderOffset := initPts[framesOut] - initPts[bfrmDelay];
          } else {
            renderOffset := PopNextDts(listDts);
          }
        }
        if initDelay == 0 && renderOffset < 0 {
          initDelay := -renderOffset;
        }
      }
    }

    /**
     * The output buffer encqsvWork makes of a drained task with a
     * non-empty bitstream, `duration` being the frame duration in 90 kHz
     * ticks: the reframed bitstream, the mapped frame type, PTS, stop and
     * DTS, and the pending chapter mark if the frame can carry it; the
     * frame is counted in `frames_out`.
     */
    method Emit(done: Completed, duration: int) returns (e: Encoded)
      requires Valid() && 0 < duration <= INT64_MAX
      requires |Reframe(done.bitstream)| <= capacity
      modifies this, listDts
      ensures Valid()
      ensures listDts == old(listDts)
      ensures Emission(State(), e) == EmitStep(old(State()), Cfg(), done, duration)
    {
      ghost var s0 := State();
      ghost var t := TimingOf(s0, Cfg(), done.timeStamp, done.decodeTimeStamp, duration);
      var data := Payload(done.bitstream, capacity);
      var marking := MapFrameType(done.frameType);
      var start := done.timeStamp;
      var renderOffset := RenderOffset(start, done.decodeTimeStamp, duration);
      ghost var a := OnOutput(nextChapter, marking.frameType == Idr, start);
      var newChap := 0;
      if nextChapter.index != 0 && marking.frameType == Idr && nextChapter.start <= start {
        newChap := nextChapter.index;
        nextChapter := nextChapter.(index := 0);
      }
      framesOut := framesOut + 1;
      e := Encoded(data, marking, start, start + duration, duration, renderOffset, newChap);
      assert State() == EncState(s0.dts.(queue := t.queue, framesOut := s0.dts.framesOut + 1),
                                 s0.lastStart, t.delay, a.pending, t.initDelay);
      EmitStepOf(s0, Cfg(), done, duration, t, a);
    }

    /**
     * The end of encqsvWork for a frame the encoder accepted or kept: the
     * output buffer of the drained task `done` if there was a drain and it
     * has data, and the frame counted in `frames_in`.
     */
    method Output(drained: bool, done: Completed, duration: int) returns (out: seq<Encoded>)
      requires Valid() && 0 < duration <= INT64_MAX
      requires |Reframe(done.bitstream)| <= capacity
      modifies this, listDts
      ensures Valid() && listDts == old(listDts)
      ensures Drained(State(), out) == OutputStep(old(State()), Cfg(), drained, done, duration)
    {
      ghost var before := State();
      out := [];
      if drained && |done.bitstream| > 0 {
        var e := Emit(done, duration);
        out := [e];
        assert Drained(State(), out) == Drained(EmitStep(before, Cfg(), done, duration).next, out);
      }
      ghost var after := State();
      framesIn := framesIn + 1;
      assert State() == CountInput(after);
    }

    /**
     * encqsvWork for an input frame. `syncFree` says whether a sync point
     * was free, `answers` are the encoder's answers to the submission
     * (busy ones are retried), and `done` is the task it finishes if the
     * ring is full enough to drain one; `finished` is the stage that task
     * held, None when nothing was drained, and `flushed` the delayed
     * pipelines flushed by an accepted submission.
     */
    method Work(frame: InputFrame, syncFree: bool, answers: seq<SubmitStatus>, done: Completed, duration: int)
      returns (status: WorkStatus, forceKeyframe: bool, out: seq<Encoded>, finished: Option<nat>, flushed: seq<nat>)
      requires Idle() && 0 < duration <= INT64_MAX
      requires exists k :: 0 <= k < |answers| && answers[k] != DeviceBusy
      requires |Reframe(done.bitstream)| <= capacity
      modifies this, initPts, listDts, ring
      ensures Idle() && listDts == old(listDts)
      ensures var drains := syncFree && Drains(old(ring.asyncDepth), ring.maxAsyncDepth, Settled(answers));
        WorkResult(State(), status, forceKeyframe, out)
        == WorkStep(old(State()), Cfg(), frame, syncFree, Settled(answers), drains, done, duration)
      ensures var u := SubmitStep(old(ring.Snapshot()), Settled(answers), old(framesIn), frame.item);
        var drains := syncFree && Drains(old(ring.asyncDepth), ring.maxAsyncDepth, Settled(answers));
        && ring.Snapshot() == (if !syncFree then old(ring.Snapshot()) else if drains then DrainOnce(u.next, |done.bitstream|) else u.next)
        && flushed == (if syncFree then u.flushed else [])
      ensures var staged := old(ring.inFlight) + (if syncFree && Settled(answers) == Accepted then [old(framesIn)] else []);
        var drains := syncFree && Drains(old(ring.asyncDepth), ring.maxAsyncDepth, Settled(answers));
        && ring.inFlight == (if drains then staged[1..] else staged)
        && (!drains ==> finished == None)
        && (drains && old(ring.InOrder()) ==> finished == Some(staged[0]))
        && (old(ring.InOrder()) && (drains ==> |done.bitstream| > 0) ==> ring.InOrder())
    {
      var newChap;
      forceKeyframe, newChap := RecordInput(frame);
      if !syncFree {
        return WorkOk, forceKeyframe, [], None, [];
      }
      var st, drained;
      st, drained, finished, flushed := ring.SubmitAndDrain(answers, framesIn, frame.item, |done.bitstream|);
      if st == Failed {
        return WorkError, forceKeyframe, [], finished, flushed;
      }
      out := Output(drained, done, duration);
      status := WorkOk;
    }

    /** One drain of the end-of-stream loop: the head task, which finished as `d`. */
    method DrainTask(d: Completed, duration: int) returns (out: seq<Encoded>)
      requires Valid() && ring.asyncDepth > 0 && 0 < duration <= INT64_MAX
      requires |Reframe(d.bitstream)| <= capacity
      modifies this, listDts, ring
      ensures Valid() && listDts == old(listDts)
      ensures ring.Snapshot() == DrainOnce(old(ring.Snapshot()), |d.bitstream|)
      ensures Drained(State(), out) == DrainStep(old(State()), Cfg(), d, duration)
    {
      var task, taken := ring.Drain(|d.bitstream|);
      out := [];
      if |d.bitstream| > 0 {
        var e := Emit(d, duration);
        out := [e];
      }
    }

    /**
     * The drains of `done[from..n]` took the ring from `r0` to where it
     * is, and the drains of `done[..n]` took the per-frame state from `s0`
     * to where it is, producing `acc + out`.
     */
    ghost predicate DrainedUpTo(done: seq<Completed>, n: nat, duration: int, s0: EncState, acc: seq<Encoded>, out: seq<Encoded>,
                                r0: RingState, from: nat)
      reads this, ring, initPts, listDts
    {
      && Valid() && ValidState(s0) && 0 < duration <= INT64_MAX
      && WellFormed(r0) && from <= n <= |done| && n - from <= r0.depth
      && ring.Snapshot() == DrainMany(r0, Lengths(done, from, n))
      && Drained(State(), acc + out) == DrainFirst(s0, Cfg(), done, n, duration)
    }

    /** The drain of task `n`, the next one in flight. */
    method DrainNext(done: seq<Completed>, n: nat, duration: int, ghost s0: EncState, ghost acc: seq<Encoded>, out: seq<Encoded>,
                     ghost r0: RingState, ghost from: nat)
      returns (out': seq<Encoded>)
      requires DrainedUpTo(done, n, duration, s0, acc, out, r0, from)
      requires ring.asyncDepth > 0 && n < |done| && Fits(done[n])
      modifies this, listDts, ring
      ensures DrainedUpTo(done, n + 1, duration, s0, acc, out', r0, from)
      ensures listDts == old(listDts) && ring.asyncDepth == old(ring.asyncDepth) - 1
    {
      ghost var prev := State();
      DrainManyNext(r0, done, from, n);
      DrainFromNext(s0, Cfg(), done, 0, n, duration);
      var more := DrainTask(done[n], duration);
      assert Drained(State(), more) == DrainStep(prev, Cfg(), done[n], duration);
      Assoc(acc, out, more);
      out' := out + more;
    }

    /**
     * The inner loop of the end-of-stream loop: drain every task in
     * flight, the tasks finishing as `done[from..]` in order, after the
     * drains of `done[..from]` from the state `s0` produced `acc`.
     */
    method DrainRound(done: seq<Completed>, from: nat, duration: int, ghost s0: EncState, ghost acc: seq<Encoded>)
      returns (out: seq<Encoded>, count: nat)
      requires Valid() && 0 < duration <= INT64_MAX && ValidState(s0)
      requires from + ring.asyncDepth <= |done|
      requires forall k {:trigger Fits(done[k])} :: 0 <= k < |done| ==> Fits(done[k])
      requires Drained(State(), acc) == DrainFirst(s0, Cfg(), done, from, duration)
      modifies this, listDts, ring
      ensures Valid() && listDts == old(listDts)
      ensures ring.asyncDepth == 0 && count == old(ring.asyncDepth)
      ensures ring.Snapshot() == DrainMany(old(ring.Snapshot()), Lengths(done, from, from + count))
      ensures Drained(State(), acc + out) == DrainFirst(s0, Cfg(), done, from + count, duration)
    {
      assert acc + [] == acc;
      var upTo;
      out, upTo := DrainLoop(done, from, duration, s0, acc, ring.Snapshot());
      count := upTo - from;
    }

    /** The do-while of DrainRound, the ring starting as `r0`: it drains `done[from..upTo]`. */
    method DrainLoop(done: seq<Completed>, from: nat, duration: int, ghost s0: EncState, ghost acc: seq<Encoded>,
                     ghost r0: RingState)
      returns (out: seq<Encoded>, upTo: nat)
      requires DrainedUpTo(done, from, duration, s0, acc, [], r0, from)
      requires from + ring.asyncDepth <= |done| && ring.asyncDepth == r0.depth
      requires forall k {:trigger Fits(done[k])} :: 0 <= k < |done| ==> Fits(done[k])
      modifies this, listDts, ring
      ensures DrainedUpTo(done, upTo, duration, s0, acc, out, r0, from)
      ensures listDts == old(listDts) && ring.asyncDepth == 0 && upTo == from + r0.depth
    {
      out, upTo := [], from;
      while ring.asyncDepth > 0
        invariant DrainedUpTo(done, upTo, duration, s0, acc, out, r0, from)
        invariant listDts == old(listDts) && upTo + ring.asyncDepth == from + r0.depth <= |done|
        decreases ring.asyncDepth
      {
        out := DrainNext(done, upTo, duration, s0, acc, out, r0, from);
        upTo := upTo + 1;
      }
    }

    /**
     * One round of the end-of-stream loop: submit with no frame, the
     * encoder settling on `answer`, then, unless it failed, drain every
     * task in flight, after the drains of `done[..from]` from `s0`
     * produced `acc`; `flushed` are the delayed pipelines a success
     * flushes.
     */
    method FlushRound(answer: SubmitStatus, done: seq<Completed>, from: nat, duration: int,
                      ghost s0: EncState, ghost acc: seq<Encoded>)
      returns (st: SubmitStatus, more: seq<Encoded>, count: nat, flushed: seq<nat>)
      requires Idle() && answer != DeviceBusy && 0 < duration <= INT64_MAX && ValidState(s0)
      requires from + ring.asyncDepth + (if answer == Accepted then 1 else 0) <= |done|
      requires forall k {:trigger Fits(done[k])} :: 0 <= k < |done| ==> Fits(done[k])
      requires Drained(State(), acc) == DrainFirst(s0, Cfg(), done, from, duration)
      modifies this, listDts, ring
      ensures Idle() && listDts == old(listDts) && st == answer
      ensures st == Failed ==> ring.asyncDepth == old(ring.asyncDepth) && State() == old(State()) && more == []
      ensures st != Failed ==> ring.asyncDepth == 0 && count == old(ring.asyncDepth) + (if st == Accepted then 1 else 0)
      ensures st != Failed ==> Drained(State(), acc + more) == DrainFirst(s0, Cfg(), done, from + count, duration)
      ensures st == Failed ==> ring.Snapshot() == old(ring.Snapshot())
      ensures flushed == SubmitStep(old(ring.Snapshot()), answer, old(framesIn), None).flushed
      ensures ring.delayedProcessing == if st == Accepted then [] else old(ring.delayedProcessing)
    {
      assert [answer][0] != DeviceBusy;
      var retries;
      st, retries, flushed := ring.Submit([answer], framesIn, None);
      assert ring.delayedProcessing == if st == Accepted then [] else old(ring.delayedProcessing);
      if st == Failed {
        return st, [], 0, flushed;
      }
      more, count := DrainRound(done, from, duration, s0, acc);
    }

    /**
     * Round `k` of the end-of-stream loop, the rounds before it having
     * drained `drains` tasks into `out`, starting from the state `s0`,
     * `depth0` tasks in flight and the delayed list `delayed0`, which they
     * flushed if `accepted`: FlushRound, with the count of drains, the
     * output and what is left of the loop carried on.
     */
    method FlushNext(rounds: seq<SubmitStatus>, done: seq<Completed>, duration: int, k: nat, drains: nat, out: seq<Encoded>,
                     ghost s0: EncState, ghost depth0: nat, ghost delayed0: seq<nat>, ghost accepted: bool)
      returns (st: SubmitStatus, drains': nat, out': seq<Encoded>, ghost accepted': bool)
      requires Idle() && 0 < duration <= INT64_MAX && ValidState(s0)
      requires forall j :: 0 <= j < |rounds| ==> rounds[j] != DeviceBusy
      requires forall j {:trigger Fits(done[j])} :: 0 <= j < |done| ==> Fits(done[j])
      requires drains + ring.asyncDepth + (if k < |rounds| then |rounds| - k else 0) <= |done|
      requires Drained(State(), out) == DrainFirst(s0, Cfg(), done, drains, duration)
      requires FlushDrains(depth0, rounds, 0) == Plus(drains, FlushDrains(ring.asyncDepth, rounds, k))
      requires ring.delayedProcessing == if accepted then [] else delayed0
      requires FlushAccepts(depth0, rounds, 0) == (accepted || FlushAccepts(ring.asyncDepth, rounds, k))
      modifies this, listDts, ring
      ensures Idle() && listDts == old(listDts)
      ensures st == if k < |rounds| then rounds[k] else MoreData
      ensures drains' <= |done|
      ensures Drained(State(), out') == DrainFirst(s0, Cfg(), done, drains', duration)
      ensures ring.delayedProcessing == if accepted' then [] else delayed0
      ensures st == Failed ==> FlushDrains(depth0, rounds, 0) == None && FlushAccepts(depth0, rounds, 0) == accepted'
      ensures st != Failed ==>
        && ring.asyncDepth == 0
        && drains' == drains + old(ring.asyncDepth) + (if st == Accepted then 1 else 0)
        && drains' + (if k + 1 < |rounds| then |rounds| - (k + 1) else 0) <= |done|
      ensures st == MoreData && drains' == drains ==>
        FlushDrains(depth0, rounds, 0) == Some(drains') && FlushAccepts(depth0, rounds, 0) == accepted'
      ensures st != Failed && !(st == MoreData && drains' == drains) ==>
        && FlushDrains(depth0, rounds, 0) == Plus(drains', FlushDrains(0, rounds, k + 1))
        && FlushAccepts(depth0, rounds, 0) == (accepted' || FlushAccepts(0, rounds, k + 1))
    {
      var answer := if k < |rounds| then rounds[k] else MoreData;
      FlushDrainsRound(FlushDrains(depth0, rounds, 0), drains, ring.asyncDepth, rounds, k);
      FlushAcceptsRound(ring.asyncDepth, rounds, k);
      var more, count, flushed;
      st, more, count, flushed := FlushRound(answer, done, drains, duration, s0, out);
      if st == Failed {
        return st, drains, out, accepted;
      }
      drains', out', accepted' := drains + count, out + more, accepted || st == Accepted;
    }

    /**
     * encqsvWork at the end of the stream: submit with no frame and drain
     * every task, round after round, until the encoder has nothing left
     * (it answers MFX_ERR_MORE_DATA and no task was drained in that
     * round). `rounds` are the encoder's settled answers, one per round,
     * and it answers MFX_ERR_MORE_DATA once they run out; `done` are the
     * finished tasks, one per drain, of which the first `drains` were
     * drained.
     */
    method Flush(rounds: seq<SubmitStatus>, done: seq<Completed>, duration: int)
      returns (status: WorkStatus, out: seq<Encoded>, drains: nat)
      requires Idle() && 0 < duration <= INT64_MAX
      requires forall k :: 0 <= k < |rounds| ==> rounds[k] != DeviceBusy
      requires |done| >= ring.asyncDepth + |rounds|
      requires forall k {:trigger Fits(done[k])} :: 0 <= k < |done| ==> Fits(done[k])
      modifies this, listDts, ring
      ensures Valid() && listDts == old(listDts)
      ensures status == WorkDone || status == WorkError
      ensures status == WorkError <==> FlushDrains(old(ring.asyncDepth), rounds, 0) == None
      ensures status == WorkDone ==> FlushDrains(old(ring.asyncDepth), rounds, 0) == Some(drains)
      ensures status == WorkDone ==> Idle() && ring.asyncDepth == 0
      ensures drains <= |done|
      ensures Drained(State(), out) == DrainFirst(old(State()), Cfg(), done, drains, duration)
      ensures ring.delayedProcessing == if FlushAccepts(old(ring.asyncDepth), rounds, 0) then [] else old(ring.delayedProcessing)
    {
      ghost var s0, depth0, delayed0 := State(), ring.asyncDepth, ring.delayedProcessing;
      out := [];
      var k := 0;
      drains := 0;
      ghost var accepted := false;
      while true
        invariant Idle() && listDts == old(listDts)
        invariant k == 0 ==> ring.asyncDepth == depth0
        invariant k <= |rounds| + 1
        invariant k >= 1 ==> ring.asyncDepth == 0
        invariant drains + ring.asyncDepth + (if k < |rounds| then |rounds| - k else 0) <= |done|
        invariant Drained(State(), out) == DrainFirst(s0, Cfg(), done, drains, duration)
        invariant FlushDrains(depth0, rounds, 0) == Plus(drains, FlushDrains(ring.asyncDepth, rounds, k))
        invariant ring.delayedProcessing == if accepted then [] else delayed0
        invariant FlushAccepts(depth0, rounds, 0) == (accepted || FlushAccepts(ring.asyncDepth, rounds, k))
        decreases |rounds| + 1 - k
      {
        var st, drains', out';
        ghost var accepted';
        st, drains', out', accepted' := FlushNext(rounds, done, duration, k, drains, out, s0, depth0, delayed0, accepted);
        if st == Failed {
          return WorkError, out', drains';
        }
        var stop := st == MoreData && drains' == drains;
        drains, out, accepted := drains', out', accepted';
        if stop {
          break;
        }
        k := k + 1;
      }
      status := WorkDone;
    }
  }
}
