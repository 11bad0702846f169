/**
 * The task ring of encqsvWork (libhb/enc_qsv.c): the list of encode tasks
 * `qsv_encode->tasks`, the number of tasks in flight `pv->async_depth`, and
 * the `delayed_processing` list of pipelines whose frame the encoder kept
 * without producing a task. A submission uses the task at position
 * async_depth; a drain takes the task at position 0 and, when it produced
 * data, moves it to the tail.
 */
module TaskRing {
  import opened Wrappers

  /**
   * What MFXVideoENCODE_EncodeFrameAsync answers, as encqsvWork tells the
   * cases apart: MFX_ERR_MORE_DATA, MFX_WRN_DEVICE_BUSY, MFX_ERR_NONE or
   * another warning, and an error.
   */
  datatype SubmitStatus = MoreData | DeviceBusy | Accepted | Failed

  /** `tasks_amount` of encqsvInit: max_async_depth, or 1 when that is 0. */
  function TasksAmount(maxAsyncDepth: nat): (n: nat)
    ensures n >= 1
    ensures maxAsyncDepth > 0 ==> n == maxAsyncDepth
    ensures maxAsyncDepth == 0 ==> n == 1
  {
    if maxAsyncDepth > 0 then maxAsyncDepth else 1
  }

  /** The task list holds each of the task ids 0 .. |tasks| - 1 once. */
  predicate IsTaskList(tasks: seq<nat>)
  {
    && (forall i :: 0 <= i < |tasks| ==> tasks[i] < |tasks|)
    && (forall i, j :: 0 <= i < j < |tasks| ==> tasks[i] != tasks[j])
  }

  /** The task ids in their initial order. */
  function Identity(n: nat): (tasks: seq<nat>)
    ensures |tasks| == n && IsTaskList(tasks)
    ensures forall i :: 0 <= i < n ==> tasks[i] == i
  {
    seq(n, i => i)
  }

  /** Moving the head task to the tail, as av_qsv_list_rem and av_qsv_list_add do. */
  function Rotate(tasks: seq<nat>): seq<nat>
    requires tasks != []
  {
    tasks[1..] + [tasks[0]]
  }

  /** Rotation keeps every task id exactly once. */
  lemma RotateKeepsTaskList(tasks: seq<nat>)
    requires tasks != [] && IsTaskList(tasks)
    ensures |Rotate(tasks)| == |tasks| && IsTaskList(Rotate(tasks))
    ensures multiset(Rotate(tasks)) == multiset(tasks)
  {
    var r := Rotate(tasks);
    assert tasks == [tasks[0]] + tasks[1..];
    forall i, j | 0 <= i < j < |r|
      ensures r[i] != r[j]
    {
      if j < |r| - 1 {
        assert r[i] == tasks[i + 1] && r[j] == tasks[j + 1];
      } else {
        assert r[i] == tasks[i + 1] && r[j] == tasks[0];
      }
    }
  }

  /**
   * The ring is a FIFO of the stages `inFlight`, oldest first: the task at
   * position i, for i below the depth, holds the i-th oldest stage.
   * `stage` gives, for each task id, the stage its bitstream belongs to.
   */
  predicate Fifo(tasks: seq<nat>, stage: seq<Option<nat>>, depth: nat, inFlight: seq<nat>)
  {
    && |inFlight| == depth <= |tasks|
    && (forall i :: 0 <= i < depth ==> tasks[i] < |stage| && stage[tasks[i]] == Some(inFlight[i]))
  }

  /** The list reversed. */
  function Reverse(s: seq<nat>): (r: seq<nat>)
    ensures |r| == |s|
    ensures forall k :: 0 <= k < |s| ==> r[k] == s[|s| - 1 - k]
  {
    if s == [] then []
    else
      var r := Reverse(s[1..]);
      assert forall k :: 0 <= k < |s| - 1 ==> r[k] == s[|s| - 1 - k];
      r + [s[0]]
  }

  /** Reversing keeps every element. */
  lemma {:induction false} ReverseKeepsElements(s: seq<nat>)
    ensures multiset(Reverse(s)) == multiset(s)
  {
    if s != [] {
      ReverseKeepsElements(s[1..]);
      assert s == [s[0]] + s[1..];
    }
  }

  /**
   * The ring as a value: the task list, the stage of each task,
   * async_depth and the pipelines of delayed_processing, oldest first.
   */
  datatype RingState = RingState(tasks: seq<nat>, stage: seq<Option<nat>>, depth: nat, delayed: seq<nat>)

  /** A task list, one stage entry per task, and no more tasks in flight than there are tasks. */
  predicate WellFormed(r: RingState)
  {
    IsTaskList(r.tasks) && |r.stage| == |r.tasks| && r.depth <= |r.tasks|
  }

  /** A submission's result: the ring after it and the delayed pipelines it flushed, in the order flushed. */
  datatype Submitted = Submitted(next: RingState, flushed: seq<nat>)

  /**
   * A submission of stage `s` into the task at position async_depth, the
   * frame coming with the pipeline `item`, settled on `status`: on
   * success the task holds the stage, it is in flight, and the delayed
   * pipelines are flushed newest first; MFX_ERR_MORE_DATA keeps the
   * frame's pipeline for later; an error changes nothing.
   */
  function SubmitStep(r: RingState, status: SubmitStatus, s: nat, item: Option<nat>): (u: Submitted)
    requires WellFormed(r) && r.depth < |r.tasks|
    ensures WellFormed(u.next) && u.next.tasks == r.tasks
    ensures u.next.depth == r.depth + (if status == Accepted then 1 else 0)
  {
    match status
    case Accepted =>
      Submitted(r.(stage := r.stage[r.tasks[r.depth] := Some(s)], depth := r.depth + 1, delayed := []), Reverse(r.delayed))
    case MoreData =>
      Submitted(r.(delayed := r.delayed + if item.Some? then [item.value] else []), [])
    case _ => Submitted(r, [])
  }

  /**
   * One drain of the head task, whose bitstream holds `dataLength` bytes:
   * async_depth drops by one; only with data is the task reset and, with
   * tasks still in flight, moved to the tail.
   */
  function DrainOnce(r: RingState, dataLength: nat): (r': RingState)
    requires WellFormed(r) && r.depth > 0
    ensures WellFormed(r') && r'.depth == r.depth - 1 && r'.delayed == r.delayed
  {
    if dataLength == 0 then r.(depth := r.depth - 1)
    else if r.depth == 1 then r.(stage := r.stage[r.tasks[0] := None], depth := 0)
    else
      RotateKeepsTaskList(r.tasks);
      r.(tasks := Rotate(r.tasks), stage := r.stage[r.tasks[0] := None], depth := r.depth - 1)
  }

  /** Draining the head task once per entry of `lengths`, the bitstreams holding that many bytes. */
  function DrainMany(r: RingState, lengths: seq<nat>): (r': RingState)
    requires WellFormed(r) && |lengths| <= r.depth
    ensures WellFormed(r') && r'.depth == r.depth - |lengths| && r'.delayed == r.delayed
    decreases |lengths|
  {
    if lengths == [] then r
    else DrainOnce(DrainMany(r, lengths[..|lengths| - 1]), lengths[|lengths| - 1])
  }

  /**
   * A submission loses no pipeline: every delayed pipeline, and the
   * frame's own when it is kept, is either still delayed or flushed, and
   * only a success flushes.
   */
  lemma SubmitKeepsPipelines(r: RingState, status: SubmitStatus, s: nat, item: Option<nat>)
    requires WellFormed(r) && r.depth < |r.tasks|
    ensures var u := SubmitStep(r, status, s, item);
      && multiset(u.next.delayed) + multiset(u.flushed)
         == multiset(r.delayed) + multiset(if status == MoreData && item.Some? then [item.value] else [])
      && (u.flushed != [] ==> status == Accepted)
  {
    if status == Accepted {
      ReverseKeepsElements(r.delayed);
    }
  }

  /** A submission into the task at position async_depth keeps the FIFO, a success adding its stage last. */
  lemma SubmitKeepsFifo(r: RingState, status: SubmitStatus, s: nat, item: Option<nat>, inFlight: seq<nat>)
    requires WellFormed(r) && r.depth < |r.tasks|
    requires Fifo(r.tasks, r.stage, r.depth, inFlight)
    ensures var r' := SubmitStep(r, status, s, item).next;
      Fifo(r'.tasks, r'.stage, r'.depth, inFlight + if status == Accepted then [s] else [])
  {
    if status == Accepted {
      var stage' := r.stage[r.tasks[r.depth] := Some(s)];
      forall i | 0 <= i < r.depth + 1
        ensures stage'[r.tasks[i]] == Some((inFlight + [s])[i])
      {
        if i < r.depth {
          assert r.tasks[i] != r.tasks[r.depth];
        }
      }
    } else {
      assert inFlight + [] == inFlight;
    }
  }

  /**
   * The head task holds the oldest stage, and a drain whose bitstream had
   * data keeps the FIFO of the stages after it.
   */
  lemma DrainKeepsFifo(r: RingState, dataLength: nat, inFlight: seq<nat>)
    requires WellFormed(r) && r.depth > 0
    requires Fifo(r.tasks, r.stage, r.depth, inFlight)
    ensures r.stage[r.tasks[0]] == Some(inFlight[0])
    ensures var r' := DrainOnce(r, dataLength);
      dataLength > 0 ==> Fifo(r'.tasks, r'.stage, r'.depth, inFlight[1..])
  {
    if dataLength > 0 && r.depth > 1 {
      var r' := DrainOnce(r, dataLength);
      forall i | 0 <= i < r.depth - 1
        ensures r'.tasks[i] < |r'.stage| && r'.stage[r'.tasks[i]] == Some(inFlight[1..][i])
      {
        assert r'.tasks[i] == r.tasks[i + 1] != r.tasks[0];
      }
    }
  }

  /** The answer the submission loop settles on: the first one that is not "device busy". */
  function Settled(answers: seq<SubmitStatus>): (st: SubmitStatus)
    requires exists k :: 0 <= k < |answers| && answers[k] != DeviceBusy
    ensures st != DeviceBusy && st in answers
  {
    if answers[0] != DeviceBusy then answers[0]
    else
      assert exists k :: 0 <= k < |answers[1..]| && answers[1..][k] != DeviceBusy by {
        var k :| 0 <= k < |answers| && answers[k] != DeviceBusy;
        assert answers[1..][k - 1] == answers[k];
      }
      Settled(answers[1..])
  }

  /** An answer preceded only by busy ones is the one settled on. */
  lemma {:induction false} SettledIsFirst(answers: seq<SubmitStatus>, k: nat)
    requires k < |answers| && answers[k] != DeviceBusy
    requires forall j :: 0 <= j < k ==> answers[j] == DeviceBusy
    ensures Settled(answers) == answers[k]
  {
    if k > 0 {
      SettledIsFirst(answers[1..], k - 1);
    }
  }

  /**
   * encqsvWork drains a task after a submission settled on `settled` with
   * `depth` tasks in flight before it: the submission did not fail, and
   * async_depth after it is non-zero and has reached max_async_depth.
   */
  predicate Drains(depth: nat, maxDepth: nat, settled: SubmitStatus)
  {
    var after := if settled == Accepted then depth + 1 else depth;
    settled != Failed && after != 0 && after >= maxDepth
  }

  class Ring {
    /** `qsv_encode->tasks`: task ids in list order. */
    var tasks: seq<nat>
    /** For each task id, the stage its bitstream belongs to, None once it is reset. */
    var stage: seq<Option<nat>>
    /** `pv->async_depth`. */
    var asyncDepth: nat
    /** `pv->max_async_depth`. */
    const maxAsyncDepth: nat
    /** `pv->delayed_processing`: pipelines whose frame was taken without a task, oldest first. */
    var delayedProcessing: seq<nat>
    /** The stages in flight, oldest first. */
    ghost var inFlight: seq<nat>

    ghost predicate Valid()
      reads this
    {
      && |tasks| == TasksAmount(maxAsyncDepth)
      && IsTaskList(tasks)
      && |stage| == |tasks|
      && asyncDepth <= |tasks|
      && |inFlight| == asyncDepth
    }

    /** The ring as a value. */
    function Snapshot(): RingState
      reads this
    {
      RingState(tasks, stage, asyncDepth, delayedProcessing)
    }

    /** The tasks hold the stages in flight in order. */
    ghost predicate InOrder()
      reads this
    {
      Fifo(tasks, stage, asyncDepth, inFlight)
    }

    /** The ring as encqsvInit and qsv_enc_init leave it: `tasks_amount` idle tasks. */
    constructor (maxAsyncDepth: nat)
      ensures Valid() && InOrder()
      ensures this.maxAsyncDepth == maxAsyncDepth
      ensures tasks == Identity(TasksAmount(maxAsyncDepth)) && asyncDepth == 0 && delayedProcessing == []
      ensures forall id :: 0 <= id < |stage| ==> stage[id] == None
    {
      this.maxAsyncDepth := maxAsyncDepth;
      tasks := Identity(TasksAmount(maxAsyncDepth));
      stage := seq(TasksAmount(maxAsyncDepth), _ => None);
      asyncDepth := 0;
      delayedProcessing := [];
      inFlight := [];
    }

    /**
     * The submission loop of encqsvWork with the encoder's answers
     * `answers`: busy answers are retried, and the answer settled on
     * changes the ring as SubmitStep says, the delayed pipelines being
     * flushed one by one from the newest.
     */
    method Submit(answers: seq<SubmitStatus>, s: nat, item: Option<nat>)
      returns (status: SubmitStatus, retries: nat, flushed: seq<nat>)
      requires Valid() && asyncDepth < |tasks|
      requires exists k :: 0 <= k < |answers| && answers[k] != DeviceBusy
      modifies this
      ensures Valid()
      ensures retries < |answers| && status == answers[retries] && status == Settled(answers)
      ensures forall j :: 0 <= j < retries ==> answers[j] == DeviceBusy
      ensures Submitted(Snapshot(), flushed) == SubmitStep(old(Snapshot()), status, s, item)
      ensures inFlight == old(inFlight) + if status == Accepted then [s] else []
      ensures old(InOrder()) ==> InOrder()
    {
      retries := 0;
      while answers[retries] == DeviceBusy
        invariant retries < |answers|
        invariant exists k :: retries <= k < |answers| && answers[k] != DeviceBusy
        invariant forall j :: 0 <= j < retries ==> answers[j] == DeviceBusy
        decreases |answers| - retries
      {
        retries := retries + 1;
      }
      status := answers[retries];
      SettledIsFirst(answers, retries);
      if InOrder() {
        SubmitKeepsFifo(Snapshot(), status, s, item, inFlight);
      }
      flushed := [];
      if status == MoreData {
        if item.Some? {
          delayedProcessing := delayedProcessing + [item.value];
        }
      } else if status == Accepted {
        stage := stage[tasks[asyncDepth] := Some(s)];
        asyncDepth := asyncDepth + 1;
        inFlight := inFlight + [s];
        flushed := FlushDelayed();
      } else {
        assert inFlight + [] == inFlight;
      }
    }

    /** The loop over delayed_processing from its last entry: each pipeline is removed and flushed. */
    method FlushDelayed() returns (flushed: seq<nat>)
      modifies this
      ensures delayedProcessing == [] && flushed == Reverse(old(delayedProcessing))
      ensures tasks == old(tasks) && stage == old(stage) && asyncDepth == old(asyncDepth) && inFlight == old(inFlight)
    {
      ghost var delayed := delayedProcessing;
      flushed := [];
      var i := |delayedProcessing|;
      while i > 0
        invariant 0 <= i <= |delayed|
        invariant tasks == old(tasks) && stage == old(stage) && asyncDepth == old(asyncDepth)
        invariant inFlight == old(inFlight)
        invariant delayedProcessing == delayed[..i]
        invariant flushed == Reverse(delayed[i..])
      {
        var pipe := delayedProcessing[i - 1];
        assert delayed[i - 1..][1..] == delayed[i..];
        delayedProcessing := delayedProcessing[..i - 1];
        flushed := flushed + [pipe];
        i := i - 1;
      }
      assert delayed[0..] == delayed;
    }

    /**
     * The task side of encqsvWork for a frame: the submission of stage `s`
     * with the encoder's answers `answers`, then, once async_depth has
     * reached max_async_depth, the drain of the head task, whose bitstream
     * holds `dataLength` bytes; `finished` is the stage drained, None when
     * there was no drain, and `flushed` the delayed pipelines flushed.
     */
    method SubmitAndDrain(answers: seq<SubmitStatus>, s: nat, item: Option<nat>, dataLength: nat)
      returns (status: SubmitStatus, drained: bool, finished: Option<nat>, flushed: seq<nat>)
      requires Valid() && asyncDepth < |tasks|
      requires exists k :: 0 <= k < |answers| && answers[k] != DeviceBusy
      modifies this
      ensures Valid() && asyncDepth < |tasks|
      ensures status == Settled(answers)
      ensures drained == Drains(old(asyncDepth), maxAsyncDepth, status)
      ensures var u := SubmitStep(old(Snapshot()), status, s, item);
        && flushed == u.flushed
        && Snapshot() == if drained then DrainOnce(u.next, dataLength) else u.next
      ensures var staged := old(inFlight) + (if status == Accepted then [s] else []);
        && inFlight == (if drained then staged[1..] else staged)
        && (!drained ==> finished == None)
        && (drained && old(InOrder()) ==> finished == Some(staged[0]))
        && (old(InOrder()) && (drained ==> dataLength > 0) ==> InOrder())
    {
      var retries;
      status, retries, flushed := Submit(answers, s, item);
      drained, finished := false, None;
      if status != Failed && asyncDepth != 0 && asyncDepth >= maxAsyncDepth {
        var task;
        task, finished := Drain(dataLength);
        drained := true;
      }
    }

    /**
     * One drain of encqsvWork, after the wait on the head task, whose
     * bitstream holds `dataLength` bytes: the head task and its stage are
     * taken and the ring changes as DrainOnce says.
     */
    method Drain(dataLength: nat) returns (task: nat, taken: Option<nat>)
      requires Valid() && asyncDepth > 0
      modifies this
      ensures Valid()
      ensures task == old(tasks[0]) && taken == old(stage[tasks[0]])
      ensures Snapshot() == DrainOnce(old(Snapshot()), dataLength)
      ensures inFlight == old(inFlight[1..])
      ensures old(InOrder()) ==> taken == Some(old(inFlight[0]))
      ensures old(InOrder()) && dataLength > 0 ==> InOrder()
    {
      if InOrder() {
        DrainKeepsFifo(Snapshot(), dataLength, inFlight);
      }
      asyncDepth := asyncDepth - 1;
      task := tasks[0];
      taken := stage[task];
      inFlight := inFlight[1..];
      if dataLength > 0 {
        if asyncDepth > 0 {
          RotateKeepsTaskList(tasks);
          tasks := Rotate(tasks);
        }
        stage := stage[task := None];
      }
    }
  }

  /**
   * A drain whose bitstream was empty neither rotates nor resets the head
   * task, so the FIFO is lost: on a ring of depth 2 with stages 0 and 1 in
   * flight, the next submission, stage 2, goes into the task at position
   * async_depth, which still holds stage 1, and the drain after it
   * returns stage 0 a second time.
   */
  method ZeroLengthDrainBreaksFifo() returns (first: Option<nat>, stages: seq<Option<nat>>, second: Option<nat>)
    ensures first == second == Some(0)
    ensures stages == [Some(0), Some(2)]
  {
    var r := new Ring(2);
    assert r.tasks[0] == 0 && r.tasks[1] == 1;
    assert [Accepted][0] != DeviceBusy;
    var st, retries, flushed := r.Submit([Accepted], 0, None);
    st, retries, flushed := r.Submit([Accepted], 1, None);
    assert r.stage == [Some(0), Some(1)];
    var task;
    task, first := r.Drain(0);
    st, retries, flushed := r.Submit([Accepted], 2, None);
    stages := r.stage;
    task, second := r.Drain(4);
  }
}
