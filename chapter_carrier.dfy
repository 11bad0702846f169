/**
 * The chapter-marker carrier of encqsvWork (libhb/enc_qsv.c): a chapter
 * mark on an input frame asks the encoder for an IDR frame, is remembered
 * in the single slot `next_chapter`, and is put on the first IDR output
 * frame whose start is at or after the marked frame's timestamp.
 */
module ChapterCarrier {
  import opened Wrappers
  import opened DtsReorder

  /** `pv->next_chapter`: index 0 means that no marker is pending. */
  datatype Chapter = Chapter(index: int, start: int)

  /** The slot as encqsvInit leaves it. */
  const NoChapter := Chapter(0, INT64_MIN)

  /** The input side's verdict: the slot after it, whether the frame is forced to IDR, and the frame's new_chap. */
  datatype Marked = Marked(pending: Chapter, forceKeyframe: bool, newChap: int)

  /**
   * One input frame with `new_chap` and timestamp `pts`, with chapter
   * markers enabled or not: a marker is taken when none is pending, and
   * dropped (logged) when one is; either way the frame's own mark is
   * cleared so that it is not written on the wrong buffer.
   */
  function OnInput(c: Chapter, newChap: int, chapterMarkers: bool, pts: int): (m: Marked)
    ensures m.forceKeyframe <==> newChap > 0 && chapterMarkers && c.index == 0
    ensures m.forceKeyframe ==> m.pending == Chapter(newChap, pts)
    ensures !m.forceKeyframe ==> m.pending == c
    ensures newChap > 0 && chapterMarkers ==> m.newChap == 0
    ensures !(newChap > 0 && chapterMarkers) ==> m.newChap == newChap
  {
    if newChap > 0 && chapterMarkers then
      if c.index == 0 then Marked(Chapter(newChap, pts), true, 0) else Marked(c, false, 0)
    else Marked(c, false, newChap)
  }

  /** The output side's verdict: the slot after it and the new_chap of the output buffer. */
  datatype Attached = Attached(pending: Chapter, newChap: int)

  /** An output frame can carry the pending marker: it is IDR and starts at or after the marker. */
  predicate Eligible(c: Chapter, idr: bool, start: int)
  {
    c.index != 0 && idr && c.start <= start
  }

  /**
   * One output frame: the pending marker goes on it exactly when it is
   * eligible, and the slot is then emptied; otherwise nothing changes and
   * the buffer carries no mark.
   */
  function OnOutput(c: Chapter, idr: bool, start: int): (a: Attached)
    ensures a.newChap != 0 <==> Eligible(c, idr, start)
    ensures Eligible(c, idr, start) ==> a.newChap == c.index && a.pending == c.(index := 0)
    ensures !Eligible(c, idr, start) ==> a.pending == c
  {
    if Eligible(c, idr, start) then Attached(c.(index := 0), c.index) else Attached(c, 0)
  }

  /** An output frame: whether it is IDR and its start. */
  datatype Output = Output(idr: bool, start: int)

  /** The new_chap values of a run of output frames, starting from the slot `c`. */
  function MarksOf(c: Chapter, outs: seq<Output>): (marks: seq<int>)
    ensures |marks| == |outs|
    decreases |outs|
  {
    if outs == [] then []
    else
      var a := OnOutput(c, outs[0].idr, outs[0].start);
      [a.newChap] + MarksOf(a.pending, outs[1..])
  }

  /** The first output frame that can carry the marker in `c`. */
  function FirstEligible(c: Chapter, outs: seq<Output>): (k: Option<nat>)
    ensures k.Some? ==> k.value < |outs| && Eligible(c, outs[k.value].idr, outs[k.value].start)
    ensures k.Some? ==> forall j :: 0 <= j < k.value ==> !Eligible(c, outs[j].idr, outs[j].start)
    ensures k.None? ==> forall j :: 0 <= j < |outs| ==> !Eligible(c, outs[j].idr, outs[j].start)
  {
    if outs == [] then None
    else if Eligible(c, outs[0].idr, outs[0].start) then Some(0)
    else match FirstEligible(c, outs[1..])
      case None => None
      case Some(k) => Some(k + 1)
  }

  /** With no marker pending, a run of output frames carries no mark. */
  lemma {:induction false} NothingPendingNoMarks(c: Chapter, outs: seq<Output>)
    requires c.index == 0
    ensures forall j :: 0 <= j < |outs| ==> MarksOf(c, outs)[j] == 0
  {
    if outs != [] {
      NothingPendingNoMarks(c, outs[1..]);
    }
  }

  /**
   * A pending marker is written exactly once, on the first eligible output
   * frame, and on no other frame of the run.
   */
  lemma {:induction false} MarkAttachedOnce(c: Chapter, outs: seq<Output>)
    ensures forall j :: 0 <= j < |outs| ==>
      MarksOf(c, outs)[j] == if FirstEligible(c, outs) == Some(j) then c.index else 0
  {
    if outs != [] {
      var a := OnOutput(c, outs[0].idr, outs[0].start);
      if Eligible(c, outs[0].idr, outs[0].start) {
        NothingPendingNoMarks(a.pending, outs[1..]);
      } else {
        MarkAttachedOnce(c, outs[1..]);
        forall j | 0 < j < |outs|
          ensures MarksOf(c, outs)[j] == if FirstEligible(c, outs) == Some(j) then c.index else 0
        {
          assert MarksOf(c, outs)[j] == MarksOf(c, outs[1..])[j - 1];
          assert FirstEligible(c, outs) == Some(j) <==> FirstEligible(c, outs[1..]) == Some(j - 1);
        }
      }
    }
  }
}
