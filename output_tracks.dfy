/**
 * The audio side of HandBrakeInstance.cs (HandBrake.Interop): which
 * encodings of a job are applied to which source audio tracks
 * (GetOutputTracks), and the lookup of a scanned title by its number
 * (GetTitle).
 *
 * An audio encoding's InputNumber is 0 for "every chosen track" and
 * otherwise the 1-based position of its track in the job's
 * ChosenAudioTracks; track numbers are 1-based source track numbers.
 */
module OutputTracks {
  import opened Wrappers

  /** An audio encoding of the job's encoding profile; only InputNumber matters here. */
  datatype AudioEncoding = AudioEncoding(inputNumber: int, encoder: string, bitrate: int, name: string)

  /** A scanned title: its 1-based number and how many audio tracks it has. */
  datatype Title = Title(titleNumber: int, audioTrackCount: nat)

  /** An output track: the encoding and the 1-based track number it is applied to. */
  type Pair = (AudioEncoding, int)

  /** The chosen tracks that exist in a title with `count` audio tracks, in order. */
  function Existing(chosen: seq<int>, count: int): (r: seq<int>)
    ensures |r| <= |chosen|
    decreases |chosen|
  {
    if chosen == [] then []
    else
      var last := chosen[|chosen| - 1];
      Existing(chosen[..|chosen| - 1], count) + (if last <= count then [last] else [])
  }

  /** The existing chosen tracks are the chosen tracks up to `count`; all of them when all exist. */
  lemma {:induction false} ExistingMembers(chosen: seq<int>, count: int)
    ensures forall t :: t in Existing(chosen, count) <==> t in chosen && t <= count
    ensures (forall k :: 0 <= k < |chosen| ==> chosen[k] <= count) ==> Existing(chosen, count) == chosen
    decreases |chosen|
  {
    if chosen != [] {
      var init := chosen[..|chosen| - 1];
      ExistingMembers(init, count);
      assert chosen == init + [chosen[|chosen| - 1]];
    }
  }

  /** One encoding paired with each of the tracks `ts`, in order. */
  function Pairs(e: AudioEncoding, ts: seq<int>): (ps: seq<Pair>)
    ensures |ps| == |ts|
    ensures forall k :: 0 <= k < |ts| ==> ps[k] == (e, ts[k])
  {
    seq(|ts|, k requires 0 <= k < |ts| => (e, ts[k]))
  }

  /**
   * The output tracks one encoding with a non-negative InputNumber
   * contributes: every existing chosen track for 0, the existing track at
   * its position in ChosenAudioTracks otherwise, and nothing when there
   * is no such position.
   */
  function Contribution(e: AudioEncoding, chosen: seq<int>, count: int): seq<Pair>
    requires e.inputNumber >= 0
  {
    if e.inputNumber == 0 then Pairs(e, Existing(chosen, count))
    else if e.inputNumber <= |chosen| then
      var t := chosen[e.inputNumber - 1];
      if t <= count then [(e, t)] else []
    else []
  }

  /**
   * An encoding's contribution pairs it with existing tracks only: with
   * every existing chosen track for InputNumber 0, with at most the one
   * at its position otherwise, and with none past the chosen tracks.
   */
  lemma ContributionCases(e: AudioEncoding, chosen: seq<int>, count: int)
    requires e.inputNumber >= 0
    ensures var ps := Contribution(e, chosen, count);
      && (forall k :: 0 <= k < |ps| ==> ps[k].0 == e && ps[k].1 <= count)
      && (e.inputNumber == 0 ==> forall t :: (e, t) in ps <==> t in chosen && t <= count)
      && (e.inputNumber > 0 ==> |ps| <= 1)
      && (0 < e.inputNumber <= |chosen| ==> forall t :: (e, t) in ps <==> t == chosen[e.inputNumber - 1] && t <= count)
      && (e.inputNumber > |chosen| ==> ps == [])
  {
    if e.inputNumber == 0 {
      var ex := Existing(chosen, count);
      ExistingMembers(chosen, count);
      var ps := Pairs(e, ex);
      forall t
        ensures (e, t) in ps <==> t in ex
      {
        if t in ex {
          var k :| 0 <= k < |ex| && ex[k] == t;
          assert ps[k] == (e, t);
        }
      }
    }
  }

  /**
   * What GetOutputTracks returns for the encodings `encs`, the chosen
   * tracks and a title with `count` audio tracks: the contributions in
   * encoding order, or None when a negative InputNumber makes the list
   * index throw.
   */
  function Outputs(encs: seq<AudioEncoding>, chosen: seq<int>, count: int): (r: Option<seq<Pair>>)
    decreases |encs|
  {
    if encs == [] then Some([])
    else
      var e := encs[|encs| - 1];
      match Outputs(encs[..|encs| - 1], chosen, count)
      case None => None
      case Some(ps) => if e.inputNumber < 0 then None else Some(ps + Contribution(e, chosen, count))
  }

  /** The inner loop of GetOutputTracks for an encoding with InputNumber 0: every chosen track that exists. */
  method AddForAllChosen(e: AudioEncoding, chosen: seq<int>, count: int) returns (added: seq<Pair>)
    ensures added == Pairs(e, Existing(chosen, count))
  {
    added := [];
    var j := 0;
    while j < |chosen|
      invariant 0 <= j <= |chosen|
      invariant added == Pairs(e, Existing(chosen[..j], count))
    {
      assert chosen[..j + 1][..j] == chosen[..j];
      if chosen[j] <= count {
        added := added + [(e, chosen[j])];
      }
      j := j + 1;
    }
    assert chosen[..j] == chosen;
  }

  /** GetOutputTracks, for the job's encodings and chosen tracks and the title's audio track count. */
  method GetOutputTracks(encs: seq<AudioEncoding>, chosen: seq<int>, title: Title) returns (list: Option<seq<Pair>>)
    ensures list == Outputs(encs, chosen, title.audioTrackCount)
  {
    var count := title.audioTrackCount;
    var acc: seq<Pair> := [];
    var i := 0;
    while i < |encs|
      invariant 0 <= i <= |encs|
      invariant Outputs(encs[..i], chosen, count) == Some(acc)
    {
      var e := encs[i];
      if e.inputNumber < 0 {
        // ChosenAudioTracks[InputNumber - 1] throws.
        assert encs[..i + 1][..i] == encs[..i];
        assert Outputs(encs[..i + 1], chosen, count) == None;
        assert encs[..i + 1] + encs[i + 1..] == encs;
        OutputsAppend(encs[..i + 1], encs[i + 1..], chosen, count);
        return None;
      }
      ghost var before := acc;
      if e.inputNumber == 0 {
        var added := AddForAllChosen(e, chosen, count);
        acc := acc + added;
      } else if e.inputNumber <= |chosen| {
        var trackNumber := chosen[e.inputNumber - 1];
        if trackNumber <= count {
          acc := acc + [(e, trackNumber)];
        }
      }
      assert acc == before + Contribution(e, chosen, count);
      assert encs[..i + 1][..i] == encs[..i];
      i := i + 1;
    }
    assert encs[..i] == encs;
    list := Some(acc);
  }

  /** Every track number in the result is at most the title's audio track count, and every pair's encoding is one of the job's. */
  lemma {:induction false} OutputsBounded(encs: seq<AudioEncoding>, chosen: seq<int>, count: int)
    ensures Outputs(encs, chosen, count).Some? ==>
      forall p :: p in Outputs(encs, chosen, count).value ==> p.1 <= count && p.0 in encs
    decreases |encs|
  {
    if encs != [] {
      var init := encs[..|encs| - 1];
      OutputsBounded(init, chosen, count);
      assert forall e :: e in init ==> e in encs;
      var e := encs[|encs| - 1];
      if e.inputNumber >= 0 {
        ContributionCases(e, chosen, count);
      }
    }
  }

  /** The result is None exactly when some encoding has a negative InputNumber. */
  lemma {:induction false} OutputsFailIff(encs: seq<AudioEncoding>, chosen: seq<int>, count: int)
    ensures Outputs(encs, chosen, count).None? <==> exists k :: 0 <= k < |encs| && encs[k].inputNumber < 0
    decreases |encs|
  {
    if encs != [] {
      var init := encs[..|encs| - 1];
      OutputsFailIff(init, chosen, count);
      if exists k :: 0 <= k < |init| && init[k].inputNumber < 0 {
        var k :| 0 <= k < |init| && init[k].inputNumber < 0;
        assert encs[k] == init[k];
      }
      if exists k :: 0 <= k < |encs| && encs[k].inputNumber < 0 {
        var k :| 0 <= k < |encs| && encs[k].inputNumber < 0;
        if k < |init| {
          assert init[k] == encs[k];
        }
      }
    }
  }

  /**
   * The output tracks of two runs of encodings are those of the first
   * followed by those of the second: pairs appear in encoding order.
   */
  lemma {:induction false} OutputsAppend(a: seq<AudioEncoding>, b: seq<AudioEncoding>, chosen: seq<int>, count: int)
    ensures Outputs(a + b, chosen, count).Some? <==> Outputs(a, chosen, count).Some? && Outputs(b, chosen, count).Some?
    ensures Outputs(a + b, chosen, count).Some? ==>
      Outputs(a + b, chosen, count).value == Outputs(a, chosen, count).value + Outputs(b, chosen, count).value
    decreases |b|
  {
    if b == [] {
      assert a + b == a;
      if Outputs(a, chosen, count).Some? {
        assert Outputs(a, chosen, count).value + [] == Outputs(a, chosen, count).value;
      }
    } else {
      var init, e := b[..|b| - 1], b[|b| - 1];
      assert (a + b)[..|a + b| - 1] == a + init;
      assert (a + b)[|a + b| - 1] == e;
      OutputsAppend(a, init, chosen, count);
      if Outputs(a, chosen, count).Some? && Outputs(init, chosen, count).Some? && e.inputNumber >= 0 {
        var pa, pi, c := Outputs(a, chosen, count).value, Outputs(init, chosen, count).value, Contribution(e, chosen, count);
        assert (pa + pi) + c == pa + (pi + c);
      }
    }
  }

  /** A single encoding's output tracks are its contribution. */
  lemma OutputsSingle(e: AudioEncoding, chosen: seq<int>, count: int)
    ensures e.inputNumber >= 0 ==> Outputs([e], chosen, count) == Some(Contribution(e, chosen, count))
    ensures e.inputNumber < 0 ==> Outputs([e], chosen, count) == None
  {
    assert [e][..0] == [];
    if e.inputNumber >= 0 {
      assert [] + Contribution(e, chosen, count) == Contribution(e, chosen, count);
    }
  }

  /** The titles whose number is `n`, in order. */
  function Matching(titles: seq<Title>, n: int): (r: seq<Title>)
    ensures |r| <= |titles|
    ensures forall t :: t in r <==> t in titles && t.titleNumber == n
    ensures (forall k :: 0 <= k < |titles| ==> titles[k].titleNumber != n) ==> r == []
    decreases |titles|
  {
    if titles == [] then []
    else
      var last := titles[|titles| - 1];
      assert titles == titles[..|titles| - 1] + [last];
      Matching(titles[..|titles| - 1], n) + (if last.titleNumber == n then [last] else [])
  }

  /**
   * GetTitle: SingleOrDefault over the titles. No title with that number
   * gives None (null); exactly one gives it; more than one makes
   * SingleOrDefault throw, which is the Failure.
   */
  function GetTitle(titles: seq<Title>, titleNumber: int): (r: Result<Option<Title>, string>)
    ensures r == Success(None) <==> forall k :: 0 <= k < |titles| ==> titles[k].titleNumber != titleNumber
    ensures r.Success? && r.value.Some? ==> r.value.value in titles && r.value.value.titleNumber == titleNumber
    ensures forall i, j ::
              0 <= i < j < |titles| && titles[i].titleNumber == titleNumber && titles[j].titleNumber == titleNumber
              ==> r.Failure?
    ensures forall k ::
              0 <= k < |titles| && titles[k].titleNumber == titleNumber
              && (forall j :: 0 <= j < |titles| && j != k ==> titles[j].titleNumber != titleNumber)
              ==> r == Success(Some(titles[k]))
  {
    MatchingCount(titles, titleNumber);
    var m := Matching(titles, titleNumber);
    if |m| == 0 then
      assert forall k :: 0 <= k < |titles| ==> titles[k] !in m;
      Success(None)
    else if |m| == 1 then
      assert m[0] in m;
      Success(Some(m[0]))
    else
      assert m[0] in m;
      Failure("Sequence contains more than one matching element")
  }

  /** Two titles with number `n` leave at least two matches; one alone leaves exactly itself. */
  lemma {:induction false} MatchingCount(titles: seq<Title>, n: int)
    ensures forall i, j :: 0 <= i < j < |titles| && titles[i].titleNumber == n && titles[j].titleNumber == n
              ==> |Matching(titles, n)| >= 2
    ensures forall k ::
              0 <= k < |titles| && titles[k].titleNumber == n
              && (forall j :: 0 <= j < |titles| && j != k ==> titles[j].titleNumber != n)
              ==> Matching(titles, n) == [titles[k]]
    decreases |titles|
  {
    if titles != [] {
      var last := |titles| - 1;
      var init := titles[..last];
      MatchingCount(init, n);
      assert titles == init + [titles[last]];
      forall i, j | 0 <= i < j < |titles| && titles[i].titleNumber == n && titles[j].titleNumber == n
        ensures |Matching(titles, n)| >= 2
      {
        assert init[i] == titles[i];
        if j < last {
          assert init[j] == titles[j];
        } else {
          assert titles[i] in Matching(init, n);
        }
      }
      forall k |
        0 <= k < |titles| && titles[k].titleNumber == n
        && (forall j :: 0 <= j < |titles| && j != k ==> titles[j].titleNumber != n)
        ensures Matching(titles, n) == [titles[k]]
      {
        if k == last {
          assert forall j :: 0 <= j < |init| ==> init[j] == titles[j];
        } else {
          assert init[k] == titles[k];
          assert forall j :: 0 <= j < |init| && j != k ==> init[j] == titles[j];
        }
      }
    }
  }

  /** Numbering the titles 1, 2, ... makes every title number in range resolve to its own title. */
  lemma {:induction false} GetTitleDistinct(titles: seq<Title>, k: nat)
    requires forall j :: 0 <= j < |titles| ==> titles[j].titleNumber == j + 1
    requires 0 <= k < |titles|
    ensures GetTitle(titles, k + 1) == Success(Some(titles[k]))
  {
    MatchingUnique(titles, k + 1);
    var m := Matching(titles, k + 1);
    assert titles[k] in m;
    assert m[0] in m;
    var j :| 0 <= j < |titles| && titles[j] == m[0];
  }

  /** When title numbers are distinct, a number matches at most once. */
  lemma {:induction false} MatchingUnique(titles: seq<Title>, n: int)
    requires forall i, j :: 0 <= i < j < |titles| ==> titles[i].titleNumber != titles[j].titleNumber
    ensures |Matching(titles, n)| <= 1
    decreases |titles|
  {
    if titles != [] {
      var init := titles[..|titles| - 1];
      MatchingUnique(init, n);
      if titles[|titles| - 1].titleNumber == n {
        assert forall k :: 0 <= k < |init| ==> init[k].titleNumber != n by {
          forall k | 0 <= k < |init|
            ensures init[k].titleNumber != n
          {
            assert init[k] == titles[k];
          }
        }
      }
    }
  }
}
