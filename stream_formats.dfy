/**
 * The two stream formats the reframer connects, as independent reference
 * definitions: how an ITU-T H.264 Annex B stream is built from NAL units
 * (section B.1 of ITU-T H.264), and how a reader of the AVC sample format of
 * ISO/IEC 14496-15 (4-byte big-endian length before each NAL unit) takes a
 * sample apart. Together they state what the reframer of enc_qsv.c is for:
 * reframing an Annex B stream and reading the result back gives the NAL
 * units that were put in.
 */
module StreamFormats {
  import opened Wrappers
  import opened NalReframer

  /** A NAL unit as the encoder writes it: a 3- or 4-byte start code, then the body. */
  datatype Unit = Unit(longCode: bool, body: seq<Byte>)

  function StartCode(longCode: bool): seq<Byte>
  {
    if longCode then [0, 0, 0, 1] else [0, 0, 1]
  }

  /** The Annex B byte stream of the units, in order. */
  function Assemble(units: seq<Unit>): seq<Byte>
  {
    if units == [] then [] else StartCode(units[0].longCode) + units[0].body + Assemble(units[1..])
  }

  function Bodies(units: seq<Unit>): (bodies: seq<seq<Byte>>)
    ensures |bodies| == |units|
    ensures forall i :: 0 <= i < |units| ==> bodies[i] == units[i].body
  {
    if units == [] then [] else [units[0].body] + Bodies(units[1..])
  }

  /** No 00 00 01 inside the body. */
  predicate NoStartCodeIn(b: seq<Byte>)
  {
    forall i :: 0 <= i < |b| ==> !StartCodeAt(b, i)
  }

  /**
   * A body the reframer must recover exactly: not empty, not ending in a
   * zero byte (a trailing zero is `trailing_zero_8bits` of section B.1 and
   * not part of the NAL unit) and free of start codes (emulation prevention
   * guarantees that for real NAL units).
   */
  predicate WellFormed(u: Unit)
  {
    |u.body| >= 1 && u.body[|u.body| - 1] != 0 && NoStartCodeIn(u.body)
  }

  predicate AllWellFormed(units: seq<Unit>)
  {
    forall i :: 0 <= i < |units| ==> WellFormed(units[i])
  }

  /** How many bytes of the start code come before its 00 00 01 part. */
  function Lead(u: Unit): nat
  {
    if u.longCode then 1 else 0
  }

  /**
   * A reader of one AVC sample: repeatedly a 4-byte big-endian length and
   * that many NAL bytes; None when the sample is cut short.
   */
  function DecodeAvc(b: seq<Byte>): Option<seq<seq<Byte>>>
    decreases |b|
  {
    if |b| == 0 then Some([])
    else if |b| < 4 then None
    else
      var n := BigEndian32(b[..4]);
      if |b| - 4 < n then None
      else
        match DecodeAvc(b[4 + n..])
        case None => None
        case Some(rest) => Some([b[4..4 + n]] + rest)
  }

  /** Every NAL unit shorter than 16 MiB is read back exactly from its framing. */
  lemma {:induction false} FrameDecodes(nals: seq<seq<Byte>>)
    requires forall i :: 0 <= i < |nals| ==> |nals[i]| < 0x100_0000
    ensures DecodeAvc(Frame(nals)) == Some(nals)
  {
    if nals != [] {
      var n := nals[0];
      var b := Frame(nals);
      FrameDecodes(nals[1..]);
      PrefixKeepsLow24Bits(|n|);
      assert b == Prefix(|n|) + n + Frame(nals[1..]);
      assert b[..4] == Prefix(|n|);
      assert b[4..4 + |n|] == n;
      assert b[4 + |n|..] == Frame(nals[1..]);
      assert [n] + nals[1..] == nals;
    }
  }

  /** A NAL unit of exactly 16 MiB is not read back: its prefix reads as length 0. */
  lemma FrameLosesHugeNal(n: seq<Byte>)
    requires |n| == 0x100_0000
    ensures DecodeAvc(Frame([n])) != Some([n])
  {
    var b := Frame([n]);
    PrefixWrongAt16MiB();
    assert [n][1..] == [];
    assert b == Prefix(|n|) + n + Frame([]);
    assert b[..4] == [0, 0, 0, 0];
    assert b[4..4] == [];
  }

  /** The four bytes 00 00 00 01 stand at position `m` of `s`. */
  predicate LongCodeAt(s: seq<Byte>, m: nat)
  {
    m + 4 <= |s| && s[m] == 0 && s[m + 1] == 0 && s[m + 2] == 0 && s[m + 3] == 1
  }

  /** The bytes of `b` stand in `s` from position `start` on. */
  predicate BodyAt(s: seq<Byte>, start: nat, b: seq<Byte>)
  {
    start + |b| <= |s| && forall i :: 0 <= i < |b| ==> s[start + i] == b[i]
  }

  /**
   * No position inside a well-formed body, nor the extra 00 of a following
   * 4-byte start code, holds a start code.
   */
  lemma NoCodeInsideUnit(s: seq<Byte>, start: nat, u: Unit, k: nat)
    requires WellFormed(u) && BodyAt(s, start, u.body)
    requires var m := start + |u.body|; m == |s| || StartCodeAt(s, m) || LongCodeAt(s, m)
    requires start <= k < start + |u.body| + (if LongCodeAt(s, start + |u.body|) then 1 else 0)
    ensures !StartCodeAt(s, k)
  {
    var b := u.body;
    var m := start + |b|;
    if k + 2 < m {
      assert !StartCodeAt(b, k - start);
      assert s[k] == b[k - start] && s[k + 1] == b[k - start + 1] && s[k + 2] == b[k - start + 2];
    } else if k == m - 1 {
      assert s[k] == b[|b| - 1];
    } else if k == m - 2 {
      assert s[k + 1] == b[|b| - 1];
    }
  }

  /** The scanning loop passes over positions that hold no start code. */
  lemma {:induction false} ScanSkips(s: seq<Byte>, p: nat, q: nat)
    requires p <= q && q + 3 <= |s|
    requires forall k :: p <= k < q ==> !StartCodeAt(s, k)
    ensures ScanFrom(s, p) == ScanFrom(s, q)
    decreases q - p
  {
    if p < q {
      ScanSkips(s, p + 1, q);
    }
  }

  lemma AssembleCons(units: seq<Unit>)
    requires units != []
    ensures Assemble(units) == StartCode(units[0].longCode) + units[0].body + Assemble(units[1..])
  {
  }

  /** Where the parts of `a + c + b + y` stand. */
  lemma PartsOf(s: seq<Byte>, t: seq<Byte>, y: seq<Byte>, a: seq<Byte>, c: seq<Byte>, b: seq<Byte>)
    requires t == a + c + b && s == t + y
    ensures forall i :: 0 <= i < |c| ==> s[|a| + i] == c[i]
    ensures BodyAt(s, |a| + |c|, b)
  {
    forall i | 0 <= i < |c|
      ensures s[|a| + i] == c[i]
    {
      assert s[|a| + i] == t[|a| + i] == (a + c)[|a| + i];
    }
    forall i | 0 <= i < |b|
      ensures s[|a| + |c| + i] == b[i]
    {
      assert s[|a| + |c| + i] == t[|a| + |c| + i];
    }
  }

  /** The bytes `a` and the stream of the units after them. */
  lemma Shifted(s: seq<Byte>, a: seq<Byte>, units: seq<Unit>, a': seq<Byte>)
    requires units != [] && s == a + Assemble(units)
    requires a' == a + StartCode(units[0].longCode) + units[0].body
    ensures s == a' + Assemble(units[1..])
    ensures units[1..] == [] ==> |s| == |a'|
  {
    AssembleCons(units);
    var c, b, y := StartCode(units[0].longCode), units[0].body, Assemble(units[1..]);
    Assoc(a, c + b, y);
    Assoc(a, c, b);
  }

  /**
   * The units stand in `s` from position `p` to the end: each one's start
   * code, then its body, then the next unit.
   */
  predicate UnitsAt(s: seq<Byte>, p: nat, units: seq<Unit>)
    decreases |units|
  {
    if units == [] then p == |s|
    else
      var u := units[0];
      var start := p + Lead(u);
      && (if u.longCode then LongCodeAt(s, p) else StartCodeAt(s, p))
      && BodyAt(s, start + 3, u.body)
      && UnitsAt(s, start + 3 + |u.body|, units[1..])
  }

  /** The stream of the units, after some bytes `a`, lays them out from position `|a|` on. */
  lemma {:induction false} AssembledAt(s: seq<Byte>, a: seq<Byte>, units: seq<Unit>)
    requires s == a + Assemble(units)
    ensures UnitsAt(s, |a|, units)
    decreases |units|
  {
    if units != [] {
      var u := units[0];
      var c := StartCode(u.longCode);
      var t := a + c + u.body;
      assert |t| == |a| + Lead(u) + 3 + |u.body|;
      assert s == t + Assemble(units[1..]) by {
        Shifted(s, a, units, t);
      }
      assert (if u.longCode then LongCodeAt(s, |a|) else StartCodeAt(s, |a|)) && BodyAt(s, |a| + |c|, u.body) by {
        PartsOf(s, t, Assemble(units[1..]), a, c, u.body);
        if !u.longCode {
          assert s[|a| + 2] == c[2];
        }
      }
      AssembledAt(s, t, units[1..]);
    }
  }

  /**
   * The heart of the round trip: where the units are laid out from `p` on,
   * the reframer finds exactly their bodies from the first start code on.
   */
  lemma {:induction false} NalsFromUnits(s: seq<Byte>, p: nat, units: seq<Unit>, o: nat)
    requires units != [] && AllWellFormed(units) && UnitsAt(s, p, units)
    requires |s| < 0x8000_0000 && o == p + Lead(units[0])
    ensures AcceptedStartCode(s, o)
    ensures NalsFrom(s, o) == Bodies(units)
    decreases |units|
  {
    var u, rest := units[0], units[1..];
    var m := o + 3 + |u.body|;
    assert WellFormed(u);
    assert AcceptedStartCode(s, o) && BodyAt(s, o + 3, u.body) && UnitsAt(s, m, rest);
    assert Bodies(units) == [u.body] + Bodies(rest);
    if rest == [] {
      LastUnit(s, o, u);
    } else {
      assert WellFormed(rest[0]);
      var q := m + Lead(rest[0]);
      assert AcceptedStartCode(s, q) && NalsFrom(s, q) == Bodies(rest) by {
        NalsFromUnits(s, m, rest, q);
      }
      assert rest[0].longCode ==> LongCodeAt(s, m);
      assert NalsFrom(s, o) == [u.body] + NalsFrom(s, q) by {
        NextUnit(s, o, u, q);
      }
    }
  }

  /**
   * After a unit with a successor, the search from four bytes past its start
   * code lands on the successor's 00 00 01, and the unit's body ends just
   * before the successor's start code.
   */
  lemma NextUnit(s: seq<Byte>, o: nat, u: Unit, q: nat)
    requires WellFormed(u) && BodyAt(s, o + 3, u.body) && |s| < 0x8000_0000
    requires AcceptedStartCode(s, o)
    requires var m := o + 3 + |u.body|;
      AcceptedStartCode(s, q) && (q == m || (q == m + 1 && LongCodeAt(s, m)))
    ensures NalsFrom(s, o) == [u.body] + NalsFrom(s, q)
  {
    var m := o + 3 + |u.body|;
    assert LongCodeAt(s, m) <==> q == m + 1;
    assert ScanFrom(s, o + 4) == q by {
      forall k | o + 4 <= k < q
        ensures !StartCodeAt(s, k)
      {
        NoCodeInsideUnit(s, o + 3, u, k);
      }
      ScanSkips(s, o + 4, q);
      assert ScanFrom(s, q) == q;
    }
    assert NalEnd(s, o, q) == m by {
      if q == m {
        assert s[q - 1] == u.body[|u.body| - 1];
      }
    }
    assert s[o + 3..m] == u.body;
    NalsFromStep(s, o, q, m);
  }

  /** The last unit runs to the end of the stream. */
  lemma LastUnit(s: seq<Byte>, o: nat, u: Unit)
    requires WellFormed(u) && BodyAt(s, o + 3, u.body) && |s| == o + 3 + |u.body| && |s| < 0x8000_0000
    requires AcceptedStartCode(s, o)
    ensures NalsFrom(s, o) == [u.body]
  {
    if |s| - (o + 4) >= 4 {
      forall k | o + 4 <= k < |s| - 3
        ensures !StartCodeAt(s, k)
      {
        NoCodeInsideUnit(s, o + 3, u, k);
      }
      ScanSkips(s, o + 4, |s| - 3);
    }
    assert StartCodeSearch(s, o + 4).code == 0;
    assert NalsAfter(s, o + 4) == [];
    assert s[o + 3..|s|] == u.body;
  }

  /**
   * Reframing an Annex B stream of well-formed NAL units yields exactly
   * their bodies, in order, whether each start code has three or four
   * bytes; bytes `a` before the first start code are discarded.
   */
  lemma SplitAssembled(a: seq<Byte>, units: seq<Unit>)
    requires NoStartCodeIn(a) && AllWellFormed(units) && |a + Assemble(units)| < 0x8000_0000
    ensures SplitNals(a + Assemble(units)) == Bodies(units)
  {
    var s := a + Assemble(units);
    if units != [] {
      var l := |a| + Lead(units[0]);
      assert WellFormed(units[0]);
      AssembledAt(s, a, units);
      assert s[..|a|] == a;
      assert AcceptedStartCode(s, l) by {
        NalsFromUnits(s, |a|, units, l);
      }
      assert ScanFrom(s, 0) == l by {
        forall k | 0 <= k < l
          ensures !StartCodeAt(s, k)
        {
          LeadingByte(s, a, units, k);
        }
        ScanSkips(s, 0, l);
        assert ScanFrom(s, l) == l;
      }
      NalsFromUnits(s, |a|, units, l);
    } else {
      assert s == a;
      assert !exists q :: AcceptedStartCode(s, q);
      StartCodeSearchLeftmost(s, 0);
    }
  }

  /** No start code begins among the bytes before the first unit's 00 00 01. */
  lemma LeadingByte(s: seq<Byte>, a: seq<Byte>, units: seq<Unit>, k: nat)
    requires NoStartCodeIn(a) && |a| <= |s| && a == s[..|a|] && units != [] && UnitsAt(s, |a|, units)
    requires k < |a| + Lead(units[0])
    ensures !StartCodeAt(s, k)
  {
    var p := |a|;
    if k + 3 <= p {
      assert !StartCodeAt(a, k);
      assert a[k] == s[k] && a[k + 1] == s[k + 1] && a[k + 2] == s[k + 2];
    } else if k + 2 == p {
      assert s[p] == 0;
    } else if k + 1 == p {
      assert s[p + 1] == 0;
    } else {
      assert k == p && units[0].longCode;
      assert s[p + 2] == 0;
    }
  }

  /**
   * The end-to-end promise of the reframer: an Annex B stream of
   * well-formed NAL units shorter than 16 MiB, after any bytes `a` that hold
   * no start code, reframed and read back as an AVC sample, gives the NAL
   * units that were put in.
   */
  lemma ReframeRoundTrip(a: seq<Byte>, units: seq<Unit>)
    requires NoStartCodeIn(a) && AllWellFormed(units) && |a + Assemble(units)| < 0x8000_0000
    requires forall i :: 0 <= i < |units| ==> |units[i].body| < 0x100_0000
    ensures DecodeAvc(Reframe(a + Assemble(units))) == Some(Bodies(units))
  {
    SplitAssembled(a, units);
    FrameDecodes(Bodies(units));
  }
}
