/**
 * The bitstream reframer of libhb/enc_qsv.c (nal_find_start_code and
 * parse_nalus): it turns the encoder's ITU-T H.264 Annex B byte stream
 * (NAL units separated by the start code 00 00 01, optionally preceded by a
 * further 00) into the length-prefixed NAL units of the AVC sample format of
 * ISO/IEC 14496-15.
 *
 * The prefix array `ff_prefix_code` the C code measures has four bytes: the
 * NAL body begins three bytes after the position of a start code and the
 * search for the next start code resumes four bytes after it.
 */
module NalReframer {

  /** An unsigned 8-bit value (`uint8_t`). */
  newtype Byte = x: int | 0 <= x < 0x100

  /** `(int) n` for a `size_t` n: the low 32 bits, read as a signed C `int`. */
  function CInt(n: nat): (r: int)
    ensures -0x8000_0000 <= r < 0x8000_0000
    ensures n < 0x8000_0000 ==> r == n
  {
    var m := n % 0x1_0000_0000;
    if m >= 0x8000_0000 then m - 0x1_0000_0000 else m
  }

  /** The three bytes 00 00 01 stand at position `p` of `s`. */
  predicate StartCodeAt(s: seq<Byte>, p: nat)
  {
    p + 3 <= |s| && s[p] == 0 && s[p + 1] == 0 && s[p + 2] == 1
  }

  /**
   * A start code that nal_find_start_code accepts: 00 00 01 with at least
   * four bytes left from its position.
   */
  predicate AcceptedStartCode(s: seq<Byte>, p: nat)
  {
    p + 4 <= |s| && StartCodeAt(s, p)
  }

  /**
   * Where the scanning loop of nal_find_start_code stops when it starts at
   * `p`: the first position with fewer than four bytes left or a start code.
   */
  function ScanFrom(s: seq<Byte>, p: nat): (q: nat)
    requires p <= |s|
    ensures p <= q <= |s|
    decreases |s| - p
  {
    if |s| - p >= 4 && !StartCodeAt(s, p) then ScanFrom(s, p + 1) else p
  }

  /**
   * The value nal_find_start_code returns for the four bytes at `q`:
   * `(b0 << 24) | (b1 << 16) | (b2 << 8) | b3` (the fields do not overlap,
   * so the or is a sum).
   */
  function CodeValue(s: seq<Byte>, q: nat): int
    requires q + 4 <= |s|
  {
    s[q] as int * 0x100_0000 + s[q + 1] as int * 0x1_0000 + s[q + 2] as int * 0x100 + s[q + 3] as int
  }

  /** What one call of nal_find_start_code gives back: its result and the new pointer. */
  datatype Search = Search(code: int, pos: nat)

  /**
   * nal_find_start_code on the buffer `s` with the pointer at `p` and
   * `|s| - p` bytes left.
   */
  function StartCodeSearch(s: seq<Byte>, p: nat): (r: Search)
    requires p <= |s|
    ensures p <= r.pos <= |s|
    ensures r.code != 0 ==> r.pos + 4 <= |s|
  {
    if CInt(|s| - p) < 4 then Search(0, p)
    else
      var q := ScanFrom(s, p);
      if |s| - q >= 4 then Search(CodeValue(s, q), q) else Search(0, q)
  }

  lemma {:induction false} ScanFromBounds(s: seq<Byte>, p: nat)
    requires p <= |s|
    ensures |s| - ScanFrom(s, p) >= 4 ==> StartCodeAt(s, ScanFrom(s, p))
    ensures forall q :: p <= q < ScanFrom(s, p) ==> !AcceptedStartCode(s, q)
    ensures |s| - p >= 3 ==> |s| - ScanFrom(s, p) >= 3
    decreases |s| - p
  {
    if |s| - p >= 4 && !StartCodeAt(s, p) {
      ScanFromBounds(s, p + 1);
    }
  }

  /**
   * The search finds the leftmost accepted start code at or after `p`, and
   * reports one exactly when there is one, provided the C `int` cast of the
   * remaining size does not fall below 4.
   */
  lemma StartCodeSearchLeftmost(s: seq<Byte>, p: nat)
    requires p <= |s|
    ensures var r := StartCodeSearch(s, p);
      && (CInt(|s| - p) < 4 ==> r == Search(0, p))
      && (r.code != 0 ==> AcceptedStartCode(s, r.pos) && r.code == 0x100 + s[r.pos + 3] as int)
      && (forall q :: p <= q < r.pos ==> !AcceptedStartCode(s, q))
      && (CInt(|s| - p) >= 4 ==> (r.code != 0 <==> exists q :: p <= q && AcceptedStartCode(s, q)))
      && (CInt(|s| - p) >= 4 && r.code == 0 ==> r.pos == |s| - 3)
  {
    ScanFromBounds(s, p);
    var r := StartCodeSearch(s, p);
    if CInt(|s| - p) >= 4 {
      var q := ScanFrom(s, p);
      assert |s| - p >= 4;
      if r.code != 0 {
        assert p <= q && AcceptedStartCode(s, q);
      } else {
        assert |s| - q < 4 && |s| - q >= 3;
        assert !exists q' :: p <= q' && AcceptedStartCode(s, q');
      }
    }
  }

  /**
   * nal_find_start_code: advances the pointer `pos` (and shrinks `size`
   * with it) to the next 00 00 01 that has at least four bytes left, and
   * returns the four bytes there as a non-zero word; returns 0 when the size
   * is below 4 (pointer untouched) or no such start code exists (pointer
   * left three bytes before the end).
   */
  method FindStartCode(s: seq<Byte>, pos: nat, size: nat) returns (code: int, newPos: nat, newSize: nat)
    requires pos + size == |s|
    ensures newPos + newSize == pos + size && pos <= newPos
    ensures CInt(size) < 4 ==> code == 0 && newPos == pos && newSize == size
    ensures code != 0 ==> AcceptedStartCode(s, newPos) && code == 0x100 + s[newPos + 3] as int
    ensures CInt(size) >= 4 && code == 0 ==> newSize == 3
    ensures Search(code, newPos) == StartCodeSearch(s, pos)
  {
    StartCodeSearchLeftmost(s, pos);
    if CInt(size) < 4 {
      return 0, pos, size;
    }
    newPos, newSize := pos, size;
    while 4 <= newSize && (s[newPos] != 0 || s[newPos + 1] != 0 || s[newPos + 2] != 1)
      invariant pos <= newPos && newPos + newSize == |s|
      invariant ScanFrom(s, newPos) == ScanFrom(s, pos)
      decreases newSize
    {
      newPos, newSize := newPos + 1, newSize - 1;
    }
    if 4 <= newSize {
      code := (s[newPos] as int * 0x100_0000) + (s[newPos + 1] as int * 0x1_0000)
        + (s[newPos + 2] as int * 0x100) + s[newPos + 3] as int;
    } else {
      code := 0;
    }
  }

  /**
   * Where the NAL that starts three bytes after the start code at `o` ends
   * when the next accepted start code is at `next`: a zero byte just before
   * `next` is the first byte of a four-byte start code and is left out.
   */
  function NalEnd(s: seq<Byte>, o: nat, next: nat): (e: nat)
    requires o + 4 <= next <= |s|
    ensures o + 3 <= e <= next
  {
    if s[next - 1] != 0 then next else next - 1
  }

  /**
   * The NAL bodies parse_nalus extracts from the start code at `o` on: each
   * body runs from three bytes after its start code to the next accepted
   * start code (see NalEnd), the last one to the end of the buffer.
   */
  function NalsFrom(s: seq<Byte>, o: nat): seq<seq<Byte>>
    requires o + 4 <= |s|
    decreases |s| - o, 0
  {
    var r := StartCodeSearch(s, o + 4);
    [s[o + 3..if r.code == 0 then |s| else NalEnd(s, o, r.pos)]] + NalsAfter(s, o + 4)
  }

  /**
   * The NAL bodies parse_nalus extracts once the start code search
   * resumes at `p`: none when no start code is accepted from there.
   */
  function NalsAfter(s: seq<Byte>, p: nat): seq<seq<Byte>>
    requires p <= |s|
    decreases |s| - p, 1
  {
    var r := StartCodeSearch(s, p);
    if r.code == 0 then [] else NalsFrom(s, r.pos)
  }

  /** One unfolding of NalsFrom when the scan from `o + 4` stops at an accepted start code `q`. */
  lemma NalsFromStep(s: seq<Byte>, o: nat, q: nat, e: nat)
    requires AcceptedStartCode(s, o) && AcceptedStartCode(s, q) && o + 4 <= q && |s| < 0x8000_0000
    requires ScanFrom(s, o + 4) == q && e == NalEnd(s, o, q)
    ensures NalsFrom(s, o) == [s[o + 3..e]] + NalsFrom(s, q)
  {
    assert CInt(|s| - (o + 4)) >= 4;
    assert StartCodeSearch(s, o + 4) == Search(CodeValue(s, q), q);
  }

  /** The NAL bodies of the whole buffer: none when no start code is accepted. */
  function SplitNals(s: seq<Byte>): seq<seq<Byte>>
  {
    NalsAfter(s, 0)
  }

  /** The low `k` bytes of `n`, most significant first: what `(n >> 8 * i) & 0xff` gives for i = k - 1 down to 0. */
  function LowBytes(n: nat, k: nat): (r: seq<Byte>)
    ensures |r| == k
  {
    if k == 0 then [] else LowBytes(n / 0x100, k - 1) + [(n % 0x100) as Byte]
  }

  /**
   * The four prefix bytes parse_nalus writes for a NAL of `n` bytes. The
   * C code assigns `size_position[1]` twice (bits 24..31, then 16..23) and
   * never writes `size_position[0]`, which keeps its initial 0; the other
   * three bytes are bits 16..23, 8..15 and 0..7.
   */
  function Prefix(n: nat): seq<Byte>
  {
    [0] + LowBytes(n, 3)
  }

  /** Each NAL as its 4-byte length prefix followed by its bytes, in order. */
  function Frame(nals: seq<seq<Byte>>): seq<Byte>
  {
    if nals == [] then [] else Prefix(|nals[0]|) + nals[0] + Frame(nals[1..])
  }

  /** What parse_nalus appends to the output buffer for the input `s`. */
  function Reframe(s: seq<Byte>): seq<Byte>
  {
    Frame(SplitNals(s))
  }

  /** Sum of 4 + |n| over the NALs: the room their framing takes. */
  function FramedSize(nals: seq<seq<Byte>>): nat
  {
    if nals == [] then 0 else 4 + |nals[0]| + FramedSize(nals[1..])
  }

  /** Framing adds exactly four bytes per NAL and copies the NAL bytes. */
  lemma {:induction false} FrameLength(nals: seq<seq<Byte>>)
    ensures |Frame(nals)| == FramedSize(nals)
    ensures FramedSize(nals) == 4 * |nals| + TotalBytes(nals)
  {
    if nals != [] {
      FrameLength(nals[1..]);
    }
  }

  /** The number of payload bytes of the NALs. */
  function TotalBytes(nals: seq<seq<Byte>>): nat
  {
    if nals == [] then 0 else |nals[0]| + TotalBytes(nals[1..])
  }

  /** Framing distributes over concatenation. */
  lemma {:induction false} FrameAppend(a: seq<seq<Byte>>, b: seq<seq<Byte>>)
    ensures Frame(a + b) == Frame(a) + Frame(b)
  {
    if a != [] {
      assert (a + b)[0] == a[0];
      assert (a + b)[1..] == a[1..] + b;
      FrameAppend(a[1..], b);
      calc {
        Frame(a + b);
        Prefix(|a[0]|) + a[0] + Frame(a[1..] + b);
        Prefix(|a[0]|) + a[0] + (Frame(a[1..]) + Frame(b));
        (Prefix(|a[0]|) + a[0] + Frame(a[1..])) + Frame(b);
      }
    } else {
      assert a + b == b;
    }
  }

  /** The first prefix byte is always 0. */
  lemma PrefixFirstByteZero(n: nat)
    ensures |Prefix(n)| == 4 && Prefix(n)[0] == 0
  {
  }

  /** The big-endian 32-bit value of four bytes. */
  function BigEndian32(b: seq<Byte>): nat
    requires |b| == 4
  {
    b[0] as nat * 0x100_0000 + b[1] as nat * 0x1_0000 + b[2] as nat * 0x100 + b[3] as nat
  }

  /**
   * Read back as a big-endian word, the prefix holds the length modulo 2^24:
   * it is the correct length exactly for NALs shorter than 16 MiB.
   */
  lemma PrefixKeepsLow24Bits(n: nat)
    ensures BigEndian32(Prefix(n)) == n % 0x100_0000
    ensures BigEndian32(Prefix(n)) == n <==> n < 0x100_0000
  {
    var q1, c := n / 0x100, n % 0x100;
    var q2, b := q1 / 0x100, q1 % 0x100;
    var q3, a := q2 / 0x100, q2 % 0x100;
    assert n == q2 * 0x1_0000 + (b * 0x100 + c);
    assert n / 0x1_0000 == q2;
    assert n == q3 * 0x100_0000 + (a * 0x1_0000 + b * 0x100 + c);
    assert n % 0x100_0000 == a * 0x1_0000 + b * 0x100 + c;
    assert LowBytes(q2, 1) == [a as Byte];
    assert LowBytes(q1, 2) == [a as Byte, b as Byte];
    assert Prefix(n) == [0, a as Byte, b as Byte, c as Byte];
  }

  /** A NAL of 2^24 bytes gets the prefix 00 00 00 00, which reads as length 0. */
  lemma PrefixWrongAt16MiB()
    ensures Prefix(0x100_0000) == [0, 0, 0, 0]
    ensures BigEndian32(Prefix(0x100_0000)) == 0
  {
  }

  /**
   * Size bounds of the output: it is at most the input plus one byte per NAL
   * (so at most twice the input), and every NAL takes at least four input
   * bytes.
   */
  lemma ReframeBounds(s: seq<Byte>)
    ensures 4 * |SplitNals(s)| <= |s|
    ensures |Reframe(s)| <= |s| + |SplitNals(s)|
    ensures |Reframe(s)| <= 2 * |s|
  {
    var r := StartCodeSearch(s, 0);
    FrameLength(SplitNals(s));
    if r.code != 0 {
      StartCodeSearchLeftmost(s, 0);
      NalsFromBounds(s, r.pos);
    }
  }

  lemma {:induction false} NalsFromBounds(s: seq<Byte>, o: nat)
    requires o + 4 <= |s|
    ensures 4 * |NalsFrom(s, o)| <= |s| - o
    ensures FramedSize(NalsFrom(s, o)) <= |s| - o + |NalsFrom(s, o)|
    decreases |s| - o
  {
    var r := StartCodeSearch(s, o + 4);
    StartCodeSearchLeftmost(s, o + 4);
    if r.code != 0 {
      NalsFromBounds(s, r.pos);
    }
  }

  /**
   * The output is empty exactly when the buffer holds no start code with at
   * least four bytes left (for buffers whose size fits a C `int`).
   */
  lemma ReframeEmptyIff(s: seq<Byte>)
    requires |s| < 0x8000_0000
    ensures Reframe(s) == [] <==> !exists q :: AcceptedStartCode(s, q)
  {
    StartCodeSearchLeftmost(s, 0);
    var r := StartCodeSearch(s, 0);
    if r.code != 0 {
      assert |NalsFrom(s, r.pos)| >= 1;
      FrameLength(SplitNals(s));
    } else if |s| >= 4 {
      assert !exists q :: 0 <= q && AcceptedStartCode(s, q);
    }
  }

  /** hb_buffer_t as parse_nalus uses it: a data area and the number of bytes used. */
  class OutBuffer {
    const data: array<Byte>
    var size: nat

    ghost predicate Valid()
      reads this
    {
      size <= data.Length
    }

    /** The bytes written so far. */
    ghost function Contents(): seq<Byte>
      reads this, data
      requires Valid()
    {
      data[..size]
    }

    constructor (capacity: nat)
      ensures Valid() && fresh(data) && data.Length == capacity && size == 0
    {
      data := new Byte[capacity];
      size := 0;
    }

    /** memcpy(data + size, src, |src|); size += |src|. */
    method Append(src: seq<Byte>)
      requires Valid() && size + |src| <= data.Length
      modifies this, data
      ensures Valid() && size == old(size) + |src|
      ensures Contents() == old(Contents()) + src
    {
      var at := size;
      forall i | 0 <= i < |src| {
        data[at + i] := src[i];
      }
      size := size + |src|;
      assert data[..size] == old(data[..at]) + src;
    }
  }

  /** The NALs still to be written when the loop of parse_nalus stands at `offset` with `size` left. */
  function Pending(s: seq<Byte>, offset: nat, size: nat): seq<seq<Byte>>
    requires size > 0 ==> offset + 4 <= |s|
  {
    if size == 0 then [] else NalsFrom(s, offset)
  }

  /**
   * One round of the loop of parse_nalus: given the search from `offset + 4`
   * and the NAL length `len` computed from it, the first NAL framed, then the
   * rest.
   */
  lemma ParseStep(s: seq<Byte>, offset: nat, start: nat, c: int, next: nat, len: nat)
    requires AcceptedStartCode(s, offset) && start == offset + 3
    requires Search(c, next) == StartCodeSearch(s, offset + 4)
    requires c != 0 ==> offset + 4 <= next && AcceptedStartCode(s, next)
    requires start + len == if c == 0 then |s| else NalEnd(s, offset, next)
    ensures NalsFrom(s, offset) == [s[start..start + len]] + Pending(s, next, if c == 0 then 0 else |s| - next)
  {
    if c == 0 {
      assert s[start..start + len] == s[start..];
      assert NalsFrom(s, offset) == [s[start..]];
    } else {
      assert NalsFrom(s, offset) == [s[start..NalEnd(s, offset, next)]] + NalsFrom(s, next);
    }
  }

  lemma FrameCons(n: seq<Byte>, rest: seq<seq<Byte>>, nals: seq<seq<Byte>>, len: nat)
    requires nals == [n] + rest && |n| == len
    ensures Frame(nals) == Prefix(len) + n + Frame(rest)
  {
    assert nals[1..] == rest;
  }

  /**
   * The invariant of the loop of parse_nalus is kept by one round: after
   * the prefix and the first NAL are appended, what is left to write frames
   * the NALs from the new offset.
   */
  lemma ParseRound(s: seq<Byte>, offset: nat, start: nat, c: int, next: nat, len: nat, newOffset: nat, newSize: nat,
                   before: seq<Byte>, target: seq<Byte>)
    requires AcceptedStartCode(s, offset) && start == offset + 3
    requires Search(c, next) == StartCodeSearch(s, offset + 4)
    requires c != 0 ==> offset + 4 <= next && AcceptedStartCode(s, next)
    requires start + len == if c == 0 then |s| else NalEnd(s, offset, next)
    requires c == 0 ==> newSize == 0
    requires c != 0 ==> newOffset == next && newSize == |s| - next
    requires before + Frame(NalsFrom(s, offset)) == target
    ensures newSize > 0 ==> newOffset + 4 <= |s|
    ensures |before| + 4 + len <= |target|
    ensures start + len <= |s|
    ensures before + Prefix(len) + s[start..start + len] + Frame(Pending(s, newOffset, newSize)) == target
  {
    var p, n := Prefix(len), s[start..start + len];
    var nals, rest := NalsFrom(s, offset), Pending(s, newOffset, newSize);
    assert nals == [n] + rest by {
      ParseStep(s, offset, start, c, next, len);
      assert rest == Pending(s, next, if c == 0 then 0 else |s| - next);
    }
    var f := Frame(rest);
    assert Frame(nals) == p + n + f by {
      FrameCons(n, rest, nals, len);
    }
    Assoc(before, p + n, f);
    Assoc(before, p, n);
  }

  /** Concatenation regrouped, stated apart so that callers with a large context need not rediscover it. */
  lemma Assoc<T>(a: seq<T>, b: seq<T>, c: seq<T>)
    ensures a + (b + c) == a + b + c
  {
  }

  lemma AppendTwice(a: seq<Byte>, b: seq<Byte>, c: seq<Byte>, x: seq<Byte>, y: seq<Byte>, rest: seq<Byte>, target: seq<Byte>)
    requires b == a + x && c == b + y && a + x + y + rest == target
    ensures c + rest == target
  {
  }

  /**
   * parse_nalus: appends to `buf` every NAL of the Annex B buffer `s`, each
   * as a 4-byte length prefix followed by the NAL bytes. The caller must
   * provide room for the output (the C code does not check).
   */
  method ParseNalus(s: seq<Byte>, buf: OutBuffer)
    requires buf.Valid() && buf.size + |Reframe(s)| <= buf.data.Length
    modifies buf, buf.data
    ensures buf.Valid()
    ensures buf.Contents() == old(buf.Contents()) + Reframe(s)
  {
    var offset: nat, size: nat := 0, |s|;
    var code;
    code, offset, size := FindStartCode(s, offset, size);
    if code == 0 {
      size := 0;
    }
    ghost var target := old(buf.Contents()) + Reframe(s);
    assert Pending(s, offset, size) == SplitNals(s);
    while size > 0
      invariant buf.Valid()
      invariant size > 0 ==> offset + size == |s| && AcceptedStartCode(s, offset)
      invariant buf.Contents() + Frame(Pending(s, offset, size)) == target
      invariant |target| <= buf.data.Length
      decreases size
    {
      offset, size := WriteNextNal(s, buf, offset, size);
    }
  }

  /**
   * One round of the loop of parse_nalus: find the next start code, write
   * the current NAL with its length prefix, and move on (or stop, with
   * `size` 0, after the last NAL).
   */
  method WriteNextNal(s: seq<Byte>, buf: OutBuffer, offset: nat, size: nat) returns (offset': nat, size': nat)
    requires buf.Valid() && size > 0 && offset + size == |s| && AcceptedStartCode(s, offset)
    requires buf.size + |Frame(Pending(s, offset, size))| <= buf.data.Length
    modifies buf, buf.data
    ensures buf.Valid() && size' < size
    ensures size' > 0 ==> offset' + size' == |s| && AcceptedStartCode(s, offset')
    ensures buf.Contents() + Frame(Pending(s, offset', size')) == old(buf.Contents()) + Frame(Pending(s, offset, size))
  {
    ghost var before := buf.Contents();
    ghost var target := before + Frame(Pending(s, offset, size));
    offset', size' := offset, size;
    var currentNal := offset + 3;
    var c, nextOffset, nextSize, currentSize := MeasureNal(s, offset, size);
    if c == 0 {
      size' := 0;
    }
    ghost var newOffset, newSize := if c == 0 then offset else nextOffset, if c == 0 then 0 else nextSize;
    assert && currentNal + currentSize <= |s|
           && |before| + 4 + currentSize <= |target|
           && (newSize > 0 ==> newOffset + 4 <= |s|)
           && before + Prefix(currentSize) + s[currentNal..currentNal + currentSize]
              + Frame(Pending(s, newOffset, newSize)) == target by {
      ParseRound(s, offset, currentNal, c, nextOffset, currentSize, newOffset, newSize, before, target);
    }
    buf.Append(Prefix(currentSize));
    ghost var middle := buf.Contents();
    buf.Append(s[currentNal..currentNal + currentSize]);
    assert buf.Contents() + Frame(Pending(s, newOffset, newSize)) == target by {
      AppendTwice(before, middle, buf.Contents(), Prefix(currentSize), s[currentNal..currentNal + currentSize],
        Frame(Pending(s, newOffset, newSize)), target);
    }
    if size' != 0 {
      size' := nextSize;
      offset' := nextOffset;
    }
    assert offset' == newOffset && size' == newSize;
  }

  /**
   * The part of a round of parse_nalus that finds the next start code and
   * the length of the current NAL: up to the next start code, minus a zero
   * byte before it, or to the end of the buffer.
   */
  method MeasureNal(s: seq<Byte>, offset: nat, size: nat) returns (c: int, nextOffset: nat, nextSize: nat, currentSize: nat)
    requires size > 0 && offset + size == |s| && AcceptedStartCode(s, offset)
    ensures Search(c, nextOffset) == StartCodeSearch(s, offset + 4)
    ensures c != 0 ==> offset + 4 <= nextOffset && AcceptedStartCode(s, nextOffset) && nextOffset + nextSize == |s|
    ensures offset + 3 + currentSize == if c == 0 then |s| else NalEnd(s, offset, nextOffset)
  {
    nextOffset := offset + 4;
    nextSize := size - 4;
    currentSize := nextSize;
    c, nextOffset, nextSize := FindStartCode(s, nextOffset, nextSize);
    if c == 0 {
      currentSize := currentSize + 1;
    } else {
      currentSize := currentSize - nextSize;
      if s[nextOffset - 1] != 0 {
        currentSize := currentSize + 1;
      }
    }
  }
}
