/** nal_unit: reading a NAL unit and removing its emulation prevention bytes, through the bit reader. */
module NalUnit {
  import opened Arithmetic
  import opened Bytes
  import opened Bitstream

  // ---------------------------------------------------------------------------
  // Emulation prevention, section 7.4.1.1 of ITU-T H.264
  // ---------------------------------------------------------------------------

  /**
   * The bytes of a NAL unit for an RBSP behind z zero bytes: a 3 goes in front of every byte up to 3
   * that follows two zeros, and a final 3 behind an RBSP that ends in a zero byte.
   */
  function Escape(rbsp: seq<byte>, z: nat): seq<byte>
    requires z <= 2
  {
    if rbsp == [] then
      if z > 0 then [3] else []
    else if z == 2 && rbsp[0] <= 3 then
      [3, rbsp[0]] + Escape(rbsp[1..], if rbsp[0] == 0 then 1 else 0)
    else
      [rbsp[0]] + Escape(rbsp[1..], if rbsp[0] == 0 then z + 1 else 0)
  }

  predicate StuffedAt(p: seq<byte>, i: nat) {
    i + 2 < |p| && p[i] == 0 && p[i + 1] == 0 && p[i + 2] == 3
  }

  /** What the loop of nal_unit makes of the bytes behind the header. */
  function Unescape(p: seq<byte>): seq<byte> {
    if p == [] then []
    else if StuffedAt(p, 0) then [0, 0] + Unescape(p[3..])
    else [p[0]] + Unescape(p[1..])
  }

  function TrailingZeros(s: seq<byte>): nat {
    if s == [] || s[|s| - 1] != 0 then 0 else 1 + TrailingZeros(s[..|s| - 1])
  }

  function Zeros(z: nat): seq<byte>
    requires z <= 2
  {
    if z == 0 then [] else if z == 1 then [0] else [0, 0]
  }

  /** The zeros since the last inserted 3, once the RBSP is written. */
  function Pending(rbsp: seq<byte>, z: nat): (e: nat)
    requires z <= 2
    ensures e <= 2
  {
    if rbsp == [] then z
    else Pending(rbsp[1..], Held(z, rbsp[0]))
  }

  function Extra(e: nat): seq<byte> {
    if e == 1 then [3] else []
  }

  lemma UnescapeFirst(b: byte, p: seq<byte>)
    requires !StuffedAt([b] + p, 0)
    ensures Unescape([b] + p) == [b] + Unescape(p)
  {
    assert ([b] + p)[1..] == p;
  }

  /** A byte that ends a run of zeros, and is not an emulation prevention byte, leaves them as they are. */
  lemma UnescapeRun(z: nat, b: byte, p: seq<byte>)
    requires z <= 2 && b != 0 && (z == 2 ==> b != 3)
    ensures Unescape(Zeros(z) + [b] + p) == Zeros(z) + [b] + Unescape(p)
  {
    hide Unescape;
    assert !StuffedAt([b] + p, 0);
    UnescapeFirst(b, p);
    assert [] + [b] + p == [b] + p && [] + [b] + Unescape(p) == [b] + Unescape(p);
    if z > 0 {
      var one := [b] + p;
      UnescapeFirst(0, one);
      assert [0] + [b] + p == [0] + one;
      if z == 2 {
        var two := [0] + one;
        UnescapeFirst(0, two);
        assert [0, 0] + [b] + p == [0] + two;
      }
    }
  }

  lemma UnescapeStuffed(p: seq<byte>)
    ensures Unescape([0, 0, 3] + p) == [0, 0] + Unescape(p)
  {
    assert ([0, 0, 3] + p)[3..] == p;
  }

  /** The zeros held against the next byte after a byte b. */
  function Held(z: nat, b: byte): (h: nat)
    requires z <= 2
    ensures h <= 2
  {
    if b != 0 then 0 else if z == 2 then 1 else z + 1
  }

  /** The round trip behind z zeros that are still held against the next byte. */
  lemma {:induction false} UnescapeEscape(rbsp: seq<byte>, z: nat)
    requires z <= 2
    ensures Unescape(Zeros(z) + Escape(rbsp, z)) == Zeros(z) + rbsp + Extra(Pending(rbsp, z))
  {
    hide Unescape, Zeros, Escape;
    if rbsp == [] {
      UnescapeEnd(z);
      assert Zeros(z) + [] == Zeros(z);
    } else {
      var b, rest := rbsp[0], rbsp[1..];
      var h := Held(z, b);
      var end := Extra(Pending(rest, h));
      UnescapeEscape(rest, h);
      assert Zeros(h) + rest + end == Zeros(h) + (rest + end);
      UnescapeByte(z, b, rest, rest + end);
      assert [b] + rest == rbsp;
      assert Zeros(z) + rbsp + end == Zeros(z) + [b] + (rest + end);
    }
  }

  lemma UnescapeEnd(z: nat)
    requires z <= 2
    ensures Unescape(Zeros(z) + Escape([], z)) == Zeros(z) + Extra(z)
  {
    hide Unescape;
    UnescapeEmpty();
    if z == 2 {
      UnescapeStuffed([]);
      assert [0, 0, 3] + [] == [0, 0] + [3];
    } else if z == 1 {
      UnescapeRun(1, 3, []);
      assert [0] + [3] + [] == [0] + [3];
    } else {
      assert Zeros(0) + Escape([], 0) == [];
    }
  }

  lemma UnescapeEmpty()
    ensures Unescape([]) == []
  {
  }

  /** Reading one byte of an escaped RBSP, with what is read after it known. */
  lemma UnescapeByte(z: nat, b: byte, rest: seq<byte>, tail: seq<byte>)
    requires z <= 2 && Unescape(Zeros(Held(z, b)) + Escape(rest, Held(z, b))) == Zeros(Held(z, b)) + tail
    ensures Unescape(Zeros(z) + Escape([b] + rest, z)) == Zeros(z) + [b] + tail
  {
    hide Unescape, Escape, Held;
    EscapeStep(z, b, rest);
    if z == 2 && b <= 3 {
      assert Zeros(z) == [0, 0];
      UnescapeHeld(2, b, Escape(rest, Held(z, b)), tail);
      UnescapeStuffedByte(b, Escape(rest, Held(z, b)), tail);
    } else {
      UnescapePlain(z, b, Escape(rest, Held(z, b)), tail);
      Regroup(Zeros(z), [b], Escape(rest, Held(z, b)));
    }
  }

  lemma Regroup(a: seq<byte>, b: seq<byte>, c: seq<byte>)
    ensures a + b + c == a + (b + c)
  {
  }

  /** Behind an emulation prevention byte. */
  lemma UnescapeHeld(z: nat, b: byte, more: seq<byte>, tail: seq<byte>)
    requires z == 2 && Unescape(Zeros(Held(z, b)) + more) == Zeros(Held(z, b)) + tail
    ensures Unescape([b] + more) == [b] + tail
  {
    hide Unescape;
    assert [] + more == more && [] + tail == tail;
    if b != 0 {
      UnescapeFirst(b, more);
    }
  }

  lemma UnescapeStuffedByte(b: byte, more: seq<byte>, tail: seq<byte>)
    requires Unescape([b] + more) == [b] + tail
    ensures Unescape([0, 0] + ([3, b] + more)) == [0, 0] + [b] + tail
  {
    hide Unescape;
    UnescapeStuffed([b] + more);
    assert [3, b] == [3] + [b];
    assert [0, 0] + ([3, b] + more) == [0, 0, 3] + ([b] + more);
    assert [0, 0] + ([b] + tail) == [0, 0] + [b] + tail;
  }

  lemma UnescapePlain(z: nat, b: byte, more: seq<byte>, tail: seq<byte>)
    requires z <= 2 && !(z == 2 && b <= 3)
    requires Unescape(Zeros(Held(z, b)) + more) == Zeros(Held(z, b)) + tail
    ensures Unescape(Zeros(z) + [b] + more) == Zeros(z) + [b] + tail
  {
    hide Unescape;
    assert [] + more == more && [] + tail == tail;
    if b != 0 {
      UnescapeRun(z, b, more);
    } else {
      assert Zeros(z) + [b] == Zeros(z + 1);
    }
  }

  lemma EscapeStep(z: nat, b: byte, rest: seq<byte>)
    requires z <= 2
    ensures Escape([b] + rest, z) == (if z == 2 && b <= 3 then [3, b] else [b]) + Escape(rest, Held(z, b))
  {
    assert ([b] + rest)[1..] == rest;
  }

  lemma {:induction false} PendingParity(rbsp: seq<byte>)
    ensures var t, e := TrailingZeros(rbsp), Pending(rbsp, 0);
            (e == 0 <==> t == 0) && (e == 1 <==> t % 2 == 1)
  {
    if rbsp != [] {
      var init := rbsp[..|rbsp| - 1];
      PendingParity(init);
      PendingLast(init, rbsp[|rbsp| - 1], 0);
      assert init + [rbsp[|rbsp| - 1]] == rbsp;
    }
  }

  lemma {:induction false} PendingLast(rbsp: seq<byte>, b: byte, z: nat)
    requires z <= 2
    ensures Pending(rbsp + [b], z) == Held(Pending(rbsp, z), b)
  {
    if rbsp == [] {
      assert rbsp + [b] == [b];
    } else {
      assert (rbsp + [b])[1..] == rbsp[1..] + [b];
      PendingLast(rbsp[1..], b, Held(z, rbsp[0]));
    }
  }

  /**
   * The RBSP comes back exactly when it ends in an even number of zero bytes, and with a 3 behind it
   * otherwise. An RBSP of the standard ends in a nonzero byte or in cabac_zero_words of two zeros.
   */
  lemma RoundTrip(rbsp: seq<byte>)
    ensures Unescape(Escape(rbsp, 0)) == rbsp <==> TrailingZeros(rbsp) % 2 == 0
    ensures TrailingZeros(rbsp) % 2 == 1 ==> Unescape(Escape(rbsp, 0)) == rbsp + [3]
  {
    UnescapeEscape(rbsp, 0);
    PendingParity(rbsp);
    assert Zeros(0) + Escape(rbsp, 0) == Escape(rbsp, 0);
    assert Zeros(0) + rbsp == rbsp;
    assert rbsp + [] == rbsp && |rbsp + [3]| != |rbsp|;
  }

  /** The final 3 behind a single zero byte is taken for data. */
  lemma FinalThreeIsKept()
    ensures Escape([5, 0], 0) == [5, 0, 3] && Unescape([5, 0, 3]) == [5, 0, 3]
  {
    EscapeStep(0, 5, [0]);
    EscapeStep(0, 0, []);
    RoundTrip([5, 0]);
    assert [5] + [0] == [5, 0] && [0] + [] == [0] && [5, 0][..1] == [5];
    assert TrailingZeros([5]) == 0;
    assert [5, 0] + [3] == [5, 0, 3] && [5] + ([0] + [3]) == [5, 0, 3];
  }

  /** The held zeros and what Escape writes for one byte behind them. */
  function Front(z: nat, b: byte): seq<byte>
    requires z <= 2
  {
    if z == 2 && b <= 3 then [0, 0, 3, b] else Zeros(z) + [b]
  }

  lemma FrontIs(z: nat, b: byte, rest: seq<byte>)
    requires z <= 2
    ensures Zeros(z) + Escape([b] + rest, z) == Front(z, b) + Escape(rest, Held(z, b))
  {
    hide Escape, Held;
    EscapeStep(z, b, rest);
    if z == 2 && b <= 3 {
      assert [0, 0] + ([3, b] + Escape(rest, Held(z, b))) == [0, 0, 3, b] + Escape(rest, Held(z, b));
    } else {
      Regroup(Zeros(z), [b], Escape(rest, Held(z, b)));
    }
  }

  /** The codes 00 00 00, 00 00 01 and 00 00 02, which no NAL unit contains. */
  predicate CodeAt(p: seq<byte>, i: nat) {
    i + 2 < |p| && p[i] == 0 && p[i + 1] == 0 && p[i + 2] <= 2
  }

  /** The front ends in the zeros held against the next byte, and there is no code in front of those. */
  lemma FrontCode(z: nat, b: byte, more: seq<byte>)
    requires z <= 2
    ensures |Front(z, b)| >= Held(z, b) && Front(z, b)[|Front(z, b)| - Held(z, b)..] == Zeros(Held(z, b))
    ensures forall i: nat | i < |Front(z, b)| - Held(z, b) :: !CodeAt(Front(z, b) + more, i)
  {
  }

  lemma Shift(front: seq<byte>, end: seq<byte>, more: seq<byte>, skip: nat, i: nat)
    requires skip <= |front| && front[skip..] == end && skip <= i
    ensures CodeAt(front + more, i) <==> CodeAt(end + more, i - skip)
  {
    assert (front + more)[skip..] == end + more;
  }

  lemma EndCode(z: nat, i: nat)
    requires z <= 2
    ensures !CodeAt(Zeros(z) + Escape([], z), i)
  {
  }

  /** No three bytes of an escaped unit are a start code or another reserved code. */
  lemma {:induction false} NoStartCode(rbsp: seq<byte>, z: nat, i: nat)
    requires z <= 2
    ensures !CodeAt(Zeros(z) + Escape(rbsp, z), i)
  {
    hide Escape, Front, Held, Zeros, CodeAt;
    if rbsp == [] {
      EndCode(z, i);
    } else {
      var b, rest := rbsp[0], rbsp[1..];
      assert [b] + rest == rbsp;
      FrontIs(z, b, rest);
      var next, more := Held(z, b), Escape(rest, Held(z, b));
      var skip := |Front(z, b)| - next;
      FrontCode(z, b, more);
      if i >= skip {
        Shift(Front(z, b), Zeros(next), more, skip, i);
        NoStartCode(rest, next, i - skip);
      }
    }
  }

  // ---------------------------------------------------------------------------
  // The bytes under the bits
  // ---------------------------------------------------------------------------

  lemma ByteValue(buf: seq<byte>, k: nat)
    requires k < |buf|
    ensures Value(Bits(buf)[8 * k..8 * k + 8]) == buf[k]
  {
    hide Bits, Value;
    ChunkValue(buf, k, 8, 8);
    assert Pow2(0) == 1;
  }

  /** 24 bits at a byte boundary are 3 exactly where the bytes 0, 0, 3 stand. */
  lemma PeekThree(buf: seq<byte>, k: nat)
    requires k + 3 <= |buf|
    ensures Value(Bits(buf)[8 * k..8 * k + 24]) == 3 <==> StuffedAt(buf, k)
  {
    hide Bits, Value;
    var all := Bits(buf);
    var b0, b1, b2 := all[8 * k..8 * k + 8], all[8 * k + 8..8 * k + 16], all[8 * k + 16..8 * k + 24];
    ByteValue(buf, k);
    ByteValue(buf, k + 1);
    ByteValue(buf, k + 2);
    ValueAppend(b0 + b1, b2);
    ValueAppend(b0, b1);
    Pow2Is();
    assert all[8 * k..8 * k + 24] == b0 + b1 + b2;
    var x: nat, y: nat, w: nat := buf[k], buf[k + 1], buf[k + 2];
    assert Value(b0 + b1 + b2) == (x * 0x100 + y) * 0x100 + w;
  }

  /** The fields of the NAL unit header, section 7.3.1 of ITU-T H.264. */
  lemma HeaderBits(buf: seq<byte>, k: nat)
    requires k < |buf|
    ensures Value(Bits(buf)[8 * k..8 * k + 1]) == buf[k] / 0x80
    ensures Value(Bits(buf)[8 * k + 1..8 * k + 3]) == buf[k] / 0x20 % 4
    ensures Value(Bits(buf)[8 * k + 3..8 * k + 8]) == buf[k] % 0x20
  {
    hide Bits, Value, Chunk;
    ChunkValue(buf, k, 8, 1);
    ChunkValue(buf, k, 7, 2);
    ChunkValue(buf, k, 5, 5);
    HeaderChunks(buf[k]);
  }

  lemma HeaderChunks(x: byte)
    ensures Chunk(x, 8, 1) == x / 0x80 && Chunk(x, 7, 2) == x / 0x20 % 4 && Chunk(x, 5, 5) == x % 0x20
  {
    hide Chunk, Pow2;
    HeaderPowers();
    ChunkIs(x, 8, 1);
    ChunkIs(x, 7, 2);
    ChunkIs(x, 5, 5);
    RefIdcBits(x);
  }

  lemma HeaderPowers()
    ensures Pow2(0) == 1 && Pow2(5) == 0x20 && Pow2(7) == 0x80 && Pow2(8) == 0x100
  {
    assert Pow2(2) == 4 && Pow2(5) == 0x20;
    Pow2Add(5, 2);
    Pow2Is();
  }

  lemma RefIdcBits(x: byte)
    ensures x % 0x80 / 0x20 == x / 0x20 % 4
  {
    var q, r := x / 0x80, x % 0x80;
    assert x / 0x20 == 4 * q + r / 0x20;
  }

  // ---------------------------------------------------------------------------
  // nal_unit
  // ---------------------------------------------------------------------------

  datatype Header = Header(forbiddenZeroBit: nat, nalRefIdc: nat, nalUnitType: nat)

  /** The loop of nal_unit at a byte of the payload. */
  lemma UnescapeTurn(p: seq<byte>, i: nat)
    requires i < |p|
    ensures StuffedAt(p, i) ==> Unescape(p[i..]) == [p[i], p[i + 1]] + Unescape(p[i + 3..])
    ensures !StuffedAt(p, i) ==> Unescape(p[i..]) == [p[i]] + Unescape(p[i + 1..])
  {
    var q := p[i..];
    assert q[1..] == p[i + 1..];
    if StuffedAt(p, i) {
      assert q[3..] == p[i + 3..];
    }
  }

  /** One byte of the payload goes from the reader to the RBSP. */
  method CopyByte(bs: Reader, rbsp: array<byte>, at: nat, ghost k: nat)
    requires bs.Valid() && bs.Pos() == 8 * k && k < bs.buf.Length && at < rbsp.Length && rbsp != bs.buf
    modifies bs, rbsp
    ensures bs.Valid() && bs.Pos() == 8 * (k + 1)
    ensures rbsp[..] == old(rbsp[..])[at := bs.buf[k]]
  {
    ByteValue(bs.buf[..], k);
    rbsp[at] := bs.U(8);
  }

  /** One turn of the loop at payload byte i: three bytes that end in an emulation prevention byte, or one. */
  method ReadTurn(bs: Reader, rbsp: array<byte>, rbspLen: nat, i: nat, len: nat, ghost k: nat) returns (r: nat, j: nat)
    requires bs.Valid() && bs.Pos() == 8 * (k + i) && 1 <= i < len && k + len <= bs.buf.Length
    requires rbsp != bs.buf && len - 1 <= rbsp.Length && rbspLen < i
    modifies bs, rbsp
    ensures bs.Valid() && bs.Pos() == 8 * (k + j) && i < j <= len && rbspLen < r < j
    ensures Unescape(bs.buf[k + i..k + len]) == rbsp[rbspLen..r] + Unescape(bs.buf[k + j..k + len])
    ensures rbsp[..rbspLen] == old(rbsp[..rbspLen]) && rbsp[r..] == old(rbsp[r..])
  {
    hide Unescape, Bits, Value;
    ghost var bytes := bs.buf[..];
    UnescapeTurn(bytes[..k + len], k + i);
    ghost var was := rbsp[..];
    var emulation := false;
    if i + 2 < len {
      PeekThree(bytes, k + i);
      var next := bs.Peak(24);
      emulation := next == 0x000003;
    }
    r, j := rbspLen, i;
    if emulation {
      CopyByte(bs, rbsp, r, k + j);
      CopyByte(bs, rbsp, r + 1, k + j + 1);
      r := r + 2;
      j := j + 2;
      var prevention := bs.U(8);
    } else {
      CopyByte(bs, rbsp, r, k + j);
      r := r + 1;
    }
    j := j + 1;
    assert rbsp[rbspLen..r] == if emulation then [bytes[k + i], bytes[k + i + 1]] else [bytes[k + i]];
  }

  /**
   * A NAL unit of len bytes at byte k of the buffer, not of type 14 or 20: the header fields, and
   * the RBSP at the front of rbsp. The reader stops exactly behind the unit.
   */
  method ReadNalUnit(bs: Reader, rbsp: array<byte>, len: nat, ghost k: nat) returns (header: Header, rbspLen: nat)
    requires bs.Valid() && bs.Pos() == 8 * k && 0 < len && k + len <= bs.buf.Length
    requires rbsp != bs.buf && len - 1 <= rbsp.Length
    requires bs.buf[k] % 0x20 != 14 && bs.buf[k] % 0x20 != 20
    modifies bs, rbsp
    ensures bs.Valid() && bs.Pos() == 8 * (k + len)
    ensures header == Header(bs.buf[k] / 0x80, bs.buf[k] / 0x20 % 4, bs.buf[k] % 0x20)
    ensures rbspLen < len && rbsp[..rbspLen] == Unescape(bs.buf[k + 1..k + len])
    ensures rbsp[rbspLen..] == old(rbsp[rbspLen..])
  {
    hide Unescape, Bits, Value;
    header := ReadHeader(bs, k);
    rbspLen := 0;
    var i := 1;
    ghost var payload := bs.buf[k + 1..k + len];
    while i < len
      invariant 1 <= i <= len && rbspLen < i
      invariant bs.Valid() && bs.Pos() == 8 * (k + i)
      invariant rbsp[..rbspLen] + Unescape(bs.buf[k + i..k + len]) == Unescape(payload)
      invariant rbsp[rbspLen..] == old(rbsp[..])[rbspLen..]
    {
      ghost var done := rbsp[..rbspLen];
      ghost var r0 := rbspLen;
      rbspLen, i := ReadTurn(bs, rbsp, rbspLen, i, len, k);
      assert rbsp[..rbspLen] == done + rbsp[r0..rbspLen];
    }
    assert bs.buf[k + len..k + len] == [];
    UnescapeEmpty();
  }

  /**
   * Main result, through the bit reader: a unit that carries the escaped form of an RBSP gives the RBSP
   * and its length back, and one byte too many exactly if the RBSP ends in an odd number of zeros.
   */
  method ReadEscaped(bs: Reader, rbsp: array<byte>, len: nat, ghost k: nat, ghost sent: seq<byte>)
    returns (header: Header, rbspLen: nat)
    requires bs.Valid() && bs.Pos() == 8 * k && 0 < len && k + len <= bs.buf.Length
    requires rbsp != bs.buf && len - 1 <= rbsp.Length
    requires bs.buf[k] % 0x20 != 14 && bs.buf[k] % 0x20 != 20
    requires bs.buf[k + 1..k + len] == Escape(sent, 0)
    modifies bs, rbsp
    ensures bs.Valid() && bs.Pos() == 8 * (k + len)
    ensures rbspLen <= rbsp.Length
    ensures TrailingZeros(sent) % 2 == 0 ==> rbspLen == |sent| && rbsp[..rbspLen] == sent
    ensures TrailingZeros(sent) % 2 == 1 ==> rbspLen == |sent| + 1 && rbsp[..rbspLen] == sent + [3]
  {
    hide Escape, Unescape, TrailingZeros;
    RoundTrip(sent);
    header, rbspLen := ReadNalUnit(bs, rbsp, len, k);
  }

  method ReadHeader(bs: Reader, ghost k: nat) returns (header: Header)
    requires bs.Valid() && bs.Pos() == 8 * k && k < bs.buf.Length
    modifies bs
    ensures bs.Valid() && bs.Pos() == 8 * (k + 1)
    ensures header == Header(bs.buf[k] / 0x80, bs.buf[k] / 0x20 % 4, bs.buf[k] % 0x20)
  {
    hide Bits, Value;
    HeaderBits(bs.buf[..], k);
    var forbidden := bs.U(1);
    var refIdc := bs.U(2);
    var unitType := bs.U(5);
    header := Header(forbidden, refIdc, unitType);
  }
}
