/** The H.264 bit reader: u(n) and ue(v) of section 9.1 of ITU-T H.264 over a byte buffer. */
module Bitstream {
  import opened Arithmetic
  import opened Bytes

  type bit = x: int | 0 <= x < 2

  // ---------------------------------------------------------------------------
  // Bits and values
  // ---------------------------------------------------------------------------

  /** Bit p of a buffer, most significant bit of each byte first. */
  function Bit(buf: seq<byte>, p: nat): bit
    requires p < 8 * |buf|
  {
    buf[p / 8] / Pow2(7 - p % 8) % 2
  }

  function Bits(buf: seq<byte>): (b: seq<bit>)
    ensures |b| == 8 * |buf|
  {
    seq(8 * |buf|, p requires 0 <= p < 8 * |buf| => Bit(buf, p))
  }

  /** The big-endian value of a string of bits. */
  function Value(bits: seq<bit>): nat {
    if bits == [] then 0 else 2 * Value(bits[..|bits| - 1]) + bits[|bits| - 1]
  }

  lemma Double(x: int, y: int)
    ensures 2 * (x * y) == x * (2 * y)
  {
  }

  lemma {:induction false} ValueAppend(a: seq<bit>, b: seq<bit>)
    ensures Value(a + b) == Value(a) * Pow2(|b|) + Value(b)
  {
    if b == [] {
      assert a + b == a;
    } else {
      var init := b[..|b| - 1];
      assert (a + b)[..|a + b| - 1] == a + init;
      ValueAppend(a, init);
      Double(Value(a), Pow2(|init|));
    }
  }

  lemma {:induction false} ValueBound(bits: seq<bit>)
    ensures Value(bits) < Pow2(|bits|)
  {
    if bits != [] {
      ValueBound(bits[..|bits| - 1]);
    }
  }

  // ---------------------------------------------------------------------------
  // Chunks of one byte
  // ---------------------------------------------------------------------------

  /** `& 0xFF`. */
  function LowByte(x: int): byte {
    x % 0x100
  }

  /** `>>` by the exponent of a power of two. */
  function ShiftRight(x: nat, power: nat): nat
    requires power > 0
  {
    x / power
  }

  /** The expression of _read_bits for b_cnt bits that start at a bit index. */
  function Chunk(x: byte, bitIdx: int, cnt: int): nat
    requires 1 <= bitIdx <= 8 && 0 <= cnt <= bitIdx
  {
    ShiftRight(LowByte(x * Pow2(8 - bitIdx)), Pow2(8 - cnt))
  }

  /** The shifts and the mask of _read_bits pick the bits below the bit index. */
  lemma ChunkIs(x: byte, bitIdx: int, cnt: int)
    requires 1 <= bitIdx <= 8 && 0 <= cnt <= bitIdx
    ensures Chunk(x, bitIdx, cnt) == x % Pow2(bitIdx) / Pow2(bitIdx - cnt)
  {
    var l := 8 - bitIdx;
    Pow2Add(l, bitIdx);
    Pow2Add(l, bitIdx - cnt);
    assert Pow2(8) == 0x100 by { Pow2Is(); }
    DivCancel(x, Pow2(l), Pow2(bitIdx));
    DivCancel(x % Pow2(bitIdx), Pow2(l), Pow2(bitIdx - cnt));
  }

  /** One more bit in a chunk. */
  lemma ChunkNext(x: byte, bitIdx: int, cnt: int)
    requires 1 <= bitIdx <= 8 && 0 <= cnt < bitIdx
    ensures Chunk(x, bitIdx, cnt + 1) == 2 * Chunk(x, bitIdx, cnt) + x / Pow2(bitIdx - cnt - 1) % 2
    ensures Chunk(x, bitIdx, 0) == 0
  {
    hide Chunk;
    var z, k := x % Pow2(bitIdx), bitIdx - cnt - 1;
    ChunkIs(x, bitIdx, cnt);
    ChunkIs(x, bitIdx, cnt + 1);
    ChunkIs(x, bitIdx, 0);
    HalfBit(z, k);
    LowBit(x, bitIdx, k);
    DivUnique(z, Pow2(bitIdx), 0, z);
  }

  /** Dropping k + 1 bits is dropping k bits, and then the last. */
  lemma HalfBit(z: nat, k: nat)
    ensures z / Pow2(k) == 2 * (z / Pow2(k + 1)) + z / Pow2(k) % 2
  {
    var d := Pow2(k);
    var y, r := z / d, z % d;
    var h, b := y / 2, y % 2;
    Halve(z, d, y, r, h, b);
    DivUnique(z, 2 * d, h, b * d + r);
  }

  lemma Halve(z: int, d: int, y: int, r: int, h: int, b: int)
    requires d > 0 && z == y * d + r && y == 2 * h + b && 0 <= b < 2 && 0 <= r < d
    ensures z == h * (2 * d) + (b * d + r) && 0 <= b * d + r < 2 * d
  {
    Distribute(2 * h, b, d);
    assert 2 * h * d == h * (2 * d);
    assert b == 0 || b == 1;
  }

  /** The low n bits of a number have its bits. */
  lemma LowBit(x: nat, n: nat, k: nat)
    requires k < n
    ensures x % Pow2(n) / Pow2(k) % 2 == x / Pow2(k) % 2
  {
    Pow2Add(n - k - 1, k);
    Pow2Add(n - k, k);
    var d, m := Pow2(k), Pow2(n - k - 1);
    assert Pow2(n - k) == 2 * m;
    Parity(x, Pow2(n), d, m);
  }

  lemma Parity(x: nat, p: nat, d: nat, m: nat)
    requires p > 0 && d > 0 && p == 2 * m * d
    ensures x % p / d % 2 == x / d % 2
  {
    var q, r := x / p, x % p;
    DivMod(x, p);
    var y, s := r / d, r % d;
    DivMod(r, d);
    Regroup(x, q, m, d, y, s);
    var w := q * m;
    DivUnique(x, d, 2 * w + y, s);
    Even(w, y);
  }

  lemma Even(w: int, y: int)
    ensures (2 * w + y) % 2 == y % 2
  {
  }

  lemma Regroup(x: int, q: int, m: int, d: int, y: int, s: int)
    requires x == q * (2 * m * d) + (y * d + s)
    ensures x == (2 * (q * m) + y) * d + s
  {
    Distribute(2 * (q * m), y, d);
    assert q * (2 * m * d) == 2 * (q * m) * d;
  }

  /** `val |= chunk` adds: the shift has cleared the bits the chunk has. */
  lemma OrIsPlus(v: bv32, c: bv32)
    ensures c < 2 ==> (v << 1) | c == (v << 1) + c
    ensures c < 4 ==> (v << 2) | c == (v << 2) + c
    ensures c < 8 ==> (v << 3) | c == (v << 3) + c
    ensures c < 16 ==> (v << 4) | c == (v << 4) + c
    ensures c < 32 ==> (v << 5) | c == (v << 5) + c
    ensures c < 64 ==> (v << 6) | c == (v << 6) + c
    ensures c < 128 ==> (v << 7) | c == (v << 7) + c
    ensures c < 256 ==> (v << 8) | c == (v << 8) + c
  {
  }

  /** A chunk is the value of the bits it covers. */
  lemma {:induction false} ChunkValue(buf: seq<byte>, k: nat, bitIdx: int, cnt: nat)
    requires k < |buf| && 1 <= bitIdx <= 8 && cnt <= bitIdx
    ensures var from := 8 * k + 8 - bitIdx;
            Chunk(buf[k], bitIdx, cnt) == Value(Bits(buf)[from..from + cnt])
  {
    hide Chunk;
    var from := 8 * k + 8 - bitIdx;
    if cnt == 0 {
      ChunkNext(buf[k], bitIdx, 0);
    } else {
      ChunkValue(buf, k, bitIdx, cnt - 1);
      ChunkNext(buf[k], bitIdx, cnt - 1);
      var bits := Bits(buf)[from..from + cnt];
      assert bits[..cnt - 1] == Bits(buf)[from..from + cnt - 1];
      assert bits[cnt - 1] == Bit(buf, from + cnt - 1);
      assert (from + cnt - 1) / 8 == k && 7 - (from + cnt - 1) % 8 == bitIdx - cnt;
    }
  }

  /** Shifting a chunk into a 32-bit register keeps the value modulo 2^32. */
  lemma ShiftIn(whole: nat, cnt: nat, chunk: nat)
    requires cnt <= 8 && chunk < Pow2(cnt)
    ensures whole % TWO_32 * Pow2(cnt) % TWO_32 + chunk == (whole * Pow2(cnt) + chunk) % TWO_32
  {
    var a, b := Pow2(cnt), Pow2(32 - cnt);
    Pow2Add(cnt, 32 - cnt);
    Pow2Is();
    var v := whole % TWO_32;
    var q := whole / TWO_32;
    DivMod(whole, TWO_32);
    DivCancel(v, a, b);
    SameLow(whole, q, a, b, v);
    var p, r := whole / b, whole % b;
    DivMod(whole, b);
    Spread(whole, p, r, a, b, chunk);
    DivUnique(whole * a + chunk, TWO_32, p, r * a + chunk);
  }

  lemma SameLow(whole: int, q: int, a: int, b: int, v: int)
    requires a > 0 && b > 0 && whole == q * (a * b) + v && v >= 0
    ensures whole % b == v % b
  {
    DivMod(v, b);
    assert q * (a * b) == q * a * b;
    Distribute(q * a, v / b, b);
    DivUnique(whole, b, q * a + v / b, v % b);
  }

  lemma Spread(whole: int, p: int, r: int, a: int, b: int, chunk: int)
    requires whole == p * b + r && 0 <= r < b && 0 <= chunk < a
    ensures whole * a + chunk == p * (a * b) + (r * a + chunk)
    ensures 0 <= r * a + chunk < a * b
  {
    Distribute(p * b, r, a);
    assert p * b * a == p * (a * b);
    Distribute(b, r, a);
    MulGe(b - r, a);
    assert r * a >= 0;
    assert b * a == a * b;
  }

  /** `val <<= cnt; val |= chunk` in 32 bits. */
  function ShiftAdd(val: uint32, cnt: nat, chunk: nat): uint32
    requires cnt <= 8 && chunk < Pow2(cnt)
  {
    ShiftIn(val, cnt, chunk);
    val * Pow2(cnt) % TWO_32 + chunk
  }

  /** A 32-bit register after the bits from one position to another were shifted into it. */
  function Register(bits: seq<bit>, from: nat, to: nat): uint32
    requires from <= to <= |bits|
  {
    Value(bits[from..to]) % TWO_32
  }

  /** One turn of the loop of _read_bits appends the bits it takes from byte k. */
  lemma ReadTurn(buf: seq<byte>, pos: nat, from: nat, k: nat, bitIdx: int, cnt: nat)
    requires 1 <= cnt <= bitIdx <= 8 && pos <= from == 8 * k + 8 - bitIdx && k < |buf|
    ensures from + cnt <= 8 * |buf| && Chunk(buf[k], bitIdx, cnt) < Pow2(cnt)
    ensures ShiftAdd(Register(Bits(buf), pos, from), cnt, Chunk(buf[k], bitIdx, cnt))
         == Register(Bits(buf), pos, from + cnt)
  {
    hide Bits, Value, Chunk, Pow2;
    var all := Bits(buf);
    var before, taken := all[pos..from], all[from..from + cnt];
    ChunkValue(buf, k, bitIdx, cnt);
    ValueBound(taken);
    ValueAppend(before, taken);
    ShiftIn(Value(before), cnt, Value(taken));
    assert before + taken == all[pos..from + cnt];
  }

  // ---------------------------------------------------------------------------
  // The reader
  // ---------------------------------------------------------------------------

  /** An Exp-Golomb code at a position: lz zeros, a one, and lz more bits. */
  ghost predicate UeAt(bits: seq<bit>, pos: nat, lz: nat) {
    && pos + 2 * lz + 1 <= |bits|
    && (forall p | pos <= p < pos + lz :: bits[p] == 0)
    && bits[pos + lz] == 1
  }

  class Reader {
    const buf: array<byte>
    var byteIdx: nat
    var bitIdx: int

    /** bitstream_init. */
    constructor (buf: array<byte>)
      ensures Valid() && this.buf == buf && Pos() == 0
    {
      this.buf := buf;
      bitIdx := 8;
      byteIdx := 0;
    }

    ghost predicate Valid()
      reads this
    {
      1 <= bitIdx <= 8 && Pos() <= 8 * buf.Length
    }

    /** The position in bits. */
    ghost function Pos(): int
      reads this
    {
      8 * byteIdx + 8 - bitIdx
    }

    ghost function All(): (b: seq<bit>)
      reads buf
      ensures |b| == 8 * buf.Length
    {
      Bits(buf[..])
    }

    /** _read_bits: the next bits as a number, from any bit offset; moves on if told to. */
    method ReadBits(bits: nat, update: bool) returns (val: uint32)
      requires Valid() && Pos() + bits <= 8 * buf.Length
      modifies this
      ensures Valid() && Pos() == old(Pos()) + if update then bits else 0
      ensures val == Value(All()[old(Pos())..old(Pos()) + bits]) % TWO_32
      ensures bits <= 32 ==> val == Value(All()[old(Pos())..old(Pos()) + bits])
    {
      hide Bits, Value, Pow2, Chunk, ShiftAdd;
      ghost var pos: nat, all, bytes := Pos(), All(), buf[..];
      Small(all, pos, bits);
      val := 0;
      if bits == 0 {
        return;
      }
      var byteAt, bitAt, left := byteIdx, bitIdx, bits;
      while left > 0
        invariant 1 <= bitAt <= 8 && 0 <= left <= bits
        invariant 8 * byteAt + 8 - bitAt == pos + bits - left
        invariant val == Register(all, pos, pos + bits - left)
        invariant byteIdx == old(byteIdx) && bitIdx == old(bitIdx)
      {
        var cnt := if bitAt < left then bitAt else left;
        ReadTurn(bytes, pos, pos + bits - left, byteAt, bitAt, cnt);
        val := ShiftAdd(val, cnt, Chunk(buf[byteAt], bitAt, cnt));
        left := left - cnt;
        bitAt := bitAt - cnt;
        if bitAt == 0 {
          bitAt := 8;
          byteAt := byteAt + 1;
        }
      }
      if update {
        byteIdx := byteAt;
        bitIdx := bitAt;
      }
    }

    /** bitstream_u. */
    method U(bits: nat) returns (val: uint32)
      requires Valid() && Pos() + bits <= 8 * buf.Length
      modifies this
      ensures Valid() && Pos() == old(Pos()) + bits
      ensures bits <= 32 ==> val == Value(All()[old(Pos())..old(Pos()) + bits])
    {
      val := ReadBits(bits, true);
    }

    /** bitstream_peak. */
    method Peak(bits: nat) returns (val: uint32)
      requires Valid() && Pos() + bits <= 8 * buf.Length
      modifies this
      ensures Valid() && Pos() == old(Pos())
      ensures bits <= 32 ==> val == Value(All()[old(Pos())..old(Pos()) + bits])
    {
      val := ReadBits(bits, false);
    }

    /** bitstream_ue, where a code with at most 30 leading zeros lies ahead. */
    method Ue(ghost lz: nat) returns (codeNum: uint32)
      requires Valid() && UeAt(All(), Pos(), lz) && lz <= 30
      modifies this
      ensures Valid() && Pos() == old(Pos()) + 2 * lz + 1
      ensures codeNum == Pow2(lz) - 1 + Value(All()[old(Pos()) + lz + 1..old(Pos()) + 2 * lz + 1])
    {
      hide Bits, Pow2, Value;
      ghost var pos: nat, all := Pos(), All();
      var leadingZeros, b := -1, 0;
      while b == 0
        invariant Valid() && Pos() == pos + leadingZeros + 1
        invariant -1 <= leadingZeros <= lz
        invariant b == 0 ==> leadingZeros < lz
        invariant b != 0 ==> leadingZeros == lz
        decreases lz - leadingZeros
      {
        OneBit(all, pos + leadingZeros + 1);
        b := ReadBits(1, true);
        leadingZeros := leadingZeros + 1;
      }
      UeFits(all, pos, lz);
      var rest := ReadBits(leadingZeros, true);
      codeNum := Pow2(leadingZeros) - 1 + rest;
    }
  }

  lemma Small(all: seq<bit>, pos: nat, n: nat)
    requires pos + n <= |all|
    ensures Value(all[pos..pos]) == 0
    ensures n <= 32 ==> Value(all[pos..pos + n]) < TWO_32
  {
    var bits := all[pos..pos + n];
    ValueBound(bits);
    if n <= 32 {
      Pow2Is();
      Pow2Grows(n, 32);
    }
  }

  lemma OneBit(all: seq<bit>, p: nat)
    requires p < |all|
    ensures Value(all[p..p + 1]) == all[p]
  {
    var one := all[p..p + 1];
    assert one[..0] == [] && one[0] == all[p];
  }

  lemma UeFits(all: seq<bit>, pos: nat, lz: nat)
    requires UeAt(all, pos, lz) && lz <= 30
    ensures Pow2(lz) - 1 + Value(all[pos + lz + 1..pos + 2 * lz + 1]) < TWO_32
    ensures Value(all[pos + lz + 1..pos + 2 * lz + 1]) < TWO_32
  {
    ValueBound(all[pos + lz + 1..pos + 2 * lz + 1]);
    Pow2Is();
    Pow2Grows(lz + 1, 32);
  }

  // ---------------------------------------------------------------------------
  // Writing codewords, and reading them back
  // ---------------------------------------------------------------------------

  /** The descriptors u(n) and ue(v) of section 7.2 of ITU-T H.264. */
  datatype Format = Fixed(width: nat) | Golomb

  /** The values a descriptor has: 32-bit fields, and codes of at most 30 leading zeros. */
  ghost predicate Readable(f: Format, v: nat) {
    match f
    case Fixed(n) => n <= 32 && v < Pow2(n)
    case Golomb => v + 1 < Pow2(31)
  }

  ghost predicate AllReadable(formats: seq<Format>, values: seq<nat>) {
    |formats| == |values| && forall i | 0 <= i < |values| :: Readable(formats[i], values[i])
  }

  function Binary(v: nat, n: nat): (b: seq<bit>)
    ensures |b| == n
  {
    if n == 0 then [] else Binary(v / 2, n - 1) + [v % 2]
  }

  lemma {:induction false} BinaryValue(v: nat, n: nat)
    requires v < Pow2(n)
    ensures Value(Binary(v, n)) == v
  {
    if n > 0 {
      BinaryValue(v / 2, n - 1);
      assert Binary(v, n)[..n - 1] == Binary(v / 2, n - 1);
    }
  }

  function FloorLog(v: nat): (l: nat)
    requires v > 0
    ensures Pow2(l) <= v < Pow2(l + 1)
  {
    if v == 1 then 0 else 1 + FloorLog(v / 2)
  }

  function Zeros(n: nat): (z: seq<bit>)
    ensures |z| == n && forall i | 0 <= i < n :: z[i] == 0
  {
    seq(n, i => 0)
  }

  /** The codeword of a value. */
  function Code(f: Format, v: nat): seq<bit> {
    match f
    case Fixed(n) => Binary(v, n)
    case Golomb => var l := FloorLog(v + 1); Zeros(l) + [1] + Binary(v + 1 - Pow2(l), l)
  }

  function Codes(formats: seq<Format>, values: seq<nat>): seq<bit>
    requires |formats| == |values|
  {
    if values == [] then [] else Code(formats[0], values[0]) + Codes(formats[1..], values[1..])
  }

  ghost predicate Written(bits: seq<bit>, pos: nat, code: seq<bit>) {
    pos + |code| <= |bits| && bits[pos..pos + |code|] == code
  }

  lemma WrittenAppend(bits: seq<bit>, pos: nat, a: seq<bit>, b: seq<bit>)
    requires Written(bits, pos, a + b)
    ensures Written(bits, pos, a) && Written(bits, pos + |a|, b)
  {
    var all := bits[pos..pos + |a + b|];
    assert all[..|a|] == a && all[|a|..] == b;
  }

  /** The Exp-Golomb codeword of v is l zeros, a one and l more bits, and those make v. */
  lemma GolombDecodes(bits: seq<bit>, pos: nat, v: nat)
    requires Written(bits, pos, Code(Golomb, v)) && Readable(Golomb, v)
    ensures var l := FloorLog(v + 1);
            && l <= 30 && UeAt(bits, pos, l) && |Code(Golomb, v)| == 2 * l + 1
            && Pow2(l) - 1 + Value(bits[pos + l + 1..pos + 2 * l + 1]) == v
  {
    hide FloorLog, Binary, Zeros, Value, UeAt;
    var l := FloorLog(v + 1);
    if l > 30 {
      Pow2Grows(31, l);
    }
    assert |Code(Golomb, v)| == 2 * l + 1;
    var rest := v + 1 - Pow2(l);
    BinaryValue(rest, l);
    GolombShape(bits, pos, l, Binary(rest, l));
  }

  lemma GolombShape(bits: seq<bit>, pos: nat, l: nat, tail: seq<bit>)
    requires Written(bits, pos, Zeros(l) + [1] + tail) && |tail| == l
    ensures UeAt(bits, pos, l) && bits[pos + l + 1..pos + 2 * l + 1] == tail
  {
    WrittenAppend(bits, pos, Zeros(l) + [1], tail);
    WrittenAppend(bits, pos, Zeros(l), [1]);
    assert bits[pos + l] == bits[pos + l..pos + l + 1][0];
    forall p | pos <= p < pos + l ensures bits[p] == 0 {
      assert bits[p] == bits[pos..pos + l][p - pos];
    }
  }

  lemma FixedDecodes(bits: seq<bit>, pos: nat, n: nat, v: nat)
    requires Written(bits, pos, Code(Fixed(n), v)) && Readable(Fixed(n), v)
    ensures |Code(Fixed(n), v)| == n <= 32 && pos + n <= |bits| && Value(bits[pos..pos + n]) == v
  {
    BinaryValue(v, n);
  }

  /** A codeword written where the reader stands reads as its value. */
  method ReadSymbol(reader: Reader, format: Format, ghost v: nat) returns (val: uint32)
    requires reader.Valid() && Written(reader.All(), reader.Pos(), Code(format, v)) && Readable(format, v)
    modifies reader
    ensures reader.Valid() && reader.Pos() == old(reader.Pos()) + |Code(format, v)| && val == v
  {
    hide Code, Readable, Written, Bits, Value, Pow2, FloorLog;
    match format
    case Fixed(n) =>
      FixedDecodes(reader.All(), reader.Pos(), n, v);
      val := reader.U(n);
    case Golomb =>
      GolombDecodes(reader.All(), reader.Pos(), v);
      val := reader.Ue(FloorLog(v + 1));
  }

  /**
   * Codewords written back to back read back as their values, and the reader ends exactly behind
   * the last.
   */
  method ReadSymbols(reader: Reader, formats: seq<Format>, ghost values: seq<nat>) returns (vals: seq<uint32>)
    requires reader.Valid() && AllReadable(formats, values)
    requires Written(reader.All(), reader.Pos(), Codes(formats, values))
    modifies reader
    ensures reader.Valid() && reader.Pos() == old(reader.Pos()) + |Codes(formats, values)|
    ensures vals == values
  {
    hide Code, Readable;
    ghost var pos, all := reader.Pos(), reader.All();
    vals := [];
    for i := 0 to |formats|
      invariant reader.Valid()
      invariant reader.Pos() + |Codes(formats[i..], values[i..])| == pos + |Codes(formats, values)|
      invariant Written(all, reader.Pos(), Codes(formats[i..], values[i..]))
      invariant vals == values[..i]
    {
      assert values[i..][1..] == values[i + 1..] && formats[i..][1..] == formats[i + 1..];
      WrittenAppend(all, reader.Pos(), Code(formats[i], values[i]), Codes(formats[i + 1..], values[i + 1..]));
      var val := ReadSymbol(reader, formats[i], values[i]);
      vals := vals + [val];
    }
  }
}
