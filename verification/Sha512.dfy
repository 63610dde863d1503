/** The streaming implementation: a context that is updated in place, block buffering, and the
    unrolled compression function, proved against FIPS 180-4. */
module Sha512 {
  import Octets
  import opened Sha512Standard

  // ---------------------------------------------------------------------------
  // Compression
  // ---------------------------------------------------------------------------

  /** The choice and majority functions as the macros compute them. */
  function FastCh(x: bv64, y: bv64, z: bv64): bv64 {
    z ^ (x & (y ^ z))
  }

  function FastMaj(x: bv64, y: bv64, z: bv64): bv64 {
    ((x | y) & z) | (x & y)
  }

  lemma ChBits(x: bv64, y: bv64, z: bv64)
    ensures z ^ (x & (y ^ z)) == (x & y) ^ (!x & z)
  {
  }

  lemma MajBits(x: bv64, y: bv64, z: bv64)
    ensures ((x | y) & z) | (x & y) == (x & y) ^ (x & z) ^ (y & z)
  {
  }

  lemma FastIsStandard(x: bv64, y: bv64, z: bv64)
    ensures FastCh(x, y, z) == Ch(x, y, z)
    ensures FastMaj(x, y, z) == Maj(x, y, z)
  {
    ChBits(x, y, z);
    MajBits(x, y, z);
  }

  /** Eight registers under the names a..h. */
  function Named(s: seq<bv64>, a: nat, b: nat, c: nat, d: nat, e: nat, f: nat, g: nat, h: nat): Words
    requires a < |s| && b < |s| && c < |s| && d < |s| && e < |s| && f < |s| && g < |s| && h < |s|
  {
    [s[a], s[b], s[c], s[d], s[e], s[f], s[g], s[h]]
  }

  /** The Sha512Round macro writes two registers; with the names moved on by one it is a round. */
  method Sha512Round(s: array<bv64>, a: nat, b: nat, c: nat, d: nat, e: nat, f: nat, g: nat, h: nat, k: bv64, w: bv64)
    requires s.Length == 8
    requires a < 8 && b < 8 && c < 8 && d < 8 && e < 8 && f < 8 && g < 8 && h < 8
    requires d != h && d != a && d != b && d != c && d != e && d != f && d != g
    requires h != a && h != b && h != c && h != e && h != f && h != g
    modifies s
    ensures Named(s[..], h, a, b, c, d, e, f, g) == Round(old(Named(s[..], a, b, c, d, e, f, g, h)), k, w)
  {
    hide FastCh, FastMaj, Ch, Maj, Add, BigSigma0, BigSigma1;
    FastIsStandard(s[e], s[f], s[g]);
    FastIsStandard(s[a], s[b], s[c]);
    var t0 := Add(Add(Add(Add(s[h], BigSigma1(s[e])), FastCh(s[e], s[f], s[g])), k), w);
    var t1 := Add(BigSigma0(s[a]), FastMaj(s[a], s[b], s[c]));
    s[d] := Add(s[d], t0);
    s[h] := Add(t0, t1);
    AddCommutes(t0, t1);
  }

  lemma AddCommutes(x: bv64, y: bv64)
    ensures Add(x, y) == Add(y, x)
  {
  }

  /** Eight rounds, after which the registers have their first names again. */
  method EightRounds(s: array<bv64>, w: array<bv64>, i: nat, ghost h: Words)
    requires s.Length == 8 && w.Length == 80 && i + 8 <= 80 && s != w
    requires s[..] == Rounds(h, w[..], i)
    modifies s
    ensures s[..] == Rounds(h, w[..], i + 8)
  {
    hide K, Round, Rounds;
    var k := K();
    ghost var ws := w[..];
    assert s[..] == Named(s[..], 0, 1, 2, 3, 4, 5, 6, 7);
    OneMore(h, ws, i);
    Sha512Round(s, 0, 1, 2, 3, 4, 5, 6, 7, k[i + 0], w[i + 0]);
    OneMore(h, ws, i + 1);
    Sha512Round(s, 7, 0, 1, 2, 3, 4, 5, 6, k[i + 1], w[i + 1]);
    OneMore(h, ws, i + 2);
    Sha512Round(s, 6, 7, 0, 1, 2, 3, 4, 5, k[i + 2], w[i + 2]);
    OneMore(h, ws, i + 3);
    Sha512Round(s, 5, 6, 7, 0, 1, 2, 3, 4, k[i + 3], w[i + 3]);
    OneMore(h, ws, i + 4);
    Sha512Round(s, 4, 5, 6, 7, 0, 1, 2, 3, k[i + 4], w[i + 4]);
    OneMore(h, ws, i + 5);
    Sha512Round(s, 3, 4, 5, 6, 7, 0, 1, 2, k[i + 5], w[i + 5]);
    OneMore(h, ws, i + 6);
    Sha512Round(s, 2, 3, 4, 5, 6, 7, 0, 1, k[i + 6], w[i + 6]);
    OneMore(h, ws, i + 7);
    Sha512Round(s, 1, 2, 3, 4, 5, 6, 7, 0, k[i + 7], w[i + 7]);
    assert s[..] == Named(s[..], 0, 1, 2, 3, 4, 5, 6, 7);
  }

  lemma OneMore(h: Words, w: seq<bv64>, n: nat)
    requires |w| == 80 && n < 80
    ensures Rounds(h, w, n + 1) == Round(Rounds(h, w, n), K()[n], w[n])
  {
    hide K, Round;
  }

  /** The message schedule, word by word. */
  method FillSchedule(w: array<bv64>, block: seq<bv8>)
    requires w.Length == 80 && |block| == BLOCK_SIZE
    modifies w
    ensures w[..] == Schedule(BlockWords(block), 80)
  {
    hide Load64, ScheduleWord, Add, SmallSigma0, SmallSigma1, Schedule, BlockWords;
    ghost var m := BlockWords(block);
    WordsOf(block);
    for i := 0 to 16
      invariant forall j | 0 <= j < i :: w[j] == Load64(block[8 * j..8 * j + 8])
    {
      w[i] := Load64(block[8 * i..8 * i + 8]);
    }
    assert w[..16] == m;
    ScheduleNext(m, 16);
    for i := 16 to 80
      invariant w[..i] == Schedule(m, i)
    {
      ScheduleNext(m, i);
      ghost var done := w[..i];
      var word := Add(Add(Add(SmallSigma1(w[i - 2]), w[i - 7]), SmallSigma0(w[i - 15])), w[i - 16]);
      NextWord(done, word);
      w[i] := word;
      assert w[..i + 1] == done + [word];
    }
    assert w[..] == w[..80];
  }

  lemma WordsOf(block: seq<bv8>)
    requires |block| == BLOCK_SIZE
    ensures forall t | 0 <= t < 16 :: BlockWords(block)[t] == Load64(block[8 * t..8 * t + 8])
  {
    hide Load64;
  }

  /** The 80 rounds, eight at a time. */
  method AllRounds(s: array<bv64>, w: array<bv64>)
    requires s.Length == 8 && w.Length == 80 && s != w
    modifies s
    ensures s[..] == Rounds(old(s[..]), w[..], 80)
  {
    hide K, Round, Rounds;
    NoRounds(s[..], w[..]);
    var i := 0;
    while i < 80
      invariant 0 <= i <= 80 && i % 8 == 0
      invariant s[..] == Rounds(old(s[..]), w[..], i)
    {
      EightRounds(s, w, i, old(s[..]));
      i := i + 8;
    }
  }

  /** TransformFunction: one block into the state. */
  method TransformFunction(state: array<bv64>, block: seq<bv8>)
    requires state.Length == 8 && |block| == BLOCK_SIZE
    modifies state
    ensures state[..] == Compress(old(state[..]), block)
  {
    hide K, Round, Rounds, Add, BlockWords, Schedule;
    var s := new bv64[8];
    for i := 0 to 8
      invariant state[..] == old(state[..])
      invariant forall j | 0 <= j < i :: s[j] == state[j]
    {
      s[i] := state[i];
    }
    assert s[..] == state[..];
    var w := new bv64[80];
    FillSchedule(w, block);
    AllRounds(s, w);
    ghost var worked := s[..];
    for i := 0 to 8
      invariant s[..] == worked
      invariant forall j | 0 <= j < i :: state[j] == Add(old(state[j]), s[j])
      invariant forall j | i <= j < 8 :: state[j] == old(state[j])
    {
      state[i] := Add(state[i], s[i]);
    }
    assert state[..] == Compress(old(state[..]), block);
  }

  lemma NoRounds(h: Words, w: seq<bv64>)
    requires |w| == 80
    ensures Rounds(h, w, 0) == h
  {
  }

  lemma ScheduleNext(m: seq<bv64>, n: nat)
    requires |m| == 16 <= n
    ensures Schedule(m, 16) == m
    ensures Schedule(m, n + 1) == Schedule(m, n) + [ScheduleWord(Schedule(m, n))]
  {
    hide ScheduleWord;
  }

  lemma NextWord(w: seq<bv64>, x: bv64)
    requires |w| >= 16
    requires x == Add(Add(Add(SmallSigma1(w[|w| - 2]), w[|w| - 7]), SmallSigma0(w[|w| - 15])), w[|w| - 16])
    ensures ScheduleWord(w) == x
  {
  }

  // ---------------------------------------------------------------------------
  // The streaming context
  // ---------------------------------------------------------------------------

  /** uint64_t arithmetic on bit counts. */
  function Mod64(x: nat): (y: nat)
    ensures y < TWO_64
  {
    x % TWO_64
  }

  lemma Mod64Add(x: nat, y: nat)
    ensures Mod64(Mod64(x) + y) == Mod64(x + y)
  {
  }

  /** The last two blocks as Sha512Finalise makes them: it counts the length in 64 bits and
      writes zeros for the upper half of the standard's 128-bit length. */
  function PadMod64(m: seq<bv8>): (p: seq<bv8>)
    ensures |p| % BLOCK_SIZE == 0
  {
    PadLength(|m|, ZeroCount(|m|));
    m + [0x80] + Zeros(ZeroCount(|m|) + 8) + BigEndian(Mod64(8 * |m|), 8)
  }

  lemma {:induction false} BigEndianZero(n: nat)
    ensures BigEndian(0, n) == Zeros(n)
  {
    if n > 0 {
      BigEndianZero(n - 1);
    }
  }

  /** A number below 256^k has zeros in front of its k-byte form. */
  lemma {:induction false} BigEndianFits(x: nat, k: nat, n: nat)
    requires x < Power256(k)
    ensures BigEndian(x, k + n) == Zeros(n) + BigEndian(x, k)
  {
    if k == 0 {
      BigEndianZero(n);
    } else {
      BigEndianFits(x / 256, k - 1, n);
    }
  }

  function Power256(k: nat): nat {
    if k == 0 then 1 else 256 * Power256(k - 1)
  }

  lemma Power8()
    ensures Power256(8) == TWO_64
  {
    assert Power256(4) == 0x1_0000_0000;
    assert Power256(6) == 0x1_0000 * Power256(4);
  }

  lemma Power16()
    ensures Power256(16) == TWO_64 * TWO_64
  {
    Power8();
    assert Power256(10) == 0x1_0000 * Power256(8);
    assert Power256(12) == 0x1_0000 * Power256(10);
    assert Power256(14) == 0x1_0000 * Power256(12);
    assert Power256(16) == 0x1_0000 * Power256(14);
  }

  /** Different numbers below 256 are different bytes. */
  lemma ByteInjective(a: nat, b: nat)
    requires a < 256 && b < 256 && a as bv8 == b as bv8
    ensures a == b
  {
    Octets.NumberBack(a);
    Octets.NumberBack(b);
  }

  /** Numbers that fit n bytes have different n-byte forms. */
  lemma {:induction false} BigEndianInjective(x: nat, y: nat, n: nat)
    requires x < Power256(n) && y < Power256(n) && BigEndian(x, n) == BigEndian(y, n)
    ensures x == y
  {
    if n > 0 {
      var a, b := BigEndian(x, n), BigEndian(y, n);
      assert a[..n - 1] == BigEndian(x / 256, n - 1) && b[..n - 1] == BigEndian(y / 256, n - 1);
      assert a[n - 1] == (x % 256) as bv8 && b[n - 1] == (y % 256) as bv8;
      ByteInjective(x % 256, y % 256);
      BigEndianInjective(x / 256, y / 256, n - 1);
    }
  }

  /** The length field of the code, with eight zero bytes in front, is that of the length modulo 2^64. */
  lemma PadLengthField(m: seq<bv8>)
    ensures PadMod64(m) == m + [0x80] + Zeros(ZeroCount(|m|)) + BigEndian(Mod64(8 * |m|), 16)
  {
    hide Power256, BigEndian, ZeroCount;
    Power8();
    BigEndianFits(Mod64(8 * |m|), 8, 8);
    assert Zeros(ZeroCount(|m|) + 8) == Zeros(ZeroCount(|m|)) + Zeros(8);
  }

  /** The code pads a message the standard has a padding for as the standard does exactly if the message
      is shorter than 2^64 bits. */
  lemma PadIsStandard(m: seq<bv8>)
    requires 8 * |m| < TWO_64 * TWO_64
    ensures PadMod64(m) == Pad(m) <==> 8 * |m| < TWO_64
  {
    hide Power256, BigEndian, ZeroCount;
    PadLengthField(m);
    if PadMod64(m) == Pad(m) {
      var before := |m| + 1 + ZeroCount(|m|);
      assert BigEndian(Mod64(8 * |m|), 16) == PadMod64(m)[before..];
      assert BigEndian(8 * |m|, 16) == Pad(m)[before..];
      Power16();
      BigEndianInjective(8 * |m|, Mod64(8 * |m|), 16);
    }
  }

  /** Adding a piece behind the whole blocks of a message. */
  lemma Split(m: seq<bv8>, w: nat, piece: seq<bv8>)
    requires w <= |m|
    ensures (m + piece)[..w] == m[..w]
    ensures (m + piece)[w..] == m[w..] + piece
    ensures m + piece == m[..w] + (m[w..] + piece)
  {
  }

  lemma HashNone(h: Words)
    ensures HashBlocks(h, []) == h
  {
  }

  lemma {:induction false} HashAppend(h: Words, a: seq<bv8>, block: seq<bv8>)
    requires |a| % BLOCK_SIZE == 0 && |block| == BLOCK_SIZE
    ensures HashBlocks(h, a + block) == Compress(HashBlocks(h, a), block)
  {
    hide Compress;
    assert (a + block)[..|a + block| - BLOCK_SIZE] == a;
    assert (a + block)[|a + block| - BLOCK_SIZE..] == block;
  }

  class Context {
    var length: nat
    const state: array<bv64>
    var curlen: nat
    const buf: array<bv8>

    ghost var message: seq<bv8>

    ghost function Whole(): nat
      reads this
      requires curlen <= |message|
    {
      |message| - curlen
    }

    /** All whole blocks of the message are in the state, the rest is in the buffer. */
    ghost predicate Valid()
      reads this, state, buf
    {
      curlen < BLOCK_SIZE && Loaded()
    }

    /** The same, but the buffer may be full. */
    ghost predicate Loaded()
      reads this, state, buf
    {
      && state.Length == 8 && buf.Length == BLOCK_SIZE
      && curlen <= BLOCK_SIZE && curlen <= |message| && Whole() % BLOCK_SIZE == 0
      && state[..] == HashBlocks(InitialHash(), message[..Whole()])
      && buf[..curlen] == message[Whole()..]
      && length == Mod64(8 * Whole())
    }

    /** Sha512Initialise. */
    constructor ()
      ensures Valid() && message == [] && fresh(state) && fresh(buf)
    {
      hide InitialHash, HashBlocks;
      var h := InitialHash();
      HashNone(h);
      state := new bv64[8](i requires 0 <= i < 8 => h[i]);
      buf := new bv8[BLOCK_SIZE];
      length, curlen, message := 0, 0, [];
      new;
      assert state[..] == InitialHash();
    }

    /** A whole block, from the input or from the full buffer. */
    method Absorb(block: seq<bv8>, ghost before: seq<bv8>)
      requires state.Length == 8 && |block| == BLOCK_SIZE && |before| % BLOCK_SIZE == 0
      requires |before + block| % BLOCK_SIZE == 0
      requires state[..] == HashBlocks(InitialHash(), before) && length == Mod64(8 * |before|)
      modifies this`length, state
      ensures state[..] == HashBlocks(InitialHash(), before + block)
      ensures length == Mod64(8 * |before + block|)
    {
      hide HashBlocks, Compress, Mod64;
      HashAppend(InitialHash(), before, block);
      TransformFunction(state, block);
      length := Mod64(length + BLOCK_SIZE * 8);
      Mod64Add(8 * |before|, BLOCK_SIZE * 8);
    }

    /** Sha512Update: however the message is cut into calls, the context stands for all of it. */
    method Update(data: seq<bv8>)
      requires Valid() && |data| < 0x1_0000_0000
      modifies this, state, buf
      ensures Valid() && message == old(message) + data
    {
      hide HashBlocks, Mod64;
      var rest := data;
      while |rest| > 0
        invariant Valid() && message + rest == old(message) + data
        decreases |rest|
      {
        if curlen == 0 && |rest| >= BLOCK_SIZE {
          assert message[..Whole()] == message;
          Absorb(rest[..BLOCK_SIZE], message);
          message, rest := message + rest[..BLOCK_SIZE], rest[BLOCK_SIZE..];
          assert message[..Whole()] == message;
        } else {
          rest := Fill(rest);
        }
      }
    }

    /** The branch of Sha512Update that goes through the buffer. */
    method Fill(data: seq<bv8>) returns (rest: seq<bv8>)
      requires Valid() && |data| > 0 && !(curlen == 0 && |data| >= BLOCK_SIZE)
      modifies this, state, buf
      ensures Valid() && |rest| < |data| && message + rest == old(message) + data
    {
      hide Loaded;
      var n := if |data| < BLOCK_SIZE - curlen then |data| else BLOCK_SIZE - curlen;
      Buffer(data[..n]);
      rest := data[n..];
      assert data == data[..n] + rest;
      if curlen == BLOCK_SIZE {
        Flush();
      }
    }

    /** `memcpy( Context->buf + Context->curlen, Buffer, n )`. */
    method Buffer(piece: seq<bv8>)
      requires Loaded() && curlen + |piece| <= BLOCK_SIZE
      modifies this`curlen, this`message, buf
      ensures Loaded() && curlen == old(curlen) + |piece| && message == old(message) + piece
    {
      hide HashBlocks, Mod64;
      forall i | 0 <= i < |piece| {
        buf[curlen + i] := piece[i];
      }
      assert buf[..curlen + |piece|] == buf[..curlen] + piece;
      Split(message, Whole(), piece);
      message := message + piece;
      curlen := curlen + |piece|;
    }

    /** Compress the full buffer. */
    method Flush()
      requires Loaded() && curlen == BLOCK_SIZE
      modifies this`curlen, this`length, state
      ensures Valid()
    {
      hide HashBlocks, Mod64;
      assert message == message[..Whole()] + buf[..];
      Absorb(buf[..], message[..Whole()]);
      curlen := 0;
      assert message[..Whole()] == message;
    }

    /** `while( curlen < end ) buf[curlen++] = 0`. */
    method PadZeros(end: nat)
      requires curlen <= end <= buf.Length
      modifies this`curlen, buf
      ensures curlen == end
      ensures buf[..end] == old(buf[..curlen]) + Zeros(end - old(curlen))
    {
      while curlen < end
        invariant old(curlen) <= curlen <= end
        invariant buf[..curlen] == old(buf[..curlen]) + Zeros(curlen - old(curlen))
      {
        buf[curlen] := 0;
        curlen := curlen + 1;
        assert Zeros(curlen - old(curlen)) == Zeros(curlen - 1 - old(curlen)) + [0];
      }
    }

    /** If the length no longer fits: fill the block with zeros and compress it. */
    method CloseLongBlock(ghost done: seq<bv8>) returns (ghost done': seq<bv8>)
      requires state.Length == 8 && buf.Length == BLOCK_SIZE && 0 < curlen <= BLOCK_SIZE
      requires |done| % BLOCK_SIZE == 0 && state[..] == HashBlocks(InitialHash(), done)
      modifies this`curlen, state, buf
      ensures curlen == if old(curlen) > 112 then 0 else old(curlen)
      ensures buf[..curlen] == old(buf[..curlen])[..curlen]
      ensures done' == if old(curlen) > 112 then done + (old(buf[..curlen]) + Zeros(BLOCK_SIZE - old(curlen))) else done
      ensures |done'| % BLOCK_SIZE == 0 && state[..] == HashBlocks(InitialHash(), done')
    {
      hide HashBlocks, InitialHash, Compress;
      done' := done;
      if curlen > 112 {
        PadZeros(BLOCK_SIZE);
        assert buf[..] == buf[..BLOCK_SIZE];
        HashAppend(InitialHash(), done, buf[..]);
        done' := done + buf[..];
        TransformFunction(state, buf[..]);
        curlen := 0;
      }
    }

    /** Zeros up to byte 120, the bit length, and the last compression. */
    method CloseLastBlock(ghost done: seq<bv8>)
      requires state.Length == 8 && buf.Length == BLOCK_SIZE && curlen <= 112 && length < TWO_64
      requires |done| % BLOCK_SIZE == 0 && state[..] == HashBlocks(InitialHash(), done)
      modifies this`curlen, state, buf
      ensures var last := old(buf[..curlen]) + Zeros(120 - old(curlen)) + BigEndian(length, 8);
              |done + last| % BLOCK_SIZE == 0 && state[..] == HashBlocks(InitialHash(), done + last)
    {
      hide HashBlocks, InitialHash, Compress, BigEndian;
      ghost var last := buf[..curlen] + Zeros(120 - curlen) + BigEndian(length, 8);
      PadZeros(120);
      ghost var padded := buf[..120];
      var bytes := BigEndian(length, 8);
      forall i | 0 <= i < 8 {
        buf[120 + i] := bytes[i];
      }
      assert buf[..] == padded + bytes == last;
      assert state[..] == HashBlocks(InitialHash(), done);
      HashAppend(InitialHash(), done, last);
      TransformFunction(state, buf[..]);
    }

    /** Sha512Finalise: pad, compress the last one or two blocks, write the digest. */
    method Finalise(digest: array<bv8>)
      requires Valid() && digest.Length == HASH_SIZE && digest != buf
      modifies this, state, buf, digest
      ensures digest[..] == DigestBytes(HashBlocks(InitialHash(), PadMod64(old(message))))
      ensures 8 * |old(message)| < TWO_64 ==> digest[..] == Sha512(old(message))
    {
      hide HashBlocks, InitialHash, BigEndian, DigestBytes, Mod64, PadMod64, ZeroCount, Pad;
      ghost var m, whole, c := message, message[..Whole()], curlen;
      length := Mod64(length + curlen * 8);
      Mod64Add(8 * |whole|, 8 * c);
      buf[curlen] := 0x80;
      curlen := curlen + 1;
      assert buf[..curlen] == m[|whole|..] + [0x80];
      ghost var done := CloseLongBlock(whole);
      ghost var tail := buf[..curlen];
      ghost var last := tail + Zeros(120 - curlen) + BigEndian(length, 8);
      CloseLastBlock(done);
      assert c + 1 > 112 ==> last == Zeros(120) + BigEndian(length, 8);
      LastBlocks(m, |whole|, done, last);
      WriteDigest(digest);
      if 8 * |m| < TWO_64 {
        PadIsStandard(m);
      }
    }

    /** The output loop: STORE64H of every word of the state. */
    method WriteDigest(digest: array<bv8>)
      requires state.Length == 8 && digest.Length == HASH_SIZE
      modifies digest
      ensures digest[..] == DigestBytes(state[..])
    {
      hide DigestBytes, Store64;
      ghost var h := state[..];
      DigestNext(h, 0);
      for i := 0 to 8
        invariant state[..] == h
        invariant digest[..8 * i] == DigestBytes(h[..i])
      {
        var bytes := Store64(state[i]);
        forall j | 0 <= j < 8 {
          digest[8 * i + j] := bytes[j];
        }
        DigestNext(h, i);
        assert digest[..8 * (i + 1)] == digest[..8 * i] + bytes;
      }
      assert digest[..] == digest[..HASH_SIZE] && state[..] == h[..8];
    }
  }

  lemma DigestNext(h: seq<bv64>, i: nat)
    requires i < |h|
    ensures DigestBytes(h[..0]) == []
    ensures DigestBytes(h[..i + 1]) == DigestBytes(h[..i]) + Store64(h[i])
  {
    hide Store64;
    assert h[..i + 1][..i] == h[..i];
  }

  lemma ZeroCountIs(n: nat, whole: nat)
    requires whole <= n < whole + BLOCK_SIZE && whole % BLOCK_SIZE == 0
    ensures ZeroCount(n) == if n - whole > 111 then 239 - (n - whole) else 111 - (n - whole)
  {
  }

  /** One final block if at most 111 bytes are left over, else two. */
  lemma LastBlocks(m: seq<bv8>, whole: nat, done: seq<bv8>, last: seq<bv8>)
    requires whole <= |m| < whole + BLOCK_SIZE && whole % BLOCK_SIZE == 0
    requires var c, bytes := |m| - whole, BigEndian(Mod64(8 * |m|), 8);
             if c + 1 > 112
             then done == m[..whole] + (m[whole..] + [0x80] + Zeros(127 - c)) && last == Zeros(120) + bytes
             else done == m[..whole] && last == m[whole..] + [0x80] + Zeros(119 - c) + bytes
    ensures done + last == PadMod64(m)
  {
    hide BigEndian, ZeroCount, Mod64;
    var c, bytes := |m| - whole, BigEndian(Mod64(8 * |m|), 8);
    ZeroCountIs(|m|, whole);
    assert m == m[..whole] + m[whole..];
    if c + 1 > 112 {
      assert Zeros(ZeroCount(|m|) + 8) == Zeros(127 - c) + Zeros(120);
      assert done + last == m + [0x80] + (Zeros(127 - c) + Zeros(120)) + bytes;
    } else {
      assert done + last == m + [0x80] + Zeros(119 - c) + bytes;
    }
  }
}
