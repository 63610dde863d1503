/** SHA-512 as FIPS 180-4 defines it: functions and constants (4.1.3, 4.2.3), initial value
    (5.3.5), padding (5.1.2) and hash computation (6.4.2). */
module Sha512Standard {
  const BLOCK_SIZE := 128
  const HASH_SIZE := 64
  const TWO_64 := 0x1_0000_0000_0000_0000

  type Words = s: seq<bv64> | |s| == 8 witness [0, 0, 0, 0, 0, 0, 0, 0]

  /** The 80 round constants. */
  function K(): (k: seq<bv64>)
    ensures |k| == 80
  {
    [0x428a2f98d728ae22, 0x7137449123ef65cd, 0xb5c0fbcfec4d3b2f, 0xe9b5dba58189dbbc,
     0x3956c25bf348b538, 0x59f111f1b605d019, 0x923f82a4af194f9b, 0xab1c5ed5da6d8118,
     0xd807aa98a3030242, 0x12835b0145706fbe, 0x243185be4ee4b28c, 0x550c7dc3d5ffb4e2,
     0x72be5d74f27b896f, 0x80deb1fe3b1696b1, 0x9bdc06a725c71235, 0xc19bf174cf692694,
     0xe49b69c19ef14ad2, 0xefbe4786384f25e3, 0x0fc19dc68b8cd5b5, 0x240ca1cc77ac9c65,
     0x2de92c6f592b0275, 0x4a7484aa6ea6e483, 0x5cb0a9dcbd41fbd4, 0x76f988da831153b5,
     0x983e5152ee66dfab, 0xa831c66d2db43210, 0xb00327c898fb213f, 0xbf597fc7beef0ee4,
     0xc6e00bf33da88fc2, 0xd5a79147930aa725, 0x06ca6351e003826f, 0x142929670a0e6e70,
     0x27b70a8546d22ffc, 0x2e1b21385c26c926, 0x4d2c6dfc5ac42aed, 0x53380d139d95b3df,
     0x650a73548baf63de, 0x766a0abb3c77b2a8, 0x81c2c92e47edaee6, 0x92722c851482353b,
     0xa2bfe8a14cf10364, 0xa81a664bbc423001, 0xc24b8b70d0f89791, 0xc76c51a30654be30,
     0xd192e819d6ef5218, 0xd69906245565a910, 0xf40e35855771202a, 0x106aa07032bbd1b8,
     0x19a4c116b8d2d0c8, 0x1e376c085141ab53, 0x2748774cdf8eeb99, 0x34b0bcb5e19b48a8,
     0x391c0cb3c5c95a63, 0x4ed8aa4ae3418acb, 0x5b9cca4f7763e373, 0x682e6ff3d6b2b8a3,
     0x748f82ee5defb2fc, 0x78a5636f43172f60, 0x84c87814a1f0ab72, 0x8cc702081a6439ec,
     0x90befffa23631e28, 0xa4506cebde82bde9, 0xbef9a3f7b2c67915, 0xc67178f2e372532b,
     0xca273eceea26619c, 0xd186b8c721c0c207, 0xeada7dd6cde0eb1e, 0xf57d4f7fee6ed178,
     0x06f067aa72176fba, 0x0a637dc5a2c898a6, 0x113f9804bef90dae, 0x1b710b35131c471b,
     0x28db77f523047d84, 0x32caab7b40c72493, 0x3c9ebe0a15c9bebc, 0x431d67c49c100d4c,
     0x4cc5d4becb3e42b6, 0x597f299cfc657e2a, 0x5fcb6fab3ad6faec, 0x6c44198c4a475817]
  }

  function InitialHash(): Words {
    [0x6a09e667f3bcc908, 0xbb67ae8584caa73b, 0x3c6ef372fe94f82b, 0xa54ff53a5f1d36f1,
     0x510e527fade682d1, 0x9b05688c2b3e6c1f, 0x1f83d9abfb41bd6b, 0x5be0cd19137e2179]
  }

  function Rotr(x: bv64, n: nat): bv64
    requires n < 64
  {
    (x >> n) | (x << (64 - n))
  }

  function Ch(x: bv64, y: bv64, z: bv64): bv64 {
    (x & y) ^ (!x & z)
  }

  function Maj(x: bv64, y: bv64, z: bv64): bv64 {
    (x & y) ^ (x & z) ^ (y & z)
  }

  function BigSigma0(x: bv64): bv64 {
    Rotr(x, 28) ^ Rotr(x, 34) ^ Rotr(x, 39)
  }

  function BigSigma1(x: bv64): bv64 {
    Rotr(x, 14) ^ Rotr(x, 18) ^ Rotr(x, 41)
  }

  function SmallSigma0(x: bv64): bv64 {
    Rotr(x, 1) ^ Rotr(x, 8) ^ (x >> 7)
  }

  function SmallSigma1(x: bv64): bv64 {
    Rotr(x, 19) ^ Rotr(x, 61) ^ (x >> 6)
  }

  function Add(x: bv64, y: bv64): bv64 {
    x + y
  }

  // ---------------------------------------------------------------------------
  // Words and bytes
  // ---------------------------------------------------------------------------

  /** A word from eight bytes, most significant first. */
  function Load64(b: seq<bv8>): bv64
    requires |b| == 8
  {
    ((b[0] as bv64) << 56) | ((b[1] as bv64) << 48) | ((b[2] as bv64) << 40) | ((b[3] as bv64) << 32) |
    ((b[4] as bv64) << 24) | ((b[5] as bv64) << 16) | ((b[6] as bv64) << 8) | (b[7] as bv64)
  }

  /** The eight bytes of a word, most significant first. */
  function Store64(x: bv64): (b: seq<bv8>)
    ensures |b| == 8
  {
    [((x >> 56) & 255) as bv8, ((x >> 48) & 255) as bv8, ((x >> 40) & 255) as bv8, ((x >> 32) & 255) as bv8,
     ((x >> 24) & 255) as bv8, ((x >> 16) & 255) as bv8, ((x >> 8) & 255) as bv8, (x & 255) as bv8]
  }

  /** The sixteen words of a block. */
  function BlockWords(block: seq<bv8>): (m: seq<bv64>)
    requires |block| == BLOCK_SIZE
    ensures |m| == 16
  {
    seq(16, t requires 0 <= t < 16 => Load64(block[8 * t..8 * t + 8]))
  }

  /** The bytes of a hash value. */
  function DigestBytes(h: seq<bv64>): (d: seq<bv8>)
    ensures |d| == 8 * |h|
  {
    if h == [] then [] else DigestBytes(h[..|h| - 1]) + Store64(h[|h| - 1])
  }

  // ---------------------------------------------------------------------------
  // Hash computation
  // ---------------------------------------------------------------------------

  /** The first n words of the message schedule. */
  function Schedule(m: seq<bv64>, n: nat): (w: seq<bv64>)
    requires |m| == 16 <= n
    ensures |w| == n
  {
    if n == 16 then m
    else
      var w := Schedule(m, n - 1);
      w + [ScheduleWord(w)]
  }

  /** The next word of the schedule. */
  function ScheduleWord(w: seq<bv64>): bv64
    requires |w| >= 16
  {
    var t := |w|;
    Add(Add(Add(SmallSigma1(w[t - 2]), w[t - 7]), SmallSigma0(w[t - 15])), w[t - 16])
  }

  function T1(s: Words, k: bv64, w: bv64): bv64 {
    Add(Add(Add(Add(s[7], BigSigma1(s[4])), Ch(s[4], s[5], s[6])), k), w)
  }

  function T2(s: Words): bv64 {
    Add(BigSigma0(s[0]), Maj(s[0], s[1], s[2]))
  }

  /** One round: the eight working variables a..h move on by one place. */
  function Round(s: Words, k: bv64, w: bv64): Words {
    [Add(T1(s, k, w), T2(s)), s[0], s[1], s[2], Add(s[3], T1(s, k, w)), s[4], s[5], s[6]]
  }

  /** The first n rounds. */
  function Rounds(s: Words, w: seq<bv64>, n: nat): Words
    requires n <= 80 && |w| == 80
  {
    if n == 0 then s else Round(Rounds(s, w, n - 1), K()[n - 1], w[n - 1])
  }

  function Compress(h: Words, block: seq<bv8>): Words
    requires |block| == BLOCK_SIZE
  {
    var s := Rounds(h, Schedule(BlockWords(block), 80), 80);
    seq(8, i requires 0 <= i < 8 => Add(h[i], s[i]))
  }

  /** The hash value after all blocks. */
  function HashBlocks(h: Words, bytes: seq<bv8>): Words
    requires |bytes| % BLOCK_SIZE == 0
  {
    if bytes == [] then h
    else Compress(HashBlocks(h, bytes[..|bytes| - BLOCK_SIZE]), bytes[|bytes| - BLOCK_SIZE..])
  }

  // ---------------------------------------------------------------------------
  // Padding
  // ---------------------------------------------------------------------------

  /** The n-byte big-endian form of x. */
  function BigEndian(x: nat, n: nat): (b: seq<bv8>)
    ensures |b| == n
  {
    if n == 0 then [] else BigEndian(x / 256, n - 1) + [(x % 256) as bv8]
  }

  function Zeros(n: nat): (z: seq<bv8>)
    ensures |z| == n
  {
    seq(n, _ => 0)
  }

  /** How many zero bytes follow the byte with the 1 bit: as few as make the length 112 modulo 128. */
  function ZeroCount(n: nat): (k: nat)
    ensures (n + 1 + k) % BLOCK_SIZE == 112 && k < BLOCK_SIZE
  {
    (111 - n) % BLOCK_SIZE
  }

  /** The message, a 1 bit, zeros, and its length in bits as a 128-bit number. */
  function Pad(m: seq<bv8>): (p: seq<bv8>)
    ensures |p| % BLOCK_SIZE == 0
  {
    PadLength(|m|, ZeroCount(|m|));
    m + [0x80] + Zeros(ZeroCount(|m|)) + BigEndian(8 * |m|, 16)
  }

  lemma PadLength(n: nat, k: nat)
    requires (n + 1 + k) % BLOCK_SIZE == 112
    ensures (n + 1 + k + 16) % BLOCK_SIZE == 0
  {
  }

  function Sha512(m: seq<bv8>): (digest: seq<bv8>)
    ensures |digest| == HASH_SIZE
  {
    DigestBytes(HashBlocks(InitialHash(), Pad(m)))
  }
}
