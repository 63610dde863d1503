/** hmacsha512, proved against section 2 of RFC 2104, and the hex form of its result. */
module Hmac {
  import opened Sha512Standard
  import opened Sha512

  const O_KEY_PAD: bv8 := 0x5C
  const I_KEY_PAD: bv8 := 0x36
  const HEX_STRING_HASH_SIZE := HASH_SIZE * 2 + 1

  // ---------------------------------------------------------------------------
  // RFC 2104
  // ---------------------------------------------------------------------------

  /** The key as a block: hashed if longer than a block, then filled up with zeros. */
  function KeyBlock(key: seq<bv8>): (k: seq<bv8>)
    ensures |k| == BLOCK_SIZE
  {
    var k := if |key| > BLOCK_SIZE then Sha512Standard.Sha512(key) else key;
    k + Zeros(BLOCK_SIZE - |k|)
  }

  function XorEach(k: seq<bv8>, pad: bv8): (r: seq<bv8>)
    ensures |r| == |k|
  {
    seq(|k|, i requires 0 <= i < |k| => k[i] ^ pad)
  }

  function HmacSha512(key: seq<bv8>, text: seq<bv8>): (mac: seq<bv8>)
    ensures |mac| == HASH_SIZE
  {
    var k := KeyBlock(key);
    Sha512Standard.Sha512(XorEach(k, 0x5C) + Sha512Standard.Sha512(XorEach(k, 0x36) + text))
  }

  // ---------------------------------------------------------------------------
  // Hex
  // ---------------------------------------------------------------------------

  /** The i-th of "0123456789abcdef", as ASCII. */
  function HexDigit(n: bv8): bv8
    requires n < 16
  {
    if n < 10 then 0x30 + n else 0x57 + n
  }

  function Hex(bytes: seq<bv8>): (h: seq<bv8>)
    ensures |h| == 2 * |bytes|
  {
    if bytes == [] then []
    else
      var b := bytes[|bytes| - 1];
      Hex(bytes[..|bytes| - 1]) + [HexDigit(b >> 4), HexDigit(b & 0x0F)]
  }

  lemma HexNext(bytes: seq<bv8>, i: nat)
    requires i < |bytes|
    ensures Hex(bytes[..0]) == []
    ensures Hex(bytes[..i + 1]) == Hex(bytes[..i]) + [HexDigit(bytes[i] >> 4), HexDigit(bytes[i] & 0x0F)]
  {
    hide HexDigit;
    assert bytes[..i + 1][..i] == bytes[..i];
  }

  /** decode_hex_char on an ASCII code. */
  function DecodeHexChar(c: bv8): bv8 {
    if 0x30 <= c <= 0x39 then c - 0x30
    else
      var lower := c | (1 << 5);
      if 0x61 <= lower <= 0x7A then (lower - 0x61) + 10 else 0
  }

  /** The byte ftl_get_hmac makes of two hex characters. */
  function DecodePair(high: bv8, low: bv8): bv8 {
    (DecodeHexChar(high) << 4) + DecodeHexChar(low)
  }

  /** The decoding loop of ftl_get_hmac. */
  method DecodeHex(hex: seq<bv8>) returns (msg: seq<bv8>)
    requires |hex| % 2 == 0
    ensures |msg| == |hex| / 2
    ensures forall i | 0 <= i < |msg| :: msg[i] == DecodePair(hex[i * 2], hex[i * 2 + 1])
  {
    msg := [];
    for i := 0 to |hex| / 2
      invariant |msg| == i
      invariant forall j | 0 <= j < i :: msg[j] == DecodePair(hex[j * 2], hex[j * 2 + 1])
    {
      msg := msg + [DecodePair(hex[i * 2], hex[i * 2 + 1])];
    }
  }

  /** What every character decodes to: digits and letters of either case by their place, others to 0. */
  lemma HexCharacter(c: bv8)
    ensures 0x30 <= c <= 0x39 ==> DecodeHexChar(c) == c - 0x30
    ensures 0x41 <= c <= 0x5A ==> DecodeHexChar(c) == c - 0x37
    ensures 0x61 <= c <= 0x7A ==> DecodeHexChar(c) == c - 0x57
    ensures c < 0x30 || 0x39 < c < 0x41 || 0x5A < c < 0x61 || 0x7A < c ==> DecodeHexChar(c) == 0
  {
  }

  /** The hex form is written in digits and lower-case letters. */
  lemma HexDigitIs(n: bv8)
    requires n < 16
    ensures HexDigit(n) as int == "0123456789abcdef"[n as int] as int
  {
    assert n == 0 || n == 1 || n == 2 || n == 3 || n == 4 || n == 5 || n == 6 || n == 7
        || n == 8 || n == 9 || n == 10 || n == 11 || n == 12 || n == 13 || n == 14 || n == 15;
  }

  lemma HexPair(b: bv8)
    ensures DecodePair(HexDigit(b >> 4), HexDigit(b & 0x0F)) == b
  {
  }

  /** Decoding the hex form pair by pair gives the bytes back. */
  lemma {:induction false} HexDecodes(bytes: seq<bv8>, i: nat)
    requires i < |bytes|
    ensures var h := Hex(bytes);
            DecodePair(h[i * 2], h[i * 2 + 1]) == bytes[i]
  {
    hide HexDigit, DecodePair;
    if i == |bytes| - 1 {
      HexPair(bytes[i]);
    } else {
      HexDecodes(bytes[..|bytes| - 1], i);
    }
  }

  // ---------------------------------------------------------------------------
  // The implementation
  // ---------------------------------------------------------------------------

  function Concat(pieces: seq<seq<bv8>>): seq<bv8> {
    if pieces == [] then [] else Concat(pieces[..|pieces| - 1]) + pieces[|pieces| - 1]
  }

  /** Initialise, one Update for every piece, Finalise: the digest depends on the concatenation
      of the pieces alone, whatever they are. */
  method HashPieces(pieces: seq<seq<bv8>>) returns (digest: seq<bv8>)
    requires forall i | 0 <= i < |pieces| :: |pieces[i]| < 0x1_0000_0000
    requires 8 * |Concat(pieces)| < TWO_64
    ensures digest == Sha512Standard.Sha512(Concat(pieces))
  {
    hide Sha512Standard.Sha512, Context.Valid, PadMod64, HashBlocks, DigestBytes;
    var ctx := new Context();
    for i := 0 to |pieces|
      invariant ctx.Valid() && ctx.message == Concat(pieces[..i])
      invariant fresh(ctx) && fresh(ctx.state) && fresh(ctx.buf)
    {
      ctx.Update(pieces[i]);
      assert pieces[..i + 1][..i] == pieces[..i];
    }
    assert pieces[..|pieces|] == pieces;
    var hash := new bv8[HASH_SIZE];
    ctx.Finalise(hash);
    digest := hash[..];
  }

  lemma ConcatShort(a: seq<bv8>, b: seq<bv8>)
    ensures Concat([a]) == a && Concat([a, b]) == a + b
  {
    assert [a][..0] == [] && [a, b][..1] == [a];
  }

  /** hmacsha512: the MAC in hex, and a terminating zero. */
  method HmacSha512Hex(rawKey: seq<bv8>, message: seq<bv8>, result: array<bv8>) returns (n: nat)
    requires |rawKey| < 0x1_0000_0000 && |message| < 0x8000_0000 && result.Length >= HEX_STRING_HASH_SIZE
    modifies result
    ensures n == HEX_STRING_HASH_SIZE
    ensures result[..n - 1] == Hex(HmacSha512(rawKey, message)) && result[n - 1] == 0
    ensures forall i | 0 <= i < HASH_SIZE ::
              DecodePair(result[i * 2], result[i * 2 + 1]) == HmacSha512(rawKey, message)[i]
  {
    hide Sha512Standard.Sha512, HexDigit, DecodePair;
    var key := rawKey;
    if |rawKey| > BLOCK_SIZE {
      ConcatShort(rawKey, []);
      key := HashPieces([rawKey]);
    }
    var iKeyPad, oKeyPad := PadKeys(key);
    ghost var k := KeyBlock(rawKey);
    assert k == key + Zeros(BLOCK_SIZE - |key|);
    ConcatShort(iKeyPad, message);
    var inner := HashPieces([iKeyPad, message]);
    ConcatShort(oKeyPad, inner);
    var mac := HashPieces([oKeyPad, inner]);
    WriteHex(mac, result);
    forall i | 0 <= i < HASH_SIZE
      ensures DecodePair(result[i * 2], result[i * 2 + 1]) == mac[i]
    {
      HexDecodes(mac, i);
    }
    n := HEX_STRING_HASH_SIZE;
  }

  /** The output loop and the terminator. */
  method WriteHex(mac: seq<bv8>, result: array<bv8>)
    requires |mac| == HASH_SIZE && result.Length >= HEX_STRING_HASH_SIZE
    modifies result
    ensures result[..2 * HASH_SIZE] == Hex(mac) && result[2 * HASH_SIZE] == 0
  {
    hide HexDigit, Hex;
    HexNext(mac, 0);
    for i := 0 to HASH_SIZE
      invariant result[..2 * i] == Hex(mac[..i])
    {
      var high, low := HexDigit(mac[i] >> 4), HexDigit(mac[i] & 0x0F);
      result[i * 2] := high;
      result[i * 2 + 1] := low;
      HexNext(mac, i);
      assert result[..2 * (i + 1)] == result[..2 * i] + [high, low];
    }
    assert mac[..HASH_SIZE] == mac;
    result[HEX_STRING_HASH_SIZE - 1] := 0;
  }

  /** memset and xor loop over the two pads. */
  method PadKeys(key: seq<bv8>) returns (iKeyPad: seq<bv8>, oKeyPad: seq<bv8>)
    requires |key| <= BLOCK_SIZE
    ensures iKeyPad == XorEach(key + Zeros(BLOCK_SIZE - |key|), I_KEY_PAD)
    ensures oKeyPad == XorEach(key + Zeros(BLOCK_SIZE - |key|), O_KEY_PAD)
  {
    var ipad := new bv8[BLOCK_SIZE](_ => I_KEY_PAD);
    var opad := new bv8[BLOCK_SIZE](_ => O_KEY_PAD);
    for i := 0 to |key|
      invariant forall j | 0 <= j < BLOCK_SIZE :: ipad[j] == if j < i then I_KEY_PAD ^ key[j] else I_KEY_PAD
      invariant forall j | 0 <= j < BLOCK_SIZE :: opad[j] == if j < i then O_KEY_PAD ^ key[j] else O_KEY_PAD
    {
      opad[i] := opad[i] ^ key[i];
      ipad[i] := ipad[i] ^ key[i];
    }
    iKeyPad, oKeyPad := ipad[..], opad[..];
  }
}
