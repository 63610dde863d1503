/** Feedback datagrams on the media socket: generic NACK (section 6.2.1 of RFC 4585) into resend requests. */
module NackDecoding {
  import opened Arithmetic
  import opened Bytes

  const MAX_PACKET_BUFFER := 1500
  const GENERIC_NACK := 1
  const RTPFB := 205

  /** A call of _nack_resend_packet. */
  datatype Resend = Resend(ssrc: uint32, sn: uint16)

  // ---------------------------------------------------------------------------
  // The message of RFC 4585
  // ---------------------------------------------------------------------------

  /** One FCI entry: a lost packet, and a bitmask of the sixteen that follow it. */
  datatype Entry = Entry(pid: uint16, blp: uint16)

  datatype Feedback = Feedback(sender: uint32, media: uint32, entries: seq<Entry>)

  function EncodeEntries(entries: seq<Entry>): (s: seq<byte>)
    ensures |s| == 4 * |entries|
  {
    if entries == [] then []
    else BigEndian16(entries[0].pid) + BigEndian16(entries[0].blp) + EncodeEntries(entries[1..])
  }

  /** Sections 6.1 and 6.2.1 of RFC 4585: version 2, no padding, length in 32-bit words minus one. */
  function Encode(f: Feedback): (s: seq<byte>)
    requires |f.entries| + 2 < 0x1_0000
    ensures |s| == 12 + 4 * |f.entries|
  {
    [0x80 + GENERIC_NACK, RTPFB] + BigEndian16(|f.entries| + 2)
    + BigEndian32(f.sender) + BigEndian32(f.media) + EncodeEntries(f.entries)
  }

  /** The sequence number k behind another, across the wrap. */
  function Ahead(pid: uint16, k: nat): uint16 {
    (pid as int + k) % 0x1_0000
  }

  predicate BitSet(blp: nat, i: nat) {
    blp / Pow2(i) % 2 == 1
  }

  /** The packets that bits i to 15 of a bitmask report as lost. */
  function LostFrom(pid: uint16, blp: uint16, i: nat): seq<uint16>
    requires i <= 16
    decreases 16 - i
  {
    if i == 16 then []
    else (if BitSet(blp, i) then [Ahead(pid, i + 1)] else []) + LostFrom(pid, blp, i + 1)
  }

  function Lost(e: Entry): seq<uint16> {
    [e.pid] + LostFrom(e.pid, e.blp, 0)
  }

  function Resends(ssrc: uint32, sns: seq<uint16>): (r: seq<Resend>)
    ensures |r| == |sns| && forall i | 0 <= i < |r| :: r[i] == Resend(ssrc, sns[i])
  {
    seq(|sns|, i requires 0 <= i < |sns| => Resend(ssrc, sns[i]))
  }

  function AllLost(entries: seq<Entry>): seq<uint16> {
    if entries == [] then [] else Lost(entries[0]) + AllLost(entries[1..])
  }

  // ---------------------------------------------------------------------------
  // What a datagram asks for
  // ---------------------------------------------------------------------------

  /** ntohs of the two bytes at an offset. */
  function Word(d: seq<byte>, at: nat): uint16
    requires at + 2 <= |d|
  {
    d[at] as int * 0x100 + d[at + 1]
  }

  /** ntohl of the four bytes at an offset. */
  function Word32(d: seq<byte>, at: nat): uint32
    requires at + 4 <= |d|
  {
    Word(d, at) * 0x1_0000 + Word(d, at + 2)
  }

  /** The checks of recv_thread: type 1 of packet type 205, and as long as its length field says. */
  predicate IsNack(d: seq<byte>) {
    |d| >= 4 && d[0] % 0x20 == GENERIC_NACK && d[1] == RTPFB && 4 * (Word(d, 2) + 1) <= |d|
  }

  function EntriesAt(d: seq<byte>, at: nat, n: nat): (e: seq<Entry>)
    requires at + 4 * n <= |d|
    ensures |e| == n
    decreases n
  {
    if n == 0 then [] else [Entry(Word(d, at), Word(d, at + 2))] + EntriesAt(d, at + 4, n - 1)
  }

  /** The resend requests of a datagram. */
  function Requests(d: seq<byte>): seq<Resend> {
    if IsNack(d) && Word(d, 2) > 2 then
      Resends(Word32(d, 8), AllLost(EntriesAt(d, 12, Word(d, 2) - 2)))
    else []
  }

  // ---------------------------------------------------------------------------
  // Properties
  // ---------------------------------------------------------------------------

  lemma WordIs(d: seq<byte>, at: nat, x: uint16)
    requires at + 2 <= |d| && d[at..at + 2] == BigEndian16(x)
    ensures Word(d, at) == x
  {
    assert d[at] == d[at..at + 2][0] && d[at + 1] == d[at..at + 2][1];
  }

  lemma Word32Is(d: seq<byte>, at: nat, x: uint32)
    requires at + 4 <= |d| && d[at..at + 4] == BigEndian32(x)
    ensures Word32(d, at) == x
  {
    var four := d[at..at + 4];
    assert d[at..at + 2] == four[..2] && d[at + 2..at + 4] == four[2..];
    assert four[..2] == BigEndian16(x / 0x1_0000) && four[2..] == BigEndian16(x % 0x1_0000);
    WordIs(d, at, x / 0x1_0000);
    WordIs(d, at + 2, x % 0x1_0000);
  }

  lemma Slice(d: seq<byte>, at: nat, n: nat, a: nat, b: nat)
    requires a <= b <= n && at + n <= |d|
    ensures d[at..at + n][a..b] == d[at + a..at + b]
  {
    var l, r := d[at..at + n][a..b], d[at + a..at + b];
    assert |l| == |r| && forall i | 0 <= i < |l| :: l[i] == r[i];
  }

  lemma {:induction false} EntriesRead(d: seq<byte>, at: nat, entries: seq<Entry>)
    requires at + 4 * |entries| <= |d| && d[at..at + 4 * |entries|] == EncodeEntries(entries)
    ensures EntriesAt(d, at, |entries|) == entries
    decreases |entries|
  {
    if entries != [] {
      var all := d[at..at + 4 * |entries|];
      assert |all| >= 4;
      Slice(d, at, |all|, 0, 2);
      Slice(d, at, |all|, 2, 4);
      Slice(d, at, |all|, 4, |all|);
      WordIs(d, at, entries[0].pid);
      WordIs(d, at + 2, entries[0].blp);
      EntriesRead(d, at + 4, entries[1..]);
    }
  }

  /** A feedback message, whatever follows it in the datagram, asks for exactly the packets it reports. */
  lemma EncodedRequests(f: Feedback, rest: seq<byte>)
    requires |f.entries| + 2 < 0x1_0000
    ensures Requests(Encode(f) + rest) == Resends(f.media, AllLost(f.entries))
  {
    var d := Encode(f) + rest;
    EncodedFields(f, rest);
    if f.entries == [] {
      assert Requests(d) == [];
    } else {
      EntriesRead(d, 12, f.entries);
    }
  }

  lemma EncodedFields(f: Feedback, rest: seq<byte>)
    requires |f.entries| + 2 < 0x1_0000
    ensures var d := Encode(f) + rest;
            && IsNack(d) && Word(d, 2) == |f.entries| + 2 && Word32(d, 8) == f.media
            && d[12..12 + 4 * |f.entries|] == EncodeEntries(f.entries)
  {
    var d := Encode(f) + rest;
    assert d[2..4] == BigEndian16(|f.entries| + 2);
    assert d[8..12] == BigEndian32(f.media);
    WordIs(d, 2, |f.entries| + 2);
    Word32Is(d, 8, f.media);
  }

  /** How far a sequence number is ahead of another, across the wrap. */
  function Distance(pid: uint16, sn: uint16): (k: nat)
    ensures k < 0x1_0000 && Ahead(pid, k) == sn
  {
    if pid <= sn then sn - pid else 0x1_0000 - pid as int + sn
  }

  lemma DistanceOf(pid: uint16, k: nat)
    requires k < 0x1_0000
    ensures Distance(pid, Ahead(pid, k)) == k
  {
  }

  ghost predicate Reports(pid: uint16, blp: uint16, sn: uint16, from: nat) {
    var k := Distance(pid, sn);
    from < k <= 16 && BitSet(blp, k - 1)
  }

  lemma {:induction false} LostFromIff(pid: uint16, blp: uint16, i: nat, sn: uint16)
    requires i <= 16
    ensures sn in LostFrom(pid, blp, i) <==> Reports(pid, blp, sn, i)
    decreases 16 - i
  {
    if i < 16 {
      hide BitSet, Ahead, Distance;
      LostFromIff(pid, blp, i + 1, sn);
      DistanceOf(pid, i + 1);
    }
  }

  lemma ReportsAhead(pid: uint16, blp: uint16, sn: uint16, from: nat)
    ensures Reports(pid, blp, sn, from) ==> from < Distance(pid, sn) <= 16
  {
  }

  /** An entry asks for its packet, and for the one k ahead of it exactly if bit k - 1 is set. */
  lemma LostIff(e: Entry, sn: uint16)
    ensures sn in Lost(e) <==> sn == e.pid || Reports(e.pid, e.blp, sn, 0)
  {
    LostFromIff(e.pid, e.blp, 0, sn);
  }

  /** An entry's packets are asked for in sequence order, each once. */
  lemma {:induction false} LostInOrder(pid: uint16, blp: uint16, i: nat, a: nat, b: nat)
    requires i <= 16 && a < b < |LostFrom(pid, blp, i)|
    ensures i < Distance(pid, LostFrom(pid, blp, i)[a]) < Distance(pid, LostFrom(pid, blp, i)[b]) <= 16
    decreases 16 - i
  {
    hide BitSet, Ahead, Distance, LostFrom, Reports;
    if i == 16 {
      LostEnd(pid, blp);
    }
    LostStep(pid, blp, i);
    var all, more := LostFrom(pid, blp, i), LostFrom(pid, blp, i + 1);
    if !BitSet(blp, i) {
      LostInOrder(pid, blp, i + 1, a, b);
    } else {
      assert all == [Ahead(pid, i + 1)] + more;
      if a > 0 {
        LostInOrder(pid, blp, i + 1, a - 1, b - 1);
      } else {
        DistanceOf(pid, i + 1);
        LostFromIff(pid, blp, i + 1, more[b - 1]);
        ReportsAhead(pid, blp, more[b - 1], i + 1);
      }
    }
  }

  // ---------------------------------------------------------------------------
  // What a bitmask means
  // ---------------------------------------------------------------------------

  /** The sum of 2^(k - 1) over the distances k from 1 to n in a set. */
  function Bits(ks: set<nat>, n: nat): nat {
    if n == 0 then 0 else Bits(ks, n - 1) + if n in ks then Pow2(n - 1) else 0
  }

  lemma {:induction false} BitsBelow(ks: set<nat>, n: nat)
    ensures Bits(ks, n) < Pow2(n)
  {
    if n > 0 {
      BitsBelow(ks, n - 1);
    }
  }

  /** Bit i of the sum is set exactly for the distance i + 1. */
  lemma {:induction false} BitsSet(ks: set<nat>, n: nat, i: nat)
    requires i < n
    ensures BitSet(Bits(ks, n), i) <==> i + 1 in ks
  {
    hide Pow2, BitSet;
    var low := Bits(ks, n - 1);
    BitsBelow(ks, n - 1);
    if i < n - 1 {
      BitsSet(ks, n - 1, i);
      HigherBit(low, n - 1, i);
    } else {
      TopBit(low, i);
    }
  }

  lemma TopBit(low: nat, i: nat)
    requires low < Pow2(i)
    ensures BitSet(low + Pow2(i), i) && !BitSet(low, i)
  {
    DivUnique(low + Pow2(i), Pow2(i), 1, low);
    DivUnique(low, Pow2(i), 0, low);
  }

  /** A bit above bit i leaves bit i alone. */
  lemma HigherBit(low: nat, n: nat, i: nat)
    requires i < n
    ensures BitSet(low + Pow2(n), i) <==> BitSet(low, i)
  {
    hide Pow2;
    Pow2Add(i, n - i);
    Pow2Add(1, n - i - 1);
    Pow2Is();
    EvenQuotient(low, Pow2(i), Pow2(n - i - 1), Pow2(n));
  }

  lemma EvenQuotient(low: nat, d: nat, m: nat, p: nat)
    requires d > 0 && p == d * (2 * m)
    ensures (low + p) / d % 2 == low / d % 2
  {
    DivMod(low, d);
    Distribute(low / d, 2 * m, d);
    DivUnique(low + p, d, low / d + 2 * m, low % d);
  }

  /** The bitmask of RFC 4585 for packets lost at distances 1 to 16. */
  function Bitmask(ks: set<nat>): uint16 {
    BitsBelow(ks, 16);
    Pow2Is();
    Bits(ks, 16)
  }

  /** Main result: an entry with the bitmask of a set of distances asks for its packet and for exactly those
      at these distances behind it, across the wrap of sequence numbers. */
  lemma BitmaskMeans(pid: uint16, ks: set<nat>, sn: uint16)
    requires forall k | k in ks :: 1 <= k <= 16
    ensures sn in Lost(Entry(pid, Bitmask(ks))) <==> sn == pid || exists k | k in ks :: sn == (pid + k) % 0x1_0000
  {
    LostIff(Entry(pid, Bitmask(ks)), sn);
    var d := Distance(pid, sn);
    if 1 <= d <= 16 {
      BitsSet(ks, 16, d - 1);
    }
    forall k | k in ks && sn == (pid + k) % 0x1_0000 ensures d == k {
      DistanceOf(pid, k);
    }
  }

  /** A datagram is answered exactly if it is a generic NACK of packet type 205 with an FCI entry, and as
      long as its length field says. */
  lemma AnsweredIff(d: seq<byte>)
    ensures Requests(d) != [] <==>
            && |d| >= 4 && d[0] % 32 == 1 && d[1] == 205
            && var words := d[2] as int * 0x100 + d[3]; words > 2 && 4 * (words + 1) <= |d|
  {
  }

  // ---------------------------------------------------------------------------
  // recv_thread
  // ---------------------------------------------------------------------------

  /** One FCI entry. */
  method DecodeEntry(ssrc: uint32, pid: uint16, blp: uint16) returns (calls: seq<Resend>)
    ensures calls == Resends(ssrc, Lost(Entry(pid, blp)))
  {
    hide BitSet, Ahead, LostFrom, Resends;
    calls := [Resend(ssrc, pid)];
    ghost var sns: seq<uint16> := [pid];
    assert calls == Resends(ssrc, sns);
    if blp != 0 {
      for i := 0 to 16
        invariant calls == Resends(ssrc, sns) && sns + LostFrom(pid, blp, i) == Lost(Entry(pid, blp))
      {
        LostStep(pid, blp, i);
        if BitSet(blp, i) {
          var sn := Ahead(pid, i + 1);
          ResendsAppend(ssrc, sns, [sn]);
          assert Resends(ssrc, [sn]) == [Resend(ssrc, sn)];
          assert sns + ([sn] + LostFrom(pid, blp, i + 1)) == sns + [sn] + LostFrom(pid, blp, i + 1);
          calls := calls + [Resend(ssrc, sn)];
          sns := sns + [sn];
        }
      }
      LostEnd(pid, blp);
    } else {
      NoneSet(pid, 0);
    }
  }

  lemma LostStep(pid: uint16, blp: uint16, i: nat)
    requires i < 16
    ensures LostFrom(pid, blp, i) ==
            (if BitSet(blp, i) then [Ahead(pid, i + 1)] + LostFrom(pid, blp, i + 1) else LostFrom(pid, blp, i + 1))
  {
  }

  lemma LostEnd(pid: uint16, blp: uint16)
    ensures LostFrom(pid, blp, 16) == []
  {
  }

  lemma {:induction false} NoneSet(pid: uint16, i: nat)
    requires i <= 16
    ensures LostFrom(pid, 0, i) == []
    decreases 16 - i
  {
    if i < 16 {
      NoneSet(pid, i + 1);
    }
  }

  lemma ResendsAppend(ssrc: uint32, a: seq<uint16>, b: seq<uint16>)
    ensures Resends(ssrc, a + b) == Resends(ssrc, a) + Resends(ssrc, b)
  {
  }

  /**
   * The NACK branch of recv_thread on a buffer that recvfrom filled up to recvLen: the calls are
   * what the datagram asks for, whatever the buffer still holds behind it, and every FCI entry is
   * read from inside the datagram.
   */
  method DecodeFeedback(buf: array<byte>, recvLen: nat) returns (calls: seq<Resend>)
    requires buf.Length == MAX_PACKET_BUFFER && recvLen <= buf.Length
    ensures calls == Requests(buf[..recvLen])
  {
    hide Lost, AllLost;
    calls := [];
    if recvLen < 2 {
      return;
    }
    ghost var d := buf[..recvLen];
    var feedbackType, ptype := buf[0] % 0x20, buf[1];
    if feedbackType == GENERIC_NACK && ptype == RTPFB {
      var length := Word(buf[..], 2);
      assert recvLen >= 4 ==> length == Word(d, 2);
      if recvLen < (length as int + 1) * 4 {
        return;
      }
      var ssrcMedia := Word32(buf[..], 8);
      calls := DecodeEntries(buf[..recvLen], length, ssrcMedia);
      assert length > 2 ==> ssrcMedia == Word32(d, 8);
    }
  }

  /** The loop over the FCI entries of a datagram. */
  method DecodeEntries(d: seq<byte>, length: nat, ssrcMedia: uint32) returns (calls: seq<Resend>)
    requires (length + 1) * 4 <= |d|
    ensures length <= 2 ==> calls == []
    ensures length > 2 ==> calls == Resends(ssrcMedia, AllLost(EntriesAt(d, 12, length - 2)))
  {
    hide Lost;
    calls := [];
    if length > 2 {
      var p := 12;
      ghost var all := AllLost(EntriesAt(d, 12, length - 2));
      for fci := 0 to length - 2
        invariant p == 12 + 4 * fci
        invariant calls + Resends(ssrcMedia, AllLost(EntriesAt(d, p, length - 2 - fci))) == Resends(ssrcMedia, all)
      {
        var snBase, blp := Word(d, p), Word(d, p + 2);
        ghost var later := EntriesAt(d, p + 4, length - 3 - fci);
        assert EntriesAt(d, p, length - 2 - fci)[1..] == later;
        ResendsAppend(ssrcMedia, Lost(Entry(snBase, blp)), AllLost(later));
        var more := DecodeEntry(ssrcMedia, snBase, blp);
        calls := calls + more;
        p := p + 4;
      }
    }
  }
}
