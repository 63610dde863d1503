/** RTP packets of one H.264 stream: how the sender cuts NAL units into packets, and how a
    receiver that follows sections 5.6 and 5.8 of RFC 6184 puts them together again. */
module RtpPackets {
  import opened Bytes

  const MAX_MTU := 1392
  const RTP_HEADER_BASE_LEN := 12
  const RTP_FUA_HEADER_LEN := 2
  const SINGLE_MAX := MAX_MTU - RTP_HEADER_BASE_LEN
  const FRAGMENT_MAX := MAX_MTU - RTP_HEADER_BASE_LEN - RTP_FUA_HEADER_LEN
  const VIDEO_PTYPE: byte := 96
  const FU_A: byte := 28
  const NALU_SPS := 7

  type Packet = seq<byte>

  /** media_send_video reads the first byte of what it is given. */
  type NalUnit = s: seq<byte> | |s| > 0 witness [0]

  /** One call of media_send_video: the NAL unit and what the RTP headers of its packets carry. */
  datatype Unit = Unit(data: NalUnit, timestamp: uint32, ssrc: uint32, endOfFrame: bool)

  function NalType(data: seq<byte>): byte
    requires |data| > 0
  {
    data[0] % 32
  }

  function Nri(data: seq<byte>): byte
    requires |data| > 0
  {
    data[0] / 32 % 4
  }

  /** The NAL units that come through: whole in a packet with the types RFC 6184 has for that, in fragments
      with the forbidden bit 0, which FU-A does not carry. */
  predicate Packetizable(data: NalUnit) {
    if |data| <= SINGLE_MAX then 1 <= NalType(data) <= 23 else data[0] < 0x80
  }

  // ---------------------------------------------------------------------------
  // The sender's packets
  // ---------------------------------------------------------------------------

  /** Header written by _write_rtp_header: version 2, no padding, extension, CSRC or marker. */
  function Header(payloadType: byte, sn: uint16, timestamp: uint32, ssrc: uint32): (h: seq<byte>)
    ensures |h| == RTP_HEADER_BASE_LEN
  {
    [0x80, payloadType] + BigEndian16(sn) + BigEndian32(timestamp) + BigEndian32(ssrc)
  }

  /** `rtp_header |= 1 << 23` on the first header word: the top bit of byte 1. */
  function SetMarker(p: Packet): (q: Packet)
    requires |p| >= RTP_HEADER_BASE_LEN
    ensures |q| == |p|
  {
    p[1 := if p[1] < 0x80 then p[1] + 0x80 else p[1]]
  }

  /** The marker is set, and every other bit is kept. */
  lemma MarkerIs(p: Packet)
    requires |p| >= RTP_HEADER_BASE_LEN
    ensures SetMarker(p)[1] == 0x80 + p[1] % 0x80
    ensures forall i | 0 <= i < |p| && i != 1 :: SetMarker(p)[i] == p[i]
  {
  }

  /** Payload of one packet, the input bytes it uses up, and the saved fua_nalu_type. */
  datatype Fragment = Fragment(payload: seq<byte>, consumed: nat, fua: byte)

  /** What _media_make_video_rtp_packet puts after the RTP header. */
  function MakeFragment(input: seq<byte>, first: bool, fua: byte): (f: Fragment)
    requires |input| > 0
    ensures 0 < f.consumed <= |input|
  {
    if first && |input| <= SINGLE_MAX then
      Fragment(input, |input|, fua)
    else
      var saved := if first then input[0] else fua;
      var body := if first then input[1..] else input;
      var sbit := if first then 0x80 else 0;
      var ebit := if !first && |input| <= FRAGMENT_MAX then 0x40 else 0;
      var len := if FRAGMENT_MAX > |body| then |body| else FRAGMENT_MAX;
      Fragment([saved / 32 % 4 * 32 + FU_A, sbit + ebit + saved % 32] + body[..len],
               len + (if first then 1 else 0), saved)
  }

  // ---------------------------------------------------------------------------
  // The packets of a unit, all at once
  // ---------------------------------------------------------------------------

  /** 1 for a unit that fits one packet, else ceil((n - 1) / 1378). */
  function PacketCount(n: nat): (c: nat)
    ensures n > 0 ==> c > 0
  {
    if n <= SINGLE_MAX then 1 else (n - 1 + FRAGMENT_MAX - 1) / FRAGMENT_MAX
  }

  /** First input byte of packet i. */
  function Offset(n: nat, i: nat): nat {
    if i == 0 then 0 else if i >= PacketCount(n) then n else 1 + FRAGMENT_MAX * i
  }

  /** Payload of packet i of a unit: section 5.6 or 5.8 of RFC 6184. */
  function UnitPayload(data: seq<byte>, i: nat): (p: seq<byte>)
    requires |data| > 0 && i < PacketCount(|data|)
    ensures 0 < |p| <= MAX_MTU - RTP_HEADER_BASE_LEN
  {
    if |data| <= SINGLE_MAX then
      data
    else
      var last := i == PacketCount(|data|) - 1;
      var end := Offset(|data|, i + 1);
      FragmentIndex(|data|, i);
      [Nri(data) * 32 + FU_A,
       (if i == 0 then 0x80 else 0) + (if last then 0x40 else 0) + NalType(data)]
      + data[1 + FRAGMENT_MAX * i..end]
  }

  /** Packet i of a unit whose first packet has number `sn`. */
  function UnitPacket(u: Unit, i: nat, sn: uint16): (p: Packet)
    requires i < PacketCount(|u.data|)
    ensures RTP_HEADER_BASE_LEN < |p| <= MAX_MTU
  {
    var p := Header(VIDEO_PTYPE, (sn + i) % 0x1_0000, u.timestamp, u.ssrc) + UnitPayload(u.data, i);
    if u.endOfFrame && i == PacketCount(|u.data|) - 1 then SetMarker(p) else p
  }

  /** The first m packets of a unit. */
  function UnitPackets(u: Unit, m: nat, sn: uint16): (ps: seq<Packet>)
    requires m <= PacketCount(|u.data|)
    ensures |ps| == m
  {
    seq(m, i requires 0 <= i < m => UnitPacket(u, i, sn))
  }

  lemma CountSingle(n: nat)
    ensures n <= SINGLE_MAX ==> PacketCount(n) == 1
  {
  }

  /** A unit of up to 1380 bytes is one packet that carries it whole. */
  lemma SinglePacket(u: Unit, sn: uint16)
    requires |u.data| <= 1380
    ensures var ps := UnitPackets(u, PacketCount(|u.data|), sn);
            |ps| == 1 && ps[0][12..] == u.data
  {
    PacketFields(u, 0, sn);
  }

  /** A longer unit takes as few packets as hold its bytes behind the NAL unit header, 1378 in each. */
  lemma FewestPackets(n: nat, m: nat)
    requires n > 1380
    ensures PacketCount(n) <= m <==> n - 1 <= 1378 * m
  {
    var c := PacketCount(n);
    assert FRAGMENT_MAX * (c - 1) < n - 1 <= FRAGMENT_MAX * c;
    if m < c {
      assert FRAGMENT_MAX * m <= FRAGMENT_MAX * (c - 1);
    } else {
      assert FRAGMENT_MAX * c <= FRAGMENT_MAX * m;
    }
  }

  /** Where the fragments of a long unit lie. */
  lemma FragmentIndex(n: nat, i: nat)
    requires n > SINGLE_MAX && i < PacketCount(n)
    ensures PacketCount(n) >= 2
    ensures 1 + FRAGMENT_MAX * i < Offset(n, i + 1) <= n
    ensures Offset(n, i + 1) <= 1 + FRAGMENT_MAX * (i + 1)
    ensures i == PacketCount(n) - 1 <==> n <= 1 + FRAGMENT_MAX * (i + 1)
  {
    var c := PacketCount(n);
    assert FRAGMENT_MAX * (c - 1) < n - 1 <= FRAGMENT_MAX * c;
    if i < c - 1 {
      assert FRAGMENT_MAX * (i + 1) <= FRAGMENT_MAX * (c - 1);
    } else {
      assert i + 1 == c;
    }
  }

  /** The stepwise builder makes exactly the packets of the unit: called on the bytes left at
      packet i it emits payload i, moves on to packet i + 1, and finishes after the last one. */
  lemma FragmentsMakeUnit(data: seq<byte>, i: nat, fua: byte)
    requires |data| > 0 && i < PacketCount(|data|)
    requires i > 0 ==> fua == data[0]
    ensures Offset(|data|, i) < |data|
    ensures var f := MakeFragment(data[Offset(|data|, i)..], i == 0, fua);
            && f.payload == UnitPayload(data, i)
            && Offset(|data|, i) + f.consumed == Offset(|data|, i + 1)
            && (|data| > SINGLE_MAX ==> f.fua == data[0])
  {
    var n := |data|;
    if n > SINGLE_MAX {
      FragmentIndex(n, i);
      if i > 0 {
        FragmentIndex(n, i - 1);
        assert Offset(n, i) == 1 + FRAGMENT_MAX * i;
      }
      var input := data[Offset(n, i)..];
      var f := MakeFragment(input, i == 0, fua);
      var body := if i == 0 then input[1..] else input;
      assert body == data[1 + FRAGMENT_MAX * i..];
      assert f.payload[2..] == data[1 + FRAGMENT_MAX * i..Offset(n, i + 1)];
      assert f.payload[..2] == UnitPayload(data, i)[..2];
      assert f.payload == f.payload[..2] + f.payload[2..];
    } else {
      assert data[0..] == data;
    }
  }

  /** One turn of the packet loop, header and marker included, makes packet i of the unit. */
  lemma TurnMakesPacket(u: Unit, i: nat, fua: byte, sn: uint16)
    requires i < PacketCount(|u.data|)
    requires i > 0 && |u.data| > SINGLE_MAX ==> fua == u.data[0]
    ensures Offset(|u.data|, i) < |u.data|
    ensures var f := MakeFragment(u.data[Offset(|u.data|, i)..], i == 0, fua);
            var p := Header(VIDEO_PTYPE, (sn + i) % 0x1_0000, u.timestamp, u.ssrc) + f.payload;
            var next := Offset(|u.data|, i) + f.consumed;
            && UnitPacket(u, i, sn) == (if next >= |u.data| && u.endOfFrame then SetMarker(p) else p)
            && next == Offset(|u.data|, i + 1)
            && (|u.data| > SINGLE_MAX ==> f.fua == u.data[0])
  {
    FragmentsMakeUnit(u.data, i, fua);
    if |u.data| > SINGLE_MAX {
      FragmentIndex(|u.data|, i);
    }
  }

  /** The payloads of a long unit are FU-A; S and E are never set together, and E marks exactly the last. */
  lemma FragmentFlags(data: seq<byte>, i: nat)
    requires |data| > SINGLE_MAX && i < PacketCount(|data|)
    ensures UnitPayload(data, i)[0] % 32 == 28
    ensures var flags := UnitPayload(data, i)[1];
            && (flags >= 0x80 <==> i == 0)
            && (flags / 0x40 % 2 == 1 <==> i == PacketCount(|data|) - 1)
            && !(flags >= 0x80 && flags / 0x40 % 2 == 1)
  {
    FragmentIndex(|data|, i);
  }

  // ---------------------------------------------------------------------------
  // The receiver
  // ---------------------------------------------------------------------------

  function SequenceNumber(p: Packet): uint16
    requires |p| >= RTP_HEADER_BASE_LEN
  {
    (p[2] as int) * 0x100 + p[3]
  }

  predicate Marked(p: Packet)
    requires |p| >= RTP_HEADER_BASE_LEN
  {
    p[1] >= 0x80
  }

  /** A receiver: the number it expects, the FU-A run it is collecting, the units it has. */
  datatype Receiver = Receiver(next: Option<uint16>, partial: Option<seq<byte>>, units: seq<seq<byte>>)

  const NEW_RECEIVER := Receiver(None, None, [])

  /** One datagram. A gap in the numbers, a new unit or a bad packet discards an open FU-A run. */
  function Receive(r: Receiver, p: Packet): Receiver {
    if |p| <= RTP_HEADER_BASE_LEN then
      r.(partial := None)
    else
      var sn := SequenceNumber(p);
      var open := if r.next == Some(sn) then r.partial else None;
      var payload := p[RTP_HEADER_BASE_LEN..];
      var kind := payload[0] % 32;
      var r' := Receiver(Some(Next16(sn)), None, r.units);
      if 1 <= kind <= 23 then
        r'.(units := r.units + [payload])
      else if kind == FU_A && |payload| >= RTP_FUA_HEADER_LEN then
        ReceiveFuA(r', open, payload)
      else
        r'
  }

  /** An FU-A payload: start a run, extend the open one, or deliver it. */
  function ReceiveFuA(r: Receiver, open: Option<seq<byte>>, payload: seq<byte>): Receiver
    requires |payload| >= RTP_FUA_HEADER_LEN && payload[0] % 32 == FU_A
  {
    var start, end := payload[1] >= 0x80, payload[1] / 0x40 % 2 == 1;
    var header: byte := (payload[0] as int) - FU_A + payload[1] % 32;
    var run := if start then Some([header] + payload[2..])
               else if open.Some? then Some(open.value + payload[2..]) else None;
    if run.None? || (start && end) then r
    else if end then r.(units := r.units + [run.value])
    else r.(partial := run)
  }

  function ReceiveAll(r: Receiver, ps: seq<Packet>): Receiver {
    if ps == [] then r else Receive(ReceiveAll(r, ps[..|ps| - 1]), ps[|ps| - 1])
  }

  lemma {:induction false} ReceiveAppend(r: Receiver, ps: seq<Packet>, qs: seq<Packet>)
    ensures ReceiveAll(r, ps + qs) == ReceiveAll(ReceiveAll(r, ps), qs)
  {
    if qs == [] {
      assert ps + qs == ps;
    } else {
      var init := qs[..|qs| - 1];
      assert (ps + qs)[..|ps + qs| - 1] == ps + init;
      ReceiveAppend(r, ps, init);
    }
  }

  /** The receiver reads back the number and the marker the sender wrote. */
  lemma PacketFields(u: Unit, i: nat, sn: uint16)
    requires i < PacketCount(|u.data|)
    ensures var p := UnitPacket(u, i, sn);
            && p[0] == 0x80 && p[1] % 0x80 == VIDEO_PTYPE
            && SequenceNumber(p) == (sn + i) % 0x1_0000
            && (Marked(p) <==> u.endOfFrame && i == PacketCount(|u.data|) - 1)
            && p[RTP_HEADER_BASE_LEN..] == UnitPayload(u.data, i)
  {
    var h := Header(VIDEO_PTYPE, (sn + i) % 0x1_0000, u.timestamp, u.ssrc);
    var p := UnitPacket(u, i, sn);
    assert h[2] == (sn + i) % 0x1_0000 / 0x100 && h[3] == (sn + i) % 0x1_0000 % 0x100;
    assert p[RTP_HEADER_BASE_LEN..] == (h + UnitPayload(u.data, i))[RTP_HEADER_BASE_LEN..];
  }

  /** Network byte order, byte by byte. */
  lemma BigEndianBytes(x: uint32)
    ensures var b := BigEndian32(x); b[0] as int * 0x100_0000 + b[1] as int * 0x1_0000 + b[2] as int * 0x100 + b[3] == x
    ensures x < 0x1_0000 ==> var b := BigEndian16(x); b[0] as int * 0x100 + b[1] == x
  {
  }

  /** Section 5.1 of RFC 3550, byte by byte: version 2, the marker and the payload type, and a sequence number, a
      timestamp and an SSRC in network byte order. */
  predicate HeaderFields(p: Packet, second: int, sn: int, timestamp: int, ssrc: int) {
    && |p| >= 12 && p[0] == 0x80 && p[1] == second
    && p[2] as int * 0x100 + p[3] == sn
    && p[4] as int * 0x100_0000 + p[5] as int * 0x1_0000 + p[6] as int * 0x100 + p[7] == timestamp
    && p[8] as int * 0x100_0000 + p[9] as int * 0x1_0000 + p[10] as int * 0x100 + p[11] == ssrc
  }

  lemma HeaderIs(payloadType: byte, sn: uint16, timestamp: uint32, ssrc: uint32)
    ensures HeaderFields(Header(payloadType, sn, timestamp, ssrc), payloadType, sn, timestamp, ssrc)
  {
    hide BigEndian16, BigEndian32;
    BigEndianBytes(sn);
    BigEndianBytes(timestamp);
    BigEndianBytes(ssrc);
  }

  /** A packet's header has payload type 96, the marker on a frame's last packet, its own number, and the
      timestamp and the SSRC of its unit. */
  lemma HeaderBytes(u: Unit, i: nat, sn: uint16)
    requires i < PacketCount(|u.data|)
    ensures HeaderFields(UnitPacket(u, i, sn), if u.endOfFrame && i == PacketCount(|u.data|) - 1 then 224 else 96,
                         (sn + i) % 0x1_0000, u.timestamp, u.ssrc)
  {
    hide UnitPayload, PacketCount, Header;
    HeaderIs(VIDEO_PTYPE, (sn + i) % 0x1_0000, u.timestamp, u.ssrc);
  }

  /** A single NAL unit packet delivers its unit. */
  lemma ReceiveSingle(r: Receiver, u: Unit, sn: uint16)
    requires Packetizable(u.data) && |u.data| <= SINGLE_MAX
    ensures Receive(r, UnitPacket(u, 0, sn)) == Receiver(Some(Next16(sn)), None, r.units + [u.data])
  {
    PacketFields(u, 0, sn);
  }

  /** An FU-A fragment extends the run; the last one delivers the unit. */
  lemma ReceiveFragment(r: Receiver, u: Unit, i: nat, sn: uint16)
    requires Packetizable(u.data) && |u.data| > SINGLE_MAX && i < PacketCount(|u.data|)
    requires i > 0 ==> r.next == Some((sn + i) % 0x1_0000)
    requires i > 0 ==> r.partial == Some(u.data[..Offset(|u.data|, i)])
    ensures var next := Some((sn + i + 1) % 0x1_0000);
            Receive(r, UnitPacket(u, i, sn)) ==
            if i == PacketCount(|u.data|) - 1 then Receiver(next, None, r.units + [u.data])
            else Receiver(next, Some(u.data[..Offset(|u.data|, i + 1)]), r.units)
  {
    hide UnitPayload, UnitPacket, PacketCount, Offset, SequenceNumber, NalType;
    var data, n := u.data, |u.data|;
    PacketFields(u, i, sn);
    FragmentFlags(data, i);
    FragmentHeader(data, i);
    FragmentBytes(data, i);
    LastOffset(n, i);
    assert data[..n] == data;
  }

  /** FU indicator and FU header keep the bits of the NAL unit header. */
  lemma HeaderBits(d: byte, e: int, s: int)
    requires d < 0x80 && (e == 0 || e == 0x40) && (s == 0 || s == 0x80)
    ensures (d / 32 % 4 * 32 + FU_A) % 32 == FU_A
    ensures d / 32 % 4 * 32 + (s + e + d % 32) % 32 == d
  {
  }

  lemma InnerOffset(n: nat, i: nat)
    requires 0 < i < PacketCount(n)
    ensures Offset(n, i) == 1 + FRAGMENT_MAX * i
  {
  }

  lemma LastOffset(n: nat, i: nat)
    requires i < PacketCount(n)
    ensures i == PacketCount(n) - 1 ==> Offset(n, i + 1) == n
  {
  }

  /** The two header bytes of fragment i give back the NAL unit header. */
  lemma FragmentHeader(data: seq<byte>, i: nat)
    requires |data| > SINGLE_MAX && data[0] < 0x80 && i < PacketCount(|data|)
    ensures var p := UnitPayload(data, i);
            && |p| >= RTP_FUA_HEADER_LEN
            && p[0] % 32 == FU_A
            && (p[0] as int) - FU_A + p[1] % 32 == data[0]
  {
    hide PacketCount, Offset;
    FragmentIndex(|data|, i);
    HeaderBits(data[0], if i == PacketCount(|data|) - 1 then 0x40 else 0, if i == 0 then 0x80 else 0);
  }

  /** The bytes of fragment i continue those of the fragments before it. */
  lemma FragmentBytes(data: seq<byte>, i: nat)
    requires |data| > SINGLE_MAX && i < PacketCount(|data|)
    ensures |UnitPayload(data, i)| >= RTP_FUA_HEADER_LEN
    ensures var p := UnitPayload(data, i);
            && (i == 0 ==> [data[0]] + p[2..] == data[..Offset(|data|, 1)])
            && (i > 0 ==> data[..Offset(|data|, i)] + p[2..] == data[..Offset(|data|, i + 1)])
  {
    hide PacketCount, Offset, Nri, NalType;
    var n, p := |data|, UnitPayload(data, i);
    FragmentIndex(n, i);
    var from := 1 + FRAGMENT_MAX * i;
    assert p[2..] == data[from..Offset(n, i + 1)];
    Slices(data, from, Offset(n, i + 1));
    if i > 0 {
      InnerOffset(n, i);
    } else {
      assert data[..1] == [data[0]];
    }
  }

  lemma Slices(s: seq<byte>, a: nat, b: nat)
    requires a <= b <= |s|
    ensures s[..a] + s[a..b] == s[..b]
  {
  }

  /** Receiving the first m packets of a unit: nothing comes out before the last packet, and
      with the last packet exactly the unit comes out, whatever was collected before. */
  lemma {:induction false} ReceiveUnit(r: Receiver, u: Unit, m: nat, sn: uint16)
    requires Packetizable(u.data) && m <= PacketCount(|u.data|)
    ensures var r' := ReceiveAll(r, UnitPackets(u, m, sn));
            && (m == 0 ==> r' == r)
            && (m > 0 ==> r'.next == Some((sn + m) % 0x1_0000))
            && r'.units == (if m == PacketCount(|u.data|) then r.units + [u.data] else r.units)
            && (m == PacketCount(|u.data|) ==> r'.partial == None)
            && (0 < m < PacketCount(|u.data|) ==> r'.partial == Some(u.data[..Offset(|u.data|, m)]))
  {
    hide Receive, UnitPacket, UnitPayload, PacketCount, Offset;
    if m > 0 {
      var ps := UnitPackets(u, m, sn);
      assert ps[..m - 1] == UnitPackets(u, m - 1, sn);
      ReceiveUnit(r, u, m - 1, sn);
      if |u.data| <= SINGLE_MAX {
        CountSingle(|u.data|);
        ReceiveSingle(r, u, sn);
      } else {
        ReceiveFragment(ReceiveAll(r, ps[..m - 1]), u, m - 1, sn);
      }
    }
  }

  /** The unit without its forbidden bit. */
  function Cleared(u: Unit): Unit {
    u.(data := u.data[0 := u.data[0] % 0x80])
  }

  /** The packets of a long unit do not depend on the forbidden bit. */
  lemma ClearedPackets(u: Unit, sn: uint16)
    requires |u.data| > SINGLE_MAX
    ensures UnitPackets(u, PacketCount(|u.data|), sn) == UnitPackets(Cleared(u), PacketCount(|u.data|), sn)
  {
    hide PacketCount, Offset, Header;
    var n, c := |u.data|, Cleared(u);
    assert Nri(c.data) == Nri(u.data) && NalType(c.data) == NalType(u.data) by { ClearedBits(u.data[0]); }
    forall i | 0 <= i < PacketCount(n) ensures UnitPacket(u, i, sn) == UnitPacket(c, i, sn) {
      FragmentIndex(n, i);
      assert u.data[1 + FRAGMENT_MAX * i..Offset(n, i + 1)] == c.data[1 + FRAGMENT_MAX * i..Offset(n, i + 1)];
    }
  }

  lemma ClearedBits(b: byte)
    ensures b % 0x80 / 32 % 4 == b / 32 % 4 && b % 0x80 % 32 == b % 32
  {
    if b >= 0x80 {
      assert b % 0x80 == b - 0x80;
      assert (b - 0x80) / 32 == b / 32 - 4;
    } else {
      assert b % 0x80 == b;
    }
  }

  /** A short unit of another type is not delivered. */
  lemma OtherType(u: Unit, sn: uint16)
    requires |u.data| <= SINGLE_MAX && !Packetizable(u.data)
    ensures ReceiveAll(NEW_RECEIVER, UnitPackets(u, PacketCount(|u.data|), sn)).units == []
  {
    hide UnitPayload, UnitPacket, SequenceNumber, ReceiveFuA;
    CountSingle(|u.data|);
    SinglePacket(u, sn);
    var ps := UnitPackets(u, 1, sn);
    assert ps[..0] == [];
    assert ReceiveAll(NEW_RECEIVER, ps) == Receive(NEW_RECEIVER, ps[0]);
    NotDelivered(ps[0], u.data);
  }

  lemma NotDelivered(p: Packet, data: NalUnit)
    requires |p| > RTP_HEADER_BASE_LEN && p[RTP_HEADER_BASE_LEN..] == data && !(1 <= NalType(data) <= 23)
    ensures Receive(NEW_RECEIVER, p).units == []
  {
    hide SequenceNumber;
  }

  /** A long unit is delivered without its forbidden bit. */
  lemma LongDelivered(u: Unit, sn: uint16)
    requires |u.data| > SINGLE_MAX
    ensures ReceiveAll(NEW_RECEIVER, UnitPackets(u, PacketCount(|u.data|), sn)).units == [Cleared(u).data]
  {
    hide PacketCount, UnitPackets, ReceiveAll, Offset;
    ClearedPackets(u, sn);
    ReceiveUnit(NEW_RECEIVER, Cleared(u), PacketCount(|u.data|), sn);
  }

  /** Main result: which units come through. A receiver gets a unit of up to 1380 bytes back exactly if its type
      is 1 to 23, and a longer one exactly if its forbidden bit is 0. */
  lemma DeliveredIff(u: Unit, sn: uint16)
    ensures ReceiveAll(NEW_RECEIVER, UnitPackets(u, PacketCount(|u.data|), sn)).units == [u.data] <==>
            if |u.data| <= 1380 then 1 <= u.data[0] % 32 <= 23 else u.data[0] < 0x80
  {
    hide PacketCount, UnitPackets, ReceiveAll, Offset;
    if |u.data| > SINGLE_MAX {
      LongDelivered(u, sn);
      assert Cleared(u).data[0] == u.data[0] % 0x80;
      assert u.data[0] < 0x80 ==> Cleared(u).data == u.data;
    } else if Packetizable(u.data) {
      ReceiveUnit(NEW_RECEIVER, u, PacketCount(|u.data|), sn);
    } else {
      OtherType(u, sn);
    }
  }
}
