/** The video component as the sources keep it: slot objects with byte buffers, updated in place.
    A ghost field follows the machine of VideoPipeline, and every method is one or more steps
    of it, so what is proved of all runs of the machine holds of these methods. */
module MediaComponent {
  import opened Bytes
  import opened RtpPackets
  import Ring = RetransmitRing
  import opened VideoPipeline

  const MAX_PACKET_BUFFER := 1500

  /** nack_slot_t. */
  class NackSlot {
    const packet: array<byte>
    var len: nat
    var sn: int

    constructor ()
      ensures fresh(packet) && packet.Length == MAX_PACKET_BUFFER
      ensures len == 0 && sn == -1
    {
      packet := new byte[MAX_PACKET_BUFFER](_ => 0);
      len, sn := 0, -1;
    }

    ghost predicate Valid()
      reads this
    {
      packet.Length == MAX_PACKET_BUFFER && len <= MAX_PACKET_BUFFER
    }

    ghost function View(): Ring.Slot
      reads this, packet
      requires Valid()
    {
      Ring.Slot(sn, packet[..len])
    }
  }

  /** memcpy into a buffer. */
  method Copy(buf: array<byte>, at: nat, bytes: seq<byte>)
    requires at + |bytes| <= buf.Length
    modifies buf
    ensures buf[at..at + |bytes|] == bytes
    ensures buf[..at] == old(buf[..at]) && buf[at + |bytes|..] == old(buf[at + |bytes|..])
  {
    forall i | 0 <= i < |bytes| {
      buf[at + i] := bytes[i];
    }
  }

  /** _write_rtp_header. */
  method WriteRtpHeader(buf: array<byte>, ptype: byte, sn: uint16, timestamp: uint32, ssrc: uint32) returns (n: int)
    modifies buf
    ensures n == if RTP_HEADER_BASE_LEN > buf.Length then -1 else RTP_HEADER_BASE_LEN
    ensures n > 0 ==> buf[..n] == Header(ptype, sn, timestamp, ssrc) && buf[n..] == old(buf[n..])
    ensures n > 0 ==> HeaderFields(buf[..], ptype, sn, timestamp, ssrc)
    ensures n < 0 ==> buf[..] == old(buf[..])
  {
    if RTP_HEADER_BASE_LEN > buf.Length {
      return -1;
    }
    ghost var rest := buf[12..];
    Copy(buf, 0, [0x80, ptype] + BigEndian16(sn));
    assert buf[12..] == buf[4..][8..] == rest;
    Copy(buf, 4, BigEndian32(timestamp));
    assert buf[12..] == buf[8..][4..] == rest;
    Copy(buf, 8, BigEndian32(ssrc));
    assert buf[..12] == buf[..4] + buf[4..8] + buf[8..12];
    HeaderIs(ptype, sn, timestamp, ssrc);
    assert forall i | 0 <= i < 12 :: buf[..][i] == buf[..12][i];
    return RTP_HEADER_BASE_LEN;
  }

  /** _media_set_marker_bit. */
  method SetMarkerBit(buf: array<byte>)
    requires buf.Length >= RTP_HEADER_BASE_LEN
    modifies buf
    ensures buf[..] == SetMarker(old(buf[..]))
  {
    if buf[1] < 0x80 {
      buf[1] := buf[1] + 0x80;
    }
  }

  /** The FU indicator, the FU header and the bytes of one fragment. */
  method WriteFuA(buf: array<byte>, fua: byte, sbit: int, ebit: int, piece: seq<byte>)
    requires 0 <= sbit <= 1 && 0 <= ebit <= 1
    requires RTP_HEADER_BASE_LEN + RTP_FUA_HEADER_LEN + |piece| <= buf.Length
    modifies buf
    ensures buf[..RTP_HEADER_BASE_LEN] == old(buf[..RTP_HEADER_BASE_LEN])
    ensures buf[RTP_HEADER_BASE_LEN..RTP_HEADER_BASE_LEN + RTP_FUA_HEADER_LEN + |piece|]
            == [fua / 32 % 4 * 32 + FU_A, sbit * 0x80 + ebit * 0x40 + fua % 32] + piece
  {
    buf[12] := fua / 32 % 4 * 32 + FU_A;
    buf[13] := sbit * 0x80 + ebit * 0x40 + fua % 32;
    Copy(buf, 14, piece);
    assert buf[12..14 + |piece|] == buf[..14][12..] + buf[14..14 + |piece|];
    assert buf[..12] == buf[..14][..12];
  }

  class VideoComponent {
    const slots: seq<NackSlot>
    var seqNum: uint16
    var xmitSeqNum: uint16
    var pktReady: nat
    var fuaNaluType: byte
    var waitForIdrFrame: bool
    var hasSentFirstFrame: bool
    var audioReadyToSend: bool

    ghost var model: Pipeline

    /** The slots are distinct objects with distinct buffers. */
    ghost predicate Laid()
      reads slots
    {
      && |slots| == Ring.NACK_RB_SIZE
      && (forall i | 0 <= i < |slots| :: slots[i].Valid())
      && (forall i, j | 0 <= i < j < |slots| :: slots[i] != slots[j] && slots[i].packet != slots[j].packet)
    }

    /** The fields are those of the machine. */
    ghost predicate Valid()
      reads this, slots, set i | 0 <= i < |slots| :: slots[i].packet
    {
      && Laid()
      && Ring.Shaped(model.video.ring)
      && model.video.ring.seqNum == seqNum
      && model.video.ring.xmitSeqNum == xmitSeqNum
      && model.video.ring.pktReady == pktReady
      && (forall i | 0 <= i < |slots| :: model.video.ring.slots[i] == slots[i].View())
      && model.fua == fuaNaluType
      && model.waitForIdr == waitForIdrFrame
      && model.hasSentFirst == hasSentFirstFrame
      && model.audioReady == audioReadyToSend
    }

    /** _nack_init and the flags set by media_init. */
    constructor ()
      ensures Valid() && model == Initial()
      ensures fresh(slots) && forall i | 0 <= i < |slots| :: fresh(slots[i].packet)
    {
      var made: seq<NackSlot> := [];
      while |made| < Ring.NACK_RB_SIZE
        invariant |made| <= Ring.NACK_RB_SIZE
        invariant forall i | 0 <= i < |made| :: fresh(made[i]) && fresh(made[i].packet)
        invariant forall i | 0 <= i < |made| :: made[i].Valid() && made[i].View() == Ring.EMPTY_SLOT
        invariant forall i, j | 0 <= i < j < |made| :: made[i] != made[j] && made[i].packet != made[j].packet
        decreases Ring.NACK_RB_SIZE - |made|
      {
        var slot := new NackSlot();
        made := made + [slot];
      }
      slots := made;
      seqNum, xmitSeqNum, pktReady := 0, 0, 0;
      fuaNaluType := 0;
      waitForIdrFrame, hasSentFirstFrame, audioReadyToSend := true, false, false;
      model := Initial();
    }

    /** _media_get_empty_slot on the next sequence number: null exactly if the ring is full. */
    method GetEmptySlot(sn: uint16) returns (slot: NackSlot?)
      requires Valid() && sn == seqNum && Enabled(model, ClaimVideo)
      modifies this`model, slots
      ensures Valid()
      ensures slot == if Ring.Full(old(model).video.ring) then null else slots[sn % Ring.NACK_RB_SIZE]
      ensures model == if slot == null then old(model) else Apply(old(model), ClaimVideo)
    {
      var nextSn := Next16(sn);
      if nextSn % Ring.NACK_RB_SIZE == xmitSeqNum % Ring.NACK_RB_SIZE {
        return null;
      }
      slot := slots[sn % Ring.NACK_RB_SIZE];
      slot.sn := sn;
      model := Apply(model, ClaimVideo);
    }

    /** _media_make_video_rtp_packet: the input bytes used up, and the packet in the buffer. */
    method MakeVideoRtpPacket(input: seq<byte>, timestamp: uint32, ssrc: uint32,
                              out: array<byte>, firstPkt: bool)
      returns (consumed: nat, outLen: nat)
      requires |input| > 0 && out.Length == MAX_PACKET_BUFFER
      modifies this`seqNum, this`fuaNaluType, out
      ensures seqNum == Next16(old(seqNum))
      ensures var f := MakeFragment(input, firstPkt, old(fuaNaluType));
              && consumed == f.consumed
              && fuaNaluType == f.fua
              && outLen <= MAX_MTU
              && out[..outLen] == Header(VIDEO_PTYPE, old(seqNum), timestamp, ssrc) + f.payload
    {
      var hdr := WriteRtpHeader(out, VIDEO_PTYPE, seqNum, timestamp, ssrc);
      seqNum := Next16(seqNum);
      if firstPkt && |input| <= MAX_MTU - RTP_HEADER_BASE_LEN {
        Copy(out, hdr, input);
        consumed, outLen := |input|, |input| + hdr;
        assert out[..outLen] == out[..hdr] + out[hdr..outLen];
      } else {
        var sbit, ebit, body := 0, 0, input;
        if firstPkt {
          sbit, fuaNaluType, body := 1, input[0], input[1..];
        } else if |input| <= MAX_MTU - RTP_HEADER_BASE_LEN - RTP_FUA_HEADER_LEN {
          ebit := 1;
        }
        var fragLen := MAX_MTU - hdr - RTP_FUA_HEADER_LEN;
        if fragLen > |body| {
          fragLen := |body|;
        }
        WriteFuA(out, fuaNaluType, sbit, ebit, body[..fragLen]);
        consumed, outLen := fragLen + sbit, fragLen + RTP_HEADER_BASE_LEN + RTP_FUA_HEADER_LEN;
        assert out[..outLen] == out[..hdr] + out[hdr..outLen];
      }
    }

    /** What the section under the slot's mutex does to the slot it was given. */
    method FillSlot(slot: NackSlot, sn: uint16, u: Unit, offset: nat, firstFu: bool)
      returns (payloadSize: nat, pktLen: nat)
      requires slot.Valid() && sn == seqNum && offset < |u.data|
      modifies this`seqNum, this`fuaNaluType, slot`len, slot`sn, slot.packet
      ensures slot.Valid() && seqNum == Next16(sn) && 0 < pktLen <= MAX_PACKET_BUFFER && slot.len == pktLen
      ensures var f := MakeFragment(u.data[offset..], firstFu, old(fuaNaluType));
              var packet := Header(VIDEO_PTYPE, sn, u.timestamp, u.ssrc) + f.payload;
              && payloadSize == f.consumed && fuaNaluType == f.fua && pktLen == |packet|
              && slot.View() == Ring.Slot(sn, if offset + f.consumed >= |u.data| && u.endOfFrame
                                              then SetMarker(packet) else packet)
    {
      hide MakeFragment, Header, SetMarker;
      payloadSize, pktLen := MakeVideoRtpPacket(u.data[offset..], u.timestamp, u.ssrc, slot.packet, firstFu);
      if offset + payloadSize >= |u.data| && u.endOfFrame {
        ghost var before := slot.packet[..];
        SetMarkerBit(slot.packet);
        MarkerPrefix(before, pktLen);
        assert before[..pktLen] == Header(VIDEO_PTYPE, sn, u.timestamp, u.ssrc)
          + MakeFragment(u.data[offset..], firstFu, old(fuaNaluType)).payload;
      }
      slot.len := pktLen;
      slot.sn := sn;
    }

    /** The section under the slot's mutex, as a step of the machine. */
    method BuildVideoPacket(slot: NackSlot, sn: uint16, u: Unit, offset: nat, firstFu: bool)
      returns (payloadSize: nat, pktLen: nat)
      requires Valid() && Enabled(model, BuildVideo)
      requires model.job == Some(Job(u, model.job.value.done, offset)) && firstFu == (model.job.value.done == 0)
      requires sn == seqNum && slot == slots[sn % Ring.NACK_RB_SIZE]
      modifies this`model, this`seqNum, this`fuaNaluType, slot`len, slot`sn, slot.packet
      ensures Valid() && model == Apply(old(model), BuildVideo)
      ensures model.job == Some(Job(u, old(model).job.value.done + 1, offset + payloadSize))
      ensures 0 < payloadSize <= |u.data| - offset && 0 < pktLen <= MAX_PACKET_BUFFER
      ensures model.video.built == old(model).video.built + [slot.packet[..pktLen]]
    {
      hide MakeFragment, Header, SetMarker;
      payloadSize, pktLen := FillSlot(slot, sn, u, offset, firstFu);
      model := Apply(model, BuildVideo);
    }

    /** The semaphore post after the slot is unlocked. */
    method PostPacket()
      requires Valid() && Enabled(model, PostVideo)
      modifies this`model, this`pktReady
      ensures Valid() && model == Apply(old(model), PostVideo)
    {
      pktReady := pktReady + 1;
      model := Apply(model, PostVideo);
    }

    /** The branch of media_send_video for a full ring. */
    method GiveUp(nri: byte)
      requires Valid() && Enabled(model, ClaimVideo) && Ring.Full(model.video.ring)
      requires nri == Nri(model.job.value.u.data)
      modifies this`model, this`waitForIdrFrame
      ensures Valid() && model == Apply(old(model), ClaimVideo)
    {
      hide Inv;
      if nri != 0 {
        waitForIdrFrame := true;
      }
      model := Apply(model, ClaimVideo);
    }

    /** One turn of the packet loop of media_send_video; `full` if the unit was given up. */
    method QueuePacket(u: Unit, offset: nat, firstFu: bool)
      returns (full: bool, payloadSize: nat, pktLen: nat)
      requires Valid() && AtLoopHead(model)
      requires model.job == Some(Job(u, model.job.value.done, offset)) && firstFu == (model.job.value.done == 0)
      modifies this, slots, set i | 0 <= i < |slots| :: slots[i].packet
      ensures Valid() && model == Turn(old(model))
      ensures full == Ring.Full(old(model).video.ring) && (!full ==> pktLen > 0)
      ensures !full ==> offset + payloadSize == Offset(|u.data|, old(model).job.value.done + 1)
      ensures !full ==> |old(model).video.built| < |model.video.built|
                        && pktLen == |model.video.built[|old(model).video.built|]|
    {
      hide Inv, Apply, Offset;
      TurnSteps(model);
      if !Ring.Full(model.video.ring) {
        ClaimPostLeave(model);
      }
      var sn := seqNum;
      var slot := GetEmptySlot(sn);
      if slot == null {
        GiveUp(Nri(u.data));
        return true, 0, 0;
      }
      full := false;
      BuildLeaves(model);
      payloadSize, pktLen := BuildVideoPacket(slot, sn, u, offset, firstFu);
      PostPacket();
    }

    /** media_send_audio up to the check of has_sent_first_frame: whether a packet may be made. */
    method OfferAudio() returns (proceed: bool)
      requires Valid()
      modifies this`model, this`audioReadyToSend
      ensures Valid() && audioReadyToSend && model == Apply(old(model), Step.OfferAudio)
      ensures proceed == old(hasSentFirstFrame)
    {
      hide Inv;
      audioReadyToSend := true;
      model := Apply(model, Step.OfferAudio);
      proceed := hasSentFirstFrame;
    }

    /** media_send_video, from the audio check to the end of the packet loop. */
    method SendVideo(u: Unit) returns (bytesQueued: nat)
      requires Valid() && Inv(model) && model.job.None? && model.video.handler.Listening?
      modifies this, slots, set i | 0 <= i < |slots| :: slots[i].packet
      ensures Valid() && model == Send(old(model), u)
      ensures old(model).video.built <= model.video.built
      ensures bytesQueued == TotalLength(model.video.built[|old(model).video.built|..])
      ensures bytesQueued > 0 <==>
              old(audioReadyToSend) && (old(waitForIdrFrame) ==> u.data[0] % 32 == 7)
              && !Ring.Full(old(model).video.ring)
    {
      hide Inv, JobOk, Turn, Finish, Send, Offset;
      bytesQueued := 0;
      AdmitStarts(model, u);
      if !audioReadyToSend {
        model := Apply(model, OfferVideo(u));
        return;
      }
      if waitForIdrFrame {
        if NalType(u.data) != NALU_SPS {
          model := Apply(model, OfferVideo(u));
          return;
        }
        waitForIdrFrame := false;
        if !hasSentFirstFrame {
          hasSentFirstFrame := true;
        }
      }
      model := Apply(model, OfferVideo(u));
      bytesQueued := QueueAll(u);
    }

    /** The packet loop of media_send_video. */
    method QueueAll(u: Unit) returns (bytesQueued: nat)
      requires Valid() && AtLoopHead(model) && model.job == Some(Job(u, 0, 0))
      modifies this, slots, set i | 0 <= i < |slots| :: slots[i].packet
      ensures Valid() && model == Finish(old(model))
      ensures old(model).video.built <= model.video.built
      ensures bytesQueued == TotalLength(model.video.built[|old(model).video.built|..])
      ensures bytesQueued > 0 <==> !Ring.Full(old(model).video.ring)
    {
      hide Inv, JobOk, Turn, Finish, Send, Offset, Apply, TotalLength, Valid, Ring.Full;
      bytesQueued := 0;
      TotalNone(model.video.built);
      var remaining, offset, firstFu := |u.data|, 0, true;
      while remaining > 0
        invariant Valid() && 0 <= remaining == |u.data| - offset
        invariant remaining > 0 ==> AtLoopHead(model) && Finish(model) == Finish(old(model))
        invariant remaining > 0 ==>
                    model.job == Some(Job(u, model.job.value.done, offset)) && firstFu == (model.job.value.done == 0)
        invariant remaining == 0 ==> model == Finish(old(model))
        invariant old(model).video.built <= model.video.built
        invariant bytesQueued == TotalLength(model.video.built[|old(model).video.built|..])
        invariant if firstFu then bytesQueued == 0 && model == old(model)
                  else bytesQueued > 0 && !Ring.Full(old(model).video.ring)
        decreases remaining
      {
        FinishTurn(model);
        TurnLeaves(model);
        ghost var before := model.video.built;
        var full, payloadSize, pktLen := QueuePacket(u, offset, firstFu);
        if full {
          return;
        }
        TotalSnoc(before[|old(model).video.built|..], model.video.built[|before|]);
        assert model.video.built[|old(model).video.built|..]
            == before[|old(model).video.built|..] + [model.video.built[|before|]];
        firstFu := false;
        remaining, offset := remaining - payloadSize, offset + payloadSize;
        bytesQueued := bytesQueued + pktLen;
      }
    }

    /** The section of _media_send_packet under nack_slots_lock; any step of another party may follow. */
    method PickSlot() returns (slot: NackSlot)
      requires Valid() && Enabled(model, VideoRing(Ring.PickStep))
      modifies this`model, this`xmitSeqNum
      ensures Valid() && model == Apply(old(model), VideoRing(Ring.PickStep))
      ensures slot == slots[model.video.sender.slot]
    {
      slot := slots[xmitSeqNum % Ring.NACK_RB_SIZE];
      xmitSeqNum := Next16(xmitSeqNum);
      model := Apply(model, VideoRing(Ring.PickStep));
    }

    /** The section of _media_send_packet under the slot's mutex. */
    method SendSlot(slot: NackSlot) returns (packet: seq<byte>)
      requires Valid() && Inv(model) && Enabled(model, VideoRing(Ring.SendStep))
      requires slot == slots[model.video.sender.slot]
      modifies this`model
      ensures Valid() && model == Apply(old(model), VideoRing(Ring.SendStep))
      ensures model.video.wire == old(model).video.wire + [packet]
      ensures packet == old(model).video.built[|old(model).video.wire|]
    {
      hide Ring.SlotHolds, Ring.ServedOk, JobOk, Packets, Gated, WellFormed, Waiting;
      Ring.PickedIntact(model.video);
      packet := slot.packet[..slot.len];
      model := Apply(model, VideoRing(Ring.SendStep));
    }

    /** _media_send_packet after its pend: the oldest packet not yet sent, as it was built. */
    method SendPacket() returns (packet: seq<byte>)
      requires Valid() && Inv(model) && model.video.sender.Pended? && model.video.handler.Listening?
      modifies this`model, this`xmitSeqNum
      ensures Valid() && Enabled(old(model), VideoRing(Ring.PickStep))
      ensures var picked := Apply(old(model), VideoRing(Ring.PickStep));
              && Enabled(picked, VideoRing(Ring.SendStep))
              && model == Apply(picked, VideoRing(Ring.SendStep))
      ensures packet == old(model).video.built[|old(model).video.wire|]
    {
      hide Ring.SlotHolds, Ring.ServedOk, JobOk, Packets, Gated, WellFormed, Waiting;
      StepKeepsInv(model, VideoRing(Ring.PickStep));
      var slot := PickSlot();
      packet := SendSlot(slot);
    }

    /** The test of _nack_resend_packet: the slot of the number, if it has that number. */
    method MatchSlot(sn: uint16) returns (slot: NackSlot?)
      requires Valid() && Inv(model) && Enabled(model, VideoRing(Ring.NackStep(sn)))
      modifies this`model
      ensures Valid() && model == Apply(old(model), VideoRing(Ring.NackStep(sn)))
      ensures slot == if Ring.Serves(old(model).video.ring, sn) then slots[sn % Ring.NACK_RB_SIZE] else null
    {
      hide Ring.SlotHolds, JobOk, Packets, Gated, WellFormed, Waiting;
      slot := slots[sn % Ring.NACK_RB_SIZE];
      if slot.sn != sn {
        slot := null;
      }
      model := Apply(model, VideoRing(Ring.NackStep(sn)));
    }

    /** The rest of it, with the slot's mutex still held: other parties may have moved in between. */
    method ResendSlot(slot: NackSlot) returns (packet: seq<byte>)
      requires Valid() && Inv(model) && Enabled(model, VideoRing(Ring.ResendStep))
      requires slot == slots[model.video.handler.sn % Ring.NACK_RB_SIZE]
      modifies this`model
      ensures Valid() && model == Apply(old(model), VideoRing(Ring.ResendStep))
      ensures Ring.ServedOk(model.video.built, old(model).video.handler.sn, old(model).video.handler.at, packet)
    {
      hide Ring.SlotHolds, JobOk, Packets, Gated, WellFormed, Waiting;
      packet := slot.packet[..slot.len];
      model := Apply(model, VideoRing(Ring.ResendStep));
    }

    /** _nack_resend_packet: the packet sent again, or nothing if the slot has another number. */
    method NackResendPacket(sn: uint16) returns (resent: Option<seq<byte>>)
      requires Valid() && Inv(model) && model.video.handler.Listening?
      modifies this`model
      ensures Valid()
      ensures resent.Some? <==> Ring.Serves(old(model).video.ring, sn)
      ensures resent.Some? ==> Ring.ServedOk(model.video.built, sn, |model.video.built|, resent.value)
      ensures resent.None? ==> model == old(model)
      ensures resent.Some? ==>
                && Enabled(old(model), VideoRing(Ring.NackStep(sn)))
                && Enabled(Apply(old(model), VideoRing(Ring.NackStep(sn))), VideoRing(Ring.ResendStep))
                && model == Apply(Apply(old(model), VideoRing(Ring.NackStep(sn))), VideoRing(Ring.ResendStep))
    {
      hide Ring.SlotHolds, JobOk, Packets, Gated, WellFormed, Waiting, Ring.ServedOk;
      StepKeepsInv(model, VideoRing(Ring.NackStep(sn)));
      var slot := MatchSlot(sn);
      if slot == null {
        return None;
      }
      var packet := ResendSlot(slot);
      resent := Some(packet);
    }
  }

  function TotalLength(ps: seq<Packet>): nat {
    if ps == [] then 0 else TotalLength(ps[..|ps| - 1]) + |ps[|ps| - 1]|
  }

  lemma TotalNone(ps: seq<Packet>)
    ensures TotalLength(ps[|ps|..]) == 0
  {
  }

  lemma TotalSnoc(ps: seq<Packet>, p: Packet)
    ensures TotalLength(ps + [p]) == TotalLength(ps) + |p|
  {
    assert (ps + [p])[..|ps|] == ps;
  }

  /** Marking a buffer marks the packet at its head. */
  lemma MarkerPrefix(buf: seq<byte>, n: nat)
    requires RTP_HEADER_BASE_LEN <= n <= |buf|
    ensures SetMarker(buf)[..n] == SetMarker(buf[..n])
  {
  }
}
