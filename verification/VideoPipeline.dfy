/** media_send_video in front of the ring: which NAL units are admitted, how they become packets,
    what happens when the ring is full, and what a receiver gets in the end. */
module VideoPipeline {
  import opened Bytes
  import opened RtpPackets
  import Ring = RetransmitRing

  // ---------------------------------------------------------------------------
  // The machine
  // ---------------------------------------------------------------------------

  /** A unit being queued: packets built so far, and the input bytes they used up. */
  datatype Job = Job(u: Unit, done: nat, offset: nat)

  /** What became of an offered unit: not admitted, cut by a full ring after `queued` packets, or
      completely queued. */
  datatype Outcome = Dropped | Cut(queued: nat) | Complete

  datatype Offer = Offer(u: Unit, outcome: Outcome)

  /** `video` and `audio` are the two rings with their senders and handlers. */
  datatype Pipeline = Pipeline(
    video: Ring.System, audio: Ring.System,
    waitForIdr: bool, hasSentFirst: bool, audioReady: bool, fua: byte,
    job: Option<Job>, log: seq<Offer>)

  /** After media_init. */
  function Initial(): Pipeline {
    Pipeline(Ring.INITIAL, Ring.INITIAL, true, false, false, 0, None, [])
  }

  datatype Step =
    | OfferVideo(u: Unit)
    | ClaimVideo
    | BuildVideo
    | PostVideo
    | VideoRing(step: Ring.Step)
    | OfferAudio
    | AudioRing(audioStep: Ring.Step)

  predicate Enabled(p: Pipeline, step: Step) {
    match step
    case OfferVideo(u) => p.job.None?
    case ClaimVideo => p.job.Some? && p.video.producer.Idle? && Ring.Shaped(p.video.ring)
    case BuildVideo =>
      p.job.Some? && p.job.value.offset < |p.job.value.u.data| && Ring.Enabled(p.video, Ring.BuildStep([]))
    case PostVideo => p.job.Some? && Ring.Enabled(p.video, Ring.PostStep)
    case VideoRing(step) => Consumes(step) && Ring.Enabled(p.video, step)
    case OfferAudio => true
    case AudioRing(step) =>
      Ring.Enabled(p.audio, step) && (step.ClaimStep? ==> p.audioReady && p.hasSentFirst)
  }

  /** The steps of the sender thread and of the retransmission handler. */
  predicate Consumes(step: Ring.Step) {
    !step.ClaimStep? && !step.BuildStep? && !step.PostStep?
  }

  function Apply(p: Pipeline, step: Step): Pipeline
    requires Enabled(p, step)
  {
    match step
    case OfferVideo(u) => Admit(p, u)
    case ClaimVideo =>
      if Ring.Full(p.video.ring) then Abandon(p) else p.(video := Ring.Apply(p.video, Ring.ClaimStep))
    case BuildVideo => BuildPacket(p)
    case PostVideo =>
      var q := p.(video := Ring.Apply(p.video, Ring.PostStep));
      if p.job.value.offset < |p.job.value.u.data| then q
      else q.(job := None, log := p.log + [Offer(p.job.value.u, Complete)])
    case VideoRing(step) => p.(video := Ring.Apply(p.video, step))
    case OfferAudio => p.(audioReady := true)
    case AudioRing(step) => p.(audio := Ring.Apply(p.audio, step))
  }

  /** The gate before the packet loop. */
  function Admit(p: Pipeline, u: Unit): Pipeline {
    if !p.audioReady || (p.waitForIdr && NalType(u.data) != NALU_SPS) then
      p.(log := p.log + [Offer(u, Dropped)])
    else
      p.(waitForIdr := false, hasSentFirst := p.hasSentFirst || p.waitForIdr, job := Some(Job(u, 0, 0)))
  }

  /** The ring is full: the rest of the unit is given up, and after a reference unit so is
      everything up to the next SPS. */
  function Abandon(p: Pipeline): Pipeline
    requires p.job.Some?
  {
    var u := p.job.value.u;
    p.(waitForIdr := p.waitForIdr || Nri(u.data) != 0,
       job := None,
       log := p.log + [Offer(u, Cut(p.job.value.done))])
  }

  /** One turn of the packet loop, from the claimed slot to its unlock. */
  function BuildPacket(p: Pipeline): Pipeline
    requires Enabled(p, BuildVideo)
  {
    var Job(u, done, offset) := p.job.value;
    var f := MakeFragment(u.data[offset..], done == 0, p.fua);
    var packet := Header(VIDEO_PTYPE, p.video.ring.seqNum, u.timestamp, u.ssrc) + f.payload;
    var marked := if offset + f.consumed >= |u.data| && u.endOfFrame then SetMarker(packet) else packet;
    p.(video := Ring.Apply(p.video, Ring.BuildStep(marked)), fua := f.fua,
       job := Some(Job(u, done + 1, offset + f.consumed)))
  }

  /** The pipeline after an interleaving of all parties; None if some step is not enabled. */
  function Run(steps: seq<Step>): Option<Pipeline> {
    if steps == [] then Some(Initial())
    else
      var p := Run(steps[..|steps| - 1]);
      var step := steps[|steps| - 1];
      if p.Some? && Enabled(p.value, step) then Some(Apply(p.value, step)) else None
  }

  // ---------------------------------------------------------------------------
  // What a log of offers means
  // ---------------------------------------------------------------------------

  function Queued(o: Offer): nat {
    match o.outcome
    case Dropped => 0
    case Cut(queued) => queued
    case Complete => PacketCount(|o.u.data|)
  }

  ghost predicate WellFormed(log: seq<Offer>) {
    forall i | 0 <= i < |log| && log[i].outcome.Cut? ::
      log[i].outcome.queued < PacketCount(|log[i].u.data|)
  }

  /** The packets of a log, numbered through from 0. */
  ghost function Packets(log: seq<Offer>): seq<Packet>
    requires WellFormed(log)
  {
    if log == [] then []
    else
      var before, o := Packets(log[..|log| - 1]), log[|log| - 1];
      before + UnitPackets(o.u, Queued(o), |before| % 0x1_0000)
  }

  /** The units that were completely queued, in order. */
  function Completed(log: seq<Offer>): seq<seq<byte>> {
    if log == [] then []
    else
      Completed(log[..|log| - 1])
      + if log[|log| - 1].outcome.Complete? then [log[|log| - 1].u.data] else []
  }

  /** The units that were admitted, in order. */
  function Accepted(log: seq<Offer>): seq<seq<byte>> {
    if log == [] then []
    else
      Accepted(log[..|log| - 1])
      + if log[|log| - 1].outcome.Dropped? then [] else [log[|log| - 1].u.data]
  }

  predicate Sps(o: Offer) {
    NalType(o.u.data) == NALU_SPS
  }

  predicate Reference(o: Offer) {
    Nri(o.u.data) != 0
  }

  /** wait_for_idr_frame after a log. */
  predicate Waiting(log: seq<Offer>) {
    log == [] ||
    match log[|log| - 1].outcome
    case Dropped => Waiting(log[..|log| - 1])
    case Cut(_) => Reference(log[|log| - 1])
    case Complete => false
  }

  /** While the flag is set only an SPS is admitted; units are dropped only while it is set. */
  ghost predicate Gated(log: seq<Offer>) {
    forall i | 0 <= i < |log| ::
      if log[i].outcome.Dropped? then Waiting(log[..i]) else Waiting(log[..i]) ==> Sps(log[i])
  }

  ghost predicate SpsAccepted(log: seq<Offer>) {
    exists i | 0 <= i < |log| :: Sps(log[i]) && !log[i].outcome.Dropped?
  }

  // ---------------------------------------------------------------------------
  // The invariant
  // ---------------------------------------------------------------------------

  ghost predicate Inv(p: Pipeline) {
    && Ring.Inv(p.video) && Ring.Inv(p.audio)
    && WellFormed(p.log) && Gated(p.log)
    && (p.job.None? ==>
          && p.video.producer.Idle?
          && p.waitForIdr == Waiting(p.log)
          && p.video.built == Packets(p.log)
          && (p.hasSentFirst <==> SpsAccepted(p.log)))
    && (p.job.Some? ==>
          && !p.waitForIdr && p.hasSentFirst
          && (Waiting(p.log) ==> NalType(p.job.value.u.data) == NALU_SPS)
          && JobOk(p)
          && (SpsAccepted(p.log) || NalType(p.job.value.u.data) == NALU_SPS))
    && (!p.audioReady ==> !p.hasSentFirst)
    && (!p.hasSentFirst ==> p.waitForIdr)
    && (p.audio.built != [] || p.audio.producer.Claimed? ==> p.hasSentFirst)
  }

  ghost predicate JobOk(p: Pipeline)
    requires p.job.Some? && WellFormed(p.log)
  {
    var Job(u, done, offset) := p.job.value;
    && done <= PacketCount(|u.data|) && offset == Offset(|u.data|, done)
    && (done > 0 && |u.data| > SINGLE_MAX ==> p.fua == u.data[0])
    && (p.video.producer.Built? ==> done > 0)
    && (!p.video.producer.Built? ==> done < PacketCount(|u.data|))
    && p.video.built == Packets(p.log) + UnitPackets(u, done, |Packets(p.log)| % 0x1_0000)
  }

  lemma StepKeepsInv(p: Pipeline, step: Step)
    requires Inv(p) && Enabled(p, step)
    ensures Inv(Apply(p, step))
  {
    hide Ring.Inv, Gated, WellFormed, Waiting, Packets, UnitPackets, SpsAccepted, PacketCount, Offset;
    match step
    case OfferVideo(u) => AdmitKeepsInv(p, u);
    case ClaimVideo => ClaimKeepsInv(p);
    case BuildVideo => BuildKeepsInv(p);
    case PostVideo => PostKeepsInv(p);
    case VideoRing(step) => Ring.StepKeepsInv(p.video, step);
    case OfferAudio =>
    case AudioRing(step) => Ring.StepKeepsInv(p.audio, step);
  }

  lemma RingFacts(s: Ring.System)
    requires Ring.Inv(s)
    ensures Ring.Shaped(s.ring) && s.ring.seqNum == |s.built| % 0x1_0000
    ensures |s.wire| <= |s.built| && s.wire == s.built[..|s.wire|]
  {
  }

  lemma LogGrows(log: seq<Offer>, o: Offer)
    requires WellFormed(log) && Gated(log)
    requires o.outcome.Cut? ==> o.outcome.queued < PacketCount(|o.u.data|)
    requires if o.outcome.Dropped? then Waiting(log) else Waiting(log) ==> Sps(o)
    ensures WellFormed(log + [o]) && Gated(log + [o])
    ensures Packets(log + [o]) == Packets(log) + UnitPackets(o.u, Queued(o), |Packets(log)| % 0x1_0000)
    ensures Waiting(log + [o]) ==
            match o.outcome case Dropped => Waiting(log) case Cut(_) => Reference(o) case Complete => false
    ensures SpsAccepted(log + [o]) <==> SpsAccepted(log) || (Sps(o) && !o.outcome.Dropped?)
  {
    var grown := log + [o];
    assert grown[..|log|] == log;
    forall i | 0 <= i < |log| ensures grown[..i] == log[..i] {}
    if SpsAccepted(log) {
      var i :| 0 <= i < |log| && Sps(log[i]) && !log[i].outcome.Dropped?;
      assert Sps(grown[i]) && !grown[i].outcome.Dropped?;
    }
    if Sps(o) && !o.outcome.Dropped? {
      assert Sps(grown[|log|]) && !grown[|log|].outcome.Dropped?;
    }
  }

  lemma AdmitKeepsInv(p: Pipeline, u: Unit)
    requires Inv(p) && Enabled(p, OfferVideo(u))
    ensures Inv(Apply(p, OfferVideo(u)))
  {
    hide Ring.Inv;
    var q := Admit(p, u);
    if q.job.None? {
      LogGrows(p.log, Offer(u, Dropped));
    }
  }

  lemma ClaimKeepsInv(p: Pipeline)
    requires Inv(p) && Enabled(p, ClaimVideo)
    ensures Inv(Apply(p, ClaimVideo))
  {
    hide Ring.Inv;
    if Ring.Full(p.video.ring) {
      LogGrows(p.log, Offer(p.job.value.u, Cut(p.job.value.done)));
    } else {
      Ring.StepKeepsInv(p.video, Ring.ClaimStep);
    }
  }

  lemma ModAdd(a: nat, d: nat)
    ensures (a + d) % 0x1_0000 == (a % 0x1_0000 + d) % 0x1_0000
  {
  }

  /** One turn of the packet loop puts the next packet of the unit into the ring. */
  lemma BuildsUnitPacket(p: Pipeline, first: uint16)
    requires Enabled(p, BuildVideo)
    requires p.job.value.done < PacketCount(|p.job.value.u.data|)
    requires p.job.value.offset == Offset(|p.job.value.u.data|, p.job.value.done)
    requires p.job.value.done > 0 && |p.job.value.u.data| > SINGLE_MAX ==> p.fua == p.job.value.u.data[0]
    requires p.video.ring.seqNum == (first + p.job.value.done) % 0x1_0000
    ensures var Job(u, done, offset) := p.job.value;
            var q := BuildPacket(p);
            && (|u.data| > SINGLE_MAX ==> q.fua == u.data[0])
            && q.job == Some(Job(u, done + 1, Offset(|u.data|, done + 1)))
            && q.video == Ring.Apply(p.video, Ring.BuildStep(UnitPacket(u, done, first)))
  {
    hide MakeFragment, UnitPacket, Header, SetMarker, Offset, PacketCount;
    var Job(u, done, offset) := p.job.value;
    TurnMakesPacket(u, done, p.fua, first);
  }

  /** The packet loop emits the packets of the unit, one after the other. */
  lemma BuildKeepsInv(p: Pipeline)
    requires Inv(p) && Enabled(p, BuildVideo)
    ensures Inv(Apply(p, BuildVideo))
  {
    hide Ring.Inv;
    RingFacts(p.video);
    var first := |Packets(p.log)| % 0x1_0000;
    ModAdd(|Packets(p.log)|, p.job.value.done);
    BuildsUnitPacket(p, first);
    var q := BuildPacket(p);
    BuiltKeepsInv(p, UnitPacket(p.job.value.u, p.job.value.done, first), q.fua, q);
  }

  lemma BuiltKeepsInv(p: Pipeline, packet: Packet, fua: byte, q: Pipeline)
    requires Inv(p) && p.job.Some? && Ring.Enabled(p.video, Ring.BuildStep(packet))
    requires var Job(u, done, offset) := p.job.value;
             && done < PacketCount(|u.data|)
             && packet == UnitPacket(u, done, |Packets(p.log)| % 0x1_0000)
             && (|u.data| > SINGLE_MAX ==> fua == u.data[0])
             && q == p.(video := Ring.Apply(p.video, Ring.BuildStep(packet)), fua := fua,
                        job := Some(Job(u, done + 1, Offset(|u.data|, done + 1))))
    ensures Inv(q)
  {
    hide Ring.Inv, UnitPacket, Offset, PacketCount;
    var Job(u, done, offset) := p.job.value;
    var first := |Packets(p.log)| % 0x1_0000;
    Ring.StepKeepsInv(p.video, Ring.BuildStep(packet));
    assert UnitPackets(u, done + 1, first) == UnitPackets(u, done, first) + [packet];
  }

  lemma PostKeepsInv(p: Pipeline)
    requires Inv(p) && Enabled(p, PostVideo)
    ensures Inv(Apply(p, PostVideo))
  {
    hide Ring.Inv;
    var Job(u, done, offset) := p.job.value;
    Ring.StepKeepsInv(p.video, Ring.PostStep);
    if done < PacketCount(|u.data|) {
      FragmentsMakeUnit(u.data, done, u.data[0]);
    } else {
      LogGrows(p.log, Offer(u, Complete));
    }
  }

  /** The invariant holds in every interleaving. */
  lemma {:induction false} RunKeepsInv(steps: seq<Step>)
    ensures Run(steps).Some? ==> Inv(Run(steps).value)
  {
    if steps == [] {
      Ring.RunKeepsInv([]);
    } else {
      var p := Run(steps[..|steps| - 1]);
      RunKeepsInv(steps[..|steps| - 1]);
      if p.Some? && Enabled(p.value, steps[|steps| - 1]) {
        StepKeepsInv(p.value, steps[|steps| - 1]);
      }
    }
  }

  // ---------------------------------------------------------------------------
  // What the receiver gets
  // ---------------------------------------------------------------------------

  /** All units that were admitted come through. */
  ghost predicate LogPacketizable(log: seq<Offer>) {
    forall i | 0 <= i < |log| && !log[i].outcome.Dropped? :: Packetizable(log[i].u.data)
  }

  ghost predicate AllPacketizable(p: Pipeline) {
    && LogPacketizable(p.log)
    && (p.job.Some? ==> Packetizable(p.job.value.u.data))
  }

  /** The packets of a log give back exactly the completely queued units. */
  lemma {:induction false} ReceiveLog(log: seq<Offer>)
    requires WellFormed(log) && LogPacketizable(log)
    ensures ReceiveAll(NEW_RECEIVER, Packets(log)).units == Completed(log)
  {
    if log != [] {
      var init, o := log[..|log| - 1], log[|log| - 1];
      ReceiveLog(init);
      var before := Packets(init);
      var sn := |before| % 0x1_0000;
      ReceiveAppend(NEW_RECEIVER, before, UnitPackets(o.u, Queued(o), sn));
      if o.outcome.Dropped? {
        assert UnitPackets(o.u, Queued(o), sn) == [];
      } else {
        ReceiveUnit(ReceiveAll(NEW_RECEIVER, before), o.u, Queued(o), sn);
      }
    }
  }

  /** Units come out of a receiver in order and are never taken back. */
  lemma {:induction false} ReceiveMonotone(r: Receiver, ps: seq<Packet>, k: nat)
    requires k <= |ps|
    ensures ReceiveAll(r, ps[..k]).units <= ReceiveAll(r, ps).units
  {
    if k < |ps| {
      var init := ps[..|ps| - 1];
      assert init[..k] == ps[..k];
      ReceiveMonotone(r, init, k);
    } else {
      assert ps[..k] == ps;
    }
  }

  /** What is complete so far, counting the unit at hand once its last packet is built. */
  function Delivered(p: Pipeline): seq<seq<byte>> {
    Completed(p.log)
    + if p.job.Some? && p.job.value.done == PacketCount(|p.job.value.u.data|) then [p.job.value.u.data] else []
  }

  /** Main result, round trip: in every interleaving, what a receiver makes of the datagrams on the
      wire is a prefix of the completely queued units, in order and byte for byte; once the sender
      has caught up it is all of them. */
  lemma RoundTrip(steps: seq<Step>)
    requires Run(steps).Some? && AllPacketizable(Run(steps).value)
    ensures var p := Run(steps).value;
            && ReceiveAll(NEW_RECEIVER, p.video.wire).units <= Delivered(p)
            && (|p.video.wire| == |p.video.built| ==>
                  ReceiveAll(NEW_RECEIVER, p.video.wire).units == Delivered(p))
  {
    hide Ring.Inv, Gated, Waiting, SpsAccepted, PacketCount, UnitPacket, Receive, Offset;
    var p := Run(steps).value;
    RunKeepsInv(steps);
    RingFacts(p.video);
    ReceiveLog(p.log);
    if p.job.Some? {
      var before, job := Packets(p.log), p.job.value;
      var sn := |before| % 0x1_0000;
      ReceiveAppend(NEW_RECEIVER, before, UnitPackets(job.u, job.done, sn));
      ReceiveUnit(ReceiveAll(NEW_RECEIVER, before), job.u, job.done, sn);
    }
    assert ReceiveAll(NEW_RECEIVER, p.video.built).units == Delivered(p);
    ReceiveMonotone(NEW_RECEIVER, p.video.built, |p.video.wire|);
    assert p.video.built[..|p.video.built|] == p.video.built;
  }

  /** A log without a cut unit completes what it admits. */
  lemma {:induction false} NothingCut(log: seq<Offer>)
    requires forall i | 0 <= i < |log| :: !log[i].outcome.Cut?
    ensures Completed(log) == Accepted(log)
  {
    if log != [] {
      NothingCut(log[..|log| - 1]);
    }
  }

  /** No claim of the run finds the ring full. */
  predicate NeverFull(steps: seq<Step>) {
    steps == [] ||
    (var init := steps[..|steps| - 1];
     && NeverFull(init)
     && (steps[|steps| - 1].ClaimVideo? ==> Run(init).Some? && !Ring.Full(Run(init).value.video.ring)))
  }

  lemma {:induction false} NeverFullCutsNothing(steps: seq<Step>)
    requires Run(steps).Some? && NeverFull(steps)
    ensures forall i | 0 <= i < |Run(steps).value.log| :: !Run(steps).value.log[i].outcome.Cut?
  {
    hide Ring.Full, Ring.Enabled, Ring.Apply, MakeFragment, Header, SetMarker;
    if steps != [] {
      NeverFullCutsNothing(steps[..|steps| - 1]);
    }
  }

  /** Main result, nothing lost: if the ring never fills, then once the sender has caught up a receiver
      has exactly the admitted units, in order and byte for byte. */
  lemma NothingLost(steps: seq<Step>)
    requires Run(steps).Some? && AllPacketizable(Run(steps).value) && NeverFull(steps)
    requires Run(steps).value.job.None? && |Run(steps).value.video.wire| == |Run(steps).value.video.built|
    ensures ReceiveAll(NEW_RECEIVER, Run(steps).value.video.wire).units == Accepted(Run(steps).value.log)
  {
    hide Run, NeverFull, AllPacketizable, ReceiveAll;
    RoundTrip(steps);
    NeverFullCutsNothing(steps);
    NothingCut(Run(steps).value.log);
  }

  /** Both rings of the pipeline are safe in every interleaving. */
  lemma RingsAreSafe(steps: seq<Step>)
    requires Run(steps).Some?
    ensures var p := Run(steps).value;
            && Ring.Shaped(p.video.ring) && Ring.Safe(p.video)
            && Ring.Shaped(p.audio.ring) && Ring.Safe(p.audio)
  {
    hide Ring.Inv, Ring.Safe;
    RunKeepsInv(steps);
    var p := Run(steps).value;
    Ring.InvSafe(p.video);
    Ring.InvSafe(p.audio);
    RingFacts(p.video);
    RingFacts(p.audio);
  }

  /** The packets of a log are numbered through, and none is longer than the MTU. */
  lemma {:induction false} PacketNumbers(log: seq<Offer>, k: nat)
    requires WellFormed(log) && k < |Packets(log)|
    ensures var p := Packets(log)[k];
            12 < |p| <= 1392 && SequenceNumber(p) == k % 0x1_0000
  {
    hide UnitPayload, UnitPacket, PacketCount, SequenceNumber;
    var init, o := log[..|log| - 1], log[|log| - 1];
    var before := Packets(init);
    if k < |before| {
      PacketNumbers(init, k);
    } else {
      PacketFields(o.u, k - |before|, |before| % 0x1_0000);
      ModAdd(|before|, k - |before|);
    }
  }

  function MarkedCount(ps: seq<Packet>): nat
    requires forall i | 0 <= i < |ps| :: |ps[i]| >= RTP_HEADER_BASE_LEN
  {
    if ps == [] then 0 else MarkedCount(ps[..|ps| - 1]) + if Marked(ps[|ps| - 1]) then 1 else 0
  }

  lemma {:induction false} MarkedAppend(ps: seq<Packet>, qs: seq<Packet>)
    requires forall i | 0 <= i < |ps| :: |ps[i]| >= RTP_HEADER_BASE_LEN
    requires forall i | 0 <= i < |qs| :: |qs[i]| >= RTP_HEADER_BASE_LEN
    ensures MarkedCount(ps + qs) == MarkedCount(ps) + MarkedCount(qs)
  {
    if qs == [] {
      assert ps + qs == ps;
    } else {
      assert (ps + qs)[..|ps + qs| - 1] == ps + qs[..|qs| - 1];
      MarkedAppend(ps, qs[..|qs| - 1]);
    }
  }

  /** Of the packets of a unit only the last is marked, if the unit ends a frame. */
  lemma {:induction false} MarkedUnit(u: Unit, m: nat, sn: uint16)
    requires m <= PacketCount(|u.data|)
    ensures MarkedCount(UnitPackets(u, m, sn)) == if u.endOfFrame && m == PacketCount(|u.data|) then 1 else 0
  {
    if m > 0 {
      var ps := UnitPackets(u, m, sn);
      assert ps[..m - 1] == UnitPackets(u, m - 1, sn);
      MarkedUnit(u, m - 1, sn);
      PacketFields(u, m - 1, sn);
    }
  }

  /** The frames that were queued to their end. */
  function FrameEnds(log: seq<Offer>): nat {
    if log == [] then 0
    else FrameEnds(log[..|log| - 1]) + if log[|log| - 1].outcome.Complete? && log[|log| - 1].u.endOfFrame then 1 else 0
  }

  /** Every frame queued to its end has one marked packet, and no other packet is marked. */
  lemma {:induction false} MarkersEndFrames(log: seq<Offer>)
    requires WellFormed(log)
    ensures forall k | 0 <= k < |Packets(log)| :: |Packets(log)[k]| >= RTP_HEADER_BASE_LEN
    ensures MarkedCount(Packets(log)) == FrameEnds(log)
  {
    forall k | 0 <= k < |Packets(log)| ensures |Packets(log)[k]| >= RTP_HEADER_BASE_LEN {
      PacketNumbers(log, k);
    }
    if log != [] {
      var init, o := log[..|log| - 1], log[|log| - 1];
      MarkersEndFrames(init);
      var sn := |Packets(init)| % 0x1_0000;
      MarkedAppend(Packets(init), UnitPackets(o.u, Queued(o), sn));
      MarkedUnit(o.u, Queued(o), sn);
    }
  }

  lemma {:induction false} PacketsGrow(log: seq<Offer>, j: nat)
    requires WellFormed(log) && j <= |log|
    ensures WellFormed(log[..j]) && |Packets(log[..j])| <= |Packets(log)|
  {
    if j < |log| {
      assert log[..|log| - 1][..j] == log[..j];
      PacketsGrow(log[..|log| - 1], j);
    } else {
      assert log[..j] == log;
    }
  }

  /** Packet k is the last of unit j, which was queued completely and ends a frame. */
  ghost predicate EndsFrame(log: seq<Offer>, j: nat, k: nat)
    requires WellFormed(log)
  {
    && j < |log| && log[j].outcome.Complete? && log[j].u.endOfFrame
    && (PacketsGrow(log, j + 1); k + 1 == |Packets(log[..j + 1])|)
  }

  ghost predicate EndsSomeFrame(log: seq<Offer>, k: nat)
    requires WellFormed(log)
  {
    exists j :: EndsFrame(log, j, k)
  }

  /** The marker is on exactly the last packet of each completely queued unit that ends a frame. */
  lemma {:induction false} MarkedIff(log: seq<Offer>, k: nat)
    requires WellFormed(log) && k < |Packets(log)|
    ensures |Packets(log)[k]| >= RTP_HEADER_BASE_LEN
    ensures Marked(Packets(log)[k]) <==> EndsSomeFrame(log, k)
  {
    PacketNumbers(log, k);
    var init, o := log[..|log| - 1], log[|log| - 1];
    if k < |Packets(init)| {
      MarkedIff(init, k);
      EndsEarlier(log, k);
    } else {
      MarkedInLast(log, k);
    }
  }

  lemma EndsEarlier(log: seq<Offer>, k: nat)
    requires log != [] && WellFormed(log) && k < |Packets(log[..|log| - 1])|
    ensures EndsSomeFrame(log, k) <==> EndsSomeFrame(log[..|log| - 1], k)
  {
    hide Packets, UnitPackets, PacketCount;
    var init := log[..|log| - 1];
    forall j: nat ensures EndsFrame(log, j, k) <==> EndsFrame(init, j, k) {
      if j < |init| {
        assert log[..j + 1] == init[..j + 1];
      } else if j == |init| {
        assert log[..j + 1] == log;
        LastUnit(log);
      }
    }
  }

  /** A completely queued unit adds packets. */
  lemma LastUnit(log: seq<Offer>)
    requires log != [] && WellFormed(log)
    ensures |Packets(log)| == |Packets(log[..|log| - 1])| + Queued(log[|log| - 1])
    ensures log[|log| - 1].outcome.Complete? ==> Queued(log[|log| - 1]) > 0
  {
  }

  lemma MarkedInLast(log: seq<Offer>, k: nat)
    requires log != [] && WellFormed(log) && |Packets(log[..|log| - 1])| <= k < |Packets(log)|
    ensures |Packets(log)[k]| >= RTP_HEADER_BASE_LEN
    ensures Marked(Packets(log)[k]) <==> EndsSomeFrame(log, k)
  {
    hide UnitPacket, PacketCount, UnitPayload, Marked;
    var last := |log| - 1;
    var init, o := log[..last], log[last];
    var i := k - |Packets(init)|;
    LastUnit(log);
    PacketFields(o.u, i, |Packets(init)| % 0x1_0000);
    assert log[..last + 1] == log;
    assert EndsFrame(log, last, k) <==> o.outcome.Complete? && o.u.endOfFrame && i + 1 == Queued(o);
    forall j: nat | EndsFrame(log, j, k) ensures j == last {
      if j < last {
        assert log[..j + 1] == init[..j + 1];
        PacketsGrow(init, j + 1);
      }
    }
  }

  // ---------------------------------------------------------------------------
  // Loss recovery
  // ---------------------------------------------------------------------------

  /** While waiting, and as long as no unit is completely queued, the flag stays set. */
  lemma {:induction false} StaysWaiting(log: seq<Offer>, i: nat, j: nat)
    requires Gated(log) && i <= j <= |log| && Waiting(log[..i])
    requires forall k | i <= k < j :: !log[k].outcome.Complete?
    requires forall k | i <= k < j && Sps(log[k]) :: Reference(log[k])
    ensures Waiting(log[..j])
  {
    if i < j {
      StaysWaiting(log, i, j - 1);
      assert log[..j][..j - 1] == log[..j - 1];
    }
  }

  /** Main result, loss recovery: after a reference unit was cut, the first unit that is queued
      completely is an SPS, and no packet at all is queued before an SPS is offered (SPS units
      are reference units). With j at the end of the log this is about the unit in progress. */
  lemma LossRecovery(steps: seq<Step>, i: nat, j: nat)
    requires Run(steps).Some?
    requires var log := Run(steps).value.log;
             && i < j <= |log| && log[i].outcome.Cut? && Reference(log[i])
             && (forall k | i < k < j :: !log[k].outcome.Complete?)
             && (forall k | i < k < j && Sps(log[k]) :: Reference(log[k]))
    ensures var Pipeline(_, _, _, _, _, _, job, log) := Run(steps).value;
            if j < |log| then
              && (log[j].outcome.Complete? ==> Sps(log[j]))
              && (Queued(log[j]) > 0 ==> Sps(log[j]))
            else job.Some? ==> NalType(job.value.u.data) == NALU_SPS
  {
    hide Ring.Inv, Run, JobOk, Packets, WellFormed, SpsAccepted;
    var log := Run(steps).value.log;
    RunKeepsInv(steps);
    assert log[..i + 1][..i] == log[..i] && log[..|log|] == log;
    StaysWaiting(log, i + 1, j);
  }

  /** Main result, start of stream: the first unit with a packet in the ring is an SPS, and no
      audio packet is built before an SPS is admitted. */
  lemma StartsWithSps(steps: seq<Step>, j: nat)
    requires Run(steps).Some?
    requires var log := Run(steps).value.log;
             j <= |log| && (j < |log| ==> !log[j].outcome.Dropped?) && forall k | 0 <= k < j :: log[k].outcome.Dropped?
    ensures var Pipeline(_, _, _, _, _, _, job, log) := Run(steps).value;
            if j < |log| then Sps(log[j]) else job.Some? ==> NalType(job.value.u.data) == NALU_SPS
  {
    hide Ring.Inv, Run, JobOk;
    var log := Run(steps).value.log;
    RunKeepsInv(steps);
    assert log[..|log|] == log;
    DroppedWait(log, j);
  }

  lemma {:induction false} DroppedWait(log: seq<Offer>, j: nat)
    requires j <= |log| && forall k | 0 <= k < j :: log[k].outcome.Dropped?
    ensures Waiting(log[..j])
  {
    if j > 0 {
      DroppedWait(log, j - 1);
      assert log[..j][..j - 1] == log[..j - 1];
    }
  }

  lemma AudioAfterSps(steps: seq<Step>)
    requires Run(steps).Some? && Run(steps).value.audio.built != []
    ensures var p := Run(steps).value;
            SpsAccepted(p.log) || (p.job.Some? && NalType(p.job.value.u.data) == NALU_SPS)
  {
    RunKeepsInv(steps);
  }

  // ---------------------------------------------------------------------------
  // The gates, exactly
  // ---------------------------------------------------------------------------

  /** The stream is ready for video exactly if audio has been offered. */
  lemma {:induction false} AudioReadyIff(steps: seq<Step>)
    requires Run(steps).Some?
    ensures Run(steps).value.audioReady <==> OfferAudio in steps
  {
    hide Ring.Enabled, Ring.Apply, Ring.Full, MakeFragment, Header, SetMarker;
    if steps != [] {
      var init, step := steps[..|steps| - 1], steps[|steps| - 1];
      AudioReadyIff(init);
      assert steps == init + [step];
    }
  }

  /** The last admitted unit of a log, if any, is number i. */
  predicate LastAdmitted(log: seq<Offer>, i: nat) {
    i < |log| && !log[i].outcome.Dropped? && forall j | i < j < |log| :: log[j].outcome.Dropped?
  }

  /** The stream waits exactly until its first admitted unit, and again if the last admitted unit is a
      reference unit (nal_ref_idc is not zero) that a full ring cut. */
  lemma {:induction false} WaitingIff(log: seq<Offer>)
    ensures Waiting(log) <==>
            forall i: nat | LastAdmitted(log, i) :: log[i].outcome.Cut? && log[i].u.data[0] % 0x80 >= 0x20
  {
    if log != [] {
      var last := |log| - 1;
      var init := log[..last];
      if log[last].outcome.Dropped? {
        WaitingIff(init);
        assert forall i: nat | i < last :: init[i] == log[i];
        assert forall i: nat :: LastAdmitted(log, i) <==> LastAdmitted(init, i);
      } else {
        assert LastAdmitted(log, last);
        assert forall i: nat | LastAdmitted(log, i) :: i == last;
      }
    }
  }

  /**
   * Main result, the gate: between two calls, an offered unit starts to be queued exactly if audio has been
   * offered and, while the stream waits, it is an SPS; any other unit is dropped.
   */
  lemma AdmitsIff(steps: seq<Step>, u: Unit)
    requires Run(steps).Some? && Run(steps).value.job.None?
    ensures var p := Run(steps).value;
            var admitted := OfferAudio in steps && (Waiting(p.log) ==> u.data[0] % 32 == 7);
            && Run(steps + [OfferVideo(u)]).Some?
            && var q := Run(steps + [OfferVideo(u)]).value;
               q.job == (if admitted then Some(Job(u, 0, 0)) else None)
               && q.log == (if admitted then p.log else p.log + [Offer(u, Dropped)])
  {
    hide Ring.Inv, Waiting, Gated, WellFormed, SpsAccepted;
    RunKeepsInv(steps);
    AudioReadyIff(steps);
    RunSnoc(steps, OfferVideo(u));
  }

  /** An audio packet can get a slot exactly if audio has been offered and an SPS was admitted, in
      every state in which the producer of the audio ring is free. */
  lemma AudioAdmittedIff(steps: seq<Step>)
    requires Run(steps).Some? && Ring.Enabled(Run(steps).value.audio, Ring.ClaimStep)
    ensures var p := Run(steps).value;
            Enabled(p, AudioRing(Ring.ClaimStep)) <==>
            OfferAudio in steps && (SpsAccepted(p.log) || (p.job.Some? && p.job.value.u.data[0] % 32 == 7))
  {
    hide Ring.Inv, Ring.Enabled, Gated, WellFormed;
    RunKeepsInv(steps);
    AudioReadyIff(steps);
  }

  // ---------------------------------------------------------------------------
  // One call without interference
  // ---------------------------------------------------------------------------

  /** A unit at the head of the packet loop, and no retransmission under way. */
  ghost predicate AtLoopHead(p: Pipeline) {
    Inv(p) && p.job.Some? && p.video.producer.Idle? && p.video.handler.Listening?
  }

  /** One turn of the loop: claim, build and post, or give the unit up. */
  ghost function Turn(p: Pipeline): Pipeline
    requires AtLoopHead(p)
  {
    TurnSteps(p);
    if Ring.Full(p.video.ring) then Apply(p, ClaimVideo)
    else Apply(Apply(Apply(p, ClaimVideo), BuildVideo), PostVideo)
  }

  lemma TurnSteps(p: Pipeline)
    requires AtLoopHead(p)
    ensures Enabled(p, ClaimVideo)
    ensures Inv(Apply(p, ClaimVideo))
    ensures !Ring.Full(p.video.ring) ==>
              var a := Apply(p, ClaimVideo);
              && Enabled(a, BuildVideo) && Inv(Apply(a, BuildVideo))
              && Enabled(Apply(a, BuildVideo), PostVideo) && Inv(Apply(Apply(a, BuildVideo), PostVideo))
  {
    hide Inv, BuildPacket, JobOk, Admit;
    ClaimEnabled(p);
    ClaimKeepsInv(p);
    if !Ring.Full(p.video.ring) {
      var a := Apply(p, ClaimVideo);
      BuildEnabled(a);
      BuildKeepsInv(a);
      PostEnabled(a);
      PostKeepsInv(Apply(a, BuildVideo));
    }
  }

  lemma ClaimEnabled(p: Pipeline)
    requires Inv(p) && p.job.Some? && p.video.producer.Idle?
    ensures Enabled(p, ClaimVideo)
  {
    hide Ring.Inv, JobOk, Gated, WellFormed, Waiting, SpsAccepted;
    RingFacts(p.video);
  }

  lemma BuildEnabled(p: Pipeline)
    requires Inv(p) && p.job.Some? && p.video.producer.Claimed? && p.video.handler.Listening?
    ensures Enabled(p, BuildVideo)
  {
    hide Ring.Inv, Gated, WellFormed, Waiting, SpsAccepted, MakeFragment, Packets, UnitPackets;
    RingFacts(p.video);
    TurnMakesPacket(p.job.value.u, p.job.value.done, p.fua, 0);
  }

  lemma PostEnabled(p: Pipeline)
    requires Enabled(p, BuildVideo)
    ensures Enabled(BuildPacket(p), PostVideo)
  {
  }

  /** A turn ends the unit, or uses up some of it. */
  lemma TurnProgress(p: Pipeline)
    requires AtLoopHead(p)
    ensures var q := Turn(p);
            && Inv(q) && q.video.handler.Listening?
            && (q.job.Some? ==>
                  AtLoopHead(q) && q.job.value.u == p.job.value.u
                  && q.job.value.done == p.job.value.done + 1)
  {
    hide Ring.Inv, JobOk, MakeFragment, Header, SetMarker, Packets, Gated, WellFormed, Waiting, SpsAccepted;
    TurnSteps(p);
  }

  /** Claiming a slot and posting a packet leave the unit and the packets alone. */
  lemma ClaimPostLeave(p: Pipeline)
    requires AtLoopHead(p) && !Ring.Full(p.video.ring) && Enabled(p, ClaimVideo)
    requires Enabled(Apply(p, ClaimVideo), BuildVideo)
    requires Enabled(Apply(Apply(p, ClaimVideo), BuildVideo), PostVideo)
    ensures var a := Apply(p, ClaimVideo);
            && a.job == p.job && a.video.built == p.video.built
            && a.video.ring.seqNum == p.video.ring.seqNum
            && Apply(Apply(a, BuildVideo), PostVideo).video.built == Apply(a, BuildVideo).video.built
  {
    hide Inv, BuildPacket;
  }

  /** Building a packet moves the unit on by one packet. */
  lemma BuildLeaves(p: Pipeline)
    requires Inv(p) && Enabled(p, BuildVideo)
    ensures var q, Job(u, done, offset) := Apply(p, BuildVideo), p.job.value;
            && q.job == Some(Job(u, done + 1, Offset(|u.data|, done + 1)))
            && offset < Offset(|u.data|, done + 1) <= |u.data|
            && |q.video.built| == |p.video.built| + 1 && p.video.built <= q.video.built
  {
    hide Ring.Inv, Header, SetMarker, UnitPacket, MakeFragment;
    TurnMakesPacket(p.job.value.u, p.job.value.done, p.fua, 0);
  }

  /** What a turn leaves for the next one. */
  lemma TurnLeaves(p: Pipeline)
    requires AtLoopHead(p)
    ensures var q, u, next := Turn(p), p.job.value.u, Offset(|p.job.value.u.data|, p.job.value.done + 1);
            if Ring.Full(p.video.ring) then q.job.None? && q.video.built == p.video.built
            else
              && |q.video.built| == |p.video.built| + 1 && p.video.built <= q.video.built
              && p.job.value.offset < next <= |u.data|
              && q.job == if next < |u.data| then Some(Job(u, p.job.value.done + 1, next)) else None
  {
    hide Ring.Inv, Offset, JobOk, BuildPacket, Gated, WellFormed, Waiting, Admit, Ring.Full;
    TurnSteps(p);
    if !Ring.Full(p.video.ring) {
      BuildLeaves(Apply(p, ClaimVideo));
    }
  }

  /** The packet loop run to its end. */
  ghost function Finish(p: Pipeline): (q: Pipeline)
    requires AtLoopHead(p)
    ensures Inv(q) && q.job.None? && q.video.handler.Listening?
    decreases PacketCount(|p.job.value.u.data|) - p.job.value.done
  {
    TurnProgress(p);
    var q := Turn(p);
    if q.job.None? then q else Finish(q)
  }

  lemma FinishTurn(p: Pipeline)
    requires AtLoopHead(p)
    ensures var q := Turn(p);
            if q.job.None? then Finish(p) == q else AtLoopHead(q) && Finish(p) == Finish(q)
  {
    TurnProgress(p);
  }

  /** A whole call of media_send_video while no one else moves. */
  ghost function Send(p: Pipeline, u: Unit): (q: Pipeline)
    requires Inv(p) && p.job.None? && p.video.handler.Listening?
    ensures Inv(q) && q.job.None? && q.video.handler.Listening?
  {
    AdmitKeepsInv(p, u);
    var q := Apply(p, OfferVideo(u));
    if q.job.None? then q else Finish(q)
  }

  /** An admitted unit is at the head of the loop; any other call is over. */
  lemma AdmitStarts(p: Pipeline, u: Unit)
    requires Inv(p) && p.job.None? && p.video.handler.Listening?
    ensures var q := Apply(p, OfferVideo(u));
            if q.job.Some? then AtLoopHead(q) && q.job.value == Job(u, 0, 0) && Send(p, u) == Finish(q)
            else Send(p, u) == q
  {
    AdmitKeepsInv(p, u);
  }

  lemma RunSnoc(steps: seq<Step>, step: Step)
    requires Run(steps).Some? && Enabled(Run(steps).value, step)
    ensures Run(steps + [step]) == Some(Apply(Run(steps).value, step))
  {
    assert (steps + [step])[..|steps|] == steps;
  }

  lemma TurnIsRun(steps: seq<Step>) returns (all: seq<Step>)
    requires Run(steps).Some? && AtLoopHead(Run(steps).value)
    ensures steps <= all && Run(all) == Some(Turn(Run(steps).value))
  {
    hide Inv, Apply, BuildPacket;
    var p := Run(steps).value;
    TurnSteps(p);
    RunSnoc(steps, ClaimVideo);
    all := steps + [ClaimVideo];
    if !Ring.Full(p.video.ring) {
      RunSnoc(all, BuildVideo);
      all := all + [BuildVideo];
      RunSnoc(all, PostVideo);
      all := all + [PostVideo];
    }
  }

  lemma {:induction false} FinishIsRun(steps: seq<Step>) returns (all: seq<Step>)
    requires Run(steps).Some? && AtLoopHead(Run(steps).value)
    ensures steps <= all && Run(all) == Some(Finish(Run(steps).value))
    decreases PacketCount(|Run(steps).value.job.value.u.data|) - Run(steps).value.job.value.done
  {
    var p := Run(steps).value;
    TurnProgress(p);
    all := TurnIsRun(steps);
    if Turn(p).job.Some? {
      all := FinishIsRun(all);
    }
  }

  /** A call without interference is one of the interleavings. */
  lemma SendIsRun(steps: seq<Step>, u: Unit) returns (all: seq<Step>)
    requires Run(steps).Some?
    requires var p := Run(steps).value; Inv(p) && p.job.None? && p.video.handler.Listening?
    ensures steps <= all && Run(all) == Some(Send(Run(steps).value, u))
  {
    var p := Run(steps).value;
    AdmitKeepsInv(p, u);
    RunSnoc(steps, OfferVideo(u));
    all := steps + [OfferVideo(u)];
    if Run(all).value.job.Some? {
      all := FinishIsRun(all);
    }
  }

  // ---------------------------------------------------------------------------
  // Delivery
  // ---------------------------------------------------------------------------

  /** Audio can be offered at any time, and nothing but the flag changes. */
  lemma OfferAudioAlways(steps: seq<Step>)
    requires Run(steps).Some?
    ensures Run(steps + [OfferAudio]) == Some(Run(steps).value.(audioReady := true))
  {
    RunSnoc(steps, OfferAudio);
  }

  /** The sender and the handler alone can empty the ring, and leave everything else alone. */
  lemma {:induction false} Drain(steps: seq<Step>) returns (all: seq<Step>)
    requires Run(steps).Some?
    ensures steps <= all && Run(all).Some?
    ensures var p, q := Run(steps).value, Run(all).value;
            && q == p.(video := q.video) && q.video.producer == p.video.producer && q.video.built == p.video.built
            && !Ring.Busy(q.video) && (q.video.producer.Built? || q.video.wire == q.video.built)
    decreases Ring.Work(Run(steps).value.video)
  {
    hide Inv, Ring.Inv, Ring.Apply, Ring.Enabled, Ring.Busy, Ring.Work, Run;
    RunKeepsInv(steps);
    var p := Run(steps).value;
    all := steps;
    RingInv(p);
    if Ring.Busy(p.video) {
      var move := Ring.NextMove(p.video);
      Ring.MoveProgress(p.video);
      RunSnoc(steps, VideoRing(move));
      all := Drain(steps + [VideoRing(move)]);
    } else {
      Ring.IdleIsDone(p.video);
    }
  }

  lemma RingInv(p: Pipeline)
    requires Inv(p)
    ensures Ring.Inv(p.video)
  {
  }

  /** An empty ring is not full. */
  lemma EmptyNotFull(p: Pipeline)
    requires Inv(p) && p.video.wire == p.video.built
    ensures !Ring.Full(p.video.ring)
  {
    hide Ring.Full, Ring.SlotHolds, Ring.ServedOk, JobOk, Packets, Gated, WellFormed, Waiting, SpsAccepted;
    Ring.FullIff(p.video);
  }

  /** A turn that finds room moves the unit on, or completes it. */
  lemma TurnCompletes(p: Pipeline)
    requires AtLoopHead(p) && !Ring.Full(p.video.ring)
    ensures var q := Turn(p);
            if q.job.None? then q.log == p.log + [Offer(p.job.value.u, Complete)] else q.log == p.log
  {
    hide Inv, BuildPacket, Admit;
    TurnSteps(p);
    assert Apply(p, ClaimVideo).job == p.job && Apply(p, ClaimVideo).log == p.log;
    BuildLog(Apply(p, ClaimVideo));
  }

  lemma BuildLog(p: Pipeline)
    requires Enabled(p, BuildVideo)
    ensures var q := BuildPacket(p); q.log == p.log && q.job.Some? && q.job.value.u == p.job.value.u
  {
    hide MakeFragment, Header, SetMarker;
  }

  lemma BuildHandler(p: Pipeline)
    requires Enabled(p, BuildVideo)
    ensures BuildPacket(p).video.producer.Built? && BuildPacket(p).video.handler == p.video.handler
  {
    hide MakeFragment, Header, SetMarker;
  }

  /** The unit in progress comes back to the head of the loop, or is complete. */
  lemma ToLoopHead(steps: seq<Step>) returns (all: seq<Step>)
    requires Run(steps).Some? && Run(steps).value.job.Some? && !Ring.Busy(Run(steps).value.video)
    ensures steps <= all && Run(all).Some?
    ensures var p, q := Run(steps).value, Run(all).value;
            if q.job.None? then q.log == p.log + [Offer(p.job.value.u, Complete)]
            else AtLoopHead(q) && q.log == p.log && q.job.value.u == p.job.value.u
  {
    hide Inv, BuildPacket, Ring.Inv, Ring.Claim, Ring.Build, Ring.Full, Admit, Run;
    RunKeepsInv(steps);
    var p := Run(steps).value;
    RingInv(p);
    RingFacts(p.video);
    all := steps;
    if p.video.producer.Claimed? {
      BuildEnabled(p);
      RunSnoc(all, BuildVideo);
      BuildLog(p);
      PostEnabled(p);
      all := all + [BuildVideo];
      p := BuildPacket(p);
      BuildHandler(Run(steps).value);
    }
    if p.video.producer.Built? {
      RunSnoc(all, PostVideo);
      all := all + [PostVideo];
    }
    RunKeepsInv(all);
  }

  /** A sender that keeps up lets the unit at the head of the loop come to its end. */
  lemma {:induction false} CanComplete(steps: seq<Step>) returns (all: seq<Step>)
    requires Run(steps).Some? && AtLoopHead(Run(steps).value)
    ensures steps <= all && Run(all).Some? && Run(all).value.job.None?
    ensures Run(all).value.log == Run(steps).value.log + [Offer(Run(steps).value.job.value.u, Complete)]
    decreases PacketCount(|Run(steps).value.job.value.u.data|) - Run(steps).value.job.value.done
  {
    hide Inv, JobOk, Ring.Inv, Ring.Full, Turn, PacketCount, Run;
    all := Drain(steps);
    RunKeepsInv(all);
    var p := Run(all).value;
    NotBusy(p);
    EmptyNotFull(p);
    TurnCompletes(p);
    TurnProgress(p);
    all := TurnIsRun(all);
    if Turn(p).job.Some? {
      LoopBound(Turn(p));
      all := CanComplete(all);
    }
  }

  lemma NotBusy(p: Pipeline)
    requires !Ring.Busy(p.video)
    ensures p.video.handler.Listening? && p.video.sender.Waiting?
  {
  }

  lemma LoopBound(p: Pipeline)
    requires AtLoopHead(p)
    ensures p.job.value.done < PacketCount(|p.job.value.u.data|)
  {
    hide Ring.Inv, Gated, Waiting, SpsAccepted, Packets, UnitPackets, Offset, PacketCount;
  }

  /** What has been completed once the unit in progress is. */
  function Completing(p: Pipeline): seq<seq<byte>> {
    Completed(p.log) + if p.job.Some? then [p.job.value.u.data] else []
  }

  /** The unit in progress, if any, can be completed. */
  lemma CanEndJob(steps: seq<Step>) returns (all: seq<Step>)
    requires Run(steps).Some?
    ensures steps <= all && Run(all).Some?
    ensures var p, q := Run(steps).value, Run(all).value;
            q.job.None? && q.log == p.log + if p.job.Some? then [Offer(p.job.value.u, Complete)] else []
  {
    hide Inv, AtLoopHead, Run, Ring.Busy;
    all := Drain(steps);
    if Run(all).value.job.Some? {
      all := ToLoopHead(all);
      if Run(all).value.job.Some? {
        all := CanComplete(all);
      }
    }
  }

  /**
   * Main result, delivery: from every reachable state the parties have steps that complete the unit in progress
   * and empty the ring, and then a receiver has exactly the units completed before and that one.
   */
  lemma CanDeliver(steps: seq<Step>) returns (all: seq<Step>)
    requires Run(steps).Some? && AllPacketizable(Run(steps).value)
    ensures steps <= all && Run(all).Some?
    ensures var p, q := Run(steps).value, Run(all).value;
            && q.job.None? && q.video.wire == q.video.built
            && ReceiveAll(NEW_RECEIVER, q.video.wire).units == Completing(p)
  {
    hide Inv, Run, ReceiveAll, Ring.Busy, Packetizable, Ring.Inv;
    var p := Run(steps).value;
    all := CanEndJob(steps);
    RunKeepsInv(all);
    IdleProducer(Run(all).value);
    all := Drain(all);
    RoundTrip(all);
    assert Delivered(Run(all).value) == Completed(Run(all).value.log);
    if p.job.None? {
      assert Run(all).value.log == p.log;
      assert Completing(p) == Completed(p.log);
    } else {
      assert (p.log + [Offer(p.job.value.u, Complete)])[..|p.log|] == p.log;
      assert Completed(Run(all).value.log) == Completed(p.log) + [p.job.value.u.data];
    }
  }

  lemma IdleProducer(p: Pipeline)
    requires Inv(p) && p.job.None?
    ensures p.video.producer.Idle?
  {
  }
}
