/** The 2048-slot packet ring shared by a producer, the sender thread and the handler of
    retransmission requests, as a machine whose steps are the lock-protected sections. */
module RetransmitRing {
  import opened Bytes

  const NACK_RB_SIZE := 2048

  type Packet = seq<byte>

  /** A nack_slot_t: `sn` is an int that starts at -1. */
  datatype Slot = Slot(sn: int, packet: Packet)

  /** The fields of a media component that the three parties share. */
  datatype Ring = Ring(seqNum: uint16, xmitSeqNum: uint16, slots: seq<Slot>, pktReady: nat)

  predicate Shaped(r: Ring) {
    |r.slots| == NACK_RB_SIZE
  }

  const EMPTY_SLOT := Slot(-1, [])

  /** After _nack_init and the creation of the semaphore. */
  function NewRing(): Ring { Ring(0, 0, seq(NACK_RB_SIZE, _ => EMPTY_SLOT), 0) }

  /** The number of the k-th packet. */
  function Wrap(k: int): uint16 {
    k % 0x1_0000
  }

  /** The slot of the k-th packet. */
  function Place(k: int): (i: nat)
    ensures i < NACK_RB_SIZE
  {
    k % NACK_RB_SIZE
  }

  /** The slot of a number. */
  function Index(sn: uint16): (i: nat)
    ensures i < NACK_RB_SIZE
  {
    Place(sn)
  }

  // ---------------------------------------------------------------------------
  // The sections
  // ---------------------------------------------------------------------------

  /** The test of _media_get_empty_slot: claiming one more would leave no spare slot. */
  predicate Full(r: Ring) {
    Index(Next16(r.seqNum)) == Index(r.xmitSeqNum)
  }

  /** _media_get_empty_slot when it succeeds: the slot is stamped before it is filled. */
  function Claim(r: Ring): Ring
    requires Shaped(r)
  {
    var i := Index(r.seqNum);
    r.(slots := r.slots[i := r.slots[i].(sn := r.seqNum)])
  }

  /** The section under the slot's mutex that fills the claimed slot. */
  function Build(r: Ring, packet: Packet): Ring
    requires Shaped(r)
  {
    r.(slots := r.slots[Index(r.seqNum) := Slot(r.seqNum, packet)], seqNum := Next16(r.seqNum))
  }

  function Post(r: Ring): Ring {
    r.(pktReady := r.pktReady + 1)
  }

  function Pend(r: Ring): Ring
    requires r.pktReady > 0
  {
    r.(pktReady := r.pktReady - 1)
  }

  /** The section of _media_send_packet that takes the next slot in order. */
  function Pick(r: Ring): Ring {
    r.(xmitSeqNum := Next16(r.xmitSeqNum))
  }

  /** The test of _nack_resend_packet. */
  predicate Serves(r: Ring, sn: uint16)
    requires Shaped(r)
  {
    r.slots[Index(sn)].sn == sn
  }

  /** packets_queued of _media_get_queue_fullness. */
  function PacketsQueued(r: Ring): int {
    if r.seqNum >= r.xmitSeqNum then (r.seqNum as int) - r.xmitSeqNum
    else 65535 - (r.xmitSeqNum as int) + r.seqNum + 1
  }

  // ---------------------------------------------------------------------------
  // The machine
  // ---------------------------------------------------------------------------

  /** Idle, holding a claimed slot, or between unlocking the filled slot and the post. */
  datatype Producer = Idle | Claimed | Built

  /** Before the pend, between pend and pick, or holding a picked slot not yet sent. */
  datatype Sender = Waiting | Pended | Picked(slot: nat)

  /** Listening, or holding a slot's mutex after the number matched. `at` is the number of
      packets built when the match was made. */
  datatype Handler = Listening | Matched(sn: uint16, at: nat)

  /** A retransmission that went out. */
  datatype Resent = Resent(sn: uint16, packet: Packet, at: nat)

  /** The ring, where each party is, and the history: packets in the order they were built,
      packets the sender put on the wire, and retransmissions. */
  datatype System = System(ring: Ring, producer: Producer, sender: Sender, handler: Handler,
                           built: seq<Packet>, wire: seq<Packet>, resent: seq<Resent>)

  const INITIAL := System(NewRing(), Idle, Waiting, Listening, [], [], [])

  datatype Step =
    | ClaimStep
    | BuildStep(packet: Packet)
    | PostStep
    | PendStep
    | PickStep
    | SendStep
    | NackStep(sn: uint16)
    | ResendStep

  /** No one waits for a slot mutex that the handler holds. */
  predicate SlotFree(s: System, slot: nat) {
    s.handler.Listening? || Index(s.handler.sn) != slot
  }

  predicate Enabled(s: System, step: Step) {
    Shaped(s.ring) &&
    match step
    case ClaimStep => s.producer.Idle? && !Full(s.ring)
    case BuildStep(_) => s.producer.Claimed? && SlotFree(s, Index(s.ring.seqNum))
    case PostStep => s.producer.Built?
    case PendStep => s.sender.Waiting? && s.ring.pktReady > 0
    case PickStep => s.sender.Pended?
    case SendStep => s.sender.Picked? && s.sender.slot < NACK_RB_SIZE && SlotFree(s, s.sender.slot)
    case NackStep(_) => s.handler.Listening?
    case ResendStep => s.handler.Matched?
  }

  function Apply(s: System, step: Step): System
    requires Enabled(s, step)
  {
    match step
    case ClaimStep => s.(ring := Claim(s.ring), producer := Claimed)
    case BuildStep(packet) =>
      s.(ring := Build(s.ring, packet), producer := Built, built := s.built + [packet])
    case PostStep => s.(ring := Post(s.ring), producer := Idle)
    case PendStep => s.(ring := Pend(s.ring), sender := Pended)
    case PickStep => s.(ring := Pick(s.ring), sender := Picked(Index(s.ring.xmitSeqNum)))
    case SendStep => s.(sender := Waiting, wire := s.wire + [s.ring.slots[s.sender.slot].packet])
    case NackStep(sn) => if Serves(s.ring, sn) then s.(handler := Matched(sn, |s.built|)) else s
    case ResendStep =>
      s.(handler := Listening,
         resent := s.resent + [Resent(s.handler.sn, s.ring.slots[Index(s.handler.sn)].packet, s.handler.at)])
  }

  /** The system after an interleaving from a fresh ring; None if some step is not enabled. */
  function Run(steps: seq<Step>): Option<System> {
    if steps == [] then Some(INITIAL)
    else
      var p := Run(steps[..|steps| - 1]);
      var step := steps[|steps| - 1];
      if p.Some? && Enabled(p.value, step) then Some(Apply(p.value, step)) else None
  }

  // ---------------------------------------------------------------------------
  // The invariant
  // ---------------------------------------------------------------------------

  /** How many packets the sender has picked. */
  function Picks(s: System): nat {
    |s.wire| + if s.sender.Picked? then 1 else 0
  }

  function Depth(s: System): int {
    |s.built| - Picks(s)
  }

  /** The last of b packets whose place is slot i; negative if there is none. */
  function Occupant(b: nat, i: nat): int {
    b - 1 - (b - 1 - i) % NACK_RB_SIZE
  }

  /** What slot i holds. A claimed slot has its new number and still the old packet. */
  ghost predicate SlotHolds(s: System, i: nat)
    requires i < NACK_RB_SIZE && Shaped(s.ring)
  {
    var k, slot := Occupant(|s.built|, i), s.ring.slots[i];
    && slot.packet == (if 0 <= k < |s.built| then s.built[k] else [])
    && slot.sn == (if s.producer.Claimed? && i == Place(|s.built|) then Wrap(|s.built|)
                   else if 0 <= k then Wrap(k) else -1)
  }

  ghost predicate Inv(s: System) {
    && Shaped(s.ring)
    && s.ring.seqNum == Wrap(|s.built|)
    && s.ring.xmitSeqNum == Wrap(Picks(s))
    && 0 <= Depth(s) <= NACK_RB_SIZE - 1
    && (s.producer.Claimed? ==> Depth(s) <= NACK_RB_SIZE - 2)
    && Depth(s) == s.ring.pktReady + (if s.producer.Built? then 1 else 0) + (if s.sender.Pended? then 1 else 0)
    && s.wire == s.built[..|s.wire|]
    && (s.sender.Picked? ==> s.sender.slot == Place(|s.wire|))
    && (forall i | 0 <= i < NACK_RB_SIZE :: SlotHolds(s, i))
    && (s.handler.Matched? ==> ServedOk(s.built, s.handler.sn, s.handler.at, s.ring.slots[Index(s.handler.sn)].packet))
    && (forall i | 0 <= i < |s.resent| :: ServedOk(s.built, s.resent[i].sn, s.resent[i].at, s.resent[i].packet))
  }

  /** The packet for number `sn` is among the last 2048 of the first `at` packets. */
  predicate InWindow(sn: uint16, at: nat, k: nat) {
    k < at <= k + NACK_RB_SIZE && Wrap(k) == sn
  }

  /** `packet` is what was last built for `sn` when the request came; or `sn` was at that moment
      claimed and not yet built, and `packet` is what its slot held before. */
  ghost predicate ServedOk(built: seq<Packet>, sn: uint16, at: nat, packet: Packet) {
    && at <= |built|
    && ((exists k: nat :: InWindow(sn, at, k) && packet == built[k])
        || (sn == Wrap(at)
            && packet == if at >= NACK_RB_SIZE then built[at - NACK_RB_SIZE] else []))
  }

  lemma OccupantIs(b: nat, i: nat)
    requires i < NACK_RB_SIZE
    ensures var k := Occupant(b, i);
            && b - NACK_RB_SIZE <= k < b && Place(k) == i
            && (k < 0 <==> b <= i)
  {
  }

  lemma PlaceBack(b: nat)
    ensures Place(b - NACK_RB_SIZE) == Place(b)
  {
  }

  lemma OccupantUnique(b: nat, i: nat, k: int)
    requires i < NACK_RB_SIZE && b - NACK_RB_SIZE <= k < b && Place(k) == i
    ensures Occupant(b, i) == k
  {
    OccupantIs(b, i);
  }

  /** One more packet changes the occupant of its own slot only. */
  lemma OccupantNext(b: nat, i: nat)
    requires i < NACK_RB_SIZE
    ensures Occupant(b + 1, i) == if i == Place(b) then b else Occupant(b, i)
  {
    OccupantIs(b, i);
    if i == Place(b) {
      OccupantUnique(b + 1, i, b);
    } else {
      OccupantUnique(b + 1, i, Occupant(b, i));
    }
  }

  /** 2048 divides 65536, so the slot of a number is the slot of its packet's position. */
  lemma IndexOf(k: nat)
    ensures Index(Wrap(k)) == Place(k)
  {
  }

  lemma StepKeepsInv(s: System, step: Step)
    requires Inv(s) && Enabled(s, step)
    ensures Inv(Apply(s, step))
  {
    hide Inv, Apply;
    match step
    case ClaimStep => ClaimKeepsInv(s);
    case BuildStep(packet) => BuildKeepsInv(s, packet);
    case SendStep => SendKeepsInv(s);
    case NackStep(sn) => NackKeepsInv(s, sn);
    case _ => QuietKeepsInv(s, step);
  }

  lemma QuietKeepsInv(s: System, step: Step)
    requires Inv(s) && Enabled(s, step)
    requires step.PostStep? || step.PendStep? || step.PickStep? || step.ResendStep?
    ensures Inv(Apply(s, step))
  {
    hide SlotHolds, ServedOk, Wrap, Place, Index, Next16;
    var t := Apply(s, step);
    SlotsKept(s, t);
    if step.PickStep? {
      NextOf(Picks(s));
      IndexOf(Picks(s));
    }
  }

  /** Steps that touch no slot and build nothing keep what the slots hold. */
  lemma SlotsKept(s: System, t: System)
    requires Inv(s) && t.ring.slots == s.ring.slots && t.built == s.built
    requires t.producer.Claimed? <==> s.producer.Claimed?
    ensures forall i | 0 <= i < NACK_RB_SIZE :: SlotHolds(t, i)
  {
    hide ServedOk, Wrap, Place, Occupant;
    forall i | 0 <= i < NACK_RB_SIZE ensures SlotHolds(t, i) {
      assert SlotHolds(s, i);
    }
  }

  /** The full test, made on numbers modulo 2048, says exactly that 2047 packets are queued. */
  lemma FullIff(s: System)
    requires Inv(s)
    ensures Full(s.ring) <==> Depth(s) == NACK_RB_SIZE - 1
  {
    var b, x := |s.built|, Picks(s);
    NextOf(b);
    IndexOf(b + 1);
    IndexOf(x);
    CongruentIff(b + 1, x);
  }

  lemma NextOf(k: nat)
    ensures Next16(Wrap(k)) == Wrap(k + 1)
  {
  }

  lemma CongruentIff(a: int, x: nat)
    requires x < a <= x + NACK_RB_SIZE
    ensures Place(a) == Place(x) <==> a == x + NACK_RB_SIZE
  {
  }

  /** packets_queued, computed on wrapped numbers, is the number of packets not yet picked. */
  lemma QueuedIsDepth(s: System)
    requires Inv(s)
    ensures PacketsQueued(s.ring) == Depth(s) == ((s.ring.seqNum as int) - s.ring.xmitSeqNum) % 0x1_0000
  {
  }

  /** The claim stamps one slot and changes no packet. */
  lemma ClaimKeepsInv(s: System)
    requires Inv(s) && Enabled(s, ClaimStep)
    ensures Inv(Apply(s, ClaimStep))
  {
    var t := Apply(s, ClaimStep);
    FullIff(s);
    IndexOf(|s.built|);
    forall i | 0 <= i < NACK_RB_SIZE ensures SlotHolds(t, i) {
      assert SlotHolds(s, i);
    }
  }

  /** The claimed slot is built; the handler, if it holds a slot, holds another one. */
  lemma BuildKeepsInv(s: System, packet: Packet)
    requires Inv(s) && Enabled(s, BuildStep(packet))
    ensures Inv(Apply(s, BuildStep(packet)))
  {
    hide ServedOk, Wrap, Place, Index, Next16, Occupant;
    var t, b := Apply(s, BuildStep(packet)), |s.built|;
    IndexOf(b);
    NextOf(b);
    forall i | 0 <= i < NACK_RB_SIZE ensures SlotHolds(t, i) {
      assert SlotHolds(s, i);
      OccupantNext(b, i);
      OccupantIs(b, i);
    }
    ServedStays(s, t);
  }

  /** What was served once stays what was served when more packets are built. */
  lemma ServedStays(s: System, t: System)
    requires Inv(s) && s.built <= t.built && t.resent == s.resent
    ensures forall i | 0 <= i < |s.resent| :: ServedOk(t.built, s.resent[i].sn, s.resent[i].at, s.resent[i].packet)
    ensures forall sn, at, p :: ServedOk(s.built, sn, at, p) ==> ServedOk(t.built, sn, at, p)
  {
    forall sn, at, p | ServedOk(s.built, sn, at, p) ensures ServedOk(t.built, sn, at, p) {
      if exists k: nat :: InWindow(sn, at, k) && p == s.built[k] {
        var k: nat :| InWindow(sn, at, k) && p == s.built[k];
        assert InWindow(sn, at, k) && p == t.built[k];
      }
    }
  }

  /** The packet the sender picked is still in its slot when it is sent. */
  lemma PickedIntact(s: System)
    requires Inv(s) && s.sender.Picked?
    ensures s.sender.slot < NACK_RB_SIZE
    ensures s.ring.slots[s.sender.slot].packet == s.built[|s.wire|]
    ensures s.producer.Claimed? ==> Index(s.ring.seqNum) != s.sender.slot
  {
    hide Wrap, Place, Index, Occupant, ServedOk;
    var b, k := |s.built|, |s.wire|;
    assert SlotHolds(s, s.sender.slot);
    OccupantUnique(b, s.sender.slot, k);
    IndexOf(b);
    CongruentIff(b, k);
  }

  /** The semaphore never lets the sender at a slot that is not built: what it is about to pick
      is the oldest packet not yet picked, complete and under its own number. */
  lemma PickIsBuilt(s: System)
    requires Inv(s) && s.sender.Pended?
    ensures Depth(s) > 0
    ensures s.ring.slots[Index(s.ring.xmitSeqNum)] == Slot(s.ring.xmitSeqNum, s.built[Picks(s)])
    ensures s.producer.Claimed? ==> Index(s.ring.seqNum) != Index(s.ring.xmitSeqNum)
  {
    hide Wrap, Place, Index, Occupant, ServedOk;
    var b, k := |s.built|, Picks(s);
    IndexOf(k);
    IndexOf(b);
    assert SlotHolds(s, Place(k));
    OccupantUnique(b, Place(k), k);
    CongruentIff(b, k);
  }

  lemma SendKeepsInv(s: System)
    requires Inv(s) && Enabled(s, SendStep)
    ensures Inv(Apply(s, SendStep))
  {
    var t := Apply(s, SendStep);
    PickedIntact(s);
    SlotsKept(s, t);
    assert t.wire == t.built[..|t.wire|];
  }

  lemma NackKeepsInv(s: System, sn: uint16)
    requires Inv(s) && Enabled(s, NackStep(sn))
    ensures Inv(Apply(s, NackStep(sn)))
  {
    SlotsKept(s, Apply(s, NackStep(sn)));
    if Serves(s.ring, sn) {
      NackExact(s, sn);
    }
  }

  /** Who is served, and with what. A number is answered exactly if its packet is among the last
      2048 and its slot is not being claimed again, and then with the packet last built for it;
      or if the number itself is claimed and not yet built, and then with the old packet. So the
      32 numbers of a slot never stand in for each other. */
  lemma NackExact(s: System, sn: uint16)
    requires Inv(s)
    ensures Serves(s.ring, sn) <==>
            (exists k: nat :: InWindow(sn, |s.built|, k) && !(s.producer.Claimed? && k + NACK_RB_SIZE == |s.built|))
            || (s.producer.Claimed? && sn == Wrap(|s.built|))
    ensures Serves(s.ring, sn) ==> ServedOk(s.built, sn, |s.built|, s.ring.slots[Index(sn)].packet)
    ensures forall k: nat | InWindow(sn, |s.built|, k) ::
              s.ring.slots[Index(sn)].packet == s.built[k]
              && forall j | k < j < |s.built| :: Wrap(j) != sn
  {
    var b, i := |s.built|, Index(sn);
    assert SlotHolds(s, i);
    WindowIsOccupant(sn, b);
    OccupantInWindow(sn, b);
    SlotServes(b, s.producer.Claimed?, sn, s.ring.slots[i].sn);
  }

  /** The number a slot shows decides which requests it answers. */
  lemma SlotServes(b: nat, claimed: bool, sn: uint16, shown: int)
    requires var i, k := Index(sn), Occupant(b, Index(sn));
             shown == if claimed && i == Place(b) then Wrap(b)
                      else if 0 <= k then Wrap(k) else -1
    ensures shown == sn <==>
            (exists k: nat :: InWindow(sn, b, k) && !(claimed && k + NACK_RB_SIZE == b))
            || (claimed && sn == Wrap(b))
    ensures claimed && sn == Wrap(b) ==> Occupant(b, Index(sn)) == b - NACK_RB_SIZE
  {
    hide Wrap, Place, Index, Occupant;
    var i, k := Index(sn), Occupant(b, Index(sn));
    WindowIsOccupant(sn, b);
    OccupantInWindow(sn, b);
    IndexOf(b);
    PlaceBack(b);
    if i == Place(b) {
      OccupantUnique(b, i, b - NACK_RB_SIZE);
    } else {
      OccupantIs(b, i);
    }
  }

  /** The occupant of a number's slot is in the window of that number, or has another number. */
  lemma OccupantInWindow(sn: uint16, b: nat)
    ensures var k := Occupant(b, Index(sn));
            k < b && (k >= 0 ==> (InWindow(sn, b, k) <==> Wrap(k) == sn))
  {
    OccupantIs(b, Index(sn));
  }

  /** At most one packet of the window has a number, and it is the occupant of the number's slot. */
  lemma WindowIsOccupant(sn: uint16, b: nat)
    ensures forall k: nat | InWindow(sn, b, k) ::
              k == Occupant(b, Index(sn)) && forall j | k < j < b :: Wrap(j) != sn
  {
    forall k: nat | InWindow(sn, b, k)
      ensures k == Occupant(b, Index(sn)) && forall j | k < j < b :: Wrap(j) != sn
    {
      IndexOf(k);
      OccupantUnique(b, Index(sn), k);
      forall j | k < j < b ensures Wrap(j) != sn {
        assert 0 < j - k < 0x1_0000;
      }
    }
  }

  /** Main result: the invariant holds in every interleaving. */
  lemma {:induction false} RunKeepsInv(steps: seq<Step>)
    ensures Run(steps).Some? ==> Inv(Run(steps).value)
  {
    if steps == [] {
      forall i | 0 <= i < NACK_RB_SIZE ensures SlotHolds(INITIAL, i) {
        OccupantIs(0, i);
      }
    } else {
      var p := Run(steps[..|steps| - 1]);
      RunKeepsInv(steps[..|steps| - 1]);
      if p.Some? && Enabled(p.value, steps[|steps| - 1]) {
        StepKeepsInv(p.value, steps[|steps| - 1]);
      }
    }
  }

  // ---------------------------------------------------------------------------
  // Safety of every run
  // ---------------------------------------------------------------------------

  ghost predicate Safe(s: System)
    requires Shaped(s.ring)
  {
    // The queue: counted on wrapped numbers, at most 2047, and accounted for by the semaphore.
    && 0 <= PacketsQueued(s.ring) <= NACK_RB_SIZE - 1
    && PacketsQueued(s.ring)
       == s.ring.pktReady + (if s.producer.Built? then 1 else 0) + (if s.sender.Pended? then 1 else 0)
    // What the sender is about to pick is built, and is the next packet in order.
    && (s.sender.Pended? ==>
        && |s.wire| < |s.built|
        && s.ring.slots[Index(s.ring.xmitSeqNum)] == Slot(s.ring.xmitSeqNum, s.built[|s.wire|]))
    // What it has picked stays as it was built until it is sent; the producer is in another slot.
    && (s.sender.Picked? ==>
        && |s.wire| < |s.built| && s.sender.slot < NACK_RB_SIZE
        && s.ring.slots[s.sender.slot].packet == s.built[|s.wire|]
        && (s.producer.Claimed? ==> Index(s.ring.seqNum) != s.sender.slot))
    // The wire has every packet once, in order, and every retransmission was the packet asked for.
    && s.wire <= s.built
    && (forall i | 0 <= i < |s.resent| :: ServedOk(s.built, s.resent[i].sn, s.resent[i].at, s.resent[i].packet))
  }

  lemma InvSafe(s: System)
    requires Inv(s)
    ensures Safe(s)
  {
    hide SlotHolds, ServedOk, Wrap, Place, Index, Occupant;
    QueuedIsDepth(s);
    if s.sender.Pended? {
      PickIsBuilt(s);
    }
    if s.sender.Picked? {
      PickedIntact(s);
    }
  }

  /** Main result: whatever the interleaving of producer, sender and retransmission handler. */
  lemma RunIsSafe(steps: seq<Step>)
    requires Run(steps).Some?
    ensures Shaped(Run(steps).value.ring) && Safe(Run(steps).value)
  {
    hide Safe, SlotHolds, ServedOk;
    RunKeepsInv(steps);
    InvSafe(Run(steps).value);
  }

  /** No more than a slot is locked: the producer and the sender wait exactly for the handler that holds the slot of
      the packet they are at. */
  lemma BlockedIff(s: System, packet: Packet)
    requires Inv(s)
    ensures s.producer.Claimed? ==>
              (!Enabled(s, BuildStep(packet)) <==> s.handler.Matched? && s.handler.sn % 2048 == |s.built| % 2048)
    ensures s.sender.Picked? ==>
              (!Enabled(s, SendStep) <==> s.handler.Matched? && s.handler.sn % 2048 == |s.wire| % 2048)
  {
    hide SlotHolds, ServedOk;
    IndexOf(|s.built|);
  }

  // ---------------------------------------------------------------------------
  // Progress
  // ---------------------------------------------------------------------------

  /** The handler has a request to answer, or the sender a packet to send. */
  predicate Busy(s: System) {
    s.handler.Matched? || !s.sender.Waiting? || s.ring.pktReady > 0
  }

  /** What they do next: the handler gives its slot back, the sender sends what it has. */
  function NextMove(s: System): Step {
    if s.handler.Matched? then ResendStep
    else match s.sender
      case Picked(_) => SendStep
      case Pended => PickStep
      case Waiting => PendStep
  }

  function Work(s: System): nat {
    3 * s.ring.pktReady + (if s.handler.Matched? then 1 else 0)
    + match s.sender case Waiting => 0 case Pended => 2 case Picked(_) => 1
  }

  /** Whatever the producer holds, one of them can move; a matched request is answered with one packet, and
      with no request open the next packet goes out after at most three moves. */
  lemma MoveProgress(s: System)
    requires Inv(s) && Busy(s)
    ensures Enabled(s, NextMove(s)) && Inv(Apply(s, NextMove(s)))
    ensures var t := Apply(s, NextMove(s));
            && Work(t) < Work(s) && t.producer == s.producer && t.built == s.built && !t.handler.Matched?
            && (if !s.handler.Matched? then t.resent == s.resent
                else t.wire == s.wire && exists p :: t.resent == s.resent + [Resent(s.handler.sn, p, s.handler.at)])
  {
    hide SlotHolds, ServedOk, Wrap, Index, Next16;
    if s.sender.Picked? {
      PickedIntact(s);
    }
    StepKeepsInv(s, NextMove(s));
  }

  lemma IdleIsDone(s: System)
    requires Inv(s) && !Busy(s)
    ensures s.producer.Built? || s.wire == s.built
  {
    hide SlotHolds, ServedOk;
  }

  lemma RunSnoc(steps: seq<Step>, step: Step)
    requires Run(steps).Some? && Enabled(Run(steps).value, step)
    ensures Run(steps + [step]) == Some(Apply(Run(steps).value, step))
  {
    assert (steps + [step])[..|steps|] == steps;
  }

  /** Main result: from every reachable state the sender and the handler alone can come to their end, with every
      packet posted so far on the wire. */
  lemma {:induction false} CanCatchUp(steps: seq<Step>) returns (all: seq<Step>)
    requires Run(steps).Some?
    ensures steps <= all && Run(all).Some?
    ensures var s, t := Run(steps).value, Run(all).value;
            && !Busy(t) && t.producer == s.producer && t.built == s.built
            && (t.producer.Built? || t.wire == t.built)
    decreases Work(Run(steps).value)
  {
    hide Inv, Apply, Enabled, Busy, Work;
    RunKeepsInv(steps);
    var s := Run(steps).value;
    all := steps;
    if Busy(s) {
      MoveProgress(s);
      RunSnoc(steps, NextMove(s));
      all := CanCatchUp(steps + [NextMove(s)]);
    } else {
      IdleIsDone(s);
    }
  }

  /** Main result: a request can be answered exactly if its packet is among the last 2048 built and its slot is not
      being claimed again, or its slot is claimed for it; one packet then goes out, and where the request is for
      one of the last 2048 packets it is that packet. */
  lemma AnsweredIff(steps: seq<Step>, sn: uint16)
    requires Run(steps).Some? && Run(steps).value.handler.Listening?
    ensures var s, after := Run(steps).value, Run(steps + [NackStep(sn)] + [ResendStep]);
            var b := |s.built|;
            && (after.Some? <==>
                  (exists k: nat :: k < b <= k + 2048 && Wrap(k) == sn && !(s.producer.Claimed? && k + 2048 == b))
                  || (s.producer.Claimed? && sn == Wrap(b)))
            && (after.Some? ==>
                  && |after.value.resent| == |s.resent| + 1 && s.resent <= after.value.resent
                  && var r := after.value.resent[|s.resent|];
                     r.sn == sn && forall k: nat | k < b <= k + 2048 && Wrap(k) == sn :: r.packet == s.built[k])
  {
    hide Inv, SlotHolds, ServedOk, Wrap, Place, Index, Serves;
    var s := Run(steps).value;
    RunKeepsInv(steps);
    NackExact(s, sn);
    RunSnoc(steps, NackStep(sn));
    var more := steps + [NackStep(sn)];
    assert (more + [ResendStep])[..|more|] == more;
    assert forall k: nat :: InWindow(sn, |s.built|, k) <==> k < |s.built| <= k + 2048 && Wrap(k) == sn;
  }
}
