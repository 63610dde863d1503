/** The token bucket that paces video packets: 32-bit integer arithmetic, milliseconds cut off. */
module Pacing {
  import opened Arithmetic
  import opened Bytes
  import MediaClock

  const MAX_MTU := 1392
  const MAX_XMIT_LEVEL_IN_MS := 100
  const TWO_31 := 0x8000_0000

  /** The highest bytes_per_ms that a 32-bit kbps * 1000 gives. */
  const MAX_RATE := 268_435

  // ---------------------------------------------------------------------------
  // 32-bit arithmetic
  // ---------------------------------------------------------------------------

  /** An int that wraps around. */
  function Int32(x: int): (r: int)
    ensures IsInt(r) && (IsInt(x) ==> r == x)
  {
    (x + TWO_31) % TWO_32 - TWO_31
  }

  predicate IsInt(x: int) {
    -TWO_31 <= x < TWO_31
  }

  lemma Int32Shift(x: int, k: int)
    ensures Int32(x + k * TWO_32) == Int32(x)
  {
  }

  /** Where an int lands: it never comes out above the number it stands for. */
  lemma Int32Lands(c: int)
    requires c >= -TWO_31
    ensures Int32(c) == if c < TWO_31 then c else if c % TWO_32 < TWO_31 then c % TWO_32 else c % TWO_32 - TWO_32
    ensures Int32(c) <= c
  {
  }

  lemma Int32Add(x: int, y: int)
    ensures Int32(x + Int32(y)) == Int32(x + y)
  {
    var k := (y + TWO_31) / TWO_32;
    assert Int32(y) == y - k * TWO_32;
    Int32Shift(x + y, -k);
  }

  lemma Int32Mul(x: int, y: int)
    ensures Int32(Int32(x) * y) == Int32(x * y)
  {
    var k := (x + TWO_31) / TWO_32;
    assert Int32(x) == x - k * TWO_32;
    Distribute(x, k * TWO_32, y);
    assert k * TWO_32 * y == k * y * TWO_32;
    Int32Shift(x * y, -(k * y));
  }

  /** C division cuts toward zero. */
  function Quotient(x: int, d: int): int
    requires d > 0
  {
    if x >= 0 then x / d else -(-x / d)
  }

  /** bytes_per_ms of the send thread. */
  function BytesPerMs(kbps: int): (bpm: int)
    ensures bpm <= MAX_RATE
  {
    Quotient(Quotient(Int32(kbps * 1000), 8), 1000)
  }

  /** A kilobit in a second is an eighth of a byte in a millisecond: the rate is exact to whole bytes up to
      where kbps * 1000 wraps, so it is positive from 8 kbps on. */
  lemma BytesPerMsPositive(kbps: int)
    requires 0 <= kbps <= 2_147_483
    ensures BytesPerMs(kbps) == kbps / 8
    ensures BytesPerMs(kbps) >= 1 <==> kbps >= 8
  {
  }

  // ---------------------------------------------------------------------------
  // The bucket
  // ---------------------------------------------------------------------------

  /** The level of the bucket, and when it was last updated, in microseconds. */
  datatype Bucket = Bucket(level: int, start: int)

  function Min(x: int, y: int): int {
    if x > y then y else x
  }

  function Cap(bpm: int): int {
    MAX_XMIT_LEVEL_IN_MS * bpm
  }

  /** _update_xmit_level, in the int arithmetic of the code. */
  function Update(b: Bucket, now: int, bpm: int): Bucket {
    var level := Int32(b.level + Int32(Int32(MediaClock.ElapsedMs(now, b.start)) * bpm));
    Bucket(Min(level, Cap(bpm)), now)
  }

  /** The level plus the credit of the elapsed milliseconds, in unbounded arithmetic. */
  function Credit(b: Bucket, now: int, bpm: int): int {
    b.level + MediaClock.ElapsedMs(now, b.start) * bpm
  }

  /** The bucket that the update stands for. */
  function Ideal(b: Bucket, now: int, bpm: int): Bucket {
    Bucket(Min(Credit(b, now, bpm), Cap(bpm)), now)
  }

  lemma UpdateIs(b: Bucket, now: int, bpm: int)
    ensures Update(b, now, bpm) == Bucket(Min(Int32(Credit(b, now, bpm)), Cap(bpm)), now)
  {
    var ms := MediaClock.ElapsedMs(now, b.start);
    Int32Mul(ms, bpm);
    Int32Add(b.level, ms * bpm);
  }

  /** An update that is taken in order, at a rate the code can have. */
  predicate Timely(b: Bucket, now: int, bpm: int) {
    IsInt(b.level) && b.start <= now && 1 <= bpm <= MAX_RATE
  }

  lemma CreditGrows(b: Bucket, now: int, bpm: int)
    requires Timely(b, now, bpm)
    ensures b.level <= Credit(b, now, bpm) == b.level + (now - b.start) / 1000 * bpm
  {
    assert (now - b.start) / 1000 * bpm >= 0;
  }

  /** The update is the ideal one exactly if the credit stays below 2^31, or wraps to a full bucket. */
  lemma UpdateExactIff(b: Bucket, now: int, bpm: int)
    requires Timely(b, now, bpm)
    ensures Update(b, now, bpm) == Ideal(b, now, bpm) <==> Exact(b, now, bpm)
  {
    hide Update, Credit, Int32, MediaClock.ElapsedMs;
    UpdateIs(b, now, bpm);
    CreditGrows(b, now, bpm);
    Int32Lands(Credit(b, now, bpm));
  }

  predicate Exact(b: Bucket, now: int, bpm: int) {
    var c := Credit(b, now, bpm);
    c < TWO_31 || Cap(bpm) <= c % TWO_32 < TWO_31
  }

  /** When an update keeps the level above -1392: unless the credit overflows and wraps below that. */
  lemma LevelIff(b: Bucket, now: int, bpm: int)
    requires Timely(b, now, bpm) && b.level > -MAX_MTU
    ensures Update(b, now, bpm).level > -MAX_MTU <==>
            var c := Credit(b, now, bpm); !(c >= TWO_31 && TWO_31 <= c % TWO_32 <= TWO_32 - MAX_MTU)
  {
    hide Update, Credit, Int32, MediaClock.ElapsedMs;
    UpdateIs(b, now, bpm);
    CreditGrows(b, now, bpm);
    Int32Lands(Credit(b, now, bpm));
  }

  /** How long the send loop sleeps when the level is used up. */
  function SleepMs(bpm: int): int
    requires bpm > 0
  {
    MAX_MTU / bpm + 1
  }

  lemma SleepCredit(bpm: int, slept: int)
    requires bpm > 0 && slept >= SleepMs(bpm)
    ensures slept * bpm > MAX_MTU
  {
    DivMod(MAX_MTU, bpm);
    Distribute(MAX_MTU / bpm, 1, bpm);
    Distribute(slept, SleepMs(bpm), bpm);
    assert (slept - SleepMs(bpm)) * bpm >= 0;
  }

  /** When one sleep makes the level positive: unless the credit overflows and wraps to zero or below. */
  lemma OneSleepIff(b: Bucket, woken: int, bpm: int)
    requires Timely(b, woken, bpm) && b.level > -MAX_MTU && woken - b.start >= 1000 * SleepMs(bpm)
    ensures Update(b, woken, bpm).level > 0 <==>
            var c := Credit(b, woken, bpm); c < TWO_31 || 0 < c % TWO_32 < TWO_31
  {
    hide Update, Credit, Int32, MediaClock.ElapsedMs;
    UpdateIs(b, woken, bpm);
    CreditGrows(b, woken, bpm);
    SleepCredit(bpm, (woken - b.start) / 1000);
    Int32Lands(Credit(b, woken, bpm));
  }

  // ---------------------------------------------------------------------------
  // The send loop
  // ---------------------------------------------------------------------------

  /** One turn of the inner loop: what its test of the thread's flag finds, and the clock after its
      sleep, if it comes to that. */
  datatype Turn = Turn(running: bool, woken: int)

  /** One packet: the rate in force, the clock before the loop, its turns, and what sendto returns. */
  datatype Send = Send(bpm: int, now: int, turns: seq<Turn>, txLen: int)

  /** The bucket behind the loop, the sleeps it took, and whether the packet went out. */
  datatype Outcome = Outcome(bucket: Bucket, sleeps: nat, sent: bool)

  /** The inner loop of video_send_thread. */
  function Paced(b: Bucket, turns: seq<Turn>, txLen: int, bpm: int): Outcome
    decreases |turns|
  {
    if turns == [] || !turns[0].running then Outcome(b, 0, false)
    else
      var slept := if b.level <= 0 then 1 else 0;
      var a := if b.level <= 0 then Update(b, turns[0].woken, bpm) else b;
      if a.level > 0 then Outcome(a.(level := a.level - txLen), slept, true)
      else
        var o := Paced(a, turns[1..], txLen, bpm);
        o.(sleeps := slept + o.sleeps)
  }

  function AfterSend(b: Bucket, s: Send): Outcome {
    Paced(Update(b, s.now, s.bpm), s.turns, s.txLen, s.bpm)
  }

  class VideoSender {
    var transmitLevel: int
    var start: int
    var bytesPerMs: int
    var flowControl: bool

    /** Before the loop; the clock is read when the first packet comes. */
    constructor (kbps: int, now: int)
      ensures Level() == Bucket(Quotient(Quotient(Int32(5000 * kbps), 8), 1000), now)
      ensures 0 <= kbps <= 429_496 ==> transmitLevel == 5 * kbps / 8
      ensures bytesPerMs == BytesPerMs(kbps) && (flowControl <==> kbps > 0)
    {
      transmitLevel := Quotient(Quotient(Int32(Int32(5 * kbps) * 1000), 8), 1000);
      start := now;
      bytesPerMs := BytesPerMs(kbps);
      flowControl := kbps > 0;
      Int32Mul(5 * kbps, 1000);
    }

    function Level(): Bucket
      reads this
    {
      Bucket(transmitLevel, start)
    }

    /** A new peak rate takes effect with the next packet, and the level stays. */
    method SetRate(kbps: int)
      modifies this
      ensures Level() == old(Level()) && bytesPerMs == BytesPerMs(kbps) && (flowControl <==> kbps > 0)
    {
      bytesPerMs := Quotient(Quotient(Int32(kbps * 1000), 8), 1000);
      flowControl := kbps > 0;
    }

    method UpdateXmitLevel(now: int)
      modifies this`transmitLevel, this`start
      ensures Level() == Update(old(Level()), now, bytesPerMs)
    {
      var elapsed := Int32(MediaClock.ElapsedMs(now, start));
      transmitLevel := Int32(transmitLevel + Int32(elapsed * bytesPerMs));
      if transmitLevel > MAX_XMIT_LEVEL_IN_MS * bytesPerMs {
        transmitLevel := MAX_XMIT_LEVEL_IN_MS * bytesPerMs;
      }
      start := now;
    }

    /** The paced branch of video_send_thread, until the packet is out, the thread is told to stop, or
        the given turns are over. */
    method SendPaced(now: int, turns: seq<Turn>, txLen: int) returns (pktSent: bool, throttled: nat)
      requires bytesPerMs > 0
      modifies this`transmitLevel, this`start
      ensures Outcome(Level(), throttled, pktSent) == AfterSend(old(Level()), Send(bytesPerMs, now, turns, txLen))
    {
      hide Update;
      pktSent, throttled := false, 0;
      UpdateXmitLevel(now);
      ghost var all := AfterSend(old(Level()), Send(bytesPerMs, now, turns, txLen));
      var i := 0;
      while !pktSent && i < |turns| && turns[i].running
        invariant i <= |turns|
        invariant if pktSent then all == Outcome(Level(), throttled, true)
                  else var o := Paced(Level(), turns[i..], txLen, bytesPerMs);
                    all == o.(sleeps := throttled + o.sleeps)
        decreases |turns| - i
      {
        assert turns[i..][1..] == turns[i + 1..];
        if transmitLevel <= 0 {
          throttled := throttled + 1;
          UpdateXmitLevel(turns[i].woken);
        }
        if transmitLevel > 0 {
          transmitLevel := transmitLevel - txLen;
          pktSent := true;
        }
        i := i + 1;
      }
    }
  }

  // ---------------------------------------------------------------------------
  // The level, where the credit does not overflow
  // ---------------------------------------------------------------------------

  /** A packet none of whose updates overflows, with a sleep of full length. */
  predicate ExactSend(b: Bucket, s: Send) {
    && Timely(b, s.now, s.bpm) && Exact(b, s.now, s.bpm) && 1 <= s.txLen <= MAX_MTU
    && var u := Update(b, s.now, s.bpm);
       s.turns != [] && u.level <= 0 ==>
         s.turns[0].woken - s.now >= 1000 * SleepMs(s.bpm) && Exact(u, s.turns[0].woken, s.bpm)
  }

  /** Then the packet goes out in the first turn, behind at most one sleep, and leaves more than -1392. */
  lemma OneSleep(b: Bucket, s: Send)
    requires b.level > -MAX_MTU && ExactSend(b, s)
    ensures var o := AfterSend(b, s);
            && o.sleeps <= 1 && -MAX_MTU < o.bucket.level <= Cap(s.bpm) && o.bucket.start >= b.start
            && (s.turns != [] && s.turns[0].running ==> o.sent && o.bucket.level < Cap(s.bpm))
  {
    hide Update, Int32, MediaClock.ElapsedMs;
    var u := Update(b, s.now, s.bpm);
    UpdateExactIff(b, s.now, s.bpm);
    CreditGrows(b, s.now, s.bpm);
    hide Credit;
    if s.turns != [] && s.turns[0].running && u.level <= 0 {
      UpdateExactIff(u, s.turns[0].woken, s.bpm);
      OneSleepIff(u, s.turns[0].woken, s.bpm);
      UpdateStart(u, s.turns[0].woken, s.bpm);
    }
  }

  /** A pause of 28 minutes and 40 seconds at 10000 kbps overflows: the level drops to -2144967296,
      and one sleep is not enough. */
  lemma PauseOverflows(len: nat)
    ensures var b, now := Bucket(0, 0), 1_720_000_000;
            && BytesPerMs(10_000) == 1250 && Update(b, now, 1250).level == -2_144_967_296
            && AfterSend(b, Send(1250, now, [Turn(true, now + 2000), Turn(true, now + 4000)], len)) ==
               Outcome(Bucket(-2_144_962_296, now + 4000), 2, false)
  {
    var now := 1_720_000_000;
    var u := Update(Bucket(0, 0), now, 1250);
    var v := Update(u, now + 2000, 1250);
    var turns := [Turn(true, now + 2000), Turn(true, now + 4000)];
    assert turns[1..] == [Turn(true, now + 4000)] && turns[1..][1..] == [];
    assert Paced(v, turns[1..], len, 1250) == Outcome(Update(v, now + 4000, 1250), 1, false);
  }

  // ---------------------------------------------------------------------------
  // Runs
  // ---------------------------------------------------------------------------

  /** The bucket after a run of packets. */
  function Run(b: Bucket, sends: seq<Send>): Bucket {
    if sends == [] then b else AfterSend(Run(b, sends[..|sends| - 1]), sends[|sends| - 1]).bucket
  }

  predicate Ordered(start: int, turns: seq<Turn>)
    decreases |turns|
  {
    turns == [] || (start <= turns[0].woken && Ordered(turns[0].woken, turns[1..]))
  }

  /** Packets at rates up to `top`, on a clock that does not go back, each taken whole by sendto. */
  predicate SoundRun(b: Bucket, sends: seq<Send>, top: int) {
    sends == [] ||
    (var init, s := sends[..|sends| - 1], sends[|sends| - 1];
     && SoundRun(b, init, top) && Run(b, init).start <= s.now && Ordered(s.now, s.turns)
     && 1 <= s.bpm <= top && 1 <= s.txLen <= MAX_MTU)
  }

  predicate ExactRun(b: Bucket, sends: seq<Send>) {
    sends == [] ||
    (ExactRun(b, sends[..|sends| - 1]) && ExactSend(Run(b, sends[..|sends| - 1]), sends[|sends| - 1]))
  }

  /** Over a run without overflow the level stays above -1392, and no packet takes a second sleep. */
  lemma {:induction false} LevelBound(b: Bucket, sends: seq<Send>)
    requires b.level > -MAX_MTU && ExactRun(b, sends)
    ensures Run(b, sends).level > -MAX_MTU
    ensures sends != [] ==> AfterSend(Run(b, sends[..|sends| - 1]), sends[|sends| - 1]).sleeps <= 1
  {
    if sends != [] {
      LevelBound(b, sends[..|sends| - 1]);
      OneSleep(Run(b, sends[..|sends| - 1]), sends[|sends| - 1]);
    }
  }

  /** Bytes of the run that went out in [t1, t2]. */
  function SentBetween(b: Bucket, sends: seq<Send>, t1: int, t2: int): int {
    if sends == [] then 0
    else
      var init, s := sends[..|sends| - 1], sends[|sends| - 1];
      var o := AfterSend(Run(b, init), s);
      SentBetween(b, init, t1, t2) + if o.sent && t1 <= o.bucket.start <= t2 then s.txLen else 0
  }

  /** Credit gained by an update is at most that of the elapsed whole milliseconds, overflow or not. */
  lemma UpdateGain(b: Bucket, now: int, bpm: int, top: int)
    requires Timely(b, now, bpm) && bpm <= top
    ensures IsInt(Update(b, now, bpm).level)
    ensures Update(b, now, bpm).level <= b.level + (now - b.start) / 1000 * top
    ensures Update(b, now, bpm).level <= Cap(top)
  {
    hide Update, Credit, Int32, MediaClock.ElapsedMs;
    UpdateIs(b, now, bpm);
    CreditGrows(b, now, bpm);
    Int32Lands(Credit(b, now, bpm));
    var ms := (now - b.start) / 1000;
    Distribute(top, bpm, ms);
    assert (top - bpm) * ms >= 0;
  }

  /** Cutting off milliseconds twice loses at least as much as cutting once. */
  lemma CutTwice(t0: int, t1: int, t2: int, top: int)
    requires t0 <= t1 <= t2 && top >= 0
    ensures (t1 - t0) / 1000 * top + (t2 - t1) / 1000 * top <= (t2 - t0) / 1000 * top
    ensures (t2 - t1) / 1000 * top >= 0
  {
    var x, y, z := (t1 - t0) / 1000, (t2 - t1) / 1000, (t2 - t0) / 1000;
    assert x + y <= z;
    Distribute(x, y, top);
    Distribute(z, x + y, top);
    assert (z - (x + y)) * top >= 0;
  }

  /** What the loop adds to the level, counting back a packet that went out. */
  lemma {:induction false} PacedGain(b: Bucket, turns: seq<Turn>, txLen: int, bpm: int, top: int)
    requires IsInt(b.level) && b.level <= Cap(top) && Ordered(b.start, turns)
    requires 1 <= bpm <= top <= MAX_RATE && 1 <= txLen <= MAX_MTU
    ensures var o := Paced(b, turns, txLen, bpm);
            var admitted := o.bucket.level + if o.sent then txLen else 0;
            && IsInt(o.bucket.level) && o.bucket.start >= b.start && (o.sent ==> o.bucket.level > -MAX_MTU)
            && admitted <= b.level + (o.bucket.start - b.start) / 1000 * top && admitted <= Cap(top)
    decreases |turns|
  {
    hide Update;
    if turns != [] && turns[0].running && b.level <= 0 {
      var a := Update(b, turns[0].woken, bpm);
      UpdateGain(b, turns[0].woken, bpm, top);
      UpdateStart(b, turns[0].woken, bpm);
      if a.level <= 0 {
        PacedGain(a, turns[1..], txLen, bpm, top);
        CutTwice(b.start, a.start, Paced(b, turns, txLen, bpm).bucket.start, top);
      }
    }
  }

  lemma UpdateStart(b: Bucket, now: int, bpm: int)
    ensures Update(b, now, bpm).start == now
  {
  }

  /** The same for a whole packet. */
  lemma SendGain(b: Bucket, s: Send, top: int)
    requires IsInt(b.level) && b.start <= s.now && Ordered(s.now, s.turns)
    requires 1 <= s.bpm <= top <= MAX_RATE && 1 <= s.txLen <= MAX_MTU
    ensures var o := AfterSend(b, s);
            var admitted := o.bucket.level + if o.sent then s.txLen else 0;
            && IsInt(o.bucket.level) && o.bucket.start >= b.start && (o.sent ==> o.bucket.level > -MAX_MTU)
            && admitted <= b.level + (o.bucket.start - b.start) / 1000 * top && admitted <= Cap(top)
  {
    hide Update, Paced;
    var u := Update(b, s.now, s.bpm);
    UpdateGain(b, s.now, s.bpm, top);
    UpdateStart(b, s.now, s.bpm);
    PacedGain(u, s.turns, s.txLen, s.bpm, top);
    CutTwice(b.start, u.start, AfterSend(b, s).bucket.start, top);
  }

  lemma {:induction false} RunIsInt(b: Bucket, sends: seq<Send>, top: int)
    requires IsInt(b.level) && SoundRun(b, sends, top) && top <= MAX_RATE
    ensures IsInt(Run(b, sends).level) && Run(b, sends).start >= b.start
  {
    if sends != [] {
      RunIsInt(b, sends[..|sends| - 1], top);
      SendGain(Run(b, sends[..|sends| - 1]), sends[|sends| - 1], top);
    }
  }

  /** Bytes sent since t1 plus the level left stay within a full bucket plus the credit of the time. */
  lemma {:induction false} Potential(b: Bucket, sends: seq<Send>, top: int, t1: int, t2: int)
    requires IsInt(b.level) && SoundRun(b, sends, top) && top <= MAX_RATE
    requires sends != [] && t1 <= Run(b, sends).start
    ensures var r := Run(b, sends);
            SentBetween(b, sends, t1, t2) + r.level <= Cap(top) + (r.start - t1) / 1000 * top
  {
    hide AfterSend, IsInt;
    var init, s := sends[..|sends| - 1], sends[|sends| - 1];
    var p := Run(b, init);
    RunIsInt(b, init, top);
    SendGain(p, s, top);
    var r := Run(b, sends);
    if init != [] && t1 <= p.start {
      Potential(b, init, top, t1, t2);
      CutTwice(t1, p.start, r.start, top);
    } else {
      NoneYet(b, init, top, t1, t2);
      CutTwice(t1, t1, r.start, top);
    }
  }

  /** Packets before t1 do not count. */
  lemma {:induction false} NoneYet(b: Bucket, sends: seq<Send>, top: int, t1: int, t2: int)
    requires IsInt(b.level) && SoundRun(b, sends, top) && top <= MAX_RATE
    requires sends == [] || Run(b, sends).start < t1
    ensures SentBetween(b, sends, t1, t2) == 0
  {
    hide AfterSend, IsInt;
    if sends != [] {
      var init := sends[..|sends| - 1];
      RunIsInt(b, init, top);
      SendGain(Run(b, init), sends[|sends| - 1], top);
      NoneYet(b, init, top, t1, t2);
    }
  }

  /**
   * Main result: whatever overflows, and however the rate changes below `top`, the bytes sent between any
   * two times are at most a full bucket of 100 ms, the credit of the whole milliseconds between them, and one
   * packet less one byte.
   */
  lemma {:induction false} RateBound(b: Bucket, sends: seq<Send>, top: int, t1: int, t2: int)
    requires IsInt(b.level) && SoundRun(b, sends, top) && 1 <= top <= MAX_RATE && t1 <= t2
    ensures SentBetween(b, sends, t1, t2) <= 100 * top + (t2 - t1) / 1000 * top + 1391
  {
    hide AfterSend, IsInt;
    CutTwice(t1, t1, t2, top);
    if sends != [] {
      var init, s := sends[..|sends| - 1], sends[|sends| - 1];
      var o := AfterSend(Run(b, init), s);
      if o.sent && t1 <= o.bucket.start <= t2 {
        RunIsInt(b, init, top);
        SendGain(Run(b, init), s, top);
        Potential(b, sends, top, t1, t2);
        CutTwice(t1, o.bucket.start, t2, top);
      } else {
        RateBound(b, init, top, t1, t2);
      }
    }
  }
}
