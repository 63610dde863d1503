/**
 * Tearing a connection down: any number of threads in ftl_ingest_disconnect, the connection status
 * thread, the six worker threads and the media callers, step by step in any order.
 */
module Teardown {
  import opened Bytes
  import Ring = RetransmitRing

  // ---------------------------------------------------------------------------
  // State
  // ---------------------------------------------------------------------------

  datatype Flag = PingFlag | TxFlag | RxFlag | KeepaliveFlag | StatusFlag | BitrateFlag

  datatype Thread = Ping | VideoTx | AudioTx | Rx | Keepalive | Status | Bitrate

  function FlagOf(t: Thread): Flag {
    match t
    case Ping => PingFlag
    case VideoTx => TxFlag
    case AudioTx => TxFlag
    case Rx => RxFlag
    case Keepalive => KeepaliveFlag
    case Status => StatusFlag
    case Bitrate => BitrateFlag
  }

  /** A thread that disconnects: before it has disconnect_mutex, with it, or back. */
  datatype Caller = Waiting | Disconnecting | Returned

  /** The connection status thread: in its loop, behind the last check of its flag, behind clearing it,
      in internal_ingest_disconnect, at its event, and gone. */
  datatype StatusPhase = Polling | Dropping | Dropped | Cleaning | Notifying | Exited

  /** A thread that may hold a mutex: one of the application's, of which the first disconnect, or the
      status thread. */
  datatype Tid = App(i: nat) | StatusThread

  /** Where the owner of disconnect_mutex is. */
  datatype Pc =
    | CheckConnected | CheckReady | LockAudio | LockVideo | ClearReady | UnlockVideo | UnlockAudio
    | Get(f: Flag) | Clear(f: Flag) | Post(f: Flag) | Join(t: Thread)
    | CloseMedia | FreeSlots | GetConnected | ClearConnected | SendDisconnect | CloseIngest | Notify | Leave

  /** The one call of media_send_audio or media_send_video that has the mutex: none, before its check
      of the ready flag, or behind it. */
  datatype Call = Outside | Entered | InUse

  /** A media mutex. It is recursive: its holder takes it again, and it is free at depth 0. */
  datatype Lock = Lock(holder: Option<Tid>, depth: nat, call: Call)

  const FREE := Lock(None, 0, Outside)

  datatype Event =
    | Joined(t: Thread) | MediaClosed | SlotsFreed | DisconnectSent | IngestClosed | ApiNotified | StatusNotified

  /** What the connection is made of. */
  datatype Parts = Parts(ready: bool, connected: bool, mediaOpen: bool, slots: bool, ingestOpen: bool)

  /** The worker threads, the semaphores the two senders wait on, and the packets not yet picked. */
  datatype Pool = Pool(
    blocked: set<Thread>, working: set<Thread>, exited: set<Thread>,
    audioSem: nat, videoSem: nat, audioQueue: int, videoQueue: int)

  datatype State = State(
    callers: seq<Caller>, status: StatusPhase, owner: Option<Tid>, pc: Pc, torn: bool,
    parts: Parts, flags: set<Flag>, audio: Lock, video: Lock, pool: Pool, events: multiset<Event>)

  /** A connection with media set up, n threads about to disconnect it, and maybe a bitrate thread. */
  function Init(n: nat, bitrate: bool): State {
    State(seq(n, i => Waiting), Polling, None, Leave, false,
          Parts(true, true, true, true, true),
          {PingFlag, TxFlag, RxFlag, KeepaliveFlag, StatusFlag} + (if bitrate then {BitrateFlag} else {}),
          FREE, FREE, Pool({VideoTx, AudioTx}, {}, if bitrate then {} else {Bitrate}, 0, 0, 0, 0), multiset{})
  }

  // ---------------------------------------------------------------------------
  // Steps
  // ---------------------------------------------------------------------------

  datatype Step =
    | Enter(i: nat)                   // a caller gets disconnect_mutex
    | Body                            // the owner of disconnect_mutex moves on
    | StatusStep(error: bool)         // the status thread moves on, outside the mutex
    | Work(t: Thread)                 // a worker moves on
    | Start(video: bool, who: nat)    // a thread calls media_send_audio or media_send_video and gets the mutex
    | CallStep(video: bool, more: bool)  // the call that has the mutex moves on; more says there is data left

  predicate Gone(s: State, t: Thread) {
    if t == Status then s.status == Exited else t in s.pool.exited
  }

  predicate CanLock(l: Lock, t: Tid) {
    l.holder == None || l.holder == Some(t)
  }

  predicate InCall(l: Lock, t: Tid) {
    l.call != Outside && l.holder == Some(t)
  }

  predicate BodyEnabled(s: State) {
    && s.owner.Some?
    && (s.owner.value.App? ==> s.owner.value.i < |s.callers|)
    && (s.pc == LockAudio ==> CanLock(s.audio, s.owner.value))
    && (s.pc == LockVideo ==> CanLock(s.video, s.owner.value))
    && (s.pc.Join? ==> Gone(s, s.pc.t))
  }

  predicate CanEnter(s: State, i: nat) {
    && i < |s.callers| && s.callers[i] == Waiting && s.owner == None
    && !InCall(s.audio, App(i)) && !InCall(s.video, App(i))
  }

  predicate StatusEnabled(s: State) {
    s.status != Cleaning && s.status != Exited
  }

  predicate CanWork(p: Pool, t: Thread) {
    && t != Status && t !in p.exited
    && (t in p.blocked && t == VideoTx ==> p.videoSem > 0)
    && (t in p.blocked && t == AudioTx ==> p.audioSem > 0)
  }

  function LockOf(s: State, video: bool): Lock {
    if video then s.video else s.audio
  }

  /** os_trylock_mutex succeeds in a thread that is in no other call and not disconnecting. */
  predicate CanStart(s: State, video: bool, who: nat) {
    && LockOf(s, video).call == Outside && CanLock(LockOf(s, video), App(who))
    && !InCall(LockOf(s, !video), App(who))
    && (who < |s.callers| ==> s.callers[who] != Disconnecting)
  }

  predicate CallEnabled(s: State, video: bool) {
    LockOf(s, video).call != Outside
  }

  predicate Enabled(s: State, step: Step) {
    match step
    case Enter(i) => CanEnter(s, i)
    case Body => BodyEnabled(s)
    case StatusStep(error) => StatusEnabled(s)
    case Work(t) => CanWork(s.pool, t)
    case Start(video, who) => CanStart(s, video, who)
    case CallStep(video, more) => CallEnabled(s, video)
  }

  function AfterJoin(t: Thread): Pc {
    match t
    case Ping => Get(TxFlag)
    case VideoTx => Join(AudioTx)
    case AudioTx => Get(RxFlag)
    case Rx => CloseMedia
    case Keepalive => Get(StatusFlag)
    case Status => Get(BitrateFlag)
    case Bitrate => GetConnected
  }

  function FirstJoin(f: Flag): Thread {
    match f
    case PingFlag => Ping
    case TxFlag => VideoTx
    case RxFlag => Rx
    case KeepaliveFlag => Keepalive
    case StatusFlag => Status
    case BitrateFlag => Bitrate
  }

  function Skip(f: Flag): Pc {
    if f == TxFlag then Get(RxFlag) else AfterJoin(FirstJoin(f))
  }

  /** Where the owner goes next. */
  function Next(s: State): Pc {
    match s.pc
    case CheckConnected => if s.parts.connected then CheckReady else Leave
    case CheckReady => if s.parts.ready then LockAudio else Get(KeepaliveFlag)
    case LockAudio => LockVideo
    case LockVideo => ClearReady
    case ClearReady => UnlockVideo
    case UnlockVideo => UnlockAudio
    case UnlockAudio => Get(PingFlag)
    case Get(f) => if f in s.flags then Clear(f) else Skip(f)
    case Clear(f) => Post(f)
    case Post(f) => Join(FirstJoin(f))
    case Join(t) => AfterJoin(t)
    case CloseMedia => FreeSlots
    case FreeSlots => Get(KeepaliveFlag)
    case GetConnected => if s.parts.connected then ClearConnected else CloseIngest
    case ClearConnected => SendDisconnect
    case SendDisconnect => CloseIngest
    case CloseIngest => if s.owner.Some? && s.owner.value.App? then Notify else Leave
    case Notify => Leave
    case Leave => Leave
  }

  /** What a step of the body does to the connection. */
  function Take(p: Parts, pc: Pc): Parts {
    match pc
    case ClearReady => p.(ready := false)
    case ClearConnected => p.(connected := false)
    case CloseMedia => p.(mediaOpen := false)
    case FreeSlots => p.(slots := false)
    case CloseIngest => p.(ingestOpen := false)
    case _ => p
  }

  /** What a step of the body does that must happen once: a socket that is closed already stays as it is. */
  function Does(p: Parts, pc: Pc): Option<Event> {
    match pc
    case Join(t) => Some(Joined(t))
    case CloseMedia => if p.mediaOpen then Some(MediaClosed) else None
    case FreeSlots => if p.slots then Some(SlotsFreed) else None
    case SendDisconnect => Some(DisconnectSent)
    case CloseIngest => if p.ingestOpen then Some(IngestClosed) else None
    case Notify => Some(ApiNotified)
    case _ => None
  }

  function Log(events: multiset<Event>, e: Option<Event>): multiset<Event> {
    if e == None then events else events + multiset{e.value}
  }

  function Acquire(l: Lock, t: Tid): Lock {
    l.(holder := Some(t), depth := l.depth + 1)
  }

  function Release(l: Lock): Lock {
    if l.depth <= 1 then l.(holder := None, depth := 0) else l.(depth := l.depth - 1)
  }

  /** ftl_ingest_disconnect, internal_ingest_disconnect, media_destroy and _ingest_disconnect. */
  function BodyStep(s: State): State
    requires BodyEnabled(s)
  {
    if s.pc == Leave then
      match s.owner.value
      case App(i) => s.(owner := None, callers := s.callers[i := Returned])
      case StatusThread => s.(owner := None, status := Notifying)
    else
      s.(pc := Next(s), parts := Take(s.parts, s.pc), events := Log(s.events, Does(s.parts, s.pc)),
         flags := if s.pc.Clear? then s.flags - {s.pc.f} else s.flags,
         audio := if s.pc == LockAudio then Acquire(s.audio, s.owner.value)
                  else if s.pc == UnlockAudio then Release(s.audio) else s.audio,
         video := if s.pc == LockVideo then Acquire(s.video, s.owner.value)
                  else if s.pc == UnlockVideo then Release(s.video) else s.video,
         pool := if s.pc == Post(TxFlag) then s.pool.(videoSem := s.pool.videoSem + 1, audioSem := s.pool.audioSem + 1)
                 else s.pool,
         torn := s.torn || s.pc == CloseIngest)
  }

  /** connection_status_thread, outside internal_ingest_disconnect; error says what its poll finds. */
  function StatusMoves(s: State, error: bool): State
    requires StatusEnabled(s)
  {
    match s.status
    case Polling =>
      if StatusFlag !in s.flags then s.(status := Exited)
      else if error then s.(status := Dropping) else s
    case Dropping => s.(flags := s.flags - {StatusFlag}, status := Dropped)
    case Dropped =>
      if s.owner == None then s.(owner := Some(StatusThread), pc := CheckReady, status := Cleaning)
      else s.(status := Notifying)
    case Notifying => s.(events := s.events + multiset{StatusNotified}, status := Exited)
  }

  /** One turn of a worker's loop is: wait on its semaphore (the senders), test its flag, work. A sender
      begins its work by picking the next packet. */
  function Works(p: Pool, flags: set<Flag>, t: Thread): Pool
    requires CanWork(p, t)
  {
    if t in p.working then
      p.(working := p.working - {t}, blocked := if FlagOf(t) == TxFlag then p.blocked + {t} else p.blocked)
    else if t in p.blocked then
      p.(blocked := p.blocked - {t},
         videoSem := if t == VideoTx then p.videoSem - 1 else p.videoSem,
         audioSem := if t == AudioTx then p.audioSem - 1 else p.audioSem)
    else if FlagOf(t) in flags then
      p.(working := p.working + {t},
         videoQueue := if t == VideoTx then p.videoQueue - 1 else p.videoQueue,
         audioQueue := if t == AudioTx then p.audioQueue - 1 else p.audioQueue)
    else p.(exited := p.exited + {t})
  }

  /** What the ring of a medium holds when claiming one more slot fails. */
  const FULL := Ring.NACK_RB_SIZE - 1

  predicate RingFull(p: Pool, video: bool) {
    (if video then p.videoQueue else p.audioQueue) == FULL
  }

  /**
   * The mutex behind a step of the call that has it: the ready flag is tested, then packet after packet
   * is queued. With no data left, and in the video call on a full ring, the call ends and the mutex is
   * unlocked; the audio call ends on a full ring without unlocking it.
   */
  function NextLock(l: Lock, video: bool, ready: bool, more: bool, full: bool): Lock {
    if l.call == Entered then if ready then l.(call := InUse) else Release(l).(call := Outside)
    else if !more || (full && video) then Release(l).(call := Outside)
    else if full then l.(call := Outside)
    else l
  }

  function NextPool(p: Pool, l: Lock, video: bool, more: bool): Pool {
    if l.call != InUse || !more || RingFull(p, video) then p
    else if video then p.(videoQueue := p.videoQueue + 1, videoSem := p.videoSem + 1)
    else p.(audioQueue := p.audioQueue + 1, audioSem := p.audioSem + 1)
  }

  function Starts(s: State, video: bool, who: nat): State {
    var l := Acquire(LockOf(s, video), App(who)).(call := Entered);
    if video then s.(video := l) else s.(audio := l)
  }

  function Calls(s: State, video: bool, more: bool): State {
    var l := NextLock(LockOf(s, video), video, s.parts.ready, more, RingFull(s.pool, video));
    var p := NextPool(s.pool, LockOf(s, video), video, more);
    if video then s.(video := l, pool := p) else s.(audio := l, pool := p)
  }

  /** os_lock_mutex of ftl_ingest_disconnect. */
  function Enters(s: State, i: nat): State
    requires CanEnter(s, i)
  {
    s.(callers := s.callers[i := Disconnecting], owner := Some(App(i)), pc := CheckConnected)
  }

  function Apply(s: State, step: Step): State
    requires Enabled(s, step)
  {
    match step
    case Enter(i) => Enters(s, i)
    case Body => BodyStep(s)
    case StatusStep(error) => StatusMoves(s, error)
    case Work(t) => s.(pool := Works(s.pool, s.flags, t))
    case Start(video, who) => Starts(s, video, who)
    case CallStep(video, more) => Calls(s, video, more)
  }

  function Run(s: State, steps: seq<Step>): Option<State>
    decreases |steps|
  {
    if steps == [] then Some(s)
    else if Enabled(s, steps[0]) then Run(Apply(s, steps[0]), steps[1..])
    else None
  }

  // ---------------------------------------------------------------------------
  // The invariant
  // ---------------------------------------------------------------------------

  function FlagOrder(f: Flag): nat {
    match f
    case PingFlag => 10
    case TxFlag => 20
    case RxFlag => 30
    case KeepaliveFlag => 40
    case StatusFlag => 50
    case BitrateFlag => 60
  }

  /** The program order of the body. */
  function Order(pc: Pc): nat {
    match pc
    case CheckConnected => 0
    case CheckReady => 1
    case LockAudio => 2
    case LockVideo => 3
    case ClearReady => 4
    case UnlockVideo => 5
    case UnlockAudio => 6
    case Get(f) => FlagOrder(f)
    case Clear(f) => FlagOrder(f) + 1
    case Post(f) => FlagOrder(f) + 2
    case Join(t) => FlagOrder(FlagOf(t)) + if t == AudioTx then 4 else 3
    case CloseMedia => 35
    case FreeSlots => 36
    case GetConnected => 70
    case ClearConnected => 71
    case SendDisconnect => 72
    case CloseIngest => 73
    case Notify => 74
    case Leave => 75
  }

  function EventOrder(e: Event): nat {
    match e
    case Joined(t) => Order(Join(t))
    case MediaClosed => Order(CloseMedia)
    case SlotsFreed => Order(FreeSlots)
    case DisconnectSent => Order(SendDisconnect)
    case IngestClosed => Order(CloseIngest)
    case ApiNotified => Order(Notify)
    case StatusNotified => 0
  }

  /** How far the one teardown that finds the connection has come. */
  function Progress(s: State): nat {
    if s.torn then 100 else if s.owner == None then 0 else Order(s.pc)
  }

  ghost predicate Ownership(s: State) {
    && (forall i | 0 <= i < |s.callers| :: s.callers[i] == Disconnecting <==> s.owner == Some(App(i)))
    && (s.owner.Some? && s.owner.value.App? ==> s.owner.value.i < |s.callers|)
    && (s.status == Cleaning <==> s.owner == Some(StatusThread))
  }

  /** The thread that tears down has taken the mutex. */
  predicate DestroysAudio(s: State) {
    s.owner.Some? && (s.pc == LockVideo || s.pc == ClearReady || s.pc == UnlockVideo || s.pc == UnlockAudio)
  }

  predicate DestroysVideo(s: State) {
    s.owner.Some? && (s.pc == ClearReady || s.pc == UnlockVideo)
  }

  function Count(b: bool): nat {
    if b then 1 else 0
  }

  /** How often the audio mutex was taken by calls that are over. */
  function Leaks(s: State): int {
    s.audio.depth - Count(s.audio.call != Outside) - Count(DestroysAudio(s))
  }

  /** A mutex has a holder unless it is free, and the thread in a call is not disconnecting. */
  ghost predicate LockOk(l: Lock, callers: seq<Caller>) {
    && (l.holder == None <==> l.depth == 0)
    && (l.call != Outside ==> l.holder.Some? && l.holder.value.App?)
    && (l.call != Outside && l.holder.value.i < |callers| ==> callers[l.holder.value.i] != Disconnecting)
  }

  ghost predicate MediaLocks(s: State) {
    && LockOk(s.audio, s.callers) && LockOk(s.video, s.callers)
    && (DestroysAudio(s) ==> s.audio.call == Outside && s.audio.holder == s.owner)
    && (DestroysVideo(s) ==> s.video.call == Outside && s.video.holder == s.owner)
    && s.video.depth == Count(s.video.call != Outside) + Count(DestroysVideo(s))
    && Leaks(s) >= 0 && (Leaks(s) > 0 ==> s.audio.holder.Some? && s.audio.holder.value.App?)
    && (s.audio.call == InUse || s.video.call == InUse ==> s.parts.ready)
  }

  /** A sender between its wait and its test of the flag. */
  predicate Woken(o: Pool, t: Thread) {
    t !in o.blocked && t !in o.working && t !in o.exited
  }

  /** As long as the senders run, every packet not yet picked is posted or has woken its sender. */
  ghost predicate Queues(o: Pool, flags: set<Flag>) {
    TxFlag in flags ==>
      && 0 <= o.audioQueue == o.audioSem + Count(Woken(o, AudioTx)) <= FULL
      && 0 <= o.videoQueue == o.videoSem + Count(Woken(o, VideoTx)) <= FULL
  }

  /** The threads, and what is left of them when the teardown is at p. */
  ghost predicate Workers(o: Pool, flags: set<Flag>, p: nat) {
    && Status !in o.working && Status !in o.blocked && Status !in o.exited
    && (forall t | t in o.exited :: t !in o.working && t !in o.blocked && FlagOf(t) !in flags)
    && (forall t | t in o.blocked :: (t == VideoTx || t == AudioTx) && t !in o.working)
    && (p > 22 && (VideoTx in o.blocked || VideoTx in o.working) ==> o.videoSem > 0)
    && (p > 22 && (AudioTx in o.blocked || AudioTx in o.working) ==> o.audioSem > 0)
    && (p > 13 ==> Ping in o.exited) && (p > 23 ==> VideoTx in o.exited) && (p > 24 ==> AudioTx in o.exited)
    && (p > 33 ==> Rx in o.exited) && (p > 43 ==> Keepalive in o.exited)
    && ((p <= 61 && BitrateFlag !in flags) || p > 63 ==> Bitrate in o.exited)
    && Queues(o, flags)
  }

  /** The state flags, and what is left of them when the teardown is at p. */
  ghost predicate Flags(flags: set<Flag>, p: nat) {
    && (PingFlag in flags <==> p <= 11) && (TxFlag in flags <==> p <= 21) && (RxFlag in flags <==> p <= 31)
    && (KeepaliveFlag in flags <==> p <= 41)
    && (p > 51 ==> StatusFlag !in flags) && (p > 61 ==> BitrateFlag !in flags)
  }

  /** The connection, when the teardown is at p. */
  ghost predicate Left(s: Parts, p: nat) {
    && (s.ready <==> p <= 4) && (s.connected <==> p <= 71)
    && (s.mediaOpen <==> p <= 35) && (s.slots <==> p <= 36) && (s.ingestOpen <==> p <= 73)
  }

  ghost predicate Watch(s: State) {
    && (s.status == Polling || s.status == Dropping ==>
        StatusFlag in s.flags || (s.owner.Some? && (s.pc == Post(StatusFlag) || s.pc == Join(Status))))
    && (s.status != Polling && s.status != Dropping ==> StatusFlag !in s.flags)
    && (s.status == Notifying || s.status == Exited ==> s.torn || s.owner.Some?)
    && (s.owner == Some(StatusThread) ==>
        && s.pc != CheckConnected && s.pc != Notify
        && s.pc != Clear(StatusFlag) && s.pc != Post(StatusFlag) && s.pc != Join(Status))
  }

  /** Whoever comes to the body after it has been torn down finds nothing left to do. */
  ghost predicate LateComers(s: State) {
    s.torn && s.owner.Some? ==>
      || s.pc == Leave
      || (s.owner.value.App? && (s.pc == CheckConnected || s.pc == Notify))
      || (s.owner.value.StatusThread? && (s.pc == CheckReady || s.pc == GetConnected || s.pc == CloseIngest))
      || (s.owner.value.StatusThread? && s.pc.Get? && 40 <= Order(s.pc))
  }

  ghost predicate InBody(s: State) {
    !s.torn && s.owner.Some? ==> s.pc != Notify && s.pc != Leave
  }

  /** Nothing happens twice. */
  ghost predicate Once(events: multiset<Event>) {
    forall e :: events[e] <= 1
  }

  /** What the body has passed has happened; the status and bitrate threads are not always joined. */
  ghost predicate Recorded(events: multiset<Event>, p: nat) {
    && (p > 13 ==> Joined(Ping) in events) && (p > 23 ==> Joined(VideoTx) in events)
    && (p > 24 ==> Joined(AudioTx) in events) && (p > 33 ==> Joined(Rx) in events)
    && (p > 35 ==> MediaClosed in events) && (p > 36 ==> SlotsFreed in events)
    && (p > 43 ==> Joined(Keepalive) in events)
    && (p > 72 ==> DisconnectSent in events) && (p > 73 ==> IngestClosed in events)
  }

  /** Whoever tore the connection down tells it. */
  ghost predicate WillTell(s: State) {
    s.torn ==>
      || ApiNotified in s.events || (s.owner.Some? && s.owner.value.App? && s.pc == Notify)
      || s.status == Cleaning || s.status == Notifying || StatusNotified in s.events
  }

  /** Only what the body has passed has happened. */
  ghost predicate Passed(events: multiset<Event>, p: nat) {
    forall e | e in events && e != StatusNotified :: EventOrder(e) < p
  }

  ghost predicate Told(s: State) {
    && (StatusNotified in s.events ==> s.status == Exited)
    && (ApiNotified in s.events ==> s.torn && !(s.owner.Some? && s.pc == Notify))
  }

  /** Who has been joined is gone. */
  ghost predicate JoinsDone(s: State) {
    forall t | Joined(t) in s.events :: Gone(s, t)
  }

  ghost predicate Events(s: State) {
    && Once(s.events) && Passed(s.events, Progress(s)) && Told(s) && JoinsDone(s)
    && Recorded(s.events, Progress(s)) && WillTell(s)
  }

  /** No one comes back from ftl_ingest_disconnect to a connection that is still there. */
  ghost predicate Returns(s: State) {
    forall i | 0 <= i < |s.callers| :: s.callers[i] == Returned ==> s.torn
  }

  ghost predicate Inv(s: State) {
    && Returns(s) && Ownership(s) && MediaLocks(s) && Watch(s) && LateComers(s) && InBody(s) && Events(s)
    && Workers(s.pool, s.flags, Progress(s)) && Flags(s.flags, Progress(s)) && Left(s.parts, Progress(s))
  }

  lemma InitInv(n: nat, bitrate: bool)
    ensures Inv(Init(n, bitrate))
  {
  }

  lemma StatusOwnership(s: State, error: bool)
    requires Inv(s) && StatusEnabled(s)
    ensures var q := StatusMoves(s, error); Ownership(q)
  {
    hide MediaLocks, LateComers, InBody, Events, Workers, Flags, Left;
  }

  lemma StatusMediaLocks(s: State, error: bool)
    requires Inv(s) && StatusEnabled(s)
    ensures var q := StatusMoves(s, error); MediaLocks(q)
  {
    hide Watch, LateComers, InBody, Events, Workers, Flags, Left, Progress, Order;
  }

  lemma StatusWatch(s: State, error: bool)
    requires Inv(s) && StatusEnabled(s)
    ensures var q := StatusMoves(s, error); Watch(q)
  {
    hide MediaLocks, LateComers, InBody, Events, Workers, Flags, Left, Progress, Order;
  }

  lemma StatusLateComers(s: State, error: bool)
    requires Inv(s) && StatusEnabled(s)
    ensures var q := StatusMoves(s, error); LateComers(q)
  {
    hide MediaLocks, Events, Workers;
  }

  lemma StatusInBody(s: State, error: bool)
    requires Inv(s) && StatusEnabled(s)
    ensures var q := StatusMoves(s, error); InBody(q)
  {
    hide MediaLocks, Watch, LateComers, Events, Workers, Flags;
  }

  lemma StatusProgress(s: State, error: bool)
    requires Inv(s) && StatusEnabled(s)
    ensures var q := StatusMoves(s, error); Progress(q) == Progress(s) || (Progress(s) == 0 && Progress(q) == 1)
  {
    hide Ownership, MediaLocks, Watch, LateComers, InBody, Workers, Flags, Left, Events;
  }

  lemma Begins(events: multiset<Event>)
    requires Passed(events, 0)
    ensures Passed(events, 1) && Recorded(events, 1)
  {
    hide EventOrder;
  }

  lemma StatusOnce(s: State, error: bool)
    requires Inv(s) && StatusEnabled(s)
    ensures var q := StatusMoves(s, error);
            Once(q.events) && Passed(q.events, Progress(q)) && Recorded(q.events, Progress(q))
  {
    hide Ownership, MediaLocks, Watch, LateComers, InBody, Workers, Flags, Left, JoinsDone, WillTell, Once;
    hide Passed, Recorded, Order, EventOrder, Progress;
    StatusProgress(s, error);
    if s.status == Notifying {
      LogOnce(s.events, Some(StatusNotified), Progress(s), Progress(s));
      RecordedMore(s.events, Some(StatusNotified), Progress(s));
    }
    var q := StatusMoves(s, error);
    if Progress(q) != Progress(s) {
      Begins(q.events);
    }
  }

  lemma StatusTold(s: State, error: bool)
    requires Inv(s) && StatusEnabled(s)
    ensures var q := StatusMoves(s, error); Told(q) && JoinsDone(q) && WillTell(q)
  {
    hide Ownership, MediaLocks, Watch, LateComers, InBody, Workers, Flags, Left, Once, Passed, Recorded;
    hide Order, EventOrder, Progress;
    LogMembers(s.events, Some(StatusNotified));
  }

  lemma StatusEvents(s: State, error: bool)
    requires Inv(s) && StatusEnabled(s)
    ensures Events(StatusMoves(s, error))
  {
    hide Inv, StatusMoves, StatusEnabled, Once, Passed, Recorded, Told, JoinsDone, WillTell, Progress;
    StatusOnce(s, error);
    StatusTold(s, error);
  }

  lemma StatusWorkers(s: State, error: bool)
    requires Inv(s) && StatusEnabled(s)
    ensures var q := StatusMoves(s, error); Workers(q.pool, q.flags, Progress(q))
  {
    hide Ownership, MediaLocks, Events, Flags, Left;
  }

  lemma StatusFlags(s: State, error: bool)
    requires Inv(s) && StatusEnabled(s)
    ensures var q := StatusMoves(s, error); Flags(q.flags, Progress(q))
  {
    hide Ownership, MediaLocks, Events, Left;
  }

  lemma StatusLeft(s: State, error: bool)
    requires Inv(s) && StatusEnabled(s)
    ensures var q := StatusMoves(s, error); Left(q.parts, Progress(q))
  {
    hide Ownership, MediaLocks, Events, Workers;
  }

  /** A step of the body goes forward, and has nothing left to do once the connection is torn down. */
  lemma BodyProgress(s: State)
    requires Inv(s) && BodyEnabled(s)
    ensures var q := BodyStep(s);
            if s.torn then
              && Progress(s) == 100 && Progress(q) == 100
              && q.parts == s.parts && q.flags == s.flags && q.pool == s.pool
              && (s.pc != Notify ==> q.events == s.events)
            else
              && s.pc != Leave && s.pc != Notify && Progress(s) == Order(s.pc) < Progress(q)
              && Progress(q) == After(s)
  {
    hide Inv, Order, Next, BodyStep;
    if s.torn {
      LateStep(s);
    } else {
      FirstStep(s);
    }
  }

  lemma LateStep(s: State)
    requires Inv(s) && BodyEnabled(s) && s.torn
    ensures var q := BodyStep(s);
            && Progress(s) == 100 && Progress(q) == 100
            && q.parts == s.parts && q.flags == s.flags && q.pool == s.pool
            && (s.pc != Notify ==> q.events == s.events)
  {
    hide Ownership, MediaLocks, Watch, Events, Workers, Flags, InBody, Order;
  }

  lemma FirstStep(s: State)
    requires Inv(s) && BodyEnabled(s) && !s.torn
    ensures var q := BodyStep(s);
            && s.pc != Leave && s.pc != Notify && Progress(s) == Order(s.pc) < Progress(q)
            && Progress(q) == After(s)
  {
    Advances(s);
    hide Ownership, MediaLocks, Watch, Events, Workers, LateComers, Flags, Left, Order, Next, Take, Does, Log;
  }

  lemma Advances(s: State)
    requires Inv(s) && BodyEnabled(s) && !s.torn
    ensures s.pc != CloseIngest ==> Order(s.pc) < Order(Next(s)) < 74
    ensures Order(s.pc) < 74
  {
    hide Ownership, MediaLocks, Watch, Events, Workers, LateComers, Flags;
  }

  lemma BodyOwnership(s: State)
    requires Inv(s) && BodyEnabled(s)
    ensures var q := BodyStep(s); Ownership(q)
  {
    hide MediaLocks, LateComers, InBody, Events, Workers, Flags, Left, Does, Log, Take, Next;
  }

  /** What a step of the body does to the media mutexes. */
  lemma BodyLocks(s: State)
    requires BodyEnabled(s) && s.pc != Leave
    ensures var q := BodyStep(s);
            && q.owner == s.owner && q.callers == s.callers && (q.parts.ready <==> s.parts.ready && s.pc != ClearReady)
            && q.audio == (if s.pc == LockAudio then Acquire(s.audio, s.owner.value)
                           else if s.pc == UnlockAudio then Release(s.audio) else s.audio)
            && q.video == (if s.pc == LockVideo then Acquire(s.video, s.owner.value)
                           else if s.pc == UnlockVideo then Release(s.video) else s.video)
            && (DestroysAudio(q) <==> s.pc == LockAudio || (DestroysAudio(s) && s.pc != UnlockAudio))
            && (DestroysVideo(q) <==> s.pc == LockVideo || (DestroysVideo(s) && s.pc != UnlockVideo))
  {
    hide Does, Log, Gone, Acquire, Release;
  }

  lemma BodyMediaLocks(s: State)
    requires Inv(s) && BodyEnabled(s)
    ensures var q := BodyStep(s); MediaLocks(q)
  {
    hide LateComers, InBody, Events, Workers, Flags, Left, Watch, Returns, Progress, Order, Does, Log, Gone;
    if s.pc != Leave {
      BodyLocks(s);
      BodyLocksOk(s);
      hide LockOk, BodyStep, Next, Take;
    }
  }

  lemma BodyLocksOk(s: State)
    requires BodyEnabled(s) && s.pc != Leave && LockOk(s.audio, s.callers) && LockOk(s.video, s.callers)
    requires DestroysAudio(s) ==> s.audio.call == Outside
    requires DestroysVideo(s) ==> s.video.call == Outside
    requires Ownership(s)
    ensures var q := BodyStep(s); LockOk(q.audio, q.callers) && LockOk(q.video, q.callers)
  {
    hide Next, Does, Log, Take, Gone;
  }

  lemma BodyWatch(s: State)
    requires Inv(s) && BodyEnabled(s)
    ensures var q := BodyStep(s); Watch(q)
  {
    hide MediaLocks, LateComers, Events, Workers, Flags, Left, Progress, Order, Take, Does, Log;
  }

  lemma BodyLateComers(s: State)
    requires Inv(s) && BodyEnabled(s)
    ensures var q := BodyStep(s); LateComers(q)
  {
    hide MediaLocks, Events, Workers, Does, Log, Take;
  }

  lemma BodyInBody(s: State)
    requires Inv(s) && BodyEnabled(s)
    ensures var q := BodyStep(s); InBody(q)
  {
    hide MediaLocks, Watch, LateComers, Events, Workers, Flags, Does, Log, Take;
  }

  lemma LogMembers(events: multiset<Event>, e: Option<Event>)
    ensures forall x :: x in Log(events, e) <==> x in events || e == Some(x)
  {
  }

  lemma LogOnce(events: multiset<Event>, e: Option<Event>, p: nat, next: nat)
    requires Once(events) && Passed(events, p) && p <= next
    requires e.Some? ==> e.value !in events && (e.value == StatusNotified || EventOrder(e.value) < next)
    ensures Once(Log(events, e)) && Passed(Log(events, e), next)
  {
    LogMembers(events, e);
  }

  lemma DoesOrder(parts: Parts, pc: Pc)
    ensures var e := Does(parts, pc);
            e.Some? ==>
              && EventOrder(e.value) == Order(pc) && e.value != StatusNotified
              && (e.value == ApiNotified <==> pc == Notify)
              && (e.value.Joined? ==> pc == Join(e.value.t))
  {
  }

  /** What a step of the body leaves alone. */
  lemma BodyFrame(s: State)
    requires BodyEnabled(s) && Ownership(s)
    ensures var q := BodyStep(s);
            && q.pool.exited == s.pool.exited && q.pool.blocked == s.pool.blocked && q.pool.working == s.pool.working
            && (if s.pc == Leave then q.events == s.events && q.torn == s.torn && q.owner == None
                else q.events == Log(s.events, Does(s.parts, s.pc)) && q.torn == (s.torn || s.pc == CloseIngest)
                     && q.owner == s.owner && q.pc == Next(s))
            && (q.status == Exited <==> s.status == Exited)
            && q.status == (if s.pc == Leave && s.owner == Some(StatusThread) then Notifying else s.status)
  {
  }

  lemma NextIsNotify(s: State)
    ensures Next(s) == Notify ==> s.pc == CloseIngest && s.owner.Some? && s.owner.value.App?
  {
  }

  lemma BodyEvents(s: State)
    requires Inv(s) && BodyEnabled(s)
    ensures Events(BodyStep(s))
  {
    hide Ownership, MediaLocks, Watch, LateComers, InBody, Workers, Flags, Left;
    hide Progress, Order, Once, Passed, Told, JoinsDone, Recorded, WillTell, BodyStep, BodyEnabled;
    BodyOnce(s);
    BodyTold(s);
    BodyJoinsDone(s);
    BodyRecorded(s);
    BodyWillTell(s);
  }

  lemma RecordedForward(s: State)
    requires Flags(s.flags, Order(s.pc)) && Left(s.parts, Order(s.pc)) && s.pc != Leave && s.pc != Notify
    requires Recorded(s.events, Order(s.pc))
    ensures Recorded(Log(s.events, Does(s.parts, s.pc)), After(s))
  {
    LogMembers(s.events, Does(s.parts, s.pc));
    hide Log;
  }

  lemma RecordedMore(events: multiset<Event>, e: Option<Event>, p: nat)
    requires Recorded(events, p)
    ensures Recorded(Log(events, e), p)
  {
    LogMembers(events, e);
    hide Log;
  }

  lemma BodyRecorded(s: State)
    requires Inv(s) && BodyEnabled(s)
    ensures Recorded(BodyStep(s).events, Progress(BodyStep(s)))
  {
    BodyProgress(s);
    BodyFrame(s);
    hide Ownership, MediaLocks, Watch, LateComers, InBody, Workers, Flags, Left, JoinsDone, Once, Passed;
    hide Told, WillTell;
    hide Progress, Order, EventOrder, Does, Next, Take, Recorded, BodyStep, Log, After;
    if !s.torn {
      RecordedForward(s);
    } else if s.pc == Notify {
      RecordedMore(s.events, Does(s.parts, s.pc), 100);
    }
  }

  lemma Tells(s: State)
    ensures s.pc == Notify ==> Does(s.parts, s.pc) == Some(ApiNotified)
    ensures s.pc == CloseIngest && s.owner.Some? && s.owner.value.App? ==> Next(s) == Notify
  {
  }

  lemma BodyWillTell(s: State)
    requires Inv(s) && BodyEnabled(s)
    ensures WillTell(BodyStep(s))
  {
    hide MediaLocks, Watch, LateComers, Workers, Flags, Left, JoinsDone, Once, Passed, Recorded;
    hide Log, Order, EventOrder, Progress, BodyStep, Does, Next;
    BodyFrame(s);
    Tells(s);
    LogMembers(s.events, Does(s.parts, s.pc));
  }

  lemma NotYet(events: multiset<Event>, e: Event, p: nat)
    requires Passed(events, p) && EventOrder(e) >= p && e != StatusNotified
    ensures e !in events
  {
  }

  /** A step of the first teardown does something that has not been done. */
  lemma DoesFresh(s: State)
    requires Inv(s) && BodyEnabled(s) && !s.torn
    ensures var e := Does(s.parts, s.pc);
            e.Some? ==> e.value !in s.events && EventOrder(e.value) < Progress(BodyStep(s))
  {
    hide Ownership, MediaLocks, Watch, LateComers, InBody, Workers, Flags, Left, JoinsDone, Recorded;
    hide WillTell, Told, Once;
    hide Progress, Order, EventOrder, Does, Passed, BodyStep, BodyEnabled;
    BodyProgress(s);
    DoesOrder(s.parts, s.pc);
    var e := Does(s.parts, s.pc);
    if e.Some? {
      NotYet(s.events, e.value, Progress(s));
    }
  }

  lemma NotifyFresh(s: State)
    requires Inv(s) && BodyEnabled(s) && s.pc == Notify
    ensures Does(s.parts, s.pc) == Some(ApiNotified) && ApiNotified !in s.events && EventOrder(ApiNotified) < 100
  {
    hide Ownership, MediaLocks, Watch, LateComers, InBody, Workers, Flags, Left, JoinsDone, Recorded;
    hide WillTell, Once, Passed;
  }

  lemma BodyOnce(s: State)
    requires Inv(s) && BodyEnabled(s)
    ensures Once(BodyStep(s).events) && Passed(BodyStep(s).events, Progress(BodyStep(s)))
  {
    hide Ownership, MediaLocks, Watch, LateComers, InBody, Workers, Flags, Left, JoinsDone, Recorded, WillTell, Told;
    hide Progress, Order, EventOrder, Does, Next, Take, Once, Passed, BodyStep, BodyEnabled, Log;
    BodyProgress(s);
    BodyFrame(s);
    if !s.torn {
      DoesFresh(s);
      LogOnce(s.events, Does(s.parts, s.pc), Progress(s), Progress(BodyStep(s)));
    } else if s.pc == Notify {
      NotifyFresh(s);
      LogOnce(s.events, Does(s.parts, s.pc), Progress(s), Progress(BodyStep(s)));
    }
  }

  lemma BodyTold(s: State)
    requires Inv(s) && BodyEnabled(s)
    ensures Told(BodyStep(s))
  {
    assert s.owner.Some?;
    hide MediaLocks, Watch, Workers, Flags, Left, JoinsDone, Passed, Recorded, WillTell;
    hide Progress, Order, EventOrder, Does, Next, Take, Once, BodyStep, BodyEnabled, Log;
    BodyProgress(s);
    BodyFrame(s);
    DoesOrder(s.parts, s.pc);
    NextIsNotify(s);
    if s.pc != Leave {
      LogMembers(s.events, Does(s.parts, s.pc));
    }
  }

  lemma BodyJoinsDone(s: State)
    requires Inv(s) && BodyEnabled(s)
    ensures JoinsDone(BodyStep(s))
  {
    BodyFrame(s);
    DoesOrder(s.parts, s.pc);
    hide Ownership, MediaLocks, Watch, LateComers, InBody, Workers, Flags, Left, Passed, Told;
    hide Progress, Order, EventOrder, Does, Next, Take, Once, BodyStep, Log;
    if s.pc != Leave {
      LogMembers(s.events, Does(s.parts, s.pc));
    }
  }

  function FlagsAfter(s: State): set<Flag> {
    if s.pc.Clear? then s.flags - {s.pc.f} else s.flags
  }

  function PoolAfter(s: State): Pool {
    if s.pc == Post(TxFlag) then s.pool.(videoSem := s.pool.videoSem + 1, audioSem := s.pool.audioSem + 1) else s.pool
  }

  /** Where the teardown is behind a step of the body. */
  function After(s: State): nat {
    if s.pc == CloseIngest then 100 else Order(Next(s))
  }

  lemma FlagsForward(s: State)
    requires Flags(s.flags, Order(s.pc)) && Left(s.parts, Order(s.pc)) && s.pc != Leave && s.pc != Notify
    requires s.pc == Post(StatusFlag) || s.pc == Join(Status) ==> StatusFlag !in s.flags
    ensures Flags(FlagsAfter(s), After(s))
  {
  }

  lemma LeftForward(s: State)
    requires Flags(s.flags, Order(s.pc)) && Left(s.parts, Order(s.pc)) && s.pc != Leave && s.pc != Notify
    ensures Left(Take(s.parts, s.pc), After(s))
  {
  }

  lemma WorkersForward(s: State)
    requires Workers(s.pool, s.flags, Order(s.pc)) && Flags(s.flags, Order(s.pc)) && Left(s.parts, Order(s.pc))
    requires s.pc != Leave && s.pc != Notify && (s.pc.Join? ==> Gone(s, s.pc.t))
    ensures Workers(PoolAfter(s), FlagsAfter(s), After(s))
  {
  }

  lemma BodyTakes(s: State)
    requires BodyEnabled(s) && s.pc != Leave
    ensures var q := BodyStep(s); q.flags == FlagsAfter(s) && q.parts == Take(s.parts, s.pc) && q.pool == PoolAfter(s)
  {
  }

  lemma StatusFlagGone(s: State)
    requires Inv(s) && s.owner.Some? && !s.torn && (s.pc == Post(StatusFlag) || s.pc == Join(Status))
    ensures StatusFlag !in s.flags
  {
    hide Ownership, MediaLocks, Watch, LateComers, InBody, Events, Workers, Left;
  }

  /** The body keeps what is left in step with how far it has come. */
  lemma BodyForward(s: State)
    requires Inv(s) && BodyEnabled(s)
    ensures var q := BodyStep(s);
            Workers(q.pool, q.flags, Progress(q)) && Flags(q.flags, Progress(q)) && Left(q.parts, Progress(q))
  {
    hide Ownership, MediaLocks, Watch, LateComers, InBody, Events, Workers, Flags, Left;
    hide Progress, Order, Next, Take, PoolAfter, FlagsAfter, BodyStep;
    BodyProgress(s);
    if !s.torn {
      BodyTakes(s);
      if s.pc == Post(StatusFlag) || s.pc == Join(Status) {
        StatusFlagGone(s);
      }
      FlagsForward(s);
      LeftForward(s);
      WorkersForward(s);
    }
  }

  lemma StatusReturns(s: State, error: bool)
    requires Inv(s) && StatusEnabled(s)
    ensures Returns(StatusMoves(s, error))
  {
    hide Ownership, MediaLocks, Watch, LateComers, InBody, Events, Workers, Flags, Left, Progress, Order;
  }

  lemma BodyReturns(s: State)
    requires Inv(s) && BodyEnabled(s)
    ensures Returns(BodyStep(s))
  {
    hide Ownership, MediaLocks, Watch, LateComers, Events, Workers, Flags, Left, Progress, Order, Next, Take, Log, Does;
  }

  lemma StatusKeepsInv(s: State, error: bool)
    requires Inv(s) && StatusEnabled(s)
    ensures Inv(StatusMoves(s, error))
  {
    StatusReturns(s, error);
    hide Returns, Ownership, MediaLocks, Watch, LateComers, InBody, Events, Workers, Flags, Left;
    hide StatusMoves, StatusEnabled, Progress;
    StatusOwnership(s, error);
    StatusMediaLocks(s, error);
    StatusWatch(s, error);
    StatusLateComers(s, error);
    StatusInBody(s, error);
    StatusEvents(s, error);
    StatusWorkers(s, error);
    StatusFlags(s, error);
    StatusLeft(s, error);
  }

  lemma BodyKeepsInv(s: State)
    requires Inv(s) && BodyEnabled(s)
    ensures Inv(BodyStep(s))
  {
    BodyReturns(s);
    hide Returns, Ownership, MediaLocks, Watch, LateComers, InBody, Events, Workers, Flags, Left, BodyStep;
    hide BodyEnabled, Progress;
    BodyOwnership(s);
    BodyMediaLocks(s);
    BodyWatch(s);
    BodyLateComers(s);
    BodyInBody(s);
    BodyEvents(s);
    BodyForward(s);
  }

  lemma WorkKeepsInv(s: State, t: Thread)
    requires Inv(s) && CanWork(s.pool, t)
    ensures Inv(s.(pool := Works(s.pool, s.flags, t)))
  {
    WorksKeepsWorkers(s.pool, s.flags, t, Progress(s));
    WorkKeepsRest(s, Works(s.pool, s.flags, t));
  }

  lemma WorksKeepsWorkers(o: Pool, flags: set<Flag>, t: Thread, p: nat)
    requires Workers(o, flags, p) && Flags(flags, p) && CanWork(o, t)
    ensures Workers(Works(o, flags, t), flags, p) && o.exited <= Works(o, flags, t).exited
  {
  }

  lemma WorkKeepsRest(s: State, o: Pool)
    requires Inv(s) && s.pool.exited <= o.exited && Workers(o, s.flags, Progress(s))
    ensures Inv(s.(pool := o))
  {
    hide Workers, Flags, Left, Order, EventOrder;
  }

  /** Steps of media callers touch a media mutex and the queues. */
  lemma LocksKeepRest(s: State, audio: Lock, video: Lock, o: Pool)
    requires Inv(s) && o.exited == s.pool.exited && Workers(o, s.flags, Progress(s))
    requires MediaLocks(s.(audio := audio, video := video, pool := o))
    ensures Inv(s.(audio := audio, video := video, pool := o))
  {
    hide Workers, Flags, Left, Order, EventOrder, MediaLocks;
  }

  lemma CallLocks(s: State, video: bool, more: bool)
    requires MediaLocks(s) && CallEnabled(s, video)
    ensures MediaLocks(Calls(s, video, more))
  {
    hide NextPool;
  }

  lemma CallWorkers(o: Pool, flags: set<Flag>, p: nat, l: Lock, video: bool, more: bool)
    requires Workers(o, flags, p) && (l.call == InUse ==> p <= 4)
    ensures var q := NextPool(o, l, video, more); Workers(q, flags, p) && q.exited == o.exited
  {
  }

  lemma InUseIsEarly(s: State)
    requires Inv(s) && (s.audio.call == InUse || s.video.call == InUse)
    ensures Progress(s) <= 4
  {
    hide Events, Workers, Flags, LateComers, InBody, Watch, Ownership, Returns, Progress, Order;
  }

  lemma CallKeepsInv(s: State, video: bool, more: bool)
    requires Inv(s) && CallEnabled(s, video)
    ensures Inv(Calls(s, video, more))
  {
    hide Inv, MediaLocks, Workers, NextPool, NextLock, Progress;
    var q := Calls(s, video, more);
    CallParts(s, video, more);
    LocksKeepRest(s, q.audio, q.video, q.pool);
  }

  lemma CallParts(s: State, video: bool, more: bool)
    requires Inv(s) && CallEnabled(s, video)
    ensures var q := Calls(s, video, more);
            MediaLocks(q) && Workers(q.pool, s.flags, Progress(s)) && q.pool.exited == s.pool.exited
  {
    hide Events, Flags, Left, LateComers, InBody, Watch, Ownership, Returns, Workers, Progress, NextPool, NextLock;
    hide MediaLocks;
    CallLocks(s, video, more);
    if LockOf(s, video).call == InUse {
      InUseIsEarly(s);
    }
    CallWorkers(s.pool, s.flags, Progress(s), LockOf(s, video), video, more);
  }

  lemma StartLocks(s: State, video: bool, who: nat)
    requires MediaLocks(s) && CanStart(s, video, who) && Ownership(s)
    ensures MediaLocks(Starts(s, video, who))
  {
  }

  lemma StartKeepsInv(s: State, video: bool, who: nat)
    requires Inv(s) && CanStart(s, video, who)
    ensures Inv(Starts(s, video, who))
  {
    StartLocks(s, video, who);
    hide Inv, MediaLocks, Workers, Progress;
    var q := Starts(s, video, who);
    assert Workers(s.pool, s.flags, Progress(s)) by { InvWorkers(s); }
    LocksKeepRest(s, q.audio, q.video, s.pool);
  }

  lemma InvWorkers(s: State)
    requires Inv(s)
    ensures Workers(s.pool, s.flags, Progress(s))
  {
    hide Events, Flags, Left, LateComers, InBody, Watch, Ownership, Returns, MediaLocks, Workers, Progress;
  }

  lemma EnterKeepsInv(s: State, i: nat)
    requires Inv(s) && CanEnter(s, i)
    ensures Inv(Enters(s, i))
  {
    hide Workers, Flags, Left, Once, Passed, Recorded, EventOrder;
    assert Order(CheckConnected) == 0;
    hide Order;
  }

  lemma StepKeepsInv(s: State, step: Step)
    requires Inv(s) && Enabled(s, step)
    ensures Inv(Apply(s, step))
  {
    hide Inv, BodyStep, StatusMoves, Works, Calls, Enters, Starts;
    hide BodyEnabled, StatusEnabled, CanWork, CanEnter, CanStart, CallEnabled;
    match step
    case Enter(i) => EnterKeepsInv(s, i);
    case Body => BodyKeepsInv(s);
    case StatusStep(error) => StatusKeepsInv(s, error);
    case Work(t) => WorkKeepsInv(s, t);
    case Start(video, who) => StartKeepsInv(s, video, who);
    case CallStep(video, more) => CallKeepsInv(s, video, more);
  }

  lemma {:induction false} RunKeepsInv(s: State, steps: seq<Step>)
    requires Inv(s) && Run(s, steps).Some?
    ensures Inv(Run(s, steps).value)
    decreases |steps|
  {
    hide Inv, Enabled, Apply;
    if steps != [] {
      StepKeepsInv(s, steps[0]);
      RunKeepsInv(Apply(s, steps[0]), steps[1..]);
    }
  }

  // ---------------------------------------------------------------------------
  // Safety
  // ---------------------------------------------------------------------------

  /** No one is in a ring slot, and those who could get one without a media mutex are gone. */
  predicate NoSlotUser(s: State) {
    && s.audio.call != InUse && s.video.call != InUse
    && VideoTx in s.pool.exited && AudioTx in s.pool.exited && Rx in s.pool.exited
    && VideoTx !in s.pool.working && AudioTx !in s.pool.working && Rx !in s.pool.working
  }

  ghost predicate Safe(s: State) {
    // DISCONNECT is sent, a thread joined, a socket closed and a caller told at most once.
    && Once(s.events)
    && (forall t | Joined(t) in s.events :: Gone(s, t))
    // The status thread does not join itself.
    && !(s.owner == Some(StatusThread) && s.pc == Join(Status))
    // The slots are freed behind their last user, and the sockets closed behind theirs.
    && ((s.owner.Some? && s.pc == FreeSlots) || !s.parts.slots ==> NoSlotUser(s))
    && ((s.owner.Some? && s.pc == CloseMedia) || !s.parts.mediaOpen ==> NoSlotUser(s) && Ping in s.pool.exited)
    && ((s.owner.Some? && s.pc == CloseIngest) || !s.parts.ingestOpen ==>
        Keepalive in s.pool.exited && s.status != Polling)
    // DISCONNECT is sent on an open socket, and the socket is closed behind it.
    && (s.owner.Some? && s.pc == SendDisconnect ==> s.parts.ingestOpen)
    && (!s.parts.ingestOpen ==> s.events[DisconnectSent] == 1)
  }

  lemma InvSafe(s: State)
    requires Inv(s)
    ensures Safe(s)
  {
    if (s.owner.Some? && (s.pc == FreeSlots || s.pc == CloseMedia)) || !s.parts.slots || !s.parts.mediaOpen {
      SlotsSafe(s);
    }
    if (s.owner.Some? && s.pc == CloseIngest) || !s.parts.ingestOpen {
      SocketsSafe(s);
    }
    SentOpen(s);
    hide EventOrder, Order, Flags, Left, Workers, LateComers, MediaLocks, NoSlotUser, Progress;
  }

  lemma SentOpen(s: State)
    requires Inv(s)
    ensures s.owner.Some? && s.pc == SendDisconnect ==> s.parts.ingestOpen
    ensures !s.parts.ingestOpen ==> s.events[DisconnectSent] == 1
  {
    hide EventOrder, MediaLocks, Ownership, Workers, Watch, Flags, Returns;
  }

  /** The step by which media_send_audio leaves with its mutex held: one more packet, and the ring is full. */
  predicate LeaksMutex(s: State, step: Step) {
    step == CallStep(false, true) && s.audio.call == InUse && s.pool.audioQueue == 2047
  }

  /** The audio mutex is taken once too often by exactly the calls that found the ring full. */
  lemma LeaksIff(s: State, step: Step)
    requires Inv(s) && Enabled(s, step)
    ensures Leaks(Apply(s, step)) == Leaks(s) + Count(LeaksMutex(s, step))
  {
    hide Inv, Leaks, BodyStep, Works, StatusMoves, Calls, BodyEnabled, StatusEnabled, CanWork;
    InvLocks(s);
    match step
    case Body => BodyLeaks(s);
    case StatusStep(error) => StatusLeaks(s, error);
    case CallStep(video, more) => CallLeaks(s, video, more);
    case _ => OtherLeaks(s, step);
  }

  lemma InvLocks(s: State)
    requires Inv(s)
    ensures MediaLocks(s) && Ownership(s)
  {
  }

  lemma BodyLeaks(s: State)
    requires MediaLocks(s) && Ownership(s) && BodyEnabled(s)
    ensures Leaks(BodyStep(s)) == Leaks(s)
  {
    hide Take, Does, Log;
  }

  lemma StatusLeaks(s: State, error: bool)
    requires StatusEnabled(s)
    ensures Leaks(StatusMoves(s, error)) == Leaks(s)
  {
  }

  lemma CallLeaks(s: State, video: bool, more: bool)
    requires MediaLocks(s) && CallEnabled(s, video)
    ensures Leaks(Calls(s, video, more)) == Leaks(s) + Count(LeaksMutex(s, CallStep(video, more)))
  {
    hide NextPool;
  }

  lemma OtherLeaks(s: State, step: Step)
    requires MediaLocks(s) && Enabled(s, step) && (step.Enter? || step.Work? || step.Start?)
    ensures Leaks(Apply(s, step)) == Leaks(s)
  {
    hide Works, CanWork;
  }

  function LeaksIn(s: State, steps: seq<Step>): nat
    decreases |steps|
  {
    if steps == [] || !Enabled(s, steps[0]) then 0
    else Count(LeaksMutex(s, steps[0])) + LeaksIn(Apply(s, steps[0]), steps[1..])
  }

  /** Main result: in every interleaving the mutex is held beyond the calls and the teardown exactly as often as an
      audio call found 2047 packets queued. */
  lemma {:induction false} LeaksCounted(s: State, steps: seq<Step>)
    requires Inv(s) && Run(s, steps).Some?
    ensures Leaks(Run(s, steps).value) == Leaks(s) + LeaksIn(s, steps)
    decreases |steps|
  {
    hide Inv, Enabled, Apply, Leaks, LeaksMutex;
    if steps != [] {
      LeaksIff(s, steps[0]);
      StepKeepsInv(s, steps[0]);
      LeaksCounted(Apply(s, steps[0]), steps[1..]);
    }
  }

  /** A thread can begin to disconnect while any other is in a media call. */
  lemma EntersDuringCall(n: nat, bitrate: bool, who: nat, i: nat, video: bool)
    requires i < n
    ensures Run(Init(n, bitrate), [Start(video, who), Enter(i)]).Some? <==> who != i
  {
    var s, start := Init(n, bitrate), Start(video, who);
    RunOne(s, start);
    RunTwo(s, start, Enter(i));
  }

  lemma RunTwo(s: State, a: Step, b: Step)
    requires Enabled(s, a)
    ensures Run(s, [a, b]).Some? <==> Enabled(Apply(s, a), b)
  {
    hide Enabled, Apply;
    assert [a, b][1..] == [b];
    assert Run(s, [a, b]) == Run(Apply(s, a), [b]);
    if Enabled(Apply(s, a), b) {
      RunOne(Apply(s, a), b);
    }
  }

  /** While its flag is set, the status thread goes on without an error. */
  lemma StatusGoesOn(s: State)
    requires s.status == Polling && StatusFlag in s.flags
    ensures Run(s, [StatusStep(false)]) == Some(s)
  {
    RunOne(s, StatusStep(false));
  }

  /** After an error it takes up the teardown, if no one else does. */
  lemma StatusDetects(s: State, a: bool, b: bool)
    requires s.status == Polling && StatusFlag in s.flags && s.owner == None
    ensures var t := Run(s, [StatusStep(true), StatusStep(a), StatusStep(b)]);
            t.Some? && t.value.owner == Some(StatusThread) && t.value.pc == CheckReady
  {
    RunThree(s, StatusStep(true), StatusStep(a), StatusStep(b));
  }

  lemma RunOne(s: State, a: Step)
    requires Enabled(s, a)
    ensures Run(s, [a]) == Some(Apply(s, a))
  {
    hide Enabled, Apply;
    assert [a][1..] == [];
  }

  lemma RunThree(s: State, a: Step, b: Step, c: Step)
    requires Enabled(s, a) && Enabled(Apply(s, a), b) && Enabled(Apply(Apply(s, a), b), c)
    ensures Run(s, [a, b, c]) == Some(Apply(Apply(Apply(s, a), b), c))
  {
    hide Enabled, Apply;
    assert [a, b, c][1..] == [b, c] && [b, c][1..] == [c];
    RunOne(Apply(Apply(s, a), b), c);
  }

  /** A call that is past its check queues one packet for one post, if there is data left and the ring has room,
      and goes on; otherwise it is over, and gives its mutex back unless it is an audio call with data left. */
  lemma CallQueues(s: State, video: bool, more: bool)
    requires CallEnabled(s, video) && LockOf(s, video).call == InUse && LockOf(s, video).depth > 0
    ensures var t, p := Apply(s, CallStep(video, more)), s.pool;
            var room := (if video then p.videoQueue else p.audioQueue) != 2047;
            && LockOf(t, !video) == LockOf(s, !video)
            && LockOf(t, video).call == (if more && room then InUse else Outside)
            && LockOf(t, video).depth == LockOf(s, video).depth - Count(!more || (video && !room))
            && t.pool == if !more || !room then p
                         else if video then p.(videoQueue := p.videoQueue + 1, videoSem := p.videoSem + 1)
                         else p.(audioQueue := p.audioQueue + 1, audioSem := p.audioSem + 1)
  {
  }

  lemma SlotsSafe(s: State)
    requires Inv(s)
    requires (s.owner.Some? && (s.pc == FreeSlots || s.pc == CloseMedia)) || !s.parts.slots || !s.parts.mediaOpen
    ensures NoSlotUser(s) && Ping in s.pool.exited
  {
    hide EventOrder, Flags, LateComers, Events, Watch, Ownership;
    assert Progress(s) >= 35;
  }

  lemma SocketsSafe(s: State)
    requires Inv(s) && ((s.owner.Some? && s.pc == CloseIngest) || !s.parts.ingestOpen)
    ensures Keepalive in s.pool.exited && s.status != Polling
  {
    hide EventOrder, Events, MediaLocks, Ownership;
    assert Progress(s) >= 73;
  }

  /** What a torn-down connection has behind it: every part of it exactly once, and nothing left. */
  ghost predicate Complete(s: State) {
    && s.events[DisconnectSent] == 1 && s.events[IngestClosed] == 1
    && s.events[MediaClosed] == 1 && s.events[SlotsFreed] == 1
    && (forall t | t != Status && t != Bitrate :: s.events[Joined(t)] == 1)
    && (forall t | t != Status :: t in s.pool.exited)
    && s.flags == {}
    && s.parts == Parts(false, false, false, false, false)
  }

  lemma TornIsComplete(s: State)
    requires Inv(s) && s.torn
    ensures Complete(s)
  {
    hide Ownership, MediaLocks, Watch, LateComers, InBody, EventOrder, Order, Returns;
    forall f ensures f !in s.flags {
      match f
      case PingFlag =>
      case _ =>
    }
    forall t | t != Status ensures t in s.pool.exited {
      match t
      case Ping =>
      case _ =>
    }
  }

  /** When ftl_ingest_disconnect returns to any caller, the connection is torn down completely. */
  lemma DisconnectIsComplete(n: nat, bitrate: bool, steps: seq<Step>, i: nat)
    requires Run(Init(n, bitrate), steps).Some?
    requires var s := Run(Init(n, bitrate), steps).value; i < |s.callers| && s.callers[i] == Returned
    ensures Complete(Run(Init(n, bitrate), steps).value)
  {
    hide Init, Complete, Run;
    InitInv(n, bitrate);
    RunKeepsInv(Init(n, bitrate), steps);
    TornIsComplete(Run(Init(n, bitrate), steps).value);
  }

  /** Whatever the interleaving, from any set of callers, with or without the bitrate thread. */
  lemma RunIsSafe(n: nat, bitrate: bool, steps: seq<Step>)
    requires Run(Init(n, bitrate), steps).Some?
    ensures Safe(Run(Init(n, bitrate), steps).value)
  {
    hide Inv, Safe, Init;
    InitInv(n, bitrate);
    RunKeepsInv(Init(n, bitrate), steps);
    InvSafe(Run(Init(n, bitrate), steps).value);
  }

  // ---------------------------------------------------------------------------
  // Progress
  // ---------------------------------------------------------------------------

  /** Every caller is back and the status thread has nothing left to do. */
  predicate Finished(s: State) {
    && s.owner == None && Waiters(s.callers) == 0
    && (s.status == Exited || (s.status == Polling && !s.torn))
  }

  function Waiters(callers: seq<Caller>): nat {
    if callers == [] then 0 else (if callers[0] == Waiting then 1 else 0) + Waiters(callers[1..])
  }

  function FirstWaiter(callers: seq<Caller>): (i: nat)
    requires Waiters(callers) > 0
    ensures i < |callers| && callers[i] == Waiting
  {
    if callers[0] == Waiting then 0 else 1 + FirstWaiter(callers[1..])
  }

  lemma {:induction false} WaitersUpdate(callers: seq<Caller>, i: nat, c: Caller)
    requires i < |callers| && c != Waiting
    ensures Waiters(callers[i := c]) == Waiters(callers) - if callers[i] == Waiting then 1 else 0
  {
    if i == 0 {
      assert callers[i := c][1..] == callers[1..];
    } else {
      assert callers[i := c][1..] == callers[1..][i - 1 := c];
      WaitersUpdate(callers[1..], i - 1, c);
    }
  }

  /** The audio mutex was leaked and its holder has yet to disconnect. */
  predicate LeakerWaits(s: State) {
    && Leaks(s) > 0 && s.audio.holder.Some? && s.audio.holder.value.App?
    && s.audio.holder.value.i < |s.callers| && s.callers[s.audio.holder.value.i] == Waiting
  }

  /** Who disconnects next: the leaker, if there is one and media is still ready. */
  function Chosen(s: State): (i: nat)
    requires Waiters(s.callers) > 0
    ensures i < |s.callers| && s.callers[i] == Waiting
  {
    if LeakerWaits(s) then s.audio.holder.value.i else FirstWaiter(s.callers)
  }

  /** A step that brings the teardown forward: the owner's, or that of whom the owner waits for. */
  function Pick(s: State): Step {
    if s.owner == None then
      if Waiters(s.callers) == 0 then StatusStep(false)
      else if InCall(s.audio, App(Chosen(s))) then CallStep(false, false)
      else if InCall(s.video, App(Chosen(s))) then CallStep(true, false)
      else Enter(Chosen(s))
    else if BodyEnabled(s) then Body
    else if s.pc == LockAudio then CallStep(false, false)
    else if s.pc == LockVideo then CallStep(true, false)
    else if s.pc.Join? && s.pc.t != Status then Work(s.pc.t)
    else StatusStep(false)
  }

  function StatusRank(p: StatusPhase): nat {
    match p
    case Polling => 1400
    case Dropping => 1300
    case Dropped => 1200
    case Cleaning => 2
    case Notifying => 1
    case Exited => 0
  }

  function CallRank(l: Lock): nat {
    match l.call
    case Outside => 0
    case Entered => 2
    case InUse => 1
  }

  /** How long the owner, or who is to become it, still waits where it is. */
  function WaitRank(s: State): nat {
    if s.owner == None then CallRank(s.audio) + CallRank(s.video)
    else if s.pc == LockAudio then CallRank(s.audio)
    else if s.pc == LockVideo then CallRank(s.video)
    else if s.pc.Join? && s.pc.t != Status && s.pc.t !in s.pool.exited then
      if s.pc.t in s.pool.working then 3 else if s.pc.t in s.pool.blocked then 2 else 1
    else 0
  }

  /** The number of such steps that are left, at most. */
  function Measure(s: State): nat {
    1000 * Waiters(s.callers) + StatusRank(s.status)
    + WaitRank(s) + if s.owner == None then 0 else 10 * (76 - Order(s.pc))
  }

  /** Nothing keeps the teardown from its end: see FinishIff. */
  predicate MayFinish(s: State) {
    || Leaks(s) <= 0 || !s.parts.ready || Finished(s)
    || (s.owner.Some? && s.owner == s.audio.holder)
    || (s.owner == None && LeakerWaits(s))
  }

  /** A mutex that the owner cannot take is that of a call under way. */
  lemma BlockedByCall(s: State)
    requires Inv(s) && !Finished(s) && MayFinish(s) && s.owner.Some? && !BodyEnabled(s)
    ensures s.pc == LockAudio ==> s.audio.call != Outside
    ensures s.pc == LockVideo ==> s.video.call != Outside
  {
    hide Events, Workers, Flags, Watch, Returns;
  }

  lemma PickShape(s: State)
    requires Ownership(s)
    ensures Pick(s).StatusStep? ==> if s.owner.Some? then s.pc == Join(Status) else Waiters(s.callers) == 0
    ensures Pick(s).CallStep? ==>
              !Pick(s).more && (s.owner.Some? ==> s.pc == if Pick(s).video then LockVideo else LockAudio)
    ensures Pick(s).Work? ==> s.owner.Some? && s.pc.Join? && s.pc.t == Pick(s).t && !BodyEnabled(s)
  {
    hide Chosen, CanLock;
  }

  /** The owner of the mutex waits for someone who can move: there is no circular wait. */
  lemma PickEnabled(s: State)
    requires Inv(s) && !Finished(s) && MayFinish(s)
    ensures Enabled(s, Pick(s))
  {
    hide Inv, MayFinish, Finished, Waiters, CanLock, BodyEnabled, StatusEnabled, CanWork, Ownership;
    InvOwnership(s);
    PickShape(s);
    if s.owner.Some? && !BodyEnabled(s) {
      BlockedByCall(s);
      if s.pc.Join? {
        BlockedByThread(s);
      }
    } else if s.owner == None && Waiters(s.callers) == 0 {
      StatusIdle(s);
    }
  }

  /** A thread that is to be joined can move: it is not asleep for good. */
  lemma BlockedByThread(s: State)
    requires Inv(s) && s.owner.Some? && s.pc.Join? && !BodyEnabled(s)
    ensures if s.pc.t == Status then StatusEnabled(s) else CanWork(s.pool, s.pc.t)
  {
    hide Events, LateComers, InBody, Left, Flags, MediaLocks, Returns, Queues;
  }

  lemma StatusIdle(s: State)
    requires Inv(s) && !Finished(s) && s.owner == None && Waiters(s.callers) == 0
    ensures StatusEnabled(s)
  {
    hide Events, LateComers, InBody, Left, Flags, MediaLocks, Returns, Workers;
  }

  lemma {:induction false} WaiterCounts(callers: seq<Caller>, i: nat)
    requires i < |callers| && callers[i] == Waiting
    ensures Waiters(callers) > 0
  {
    if i > 0 {
      WaiterCounts(callers[1..], i - 1);
    }
  }

  lemma PickKeepsMay(s: State)
    requires Inv(s) && !Finished(s) && MayFinish(s) && Enabled(s, Pick(s))
    ensures MayFinish(Apply(s, Pick(s)))
  {
    PickShape(s);
    match Pick(s)
    case Enter(i) => MayEnter(s);
    case Body => MayBody(s);
    case StatusStep(error) => MayStatus(s);
    case Work(t) =>
    case CallStep(video, more) => MayCall(s, video);
  }

  lemma MayEnter(s: State)
    requires Inv(s) && !Finished(s) && MayFinish(s) && Waiters(s.callers) > 0 && CanEnter(s, Chosen(s))
    ensures MayFinish(Enters(s, Chosen(s)))
  {
    hide Events, Workers, Flags, Watch, LateComers, InBody, Returns, Left, Finished, Waiters;
  }

  lemma MayBody(s: State)
    requires Inv(s) && !Finished(s) && MayFinish(s) && BodyEnabled(s)
    ensures MayFinish(BodyStep(s))
  {
    if s.parts.ready {
      ReadyPc(s);
      ReadyStep(s);
    } else {
      NotReadyStays(s);
    }
    hide Inv, Finished, BodyEnabled, BodyStep, Leaks, LeakerWaits;
  }

  lemma NotReadyStays(s: State)
    requires BodyEnabled(s) && !s.parts.ready
    ensures !BodyStep(s).parts.ready
  {
    hide CanLock, Gone, Next;
  }

  /** Up to clearing the flag the owner stays the owner, and the leaks stay the leaks. */
  lemma ReadyStep(s: State)
    requires Inv(s) && BodyEnabled(s)
    requires s.pc.CheckConnected? || s.pc.CheckReady? || s.pc.LockAudio? || s.pc.LockVideo? || s.pc.ClearReady?
    ensures var q := BodyStep(s);
            if s.pc == ClearReady then !q.parts.ready
            else
              && Leaks(q) == Leaks(s) && q.owner == s.owner
              && (s.audio.holder == s.owner ==> q.audio.holder == q.owner)
  {
    hide Events, Workers, Flags, Watch, LateComers, InBody, Returns, Left, Ownership, Log, Does, Order, Gone, LockOk;
  }

  /** As long as media is ready, the body is in front of clearing the flag. */
  lemma ReadyPc(s: State)
    requires Inv(s) && s.owner.Some? && s.parts.ready
    ensures s.pc == CheckConnected || s.pc == CheckReady || s.pc == LockAudio || s.pc == LockVideo || s.pc == ClearReady
  {
    hide Events, Workers, Flags, Watch, LateComers, InBody, Returns, MediaLocks, Ownership;
    assert Order(s.pc) <= 4;
  }

  lemma MayStatus(s: State)
    requires Inv(s) && !Finished(s) && MayFinish(s) && StatusEnabled(s)
    requires if s.owner.Some? then s.pc == Join(Status) else Waiters(s.callers) == 0
    ensures MayFinish(StatusMoves(s, false))
  {
    hide Inv, Waiters, StatusEnabled;
    if s.owner.Some? && s.parts.ready {
      ReadyPc(s);
    }
    if LeakerWaits(s) {
      WaiterCounts(s.callers, s.audio.holder.value.i);
    }
  }

  lemma MayCall(s: State, video: bool)
    requires Inv(s) && !Finished(s) && MayFinish(s) && CallEnabled(s, video)
    ensures MayFinish(Calls(s, video, false))
  {
    hide Events, Workers, Flags, Watch, LateComers, InBody, Returns, Left, Finished, NextPool, Ownership;
  }

  lemma WaitBound(s: State)
    ensures WaitRank(s) <= 4
  {
  }

  lemma BodyKeepsThreads(s: State)
    requires BodyEnabled(s) && s.pc != Leave
    ensures var q := BodyStep(s);
            q.callers == s.callers && q.status == s.status && q.owner == s.owner && q.pc == Next(s)
  {
  }

  lemma OwnerForward(s: State)
    requires Inv(s) && BodyEnabled(s)
    ensures Measure(BodyStep(s)) < Measure(s)
  {
    if s.pc == Leave {
      LeaveForward(s);
    } else {
      hide Inv, BodyEnabled, BodyStep, Next, Order, WaitRank, Waiters, StatusRank;
      BodyKeepsThreads(s);
      NextLater(s);
      WaitBound(BodyStep(s));
    }
  }

  lemma LeaveForward(s: State)
    requires Inv(s) && BodyEnabled(s) && s.pc == Leave
    ensures Measure(BodyStep(s)) < Measure(s)
  {
    hide MediaLocks, LateComers, InBody, Events, Workers, Flags, Left, Watch, Next, Take, Log, Does;
    if s.owner.value.App? {
      WaitersUpdate(s.callers, s.owner.value.i, Returned);
    }
  }

  /** The body never goes back, wherever it starts. */
  lemma NextLater(s: State)
    ensures s.pc != Leave ==> Order(s.pc) < Order(Next(s)) <= 75
  {
  }

  lemma EnterForward(s: State, i: nat)
    requires Enabled(s, Enter(i))
    ensures Measure(Apply(s, Enter(i))) < Measure(s)
  {
    WaitersUpdate(s.callers, i, Disconnecting);
  }

  lemma StatusForward(s: State)
    requires Inv(s) && StatusEnabled(s) && !Finished(s) && (s.owner.Some? ==> s.pc == Join(Status))
    requires s.owner == None ==> Waiters(s.callers) == 0
    ensures Measure(StatusMoves(s, false)) < Measure(s)
  {
    hide MediaLocks, LateComers, InBody, Events, Workers, Left, Ownership;
  }

  lemma WorkForward(s: State)
    requires Inv(s) && s.owner.Some? && s.pc.Join? && CanWork(s.pool, s.pc.t)
    ensures Measure(s.(pool := Works(s.pool, s.flags, s.pc.t))) < Measure(s)
  {
    JoinFlagGone(s);
    hide MediaLocks, LateComers, InBody, Events, Flags, Left, Ownership, Watch;
  }

  lemma JoinFlagGone(s: State)
    requires Inv(s) && s.owner.Some? && s.pc.Join?
    ensures FlagOf(s.pc.t) !in s.flags
  {
    hide MediaLocks, Events, Left, Ownership, Watch, Workers;
  }

  lemma CallForward(s: State, video: bool)
    requires CallEnabled(s, video) && (s.owner.Some? ==> s.pc == if video then LockVideo else LockAudio)
    ensures Measure(Calls(s, video, false)) < Measure(s)
  {
    hide Waiters, StatusRank, Order, NextPool;
  }

  /**
   * No deadlock: unless a leaked audio mutex is in the way, the owner of disconnect_mutex can move or
   * waits for someone who can, and every such step brings the end nearer.
   */
  lemma Forward(s: State)
    requires Inv(s) && !Finished(s) && MayFinish(s)
    ensures Enabled(s, Pick(s)) && MayFinish(Apply(s, Pick(s)))
    ensures Measure(Apply(s, Pick(s))) < Measure(s)
  {
    hide Inv, Finished, Measure, MayFinish;
    PickEnabled(s);
    PickKeepsMay(s);
    InvOwnership(s);
    PickShape(s);
    match Pick(s)
    case Enter(i) => EnterForward(s, i);
    case Body => OwnerForward(s);
    case StatusStep(error) => StatusForward(s);
    case Work(t) => WorkForward(s);
    case CallStep(video, more) => CallForward(s, video);
  }

  lemma InvOwnership(s: State)
    requires Inv(s)
    ensures Ownership(s)
  {
    hide Ownership, MediaLocks, Watch, LateComers, InBody, Events, Workers, Flags, Left, Returns;
  }

  /** Those steps, until the end. */
  function Picks(s: State, n: nat): seq<Step>
    decreases n
  {
    if n == 0 || Finished(s) || !Enabled(s, Pick(s)) then [] else [Pick(s)] + Picks(Apply(s, Pick(s)), n - 1)
  }

  /** From every state that can be reached, the teardown can still come to its end. */
  lemma {:induction false} CanFinish(s: State, n: nat)
    requires Inv(s) && MayFinish(s) && n >= Measure(s)
    ensures EndsWith(s, Picks(s, n))
    decreases n
  {
    hide Inv, Finished, Pick, Apply, Measure, Enabled, MayFinish;
    if !Finished(s) {
      Forward(s);
      StepKeepsInv(s, Pick(s));
      CanFinish(Apply(s, Pick(s)), n - 1);
      assert Picks(s, n)[1..] == Picks(Apply(s, Pick(s)), n - 1);
    }
  }

  predicate EndsWith(s: State, steps: seq<Step>) {
    Run(s, steps).Some? && Finished(Run(s, steps).value)
  }

  ghost predicate EndReachable(s: State) {
    exists steps :: EndsWith(s, steps)
  }

  /** At the end, if anyone came to disconnect, the connection is torn down and someone was told. */
  lemma FinishedIsComplete(s: State)
    requires Inv(s) && Finished(s) && |s.callers| > 0
    ensures Complete(s) && (ApiNotified in s.events || StatusNotified in s.events)
  {
    hide Complete, MediaLocks, Watch, LateComers, InBody, Workers, Flags, Left, Once, Passed, Recorded;
    assert s.callers[0] == Returned;
    TornIsComplete(s);
  }

  /** A step cannot take a leaked audio mutex out of the way. */
  lemma BlockedStays(s: State, step: Step)
    requires Inv(s) && !MayFinish(s) && Enabled(s, step)
    ensures !MayFinish(Apply(s, step))
  {
    match step
    case Enter(i) => BlockedEnter(s, i);
    case Body => BlockedBody(s);
    case StatusStep(error) => BlockedStatus(s, error);
    case Work(t) =>
    case Start(video, who) => BlockedStart(s, video, who);
    case CallStep(video, more) => BlockedCall(s, video, more);
  }

  lemma BlockedEnter(s: State, i: nat)
    requires Inv(s) && !MayFinish(s) && CanEnter(s, i)
    ensures !MayFinish(Enters(s, i))
  {
    hide Events, Workers, Flags, Watch, LateComers, InBody, Returns, Left, Ownership;
  }

  lemma BlockedBody(s: State)
    requires Inv(s) && !MayFinish(s) && BodyEnabled(s)
    ensures !MayFinish(BodyStep(s))
  {
    assert s.pc == CheckConnected || s.pc == CheckReady by { BlockedPc(s); }
    hide Events, Workers, Flags, Watch, LateComers, InBody, Returns, Ownership, MediaLocks, Log, Does, Order;
    ConnectedWhileReady(s);
  }

  lemma ConnectedWhileReady(s: State)
    requires Inv(s) && s.parts.ready
    ensures s.parts.connected && !s.torn && DisconnectSent !in s.events
  {
    hide Workers, Flags, Watch, LateComers, InBody, Returns, Ownership, MediaLocks, Told, Recorded, WillTell, JoinsDone;
  }

  lemma BlockedPc(s: State)
    requires Inv(s) && !MayFinish(s) && BodyEnabled(s)
    ensures s.pc == CheckConnected || s.pc == CheckReady
  {
    hide Events, Workers, Flags, Watch, Returns, Ownership;
  }

  lemma BlockedShape(s: State)
    requires Inv(s) && !MayFinish(s)
    ensures s.audio.holder.Some? && s.audio.holder.value.App?
    ensures s.owner == None ==>
              s.status == Dropped || (StatusFlag in s.flags && s.status != Notifying && s.status != Exited)
  {
    ConnectedWhileReady(s);
    hide Events, Workers, Flags, LateComers, InBody, Returns, Left, LockOk, Waiters;
  }

  lemma BlockedStatus(s: State, error: bool)
    requires Inv(s) && !MayFinish(s) && StatusEnabled(s)
    ensures !MayFinish(StatusMoves(s, error))
  {
    BlockedShape(s);
    hide Inv, Waiters, StatusEnabled;
  }

  lemma BlockedStart(s: State, video: bool, who: nat)
    requires Inv(s) && !MayFinish(s) && CanStart(s, video, who)
    ensures !MayFinish(Starts(s, video, who))
  {
    hide Events, Workers, Flags, Watch, LateComers, InBody, Returns, Left, Ownership;
  }

  lemma BlockedCall(s: State, video: bool, more: bool)
    requires Inv(s) && !MayFinish(s) && CallEnabled(s, video)
    ensures !MayFinish(Calls(s, video, more))
  {
    hide Events, Workers, Flags, Watch, LateComers, InBody, Returns, Left, Ownership, NextPool;
  }

  /** Then it stays in the way: nothing is torn down, and DISCONNECT is never sent. */
  lemma {:induction false} LeakBlocks(s: State, steps: seq<Step>)
    requires Inv(s) && !MayFinish(s) && Run(s, steps).Some?
    ensures var q := Run(s, steps).value;
            !MayFinish(q) && !Finished(q) && !q.torn && q.parts.connected && DisconnectSent !in q.events
    decreases |steps|
  {
    if steps == [] {
      ConnectedWhileReady(s);
    } else {
      hide Inv, MayFinish, Enabled, Apply;
      StepKeepsInv(s, steps[0]);
      BlockedStays(s, steps[0]);
      LeakBlocks(Apply(s, steps[0]), steps[1..]);
    }
  }

  /**
   * Main result: the end can be reached from a state exactly if the audio mutex is not leaked, or media
   * is torn down already, or the thread that leaked it owns disconnect_mutex, or no one does and that
   * thread is still to disconnect.
   */
  lemma FinishIff(s: State)
    requires Inv(s)
    ensures EndReachable(s) <==> MayFinish(s)
  {
    hide Inv, MayFinish, Finished, Run, Measure;
    if MayFinish(s) {
      CanFinish(s, Measure(s));
    } else if EndReachable(s) {
      var steps :| EndsWith(s, steps);
      LeakBlocks(s, steps);
    }
  }

  // ---------------------------------------------------------------------------
  // A leak can happen
  // ---------------------------------------------------------------------------

  function Packets(k: nat): (steps: seq<Step>)
    ensures |steps| == k
  {
    if k == 0 then [] else [CallStep(false, true)] + Packets(k - 1)
  }

  /** A call queues packets while there is room. */
  lemma {:induction false} FillRing(s: State, k: nat)
    requires s.audio.call == InUse && s.pool.audioQueue + k <= FULL
    ensures Run(s, Packets(k)) ==
            Some(s.(pool := s.pool.(audioQueue := s.pool.audioQueue + k, audioSem := s.pool.audioSem + k)))
    decreases k
  {
    if k > 0 {
      var q := Apply(s, CallStep(false, true));
      assert q == s.(pool := s.pool.(audioQueue := s.pool.audioQueue + 1, audioSem := s.pool.audioSem + 1));
      FillRing(q, k - 1);
      assert Packets(k)[1..] == Packets(k - 1);
    }
  }

  lemma {:induction false} RunAppend(s: State, a: seq<Step>, b: seq<Step>)
    requires Run(s, a).Some?
    ensures Run(s, a + b) == Run(Run(s, a).value, b)
    decreases |a|
  {
    hide Enabled, Apply;
    if a == [] {
      assert a + b == b;
    } else {
      assert (a + b)[1..] == a[1..] + b;
      RunAppend(Apply(s, a[0]), a[1..], b);
    }
  }

  /** One audio call with 2048 packets of data while the sender stands still. */
  function LeakRun(who: nat): seq<Step> {
    [Start(false, who), CallStep(false, true)] + Packets(FULL) + [CallStep(false, true)]
  }

  /** Any thread can leak the audio mutex, while no one disconnects. */
  lemma LeakIsReachable(n: nat, bitrate: bool, who: nat)
    ensures var end := Run(Init(n, bitrate), LeakRun(who));
            && end.Some? && end.value == Init(n, bitrate).(
                 audio := Lock(Some(App(who)), 1, Outside),
                 pool := Init(n, bitrate).pool.(audioQueue := FULL, audioSem := FULL))
  {
    var s := Init(n, bitrate);
    var begin := [Start(false, who), CallStep(false, true)];
    var p := Apply(s, begin[0]);
    var q := Apply(p, begin[1]);
    assert begin[1..] == [CallStep(false, true)] && begin[1..][1..] == [];
    assert Run(q, []) == Some(q) && Run(p, begin[1..]) == Some(q) && Run(s, begin) == Some(q);
    assert q == s.(audio := Lock(Some(App(who)), 1, InUse));
    hide Run, Enabled, Apply, Init;
    FillRing(q, FULL);
    RunAppend(s, begin, Packets(FULL));
    LastPacket(q.(pool := q.pool.(audioQueue := FULL, audioSem := q.pool.audioSem + FULL)));
    RunAppend(s, begin + Packets(FULL), [CallStep(false, true)]);
    InitPool(n, bitrate);
  }

  lemma InitPool(n: nat, bitrate: bool)
    ensures Init(n, bitrate).pool.audioQueue == 0 && Init(n, bitrate).pool.audioSem == 0
  {
  }

  lemma LastPacket(s: State)
    requires s.audio.call == InUse && s.pool.audioQueue == FULL
    ensures Run(s, [CallStep(false, true)]) == Some(s.(audio := s.audio.(call := Outside)))
  {
    assert [CallStep(false, true)][1..] == [];
  }

  /** A thread that leaks the audio mutex and then disconnects itself gets through; if another thread
      leaks it, no caller does. */
  lemma LeakerDecides(n: nat, bitrate: bool, who: nat)
    requires n > 0
    ensures var end := Run(Init(n, bitrate), LeakRun(who));
            end.Some? && (EndReachable(end.value) <==> who < n)
  {
    LeakIsReachable(n, bitrate, who);
    InitInv(n, bitrate);
    RunKeepsInv(Init(n, bitrate), LeakRun(who));
    var s := Run(Init(n, bitrate), LeakRun(who)).value;
    FinishIff(s);
    hide Run, Inv, EndReachable;
    assert s.callers[0] == Waiting;
  }
}
