/** The adaptive bitrate thread: a controller over a five-sample window of statistics, and what
    holds of every run of it. Times are in microseconds. */
module BitrateController {
  import opened Bytes
  import MediaClock

  const STREAM_STATS_CAPTURE := 1_000_000
  const BITRATE_CHANGED_COOLDOWN := 10_000_000
  const MAX_MS_TO_DEEM_UPGRADE_EXCESSIVE := 60000
  const UPGRADE_FREEZE_MS := 180000
  const BW_IDEAL_BITRATE_UPGRADE_BPS := 256000
  const MAX_STAT_SIZE := 5

  function Wrap(x: int): uint64 {
    x % TWO_64
  }

  /** `a - b` in uint64_t. */
  function Minus(a: int, b: int): uint64 {
    Wrap(a - b)
  }

  // ---------------------------------------------------------------------------
  // Decisions
  // ---------------------------------------------------------------------------

  datatype Reason = Constrained | Available | Excessive

  predicate ReductionRequired(ratio: real, avgRtt: real, fullness: real) {
    ratio > 0.1 || avgRtt > 300.0 || fullness > 0.3
  }

  predicate BandwidthStable(ratio: real, avgRtt: real, droppedPerSecond: nat, fullness: real) {
    ratio < 0.01 && droppedPerSecond == 0 && avgRtt < 100.0 && fullness < 0.1
  }

  /** compute_recommended_bitrate, in uint64_t. */
  function Recommended(current: uint64, max: uint64, min: uint64, reason: Reason): uint64 {
    var wish: uint64 := match reason
      case Constrained => Wrap(50 * current) / 100
      case Available => Wrap(current + BW_IDEAL_BITRATE_UPGRADE_BPS)
      case Excessive => Wrap(80 * current) / 100;
    var floored := if wish < min then min else wish;
    if floored > max then max else floored
  }

  /** The recommendation stays in range; a decrease never goes up, even where 80 * current wraps. */
  lemma RecommendedBounds(current: uint64, max: uint64, min: uint64, reason: Reason)
    requires min <= current <= max
    ensures min <= Recommended(current, max, min, reason) <= max
    ensures !reason.Available? ==> Recommended(current, max, min, reason) <= current
  {
    WrapIs(50 * current);
    WrapIs(80 * current);
  }

  /** Raising never lowers the bitrate exactly if the sum cannot wrap, or wraps and is clamped to
      where it was. */
  lemma IncreaseIff(current: uint64, max: uint64, min: uint64)
    requires min <= current <= max
    ensures Recommended(current, max, min, Available) >= current <==>
            current + BW_IDEAL_BITRATE_UPGRADE_BPS < TWO_64 || current == min
  {
  }

  /** What happens if it can wrap: a raise that lowers the bitrate. */
  lemma IncreaseCanLower()
    ensures Recommended(TWO_64 - 1, TWO_64 - 1, 1000000, Available) == 1000000
  {
  }

  /** A percentage, with the product in uint64_t. */
  function Share(percent: nat, x: nat): nat {
    percent * x % TWO_64 / 100
  }

  /** A decrease goes to half, or to 80 per cent, unless the product wraps or the minimum is above that; a
      raise adds 256000 bit/s, unless the sum wraps or the maximum is below that. */
  lemma RecommendedIs(current: uint64, max: uint64, min: uint64)
    requires min <= current <= max
    ensures Recommended(current, max, min, Constrained) == AtLeast(min, Share(50, current))
    ensures Recommended(current, max, min, Excessive) == AtLeast(min, Share(80, current))
    ensures current + 256000 < TWO_64 ==>
              Recommended(current, max, min, Available) == if current + 256000 > max then max else current + 256000
    ensures 50 * current < TWO_64 ==> Share(50, current) == current / 2
    ensures 80 * current < TWO_64 ==> Share(80, current) == current * 4 / 5
  {
    hide Wrap;
    Percentages(current);
    WrapIs(50 * current);
    WrapIs(80 * current);
    WrapIs(current + 256000);
  }

  lemma Percentages(x: nat)
    ensures 50 * x / 100 == x / 2 <= x && 80 * x / 100 == x * 4 / 5 <= x
  {
  }

  lemma WrapIs(x: nat)
    ensures Wrap(x) == x % TWO_64 <= x && (x < TWO_64 ==> Wrap(x) == x)
  {
  }

  function AtLeast(min: int, x: int): int {
    if x < min then min else x
  }

  // ---------------------------------------------------------------------------
  // The controller
  // ---------------------------------------------------------------------------

  /** What ftl_get_video_stats reports: cumulative counters, the mean RTT, the queue fullness. */
  datatype Reading = Reading(nacks: uint64, frames: uint64, dropped: uint64, rtt: uint64, fullness: real)

  /** The circular buffers, and the readings the next differences are taken to. */
  datatype Window = Window(
    nacks: seq<uint64>, frames: seq<uint64>, dropped: seq<uint64>, rtts: seq<uint64>,
    pos: nat, full: bool, last: Reading)

  predicate WindowShape(w: Window) {
    && |w.nacks| == |w.frames| == |w.dropped| == |w.rtts| == MAX_STAT_SIZE && w.pos < MAX_STAT_SIZE
  }

  datatype Kind = Increased | DecreasedExcessive | DecreasedConstrained | StabilizedOriginal | StabilizedLower

  /** A status message, sent between the clock readings `from` and `until`. */
  datatype Event = Event(kind: Kind, bitrate: uint64, previous: uint64, from: int, until: int)

  datatype Limits = Limits(min: uint64, max: uint64)

  /** The thread's variables at the head of its loop, and the messages it has sent. */
  datatype Controller = Controller(
    window: Window, bitrate: uint64, lastUpgrade: int, freezeStart: int,
    attemptRevert: bool, checkStability: bool, log: seq<Event>)

  /** What one turn of the loop meets: a reading, the clock when it decides, the answer of the
      callback, the clock after the message, and the reading taken after the cooldown. */
  datatype Input = Input(reading: Reading, now: int, accepted: bool, done: int, after: Reading)

  /** The sample of this turn goes into the circular buffers. */
  function Record(w: Window, r: Reading): Window
    requires WindowShape(w)
  {
    Window(w.nacks[w.pos := Minus(r.nacks, w.last.nacks)],
           w.frames[w.pos := Minus(r.frames, w.last.frames)],
           w.dropped[w.pos := Minus(r.dropped, w.last.dropped)],
           w.rtts[w.pos := r.rtt],
           (w.pos + 1) % MAX_STAT_SIZE, w.full || w.pos + 1 >= MAX_STAT_SIZE, r)
  }

  /** The sums of the evaluation, in uint64_t. */
  function Total(s: seq<uint64>): uint64 {
    if s == [] then 0 else Wrap(Total(s[..|s| - 1]) + s[|s| - 1])
  }

  datatype Verdict = Verdict(reduce: bool, stable: bool)

  function Judge(w: Window): Verdict {
    var nacks, frames := Total(w.nacks), Total(w.frames);
    var ratio := if frames != 0 then (nacks as real) / (frames as real) else 0.0;
    var avgRtt := (Total(w.rtts) as real) / 5.0;
    var fullness := w.last.fullness;
    Verdict(ReductionRequired(ratio, avgRtt, fullness),
            BandwidthStable(ratio, avgRtt, Total(w.dropped) / 5, fullness))
  }

  /** More than one NACK in ten frames, a mean RTT above 300 of five samples, or a queue fuller than 30 per cent. */
  predicate Congested(nacks: int, frames: int, rtts: int, fullness: real) {
    (frames > 0 && 10 * nacks > frames) || rtts > 1500 || fullness > 0.3
  }

  /** Less than one NACK in a hundred frames, a mean RTT below 100, less than a dropped frame per second, and
      a queue emptier than 10 per cent. */
  predicate Healthy(nacks: int, frames: int, rtts: int, drops: int, fullness: real) {
    (frames == 0 || 100 * nacks < frames) && rtts < 500 && drops < 5 && fullness < 0.1
  }

  lemma RatioIs(nacks: nat, frames: nat)
    requires frames > 0
    ensures (nacks as real) / (frames as real) > 0.1 <==> 10 * nacks > frames
    ensures (nacks as real) / (frames as real) < 0.01 <==> 100 * nacks < frames
  {
    var n, f := nacks as real, frames as real;
    assert n / f * f == n;
    RatioAgainst(n, f, 0.1);
    RatioAgainst(n, f, 0.01);
  }

  lemma RatioAgainst(n: real, f: real, t: real)
    requires f > 0.0
    ensures n / f > t <==> n > t * f
    ensures n / f < t <==> n < t * f
  {
    var q := n / f;
    assert q * f == n;
    assert q > t ==> (q - t) * f > 0.0;
    assert q < t ==> (t - q) * f > 0.0;
    assert (q - t) * f == n - t * f;
  }

  /** The verdict on any window, in whole numbers. */
  lemma VerdictIff(w: Window)
    ensures var nacks, frames, rtts := Total(w.nacks), Total(w.frames), Total(w.rtts);
            && (Judge(w).reduce <==> Congested(nacks, frames, rtts, w.last.fullness))
            && (Judge(w).stable <==> Healthy(nacks, frames, rtts, Total(w.dropped), w.last.fullness))
  {
    hide Total;
    if Total(w.frames) != 0 {
      RatioIs(Total(w.nacks), Total(w.frames));
    }
  }

  /** The decision of a turn with a full window; whether the bitrate was changed. */
  function Decide(c: Controller, l: Limits, i: Input): (Controller, bool)
  {
    var v := Judge(c.window);
    if v.reduce then
      if c.attemptRevert && MediaClock.ElapsedMs(i.now, c.lastUpgrade) < MAX_MS_TO_DEEM_UPGRADE_EXCESSIVE then
        var rec := Recommended(c.bitrate, l.max, l.min, Excessive);
        if !i.accepted then (c, false)
        else
          (c.(checkStability := true, attemptRevert := false, bitrate := rec, freezeStart := i.done,
              log := c.log + [Event(DecreasedExcessive, rec, c.bitrate, i.now, i.done)]), true)
      else
        var rec := Recommended(c.bitrate, l.max, l.min, Constrained);
        if !i.accepted then (c.(checkStability := false), false)
        else
          (c.(checkStability := false, bitrate := rec,
              log := c.log + [Event(DecreasedConstrained, rec, c.bitrate, i.now, i.done)]), true)
    else if v.stable && MediaClock.ElapsedMs(i.now, c.freezeStart) > UPGRADE_FREEZE_MS then
      var rec := Recommended(c.bitrate, l.max, l.min, Available);
      if rec == c.bitrate then (c, false)
      else if !i.accepted then (c.(attemptRevert := true), false)
      else
        (c.(attemptRevert := true, bitrate := rec, checkStability := c.checkStability || rec == l.max,
            lastUpgrade := i.done,
            log := c.log + [Event(Increased, rec, c.bitrate, i.now, i.done)]), true)
    else
      (c, false)
  }

  /** After the decision: cooldown and a new baseline, or the report of a stable bitrate. */
  function Settle(c: Controller, changed: bool, l: Limits, i: Input): Controller {
    if changed then
      c.(window := c.window.(pos := 0, full := false, last := i.after))
    else if c.checkStability then
      var kind := if c.bitrate == l.max then StabilizedOriginal else StabilizedLower;
      c.(checkStability := false, log := c.log + [Event(kind, c.bitrate, c.bitrate, i.now, i.done)])
    else c
  }

  /** One turn of the loop; whether it ended in a cooldown. */
  function Turn(c: Controller, l: Limits, i: Input): (Controller, bool)
    requires WindowShape(c.window)
  {
    var sampled := c.(window := Record(c.window, i.reading));
    if !sampled.window.full then (sampled, false)
    else
      var (decided, changed) := Decide(sampled, l, i);
      (Settle(decided, changed, l, i), changed)
  }

  lemma TurnShape(c: Controller, l: Limits, i: Input)
    requires WindowShape(c.window)
    ensures WindowShape(Turn(c, l, i).0.window)
  {
  }

  /** The thread as it enters its loop. */
  function Start(initial: uint64, first: Reading, now: int): Controller {
    var zeros := [0, 0, 0, 0, 0];
    Controller(Window(zeros, zeros, zeros, zeros, 0, false, first), initial, now, 0, false, false, [])
  }

  // ---------------------------------------------------------------------------
  // Runs
  // ---------------------------------------------------------------------------

  predicate Change(e: Event) {
    e.kind.Increased? || e.kind.DecreasedExcessive? || e.kind.DecreasedConstrained?
  }

  predicate Stabilized(e: Event) {
    e.kind.StabilizedOriginal? || e.kind.StabilizedLower?
  }

  /** The events after which the thread looks for a stable bitrate. */
  predicate Trigger(e: Event, l: Limits) {
    e.kind.DecreasedExcessive? || (e.kind.Increased? && e.bitrate == l.max)
  }

  /** The controller, and the earliest time its next turn can begin. */
  datatype Thread = Thread(c: Controller, ready: int)

  /** The waits have at least their full length, and the clock does not go back. */
  predicate Timely(t: Thread, i: Input) {
    t.ready <= i.now <= i.done
  }

  function After(t: Thread, l: Limits, i: Input): Thread
    requires WindowShape(t.c.window)
  {
    var (c, changed) := Turn(t.c, l, i);
    Thread(c, i.done + (if changed then BITRATE_CHANGED_COOLDOWN else 0) + STREAM_STATS_CAPTURE)
  }

  function Run(l: Limits, start: Thread, inputs: seq<Input>): (t: Thread)
    requires WindowShape(start.c.window)
    ensures WindowShape(t.c.window)
  {
    if inputs == [] then start
    else
      var t := Run(l, start, inputs[..|inputs| - 1]);
      TurnShape(t.c, l, inputs[|inputs| - 1]);
      After(t, l, inputs[|inputs| - 1])
  }

  predicate TimelyRun(l: Limits, start: Thread, inputs: seq<Input>)
    requires WindowShape(start.c.window)
  {
    inputs == [] ||
    (TimelyRun(l, start, inputs[..|inputs| - 1])
     && Timely(Run(l, start, inputs[..|inputs| - 1]), inputs[|inputs| - 1]))
  }

  /** Limits and an initial bitrate as the caller must choose them; the sum of a raise cannot wrap. */
  predicate Sensible(l: Limits, initial: uint64) {
    l.min <= initial <= l.max && l.max + BW_IDEAL_BITRATE_UPGRADE_BPS < TWO_64
  }

  // ---------------------------------------------------------------------------
  // The invariant
  // ---------------------------------------------------------------------------

  /** Samples taken since the last baseline, up to five. */
  function Samples(w: Window): nat {
    if w.full then MAX_STAT_SIZE else w.pos
  }

  ghost predicate InRange(c: Controller, l: Limits, initial: uint64) {
    && l.min <= c.bitrate <= l.max
    && c.bitrate == BitrateAfter(c.log, initial)
    && (forall k | 0 <= k < |c.log| :: EventOk(c.log[k], BitrateAfter(c.log[..k], initial), l))
  }

  function BitrateAfter(log: seq<Event>, initial: uint64): uint64 {
    if log == [] then initial else log[|log| - 1].bitrate
  }

  /** A message starts from the bitrate in force, stays in range, and moves the right way. */
  predicate EventOk(e: Event, previous: uint64, l: Limits) {
    && e.previous == previous && l.min <= e.bitrate <= l.max && e.from <= e.until
    && (e.kind.Increased? ==> e.bitrate > e.previous)
    && (e.kind.DecreasedExcessive? || e.kind.DecreasedConstrained? ==> e.bitrate <= e.previous)
    && (Stabilized(e) ==> e.bitrate == e.previous)
    && (e.kind.StabilizedOriginal? ==> e.bitrate == l.max)
    && (e.kind.StabilizedLower? ==> e.bitrate != l.max)
  }

  /** The cooldown and five samples. */
  const CHANGE_GAP := 15_000_000

  ghost predicate Spaced(t: Thread) {
    && (forall i, j | 0 <= i < j < |t.c.log| && Change(t.c.log[i]) && Change(t.c.log[j]) ::
          t.c.log[j].from - t.c.log[i].until >= CHANGE_GAP)
    && (forall i | 0 <= i < |t.c.log| && Change(t.c.log[i]) ::
          t.ready >= t.c.log[i].until + BITRATE_CHANGED_COOLDOWN + (1 + Samples(t.c.window)) * STREAM_STATS_CAPTURE)
  }

  /** When the last revert was reported, or 0. */
  function FrozenSince(log: seq<Event>): int {
    if log == [] then 0
    else if log[|log| - 1].kind.DecreasedExcessive? then log[|log| - 1].until
    else FrozenSince(log[..|log| - 1])
  }

  ghost predicate Frozen(t: Thread) {
    && t.c.freezeStart == FrozenSince(t.c.log)
    && (forall i | 0 <= i < |t.c.log| && t.c.log[i].kind.DecreasedExcessive? ::
          t.c.freezeStart >= t.c.log[i].until && t.ready >= t.c.log[i].until)
    && (forall i, j | 0 <= i < j < |t.c.log| && t.c.log[i].kind.DecreasedExcessive? && t.c.log[j].kind.Increased? ::
          (t.c.log[j].from - t.c.log[i].until) / 1000 > UPGRADE_FREEZE_MS)
  }

  /** A trigger at k, and since then no constrained decrease and no report. */
  ghost predicate Open(log: seq<Event>, k: nat, l: Limits) {
    && k < |log| && Trigger(log[k], l)
    && forall m | k < m < |log| :: !log[m].kind.DecreasedConstrained? && !Stabilized(log[m])
  }

  ghost predicate Matched(c: Controller, l: Limits) {
    && (c.checkStability ==> exists k :: Open(c.log, k, l))
    && (forall j | 0 <= j < |c.log| && Stabilized(c.log[j]) :: exists k :: Open(c.log[..j], k, l))
  }

  /** When the bitrate was last raised, or the thread started. */
  function RaisedAt(log: seq<Event>, since: int): int {
    if log == [] then since
    else if log[|log| - 1].kind.Increased? then log[|log| - 1].until
    else RaisedAt(log[..|log| - 1], since)
  }

  /** The bitrate was raised, and not reverted since. */
  predicate Raised(log: seq<Event>) {
    log != [] && !log[|log| - 1].kind.DecreasedExcessive?
    && (log[|log| - 1].kind.Increased? || Raised(log[..|log| - 1]))
  }

  /** A revert comes only within 60000 ms of a raise or the start, and a decrease that soon after a
      raise that was not reverted yet is a revert. */
  predicate Prompt(e: Event, log: seq<Event>, since: int) {
    var elapsed := MediaClock.ElapsedMs(e.from, RaisedAt(log, since));
    && (e.kind.DecreasedExcessive? ==> elapsed < MAX_MS_TO_DEEM_UPGRADE_EXCESSIVE)
    && (e.kind.DecreasedConstrained? && Raised(log) ==> elapsed >= MAX_MS_TO_DEEM_UPGRADE_EXCESSIVE)
  }

  ghost predicate Reverting(c: Controller, since: int) {
    && c.lastUpgrade == RaisedAt(c.log, since) && (Raised(c.log) ==> c.attemptRevert)
    && forall j | 0 <= j < |c.log| :: Prompt(c.log[j], c.log[..j], since)
  }

  /** A turn that sends no message. */
  predicate Quiet(c: Controller, d: Controller, changed: bool) {
    && !changed && d.log == c.log && d.bitrate == c.bitrate && d.freezeStart == c.freezeStart
    && (d.checkStability ==> c.checkStability)
    && d.lastUpgrade == c.lastUpgrade && (c.attemptRevert ==> d.attemptRevert)
    && Samples(d.window) <= Samples(c.window) + 1
  }

  /** A turn that sends e, and what that does to the flags. */
  predicate Sends(c: Controller, d: Controller, changed: bool, l: Limits, i: Input, e: Event) {
    && d.log == c.log + [e] && e.from == i.now && e.until == i.done
    && EventOk(e, c.bitrate, l) && d.bitrate == e.bitrate
    && changed == Change(e)
    && (changed ==> Samples(c.window) >= 4 && Samples(d.window) == 0)
    && (!changed ==> Samples(d.window) <= Samples(c.window) + 1)
    && d.freezeStart == (if e.kind.DecreasedExcessive? then i.done else c.freezeStart)
    && (e.kind.Increased? ==> MediaClock.ElapsedMs(i.now, c.freezeStart) > UPGRADE_FREEZE_MS)
    && (Stabilized(e) ==> c.checkStability && !d.checkStability)
    && (e.kind.DecreasedConstrained? ==> !d.checkStability)
    && (d.checkStability ==> Trigger(e, l) || c.checkStability)
    && SendsPromptly(c, d, i, e)
  }

  predicate SendsPromptly(c: Controller, d: Controller, i: Input, e: Event) {
    var revert := c.attemptRevert && MediaClock.ElapsedMs(i.now, c.lastUpgrade) < MAX_MS_TO_DEEM_UPGRADE_EXCESSIVE;
    && (e.kind.DecreasedExcessive? ==> revert)
    && (e.kind.DecreasedConstrained? ==> !revert)
    && d.lastUpgrade == (if e.kind.Increased? then e.until else c.lastUpgrade)
    && (e.kind.Increased? || (c.attemptRevert && !e.kind.DecreasedExcessive?) ==> d.attemptRevert)
  }

  /** A turn sends at most one message. */
  lemma TurnCases(c: Controller, l: Limits, i: Input, initial: uint64)
    requires WindowShape(c.window) && InRange(c, l, initial) && Sensible(l, initial)
    requires i.now <= i.done
    ensures var (d, changed) := Turn(c, l, i);
            Quiet(c, d, changed) || exists e :: Sends(c, d, changed, l, i, e)
  {
    hide Judge, InRange, Recommended;
    var sampled := c.(window := Record(c.window, i.reading));
    if sampled.window.full {
      Bounds(c, l, initial);
      var (d, changed) := Decide(sampled, l, i);
      var r := Settle(d, changed, l, i);
      if r.log != c.log {
        var e := r.log[|c.log|];
        assert r.log == c.log + [e];
        assert Sends(c, r, changed, l, i, e);
      }
    }
  }

  lemma Bounds(c: Controller, l: Limits, initial: uint64)
    requires InRange(c, l, initial) && Sensible(l, initial)
    ensures l.min <= c.bitrate <= l.max
    ensures forall r :: l.min <= Recommended(c.bitrate, l.max, l.min, r) <= l.max
    ensures Recommended(c.bitrate, l.max, l.min, Constrained) <= c.bitrate
    ensures Recommended(c.bitrate, l.max, l.min, Excessive) <= c.bitrate
    ensures Recommended(c.bitrate, l.max, l.min, Available) >= c.bitrate
  {
    forall r ensures l.min <= Recommended(c.bitrate, l.max, l.min, r) <= l.max {
      RecommendedBounds(c.bitrate, l.max, l.min, r);
    }
    RecommendedBounds(c.bitrate, l.max, l.min, Constrained);
    RecommendedBounds(c.bitrate, l.max, l.min, Excessive);
    IncreaseIff(c.bitrate, l.max, l.min);
  }

  ghost predicate Inv(t: Thread, l: Limits, initial: uint64, since: int) {
    && WindowShape(t.c.window) && InRange(t.c, l, initial) && Spaced(t) && Frozen(t) && Matched(t.c, l)
    && Reverting(t.c, since)
  }

  /** A turn keeps every part of the invariant. */
  lemma AfterKeepsInv(t: Thread, l: Limits, i: Input, initial: uint64, since: int)
    requires Inv(t, l, initial, since) && Sensible(l, initial) && Timely(t, i)
    ensures Inv(After(t, l, i), l, initial, since)
  {
    hide Turn, InRange, Spaced, Frozen, Matched, Reverting, EventOk, SendsPromptly;
    TurnShape(t.c, l, i);
    TurnCases(t.c, l, i, initial);
    var u, changed := After(t, l, i), Turn(t.c, l, i).1;
    if Quiet(t.c, u.c, changed) {
      QuietKeepsInv(t, u, l, initial, since, changed);
    } else {
      var e :| Sends(t.c, u.c, changed, l, i, e);
      assert e.from <= e.until;
      EventKeepsRange(t, u, l, e, initial);
      EventKeepsSpaced(t, u, e);
      EventKeepsFrozen(t, u, e);
      EventKeepsMatched(t.c, u.c, l, e);
      EventKeepsReverting(t.c, u.c, i, e, since);
    }
  }

  lemma QuietKeepsInv(t: Thread, u: Thread, l: Limits, initial: uint64, since: int, changed: bool)
    requires Inv(t, l, initial, since) && Quiet(t.c, u.c, changed) && WindowShape(u.c.window)
    requires u.ready >= t.ready + STREAM_STATS_CAPTURE
    ensures Inv(u, l, initial, since)
  {
  }

  lemma EventKeepsRange(t: Thread, u: Thread, l: Limits, e: Event, initial: uint64)
    requires InRange(t.c, l, initial) && u.c.log == t.c.log + [e] && u.c.bitrate == e.bitrate
    requires EventOk(e, t.c.bitrate, l)
    ensures InRange(u.c, l, initial)
  {
    forall k | 0 <= k < |u.c.log| ensures EventOk(u.c.log[k], BitrateAfter(u.c.log[..k], initial), l) {
      if k < |t.c.log| {
        assert u.c.log[..k] == t.c.log[..k];
      } else {
        assert u.c.log[..k] == t.c.log;
      }
    }
  }

  lemma EventKeepsSpaced(t: Thread, u: Thread, e: Event)
    requires Spaced(t) && u.c.log == t.c.log + [e] && t.ready <= e.from <= e.until
    requires Change(e) ==> Samples(t.c.window) >= 4 && Samples(u.c.window) == 0
                           && u.ready == e.until + BITRATE_CHANGED_COOLDOWN + STREAM_STATS_CAPTURE
    requires !Change(e) ==> Samples(u.c.window) <= Samples(t.c.window) + 1
                            && u.ready == e.until + STREAM_STATS_CAPTURE
    ensures Spaced(u)
  {
  }

  lemma EventKeepsFrozen(t: Thread, u: Thread, e: Event)
    requires Frozen(t) && u.c.log == t.c.log + [e] && t.ready <= e.from <= e.until <= u.ready
    requires u.c.freezeStart == if e.kind.DecreasedExcessive? then e.until else t.c.freezeStart
    requires e.kind.Increased? ==> MediaClock.ElapsedMs(e.from, t.c.freezeStart) > UPGRADE_FREEZE_MS
    ensures Frozen(u)
  {
  }

  lemma EventKeepsMatched(c: Controller, d: Controller, l: Limits, e: Event)
    requires Matched(c, l) && d.log == c.log + [e]
    requires Stabilized(e) ==> c.checkStability && !d.checkStability
    requires e.kind.DecreasedConstrained? ==> !d.checkStability
    requires d.checkStability ==> Trigger(e, l) || c.checkStability
    ensures Matched(d, l)
  {
    if d.checkStability {
      if Trigger(e, l) {
        assert Open(d.log, |c.log|, l);
      } else {
        var k :| Open(c.log, k, l);
        assert Open(d.log, k, l);
      }
    }
    forall j | 0 <= j < |d.log| && Stabilized(d.log[j])
      ensures exists k :: Open(d.log[..j], k, l)
    {
      if j < |c.log| {
        assert d.log[..j] == c.log[..j];
      } else {
        assert d.log[..j] == c.log;
      }
    }
  }

  lemma EventKeepsReverting(c: Controller, d: Controller, i: Input, e: Event, since: int)
    requires Reverting(c, since) && d.log == c.log + [e] && e.from == i.now && SendsPromptly(c, d, i, e)
    ensures Reverting(d, since)
  {
    assert d.log[..|c.log|] == c.log;
    forall j | 0 <= j < |d.log| ensures Prompt(d.log[j], d.log[..j], since) {
      if j < |c.log| {
        assert d.log[..j] == c.log[..j];
      }
    }
  }

  /** Main result: what holds after every run whose waits have their full length. */
  lemma {:induction false} RunKeepsInv(l: Limits, initial: uint64, first: Reading, now: int, inputs: seq<Input>)
    requires Sensible(l, initial)
    requires TimelyRun(l, Thread(Start(initial, first, now), now), inputs)
    ensures Inv(Run(l, Thread(Start(initial, first, now), now), inputs), l, initial, now)
  {
    var start := Thread(Start(initial, first, now), now);
    if inputs != [] {
      RunKeepsInv(l, initial, first, now, inputs[..|inputs| - 1]);
      AfterKeepsInv(Run(l, start, inputs[..|inputs| - 1]), l, inputs[|inputs| - 1], initial, now);
    }
  }

  /** Two reports of a stable bitrate have different triggers. */
  lemma OneReportPerTrigger(log: seq<Event>, l: Limits, j: nat, j': nat, k: nat, k': nat)
    requires j < j' < |log| && Stabilized(log[j])
    requires Open(log[..j], k, l) && Open(log[..j'], k', l)
    ensures k < j < k'
  {
    assert log[..j'][j] == log[j];
  }

  // ---------------------------------------------------------------------------
  // The freeze is three minutes
  // ---------------------------------------------------------------------------

  const ZEROS: seq<uint64> := [0, 0, 0, 0, 0]
  const IDLE := Reading(0, 0, 0, 0, 0.0)

  function IdleWindow(pos: nat, full: bool): Window {
    Window(ZEROS, ZEROS, ZEROS, ZEROS, pos, full, IDLE)
  }

  /** A turn at a time, with idle counters and a given fullness of the queue. */
  function At(now: int, fullness: real): Input {
    Input(Reading(0, 0, 0, 0, fullness), now, true, now, IDLE)
  }

  lemma RunSnoc(l: Limits, start: Thread, inputs: seq<Input>, i: Input)
    requires WindowShape(start.c.window)
    ensures Run(l, start, inputs + [i]) == After(Run(l, start, inputs), l, i)
    ensures TimelyRun(l, start, inputs + [i]) <==> TimelyRun(l, start, inputs) && Timely(Run(l, start, inputs), i)
  {
    assert (inputs + [i])[..|inputs|] == inputs;
  }

  lemma IdleTurn(t: Thread, l: Limits, pos: nat, now: int)
    requires t.c.window == IdleWindow(pos, false) && pos < 4
    ensures After(t, l, At(now, 0.0)) == Thread(t.c.(window := IdleWindow(pos + 1, false)), now + STREAM_STATS_CAPTURE)
  {
  }

  /** Five samples fill an empty window; the fifth turn decides. */
  lemma FiveTurns(l: Limits, start: Thread, inputs: seq<Input>, from: int, fullness: real) returns (all: seq<Input>)
    requires WindowShape(start.c.window) && TimelyRun(l, start, inputs)
    requires var t := Run(l, start, inputs); t.c.window == IdleWindow(0, false) && t.ready <= from
    ensures TimelyRun(l, start, all)
    ensures var t := Run(l, start, inputs);
            Run(l, start, all) == After(Thread(t.c.(window := IdleWindow(4, false)), from + 4 * STREAM_STATS_CAPTURE),
                                        l, At(from + 4 * STREAM_STATS_CAPTURE, fullness))
  {
    hide Turn, Run, TimelyRun, After;
    all := inputs;
    var t := Run(l, start, inputs);
    for k := 0 to 4
      invariant TimelyRun(l, start, all)
      invariant Run(l, start, all).c == t.c.(window := IdleWindow(k, false))
      invariant Run(l, start, all).ready <= from + k * STREAM_STATS_CAPTURE
      invariant k > 0 ==> Run(l, start, all).ready == from + k * STREAM_STATS_CAPTURE
    {
      var i := At(from + k * STREAM_STATS_CAPTURE, 0.0);
      RunSnoc(l, start, all, i);
      IdleTurn(Run(l, start, all), l, k, from + k * STREAM_STATS_CAPTURE);
      all := all + [i];
    }
    RunSnoc(l, start, all, At(from + 4 * STREAM_STATS_CAPTURE, fullness));
    all := all + [At(from + 4 * STREAM_STATS_CAPTURE, fullness)];
  }

  /** A full window of idle samples is stable, and with a full queue it calls for a reduction. */
  lemma IdleVerdict(now: int, fullness: real)
    requires fullness == 0.0 || fullness == 1.0
    ensures var w := Record(IdleWindow(4, false), At(now, fullness).reading);
            w == Window(ZEROS, ZEROS, ZEROS, ZEROS, 0, true, At(now, fullness).reading)
            && Judge(w) == Verdict(fullness == 1.0, fullness == 0.0)
  {
    TotalIsSum(ZEROS);
  }

  lemma FifthTurn(c: Controller, l: Limits, now: int, fullness: real)
    requires c.window == IdleWindow(4, false) && (fullness == 0.0 || fullness == 1.0)
    ensures var i := At(now, fullness);
            var sampled := c.(window := Record(c.window, i.reading));
            var (d, changed) := Decide(sampled, l, i);
            After(Thread(c, now), l, i) ==
            Thread(Settle(d, changed, l, i),
                   now + (if changed then BITRATE_CHANGED_COOLDOWN else 0) + STREAM_STATS_CAPTURE)
  {
    hide Judge, Decide, Settle;
    IdleVerdict(now, fullness);
  }

  /** A stable window behind the freeze raises the bitrate. */
  lemma RaiseTurn(c: Controller, l: Limits, now: int)
    requires c.window == IdleWindow(4, false) && l.min <= c.bitrate < l.max && Sensible(l, c.bitrate)
    requires MediaClock.ElapsedMs(now, c.freezeStart) > UPGRADE_FREEZE_MS
    ensures var (d, e) := (After(Thread(c, now), l, At(now, 0.0)), Event(Increased, Raise(c, l), c.bitrate, now, now));
            && d.c.log == c.log + [e] && d.c.window == IdleWindow(0, false)
            && d.c.bitrate == Raise(c, l) > c.bitrate && d.c.attemptRevert && d.c.lastUpgrade == now
            && d.c.freezeStart == c.freezeStart && d.ready == now + BITRATE_CHANGED_COOLDOWN + STREAM_STATS_CAPTURE
  {
    hide Judge;
    FifthTurn(c, l, now, 0.0);
    IdleVerdict(now, 0.0);
  }

  function Raise(c: Controller, l: Limits): uint64 {
    Recommended(c.bitrate, l.max, l.min, Available)
  }

  /** A full queue soon after a raise reverts it. */
  lemma RevertTurn(c: Controller, l: Limits, now: int)
    requires c.window == IdleWindow(4, false) && l.min < c.bitrate <= l.max && c.attemptRevert
    requires MediaClock.ElapsedMs(now, c.lastUpgrade) < MAX_MS_TO_DEEM_UPGRADE_EXCESSIVE
    ensures var d := After(Thread(c, now), l, At(now, 1.0));
            && d.c.log == c.log + [Event(DecreasedExcessive, d.c.bitrate, c.bitrate, now, now)]
            && d.c.window == IdleWindow(0, false) && l.min <= d.c.bitrate < l.max
            && d.c.freezeStart == now && d.ready == now + BITRATE_CHANGED_COOLDOWN + STREAM_STATS_CAPTURE
  {
    hide Judge;
    FifthTurn(c, l, now, 1.0);
    IdleVerdict(now, 1.0);
    WrapIs(80 * c.bitrate);
  }

  /**
   * A run with a raise, its revert as excessive, and the next raise less than four minutes after it,
   * although the comments promise that upgrades are frozen for ten.
   */
  lemma RaisesBeforeTenMinutes(l: Limits, initial: uint64) returns (inputs: seq<Input>)
    requires Sensible(l, initial) && initial < l.max
    ensures var start := Thread(Start(initial, IDLE, 0), 0);
            && TimelyRun(l, start, inputs)
            && var log := Run(l, start, inputs).c.log;
               && |log| == 3 && log[1].kind.DecreasedExcessive? && log[2].kind.Increased?
               && log[2].from - log[1].until < 240 * STREAM_STATS_CAPTURE
  {
    hide Run, TimelyRun, After, Recommended;
    var start := Thread(Start(initial, IDLE, 0), 0);
    StartRun(l, start);
    var a := 200 * STREAM_STATS_CAPTURE;
    inputs := FiveTurns(l, start, [], a, 0.0);
    RaiseTurn(start.c.(window := IdleWindow(4, false)), l, a + 4 * STREAM_STATS_CAPTURE);
    RecommendedBounds(initial, l.max, l.min, Available);
    var t := Run(l, start, inputs);
    var b := a + 16 * STREAM_STATS_CAPTURE;
    inputs := FiveTurns(l, start, inputs, b, 1.0);
    RevertTurn(t.c.(window := IdleWindow(4, false)), l, b + 4 * STREAM_STATS_CAPTURE);
    var u := Run(l, start, inputs);
    var d := b + 200 * STREAM_STATS_CAPTURE;
    inputs := FiveTurns(l, start, inputs, d, 0.0);
    RaiseTurn(u.c.(window := IdleWindow(4, false)), l, d + 4 * STREAM_STATS_CAPTURE);
  }

  lemma StartRun(l: Limits, start: Thread)
    requires WindowShape(start.c.window)
    ensures Run(l, start, []) == start && TimelyRun(l, start, [])
  {
  }

  // ---------------------------------------------------------------------------
  // The window
  // ---------------------------------------------------------------------------

  /** The readings since the last baseline, the baseline first. */
  function History(l: Limits, start: Thread, inputs: seq<Input>): (h: seq<Reading>)
    requires WindowShape(start.c.window)
    ensures |h| > 0
  {
    if inputs == [] then [start.c.window.last]
    else
      var init, i := inputs[..|inputs| - 1], inputs[|inputs| - 1];
      if Turn(Run(l, start, init).c, l, i).1 then [i.after] else History(l, start, init) + [i.reading]
  }

  /** A ring that holds the last five differences of the counters in h. */
  ghost predicate Tracks(ring: seq<uint64>, h: seq<uint64>) {
    && |ring| == MAX_STAT_SIZE && |h| > 0
    && forall k | 1 <= k < |h| && k >= |h| - MAX_STAT_SIZE :: ring[(k - 1) % MAX_STAT_SIZE] == Minus(h[k], h[k - 1])
  }

  lemma TrackOne(ring: seq<uint64>, h: seq<uint64>, next: uint64)
    requires Tracks(ring, h)
    ensures Tracks(ring[(|h| - 1) % MAX_STAT_SIZE := Minus(next, h[|h| - 1])], h + [next])
  {
    var pos, g := (|h| - 1) % MAX_STAT_SIZE, h + [next];
    forall k | 1 <= k < |g| && k >= |g| - MAX_STAT_SIZE
      ensures ring[pos := Minus(next, h[|h| - 1])][(k - 1) % MAX_STAT_SIZE] == Minus(g[k], g[k - 1])
    {
      if k < |h| {
        assert 1 <= |h| - k < MAX_STAT_SIZE;
        assert (k - 1) % MAX_STAT_SIZE != pos;
      }
    }
  }

  /** A ring that holds the last five of the values in h. */
  ghost predicate Holds(ring: seq<uint64>, h: seq<uint64>) {
    && |ring| == MAX_STAT_SIZE && |h| > 0
    && forall k | 1 <= k < |h| && k >= |h| - MAX_STAT_SIZE :: ring[(k - 1) % MAX_STAT_SIZE] == h[k]
  }

  lemma HoldOne(ring: seq<uint64>, h: seq<uint64>, next: uint64)
    requires Holds(ring, h)
    ensures Holds(ring[(|h| - 1) % MAX_STAT_SIZE := next], h + [next])
  {
    var pos, g := (|h| - 1) % MAX_STAT_SIZE, h + [next];
    forall k | 1 <= k < |g| && k >= |g| - MAX_STAT_SIZE
      ensures ring[pos := next][(k - 1) % MAX_STAT_SIZE] == g[k]
    {
      if k < |h| {
        assert 1 <= |h| - k < MAX_STAT_SIZE;
        assert (k - 1) % MAX_STAT_SIZE != pos;
      }
    }
  }

  /** The sum of the ring is that of the last five values. */
  lemma HeldSum(ring: seq<uint64>, h: seq<uint64>)
    requires Holds(ring, h) && |h| > MAX_STAT_SIZE
    ensures Total(ring) == Wrap(Sum5(h[|h| - MAX_STAT_SIZE..]))
  {
    hide Wrap, Total;
    var n := |h| - 1;
    RingSum(ring, n);
    TotalIsSum(ring);
  }

  function Sum5(s: seq<uint64>): int
    requires |s| == MAX_STAT_SIZE
  {
    s[0] as int + s[1] + s[2] + s[3] + s[4]
  }

  lemma TotalIsSum(s: seq<uint64>)
    requires |s| == MAX_STAT_SIZE
    ensures Total(s) == Wrap(Sum5(s))
  {
    hide Wrap;
    var a: int, b: int, c: int, d: int, e: int := s[0], s[1], s[2], s[3], s[4];
    TotalNext(s, 0);
    TotalNext(s, 1);
    TotalNext(s, 2);
    TotalNext(s, 3);
    TotalNext(s, 4);
    assert s[..5] == s;
    WrapAdd(0, a);
    WrapAdd(a, b);
    WrapAdd(a + b, c);
    WrapAdd(a + b + c, d);
    WrapAdd(a + b + c + d, e);
  }

  lemma TotalNext(s: seq<uint64>, i: nat)
    requires i < |s|
    ensures Total(s[..0]) == Wrap(0)
    ensures Total(s[..i + 1]) == Wrap(Total(s[..i]) + s[i])
  {
    assert s[..i + 1][..i] == s[..i];
  }

  lemma WrapAdd(x: int, y: int)
    ensures Wrap(Wrap(x) + y) == Wrap(x + y)
  {
  }

  /** The sum of the ring is the difference of the counter over the last five samples. */
  lemma Telescopes(ring: seq<uint64>, h: seq<uint64>)
    requires Tracks(ring, h) && |h| > MAX_STAT_SIZE
    ensures Total(ring) == Minus(h[|h| - 1], h[|h| - 1 - MAX_STAT_SIZE])
  {
    hide Wrap, Total, Sum5, Tracks;
    var n := |h| - 1;
    var h0: int, h1: int, h2: int, h3: int, h4: int, h5: int := h[n], h[n - 1], h[n - 2], h[n - 3], h[n - 4], h[n - 5];
    LastFive(ring, h);
    RingSum(ring, n);
    TotalIsSum(ring);
    WrapFive(h0 - h1, h1 - h2, h2 - h3, h3 - h4, h4 - h5);
  }

  lemma LastFive(ring: seq<uint64>, h: seq<uint64>)
    requires Tracks(ring, h) && |h| > MAX_STAT_SIZE
    ensures |ring| == MAX_STAT_SIZE
    ensures var n := |h| - 1;
            && ring[(n - 1) % 5] == Minus(h[n], h[n - 1])
            && ring[(n - 2) % 5] == Minus(h[n - 1], h[n - 2])
            && ring[(n - 3) % 5] == Minus(h[n - 2], h[n - 3])
            && ring[(n - 4) % 5] == Minus(h[n - 3], h[n - 4])
            && ring[(n - 5) % 5] == Minus(h[n - 4], h[n - 5])
  {
    hide Wrap, Minus;
  }

  /** Five consecutive places are all places. */
  lemma RingSum(s: seq<uint64>, n: nat)
    requires |s| == MAX_STAT_SIZE && n >= 5
    ensures Sum5(s) == s[(n - 1) % 5] as int + s[(n - 2) % 5] + s[(n - 3) % 5] + s[(n - 4) % 5] + s[(n - 5) % 5]
  {
    var r := n % 5;
    assert (n - 5) % 5 == r;
    assert (n - 4) % 5 == if r == 4 then 0 else r + 1;
    assert (n - 3) % 5 == if r >= 3 then r - 3 else r + 2;
    assert (n - 2) % 5 == if r >= 2 then r - 2 else r + 3;
    assert (n - 1) % 5 == if r >= 1 then r - 1 else 4;
  }

  lemma WrapFive(a: int, b: int, c: int, d: int, e: int)
    ensures Wrap(Wrap(a) as int + Wrap(b) + Wrap(c) + Wrap(d) + Wrap(e)) == Wrap(a + b + c + d + e)
  {
    WrapAdd(a, Wrap(b) as int + Wrap(c) + Wrap(d) + Wrap(e));
    WrapAdd(b, a + Wrap(c) + Wrap(d) + Wrap(e));
    WrapAdd(c, a + b + Wrap(d) + Wrap(e));
    WrapAdd(d, a + b + c + Wrap(e));
    WrapAdd(e, a + b + c + d);
  }

  function Nacks(h: seq<Reading>): seq<uint64> { seq(|h|, k requires 0 <= k < |h| => h[k].nacks) }

  function Frames(h: seq<Reading>): seq<uint64> { seq(|h|, k requires 0 <= k < |h| => h[k].frames) }

  function Drops(h: seq<Reading>): seq<uint64> { seq(|h|, k requires 0 <= k < |h| => h[k].dropped) }

  function Rtts(h: seq<Reading>): seq<uint64> { seq(|h|, k requires 0 <= k < |h| => h[k].rtt) }

  /** The window stands for a history. */
  ghost predicate WindowOf(w: Window, h: seq<Reading>) {
    && WindowShape(w) && |h| > 0
    && w.last == h[|h| - 1]
    && w.pos == (|h| - 1) % MAX_STAT_SIZE && (w.full <==> |h| > MAX_STAT_SIZE)
    && Tracks(w.nacks, Nacks(h)) && Tracks(w.frames, Frames(h)) && Tracks(w.dropped, Drops(h))
    && Holds(w.rtts, Rtts(h))
  }

  lemma RecordWindow(w: Window, h: seq<Reading>, r: Reading)
    requires WindowOf(w, h)
    ensures WindowOf(Record(w, r), h + [r])
  {
    hide Tracks, Holds;
    HoldOne(w.rtts, Rtts(h), r.rtt);
    assert Rtts(h + [r]) == Rtts(h) + [r.rtt];
    TrackOne(w.nacks, Nacks(h), r.nacks);
    TrackOne(w.frames, Frames(h), r.frames);
    TrackOne(w.dropped, Drops(h), r.dropped);
    assert Nacks(h + [r]) == Nacks(h) + [r.nacks];
    assert Frames(h + [r]) == Frames(h) + [r.frames];
    assert Drops(h + [r]) == Drops(h) + [r.dropped];
  }

  /** The window after a turn: the recorded one, or an empty one with a new baseline. */
  lemma TurnWindow(c: Controller, l: Limits, i: Input)
    requires WindowShape(c.window)
    ensures Turn(c, l, i).0.window ==
            if Turn(c, l, i).1 then Record(c.window, i.reading).(pos := 0, full := false, last := i.after)
            else Record(c.window, i.reading)
  {
    hide Judge, Recommended, Record;
  }

  /** In every run the window stands for the readings since the last baseline. */
  lemma {:induction false} RunWindow(l: Limits, start: Thread, inputs: seq<Input>)
    requires WindowOf(start.c.window, [start.c.window.last])
    ensures WindowOf(Run(l, start, inputs).c.window, History(l, start, inputs))
  {
    hide Turn, Record, Tracks, Holds;
    if inputs != [] {
      var init, i := inputs[..|inputs| - 1], inputs[|inputs| - 1];
      RunWindow(l, start, init);
      var t := Run(l, start, init);
      TurnShape(t.c, l, i);
      TurnWindow(t.c, l, i);
      RecordWindow(t.c.window, History(l, start, init), i.reading);
      if Turn(t.c, l, i).1 {
        NewBaseline(Record(t.c.window, i.reading), i.after);
      }
    }
  }

  lemma NewBaseline(w: Window, r: Reading)
    requires WindowShape(w)
    ensures WindowOf(w.(pos := 0, full := false, last := r), [r])
  {
  }

  /** The sum of the last five RTTs of a history, in uint64_t. */
  function LastRtts(h: seq<Reading>): uint64
    requires |h| > MAX_STAT_SIZE
  {
    var n := |h| - 1;
    Wrap(h[n].rtt as int + h[n - 1].rtt + h[n - 2].rtt + h[n - 3].rtt + h[n - 4].rtt)
  }

  /** Main result: whenever the window is evaluated, its sums are the differences of the cumulative
      counters to the reading five samples before, none of them older than the last baseline, and the sum
      of the last five RTTs. */
  lemma WindowTelescopes(l: Limits, initial: uint64, first: Reading, now: int, inputs: seq<Input>, i: Input)
    ensures var start := Thread(Start(initial, first, now), now);
            var w := Record(Run(l, start, inputs).c.window, i.reading);
            var h := History(l, start, inputs) + [i.reading];
            && w.last == i.reading && (w.full <==> |h| > 5)
            && (w.full ==>
                  var old5 := h[|h| - 6];
                  && Total(w.nacks) == Minus(i.reading.nacks, old5.nacks)
                  && Total(w.frames) == Minus(i.reading.frames, old5.frames)
                  && Total(w.dropped) == Minus(i.reading.dropped, old5.dropped)
                  && Total(w.rtts) == LastRtts(h))
  {
    hide Record, Tracks, Holds, Run, History;
    var start := Thread(Start(initial, first, now), now);
    NewBaseline(start.c.window, first);
    RunWindow(l, start, inputs);
    var h := History(l, start, inputs) + [i.reading];
    RecordWindow(Run(l, start, inputs).c.window, History(l, start, inputs), i.reading);
    var w := Record(Run(l, start, inputs).c.window, i.reading);
    if w.full {
      Telescopes(w.nacks, Nacks(h));
      Telescopes(w.frames, Frames(h));
      Telescopes(w.dropped, Drops(h));
      HeldSum(w.rtts, Rtts(h));
    }
  }

  // ---------------------------------------------------------------------------
  // What a turn does
  // ---------------------------------------------------------------------------

  /** The last five samples of a history show congestion, or health. */
  predicate ShowsCongestion(h: seq<Reading>)
    requires |h| > MAX_STAT_SIZE
  {
    var r, old5 := h[|h| - 1], h[|h| - 6];
    Congested(Minus(r.nacks, old5.nacks), Minus(r.frames, old5.frames), LastRtts(h), r.fullness)
  }

  predicate ShowsHealth(h: seq<Reading>)
    requires |h| > MAX_STAT_SIZE
  {
    var r, old5 := h[|h| - 1], h[|h| - 6];
    Healthy(Minus(r.nacks, old5.nacks), Minus(r.frames, old5.frames), LastRtts(h), Minus(r.dropped, old5.dropped),
            r.fullness)
  }

  /** What a turn finds: too few samples, congestion, health, or neither. */
  datatype Finding = Few | Congestion | Health | Neither

  function Found(h: seq<Reading>): Finding {
    if |h| <= MAX_STAT_SIZE then Few
    else if ShowsCongestion(h) then Congestion
    else if ShowsHealth(h) then Health
    else Neither
  }

  /** The report of a stable bitrate, if the thread looks for one. */
  function Report(c: Controller, l: Limits, i: Input): seq<Event> {
    if !c.checkStability then []
    else
      var kind := if c.bitrate == l.max then StabilizedOriginal else StabilizedLower;
      [Event(kind, c.bitrate, c.bitrate, i.now, i.done)]
  }

  /** The messages of a turn, in numbers. */
  function Messages(c: Controller, l: Limits, i: Input, f: Finding): seq<Event> {
    match f
    case Few => []
    case Congestion =>
      if c.attemptRevert && (i.now - c.lastUpgrade) / 1000 < 60000 then
        if !i.accepted then Report(c, l, i)
        else [Event(DecreasedExcessive, AtLeast(l.min, Share(80, c.bitrate)), c.bitrate, i.now, i.done)]
      else if !i.accepted then []
      else [Event(DecreasedConstrained, AtLeast(l.min, Share(50, c.bitrate)), c.bitrate, i.now, i.done)]
    case Health =>
      if (i.now - c.freezeStart) / 1000 <= 180000 || c.bitrate == l.max || !i.accepted then Report(c, l, i)
      else
        var rec := if c.bitrate + 256000 > l.max then l.max else c.bitrate + 256000;
        [Event(Increased, rec, c.bitrate, i.now, i.done)]
    case Neither => Report(c, l, i)
  }

  /** The flags and clocks behind a turn with these messages. */
  predicate Follows(c: Controller, d: Controller, l: Limits, i: Input, f: Finding) {
    var sent := Messages(c, l, i, f);
    var revert := (i.now - c.lastUpgrade) / 1000 < 60000 && c.attemptRevert;
    var raise := f.Health? && (i.now - c.freezeStart) / 1000 > 180000 && c.bitrate != l.max;
    && d.log == c.log + sent && d.bitrate == BitrateAfter(sent, c.bitrate)
    && d.attemptRevert == (raise || (c.attemptRevert && !(f.Congestion? && revert && i.accepted)))
    && d.lastUpgrade == (if raise && i.accepted then i.done else c.lastUpgrade)
    && d.freezeStart == (if f.Congestion? && revert && i.accepted then i.done else c.freezeStart)
    && d.checkStability ==
       if f.Few? then c.checkStability
       else i.accepted && ((f.Congestion? && revert) || (raise && (c.checkStability || d.bitrate == l.max)))
  }

  /** What a turn finds in its window. */
  function Sees(w: Window): Finding {
    if !w.full then Few
    else if Judge(w).reduce then Congestion
    else if Judge(w).stable then Health
    else Neither
  }

  /** A turn sends exactly these messages, takes over their bitrate, and ends in a cooldown exactly if one
      of them changes it. */
  lemma TurnMessages(c: Controller, l: Limits, i: Input)
    requires WindowShape(c.window) && l.min <= c.bitrate <= l.max && l.max + 256000 < TWO_64
    ensures var (d, changed) := Turn(c, l, i);
            var f := Sees(Record(c.window, i.reading));
            && Follows(c, d, l, i, f)
            && (changed <==> Messages(c, l, i, f) != [] && Change(Messages(c, l, i, f)[0]))
  {
    hide Judge, Record, Recommended, Share;
    RecommendedIs(c.bitrate, l.max, l.min);
  }

  /** The window shows what the history of the run does. */
  lemma SeesFound(l: Limits, initial: uint64, first: Reading, now: int, inputs: seq<Input>, i: Input)
    ensures var start := Thread(Start(initial, first, now), now);
            Sees(Record(Run(l, start, inputs).c.window, i.reading)) == Found(History(l, start, inputs) + [i.reading])
  {
    hide Judge, Record, Run, History, Congested, Healthy, LastRtts;
    WindowTelescopes(l, initial, first, now, inputs, i);
    var start := Thread(Start(initial, first, now), now);
    VerdictIff(Record(Run(l, start, inputs).c.window, i.reading));
  }

  /**
   * Main result, liveness and safety of every decision: in every run whose waits have their full length, the
   * readings since the last baseline decide what the next turn sends. Congestion lowers the bitrate to half, or
   * to 80 per cent within 60000 ms of a raise not yet reverted; health raises it by 256000 bit/s once 180000 ms
   * have passed since the last revert; nothing else changes it.
   */
  lemma RunDecides(l: Limits, initial: uint64, first: Reading, now: int, inputs: seq<Input>, i: Input)
    requires Sensible(l, initial)
    requires TimelyRun(l, Thread(Start(initial, first, now), now), inputs)
    ensures var start := Thread(Start(initial, first, now), now);
            var c, f := Run(l, start, inputs).c, Found(History(l, start, inputs) + [i.reading]);
            && Follows(c, Turn(c, l, i).0, l, i, f)
            && (Turn(c, l, i).1 <==> Messages(c, l, i, f) != [] && Change(Messages(c, l, i, f)[0]))
            && c.lastUpgrade == RaisedAt(c.log, now) && c.freezeStart == FrozenSince(c.log)
            && c.bitrate == BitrateAfter(c.log, initial)
  {
    hide Run, TimelyRun, History, Turn, Record, Follows, Sees, Found, Messages, Spaced, Matched, EventOk, Prompt;
    RunKeepsInv(l, initial, first, now, inputs);
    SeesFound(l, initial, first, now, inputs, i);
    TurnMessages(Run(l, Thread(Start(initial, first, now), now), inputs).c, l, i);
  }
  // ---------------------------------------------------------------------------
  // The thread
  // ---------------------------------------------------------------------------

  /** The summing loops. */
  method SumOf(a: array<uint64>) returns (total: uint64)
    ensures total == Total(a[..])
  {
    total := 0;
    for i := 0 to a.Length
      invariant total == Total(a[..i])
    {
      total := Wrap(total + a[i]);
      assert a[..i + 1][..i] == a[..i];
    }
    assert a[..a.Length] == a[..];
  }

  /** The variables of adaptive_bitrate_thread; `log` is the messages it has sent. */
  class BitrateThread {
    const nacksReceived: array<uint64>
    const framesSent: array<uint64>
    const framesDropped: array<uint64>
    const rttsReceived: array<uint64>
    var position: nat
    var circularBufferIsFull: bool
    var lastRecorded: Reading
    var currentBitrate: uint64
    var lastUpgradeTime: int
    var freezeStartTime: int
    var attemptRevert: bool
    var checkForStability: bool
    const limits: Limits

    ghost var log: seq<Event>

    ghost predicate Valid()
      reads this
    {
      && nacksReceived.Length == framesSent.Length == framesDropped.Length == rttsReceived.Length == MAX_STAT_SIZE
      && nacksReceived != framesSent && nacksReceived != framesDropped && nacksReceived != rttsReceived
      && framesSent != framesDropped && framesSent != rttsReceived && framesDropped != rttsReceived
      && position < MAX_STAT_SIZE
    }

    ghost function View(): (c: Controller)
      reads this, nacksReceived, framesSent, framesDropped, rttsReceived
      requires Valid()
      ensures WindowShape(c.window)
    {
      Controller(Window(nacksReceived[..], framesSent[..], framesDropped[..], rttsReceived[..],
                        position, circularBufferIsFull, lastRecorded),
                 currentBitrate, lastUpgradeTime, freezeStartTime, attemptRevert, checkForStability, log)
    }

    constructor (l: Limits, initial: uint64, first: Reading, now: int)
      ensures Valid() && limits == l && View() == Start(initial, first, now)
    {
      nacksReceived := new uint64[MAX_STAT_SIZE](_ => 0);
      framesSent := new uint64[MAX_STAT_SIZE](_ => 0);
      framesDropped := new uint64[MAX_STAT_SIZE](_ => 0);
      rttsReceived := new uint64[MAX_STAT_SIZE](_ => 0);
      position, circularBufferIsFull, lastRecorded := 0, false, first;
      currentBitrate, lastUpgradeTime, freezeStartTime := initial, now, 0;
      attemptRevert, checkForStability, limits, log := false, false, l, [];
    }

    /** The sample of this turn. */
    method Sample(r: Reading)
      requires Valid()
      modifies this`position, this`circularBufferIsFull, this`lastRecorded
      modifies nacksReceived, framesSent, framesDropped, rttsReceived
      ensures Valid() && View() == old(View()).(window := Record(old(View()).window, r))
    {
      nacksReceived[position] := Minus(r.nacks, lastRecorded.nacks);
      framesSent[position] := Minus(r.frames, lastRecorded.frames);
      rttsReceived[position] := r.rtt;
      framesDropped[position] := Minus(r.dropped, lastRecorded.dropped);
      lastRecorded := r;
      if position + 1 >= MAX_STAT_SIZE {
        circularBufferIsFull := true;
      }
      position := (position + 1) % MAX_STAT_SIZE;
    }

    /** The evaluation of a full window. */
    method Evaluate() returns (v: Verdict)
      requires Valid()
      ensures v == Judge(View().window)
      ensures var nacks, frames, rtts := Total(nacksReceived[..]), Total(framesSent[..]), Total(rttsReceived[..]);
              && (v.reduce <==> Congested(nacks, frames, rtts, lastRecorded.fullness))
              && (v.stable <==> Healthy(nacks, frames, rtts, Total(framesDropped[..]), lastRecorded.fullness))
    {
      VerdictIff(View().window);
      var nacksTotal := SumOf(nacksReceived);
      var framesTotal := SumOf(framesSent);
      var ratio := 0.0;
      if framesTotal != 0 {
        ratio := (nacksTotal as real) / (framesTotal as real);
      }
      var totalRtt := SumOf(rttsReceived);
      var avgRtt := (totalRtt as real) / 5.0;
      var droppedTotal := SumOf(framesDropped);
      v := Verdict(ReductionRequired(ratio, avgRtt, lastRecorded.fullness),
                   BandwidthStable(ratio, avgRtt, droppedTotal / 5, lastRecorded.fullness));
    }

    /** Revert, decrease or increase, if the callback agrees. */
    method Adapt(i: Input) returns (changed: bool)
      requires Valid()
      modifies this
      ensures Valid() && (View(), changed) == Decide(old(View()), limits, i)
    {
      hide Judge, Recommended;
      changed := false;
      var v := Evaluate();
      if v.reduce {
        if attemptRevert && MediaClock.ElapsedMs(i.now, lastUpgradeTime) < MAX_MS_TO_DEEM_UPGRADE_EXCESSIVE {
          var rec := Recommended(currentBitrate, limits.max, limits.min, Excessive);
          if i.accepted {
            log := log + [Event(DecreasedExcessive, rec, currentBitrate, i.now, i.done)];
            changed, checkForStability, attemptRevert := true, true, false;
            currentBitrate, freezeStartTime := rec, i.done;
          }
        } else {
          var rec := Recommended(currentBitrate, limits.max, limits.min, Constrained);
          checkForStability := false;
          if i.accepted {
            log := log + [Event(DecreasedConstrained, rec, currentBitrate, i.now, i.done)];
            changed, currentBitrate := true, rec;
          }
        }
      } else if v.stable {
        if MediaClock.ElapsedMs(i.now, freezeStartTime) > UPGRADE_FREEZE_MS {
          var rec := Recommended(currentBitrate, limits.max, limits.min, Available);
          if rec != currentBitrate {
            attemptRevert := true;
            if i.accepted {
              log := log + [Event(Increased, rec, currentBitrate, i.now, i.done)];
              changed, currentBitrate := true, rec;
              if rec == limits.max {
                checkForStability := true;
              }
              lastUpgradeTime := i.done;
            }
          }
        }
      }
    }

    /** One turn of the loop. */
    method Iterate(i: Input) returns (changed: bool)
      requires Valid()
      modifies this, nacksReceived, framesSent, framesDropped, rttsReceived
      ensures Valid() && (View(), changed) == Turn(old(View()), limits, i)
    {
      hide Judge, Recommended, Record, Decide;
      changed := false;
      Sample(i.reading);
      if circularBufferIsFull {
        changed := Adapt(i);
        if changed {
          circularBufferIsFull := false;
          position := 0;
          lastRecorded := i.after;
        } else if checkForStability {
          checkForStability := false;
          if currentBitrate == limits.max {
            log := log + [Event(StabilizedOriginal, limits.max, currentBitrate, i.now, i.done)];
          } else {
            log := log + [Event(StabilizedLower, currentBitrate, currentBitrate, i.now, i.done)];
          }
        }
      }
    }
  }
}
