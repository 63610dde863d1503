/** RTP timestamps, wall-clock arithmetic and the clocks of RTCP sender reports. */
module MediaClock {
  import opened Arithmetic
  import opened Bytes

  const USEC_IN_SEC := 1_000_000
  const HALF_SEC := 500_000
  const VIDEO_RTP_TS_CLOCK_HZ := 90_000
  const NTP_EPOCH := 2_208_988_800

  /** 2^64 / 10^6 is 2^58 / ODD_PART in lowest terms. */
  const ODD_PART := 15_625
  const TWO_26 := 0x400_0000
  const TWO_52 := 0x10_0000_0000_0000
  const TWO_53 := 0x20_0000_0000_0000
  const TWO_58 := 0x400_0000_0000_0000

  // ---------------------------------------------------------------------------
  // RTP timestamps
  // ---------------------------------------------------------------------------

  /** The timestamp of a frame d microseconds after the first, in the unsigned arithmetic of the code. */
  function Timestamp(d: int, clock: nat): uint32 {
    var timestamp: uint64 := d * clock % TWO_64;
    (timestamp as int + HALF_SEC) % TWO_64 / USEC_IN_SEC % TWO_32
  }

  /** The elapsed time in clock ticks, to the nearest tick. */
  function Ticks(d: int, clock: nat): int {
    (d * clock + HALF_SEC) / USEC_IN_SEC
  }

  /** How often the 64-bit product wraps. */
  function Wraps(d: int, clock: nat): int {
    (d * clock + HALF_SEC) / TWO_64
  }

  /** To the nearest: never more than half a tick from the elapsed time. */
  lemma TicksNearest(d: int, clock: nat)
    ensures -HALF_SEC < Ticks(d, clock) * USEC_IN_SEC - d * clock <= HALF_SEC
  {
  }

  lemma DivideSum(x: int, k: int, m: int)
    requires m > 0
    ensures (k * m + x) / m == k + x / m && (k * m + x) % m == x % m
  {
    DivMod(x, m);
    Distribute(k, x / m, m);
    DivUnique(k * m + x, m, k + x / m, x % m);
  }

  /** 12659 is the inverse of 2^26 modulo ODD_PART. */
  lemma OddPartDivides(s: int, n: int)
    requires s * TWO_26 == n * ODD_PART
    ensures s % ODD_PART == 0
  {
    var v := 54369991;
    assert TWO_26 * 12659 == v * ODD_PART + 1;
    assert s == (n * 12659 - s * v) * ODD_PART;
  }

  /**
   * k wraps of the 64-bit product shift the quotient by a multiple of 2^32 exactly when k is a
   * multiple of ODD_PART.
   */
  lemma WrapShift(k: int, r: int)
    requires 0 <= r < TWO_64
    ensures (k * TWO_64 + r) / USEC_IN_SEC % TWO_32 == r / USEC_IN_SEC % TWO_32 <==> k % ODD_PART == 0
  {
    var t, p := r / USEC_IN_SEC, (k * TWO_64 + r) / USEC_IN_SEC;
    if k % ODD_PART == 0 {
      var q := k / ODD_PART;
      assert k * TWO_64 + r == q * TWO_58 * USEC_IN_SEC + r;
      DivideSum(r, q * TWO_58, USEC_IN_SEC);
      DivideSum(t, q * TWO_26, TWO_32);
    } else if p % TWO_32 == t % TWO_32 {
      var n := p / TWO_32 - t / TWO_32;
      assert p - t == n * TWO_32;
      assert -USEC_IN_SEC < (p - t) * USEC_IN_SEC - k * TWO_64 < USEC_IN_SEC;
      assert k * TWO_26 == n * ODD_PART;
      OddPartDivides(k, n);
    }
  }

  /**
   * When the timestamp is right: it is the elapsed time in ticks, to the nearest and modulo 2^32,
   * exactly when the 64-bit product has wrapped a multiple of 15625 times.
   */
  lemma TimestampExactIff(d: int, clock: nat)
    ensures Timestamp(d, clock) == Ticks(d, clock) % TWO_32 <==> Wraps(d, clock) % ODD_PART == 0
  {
    var p := d * clock;
    var k, r := (p + HALF_SEC) / TWO_64, (p + HALF_SEC) % TWO_64;
    DivMod(p, TWO_64);
    DivideSum(p % TWO_64 + HALF_SEC, p / TWO_64, TWO_64);
    DivMod(p + HALF_SEC, TWO_64);
    WrapShift(k, r);
  }

  /** So it is right for six years of video that does not go back in time. */
  lemma TimestampExact(d: int)
    requires 0 <= d < 200_000_000_000_000
    ensures Timestamp(d, VIDEO_RTP_TS_CLOCK_HZ) == Ticks(d, VIDEO_RTP_TS_CLOCK_HZ) % TWO_32
  {
    TimestampExactIff(d, VIDEO_RTP_TS_CLOCK_HZ);
  }

  /** A frame one second before the first one gets a wrong timestamp. */
  lemma BackwardsIsWrong()
    ensures Timestamp(-USEC_IN_SEC, VIDEO_RTP_TS_CLOCK_HZ) != Ticks(-USEC_IN_SEC, VIDEO_RTP_TS_CLOCK_HZ) % TWO_32
  {
    TimestampExactIff(-USEC_IN_SEC, VIDEO_RTP_TS_CLOCK_HZ);
  }

  // ---------------------------------------------------------------------------
  // Wall-clock times
  // ---------------------------------------------------------------------------

  datatype Timeval = Timeval(sec: int, usec: int)
  {
    predicate Normal() {
      0 <= usec < USEC_IN_SEC
    }

    function Us(): int {
      sec * USEC_IN_SEC + usec
    }
  }

  /** C division cuts toward zero. */
  function Quotient(us: int): int {
    if us >= 0 then us / USEC_IN_SEC else -(-us / USEC_IN_SEC)
  }

  /** us_to_timeval. */
  function UsToTimeval(us: int): Timeval {
    Timeval(Quotient(us), us - Quotient(us) * USEC_IN_SEC)
  }

  /** timeval_add_us. */
  function AddUs(tv: Timeval, us: int): Timeval {
    var add := UsToTimeval(us);
    var sec, usec := tv.sec + add.sec, tv.usec + add.usec;
    if usec >= USEC_IN_SEC then Timeval(sec + 1, usec - USEC_IN_SEC) else Timeval(sec, usec)
  }

  /** timeval_subtract_to_us. */
  function SubtractUs(end: Timeval, start: Timeval): int {
    end.Us() - start.Us()
  }

  /** timeval_subtract_to_ms, for times in microseconds: C division cuts toward zero. */
  function ElapsedMs(now: int, start: int): int {
    if now >= start then (now - start) / 1000 else -((start - now) / 1000)
  }

  /** timeval_subtract: the difference, and whether it is negative. */
  function Subtract(end: Timeval, start: Timeval): (Timeval, bool) {
    (UsToTimeval(SubtractUs(end, start)), SubtractUs(end, start) < 0)
  }

  /**
   * Adding is exact, and the sum is a proper time exactly when the microseconds do not go below
   * zero, so always when time is added.
   */
  lemma AddExact(tv: Timeval, us: int)
    requires tv.Normal()
    ensures AddUs(tv, us).Us() == tv.Us() + us
    ensures AddUs(tv, us).Normal() <==> tv.usec + UsToTimeval(us).usec >= 0
    ensures us >= 0 ==> AddUs(tv, us).Normal()
  {
  }

  lemma NormalUnique(a: Timeval, b: Timeval)
    requires a.Normal() && b.Normal() && a.Us() == b.Us()
    ensures a == b
  {
  }

  /** Adding what timeval_subtract_to_us has taken away gives the time back, if no time ran backwards. */
  lemma SubtractThenAdd(end: Timeval, start: Timeval)
    requires end.Normal() && start.Normal()
    ensures AddUs(start, SubtractUs(end, start)) == end
      <==> start.usec + UsToTimeval(SubtractUs(end, start)).usec >= 0
    ensures SubtractUs(end, start) >= 0 ==> AddUs(start, SubtractUs(end, start)) == end
  {
    AddExact(start, SubtractUs(end, start));
    if AddUs(start, SubtractUs(end, start)).Normal() {
      NormalUnique(AddUs(start, SubtractUs(end, start)), end);
    }
  }

  /** The result of timeval_subtract stands for the difference, with one sign in both fields. */
  lemma SubtractExact(end: Timeval, start: Timeval)
    ensures var (r, negative) := Subtract(end, start);
            && r.Us() == end.Us() - start.Us() && (negative <==> end.Us() < start.Us())
            && -USEC_IN_SEC < r.usec < USEC_IN_SEC
            && (if negative then r.sec <= 0 && r.usec <= 0 else r.sec >= 0 && r.usec >= 0)
  {
  }

  // ---------------------------------------------------------------------------
  // NTP times
  // ---------------------------------------------------------------------------

  /** The spacing of doubles at x, for x of at least 2^52. */
  function Ulp(x: nat): (u: nat)
    ensures u > 0
  {
    if x < TWO_53 then 1 else 2 * Ulp(x / 2)
  }

  /** A sum of doubles as an integer: rounded to 53 bits, ties to even, and what is behind the point cut off. */
  function ToDouble(x: real): int
    requires x >= 0.0
  {
    var f := x.Floor;
    var u := Ulp(f);
    var below := f / u * u;
    var rest := x - below as real;
    if f < TWO_52 || rest < u as real / 2.0 || (rest == u as real / 2.0 && f / u % 2 == 0) then below else below + u
  }

  /** The seconds since 1900 in 32 bits, and the fraction, in units of 2^-32 seconds. */
  function ExactNtp(tv: Timeval): real {
    ((tv.sec + NTP_EPOCH) % TWO_32 * TWO_32) as real + tv.usec as real * 4294.967296
  }

  /** timeval_to_ntp: the sum is one of doubles. */
  function ToNtp(tv: Timeval): uint64
    requires tv.Normal()
  {
    NtpFits(tv);
    ToDouble(ExactNtp(tv))
  }

  predicate Within(n: int, x: real, d: real) {
    -d <= n as real - x <= d
  }

  lemma UlpIs(x: nat)
    requires x < TWO_64
    ensures Ulp(x) in {1, 2, 4, 8, 16, 32, 64, 128, 256, 512, 1024, 2048}
  {
    UlpStep(x, 2048);
  }

  /** A number below p * 2^53 has a spacing of at most p. */
  lemma {:induction false} UlpStep(x: nat, p: nat)
    requires p in {1, 2, 4, 8, 16, 32, 64, 128, 256, 512, 1024, 2048} && x < p * TWO_53
    ensures Ulp(x) <= p && Ulp(x) in {1, 2, 4, 8, 16, 32, 64, 128, 256, 512, 1024, 2048}
    decreases p
  {
    if x >= TWO_53 {
      UlpStep(x / 2, p / 2);
    }
  }

  lemma DoubleNear(x: real)
    requires 0.0 <= x < TWO_64 as real
    ensures Within(ToDouble(x), x, 1024.0)
  {
    var f := x.Floor;
    UlpIs(f);
    var u := Ulp(f);
    DivMod(f, u);
  }

  lemma ExactBounds(tv: Timeval)
    requires tv.Normal()
    ensures var high := (tv.sec + NTP_EPOCH) % TWO_32 * TWO_32;
            high as real <= ExactNtp(tv) <= (high + TWO_32 - 4294) as real && 0 <= high <= TWO_64 - TWO_32
  {
  }

  /** The sum never comes down to the second before, nor up to the next. */
  lemma NtpFits(tv: Timeval)
    requires tv.Normal()
    ensures ExactNtp(tv) >= 0.0
    ensures var high := (tv.sec + NTP_EPOCH) % TWO_32 * TWO_32; high <= ToDouble(ExactNtp(tv)) < high + TWO_32
    ensures Within(ToDouble(ExactNtp(tv)), ExactNtp(tv), 1024.0)
  {
    ExactBounds(tv);
    DoubleNear(ExactNtp(tv));
    DoubleAbove((tv.sec + NTP_EPOCH) % TWO_32, ExactNtp(tv));
    hide ToDouble, ExactNtp;
  }

  /** Rounding stays above a multiple of 2^32. */
  lemma DoubleAbove(s: nat, x: real)
    requires (s * TWO_32) as real <= x < TWO_64 as real
    ensures ToDouble(x) >= s * TWO_32
  {
    var f := x.Floor;
    UlpIs(f);
    var u := Ulp(f);
    hide Ulp;
    var v := TWO_32 / u;
    assert u * v == TWO_32;
    Multiple(s, f, u, v);
  }

  lemma Multiple(s: nat, f: nat, u: nat, v: nat)
    requires u > 0 && s * (u * v) <= f
    ensures f / u * u >= s * (u * v)
  {
    var q := s * v;
    assert s * (u * v) == q * u;
    DivMod(f, u);
    Distribute(q, f / u, u);
    if f / u < q {
      MulGe(q - f / u, u);
    }
  }

  /** The words of an NTP time: the seconds modulo 2^32, and the fraction to 1024 units of 2^-32 seconds. */
  lemma NtpWords(tv: Timeval)
    requires tv.Normal()
    ensures ToNtp(tv) / TWO_32 == (tv.sec + NTP_EPOCH) % TWO_32
    ensures Within(ToNtp(tv) % TWO_32, tv.usec as real * 4294.967296, 1024.0)
  {
    NtpFits(tv);
    var s, n := (tv.sec + NTP_EPOCH) % TWO_32, ToNtp(tv);
    DivUnique(n, TWO_32, s, n - s * TWO_32);
  }

  /** The time an NTP time stands for within its era of 2^32 seconds, to the nearest microsecond. */
  function NtpUs(ntp: uint64): nat {
    (ntp * USEC_IN_SEC as int + TWO_32 / 2) / TWO_32
  }

  /** Every NTP time within 1024 units of the exact one stands for the same microsecond. */
  lemma NearNtp(tv: Timeval, ntp: uint64)
    requires tv.Normal() && Within(ntp, ExactNtp(tv), 1024.0)
    ensures NtpUs(ntp) == (tv.sec + NTP_EPOCH) % TWO_32 * USEC_IN_SEC + tv.usec
  {
    var n: int := ntp;
    var us := (tv.sec + NTP_EPOCH) % TWO_32 * USEC_IN_SEC + tv.usec;
    assert ExactNtp(tv) * 1000000.0 == (us * TWO_32) as real;
    assert -1024 * USEC_IN_SEC <= n * USEC_IN_SEC - us * TWO_32 <= 1024 * USEC_IN_SEC by {
      assert (n * USEC_IN_SEC) as real == n as real * 1000000.0;
    }
    DivUnique(n * USEC_IN_SEC + TWO_32 / 2, TWO_32, us, n * USEC_IN_SEC + TWO_32 / 2 - us * TWO_32);
  }

  /** So no microsecond is lost: the time comes back, modulo the era. */
  lemma NtpRoundTrip(tv: Timeval)
    requires tv.Normal()
    ensures NtpUs(ToNtp(tv)) == (tv.sec + NTP_EPOCH) % TWO_32 * USEC_IN_SEC + tv.usec
  {
    NtpFits(tv);
    NearNtp(tv, ToNtp(tv));
  }

  // ---------------------------------------------------------------------------
  // A media component's clock, and its sender reports
  // ---------------------------------------------------------------------------

  const ERA_US := TWO_32 * USEC_IN_SEC

  /** What a sender report says of the clocks: the RTP timestamp and the NTP time. */
  datatype Report = Report(rtp: uint32, ntp: uint64)

  /** The report for a frame d microseconds after the first. */
  function ReportOf(base: Timeval, d: int, clock: nat): Report
    requires AddUs(base, d).Normal()
  {
    Report(Timestamp(d, clock), ToNtp(AddUs(base, d)))
  }

  /** The wall time of a report is the base plus the elapsed microseconds, exactly. */
  lemma ReportTime(base: Timeval, d: nat, clock: nat)
    requires base.Normal()
    ensures AddUs(base, d).Normal()
    ensures NtpUs(ReportOf(base, d, clock).ntp) == (base.Us() + d + NTP_EPOCH * USEC_IN_SEC) % ERA_US
  {
    AddExact(base, d);
    var tv := AddUs(base, d);
    NtpRoundTrip(tv);
    var s := tv.sec + NTP_EPOCH;
    DivMod(s, TWO_32);
    DivUnique(s * USEC_IN_SEC + tv.usec, ERA_US, s / TWO_32, s % TWO_32 * USEC_IN_SEC + tv.usec);
  }

  lemma ModDifference(a: int, b: int, m: int)
    requires m > 0
    ensures (a % m - b % m) % m == (a - b) % m
  {
    DivMod(a, m);
    DivMod(b, m);
    Distribute(a / m, b / m, m);
    DivideSum(a % m - b % m, a / m - b / m, m);
  }

  /**
   * The two clocks of any two reports of a stream advance alike: the NTP times differ by exactly the
   * elapsed microseconds, the RTP timestamps by whole ticks, and those by less than one tick from the
   * elapsed time, however far apart the reports are.
   */
  lemma ReportsAgree(base: Timeval, d1: nat, d2: nat, clock: nat)
    requires base.Normal() && Wraps(d1, clock) % ODD_PART == 0 && Wraps(d2, clock) % ODD_PART == 0
    ensures AddUs(base, d1).Normal() && AddUs(base, d2).Normal()
    ensures var r1, r2 := ReportOf(base, d1, clock), ReportOf(base, d2, clock);
            var ticks := Ticks(d2, clock) - Ticks(d1, clock);
            && (NtpUs(r2.ntp) - NtpUs(r1.ntp)) % ERA_US == (d2 - d1) % ERA_US
            && (r2.rtp as int - r1.rtp as int) % TWO_32 == ticks % TWO_32
            && -USEC_IN_SEC < ticks * USEC_IN_SEC - (d2 - d1) * clock < USEC_IN_SEC
  {
    ReportTime(base, d1, clock);
    ReportTime(base, d2, clock);
    TimestampExactIff(d1, clock);
    TimestampExactIff(d2, clock);
    hide ToNtp, NtpUs, Timestamp, Ticks, Wraps, AddUs;
    var e := base.Us() + NTP_EPOCH * USEC_IN_SEC;
    ModDifference(e + d2, e + d1, ERA_US);
    ModDifference(Ticks(d2, clock), Ticks(d1, clock), TWO_32);
    TicksNearest(d1, clock);
    TicksNearest(d2, clock);
    Distribute(d2, d1, clock);
  }

  /** The base of a stream of dts values: the first that is not negative, or the last if all are. */
  function Base(dts: seq<int>): int
    requires |dts| > 0
  {
    if dts[0] >= 0 || |dts| == 1 then dts[0] else Base(dts[1..])
  }

  /** One more frame moves the base only while it is negative. */
  lemma {:induction false} BaseStep(dts: seq<int>, next: int)
    requires |dts| > 0
    ensures Base(dts + [next]) == if Base(dts) < 0 then next else Base(dts)
  {
    if dts[0] < 0 {
      assert (dts + [next])[1..] == dts[1..] + [next];
      if |dts| == 1 {
        assert dts[1..] + [next] == [next];
      } else {
        BaseStep(dts[1..], next);
      }
    }
  }

  class ComponentClock {
    const clock: nat
    var baseDts: int
    var timestamp: uint32
    var timestampDts: int
    /** sender_report_base_ntp. */
    var baseNtp: Timeval

    /** As media_init leaves a component. */
    constructor (clock: nat)
      ensures Valid() && this.clock == clock && baseDts == -1 && baseNtp == Timeval(0, 0)
    {
      this.clock := clock;
      baseDts, timestamp, timestampDts := -1, 0, 0;
      baseNtp := Timeval(0, 0);
    }

    /** The timestamp is that of the last frame. */
    ghost predicate Valid()
      reads this
    {
      baseDts >= 0 ==> timestamp == Timestamp(timestampDts - baseDts, clock)
    }

    /** _update_timestamp, at wall time now. */
    method Update(dts: int, now: Timeval)
      modifies this
      ensures baseDts == (if old(baseDts) < 0 then dts else old(baseDts))
      ensures baseNtp == (if old(baseNtp) == Timeval(0, 0) then now else old(baseNtp))
      ensures timestampDts == dts && timestamp == Timestamp(dts - baseDts, clock)
      ensures Valid()
    {
      if baseNtp.sec == 0 && baseNtp.usec == 0 {
        baseNtp := now;
      }
      if baseDts < 0 {
        baseDts := dts;
      }
      timestamp := Timestamp(dts - baseDts, clock);
      timestampDts := dts;
    }

    /** The clock part of a sender report: none before the stream has started. */
    method SenderReport() returns (report: Option<Report>)
      requires Valid() && baseNtp.Normal()
      requires baseDts >= 0 ==> AddUs(baseNtp, timestampDts - baseDts).Normal()
      ensures report.None? <==> baseDts < 0
      ensures report.Some? ==> report.value == ReportOf(baseNtp, timestampDts - baseDts, clock)
      ensures report.Some? && timestampDts >= baseDts ==>
                var elapsed := timestampDts - baseDts;
                && NtpUs(report.value.ntp) == (baseNtp.Us() + elapsed + NTP_EPOCH * USEC_IN_SEC) % ERA_US
                && (Wraps(elapsed, clock) % ODD_PART == 0 ==> report.value.rtp == Ticks(elapsed, clock) % TWO_32)
    {
      hide ToNtp, NtpUs, Timestamp, Ticks, Wraps, AddUs;
      if baseDts < 0 {
        return None;
      }
      var timeDiff := timestampDts - baseDts;
      var srNtp := AddUs(baseNtp, timeDiff);
      report := Some(Report(timestamp, ToNtp(srNtp)));
      if timeDiff >= 0 {
        ReportTime(baseNtp, timeDiff, clock);
        TimestampExactIff(timeDiff, clock);
      }
    }

    /**
     * Any number of frames later, the timestamp is that of the last frame against one fixed base:
     * the first frame, unless its dts is negative.
     */
    method UpdateAll(dts: seq<int>, now: seq<Timeval>)
      requires |dts| == |now| > 0 && now[0] != Timeval(0, 0)
      requires baseDts == -1 && baseNtp == Timeval(0, 0)
      modifies this
      ensures baseDts == Base(dts) && baseNtp == now[0]
      ensures timestampDts == dts[|dts| - 1] && timestamp == Timestamp(timestampDts - baseDts, clock)
    {
      for i := 0 to |dts|
        invariant i == 0 ==> baseDts == -1 && baseNtp == Timeval(0, 0)
        invariant i > 0 ==> baseDts == Base(dts[..i]) && baseNtp == now[0]
        invariant i > 0 ==> timestampDts == dts[i - 1] && timestamp == Timestamp(timestampDts - baseDts, clock)
      {
        if i > 0 {
          BaseStep(dts[..i], dts[i]);
        }
        assert dts[..i + 1] == dts[..i] + [dts[i]];
        Update(dts[i], now[i]);
      }
      assert dts[..|dts|] == dts;
    }
  }
}
