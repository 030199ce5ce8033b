/** Intervals, detection times and jitter: sections 6.8.2-6.8.4 and 6.8.7 of RFC 5880.
    Durations are nanoseconds, as in Go's time.Duration. */
module Timing {
  import opened Bytes
  import opened Fsm

  const MICROSECOND: int := 1000
  const SLOW_TX_INTERVAL: int := 1_000_000_000
  const MAX_WIRE_INTERVAL: int := 0xFFFF_FFFF * 1000
  const TWO63: int := 0x8000_0000_0000_0000

  /** 64-bit signed multiplication, with wrap-around. */
  function Int64Mul(a: int, b: int): int {
    (a * b + TWO63) % (2 * TWO63) - TWO63
  }

  lemma Int64MulExact(a: int, b: int)
    requires -TWO63 <= a * b < TWO63
    ensures Int64Mul(a, b) == a * b
  {
  }

  /** Go's integer division, which truncates toward zero. */
  function TruncDiv(a: int, b: nat): int
    requires b > 0
  {
    if a >= 0 then a / b else -((-a) / b)
  }

  function FromMicros(us: u32): (d: nat)
    ensures d <= MAX_WIRE_INTERVAL
  {
    us * MICROSECOND
  }

  /** The 32-bit wire value: whole microseconds, truncated. */
  function ToMicros(d: nat): u32 {
    d / MICROSECOND % TWO32
  }

  /** What the peer reads of an interval that was put on the wire. */
  function OnWire(d: nat): nat {
    FromMicros(ToMicros(d))
  }

  lemma OnWireTruncates(d: nat)
    requires d <= MAX_WIRE_INTERVAL
    ensures OnWire(d) == d / MICROSECOND * MICROSECOND <= d
    ensures OnWire(d) == d <==> d % MICROSECOND == 0
  {
  }

  /** The interval a session transmits at, before the peer's wish: at least one second
      while it is not Up. */
  function EffectiveTx(state: State, desired: nat): nat {
    if state != Up && desired < SLOW_TX_INTERVAL then SLOW_TX_INTERVAL else desired
  }

  function TxInterval(state: State, desired: nat, remoteMinRx: nat): nat {
    Max(EffectiveTx(state, desired), remoteMinRx)
  }

  function DetectionTime(requiredMinRx: nat, remoteDesiredMinTx: nat, remoteDetectMult: u8): int {
    Int64Mul(Max(requiredMinRx, remoteDesiredMinTx), remoteDetectMult)
  }

  /** A product of an interval and a multiplier never comes near the 64-bit limit. */
  lemma IntervalProduct(interval: nat, mult: u8)
    requires interval <= MAX_WIRE_INTERVAL
    ensures Int64Mul(interval, mult) == interval * mult
    ensures 0 <= interval * mult < TWO63 / 4
    ensures interval > 0 && mult > 0 ==> interval * mult >= interval
  {
    ProductMonotone(interval, MAX_WIRE_INTERVAL, mult, 255);
    if interval > 0 && mult > 0 {
      ProductMonotone(interval, interval, 1, mult);
    }
    Int64MulExact(interval, mult);
  }

  lemma ProductMonotone(a: nat, b: nat, c: nat, d: nat)
    requires a <= b && c <= d
    ensures 0 <= a * c <= b * d
  {
    assert a * c <= b * c;
    assert b * c <= b * d;
  }

  lemma ProductStep(n: nat, l: int)
    requires n > 0
    ensures n * l == l + (n - 1) * l
  {
  }

  // ---- Jitter ------------------------------------------------------------

  /** The reduction in percent that a random number selects. */
  function JitterPercent(detectMult: u8, draw: nat): nat {
    if detectMult == 1 then 10 + draw else draw
  }

  predicate ValidDraw(detectMult: u8, draw: nat) {
    draw < if detectMult == 1 then 16 else 26
  }

  function Jittered(interval: nat, detectMult: u8, draw: nat): int {
    interval - TruncDiv(Int64Mul(interval, JitterPercent(detectMult, draw)), 100)
  }

  /** The longest interval that jitter leaves: nothing is taken off in general, a tenth
      when DetectMult is 1. */
  function LongestJittered(interval: nat, detectMult: u8): nat {
    if detectMult == 1 then interval - interval * 10 / 100 else interval
  }

  /** Every draw leaves between 75% of the interval and the longest jittered one, and the
      longest one is drawn by 0. */
  lemma JitterRange(interval: nat, detectMult: u8, draw: nat)
    requires interval <= MAX_WIRE_INTERVAL && ValidDraw(detectMult, draw)
    ensures 3 * interval <= 4 * Jittered(interval, detectMult, draw)
    ensures Jittered(interval, detectMult, draw) <= LongestJittered(interval, detectMult)
    ensures Jittered(interval, detectMult, 0) == LongestJittered(interval, detectMult)
  {
    ReductionExact(interval, detectMult, draw);
    ReductionExact(interval, detectMult, 0);
    var x := interval * JitterPercent(detectMult, draw);
    ReductionRange(interval, x);
  }

  /** Section 6.8.7 of RFC 5880: 0 to 25 percent are taken off, 10 to 25 when DetectMult is 1,
      and the widest draw takes off a quarter. */
  lemma JitterPercents(interval: nat, detectMult: u8, draw: nat)
    requires interval <= MAX_WIRE_INTERVAL
    ensures detectMult == 1 && draw <= 15 ==> Jittered(interval, detectMult, draw) == interval - interval * (10 + draw) / 100
    ensures detectMult != 1 && draw <= 25 ==> Jittered(interval, detectMult, draw) == interval - interval * draw / 100
    ensures Jittered(interval, detectMult, if detectMult == 1 then 15 else 25) == interval - interval / 4
    ensures ValidDraw(detectMult, draw) <==> draw <= if detectMult == 1 then 15 else 25
  {
    if ValidDraw(detectMult, draw) {
      ReductionExact(interval, detectMult, draw);
    }
    ReductionExact(interval, detectMult, if detectMult == 1 then 15 else 25);
  }

  /** No draw makes the percentage overflow. */
  lemma ReductionExact(interval: nat, detectMult: u8, draw: nat)
    requires interval <= MAX_WIRE_INTERVAL && ValidDraw(detectMult, draw)
    ensures var x := interval * JitterPercent(detectMult, draw);
            Jittered(interval, detectMult, draw) == interval - x / 100
            && 0 <= x <= interval * 25 && (detectMult == 1 ==> x >= interval * 10)
  {
    var pct := JitterPercent(detectMult, draw);
    ProductMonotone(interval, interval, pct, 25);
    if detectMult == 1 {
      ProductMonotone(interval, interval, 10, pct);
    }
    Int64MulExact(interval, pct);
  }

  lemma ReductionRange(i: nat, x: nat)
    requires x <= i * 25
    ensures 3 * i <= 4 * (i - x / 100)
    ensures x >= i * 10 ==> i - x / 100 <= i - i * 10 / 100
  {
  }

  /** The time that a run of consecutive transmissions spans. */
  function Span(interval: nat, detectMult: u8, draws: seq<nat>): int {
    if draws == [] then 0
    else Jittered(interval, detectMult, draws[0]) + Span(interval, detectMult, draws[1..])
  }

  predicate ValidDraws(detectMult: u8, draws: seq<nat>) {
    forall i :: 0 <= i < |draws| ==> ValidDraw(detectMult, draws[i])
  }

  lemma {:induction false} SpanBound(interval: nat, detectMult: u8, draws: seq<nat>)
    requires interval <= MAX_WIRE_INTERVAL && ValidDraws(detectMult, draws)
    ensures Span(interval, detectMult, draws) <= |draws| * LongestJittered(interval, detectMult)
  {
    if draws != [] {
      JitterRange(interval, detectMult, draws[0]);
      SpanBound(interval, detectMult, draws[1..]);
      ProductStep(|draws|, LongestJittered(interval, detectMult));
    }
  }

  lemma {:induction false} SpanOfZeroDraws(interval: nat, detectMult: u8, n: nat)
    requires interval <= MAX_WIRE_INTERVAL
    ensures Span(interval, detectMult, seq(n, _ => 0)) == n * LongestJittered(interval, detectMult)
    decreases n
  {
    if n > 0 {
      JitterRange(interval, detectMult, 0);
      var draws := seq(n, _ => 0);
      assert draws[1..] == seq(n - 1, _ => 0);
      SpanOfZeroDraws(interval, detectMult, n - 1);
      ProductStep(n, LongestJittered(interval, detectMult));
    }
  }

  /** One direction of a session pair: what the sender transmits with, and what the
      receiver requires. Each side knows the other's variables from the wire. */
  datatype Direction = Direction(state: State, desired: nat, mult: u8, required: nat)

  predicate ValidDirection(d: Direction) {
    && 0 < d.desired <= MAX_WIRE_INTERVAL && 0 < d.required <= MAX_WIRE_INTERVAL && d.mult > 0
  }

  function SendInterval(d: Direction): nat {
    TxInterval(d.state, d.desired, OnWire(d.required))
  }

  function ReceiverDetection(d: Direction): int {
    DetectionTime(d.required, OnWire(EffectiveTx(d.state, d.desired)), d.mult)
  }

  lemma DirectionBounds(d: Direction)
    requires ValidDirection(d)
    ensures 0 < SendInterval(d) <= MAX_WIRE_INTERVAL
    ensures ReceiverDetection(d) == Max(d.required, OnWire(EffectiveTx(d.state, d.desired))) * d.mult > 0
    ensures SendInterval(d) == Max(EffectiveTx(d.state, d.desired), OnWire(d.required))
  {
    OnWireTruncates(d.required);
    OnWireTruncates(EffectiveTx(d.state, d.desired));
    IntervalProduct(Max(d.required, OnWire(EffectiveTx(d.state, d.desired))), d.mult);
  }

  /** The sender's interval does not exceed the one the receiver counts with. The only
      way it can: a sub-microsecond part lost on the wire and not covered by the
      receiver's own minimum. */
  predicate WireKeepsInterval(d: Direction) {
    EffectiveTx(d.state, d.desired) % MICROSECOND == 0 || EffectiveTx(d.state, d.desired) <= d.required
  }

  lemma IntervalsAgreeIff(d: Direction)
    requires ValidDirection(d)
    ensures SendInterval(d) <= Max(d.required, OnWire(EffectiveTx(d.state, d.desired))) <==> WireKeepsInterval(d)
  {
    OnWireTruncates(d.required);
    OnWireTruncates(EffectiveTx(d.state, d.desired));
  }

  lemma ScaleIff(a: nat, b: nat, m: nat)
    requires m > 0
    ensures m * a <= b * m <==> a <= b
  {
    if a <= b {
      assert m * a <= m * b;
    } else {
      assert m * a >= m * (b + 1);
    }
  }

  /** DetectMult consecutive jittered intervals of the sender fit into the receiver's
      Detection Time for every sequence of random draws, exactly when the longest
      jittered interval does not exceed the agreed one. */
  lemma KeepaliveFitsIff(d: Direction)
    requires ValidDirection(d)
    ensures (forall draws: seq<nat> | |draws| == d.mult && ValidDraws(d.mult, draws) ::
               Span(SendInterval(d), d.mult, draws) <= ReceiverDetection(d))
            <==> LongestJittered(SendInterval(d), d.mult) <= Max(d.required, OnWire(EffectiveTx(d.state, d.desired)))
  {
    DirectionBounds(d);
    var i, l := SendInterval(d), LongestJittered(SendInterval(d), d.mult);
    var agreed := Max(d.required, OnWire(EffectiveTx(d.state, d.desired)));
    ScaleIff(l, agreed, d.mult);
    SpanOfZeroDraws(i, d.mult, d.mult);
    var worst: seq<nat> := seq(d.mult, _ => 0);
    assert |worst| == d.mult && ValidDraws(d.mult, worst);
    if l <= agreed {
      forall draws: seq<nat> | |draws| == d.mult && ValidDraws(d.mult, draws)
        ensures Span(i, d.mult, draws) <= ReceiverDetection(d)
      {
        SpanBound(i, d.mult, draws);
      }
    }
  }

  /** With whole-microsecond intervals, or with an interval below the receiver's minimum,
      the keepalives always fit, and with time to spare when DetectMult is 1. */
  lemma KeepaliveFits(d: Direction, draws: seq<nat>)
    requires ValidDirection(d) && WireKeepsInterval(d)
    requires |draws| == d.mult && ValidDraws(d.mult, draws)
    ensures Span(SendInterval(d), d.mult, draws) <= ReceiverDetection(d)
    ensures d.mult == 1 && SendInterval(d) >= 10 ==> Span(SendInterval(d), d.mult, draws) < ReceiverDetection(d)
  {
    DirectionBounds(d);
    IntervalsAgreeIff(d);
    SpanBound(SendInterval(d), d.mult, draws);
    var agreed := Max(d.required, OnWire(EffectiveTx(d.state, d.desired)));
    ScaleIff(LongestJittered(SendInterval(d), d.mult), agreed, d.mult);
  }

  /** For a multiplier of two or more the condition is also necessary: a lost
      sub-microsecond part makes some run of keepalives come too late. */
  lemma KeepaliveNeedsWholeMicros(d: Direction)
    requires ValidDirection(d) && d.mult >= 2 && !WireKeepsInterval(d)
    ensures Span(SendInterval(d), d.mult, seq(d.mult, _ => 0)) > ReceiverDetection(d)
  {
    DirectionBounds(d);
    IntervalsAgreeIff(d);
    SpanOfZeroDraws(SendInterval(d), d.mult, d.mult);
    ScaleIff(SendInterval(d), Max(d.required, OnWire(EffectiveTx(d.state, d.desired))), d.mult);
  }

  /** For instance: a nanosecond more than a second, three times, is too late. */
  lemma LostNanosecond()
    ensures var d := Direction(Up, 1_000_000_001, 3, SLOW_TX_INTERVAL);
            ValidDirection(d) && Span(SendInterval(d), 3, [0, 0, 0]) > ReceiverDetection(d)
  {
    var d := Direction(Up, 1_000_000_001, 3, SLOW_TX_INTERVAL);
    OnWireTruncates(d.desired);
    OnWireTruncates(d.required);
    KeepaliveNeedsWholeMicros(d);
    assert seq(3, _ => 0) == [0, 0, 0];
  }

  // ---- The generator behind the draws ------------------------------------

  function AsNat(v: bv64): nat {
    v as nat
  }

  function Remainder(x: nat, n: nat): (r: nat)
    requires n > 0
    ensures r < n
  {
    x % n
  }

  /** The session's own random generator, a xorshift over 64 bits. */
  class JitterRng {
    var state: bv64

    constructor (seed: bv64)
    {
      state := seed;
    }

    method Next() returns (r: bv64)
      modifies this
    {
      var x := state;
      if x == 0 {
        x := 0x9e37_79b9_7f4a_7c15;
      }
      x := x ^ (x >> 12);
      x := x ^ (x << 25);
      x := x ^ (x >> 27);
      state := x;
      r := x * 2685821657736338717;
    }

    method IntN(n: nat) returns (r: nat)
      requires n > 0
      modifies this
      ensures r < n
    {
      if n <= 1 {
        return 0;
      }
      var v := Next();
      r := Remainder(AsNat(v), n);
    }

    /** applyJitter: whatever state the generator is in, the draw is a valid one. */
    method ApplyJitter(interval: nat, detectMult: u8) returns (d: int, ghost draw: nat)
      modifies this
      ensures ValidDraw(detectMult, draw)
      ensures d == Jittered(interval, detectMult, draw)
    {
      if interval <= 0 {
        draw := 0;
        return interval, draw;
      }
      var n := if detectMult == 1 then 16 else 26;
      var k := IntN(n);
      draw := k;
      var percent := if detectMult == 1 then 10 + k else k;
      d := interval - TruncDiv(Int64Mul(interval, percent), 100);
    }
  }
}
