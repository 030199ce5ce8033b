/** What the detection mechanism is for: two sessions that are Up stay Up as long as
    enough of their packets get through. Packets take time and may be lost, any number of
    them may be on their way at once, and none overtakes another. */
module Keepalive {
  import opened Bytes
  import opened Fsm
  import opened Codec
  import opened Auth
  import opened AuthRuns
  import opened Timing
  import opened Session
  import opened SessionSteps
  import opened SessionRuns
  import Pair

  /** A packet on its way, when it was sent, and the session that sent it as it was then. */
  datatype Flight = Flight(at: nat, packet: Session.Transmission, from: Vars)

  /** One direction: the packets lost since the other end last accepted one, and those on
      their way, the oldest first. */
  datatype Way = Way(lost: nat, flights: seq<Flight>)

  /** Two timed sessions on one clock, and the ways between them. */
  datatype Duo = Duo(a: Timed, b: Timed, ab: Way, ba: Way)

  /** How many packets in a row the receiver certainly tolerates. */
  function MaxLoss(mult: u8): nat {
    if mult <= 1 then 0 else mult - 2
  }

  function Course(v: Vars, u: Vars): Direction {
    Direction(Up, v.desiredMinTx, v.cfg.detectMult, u.requiredMinRx)
  }

  /** u holds the current variables of v. */
  predicate Knows(u: Vars, v: Vars) {
    && u.remoteMinRx == OnWire(v.requiredMinRx) && u.remoteDesiredMinTx == OnWire(v.desiredMinTx)
    && u.remoteDetectMult == v.cfg.detectMult && v.remoteDiscr == u.cfg.localDiscr
  }

  /** u accepts what v signs: no authentication on either side, or a shared key, a receiver
      that is `lost` packets behind, and no padding under a hash. */
  predicate Authentic(v: Vars, u: Vars, lost: nat) {
    match (v.auth, u.auth)
    case (None, None) => true
    case (Some(a), Some(r)) =>
      SharesKey(r, a) && Behind(a, r, lost) && (a.kind != AUTH_SIMPLE ==> v.cfg.paddedPduSize == 0)
    case _ => false
  }

  /** y has the settings of v, Up like it. */
  predicate SameSettings(y: Vars, v: Vars) {
    && y.cfg == v.cfg && y.state == Up && y.desiredMinTx == v.desiredMinTx && y.requiredMinRx == v.requiredMinRx
    && y.remoteDiscr == v.remoteDiscr && y.auth.Some? == v.auth.Some?
  }

  /** What v signs next is what y signs after its next. */
  predicate SignsAfter(y: Vars, v: Vars) {
    && y.cfg == v.cfg && y.auth.Some? == v.auth.Some?
    && (y.auth.Some? ==> SameSigner(NextXmit(y.auth.value), v.auth.value))
  }

  /** What is signed next is the same. */
  predicate SameSigner(a: AuthVars, b: AuthVars) {
    a.kind == b.kind && a.store == b.store && a.xmitSeq == b.xmitSeq
  }

  /** The time that DetectMult intervals leave when as many packets as are tolerated are
      lost is more than what a packet takes. */
  predicate Patient(c: Direction, delay: nat) {
    (MaxLoss(c.mult) + 1) * LongestJittered(SendInterval(c), c.mult) + delay < ReceiverDetection(c)
  }

  /** When, and by whom, the i-th packet that has not arrived yet was sent; behind those on
      their way comes the one that is to be sent next. */
  function SentAt(flights: seq<Flight>, s: Timed, i: nat): int
    requires i <= |flights|
  {
    if i < |flights| then flights[i].at else s.txDeadline
  }

  function Sender(flights: seq<Flight>, s: Timed, i: nat): Vars
    requires i <= |flights|
  {
    if i < |flights| then flights[i].from else s.v
  }

  /** A packet on its way, and the one after it. */
  predicate InSequence(flights: seq<Flight>, s: Timed, l: nat, delay: nat, i: nat)
    requires i < |flights|
  {
    var f := flights[i];
    && f.packet == OnAir(f.from) && SameSettings(f.from, s.v) && SignsAfter(f.from, Sender(flights, s, i + 1))
    && f.at <= s.now <= f.at + delay && SentAt(flights, s, i + 1) <= f.at + l
  }

  predicate Spaced(flights: seq<Flight>, s: Timed, l: nat, delay: nat) {
    forall i :: 0 <= i < |flights| ==> InSequence(flights, s, l, delay, i)
  }

  /** The oldest packet that has not arrived yet is in time. */
  predicate Due(s: Timed, u: Vars, way: Way, delay: nat) {
    var l := LongestJittered(SendInterval(Course(s.v, u)), s.v.cfg.detectMult);
    && Spaced(way.flights, s, l, delay) && Authentic(Sender(way.flights, s, 0), u, way.lost)
    && SentAt(way.flights, s, 0) <= u.lastPacketRecv + (way.lost + 1) * l
  }

  /** One direction is in order: the configuration survives the wire, and packets come in
      time. */
  predicate Link(s: Timed, u: Vars, way: Way, delay: nat) {
    var c := Course(s.v, u);
    && Knows(u, s.v) && WireKeepsInterval(c) && Patient(c, delay) && SendInterval(c) >= 10 && u.requiredMinRx >= MICROSECOND
    && way.lost <= MaxLoss(s.v.cfg.detectMult) && Due(s, u, way, delay)
  }

  predicate SentBy(start: State, way: Way) {
    forall i :: 0 <= i < |way.flights| ==> Inv(start, way.flights[i].from)
  }

  /** Both endpoints are Up and both directions in order. */
  predicate Good(startV: State, s: Timed, startU: State, r: Timed, there: Way, back: Way, delay: nat) {
    && Inv(startV, s.v) && s.v.state == Up && Inv(startU, r.v) && r.v.state == Up
    && SentBy(startV, there) && SentBy(startU, back)
    && Link(s, r.v, there, delay) && Link(r, s.v, back, delay) && s.now == r.now > 0
    && s.now <= s.txDeadline && r.now <= r.txDeadline
  }

  predicate Steady(startA: State, startB: State, d: Duo, delay: nat) {
    Good(startA, d.a, startB, d.b, d.ab, d.ba, delay)
  }

  // ---- Steps -------------------------------------------------------------

  predicate WithinDelay(way: Way, now: nat, delay: nat) {
    forall i :: 0 <= i < |way.flights| ==> now <= way.flights[i].at + delay
  }

  /** Time passes, but not beyond a timer that is due, nor beyond the longest delay. */
  predicate BothTick(d: Duo, e: Duo, delay: nat) {
    && e == d.(a := d.a.(now := e.a.now), b := d.b.(now := e.a.now))
    && Tick(d.a, d.a.(now := e.a.now)) && Tick(d.b, d.b.(now := e.a.now))
    && WithinDelay(d.ab, e.a.now, delay) && WithinDelay(d.ba, e.a.now, delay)
  }

  /** The transmit timer of s fires; what it sends, if anything, is on its way. */
  ghost predicate Sends(s: Timed, way: Way, s': Timed, way': Way) {
    && s.now == s.txDeadline && s'.now == s.now
    && s'.v == OnTxTimer(s.v) && TxArmed(s'.v, s'.now, s'.txDeadline)
    && way' == if |s'.v.sent| > |s.v.sent| then way.(flights := way.flights + [Flight(s.now, s'.v.sent[|s.v.sent|], s.v)]) else way
  }

  /** The oldest packet on its way is lost. */
  predicate Loses(mult: u8, way: Way, way': Way) {
    way.flights != [] && way' == Way(way.lost + 1, way.flights[1..]) && way'.lost <= MaxLoss(mult)
  }

  /** The oldest packet on its way reaches r. */
  ghost predicate Arrives(way: Way, r: Timed, way': Way, r': Timed) {
    way.flights != [] && way' == Way(0, way.flights[1..]) && Received(way.flights[0].packet, r, r')
  }

  ghost predicate Received(t: Session.Transmission, r: Timed, r': Timed) {
    && (t.auth.Some? ==> KnownType(t.auth.value.kind)) && (r.v.auth.Some? ==> KnownType(r.v.auth.value.kind))
    && r'.v == Pair.Deliver(r.v, WireBytes(t), r.now) && r'.now == r.now
    && if r'.v.sent == r.v.sent && r'.v.state == r.v.state then r'.txDeadline == r.txDeadline
       else TxArmed(r'.v, r'.now, r'.txDeadline)
  }

  ghost predicate Expires(s: Timed, s': Timed) {
    s.now == s.v.detectDeadline && s'.v == OnDetectTimer(s.v, s.now) && s'.now == s.now
  }

  /** What happens on the way from s to r, or at s. */
  ghost predicate Acts(s: Timed, r: Timed, way: Way, s': Timed, r': Timed, way': Way) {
    || (Sends(s, way, s', way') && r' == r)
    || (Loses(s.v.cfg.detectMult, way, way') && s' == s && r' == r)
    || (Arrives(way, r, way', r') && s' == s)
    || (Expires(s, s') && r' == r && way' == way)
  }

  ghost predicate Next(d: Duo, e: Duo, delay: nat) {
    || BothTick(d, e, delay)
    || (Acts(d.a, d.b, d.ab, e.a, e.b, e.ab) && e.ba == d.ba)
    || (Acts(d.b, d.a, d.ba, e.b, e.a, e.ba) && e.ab == d.ab)
  }

  // ---- The next packet is in time ----------------------------------------

  lemma LossProduct(lost: nat, most: nat, l: nat)
    requires lost <= most
    ensures (lost + 1) * l <= (most + 1) * l
  {
  }

  /** While a direction is in order, the receiver's detection timer is not due, now or when
      the sender's next packet is. */
  lemma InTime(startV: State, s: Timed, startU: State, u: Vars, way: Way, delay: nat)
    requires Inv(startV, s.v) && s.v.state == Up && Inv(startU, u) && u.state == Up && Link(s, u, way, delay)
    requires s.now <= s.txDeadline
    ensures s.now < u.detectDeadline
  {
    var c := Course(s.v, u);
    DirectionBounds(c);
    assert DetectionTimeHot(u) == ReceiverDetection(c);
    var l := LongestJittered(SendInterval(c), c.mult);
    LossProduct(way.lost, MaxLoss(c.mult), l);
    if way.flights != [] {
      assert InSequence(way.flights, s, l, delay, 0);
    }
  }

  lemma LossesFit(mult: nat, l: nat, agreed: nat, delay: nat)
    requires mult > 1 && l <= agreed && delay < agreed
    ensures (mult - 1) * l + delay < agreed * mult
  {
    ProductMonotone(mult - 1, mult - 1, l, agreed);
    assert agreed * mult == (mult - 1) * agreed + agreed;
  }

  /** Delays of less than an interval are no matter unless DetectMult is 1; for that, jitter
      leaves a tenth. */
  lemma PatientIf(c: Direction, delay: nat)
    requires ValidDirection(c) && WireKeepsInterval(c) && SendInterval(c) >= 10
    requires var agreed := Max(c.required, OnWire(EffectiveTx(c.state, c.desired)));
             if c.mult > 1 then delay < agreed else LongestJittered(SendInterval(c), 1) + delay < agreed
    ensures Patient(c, delay)
  {
    DirectionBounds(c);
    IntervalsAgreeIff(c);
    var agreed, l := Max(c.required, OnWire(EffectiveTx(c.state, c.desired))), LongestJittered(SendInterval(c), c.mult);
    if c.mult > 1 {
      LossesFit(c.mult, l, agreed, delay);
    }
  }

  /** And one loss more than that is too much: with no jitter drawn, the next packet leaves only
      when the receiver's timer is due, however short the delay. */
  lemma OneMoreLossOverruns(c: Direction)
    requires ValidDirection(c) && c.required % 1000 == 0
    ensures (MaxLoss(c.mult) + 2) * LongestJittered(SendInterval(c), c.mult) >= ReceiverDetection(c)
  {
    DirectionBounds(c);
    OnWireTruncates(c.required);
    OnWireTruncates(EffectiveTx(c.state, c.desired));
    if c.mult > 1 {
      ProductMonotone(Max(c.required, OnWire(EffectiveTx(c.state, c.desired))), SendInterval(c), c.mult, c.mult);
    }
  }

  // ---- One packet --------------------------------------------------------

  function OnAir(v: Vars): Session.Transmission {
    Session.Transmission(BuildPacket(v), v.auth, v.cfg.paddedPduSize)
  }

  /** The packet of a session, as the receiver decodes it. */
  predicate Announces(p: ControlPacket, v: Vars) {
    && p.my == v.cfg.localDiscr && p.your == v.remoteDiscr && p.state == v.state && !p.poll && !p.final
    && p.detectMult == v.cfg.detectMult && p.authPresent == v.auth.Some?
    && p.requiredMinRx == ToMicros(v.requiredMinRx) && p.desiredMinTx == ToMicros(EffectiveTx(v.state, v.desiredMinTx))
  }

  lemma OnAirDecodes(start: State, v: Vars) returns (p: ControlPacket)
    requires Inv(start, v)
    ensures Sendable(OnAir(v)) && Decode(WireBytes(OnAir(v))) == Ok(p) && Announces(p, v)
    ensures p == SignedPacket(OnAir(v)).(length := p.length)
  {
    TransmitKeeps(v);
    assert Transmit(v).sent[|v.sent|] == OnAir(v);
    WireDecodes(OnAir(v));
    var q := SignedPacket(OnAir(v));
    p := q.(length := TotalLen(q));
  }

  lemma UnpaddedWire(t: Session.Transmission)
    requires t.auth.Some? && KnownType(t.auth.value.kind) && t.padded == 0
    ensures WireBytes(t) == Encode(SignedPacket(t))
  {
  }

  /** The receiver accepts the packet and has caught up with the sender. */
  lemma OnAirAuthenticates(start: State, v: Vars, u: Vars, lost: nat, p: ControlPacket) returns (next: Option<AuthVars>)
    requires Inv(start, v) && Authentic(v, u, lost) && lost <= MaxLoss(v.cfg.detectMult)
    requires p.authPresent == v.auth.Some? && p == SignedPacket(OnAir(v)).(length := p.length)
    ensures (u.auth.Some? ==> KnownType(u.auth.value.kind))
    ensures Authenticate(u.auth, p, WireBytes(OnAir(v))) == Some(next)
    ensures Authentic(Transmit(v), u.(auth := next), 0)
  {
    if v.auth.None? {
      next := None;
    } else {
      var a, r := v.auth.value, u.auth.value;
      var pkt := BuildPacket(v);
      SignedVerifies(a, r, pkt, p.length);
      if a.kind != AUTH_SIMPLE {
        UnpaddedWire(OnAir(v));
        if r.known {
          DeliveryAcceptedIff(a, r, pkt, lost);
        }
      }
      var n := if a.kind == AUTH_SIMPLE then r else r.(rcvSeq := NextXmit(a).xmitSeq, known := true);
      CaughtUp(a, r, n);
      next := Some(n);
    }
  }

  /** What a delivered packet leaves of the receiver. */
  predicate Refreshed(u: Vars, v: Vars, now: nat, w: Vars) {
    && w.cfg == u.cfg && w.state == Up && w.sent == u.sent && w.lastPacketRecv == now
    && w.desiredMinTx == u.desiredMinTx && w.requiredMinRx == u.requiredMinRx
    && Knows(w, v) && w.remoteDiscr == v.cfg.localDiscr
    && w.auth.Some? == u.auth.Some?
    && (w.auth.Some? ==> && w.auth.value.kind == u.auth.value.kind && w.auth.value.store == u.auth.value.store
                         && w.auth.value.xmitSeq == u.auth.value.xmitSeq)
  }

  /** Only what authentication may change differs. */
  predicate SameButAuth(u: Vars, x: Vars) {
    && x == u.(auth := x.auth) && x.auth.Some? == u.auth.Some?
    && (x.auth.Some? ==> && x.auth.value.kind == u.auth.value.kind && x.auth.value.store == u.auth.value.store
                         && x.auth.value.xmitSeq == u.auth.value.xmitSeq)
  }

  /** A packet that reaches its addressee authentic is accepted, and the addressee has then
      caught up with the sender. */
  lemma Hears(startV: State, v: Vars, startU: State, u: Vars, lost: nat, now: nat) returns (p: ControlPacket, x: Vars)
    requires Inv(startV, v) && Inv(startU, u) && now > 0 && (v.remoteDiscr == 0 || v.remoteDiscr == u.cfg.localDiscr)
    requires Authentic(v, u, lost) && lost <= MaxLoss(v.cfg.detectMult)
    ensures Sendable(OnAir(v)) && Announces(p, v) && SameButAuth(u, x) && Authentic(Transmit(v), x, 0)
    ensures var w := Pair.Deliver(u, WireBytes(OnAir(v)), now); Inv(startU, w) && Outcome(x, p, now, w)
  {
    p := OnAirDecodes(startV, v);
    var next := OnAirAuthenticates(startV, v, u, lost, p);
    x := u.(auth := next);
    AcceptsHeard(startU, u, p, WireBytes(OnAir(v)), next, now);
  }

  lemma AcceptsHeard(startU: State, u: Vars, p: ControlPacket, wire: seq<u8>, next: Option<AuthVars>, now: nat)
    requires Inv(startU, u) && now > 0 && p.my != 0 && p.detectMult != 0 && Decode(wire) == Ok(p)
    requires p.your == 0 || p.your == u.cfg.localDiscr
    requires Authenticate(u.auth, p, wire) == Some(next)
    ensures SameButAuth(u, u.(auth := next))
    ensures var w := Pair.Deliver(u, wire, now); Inv(startU, w) && Outcome(u.(auth := next), p, now, w)
  {
    AuthenticatedAuth(u.auth, p, wire);
    RecvKeeps(startU, u, p, wire, now);
    var x := u.(auth := next);
    assert DetectionTimeHot(x) == DetectionTimeHot(u);
    AcceptedOutcome(startU, x, p, now);
  }

  lemma Delivered(startV: State, v: Vars, startU: State, u: Vars, lost: nat, now: nat)
    requires Inv(startV, v) && v.state == Up && Inv(startU, u) && u.state == Up && now > 0
    requires Knows(u, v) && Authentic(v, u, lost) && lost <= MaxLoss(v.cfg.detectMult)
    ensures Sendable(OnAir(v))
    ensures var w := Pair.Deliver(u, WireBytes(OnAir(v)), now);
            Inv(startU, w) && Refreshed(u, v, now, w) && Authentic(Transmit(v), w, 0)
  {
    var p, x := Hears(startV, v, startU, u, lost, now);
    RefreshedBy(u, v, x, p, now, Pair.Deliver(u, WireBytes(OnAir(v)), now));
  }

  lemma RefreshedBy(u: Vars, v: Vars, x: Vars, p: ControlPacket, now: nat, w: Vars)
    requires SameButAuth(u, x) && u.state == v.state == Up && Announces(p, v) && Outcome(x, p, now, w)
    requires v.remoteDiscr == u.cfg.localDiscr && Authentic(Transmit(v), x, 0)
    ensures Refreshed(u, v, now, w) && Authentic(Transmit(v), w, 0)
  {
  }

  // ---- One step ----------------------------------------------------------

  /** An Up session whose peer wants packets transmits whenever its timer fires. */
  lemma FiresAndSends(start: State, v: Vars, u: Vars)
    requires Inv(start, v) && v.state == Up && Knows(v, u) && MICROSECOND <= u.requiredMinRx <= MAX_WIRE_INTERVAL
    ensures OnTxTimer(v) == Transmit(v) && Transmit(v).sent[|v.sent|] == OnAir(v) && |Transmit(v).sent| == |v.sent| + 1
    ensures Inv(start, Transmit(v)) && Transmit(v).state == Up
  {
    OnWireTruncates(u.requiredMinRx);
    assert v.remoteMinRx >= MICROSECOND;
    TxTimerKeeps(start, v);
  }

  /** The next deadline that s sets itself. */
  lemma Rearmed(start: State, v: Vars, u: Vars, now: nat, deadline: int)
    requires Inv(start, v) && v.state == Up && Knows(v, u) && TxArmed(v, now, deadline)
    requires 0 < u.requiredMinRx <= MAX_WIRE_INTERVAL
    ensures now < deadline <= now + LongestJittered(SendInterval(Course(v, u)), v.cfg.detectMult)
  {
    var draw: nat :| ValidDraw(v.cfg.detectMult, draw)
                     && deadline == now + Jittered(TxIntervalHot(v), v.cfg.detectMult, draw);
    assert TxIntervalHot(v) == SendInterval(Course(v, u));
    DirectionBounds(Course(v, u));
    JitterRange(TxIntervalHot(v), v.cfg.detectMult, draw);
  }

  /** Only what is signed next matters to who accepts it. */
  lemma SameAuthentic(v: Vars, w: Vars, u: Vars, lost: nat)
    requires Authentic(v, u, lost) && w.cfg == v.cfg && w.auth.Some? == v.auth.Some?
    requires v.auth.Some? ==> SameSigner(v.auth.value, w.auth.value)
    ensures Authentic(w, u, lost)
  {
  }

  /** Transmitting changes nothing about what a session accepts. */
  lemma TransmitAccepts(s: Timed, v: Vars, way: Way, delay: nat)
    requires Link(s, v, way, delay)
    ensures Link(s, Transmit(v), way, delay)
  {
    assert Course(s.v, Transmit(v)) == Course(s.v, v);
  }

  /** One more packet is on its way, and the next is due an interval later. */
  lemma SpacedSend(flights: seq<Flight>, s: Timed, l: nat, delay: nat, s': Timed)
    requires Spaced(flights, s, l, delay) && s.now == s.txDeadline && s.v.state == Up
    requires s'.v == Transmit(s.v) && s'.now == s.now && s'.txDeadline <= s'.now + l
    ensures Spaced(flights + [Flight(s.now, OnAir(s.v), s.v)], s', l, delay)
  {
    var more := flights + [Flight(s.now, OnAir(s.v), s.v)];
    forall i | 0 <= i < |more|
      ensures InSequence(more, s', l, delay, i)
    {
      if i < |flights| {
        assert InSequence(flights, s, l, delay, i);
      }
    }
  }

  lemma SentLink(s: Timed, u: Vars, there: Way, delay: nat, s': Timed)
    requires Link(s, u, there, delay) && s.now == s.txDeadline && s.v.state == Up
    requires s'.v == Transmit(s.v) && s'.now == s.now
    requires s'.txDeadline <= s'.now + LongestJittered(SendInterval(Course(s.v, u)), s.v.cfg.detectMult)
    ensures Link(s', u, there.(flights := there.flights + [Flight(s.now, OnAir(s.v), s.v)]), delay)
  {
    assert Course(s'.v, u) == Course(s.v, u);
    SpacedSend(there.flights, s, LongestJittered(SendInterval(Course(s.v, u)), s.v.cfg.detectMult), delay, s');
  }

  /** The transmit timer fires: the packet is on its way. */
  lemma SendKeeps(startV: State, s: Timed, startU: State, r: Timed, there: Way, back: Way, delay: nat, s': Timed, there': Way)
    requires Good(startV, s, startU, r, there, back, delay) && Sends(s, there, s', there')
    ensures Good(startV, s', startU, r, there', back, delay)
  {
    FiresAndSends(startV, s.v, r.v);
    assert Knows(s'.v, r.v) && Course(s'.v, r.v) == Course(s.v, r.v);
    Rearmed(startV, s'.v, r.v, s'.now, s'.txDeadline);
    SentLink(s, r.v, there, delay, s');
    TransmitAccepts(r, s.v, back, delay);
  }

  /** The oldest packet is gone, one way or the other. */
  lemma SpacedRest(flights: seq<Flight>, s: Timed, l: nat, delay: nat)
    requires flights != [] && Spaced(flights, s, l, delay)
    ensures Spaced(flights[1..], s, l, delay) && InSequence(flights, s, l, delay, 0)
    ensures SentAt(flights[1..], s, 0) == SentAt(flights, s, 1) && Sender(flights[1..], s, 0) == Sender(flights, s, 1)
  {
    var rest := flights[1..];
    forall i | 0 <= i < |rest|
      ensures InSequence(rest, s, l, delay, i)
    {
      assert InSequence(flights, s, l, delay, i + 1);
    }
  }

  lemma BehindOneMore(y: Vars, v: Vars, u: Vars, lost: nat)
    requires SignsAfter(y, v) && Authentic(y, u, lost)
    ensures Authentic(v, u, lost + 1)
  {
    if v.auth.Some? && v.auth.value.kind != AUTH_SIMPLE && u.auth.value.known {
      AddAdd(u.auth.value.rcvSeq, lost, 1);
    }
  }

  lemma OneMore(lost: nat, l: nat)
    ensures (lost + 2) * l == (lost + 1) * l + l
  {
  }

  lemma LossLink(s: Timed, u: Vars, there: Way, delay: nat)
    requires Link(s, u, there, delay) && there.flights != [] && there.lost + 1 <= MaxLoss(s.v.cfg.detectMult)
    ensures Link(s, u, Way(there.lost + 1, there.flights[1..]), delay)
  {
    var l := LongestJittered(SendInterval(Course(s.v, u)), s.v.cfg.detectMult);
    SpacedRest(there.flights, s, l, delay);
    BehindOneMore(there.flights[0].from, Sender(there.flights, s, 1), u, there.lost);
    OneMore(there.lost, l);
  }

  /** A tolerated loss. */
  lemma LossKeeps(startV: State, s: Timed, startU: State, r: Timed, there: Way, back: Way, delay: nat, there': Way)
    requires Good(startV, s, startU, r, there, back, delay) && Loses(s.v.cfg.detectMult, there, there')
    ensures Good(startV, s, startU, r, there', back, delay)
  {
    LossLink(s, r.v, there, delay);
  }

  /** What has heard a packet says as before what it says. */
  lemma SpacedHearer(flights: seq<Flight>, r: Timed, l: nat, delay: nat, w: Vars)
    requires Spaced(flights, r, l, delay) && SameVoice(r.v, w)
    ensures Spaced(flights, r.(v := w), l, delay)
  {
    forall i | 0 <= i < |flights|
      ensures InSequence(flights, r.(v := w), l, delay, i)
    {
      assert InSequence(flights, r, l, delay, i);
    }
  }

  predicate SameVoice(v: Vars, w: Vars) {
    && w.cfg == v.cfg && w.desiredMinTx == v.desiredMinTx && w.requiredMinRx == v.requiredMinRx
    && w.remoteDiscr == v.remoteDiscr && w.auth.Some? == v.auth.Some?
    && (v.auth.Some? ==> SameSigner(v.auth.value, w.auth.value))
  }

  lemma HearerSays(r: Timed, w: Vars, v: Vars, y: Vars, now: nat, back: Way, delay: nat)
    requires Link(r, v, back, delay) && Refreshed(r.v, y, now, w) && y.cfg == v.cfg && r.v.remoteDiscr == v.cfg.localDiscr
    ensures Link(r.(v := w), v, back, delay)
  {
    assert Course(w, v) == Course(r.v, v);
    SpacedHearer(back.flights, r, LongestJittered(SendInterval(Course(r.v, v)), r.v.cfg.detectMult), delay, w);
  }

  lemma HeardLink(s: Timed, u: Vars, there: Way, delay: nat, y: Vars, w: Vars)
    requires Link(s, u, there, delay) && there.flights != [] && there.flights[0].from == y
    requires Refreshed(u, y, s.now, w) && Authentic(Transmit(y), w, 0)
    ensures Link(s, w, Way(0, there.flights[1..]), delay)
  {
    assert Course(s.v, w) == Course(s.v, u);
    SpacedRest(there.flights, s, LongestJittered(SendInterval(Course(s.v, u)), s.v.cfg.detectMult), delay);
    SameAuthentic(Transmit(y), Sender(there.flights, s, 1), w, 0);
  }

  /** The packet arrives. */
  lemma ArrivalKeeps(startV: State, s: Timed, startU: State, r: Timed, there: Way, back: Way, delay: nat, there': Way, r': Timed)
    requires Good(startV, s, startU, r, there, back, delay) && Arrives(there, r, there', r')
    ensures Good(startV, s, startU, r', there', back, delay)
  {
    var y := there.flights[0].from;
    assert InSequence(there.flights, s, LongestJittered(SendInterval(Course(s.v, r.v)), s.v.cfg.detectMult), delay, 0);
    Delivered(startV, y, startU, r.v, there.lost, r.now);
    assert r' == r.(v := r'.v);
    HeardLink(s, r.v, there, delay, y, r'.v);
    HearerSays(r, r'.v, s.v, y, r.now, back, delay);
  }

  lemma ActKeeps(startV: State, s: Timed, startU: State, r: Timed, there: Way, back: Way, delay: nat, s': Timed,
                 r': Timed, there': Way)
    requires Good(startV, s, startU, r, there, back, delay) && Acts(s, r, there, s', r', there')
    ensures Good(startV, s', startU, r', there', back, delay)
  {
    if Sends(s, there, s', there') && r' == r {
      SendKeeps(startV, s, startU, r, there, back, delay, s', there');
    } else if Loses(s.v.cfg.detectMult, there, there') && s' == s && r' == r {
      LossKeeps(startV, s, startU, r, there, back, delay, there');
    } else if Arrives(there, r, there', r') && s' == s {
      ArrivalKeeps(startV, s, startU, r, there, back, delay, there', r');
    } else {
      InTime(startU, r, startV, s.v, back, delay);
    }
  }

  lemma TickKeeps(startA: State, startB: State, d: Duo, e: Duo, delay: nat)
    requires Steady(startA, startB, d, delay) && BothTick(d, e, delay)
    ensures Steady(startA, startB, e, delay)
  {
    TickLink(d.a, d.b.v, d.ab, delay, e.a.now);
    TickLink(d.b, d.a.v, d.ba, delay, e.a.now);
  }

  lemma TickLink(s: Timed, u: Vars, way: Way, delay: nat, now: nat)
    requires Link(s, u, way, delay) && s.now <= now && WithinDelay(way, now, delay)
    ensures Link(s.(now := now), u, way, delay)
  {
    var l := LongestJittered(SendInterval(Course(s.v, u)), s.v.cfg.detectMult);
    forall i | 0 <= i < |way.flights|
      ensures InSequence(way.flights, s.(now := now), l, delay, i)
    {
      assert InSequence(way.flights, s, l, delay, i);
    }
  }

  lemma Mirrored(startV: State, s: Timed, startU: State, r: Timed, there: Way, back: Way, delay: nat)
    requires Good(startV, s, startU, r, there, back, delay)
    ensures Good(startU, r, startV, s, back, there, delay)
  {
  }

  lemma NextKeeps(startA: State, startB: State, d: Duo, e: Duo, delay: nat)
    requires Steady(startA, startB, d, delay) && Next(d, e, delay)
    ensures Steady(startA, startB, e, delay)
  {
    if BothTick(d, e, delay) {
      TickKeeps(startA, startB, d, e, delay);
    } else if Acts(d.a, d.b, d.ab, e.a, e.b, e.ab) && e.ba == d.ba {
      ActKeeps(startA, d.a, startB, d.b, d.ab, d.ba, delay, e.a, e.b, e.ab);
    } else {
      Mirrored(startA, d.a, startB, d.b, d.ab, d.ba, delay);
      ActKeeps(startB, d.b, startA, d.a, d.ba, d.ab, delay, e.b, e.a, e.ba);
      Mirrored(startB, e.b, startA, e.a, e.ba, e.ab, delay);
    }
  }

  ghost predicate IsRun(run: seq<Duo>, delay: nat) {
    |run| > 0 && forall i :: 0 <= i < |run| - 1 ==> Next(run[i], run[i + 1], delay)
  }

  /** No false alarm. Two sessions that are Up, know each other's variables and have just
      exchanged packets stay Up for ever, whatever the jitter and however long each packet
      takes within the bound, if of each side's packets never more than DetectMult-2 (none,
      when DetectMult is 1) are lost in a row; and the detection timers, which are free to
      fire when due, never become due. */
  lemma {:induction false} NoFalseAlarm(startA: State, startB: State, run: seq<Duo>, n: nat, delay: nat)
    requires IsRun(run, delay) && n < |run| && Steady(startA, startB, run[0], delay)
    ensures Steady(startA, startB, run[n], delay)
    ensures run[n].a.v.state == Up && run[n].b.v.state == Up
    ensures run[n].a.now < run[n].a.v.detectDeadline && run[n].b.now < run[n].b.v.detectDeadline
  {
    if n > 0 {
      NoFalseAlarm(startA, startB, run, n - 1, delay);
      assert Next(run[n - 1], run[n - 1 + 1], delay);
      NextKeeps(startA, startB, run[n - 1], run[n], delay);
    }
    InTime(startA, run[n].a, startB, run[n].b.v, run[n].ab, delay);
    InTime(startB, run[n].b, startA, run[n].a.v, run[n].ba, delay);
  }

  // ---- Intervals below a microsecond -------------------------------------

  /** A peer whose Required Min RX Interval is shorter than a microsecond announces zero, and
      is sent no periodic packets at all; any other is. */
  lemma KeepsSendingIff(start: State, v: Vars, u: Vars)
    requires Inv(start, v) && v.state == Up && Knows(v, u) && 0 < u.requiredMinRx <= MAX_WIRE_INTERVAL
    ensures OnTxTimer(v).sent != v.sent <==> u.requiredMinRx >= MICROSECOND
  {
    OnWireTruncates(u.requiredMinRx);
    if u.requiredMinRx >= MICROSECOND {
      FiresAndSends(start, v, u);
    }
  }

  /** For instance 500 nanoseconds. */
  lemma HalfMicrosecondSilences(start: State, v: Vars, u: Vars)
    requires Inv(start, v) && v.state == Up && Knows(v, u) && u.requiredMinRx == 500
    ensures v.remoteMinRx == 0 && OnTxTimer(v).sent == v.sent
  {
    OnWireTruncates(500);
    KeepsSendingIff(start, v, u);
  }
}
