/** The three-way handshake completes: if the packets of two fresh sessions get through,
    both come Up and know each other's variables, and from then on they satisfy the
    conditions under which they never fall out of Up. */
module Handshake {
  import opened Bytes
  import opened Fsm
  import opened Codec
  import opened Auth
  import opened Timing
  import opened Session
  import opened SessionSteps
  import opened SessionRuns
  import opened Keepalive
  import Pair

  /** Settings that let two sessions talk: no authentication on either side, or each side
      holds the other's transmit key; no padding under a hash. */
  predicate Compatible(v: Vars, u: Vars) {
    Authentic(v, u, 0) && Authentic(u, v, 0)
  }

  /** u, having sent its last packet, is what y was before it sent it. */
  predicate JustSent(y: Vars, u: Vars) {
    && y == u.(auth := y.auth) && u.auth == Bumped(y.auth) && |u.sent| > 0 && u.sent[|u.sent| - 1] == OnAir(y)
  }

  ghost function LastWire(u: Vars): seq<u8> {
    if |u.sent| > 0 && Sendable(u.sent[|u.sent| - 1]) then WireBytes(u.sent[|u.sent| - 1]) else []
  }

  /** Delivery of the peer's last packet. */
  ghost function Hear(u: Vars, v: Vars, now: nat): Vars {
    if u.auth.Some? && !KnownType(u.auth.value.kind) then u else Pair.Deliver(u, LastWire(v), now)
  }

  /** u holds the variables that v announced in its present state. */
  predicate HoldsTerms(u: Vars, v: Vars) {
    && u.remoteMinRx == OnWire(v.requiredMinRx) && u.remoteDesiredMinTx == OnWire(EffectiveTx(v.state, v.desiredMinTx))
    && u.remoteDetectMult == v.cfg.detectMult
  }

  /** What u has become by hearing v and moving to t. */
  predicate MovedTo(u: Vars, v: Vars, now: nat, t: State, w: Vars) {
    && w.cfg == u.cfg && w.state == w.cachedState == t && w.remoteDiscr == v.cfg.localDiscr && w.lastPacketRecv == now
    && w.desiredMinTx == u.desiredMinTx && w.requiredMinRx == u.requiredMinRx && HoldsTerms(w, v)
  }

  lemma MovedBy(y: Vars, v: Vars, u: Vars, x: Vars, p: ControlPacket, now: nat, t: State, w: Vars)
    requires y == v.(auth := y.auth) && x == u.(auth := x.auth) && Announces(p, y) && Outcome(x, p, now, w)
    requires t == RfcReceive(u.state, u.localDiag, v.state).0 && (t == Init || t == Up)
    ensures MovedTo(u, v, now, t, w)
  {
  }

  /** The packet sent by a move, and the session before it was sent. */
  lemma SentByMove(u: Vars, x: Vars, p: ControlPacket, now: nat, t: State, w: Vars)
    requires x == u.(auth := x.auth) && Outcome(x, p, now, w) && !p.poll
    requires t == RfcReceive(u.state, u.localDiag, p.state).0 && (t == Init || t == Up)
    ensures var z := w.(auth := x.auth); if t == u.state then w == z else JustSent(z, w)
  {
  }

  /** Authentication in both directions after u has heard v. */
  lemma StillAuthentic(y: Vars, v: Vars, u: Vars, x: Vars, w: Vars)
    requires y == v.(auth := y.auth) && v.auth == Bumped(y.auth) && SameButAuth(u, x) && w.cfg == u.cfg
    requires Authentic(Transmit(y), x, 0) && Authentic(u, v, 0) && (w.auth == x.auth || w.auth == Bumped(x.auth))
    ensures Authentic(v, w, 0) && Authentic(w.(auth := x.auth), v, 0)
  {
  }

  lemma InvWithAuth(start: State, w: Vars, auth: Option<AuthVars>)
    requires Inv(start, w) && (auth.Some? ==> ValidAuth(auth.value))
    ensures Inv(start, w.(auth := auth))
  {
  }

  /** One packet of the handshake: u hears what v sent last, moves to t, and answers if
      that is a move; z is u just before it answers. */
  lemma Exchange(startV: State, y: Vars, v: Vars, startU: State, u: Vars, now: nat, t: State) returns (z: Vars)
    requires Inv(startV, y) && JustSent(y, v) && Inv(startU, u) && now > 0
    requires (y.remoteDiscr == 0 || y.remoteDiscr == u.cfg.localDiscr) && Authentic(y, u, 0) && Authentic(u, v, 0)
    requires t == RfcReceive(u.state, u.localDiag, v.state).0 && (t == Init || t == Up)
    ensures var w := Hear(u, v, now);
            && Inv(startU, w) && MovedTo(u, v, now, t, w) && Authentic(v, w, 0) && Authentic(z, v, 0) && Inv(startU, z)
            && (if t == u.state then w == z else JustSent(z, w))
  {
    var p, x := Hears(startV, y, startU, u, 0, now);
    var w := Pair.Deliver(u, WireBytes(OnAir(y)), now);
    HearIs(y, v, u, now);
    MovedBy(y, v, u, x, p, now, t, w);
    SentByMove(u, x, p, now, t, w);
    StillAuthentic(y, v, u, x, w);
    z := w.(auth := x.auth);
    InvWithAuth(startU, w, x.auth);
  }

  lemma HearIs(y: Vars, v: Vars, u: Vars, now: nat)
    requires JustSent(y, v) && Sendable(OnAir(y)) && (u.auth.Some? ==> KnownType(u.auth.value.kind))
    ensures Hear(u, v, now) == Pair.Deliver(u, WireBytes(OnAir(y)), now)
  {
  }

  /** The sessions after each of the four packets: a speaks first. */
  datatype Course4 = Course4(a1: Vars, b1: Vars, a2: Vars, b2: Vars, a3: Vars)

  ghost predicate Handshakes(a: Vars, b: Vars, c: Course4, t1: nat, t2: nat, t3: nat, t4: nat) {
    && c.a1 == OnTxTimer(a) && c.b1 == Hear(b, c.a1, t1) && c.a2 == Hear(c.a1, c.b1, t2)
    && c.b2 == Hear(c.b1, c.a2, t3) && c.a3 == Hear(c.a2, c.b2, t4)
  }

  /** Both Up, each with the other's present variables, each able to take the other's next
      packet. */
  predicate Established(a: Vars, b: Vars) {
    && Inv(Down, a) && Inv(Down, b) && a.state == Up && b.state == Up
    && Knows(a, b) && Knows(b, a) && Authentic(a, b, 0) && Authentic(b, a, 0)
  }

  lemma FirstWord(a: Vars, now: nat) returns (y: Vars)
    requires Fresh(Down, a, now) && a.cfg.role == Active
    ensures var v := OnTxTimer(a);
            && Inv(Down, y) && Inv(Down, v) && JustSent(y, v) && v.state == Down && y.remoteDiscr == 0 && y.auth == a.auth
            && v.cfg == a.cfg && v.desiredMinTx == a.desiredMinTx && v.requiredMinRx == a.requiredMinRx
  {
    FreshKeeps(Down, a, now);
    var cfg, desired, required, auth :| StartedAs(Down, cfg, desired, required, auth, now, a);
    TxTimerKeeps(Down, a);
    y := Transmit(a).(auth := a.auth);
    InvWithAuth(Down, Transmit(a), a.auth);
    assert BuildPacket(y) == BuildPacket(a);
  }

  /** v has just spoken, having been y, and it is u's turn to hear it. */
  ghost predicate Turn(y: Vars, v: Vars, u: Vars) {
    && Inv(Down, y) && Inv(Down, v) && JustSent(y, v) && Inv(Down, u)
    && (y.remoteDiscr == 0 || y.remoteDiscr == u.cfg.localDiscr) && Authentic(y, u, 0) && Authentic(u, v, 0)
  }

  lemma NextTurn(y: Vars, v: Vars, u: Vars, now: nat, t: State) returns (z: Vars)
    requires Turn(y, v, u) && now > 0
    requires t == RfcReceive(u.state, u.localDiag, v.state).0 && (t == Init || t == Up) && t != u.state
    ensures var w := Hear(u, v, now); Turn(z, w, v) && MovedTo(u, v, now, t, w)
  {
    z := Exchange(Down, y, v, Down, u, now, t);
  }

  lemma LastTurn(y: Vars, v: Vars, u: Vars, now: nat)
    requires Turn(y, v, u) && now > 0 && u.state == Up && v.state == Up
    ensures var w := Hear(u, v, now);
            Inv(Down, w) && MovedTo(u, v, now, Up, w) && Authentic(v, w, 0) && Authentic(w, v, 0)
  {
    var z := Exchange(Down, y, v, Down, u, now, Up);
  }

  lemma EstablishedBy(a: Vars, a1: Vars, b: Vars, b1: Vars, a2: Vars, b2: Vars, a3: Vars, t2: nat, t3: nat, t4: nat)
    requires SameTerms(a, a1) && SameTerms(b, b1)
    requires MovedTo(a1, b1, t2, Up, a2) && MovedTo(b1, a2, t3, Up, b2) && MovedTo(a2, b2, t4, Up, a3)
    ensures Knows(a3, b2) && Knows(b2, a3) && TxIntervalHot(a2) == TxIntervalHot(a3) && a2.cfg == a3.cfg == a.cfg
    ensures SameTerms(a, a3) && SameTerms(b, b2)
  {
  }

  /** The session's own settings have not changed. */
  predicate SameTerms(v: Vars, w: Vars) {
    w.cfg == v.cfg && w.desiredMinTx == v.desiredMinTx && w.requiredMinRx == v.requiredMinRx
  }

  /** Two fresh sessions whose first four packets get through are Up. */
  lemma HandshakeCompletes(a: Vars, b: Vars, na: nat, nb: nat, c: Course4, t1: nat, t2: nat, t3: nat, t4: nat)
    requires Fresh(Down, a, na) && Fresh(Down, b, nb) && a.cfg.role == Active && Compatible(a, b)
    requires 0 < t1 && 0 < t2 && 0 < t3 && 0 < t4 && Handshakes(a, b, c, t1, t2, t3, t4)
    ensures Established(c.a3, c.b2) && c.a3.lastPacketRecv == t4 && c.b2.lastPacketRecv == t3
    ensures c.a2.state == Up && TxIntervalHot(c.a2) == TxIntervalHot(c.a3) && c.a2.cfg == c.a3.cfg == a.cfg
    ensures SameTerms(a, c.a3) && SameTerms(b, c.b2)
  {
    var y := FirstTurn(a, b, na, nb);
    var z1 := FirstHeard(y, c.a1, b, c.b1, t1);
    var z2 := SecondHeard(z1, c.b1, c.a1, c.a2, t2);
    var z3 := ThirdHeard(z2, c.a2, c.b1, c.b2, t3);
    FourthHeard(z3, c.b2, c.a2, c.a3, t4);
    EstablishedBy(a, c.a1, b, c.b1, c.a2, c.b2, c.a3, t2, t3, t4);
  }

  lemma FirstHeard(y: Vars, a1: Vars, b: Vars, b1: Vars, t1: nat) returns (z1: Vars)
    requires Turn(y, a1, b) && a1.state == Down && b.state == Down && 0 < t1 && b1 == Hear(b, a1, t1)
    ensures Turn(z1, b1, a1) && b1.state == Init && SameTerms(b, b1)
  {
    z1 := NextTurn(y, a1, b, t1, Init);
  }

  lemma SecondHeard(z1: Vars, b1: Vars, a1: Vars, a2: Vars, t2: nat) returns (z2: Vars)
    requires Turn(z1, b1, a1) && b1.state == Init && a1.state == Down && 0 < t2 && a2 == Hear(a1, b1, t2)
    ensures Turn(z2, a2, b1) && a2.state == Up && MovedTo(a1, b1, t2, Up, a2)
  {
    z2 := NextTurn(z1, b1, a1, t2, Up);
  }

  lemma ThirdHeard(z2: Vars, a2: Vars, b1: Vars, b2: Vars, t3: nat) returns (z3: Vars)
    requires Turn(z2, a2, b1) && a2.state == Up && b1.state == Init && 0 < t3 && b2 == Hear(b1, a2, t3)
    ensures Turn(z3, b2, a2) && b2.state == Up && MovedTo(b1, a2, t3, Up, b2)
  {
    z3 := NextTurn(z2, a2, b1, t3, Up);
  }

  lemma FourthHeard(z3: Vars, b2: Vars, a2: Vars, a3: Vars, t4: nat)
    requires Turn(z3, b2, a2) && a2.state == Up && b2.state == Up && 0 < t4 && a3 == Hear(a2, b2, t4)
    ensures Inv(Down, a3) && Inv(Down, b2) && Authentic(b2, a3, 0) && Authentic(a3, b2, 0) && MovedTo(a2, b2, t4, Up, a3)
  {
    LastTurn(z3, b2, a2, t4);
  }

  lemma FirstTurn(a: Vars, b: Vars, na: nat, nb: nat) returns (y: Vars)
    requires Fresh(Down, a, na) && Fresh(Down, b, nb) && a.cfg.role == Active && Compatible(a, b)
    ensures Turn(y, OnTxTimer(a), b) && OnTxTimer(a).state == Down && b.state == Down && SameTerms(a, OnTxTimer(a))
  {
    FreshKeeps(Down, b, nb);
    FreshIsDown(b, nb);
    y := FirstWord(a, na);
  }

  lemma FreshIsDown(b: Vars, nb: nat)
    requires Fresh(Down, b, nb)
    ensures b.state == Down
  {
  }

  /** The configuration of one direction survives the wire and allows for the delay. */
  predicate Sound(c: Direction, delay: nat) {
    WireKeepsInterval(c) && SendInterval(c) >= 10 && c.required >= MICROSECOND && Patient(c, delay)
  }

  /** The timer of an established session, set at `since`, is in time for its peer. */
  lemma LinkFrom(v: Vars, u: Vars, since: nat, now: nat, deadline: int, delay: nat)
    requires Inv(Down, v) && v.state == Up && Inv(Down, u) && Knows(v, u) && Knows(u, v) && Authentic(v, u, 0)
    requires TxArmed(v, since, deadline) && since <= u.lastPacketRecv && Sound(Course(v, u), delay)
    ensures Link(Timed(v, now, deadline), u, Way(0, []), delay)
  {
    Rearmed(Down, v, u, since, deadline);
  }

  lemma SteadyFrom(a: Vars, b: Vars, ta: nat, tb: nat, now: nat, da: int, db: int, delay: nat)
    requires Established(a, b) && TxArmed(a, ta, da) && TxArmed(b, tb, db)
    requires ta <= b.lastPacketRecv && tb <= a.lastPacketRecv && 0 < now <= da && now <= db
    requires Sound(Course(a, b), delay) && Sound(Course(b, a), delay)
    ensures Steady(Down, Down, Duo(Timed(a, now, da), Timed(b, now, db), Way(0, []), Way(0, [])), delay)
  {
    LinkFrom(a, b, ta, now, da, delay);
    LinkFrom(b, a, tb, now, db, delay);
  }

  /** ... and from then on they never fall out of Up while enough packets get through: the
      conditions of NoFalseAlarm hold. */
  lemma HandshakeLeadsToSteady(a: Vars, b: Vars, na: nat, nb: nat, c: Course4, t1: nat, t2: nat, t3: nat, t4: nat,
                               da: int, db: int, delay: nat)
    requires Fresh(Down, a, na) && Fresh(Down, b, nb) && a.cfg.role == Active && Compatible(a, b)
    requires 0 < t1 <= t2 <= t3 <= t4 && Handshakes(a, b, c, t1, t2, t3, t4)
    requires TxArmed(c.a2, t2, da) && TxArmed(c.b2, t3, db) && t4 <= da && t4 <= db
    requires Sound(Course(a, b), delay) && Sound(Course(b, a), delay)
    ensures Steady(Down, Down, Duo(Timed(c.a3, t4, da), Timed(c.b2, t4, db), Way(0, []), Way(0, [])), delay)
  {
    HandshakeCompletes(a, b, na, nb, c, t1, t2, t3, t4);
    assert TxArmed(c.a3, t2, da);
    SteadyFrom(c.a3, c.b2, t2, t3, t4, da, db, delay);
  }

  /** The handshake of two fresh sessions, all at one instant. */
  ghost function AtOnce(a: Vars, b: Vars, now: nat): Course4 {
    var a1 := OnTxTimer(a);
    var b1 := Hear(b, a1, now);
    var a2 := Hear(a1, b1, now);
    var b2 := Hear(b1, a2, now);
    Course4(a1, b1, a2, b2, Hear(a2, b2, now))
  }

  lemma SteadyAtOnce(a: Vars, b: Vars, now: nat, delay: nat) returns (d: Duo)
    requires Fresh(Down, a, now) && Fresh(Down, b, now) && a.cfg.role == Active && Compatible(a, b) && now > 0
    requires Sound(Course(a, b), delay) && Sound(Course(b, a), delay)
    ensures Steady(Down, Down, d, delay)
  {
    var c := AtOnce(a, b, now);
    HandshakeCompletes(a, b, now, now, c, now, now, now, now);
    var da := Armed(c.a2, now);
    var db := Armed(c.b2, now);
    HandshakeLeadsToSteady(a, b, now, now, c, now, now, now, now, da, db, delay);
    d := Duo(Timed(c.a3, now, da), Timed(c.b2, now, db), Way(0, []), Way(0, []));
  }

  lemma Armed(v: Vars, now: nat) returns (deadline: int)
    requires TxIntervalHot(v) <= MAX_WIRE_INTERVAL
    ensures TxArmed(v, now, deadline) && now <= deadline
  {
    JitterRange(TxIntervalHot(v), v.cfg.detectMult, 0);
    deadline := now + Jittered(TxIntervalHot(v), v.cfg.detectMult, 0);
  }

  /** Such pairs exist: two unauthenticated sessions with one-second intervals, and packets
      that take less than a second. */
  lemma SteadyPairExists(delay: nat) returns (d: Duo)
    requires delay < SLOW_TX_INTERVAL
    ensures Steady(Down, Down, d, delay)
  {
    var a := PlainSession(1, Active, SLOW_TX_INTERVAL);
    var b := PlainSession(2, Passive, SLOW_TX_INTERVAL);
    OneSecond(Course(a, b), delay);
    OneSecond(Course(b, a), delay);
    d := SteadyAtOnce(a, b, 1, delay);
  }

  lemma PlainSession(discr: u32, role: Role, required: nat) returns (v: Vars)
    requires discr != 0 && 0 < required <= MAX_WIRE_INTERVAL
    ensures Fresh(Down, v, 1) && v.cfg == Config(discr, 3, role, 0) && v.auth == None
    ensures v.desiredMinTx == SLOW_TX_INTERVAL && v.requiredMinRx == required
  {
    var s := EveryConfigRuns(Down, Config(discr, 3, role, 0), SLOW_TX_INTERVAL, required, None, 1);
    v := s.v;
  }

  lemma OneSecond(c: Direction, delay: nat)
    requires c == Direction(Up, SLOW_TX_INTERVAL, 3, SLOW_TX_INTERVAL) && delay < SLOW_TX_INTERVAL
    ensures Sound(c, delay)
  {
    OnWireTruncates(SLOW_TX_INTERVAL);
    PatientIf(c, delay);
  }

  /** A session that has come Up, with AdminDown stored past its loop: the loop's invariant
      is broken, and the next expiry puts the session to Down. */
  lemma DirectStoreUndone(now: nat) returns (v: Vars)
    ensures Inv(Down, v) && v.state == Up && !Inv(Down, StoreAdminDown(v))
    ensures Handle(StoreAdminDown(v), DetectTimer, now).state == Down
  {
    var d := SteadyPairExists(0);
    v := d.a.v;
    DirectStoreKeepsIff(Down, v);
    EventLog(StoreAdminDown(v), DetectTimer, now);
  }

  /** Two sessions that have come Up, one of which wants packets every 500 nanoseconds: the
      other one's timer sends it none. */
  lemma HalfMicrosecondReached() returns (v: Vars, u: Vars)
    ensures Established(v, u) && u.requiredMinRx == 500 && OnTxTimer(v).sent == v.sent
  {
    var a := PlainSession(1, Active, SLOW_TX_INTERVAL);
    var b := PlainSession(2, Passive, 500);
    var c := AtOnce(a, b, 1);
    HandshakeCompletes(a, b, 1, 1, c, 1, 1, 1, 1);
    v, u := c.a3, c.b2;
    HalfMicrosecondSilences(Down, v, u);
  }
}
