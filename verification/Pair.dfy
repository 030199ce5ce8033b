/** Two sessions joined by a network that may lose, duplicate, delay and reorder packets
    but not make them up. What is on its way to an endpoint is any of the packets that
    the other one has ever sent. */
module Pair {
  import opened Bytes
  import opened Fsm
  import opened Codec
  import opened Auth
  import opened Timing
  import opened Session
  import opened SessionSteps

  datatype Endpoint = A | B

  /** Both sessions. Their `sent` logs are the contents of the network. */
  datatype Sys = Sys(a: Vars, b: Vars)

  function Local(s: Sys, e: Endpoint): Vars {
    if e == A then s.a else s.b
  }

  function Peer(s: Sys, e: Endpoint): Vars {
    if e == A then s.b else s.a
  }

  /** What happens at an endpoint: a packet arrives, a timer fires, an operator or the
      interface monitor intervenes. */
  datatype Happening = Arrival(k: nat) | Transmission | Expiry | LinkLost | Disabled

  /** Demultiplexing of section 6.8.6 of RFC 5880 at a system with this one session: a
      nonzero Your Discriminator must be the session's, a zero one is matched by address. */
  ghost function Deliver(v: Vars, wire: seq<u8>, now: nat): Vars
    requires v.auth.Some? ==> KnownType(v.auth.value.kind)
  {
    match Decode(wire)
    case Err(_) => v
    case Ok(p) => if p.your != 0 && p.your != v.cfg.localDiscr then v else OnRecv(v, p, wire, now)
  }

  ghost predicate Acts(v: Vars, peer: Vars, h: Happening, now: nat, w: Vars) {
    && (v.auth.Some? ==> KnownType(v.auth.value.kind))
    && match h
       case Arrival(k) =>
         && k < |peer.sent|
         && (peer.sent[k].auth.Some? ==> KnownType(peer.sent[k].auth.value.kind))
         && w == Deliver(v, WireBytes(peer.sent[k]), now)
       case Transmission => w == OnTxTimer(v)
       case Expiry => w == OnDetectTimer(v, now)
       case LinkLost => w == OnPathDown(v, now)
       case Disabled => w == OnAdminDown(v, now)
  }

  /** One endpoint acts, at any time whatever; the other one stands still. */
  ghost predicate Next(s: Sys, t: Sys, e: Endpoint, h: Happening, now: nat) {
    now > 0 && Peer(t, e) == Peer(s, e) && Acts(Local(s, e), Peer(s, e), h, now, Local(t, e))
  }

  // ---- What one endpoint knows of the other ------------------------------

  /** A transmission of v, meant for u: it names v, and it names u or nobody; and if it
      says Init or Up it names u, and v had accepted a packet before. */
  predicate Tagged(v: Vars, u: Vars, t: Session.Transmission) {
    && t.pkt.my == v.cfg.localDiscr
    && (t.pkt.your == 0 || t.pkt.your == u.cfg.localDiscr)
    && (t.pkt.state == Init || t.pkt.state == Up ==> t.pkt.your != 0 && v.lastPacketRecv > 0)
  }

  /** The variables that v holds about its peer are those of this transmission. */
  predicate Heard(v: Vars, t: Session.Transmission) {
    && v.remoteState == t.pkt.state && v.remoteDetectMult == t.pkt.detectMult
    && v.remoteMinRx == FromMicros(t.pkt.requiredMinRx)
    && v.remoteDesiredMinTx == FromMicros(t.pkt.desiredMinTx)
  }

  ghost predicate HeardFrom(v: Vars, u: Vars) {
    exists k: nat :: k < |u.sent| && Heard(v, u.sent[k])
  }

  ghost predicate Side(v: Vars, u: Vars) {
    && (v.remoteDiscr == 0 || v.remoteDiscr == u.cfg.localDiscr)
    && (forall i :: 0 <= i < |v.sent| ==> Tagged(v, u, v.sent[i]))
    && (v.lastPacketRecv > 0 ==> HeardFrom(v, u))
    && (v.lastPacketRecv == 0 ==> v.remoteState == Down)
  }

  ghost predicate PairInv(startA: State, startB: State, s: Sys) {
    && Inv(startA, s.a) && Inv(startB, s.b) && Side(s.a, s.b) && Side(s.b, s.a)
  }

  // ---- One action --------------------------------------------------------

  /** A session's own doing: it learns nothing, and whatever it sends names what it knows. */
  predicate OwnDoing(v: Vars, w: Vars) {
    && w.cfg == v.cfg && w.lastPacketRecv == v.lastPacketRecv
    && w.remoteState == v.remoteState && w.remoteDetectMult == v.remoteDetectMult
    && w.remoteMinRx == v.remoteMinRx && w.remoteDesiredMinTx == v.remoteDesiredMinTx
    && (w.remoteDiscr == 0 || w.remoteDiscr == v.remoteDiscr)
    && Emits(v, w)
  }

  predicate Emits(v: Vars, w: Vars) {
    || w.sent == v.sent
    || (&& |w.sent| == |v.sent| + 1 && w.sent[..|v.sent|] == v.sent
        && var x := w.sent[|v.sent|].pkt;
           x.my == v.cfg.localDiscr && x.your == w.remoteDiscr && x.state == w.state)
  }

  lemma TimersOwnDoing(start: State, v: Vars, now: nat)
    requires Inv(start, v)
    ensures OwnDoing(v, OnTxTimer(v)) && OwnDoing(v, OnDetectTimer(v, now))
  {
    ExpiredClosedForm(v, now);
    assert Transmit(v).sent[..|v.sent|] == v.sent;
  }

  lemma CommandsOwnDoing(start: State, v: Vars, now: nat)
    requires Inv(start, v)
    ensures OwnDoing(v, OnPathDown(v, now)) && OwnDoing(v, OnAdminDown(v, now))
  {
    PathDownClosedForm(v, now);
    AdminDownClosedForm(v, now);
    assert OnPathDown(v, now).sent == v.sent || OnPathDown(v, now).sent[..|v.sent|] == v.sent;
    assert OnAdminDown(v, now).sent == v.sent || OnAdminDown(v, now).sent[..|v.sent|] == v.sent;
  }

  lemma OwnDoingKeepsSide(start: State, v: Vars, w: Vars, u: Vars)
    requires Side(v, u) && Inv(start, w) && OwnDoing(v, w)
    ensures Side(w, u)
  {
  }

  /** Seen from the other end, a session only ever says more. */
  lemma PeerKeepsSide(u: Vars, v: Vars, w: Vars)
    requires Side(u, v) && w.cfg == v.cfg && Emits(v, w)
    ensures Side(u, w)
  {
  }

  /** An arriving packet of the peer: accepted or not, it tells the truth about the peer. */
  lemma ArrivalKeepsSide(startV: State, v: Vars, startU: State, u: Vars, k: nat, now: nat)
    requires Inv(startV, v) && Inv(startU, u) && Side(v, u) && Side(u, v) && k < |u.sent| && now > 0
    ensures Sendable(u.sent[k])
    ensures var w := Deliver(v, WireBytes(u.sent[k]), now);
            Inv(startV, w) && Side(w, u) && w.cfg == v.cfg && Emits(v, w)
  {
    var t := u.sent[k];
    WireDecodes(t);
    var q := SignedPacket(t);
    assert Tagged(u, v, t);
    HearingKeepsSide(startV, v, u, k, q.(length := TotalLen(q)), WireBytes(t), now);
  }

  /** The parts of a received packet that a session takes over. */
  predicate Says(p: ControlPacket, t: Session.Transmission) {
    && p.my == t.pkt.my && p.your == t.pkt.your && p.state == t.pkt.state && p.detectMult == t.pkt.detectMult
    && p.requiredMinRx == t.pkt.requiredMinRx && p.desiredMinTx == t.pkt.desiredMinTx
  }

  lemma HearingKeepsSide(start: State, v: Vars, u: Vars, k: nat, p: ControlPacket, wire: seq<u8>, now: nat)
    requires Inv(start, v) && Side(v, u) && k < |u.sent| && now > 0
    requires Says(p, u.sent[k]) && p.my == u.cfg.localDiscr && p.my != 0 && p.detectMult != 0
    ensures var w := OnRecv(v, p, wire, now);
            Inv(start, w) && Side(w, u) && w.cfg == v.cfg && Emits(v, w)
  {
    RecvKeeps(start, v, p, wire, now);
    AuthenticatedAuth(v.auth, p, wire);
    match Authenticate(v.auth, p, wire) {
      case None =>
      case Some(auth) =>
        var x := v.(auth := auth);
        assert DetectionTimeHot(x) == DetectionTimeHot(v);
        AcceptedOutcome(start, x, p, now);
        OutcomeKeepsSide(start, v, x, OnRecv(v, p, wire, now), u, k, p, now);
    }
  }

  lemma OutcomeKeepsSide(start: State, v: Vars, x: Vars, w: Vars, u: Vars, k: nat, p: ControlPacket, now: nat)
    requires Side(v, u) && x == v.(auth := x.auth) && Outcome(x, p, now, w) && Inv(start, w) && now > 0
    requires k < |u.sent| && p.my == u.cfg.localDiscr && Says(p, u.sent[k])
    ensures Side(w, u) && w.cfg == v.cfg && Emits(v, w)
  {
  }

  // ---- Every run ---------------------------------------------------------

  lemma ActKeeps(startV: State, v: Vars, startU: State, u: Vars, h: Happening, now: nat, w: Vars)
    requires Inv(startV, v) && Inv(startU, u) && Side(v, u) && Side(u, v) && now > 0 && Acts(v, u, h, now, w)
    ensures Inv(startV, w) && Side(w, u) && Side(u, w)
  {
    match h {
      case Arrival(k) => ArrivalKeepsSide(startV, v, startU, u, k, now);
      case Transmission =>
        TxTimerKeeps(startV, v);
        TimersOwnDoing(startV, v, now);
        OwnDoingKeepsSide(startV, v, w, u);
      case Expiry =>
        DetectTimerKeeps(startV, v, now);
        TimersOwnDoing(startV, v, now);
        OwnDoingKeepsSide(startV, v, w, u);
      case LinkLost =>
        PathDownKeeps(startV, v, now);
        CommandsOwnDoing(startV, v, now);
        OwnDoingKeepsSide(startV, v, w, u);
      case Disabled =>
        AdminDownKeeps(startV, v, now);
        CommandsOwnDoing(startV, v, now);
        OwnDoingKeepsSide(startV, v, w, u);
    }
    PeerKeepsSide(u, v, w);
  }

  ghost predicate CreatedAt(start: State, v: Vars) {
    exists now: nat :: Fresh(start, v, now)
  }

  ghost predicate IsRun(startA: State, startB: State, run: seq<Sys>) {
    && |run| > 0 && CreatedAt(startA, run[0].a) && CreatedAt(startB, run[0].b)
    && forall i :: 0 <= i < |run| - 1 ==> Moves(run[i], run[i + 1])
  }

  ghost predicate Moves(s: Sys, t: Sys) {
    exists e: Endpoint, h: Happening, now: nat :: Next(s, t, e, h, now)
  }

  lemma CreatedKeeps(startA: State, startB: State, s: Sys)
    requires CreatedAt(startA, s.a) && CreatedAt(startB, s.b)
    ensures PairInv(startA, startB, s)
  {
    var na: nat :| Fresh(startA, s.a, na);
    var nb: nat :| Fresh(startB, s.b, nb);
    FreshKeeps(startA, s.a, na);
    FreshKeeps(startB, s.b, nb);
  }

  lemma MoveKeeps(startA: State, startB: State, s: Sys, t: Sys)
    requires PairInv(startA, startB, s) && Moves(s, t)
    ensures PairInv(startA, startB, t)
  {
    var e: Endpoint, h: Happening, now: nat :| Next(s, t, e, h, now);
    if e == A {
      ActKeeps(startA, s.a, startB, s.b, h, now, t.a);
    } else {
      ActKeeps(startB, s.b, startA, s.a, h, now, t.b);
    }
  }

  lemma {:induction false} RunInvariant(startA: State, startB: State, run: seq<Sys>, n: nat)
    requires IsRun(startA, startB, run) && n < |run|
    ensures PairInv(startA, startB, run[n])
  {
    if n == 0 {
      CreatedKeeps(startA, startB, run[0]);
    } else {
      RunInvariant(startA, startB, run, n - 1);
      assert Moves(run[n - 1], run[n - 1 + 1]);
      MoveKeeps(startA, startB, run[n - 1], run[n]);
    }
  }

  /** The three-way handshake means what it is for. In every run, whatever the network
      does: a session is Up only after each side has accepted a packet of the other, and
      what it holds about its peer is what the peer really sent. */
  lemma UpMeansBothHeard(startA: State, startB: State, run: seq<Sys>, n: nat, e: Endpoint)
    requires IsRun(startA, startB, run) && n < |run| && Local(run[n], e).state == Up
    ensures var v, u := Local(run[n], e), Peer(run[n], e);
            && v.lastPacketRecv > 0 && u.lastPacketRecv > 0
            && v.remoteDiscr == u.cfg.localDiscr
            && exists k: nat :: k < |u.sent| && Heard(v, u.sent[k])
                                && (u.sent[k].pkt.state == Init || u.sent[k].pkt.state == Up)
                                && u.sent[k].pkt.your == v.cfg.localDiscr
  {
    RunInvariant(startA, startB, run, n);
    var v, u := Local(run[n], e), Peer(run[n], e);
    var k: nat :| k < |u.sent| && Heard(v, u.sent[k]);
    assert Tagged(u, v, u.sent[k]);
  }

  /** Every packet in flight that names somebody names its receiver, so it is routed to
      the session it was meant for, and it decodes. */
  lemma InFlightNamesReceiver(startA: State, startB: State, run: seq<Sys>, n: nat, e: Endpoint, k: nat)
    requires IsRun(startA, startB, run) && n < |run| && k < |Peer(run[n], e).sent|
    ensures var t := Peer(run[n], e).sent[k];
            && Sendable(t) && Decode(WireBytes(t)).Ok?
            && (t.pkt.your != 0 ==> t.pkt.your == Local(run[n], e).cfg.localDiscr)
            && (t.pkt.state == Init || t.pkt.state == Up ==> t.pkt.your != 0 && Peer(run[n], e).lastPacketRecv > 0)
  {
    RunInvariant(startA, startB, run, n);
    var t := Peer(run[n], e).sent[k];
    WireDecodes(t);
    assert Tagged(Peer(run[n], e), Local(run[n], e), t);
  }
}
