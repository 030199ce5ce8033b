/** Two sessions come Up under interference. Timers fire, packets are lost or repeated, and
    others arrive in between; as long as each direction keeps its order and nobody gives
    up, no session ever falls back, and three packets that get through are enough. */
module Convergence {
  import opened Bytes
  import opened Fsm
  import opened Codec
  import opened Auth
  import opened Session
  import opened SessionSteps
  import opened Pair
  import SessionRuns
  import opened Timing
  import Keepalive

  function Rank(s: State): nat {
    match s case Down => 0 case Init => 1 case Up => 2 case AdminDown => 3
  }

  // ---- What matters of a session -----------------------------------------

  /** The state, the states of all packets sent, which packet of the peer was the last to
      arrive, and the state that the last accepted one told. */
  datatype View = View(state: State, said: seq<State>, heard: nat, told: State)

  /** What a session says never takes anything back, and it is where its last word was or
      further. */
  predicate Climbing(v: View) {
    && v.state != AdminDown
    && (forall i :: 0 <= i < |v.said| ==> Rank(v.said[i]) <= Rank(v.state))
    && (forall i, j :: 0 <= i <= j < |v.said| ==> Rank(v.said[i]) <= Rank(v.said[j]))
  }

  /** Up is earned by having heard Init or Up. */
  predicate Earned(v: View, u: View) {
    v.state == Up ==> v.heard < |u.said| && Rank(u.said[v.heard]) >= 1
  }

  /** Who was told that the peer is Up has heard nothing older since. */
  predicate Backed(v: View, u: View) {
    v.told == Up ==> v.heard < |u.said| && u.said[v.heard] == Up
  }

  predicate InOrder(v: View, u: View) {
    Climbing(v) && Climbing(u) && Earned(v, u) && Earned(u, v) && Backed(v, u) && Backed(u, v)
  }

  /** The session goes to s and perhaps says so. */
  predicate GoesTo(v: View, s: State, w: View) {
    w.state == s && (w.said == v.said || w.said == v.said + [s])
  }

  lemma GoingKeeps(v: View, u: View, w: View, s: State)
    requires InOrder(v, u) && GoesTo(v, s, w) && s != AdminDown && Rank(s) >= Rank(v.state)
    ensures Climbing(w) && Earned(u, w) && Backed(u, w)
  {
  }

  /** An accepted packet that does not run behind an earlier one moves a session up or not
      at all; a packet that tells the peer's present state moves it to Init at least, and
      to Up if the peer itself has moved. */
  lemma HearingClimbs(v: View, u: View, k: nat, diag: u8, w: View)
    requires InOrder(v, u) && v.heard <= k < |u.said| && w.heard == k && w.told == u.said[k]
    requires GoesTo(v, RfcReceive(v.state, diag, u.said[k]).0, w)
    ensures InOrder(w, u) && Rank(w.state) >= Rank(v.state) && (v.told == Up ==> w.told == Up)
    ensures u.said[k] == u.state ==> w.state == Up || (w.state == Init && u.state == Down)
  {
    GoingKeeps(v, u, w, w.state);
  }

  /** A packet that is not accepted, or the session's own doing. */
  lemma StayingKeeps(v: View, u: View, w: View)
    requires InOrder(v, u) && GoesTo(v, v.state, w) && v.heard <= w.heard && (w.heard == v.heard || w.heard < |u.said|)
    requires w.told == v.told
    ensures InOrder(w, u)
  {
    GoingKeeps(v, u, w, v.state);
  }

  // ---- Sessions ----------------------------------------------------------

  function Said(v: Vars): seq<State> {
    seq(|v.sent|, i requires 0 <= i < |v.sent| => v.sent[i].pkt.state)
  }

  function ViewOf(v: Vars, heard: nat): View {
    View(v.state, Said(v), heard, v.remoteState)
  }

  lemma EmittedGoes(v: Vars, w: Vars, n: nat, m: nat)
    requires Emits(v, w)
    ensures GoesTo(ViewOf(v, n), w.state, ViewOf(w, m))
  {
    if w.sent == v.sent {
    } else {
      assert forall i :: 0 <= i < |v.sent| ==> w.sent[i] == w.sent[..|v.sent|][i];
      assert Said(w) == Said(v) + [w.state];
    }
  }

  ghost predicate Accepts(v: Vars, t: Session.Transmission)
    requires v.auth.Some? ==> KnownType(v.auth.value.kind)
    requires t.auth.Some? ==> KnownType(t.auth.value.kind)
  {
    var r := Decode(WireBytes(t));
    r.Ok? && Authenticate(v.auth, r.value, WireBytes(t)).Some?
  }

  /** Where an arriving packet of the peer takes a session, and what it tells it. */
  lemma ArrivalState(startV: State, v: Vars, startU: State, u: Vars, k: nat, now: nat)
    requires Inv(startV, v) && Inv(startU, u) && Side(u, v) && k < |u.sent| && now > 0
    ensures Sendable(u.sent[k])
    ensures var w := Deliver(v, WireBytes(u.sent[k]), now);
            if Accepts(v, u.sent[k])
            then w.state == RfcReceive(v.state, v.localDiag, u.sent[k].pkt.state).0 && w.remoteState == u.sent[k].pkt.state
            else w == v
  {
    var t := u.sent[k];
    WireDecodes(t);
    assert Tagged(u, v, t);
    var p := Decode(WireBytes(t)).value;
    AcceptedState(startV, v, p, WireBytes(t), now);
  }

  lemma AcceptedState(start: State, v: Vars, p: ControlPacket, wire: seq<u8>, now: nat)
    requires Inv(start, v) && p.my != 0 && p.detectMult != 0 && now > 0
    ensures var w := OnRecv(v, p, wire, now);
            if Authenticate(v.auth, p, wire).Some?
            then w.state == RfcReceive(v.state, v.localDiag, p.state).0 && w.remoteState == p.state
            else w == v
  {
    AuthenticatedAuth(v.auth, p, wire);
    match Authenticate(v.auth, p, wire) {
      case None =>
      case Some(auth) =>
        var x := v.(auth := auth);
        assert DetectionTimeHot(x) == DetectionTimeHot(v);
        AcceptedOutcome(start, x, p, now);
    }
  }

  // ---- What packets tell of their sender ---------------------------------

  /** The parameters of v, as a packet announces them. */
  predicate TellsTerms(p: ControlPacket, v: Vars) {
    && p.detectMult == v.cfg.detectMult && p.requiredMinRx == ToMicros(v.requiredMinRx)
    && p.desiredMinTx == ToMicros(EffectiveTx(p.state, v.desiredMinTx))
  }

  predicate Truthful(v: Vars) {
    forall i :: 0 <= i < |v.sent| ==> TellsTerms(v.sent[i].pkt, v)
  }

  /** The parameters stay, and what is said tells them. */
  predicate TermsKept(v: Vars, w: Vars) {
    && w.cfg == v.cfg && w.desiredMinTx == v.desiredMinTx && w.requiredMinRx == v.requiredMinRx
    && (|| w.sent == v.sent
        || (|w.sent| == |v.sent| + 1 && w.sent[..|v.sent|] == v.sent && TellsTerms(w.sent[|v.sent|].pkt, w)))
  }

  lemma TruthKept(v: Vars, w: Vars)
    requires Truthful(v) && TermsKept(v, w)
    ensures Truthful(w)
  {
    forall i | 0 <= i < |w.sent|
      ensures TellsTerms(w.sent[i].pkt, w)
    {
      if w.sent != v.sent && i < |v.sent| {
        assert w.sent[..|v.sent|][i] == v.sent[i];
      }
    }
  }

  lemma AcceptedTerms(start: State, v: Vars, p: ControlPacket, wire: seq<u8>, now: nat)
    requires Inv(start, v) && p.my != 0 && p.detectMult != 0 && now > 0
    ensures TermsKept(v, OnRecv(v, p, wire, now))
  {
    AuthenticatedAuth(v.auth, p, wire);
    match Authenticate(v.auth, p, wire) {
      case None =>
      case Some(auth) =>
        var x := v.(auth := auth);
        assert DetectionTimeHot(x) == DetectionTimeHot(v);
        AcceptedOutcome(start, x, p, now);
        OutcomeTerms(x, p, now, OnAccepted(x, p, now));
    }
  }

  lemma OutcomeTerms(v: Vars, p: ControlPacket, now: nat, w: Vars)
    requires Outcome(v, p, now, w)
    ensures TermsKept(v, w)
  {
  }

  lemma ArrivalTerms(startV: State, v: Vars, startU: State, u: Vars, k: nat, now: nat)
    requires Inv(startV, v) && Inv(startU, u) && Side(u, v) && k < |u.sent| && now > 0
    ensures Sendable(u.sent[k]) && TermsKept(v, Deliver(v, WireBytes(u.sent[k]), now))
  {
    var t := u.sent[k];
    WireDecodes(t);
    assert Tagged(u, v, t);
    AcceptedTerms(startV, v, Decode(WireBytes(t)).value, WireBytes(t), now);
  }

  lemma TimerTerms(start: State, v: Vars, now: nat)
    requires Inv(start, v)
    ensures TermsKept(v, OnTxTimer(v)) && (v.state == Down ==> TermsKept(v, OnDetectTimer(v, now)))
  {
    ExpiredClosedForm(v, now);
    assert Transmit(v).sent[..|v.sent|] == v.sent;
  }

  /** Who is Up and was last told that its peer is holds the peer's parameters. */
  lemma KnowingKnows(s: Sys, e: Endpoint)
    requires PairInv(Down, Down, s) && Truthful(Peer(s, e)) && Local(s, e).state == Up && Peer(s, e).state == Up
    requires Local(s, e).remoteState == Up
    ensures Keepalive.Knows(Local(s, e), Peer(s, e))
  {
    var v, u := Local(s, e), Peer(s, e);
    var k: nat :| k < |u.sent| && Heard(v, u.sent[k]);
    assert TellsTerms(u.sent[k].pkt, u);
  }

  /** Order matters: a session that is Up falls back exactly if it accepts a packet, however
      old, that says Down or AdminDown. */
  lemma FallsBackIff(startV: State, v: Vars, startU: State, u: Vars, k: nat, now: nat)
    requires Inv(startV, v) && Inv(startU, u) && Side(u, v) && k < |u.sent| && v.state == Up && now > 0
    ensures Sendable(u.sent[k])
    ensures Deliver(v, WireBytes(u.sent[k]), now).state != Up
            <==> Accepts(v, u.sent[k]) && (u.sent[k].pkt.state == Down || u.sent[k].pkt.state == AdminDown)
  {
    ArrivalState(startV, v, startU, u, k, now);
    var w := Deliver(v, WireBytes(u.sent[k]), now);
    assert !Accepts(v, u.sent[k]) ==> w.state == Up;
    assert Accepts(v, u.sent[k]) ==> w.state == RfcReceive(Up, v.localDiag, u.sent[k].pkt.state).0;
  }

  // ---- Runs --------------------------------------------------------------

  /** Both sessions, and which packet each has got to. */
  datatype Fifo = Fifo(s: Sys, heardA: nat, heardB: nat)

  function Other(e: Endpoint): Endpoint {
    if e == A then B else A
  }

  function Got(f: Fifo, e: Endpoint): nat {
    if e == A then f.heardA else f.heardB
  }

  /** Arrivals in order, with repetitions; a timeout only of a session that is Down. */
  predicate Allowed(v: Vars, got: nat, h: Happening) {
    match h
    case Arrival(k) => got <= k
    case Transmission => true
    case Expiry => v.state == Down
    case LinkLost => false
    case Disabled => false
  }

  ghost predicate Step(f: Fifo, g: Fifo, e: Endpoint, h: Happening, now: nat) {
    && Next(f.s, g.s, e, h, now) && Allowed(Local(f.s, e), Got(f, e), h)
    && Got(g, e) == (if h.Arrival? then h.k else Got(f, e)) && Got(g, Other(e)) == Got(f, Other(e))
  }

  /** A packet that tells the peer's present state arrives at e and is accepted. */
  ghost predicate Delivers(f: Fifo, g: Fifo, e: Endpoint, k: nat, now: nat) {
    && Step(f, g, e, Arrival(k), now)
    && Peer(f.s, e).sent[k].pkt.state == Peer(f.s, e).state && Accepts(Local(f.s, e), Peer(f.s, e).sent[k])
  }

  function SeenBy(f: Fifo, e: Endpoint): View {
    ViewOf(Local(f.s, e), Got(f, e))
  }

  ghost predicate FifoInv(f: Fifo) {
    PairInv(Down, Down, f.s) && InOrder(SeenBy(f, A), SeenBy(f, B)) && Truthful(f.s.a) && Truthful(f.s.b)
  }

  /** e was told that the other one is Up. */
  predicate Knowing(f: Fifo, e: Endpoint) {
    Local(f.s, e).remoteState == Up
  }

  lemma OwnStepKeeps(v: Vars, u: Vars, n: nat, m: nat, h: Happening, now: nat, w: Vars)
    requires Inv(Down, v) && InOrder(ViewOf(v, n), ViewOf(u, m)) && !h.Arrival? && Allowed(v, n, h) && Acts(v, u, h, now, w)
    ensures InOrder(ViewOf(w, n), ViewOf(u, m)) && w.state == v.state && w.remoteState == v.remoteState
  {
    TimersOwnDoing(Down, v, now);
    SessionRuns.ExpiryLog(v, now);
    EmittedGoes(v, w, n, n);
    StayingKeeps(ViewOf(v, n), ViewOf(u, m), ViewOf(w, n));
  }

  lemma ArrivalStepKeeps(v: Vars, u: Vars, n: nat, m: nat, k: nat, now: nat, w: Vars)
    requires Inv(Down, v) && Inv(Down, u) && Side(v, u) && Side(u, v) && now > 0
    requires InOrder(ViewOf(v, n), ViewOf(u, m)) && n <= k && Acts(v, u, Arrival(k), now, w)
    ensures InOrder(ViewOf(w, k), ViewOf(u, m)) && Rank(w.state) >= Rank(v.state) && (v.remoteState == Up ==> w.remoteState == Up)
    ensures Accepts(v, u.sent[k]) && u.sent[k].pkt.state == u.state ==>
              w.remoteState == u.state && (w.state == Up || (w.state == Init && u.state == Down))
  {
    ArrivalState(Down, v, Down, u, k, now);
    ArrivalKeepsSide(Down, v, Down, u, k, now);
    EmittedGoes(v, w, n, k);
    if Accepts(v, u.sent[k]) {
      HearingClimbs(ViewOf(v, n), ViewOf(u, m), k, v.localDiag, ViewOf(w, k));
    } else {
      StayingKeeps(ViewOf(v, n), ViewOf(u, m), ViewOf(w, k));
    }
  }

  lemma StepTruthful(v: Vars, u: Vars, got: nat, h: Happening, now: nat, w: Vars)
    requires Inv(Down, v) && Inv(Down, u) && Side(u, v) && now > 0 && Allowed(v, got, h) && Acts(v, u, h, now, w) && Truthful(v)
    ensures Truthful(w)
  {
    match h {
      case Arrival(k) => ArrivalTerms(Down, v, Down, u, k, now);
      case Transmission => TimerTerms(Down, v, now);
      case Expiry => TimerTerms(Down, v, now);
    }
    TruthKept(v, w);
  }

  lemma StepKeeps(f: Fifo, g: Fifo, e: Endpoint, h: Happening, now: nat)
    requires FifoInv(f) && Step(f, g, e, h, now)
    ensures FifoInv(g)
    ensures Rank(Local(g.s, A).state) >= Rank(Local(f.s, A).state) && Rank(Local(g.s, B).state) >= Rank(Local(f.s, B).state)
    ensures Knowing(f, A) ==> Knowing(g, A)
    ensures Knowing(f, B) ==> Knowing(g, B)
    ensures h.Arrival? && Delivers(f, g, e, h.k, now) ==>
              && (Local(g.s, e).state == Up || (Local(g.s, e).state == Init && Peer(f.s, e).state == Down))
              && (Peer(f.s, e).state == Up ==> Knowing(g, e))
  {
    assert Moves(f.s, g.s);
    MoveKeeps(Down, Down, f.s, g.s);
    var v, u, w := Local(f.s, e), Peer(f.s, e), Local(g.s, e);
    var n, m := Got(f, e), Got(f, Other(e));
    assert InOrder(ViewOf(v, n), ViewOf(u, m));
    if h.Arrival? {
      ArrivalStepKeeps(v, u, n, m, h.k, now, w);
    } else {
      OwnStepKeeps(v, u, n, m, h, now, w);
    }
    StepTruthful(v, u, n, h, now, w);
  }

  ghost predicate Steps(f: Fifo, g: Fifo) {
    exists e: Endpoint, h: Happening, now: nat :: Step(f, g, e, h, now)
  }

  ghost predicate IsRun(run: seq<Fifo>) {
    && |run| > 0 && CreatedAt(Down, run[0].s.a) && CreatedAt(Down, run[0].s.b) && run[0].heardA == run[0].heardB == 0
    && forall i :: 0 <= i < |run| - 1 ==> Steps(run[i], run[i + 1])
  }

  lemma InitialInv(f: Fifo)
    requires CreatedAt(Down, f.s.a) && CreatedAt(Down, f.s.b)
    ensures FifoInv(f)
  {
    CreatedKeeps(Down, Down, f.s);
    CreatedDown(f.s.a);
    CreatedDown(f.s.b);
  }

  lemma CreatedDown(v: Vars)
    requires CreatedAt(Down, v)
    ensures v.state == Down && Said(v) == []
  {
    var now: nat :| Fresh(Down, v, now);
    FreshKeeps(Down, v, now);
  }

  lemma StepsKeep(f: Fifo, g: Fifo)
    requires FifoInv(f) && Steps(f, g)
    ensures FifoInv(g) && Rank(f.s.a.state) <= Rank(g.s.a.state) <= 2 && Rank(f.s.b.state) <= Rank(g.s.b.state) <= 2
    ensures (Knowing(f, A) ==> Knowing(g, A)) && (Knowing(f, B) ==> Knowing(g, B))
  {
    var e: Endpoint, h: Happening, now: nat :| Step(f, g, e, h, now);
    StepKeeps(f, g, e, h, now);
  }

  lemma {:induction false} RunKeeps(run: seq<Fifo>, n: nat)
    requires IsRun(run) && n < |run|
    ensures FifoInv(run[n])
  {
    if n == 0 {
      InitialInv(run[0]);
    } else {
      RunKeeps(run, n - 1);
      assert Steps(run[n - 1], run[n - 1 + 1]);
      StepsKeep(run[n - 1], run[n]);
    }
  }

  /** How far an endpoint is at some point of a run. */
  function RankAt(run: seq<Fifo>, n: nat, e: Endpoint): nat
    requires n < |run|
  {
    Rank(Local(run[n].s, e).state)
  }

  lemma RankBounded(run: seq<Fifo>, n: nat, e: Endpoint)
    requires IsRun(run) && n < |run|
    ensures RankAt(run, n, e) <= 2
  {
    RunKeeps(run, n);
  }

  lemma RankClimbs(run: seq<Fifo>, n: nat, e: Endpoint)
    requires IsRun(run) && n + 1 < |run|
    ensures RankAt(run, n, e) <= RankAt(run, n + 1, e) && (Knowing(run[n], e) ==> Knowing(run[n + 1], e))
  {
    RunKeeps(run, n);
    assert Steps(run[n], run[n + 1]);
    StepsKeep(run[n], run[n + 1]);
  }

  lemma {:induction false} Ascends(f: seq<nat>, m: nat, n: nat)
    requires m <= n < |f| && forall i :: 0 <= i < |f| - 1 ==> f[i] <= f[i + 1]
    ensures f[m] <= f[n]
    decreases n - m
  {
    if m < n {
      Ascends(f, m, n - 1);
      assert f[n - 1] <= f[n - 1 + 1];
    }
  }

  /** How far an endpoint is, and whether it was told that the other one is Up. */
  function Progress(run: seq<Fifo>, e: Endpoint): (seq<nat>, seq<nat>) {
    (seq(|run|, i requires 0 <= i < |run| => RankAt(run, i, e)),
     seq(|run|, i requires 0 <= i < |run| => if Knowing(run[i], e) then 1 else 0))
  }

  /** No session ever falls back. */
  lemma NeverFallsBack(run: seq<Fifo>, m: nat, n: nat, e: Endpoint)
    requires IsRun(run) && m <= n < |run|
    ensures RankAt(run, m, e) <= RankAt(run, n, e) <= 2 && (Knowing(run[m], e) ==> Knowing(run[n], e))
  {
    var (ranks, known) := Progress(run, e);
    forall i | 0 <= i < |run| - 1
      ensures ranks[i] <= ranks[i + 1] && known[i] <= known[i + 1]
    {
      RankClimbs(run, i, e);
    }
    Ascends(ranks, m, n);
    Ascends(known, m, n);
    RankBounded(run, n, e);
  }

  /** A packet that tells its sender's present state reaches e. */
  ghost predicate Gets(f: Fifo, g: Fifo, e: Endpoint) {
    exists k: nat, now: nat :: Delivers(f, g, e, k, now)
  }

  lemma GetsMoves(run: seq<Fifo>, i: nat, n: nat, e: Endpoint)
    requires IsRun(run) && i < n < |run| && Gets(run[i], run[i + 1], e)
    ensures RankAt(run, n, e) >= 1 && (RankAt(run, i, Other(e)) >= 1 ==> RankAt(run, n, e) == 2)
    ensures RankAt(run, i, Other(e)) == 2 ==> Knowing(run[n], e)
  {
    RunKeeps(run, i);
    var k: nat, now: nat :| Delivers(run[i], run[i + 1], e, k, now);
    StepKeeps(run[i], run[i + 1], e, Arrival(k), now);
    NeverFallsBack(run, i + 1, n, e);
  }

  lemma UpAtTop(run: seq<Fifo>, n: nat, e: Endpoint)
    requires n < |run| && RankAt(run, n, e) == 2
    ensures Local(run[n].s, e).state == Up
  {
  }

  /** Three packets that get through, to one side, back, and to the first again, each
      telling its sender's state at the time, bring both sides Up, whatever happens before,
      between and after them; and both are Up from then on. */
  lemma ThreePacketsSuffice(run: seq<Fifo>, i: nat, j: nat, k: nat, n: nat, e: Endpoint)
    requires IsRun(run) && i < j < k < n < |run|
    requires Gets(run[i], run[i + 1], e) && Gets(run[j], run[j + 1], Other(e)) && Gets(run[k], run[k + 1], e)
    ensures Local(run[n].s, e).state == Up && Local(run[n].s, Other(e)).state == Up
  {
    GetsMoves(run, i, j, e);
    GetsMoves(run, j, k, Other(e));
    GetsMoves(run, j, n, Other(e));
    GetsMoves(run, k, n, e);
    UpAtTop(run, n, e);
    UpAtTop(run, n, Other(e));
  }

  /** One more packet to the other side, and each holds the other's parameters as well. */
  lemma FourPacketsAgree(run: seq<Fifo>, i: nat, j: nat, k: nat, l: nat, n: nat, e: Endpoint)
    requires IsRun(run) && i < j < k < l < n < |run|
    requires Gets(run[i], run[i + 1], e) && Gets(run[j], run[j + 1], Other(e))
    requires Gets(run[k], run[k + 1], e) && Gets(run[l], run[l + 1], Other(e))
    ensures var s := run[n].s;
            s.a.state == Up && s.b.state == Up && Keepalive.Knows(s.a, s.b) && Keepalive.Knows(s.b, s.a)
  {
    ThreePacketsSuffice(run, i, j, k, n, e);
    BothKnowing(run, i, j, k, l, n, e);
    RunKeeps(run, n);
    KnowingKnows(run[n].s, A);
    KnowingKnows(run[n].s, B);
  }

  lemma BothKnowing(run: seq<Fifo>, i: nat, j: nat, k: nat, l: nat, n: nat, e: Endpoint)
    requires IsRun(run) && i < j < k < l < n < |run|
    requires Gets(run[i], run[i + 1], e) && Gets(run[j], run[j + 1], Other(e))
    requires Gets(run[k], run[k + 1], e) && Gets(run[l], run[l + 1], Other(e))
    ensures Knowing(run[n], e) && Knowing(run[n], Other(e))
  {
    GetsMoves(run, i, j, e);
    GetsMoves(run, j, k, Other(e));
    GetsMoves(run, k, l, e);
    GetsMoves(run, k, n, e);
    GetsMoves(run, l, n, Other(e));
  }
}
