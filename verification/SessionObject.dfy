/** The session as the daemon runs it: mutable fields, one packet buffer that is rebuilt in
    place, authentication state in its own record, and one method per handler of the event
    loop. Every handler is proved against the value-level handler of module Session. */
module SessionObject {
  import opened Bytes
  import opened Fsm
  import opened Codec
  import opened CodecBuffer
  import opened Auth
  import opened AuthBuffer
  import opened Timing
  import opened Session
  import opened SessionSteps
  import SessionRuns

  /** A packet, a timer or a command, and when it reaches the loop. */
  datatype Arrival = Arrival(input: SessionRuns.Input, now: nat)

  ghost function HandleAll(v: Vars, arrivals: seq<Arrival>): Vars
    requires v.auth.Some? ==> ValidAuth(v.auth.value)
    decreases |arrivals|
  {
    if arrivals == [] then v
    else
      var w := HandleAll(v, arrivals[..|arrivals| - 1]);
      var a := arrivals[|arrivals| - 1];
      if w.auth.Some? && !KnownType(w.auth.value.kind) then w
      else SessionRuns.Handle(w, a.input, a.now)
  }

  // ---- What wakes the loop ----------------------------------------------

  /** An arrival after a while, unless a timer is due before; and which timer the select
      statement picks if both are due at once. */
  datatype Wake = Wake(wait: nat, arrival: Option<SessionRuns.Input>, txFirst: bool)

  predicate IsTimer(i: SessionRuns.Input) {
    i == SessionRuns.TxTimer || i == SessionRuns.DetectTimer
  }

  predicate ArrivesInTime(s: SessionRuns.Timed, w: Wake) {
    && w.arrival.Some? && !IsTimer(w.arrival.value)
    && s.now + w.wait <= s.txDeadline && s.now + w.wait <= s.v.detectDeadline
  }

  function Chosen(s: SessionRuns.Timed, w: Wake): SessionRuns.Input {
    if ArrivesInTime(s, w) then w.arrival.value
    else if s.txDeadline < s.v.detectDeadline || (s.txDeadline == s.v.detectDeadline && w.txFirst) then SessionRuns.TxTimer
    else SessionRuns.DetectTimer
  }

  /** The session when it is woken: nothing but the clock has moved. */
  function Waiting(s: SessionRuns.Timed, w: Wake): SessionRuns.Timed
    requires s.now <= s.txDeadline && s.now <= s.v.detectDeadline
  {
    s.(now := if ArrivesInTime(s, w) then s.now + w.wait
              else if s.txDeadline <= s.v.detectDeadline then s.txDeadline else s.v.detectDeadline)
  }

  ghost predicate Woken(s: SessionRuns.Timed, t: SessionRuns.Timed, w: Wake) {
    && s.now <= s.txDeadline && s.now <= s.v.detectDeadline && (s.v.auth.Some? ==> KnownType(s.v.auth.value.kind))
    && SessionRuns.Pass(Waiting(s, w), t, Chosen(s, w))
  }

  /** Two steps of a run for every wake: waiting, and handling. */
  ghost predicate WokenIn(run: seq<SessionRuns.Timed>, i: nat, w: Wake)
    requires 2 * i + 2 < |run|
  {
    Woken(run[2 * i], run[2 * i + 2], w) && run[2 * i + 1] == Waiting(run[2 * i], w)
  }

  lemma WokenSteps(start: State, s: SessionRuns.Timed, t: SessionRuns.Timed, w: Wake)
    requires SessionRuns.TimedInv(start, s) && Woken(s, t, w)
    ensures SessionRuns.StepOk(s, Waiting(s, w)) && SessionRuns.StepOk(Waiting(s, w), t) && SessionRuns.TimedInv(start, t)
  {
    var u := Waiting(s, w);
    assert SessionRuns.Tick(s, u);
    SessionRuns.NextKeeps(start, s, u);
    assert SessionRuns.Handles(u, t, Chosen(s, w));
    SessionRuns.NextKeeps(start, u, t);
  }

  /** A run of the machine that the wakes have led to s. */
  ghost predicate Reaches(start: State, run: seq<SessionRuns.Timed>, wakes: seq<Wake>, s: SessionRuns.Timed) {
    && SessionRuns.IsRun(start, run) && SessionRuns.TimedInv(start, s)
    && |run| == 2 * |wakes| + 1 && run[2 * |wakes|] == s
    && forall j :: 0 <= j < |wakes| ==> WokenIn(run, j, wakes[j])
  }

  lemma StepsOn(start: State, run: seq<SessionRuns.Timed>, s: SessionRuns.Timed, u: SessionRuns.Timed, t: SessionRuns.Timed)
    requires SessionRuns.IsRun(start, run) && run[|run| - 1] == s && SessionRuns.StepOk(s, u) && SessionRuns.StepOk(u, t)
    ensures SessionRuns.IsRun(start, run + [u, t])
  {
    var n, r := |run| - 1, run + [u, t];
    forall i | 0 <= i < |r| - 1
      ensures SessionRuns.StepOk(r[i], r[i + 1])
    {
      if i < n {
        assert SessionRuns.StepOk(run[i], run[i + 1]);
      } else if i == n {
        assert r[i] == s && r[i + 1] == u;
      } else {
        assert r[i] == u && r[i + 1] == t;
      }
    }
  }

  lemma ReachesNext(start: State, run: seq<SessionRuns.Timed>, wakes: seq<Wake>, s: SessionRuns.Timed, w: Wake, t: SessionRuns.Timed)
    requires Reaches(start, run, wakes, s) && Woken(s, t, w)
    ensures Reaches(start, run + [Waiting(s, w), t], wakes + [w], t)
  {
    var r := run + [Waiting(s, w), t];
    WokenSteps(start, s, t, w);
    StepsOn(start, run, s, Waiting(s, w), t);
    forall j | 0 <= j <= |wakes|
      ensures WokenIn(r, j, (wakes + [w])[j])
    {
      if j < |wakes| {
        assert WokenIn(run, j, wakes[j]);
      }
    }
  }

  predicate SetsTimer(a: Action) {
    a == SendControl || a == NotifyUp || a == NotifyDown
  }

  /** The actions of a transition that set the transmit timer. */
  predicate AnySetsTimer(actions: seq<Action>) {
    exists i :: 0 <= i < |actions| && SetsTimer(actions[i])
  }

  lemma SetsTimerSnoc(actions: seq<Action>, a: Action)
    ensures AnySetsTimer(actions + [a]) <==> AnySetsTimer(actions) || SetsTimer(a)
  {
    if SetsTimer(a) {
      assert (actions + [a])[|actions|] == a;
    }
    if AnySetsTimer(actions) {
      var i :| 0 <= i < |actions| && SetsTimer(actions[i]);
      assert (actions + [a])[i] == actions[i];
    }
  }

  lemma StaysArmed(v: Vars, w: Vars, now: nat, deadline: int)
    requires SameTx(v, w) && SessionRuns.TxArmed(v, now, deadline)
    ensures SessionRuns.TxArmed(w, now, deadline)
  {
  }

  predicate SameTx(v: Vars, w: Vars) {
    TxIntervalHot(v) == TxIntervalHot(w) && v.cfg == w.cfg
  }

  ghost predicate Logged(wires: seq<seq<u8>>, sent: seq<Transmission>) {
    && |wires| == |sent|
    && forall i :: 0 <= i < |sent| ==>
         && (sent[i].auth.Some? ==> KnownType(sent[i].auth.value.kind))
         && wires[i] == WireBytes(sent[i])
  }

  lemma LogGrows(wires: seq<seq<u8>>, sent: seq<Transmission>, t: Transmission)
    requires Logged(wires, sent) && (t.auth.Some? ==> KnownType(t.auth.value.kind))
    ensures Logged(wires + [WireBytes(t)], sent + [t])
  {
  }

  lemma ExecuteAllSnoc(v: Vars, actions: seq<Action>, a: Action, now: nat)
    ensures ExecuteAll(v, actions + [a], now) == Execute(ExecuteAll(v, actions, now), a, now)
    decreases |actions|
  {
    if actions != [] {
      assert (actions + [a])[1..] == actions[1..] + [a];
      ExecuteAllSnoc(Execute(v, actions[0], now), actions[1..], a, now);
    } else {
      assert [a][1..] == [];
    }
  }

  /** The transmit timer is set anew when the session transmits or changes state, and
      otherwise left alone. */
  ghost predicate TimerFollows(v: Vars, w: Vars, now: nat, before: int, after: int) {
    if v.sent != w.sent || v.changes != w.changes then SessionRuns.TxArmed(w, now, after) else after == before
  }

  lemma EventSetsTimer(v: Vars, e: Event, now: nat)
    requires e != LocalAdminUp && e != LocalAdminDown
    ensures var r, w := ApplyEvent(v.cachedState, e), ApplyFsm(v, e, now);
            && |w.sent| >= |v.sent|
            && (AnySetsTimer(r.actions) <==> w.sent != v.sent || w.changes != v.changes)
  {
    FsmClosedForm(v, e, now);
    ActionsByTarget(v.cachedState, e);
    var r := ApplyEvent(v.cachedState, e);
    if r.changed {
      assert r.newState != AdminDown;
      assert SetsTimer(r.actions[if r.newState == Down then 1 else 0]);
    }
  }

  /** Handling a packet and then answering its Poll sets the timer as often as needed. */
  lemma AnswerFollows(v: Vars, b: Vars, c: Vars, now: nat, t: int, t': int, t'': int)
    requires b.sent == v.sent && b.changes == v.changes && |c.sent| >= |b.sent|
    requires TimerFollows(b, c, now, t, t')
    requires if c.pendingFinal then SessionRuns.TxArmed(AnswerPoll(c), now, t'') else t'' == t'
    ensures TimerFollows(v, AnswerPoll(c), now, t, t'')
  {
  }

  const NO_PACKET := ControlPacket(0, 0, AdminDown, false, false, false, false, false, false, 0, 0, 0, 0, 0, 0, 0, None)

  class LiveSession {
    const cfg: Config
    const auth: AuthState?
    const cachedPacket: array<u8>
    const rng: JitterRng

    var state: State
    var cachedState: State
    var remoteState: State
    var localDiag: u8
    var remoteDiscr: u32
    var desiredMinTx: nat
    var requiredMinRx: nat
    var remoteMinRx: nat
    var remoteDesiredMinTx: nat
    var remoteDetectMult: u8
    var remoteDemandMode: bool
    var pollActive: bool
    var pendingFinal: bool
    var pendingDesiredMinTx: nat
    var pendingRequiredMinRx: nat
    var lastPacketRecv: nat
    var detectDeadline: int
    var txDeadline: int
    var changes: seq<Change>
    /** What the sender was handed, and the transmissions these bytes stand for. */
    var wires: seq<seq<u8>>
    ghost var sent: seq<Transmission>
    /** Every datagram that the loop was handed. */
    ghost var heard: seq<seq<u8>>

    ghost function View(): Vars
      reads this, auth
    {
      Vars(cfg, state, cachedState, remoteState, localDiag, remoteDiscr, desiredMinTx, requiredMinRx,
           remoteMinRx, remoteDesiredMinTx, remoteDetectMult, remoteDemandMode,
           pollActive, pendingFinal, pendingDesiredMinTx, pendingRequiredMinRx,
           if auth == null then None else Some(auth.View()),
           lastPacketRecv, detectDeadline, sent, changes)
    }

    ghost predicate Valid()
      reads this, auth
    {
      && cachedPacket.Length >= MAX_PACKET_SIZE && cachedPacket.Length >= cfg.paddedPduSize
      && Logged(wires, sent)
      && (auth != null ==> ValidAuth(auth.View()))
    }

    /** NewSession, on a configuration that validateSessionConfig has accepted. */
    constructor (cfg: Config, desired: nat, required: nat, auth: AuthState?, seed: bv64)
      requires ValidConfig(cfg, desired, required, if auth == null then None else Some(auth.View()))
      modifies auth
      ensures Valid() && fresh(cachedPacket) && fresh(rng) && this.auth == auth
      ensures View() == NewVars(cfg, desired, required, old(if auth == null then None else Some(auth.View()))) && heard == []
    {
      this.cfg, this.auth := cfg, auth;
      cachedPacket := new u8[if cfg.paddedPduSize > MAX_PACKET_SIZE then cfg.paddedPduSize else MAX_PACKET_SIZE](_ => 0);
      rng := new JitterRng(seed);
      state, cachedState, remoteState, localDiag, remoteDiscr := Down, Down, Down, DIAG_NONE, 0;
      desiredMinTx, requiredMinRx := desired, required;
      remoteMinRx, remoteDesiredMinTx, remoteDetectMult, remoteDemandMode := MICROSECOND, 0, 0, false;
      pollActive, pendingFinal, pendingDesiredMinTx, pendingRequiredMinRx := false, false, 0, 0;
      lastPacketRecv, detectDeadline, txDeadline := 0, 0, 0;
      changes, wires, sent, heard := [], [], [], [];
      new;
      ghost var t := RebuildCachedPacket();
    }

    // ---- The cached packet -----------------------------------------------

    method BuildControlPacket() returns (p: ControlPacket)
      modifies this`pendingFinal
      ensures p == BuildPacket(old(View())) && View() == old(View()).(pendingFinal := false)
    {
      var wireTx := desiredMinTx;
      if cachedState != Up && wireTx < SLOW_TX_INTERVAL {
        wireTx := SLOW_TX_INTERVAL;
      }
      p := ControlPacket(VERSION, localDiag, cachedState, pollActive, pendingFinal, false, false, false, false,
                         cfg.detectMult, 0, cfg.localDiscr, remoteDiscr,
                         ToMicros(wireTx), ToMicros(requiredMinRx), 0, None);
      pendingFinal := false;
    }

    /** The buffer begins with the encoding of p, whose Length byte tells where it ends. */
    ghost predicate Holds(p: ControlPacket)
      reads cachedPacket
    {
      var e := Encode(p);
      3 < |e| <= MAX_PACKET_SIZE <= cachedPacket.Length && cachedPacket[..|e|] == e && e[3] == |e|
    }

    method MarshalCachedPacket(p: ControlPacket)
      requires WellFormedAuth(p) && cachedPacket.Length >= MAX_PACKET_SIZE
      modifies cachedPacket
      ensures Holds(p)
    {
      EncodedLength(p);
      BufferHoldsEncoding(p, cachedPacket[..]);
      var _ := Marshal(p, cachedPacket);
    }

    method SignCachedPacket(p: ControlPacket, ghost a: AuthVars)
      requires auth != null && a == auth.View() && ValidAuth(a) && cachedPacket.Length >= MAX_PACKET_SIZE
      modifies auth, cachedPacket
      ensures auth.View() == NextXmit(a) && Holds(Signed(a, p))
    {
      SignedSection(a, p);
      var r := auth.Sign(p, cachedPacket);
      if r.Ok? {
        MarshalCachedPacket(r.value);
      }
    }

    method RebuildCachedPacket() returns (ghost t: Transmission)
      requires Valid()
      modifies this`pendingFinal, auth, cachedPacket
      ensures Valid() && View() == AfterBuild(old(View()))
      ensures t == Transmission(BuildPacket(old(View())), old(View()).auth, cfg.paddedPduSize)
      ensures (t.auth.Some? ==> KnownType(t.auth.value.kind)) && Holds(SignedPacket(t))
    {
      ghost var before := View();
      var p := BuildControlPacket();
      t := Transmission(p, before.auth, cfg.paddedPduSize);
      if auth != null {
        SignCachedPacket(p, before.auth.value);
      } else {
        MarshalCachedPacket(p);
      }
    }

    /** The part of the buffer that is sent: the Length byte says how much of it is packet,
        and padding is cleared behind that. */
    method PadCachedPacket(ghost t: Transmission) returns (sendLen: nat)
      requires cachedPacket.Length >= cfg.paddedPduSize == t.padded && (t.auth.Some? ==> KnownType(t.auth.value.kind))
      requires Holds(SignedPacket(t))
      modifies cachedPacket
      ensures sendLen <= cachedPacket.Length && cachedPacket[..sendLen] == WireBytes(t)
    {
      ghost var e := Encode(SignedPacket(t));
      assert cachedPacket[3] == e[3];
      sendLen := cachedPacket[3];
      if cfg.paddedPduSize > 0 && cfg.paddedPduSize > sendLen {
        var pktLen := sendLen;
        sendLen := cfg.paddedPduSize;
        ClearSlot(cachedPacket, pktLen, sendLen - pktLen);
      }
    }

    method SendControl()
      requires Valid()
      modifies this`pendingFinal, this`wires, this`sent, auth, cachedPacket
      ensures Valid() && View() == Transmit(old(View()))
    {
      ghost var t := RebuildCachedPacket();
      var sendLen := PadCachedPacket(t);
      LogGrows(wires, sent, t);
      wires := wires + [cachedPacket[..sendLen]];
      sent := sent + [t];
    }

    // ---- Timers ----------------------------------------------------------

    method CalcTxIntervalHot() returns (d: nat)
      ensures d == TxIntervalHot(View())
    {
      var desired := desiredMinTx;
      if cachedState != Up && desired < SLOW_TX_INTERVAL {
        desired := SLOW_TX_INTERVAL;
      }
      d := Max(desired, remoteMinRx);
    }

    method CalcDetectionTimeHot() returns (d: int)
      ensures d == DetectionTimeHot(View())
    {
      if remoteDetectMult == 0 {
        var i := CalcTxIntervalHot();
        return Int64Mul(i, cfg.detectMult);
      }
      var agreed := Max(requiredMinRx, remoteDesiredMinTx);
      d := Int64Mul(agreed, remoteDetectMult);
    }

    method ResetTxTimer(now: nat)
      modifies this`txDeadline, rng
      ensures View() == old(View()) && SessionRuns.TxArmed(View(), now, txDeadline)
      ensures Sane(View()) ==> SessionRuns.WithinPace(View(), now, txDeadline)
    {
      var interval := CalcTxIntervalHot();
      var d, draw := rng.ApplyJitter(interval, cfg.detectMult);
      txDeadline := now + d;
      if Sane(View()) {
        SessionRuns.ArmedWithinPace(View(), now, txDeadline);
      }
    }

    method ResetDetectTimer(now: nat)
      modifies this`detectDeadline
      ensures View() == ResetDetect(old(View()), now)
    {
      var d := CalcDetectionTimeHot();
      detectDeadline := now + d;
    }

    // ---- Actions ---------------------------------------------------------

    method ExecuteAction(a: Action, now: nat)
      requires Valid()
      modifies this, auth, cachedPacket, rng
      ensures Valid() && View() == Execute(old(View()), a, now) && SameTx(View(), old(View()))
      ensures if SetsTimer(a) then SessionRuns.TxArmed(View(), now, txDeadline) else txDeadline == old(txDeadline)
    {
      match a {
        case SendControl =>
          SendControl();
          ResetTxTimer(now);
        case NotifyUp =>
          ResetTxTimer(now);
          ResetDetectTimer(now);
        case NotifyDown =>
          remoteDiscr := 0;
          ResetTxTimer(now);
          ResetDetectTimer(now);
        case SetDiagTimeExpired => localDiag := DIAG_TIME_EXPIRED;
        case SetDiagNeighborDown => localDiag := DIAG_NEIGHBOR_DOWN;
        case SetDiagAdminDown => localDiag := DIAG_ADMIN_DOWN;
      }
    }

    /** The new state is stored and announced before any action runs. */
    method StoreChange(r: FsmResult)
      modifies this`state, this`cachedState, this`changes
      ensures View() == Stored(old(View()), r)
    {
      if r.changed {
        state := r.newState;
        cachedState := r.newState;
        changes := changes + [Change(r.oldState, r.newState, localDiag)];
      }
    }

    /** One action more, after those already done from w on. */
    method ExecuteNext(ghost w: Vars, ghost done: seq<Action>, a: Action, now: nat, ghost before: int)
      requires Valid() && View() == ExecuteAll(w, done, now)
      requires if AnySetsTimer(done) then SessionRuns.TxArmed(View(), now, txDeadline) else txDeadline == before
      modifies this, auth, cachedPacket, rng
      ensures Valid() && View() == ExecuteAll(w, done + [a], now)
      ensures if AnySetsTimer(done + [a]) then SessionRuns.TxArmed(View(), now, txDeadline) else txDeadline == before
    {
      ghost var v := View();
      ExecuteAllSnoc(w, done, a, now);
      SetsTimerSnoc(done, a);
      ExecuteAction(a, now);
      if AnySetsTimer(done) && !SetsTimer(a) {
        StaysArmed(v, View(), now, txDeadline);
      }
    }

    method ExecuteFsmActions(r: FsmResult, now: nat)
      requires Valid()
      modifies this, auth, cachedPacket, rng
      ensures Valid() && View() == ExecuteResult(old(View()), r, now)
      ensures if AnySetsTimer(r.actions) then SessionRuns.TxArmed(View(), now, txDeadline) else txDeadline == old(txDeadline)
    {
      StoreChange(r);
      ghost var w := View();
      for i := 0 to |r.actions|
        invariant Valid() && View() == ExecuteAll(w, r.actions[..i], now)
        invariant if AnySetsTimer(r.actions[..i]) then SessionRuns.TxArmed(View(), now, txDeadline)
                  else txDeadline == old(txDeadline)
      {
        assert r.actions[..i + 1] == r.actions[..i] + [r.actions[i]];
        ExecuteNext(w, r.actions[..i], r.actions[i], now, old(txDeadline));
      }
      assert r.actions[..|r.actions|] == r.actions;
    }

    method ApplyFsmEvent(e: Event, now: nat)
      requires Valid() && e != LocalAdminUp && e != LocalAdminDown
      modifies this, auth, cachedPacket, rng
      ensures Valid() && View() == ApplyFsm(old(View()), e, now) && |View().sent| >= |old(View().sent)|
      ensures TimerFollows(old(View()), View(), now, old(txDeadline), txDeadline)
    {
      var r := ApplyEvent(cachedState, e);
      EventSetsTimer(View(), e, now);
      ExecuteFsmActions(r, now);
    }

    // ---- Handlers --------------------------------------------------------

    method ApplyPendingParams()
      modifies this`desiredMinTx, this`requiredMinRx, this`pendingDesiredMinTx, this`pendingRequiredMinRx
      ensures View() == ApplyPending(old(View()))
    {
      if pendingDesiredMinTx > 0 {
        desiredMinTx := pendingDesiredMinTx;
        pendingDesiredMinTx := 0;
      }
      if pendingRequiredMinRx > 0 {
        requiredMinRx := pendingRequiredMinRx;
        pendingRequiredMinRx := 0;
      }
    }

    method TerminatePollSequence()
      requires Valid()
      modifies this, auth, cachedPacket
      ensures Valid() && View() == TerminatePoll(old(View())) && txDeadline == old(txDeadline)
    {
      pollActive := false;
      ApplyPendingParams();
      ghost var t := RebuildCachedPacket();
    }

    /** The consistency check and the verification; only the second may move the
        sequence state, and it overwrites the digest in the received bytes. */
    method AuthenticatePacket(p: ControlPacket, wire: array<u8>) returns (ok: bool)
      requires Valid()
      modifies auth, wire
      ensures Valid()
      ensures match Authenticate(old(View()).auth, p, old(wire[..]))
              case None => !ok && View() == old(View())
              case Some(a) => ok && View() == old(View()).(auth := a)
    {
      if p.authPresent != (auth != null) {
        return false;
      }
      if auth == null {
        return true;
      }
      var err := auth.Verify(p, wire);
      ok := err.None?;
    }

    method RecordTiming(minRx: nat, minTx: nat, mult: u8)
      modifies this`remoteMinRx, this`remoteDesiredMinTx, this`remoteDetectMult
      ensures View() == old(View()).(remoteMinRx := minRx, remoteDesiredMinTx := minTx, remoteDetectMult := mult)
    {
      remoteMinRx := minRx;
      remoteDesiredMinTx := minTx;
      remoteDetectMult := mult;
    }

    method LearnFrom(p: ControlPacket, now: nat)
      modifies this`lastPacketRecv, this`remoteDiscr, this`remoteDemandMode, this`remoteMinRx,
               this`remoteDesiredMinTx, this`remoteDetectMult, this`remoteState
      ensures View() == Learn(old(View()), p, now)
    {
      lastPacketRecv := now;
      remoteDiscr := p.my;
      remoteDemandMode := p.demand;
      RecordTiming(FromMicros(p.requiredMinRx), FromMicros(p.desiredMinTx), p.detectMult);
      remoteState := p.state;
    }

    method PrepareForFsm(p: ControlPacket, now: nat)
      requires Valid()
      modifies this, auth, cachedPacket
      ensures Valid() && View() == BeforeFsm(old(View()), p, now) && txDeadline == old(txDeadline)
    {
      LearnFrom(p, now);
      if p.final && pollActive {
        TerminatePollSequence();
      }
      if p.poll {
        pendingFinal := true;
      }
      ResetDetectTimer(now);
    }

    method SendPendingFinal(now: nat)
      requires Valid()
      modifies this, auth, cachedPacket, rng
      ensures Valid() && View() == AnswerPoll(old(View())) && View().changes == old(View().changes)
      ensures if old(pendingFinal) then SessionRuns.TxArmed(View(), now, txDeadline) else txDeadline == old(txDeadline)
    {
      if pendingFinal {
        SendControl();
        ResetTxTimer(now);
      }
    }

    method HandleAccepted(p: ControlPacket, now: nat)
      requires Valid()
      modifies this, auth, cachedPacket, rng
      ensures Valid() && View() == OnAccepted(old(View()), p, now)
      ensures TimerFollows(old(View()), View(), now, old(txDeadline), txDeadline)
    {
      ghost var v, t := View(), txDeadline;
      PrepareForFsm(p, now);
      ghost var b := View();
      ApplyFsmEvent(RecvStateToEvent(p.state), now);
      ghost var c, t' := View(), txDeadline;
      SendPendingFinal(now);
      PreparingIsQuiet(v, p, now);
      AnswerFollows(v, b, c, now, t, t', txDeadline);
    }

    method HandleRecvPacket(p: ControlPacket, wire: array<u8>, now: nat)
      requires Valid() && wire != cachedPacket
      modifies this, auth, cachedPacket, rng, wire
      ensures Valid() && View() == OnRecv(old(View()), p, old(wire[..]), now)
      ensures TimerFollows(old(View()), View(), now, old(txDeadline), txDeadline)
    {
      var ok := AuthenticatePacket(p, wire);
      if !ok {
        return;
      }
      HandleAccepted(p, now);
    }

    method MaybeSendControl()
      requires Valid()
      modifies this`pendingFinal, this`wires, this`sent, auth, cachedPacket
      ensures Valid() && View() == OnTxTimer(old(View()))
    {
      if cfg.role == Passive && remoteDiscr == 0 {
        return;
      }
      if remoteMinRx == 0 {
        return;
      }
      SendControl();
    }

    method HandleTxTimer(now: nat)
      requires Valid()
      modifies this, auth, cachedPacket, rng
      ensures Valid() && View() == OnTxTimer(old(View())) && SessionRuns.TxArmed(View(), now, txDeadline)
    {
      MaybeSendControl();
      ResetTxTimer(now);
    }

    method MaybeResetAuthSeqKnown(now: nat)
      requires Valid()
      modifies auth
      ensures Valid() && View() == ForgetAuthSeq(old(View()), now)
    {
      if auth == null || !auth.known {
        return;
      }
      if lastPacketRecv == 0 {
        return;
      }
      var d := CalcDetectionTimeHot();
      if now - lastPacketRecv < 2 * d {
        return;
      }
      auth.known := false;
    }

    method HandleDetectTimer(now: nat)
      requires Valid()
      modifies this, auth, cachedPacket, rng
      ensures Valid() && View() == OnDetectTimer(old(View()), now)
      ensures TimerFollows(old(View()), View(), now, old(txDeadline), txDeadline)
    {
      MaybeResetAuthSeqKnown(now);
      if cachedState != Init && cachedState != Up {
        ResetDetectTimer(now);
        return;
      }
      ApplyFsmEvent(TimerExpired, now);
    }

    method HandleAdminDown(now: nat)
      requires Valid()
      modifies this, auth, cachedPacket, rng
      ensures Valid() && View() == OnAdminDown(old(View()), now)
      ensures TimerFollows(old(View()), View(), now, old(txDeadline), txDeadline)
    {
      AdminDownClosedForm(View(), now);
      var r := ApplyEvent(cachedState, LocalAdminDown);
      if !r.changed {
        localDiag := DIAG_ADMIN_DOWN;
        return;
      }
      var actions := r.actions + [Action.SendControl];
      assert SetsTimer(actions[|r.actions|]);
      ExecuteFsmActions(r.(actions := actions), now);
    }

    method HandlePathDown(now: nat)
      requires Valid()
      modifies this, auth, cachedPacket, rng
      ensures Valid() && View() == OnPathDown(old(View()), now)
      ensures TimerFollows(old(View()), View(), now, old(txDeadline), txDeadline)
    {
      PathDownClosedForm(View(), now);
      var oldState := cachedState;
      localDiag := DIAG_PATH_DOWN;
      if oldState == Down || oldState == AdminDown {
        return;
      }
      var actions := [NotifyDown, Action.SendControl];
      assert SetsTimer(actions[0]);
      ExecuteFsmActions(FsmResult(oldState, Down, actions, true), now);
    }

    // ---- The loop --------------------------------------------------------

    /** A datagram: decoded, and handled only if it decodes. */
    method HandleWire(bytes: seq<u8>, now: nat)
      requires Valid()
      modifies this, auth, cachedPacket, rng
      ensures Valid() && View() == SessionRuns.Handle(old(View()), SessionRuns.Packet(bytes), now)
      ensures TimerFollows(old(View()), View(), now, old(txDeadline), txDeadline)
    {
      var wire := new u8[|bytes|](i requires 0 <= i < |bytes| => bytes[i]);
      assert wire[..] == bytes;
      var slot := new PacketSlot(NO_PACKET);
      var err := slot.Unmarshal(wire);
      if err.None? {
        HandleRecvPacket(slot.pkt, wire, now);
      }
    }

    /** The loop is handed a datagram. */
    method ReceiveWire(bytes: seq<u8>, now: nat)
      requires Valid()
      modifies this, auth, cachedPacket, rng
      ensures Valid() && View() == SessionRuns.Handle(old(View()), SessionRuns.Packet(bytes), now)
      ensures TimerFollows(old(View()), View(), now, old(txDeadline), txDeadline) && heard == old(heard) + [bytes]
    {
      HandleWire(bytes, now);
      ghost var v := View();
      heard := old(heard) + [bytes];
      assert View() == v;
    }

    method Step(a: Arrival)
      requires Valid()
      modifies this, auth, cachedPacket, rng
      ensures Valid()
      ensures SessionRuns.Pass(SessionRuns.Timed(old(View()), a.now, old(txDeadline)),
                               SessionRuns.Timed(View(), a.now, txDeadline), a.input)
    {
      match a.input {
        case Packet(bytes) => ReceiveWire(bytes, a.now);
        case TxTimer => HandleTxTimer(a.now);
        case DetectTimer => HandleDetectTimer(a.now);
        case PathDown => HandlePathDown(a.now);
        case TakeDown => HandleAdminDown(a.now);
      }
    }

    /** The loop on whatever the select statement picks, however late. */
    method Serve(arrivals: seq<Arrival>)
      requires Valid()
      modifies this, auth, cachedPacket, rng
      ensures Valid() && View() == HandleAll(old(View()), arrivals)
    {
      for i := 0 to |arrivals|
        invariant Valid() && View() == HandleAll(old(View()), arrivals[..i])
      {
        assert arrivals[..i + 1][..i] == arrivals[..i];
        Step(arrivals[i]);
      }
      assert arrivals[..|arrivals|] == arrivals;
    }

    ghost function Moment(now: nat): SessionRuns.Timed
      reads this, auth
    {
      SessionRuns.Timed(View(), now, txDeadline)
    }

    /** What the select statement picks: an arrival, or the timer that is due before it. */
    method Select(w: Wake, before: nat) returns (now: nat, input: SessionRuns.Input)
      requires before <= txDeadline && before <= detectDeadline
      ensures input == Chosen(Moment(before), w) && Moment(now) == Waiting(Moment(before), w)
    {
      if w.arrival.Some? && !IsTimer(w.arrival.value) && before + w.wait <= txDeadline && before + w.wait <= detectDeadline {
        return before + w.wait, w.arrival.value;
      }
      if txDeadline < detectDeadline || (txDeadline == detectDeadline && w.txFirst) {
        return txDeadline, SessionRuns.TxTimer;
      }
      return detectDeadline, SessionRuns.DetectTimer;
    }

    /** One pass of the loop. */
    method Await(w: Wake, before: nat) returns (now: nat)
      requires Valid() && before <= txDeadline && before <= detectDeadline
      modifies this, auth, cachedPacket, rng
      ensures Valid() && Woken(old(Moment(before)), Moment(now), w)
    {
      var input;
      now, input := Select(w, before);
      Step(Arrival(input, now));
    }

    /** runLoop: from the start of a session on, what the object goes through is a run of
        the machine, so that every theorem about runs is one about the object. */
    method RunLoop(wakes: seq<Wake>, begun: nat, ghost start: State) returns (now: nat, ghost run: seq<SessionRuns.Timed>)
      requires Valid() && SessionRuns.Initial(start, Moment(begun))
      modifies this, auth, cachedPacket, rng
      ensures Valid() && Reaches(start, run, wakes, Moment(now)) && run[0] == old(Moment(begun))
    {
      ghost var first := Moment(begun);
      SessionRuns.InitialKeeps(start, first);
      now, run := begun, [first];
      for i := 0 to |wakes|
        invariant Valid() && Reaches(start, run, wakes[..i], Moment(now)) && run[0] == first
      {
        ghost var s := Moment(now);
        assert s.now <= s.txDeadline && s.now <= s.v.detectDeadline;
        now := Await(wakes[i], now);
        ReachesNext(start, run, wakes[..i], s, wakes[i], Moment(now));
        run := run + [Waiting(s, wakes[i]), Moment(now)];
        assert wakes[..i + 1] == wakes[..i] + [wakes[i]];
      }
      assert wakes[..|wakes|] == wakes;
    }

    /** SetAdminDown: handed to the loop if it is running and its channel has room, and
        otherwise stored directly. */
    method SetAdminDown(running: bool, room: bool) returns (queued: bool)
      modifies this`localDiag, this`state
      ensures queued == (running && room)
      ensures View() == if queued then old(View()) else StoreAdminDown(old(View()))
      ensures !queued ==> View() == old(View()).(state := AdminDown, localDiag := 7)
    {
      if running && room {
        return true;
      }
      localDiag := DIAG_ADMIN_DOWN;
      state := AdminDown;
      return false;
    }

    /** Run, up to the loop. */
    method Begin(now: nat)
      requires Valid()
      modifies this`cachedState, this`txDeadline, this`detectDeadline, rng
      ensures Valid() && View() == Start(old(View()), now) && SessionRuns.TxArmed(View(), now, txDeadline)
    {
      cachedState := state;
      ResetTxTimer(now);
      ResetDetectTimer(now);
    }

    /** Run. */
    method Run(wakes: seq<Wake>, begun: nat, ghost start: State) returns (now: nat, ghost run: seq<SessionRuns.Timed>)
      requires Valid() && begun > 0 && Fresh(start, Start(View(), begun), begun)
      modifies this, auth, cachedPacket, rng
      ensures Valid() && Reaches(start, run, wakes, Moment(now))
      ensures run[0].now == begun && run[0].v == Start(old(View()), begun)
    {
      Begin(begun);
      now, run := RunLoop(wakes, begun, start);
    }
  }

  // ---- Creation --------------------------------------------------------

  datatype ConfigError =
    | InvalidDetectMult | InvalidTxInterval | InvalidRxInterval | InvalidWireInterval | InvalidSessionType
    | InvalidSessionRole | InvalidDiscriminator | InvalidPaddedPduSize | MissingAuthKeyStore | AuthKeyTypeMismatch
    | NoRandomSequence

  /** An authenticator and its keys, if any were given. */
  datatype AuthConfig = AuthConfig(kind: u8, store: Option<KeyStore>)

  datatype SessionConfig = SessionConfig(
    detectMult: u8, sessionType: u8, role: u8, paddedPduSize: u16, desired: int, required: int, auth: Option<AuthConfig>)

  /** Single-hop, multi-hop, micro-BFD, VXLAN and Geneve; echo sessions (3) are made elsewhere. */
  predicate IsValidSessionType(t: u8) {
    t == 1 || t == 2 || t == 4 || t == 5 || t == 6
  }

  const ROLE_ACTIVE: u8 := 1
  const ROLE_PASSIVE: u8 := 2

  /** Authenticators are of known types, and key stores hold checked keys only. */
  predicate WellKeyed(auth: Option<AuthConfig>) {
    auth.Some? ==> KnownType(auth.value.kind) && (auth.value.store.Some? ==> CheckKey(auth.value.store.value.current).None?)
  }

  /** validateSessionConfig: the first objection, in the order of the checks. */
  function CheckConfig(c: SessionConfig, discr: u32): Option<ConfigError> {
    if c.detectMult < 1 then Some(InvalidDetectMult)
    else if c.desired <= 0 then Some(InvalidTxInterval)
    else if c.required <= 0 then Some(InvalidRxInterval)
    else if c.desired > MAX_WIRE_INTERVAL || c.required > MAX_WIRE_INTERVAL then Some(InvalidWireInterval)
    else if !IsValidSessionType(c.sessionType) then Some(InvalidSessionType)
    else if c.role != ROLE_ACTIVE && c.role != ROLE_PASSIVE then Some(InvalidSessionRole)
    else if discr == 0 then Some(InvalidDiscriminator)
    else if c.paddedPduSize != 0 && (c.paddedPduSize < HEADER_SIZE || c.paddedPduSize > 9000) then Some(InvalidPaddedPduSize)
    else if c.auth.Some? && c.auth.value.store.None? then Some(MissingAuthKeyStore)
    else if c.auth.Some? && c.auth.value.store.value.current.keyType != c.auth.value.kind then Some(AuthKeyTypeMismatch)
    else None
  }

  /** The part of a configuration that a session keeps. */
  function Kept(c: SessionConfig, discr: u32): Config {
    Config(discr, c.detectMult, if c.role == ROLE_ACTIVE then Active else Passive, c.paddedPduSize)
  }

  /** The authentication variables before the first packet. */
  function InitialAuth(auth: Option<AuthConfig>, random: u32): Option<AuthVars> {
    if auth.Some? && auth.value.store.Some? then Some(AuthVars(auth.value.kind, auth.value.store.value, 0, random, false)) else None
  }

  /** The checks let through exactly the configurations that every theorem about sessions
      starts from. */
  lemma CheckedIff(c: SessionConfig, discr: u32, random: u32)
    requires WellKeyed(c.auth)
    ensures CheckConfig(c, discr).None?
            <==> && IsValidSessionType(c.sessionType) && (c.role == ROLE_ACTIVE || c.role == ROLE_PASSIVE)
                 && (c.auth.Some? ==> c.auth.value.store.Some?)
                 && ValidConfig(Kept(c, discr), c.desired, c.required, InitialAuth(c.auth, random))
  {
  }

  /** The objection to a configuration, or to a silent random source. */
  function Objection(c: SessionConfig, discr: u32, random: Option<u32>): Option<ConfigError> {
    var e := CheckConfig(c, discr);
    if e.None? && c.auth.Some? && random.None? then Some(NoRandomSequence) else e
  }

  /** The session of the specification for a configuration without objection. */
  function Created(c: SessionConfig, discr: u32, random: Option<u32>): Vars
    requires c.desired >= 0 && c.required >= 0
  {
    NewVars(Kept(c, discr), c.desired, c.required, InitialAuth(c.auth, if random.Some? then random.value else 0))
  }

  /** Each objection is true: it is made only if what it says is wrong is wrong. */
  lemma ObjectionsAreTrue(c: SessionConfig, discr: u32, random: Option<u32>)
    ensures match Objection(c, discr, random)
            case Some(InvalidDetectMult) => c.detectMult == 0
            case Some(InvalidTxInterval) => c.desired <= 0
            case Some(InvalidRxInterval) => c.required <= 0
            case Some(InvalidWireInterval) => c.desired > 4_294_967_295_000 || c.required > 4_294_967_295_000
            case Some(InvalidSessionType) => c.sessionType == 0 || c.sessionType == 3 || c.sessionType > 6
            case Some(InvalidSessionRole) => c.role == 0 || c.role > 2
            case Some(InvalidDiscriminator) => discr == 0
            case Some(InvalidPaddedPduSize) => 0 < c.paddedPduSize < 24 || c.paddedPduSize > 9000
            case Some(MissingAuthKeyStore) => c.auth.Some? && c.auth.value.store.None?
            case Some(AuthKeyTypeMismatch) => c.auth.Some? && c.auth.value.store.Some? && c.auth.value.store.value.current.keyType != c.auth.value.kind
            case Some(NoRandomSequence) => c.auth.Some? && random.None?
            case None =>
              && c.detectMult > 0 && 0 < c.desired <= 4_294_967_295_000 && 0 < c.required <= 4_294_967_295_000
              && 1 <= c.sessionType <= 6 && c.sessionType != 3 && 1 <= c.role <= 2 && discr != 0
              && (c.paddedPduSize == 0 || 24 <= c.paddedPduSize <= 9000)
              && (c.auth.Some? ==> && random.Some? && c.auth.value.store.Some?
                                   && c.auth.value.store.value.current.keyType == c.auth.value.kind)
  {
  }

  /** A new session is Down without a diagnostic, has heard and sent nothing, takes the peer to
      want a packet each microsecond, and has the discriminator, multiplier, padded size,
      intervals and keys that were given. Its first transmit timer makes it send exactly if the
      given role is 1, the active one. */
  predicate AsConfigured(c: SessionConfig, discr: u32, random: Option<u32>, v: Vars) {
    && v.state == Down && v.cachedState == Down && v.remoteState == Down && v.localDiag == 0
    && v.remoteDiscr == 0 && v.remoteDetectMult == 0 && v.remoteDesiredMinTx == 0 && v.remoteMinRx == 1000
    && v.lastPacketRecv == 0 && v.sent == [] && v.changes == [] && !v.pollActive && !v.pendingFinal
    && v.cfg.localDiscr == discr && v.cfg.detectMult == c.detectMult && v.cfg.paddedPduSize == c.paddedPduSize
    && v.desiredMinTx == c.desired && v.requiredMinRx == c.required
    && |OnTxTimer(v).sent| == (if c.role == 1 then 1 else 0)
    && v.auth.Some? == c.auth.Some?
    && (v.auth.Some? ==>
          && v.auth.value.kind == c.auth.value.kind && c.auth.value.store == Some(v.auth.value.store)
          && random.Some? && !v.auth.value.known
          && v.auth.value.xmitSeq == if c.auth.value.kind == 1 then random.value else (random.value + 1) % 0x1_0000_0000)
  }

  lemma CreatedAsConfigured(c: SessionConfig, discr: u32, random: Option<u32>)
    requires Objection(c, discr, random).None?
    ensures AsConfigured(c, discr, random, Created(c, discr, random))
  {
  }

  /** NewSession: an error exactly if a check objects or no random number is to be had for
      the authenticator, and otherwise the session of the specification. */
  method NewSession(c: SessionConfig, discr: u32, random: Option<u32>, seed: bv64) returns (r: Result<LiveSession, ConfigError>)
    requires WellKeyed(c.auth)
    ensures match Objection(c, discr, random)
            case Some(e) => r == Err(e)
            case None => && r.Ok? && r.value.Valid() && r.value.View() == Created(c, discr, random) && r.value.heard == []
                         && AsConfigured(c, discr, random, r.value.View())
                         && fresh(r.value) && fresh(r.value.cachedPacket) && fresh(r.value.rng)
                         && (r.value.auth != null ==> fresh(r.value.auth))
  {
    var err := CheckConfig(c, discr);
    if err.Some? {
      return Err(err.value);
    }
    if c.auth.Some? && random.None? {
      return Err(NoRandomSequence);
    }
    CreatedAsConfigured(c, discr, random);
    var first := if random.Some? then random.value else 0;
    CheckedIff(c, discr, first);
    var state: AuthState? := null;
    if c.auth.Some? {
      state := new AuthState(c.auth.value.kind, c.auth.value.store.value, first);
    }
    var s := new LiveSession(Kept(c, discr), c.desired, c.required, state, seed);
    return Ok(s);
  }

  lemma CreatedStarts(c: SessionConfig, discr: u32, random: Option<u32>, now: nat)
    requires WellKeyed(c.auth) && Objection(c, discr, random).None?
    ensures Fresh(Down, Start(Created(c, discr, random), now), now)
  {
    var first := if random.Some? then random.value else 0;
    CheckedIff(c, discr, first);
    assert StartedAs(Down, Kept(c, discr), c.desired, c.required, InitialAuth(c.auth, first), now,
                     Start(Created(c, discr, random), now));
  }

  /** A session from its configuration on: an objection, or a run of the machine from Down
      that the object has gone through. */
  method CreateAndRun(c: SessionConfig, discr: u32, random: Option<u32>, seed: bv64, begun: nat, wakes: seq<Wake>)
    returns (r: Result<LiveSession, ConfigError>, now: nat, ghost run: seq<SessionRuns.Timed>)
    requires WellKeyed(c.auth) && begun > 0
    ensures r.Err? ==> Objection(c, discr, random) == Some(r.error)
    ensures r.Ok? ==> && Objection(c, discr, random).None? && r.value.Valid()
                      && Reaches(Down, run, wakes, r.value.Moment(now)) && run[0].now == begun
                      && run[0].v == Start(Created(c, discr, random), begun)
  {
    now, run := begun, [];
    r := NewSession(c, discr, random, seed);
    if r.Ok? {
      var s := r.value;
      CreatedStarts(c, discr, random, begun);
      now, run := s.Run(wakes, begun, Down);
    }
  }
}
