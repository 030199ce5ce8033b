/** What every handler of a session keeps. */
module SessionSteps {
  import opened Bytes
  import opened Fsm
  import opened Codec
  import opened Auth
  import opened Timing
  import opened Session

  // ---- Closed forms ------------------------------------------------------

  function Moved(v: Vars, s: State): Vars {
    v.(state := s, cachedState := s, changes := v.changes + [Change(v.cachedState, s, v.localDiag)])
  }

  lemma ExecuteTwo(v: Vars, a: Action, b: Action, now: nat)
    ensures ExecuteAll(v, [a, b], now) == Execute(Execute(v, a, now), b, now)
    ensures ExecuteAll(v, [a], now) == Execute(v, a, now)
  {
    assert [a, b][1..] == [b] && [a][1..] == [] && [b][1..] == [];
    assert ExecuteAll(Execute(v, a, now), [b], now) == ExecuteAll(Execute(Execute(v, a, now), b, now), [], now);
  }

  /** What a transition to another state amounts to. */
  function Transitioned(v: Vars, e: Event, t: State, now: nat): Vars {
    match t
    case Init => Transmit(Moved(v, Init))
    case Up => ResetDetect(Transmit(Moved(v, Up)), now)
    case AdminDown => Moved(v, AdminDown).(localDiag := DIAG_ADMIN_DOWN)
    case Down =>
      var d := if e == TimerExpired then DIAG_TIME_EXPIRED else DIAG_NEIGHBOR_DOWN;
      ResetDetect(Moved(v, Down).(localDiag := d, remoteDiscr := 0), now)
  }

  lemma FsmClosedForm(v: Vars, e: Event, now: nat)
    requires e != LocalAdminUp
    ensures var t := ApplyEvent(v.cachedState, e).newState;
            ApplyFsm(v, e, now) == if t == v.cachedState then v else Transitioned(v, e, t, now)
  {
    ActionsByTarget(v.cachedState, e);
    var r := ApplyEvent(v.cachedState, e);
    if r.changed {
      ChangeClosedForm(v, e, r, now);
    }
  }

  lemma ChangeClosedForm(v: Vars, e: Event, r: FsmResult, now: nat)
    requires r.changed && r.oldState == v.cachedState && r.actions == TransitionActions(e, r.newState)
    ensures ExecuteResult(v, r, now) == Transitioned(v, e, r.newState, now)
  {
    var w := Moved(v, r.newState);
    assert Stored(v, r) == w;
    match r.newState {
      case Init => ExecuteTwo(w, SendControl, SendControl, now);
      case Up => ExecuteTwo(w, SendControl, NotifyUp, now);
      case AdminDown => ExecuteTwo(w, SetDiagAdminDown, SendControl, now);
      case Down => DownClosedForm(w, r.actions[0], e, now);
    }
  }

  lemma DownClosedForm(w: Vars, a: Action, e: Event, now: nat)
    requires a == if e == TimerExpired then SetDiagTimeExpired else SetDiagNeighborDown
    ensures var d := if e == TimerExpired then DIAG_TIME_EXPIRED else DIAG_NEIGHBOR_DOWN;
            ExecuteAll(w, [a, NotifyDown], now) == ResetDetect(w.(localDiag := d, remoteDiscr := 0), now)
  {
    ExecuteTwo(w, a, NotifyDown, now);
  }

  lemma AdminDownClosedForm(v: Vars, now: nat)
    ensures OnAdminDown(v, now) ==
            if v.cachedState == AdminDown then v.(localDiag := DIAG_ADMIN_DOWN)
            else Transmit(Moved(v, AdminDown).(localDiag := DIAG_ADMIN_DOWN))
  {
    if v.cachedState != AdminDown {
      var r := ApplyEvent(v.cachedState, LocalAdminDown);
      assert r.actions + [SendControl] == [SetDiagAdminDown, SendControl];
      ExecuteTwo(Moved(v, AdminDown), SetDiagAdminDown, SendControl, now);
    }
  }

  lemma PathDownClosedForm(v: Vars, now: nat)
    ensures OnPathDown(v, now) ==
            var w := v.(localDiag := DIAG_PATH_DOWN);
            if v.cachedState == Down || v.cachedState == AdminDown then w
            else Transmit(ResetDetect(Moved(w, Down).(remoteDiscr := 0), now))
  {
  }

  /** An accepted packet up to the answer to a Poll: the state comes from the pseudocode. */
  function Moving(v: Vars, b: Vars, p: ControlPacket, now: nat): Vars {
    var t := RfcReceive(v.cachedState, v.localDiag, p.state).0;
    if t == v.cachedState then b else Transitioned(b, RecvStateToEvent(p.state), t, now)
  }

  /** An accepted packet, in closed form. */
  function Accepted(v: Vars, p: ControlPacket, now: nat): Vars {
    AnswerPoll(Moving(v, BeforeFsm(v, p, now), p, now))
  }

  lemma AcceptedClosedForm(v: Vars, p: ControlPacket, now: nat)
    ensures OnAccepted(v, p, now) == Accepted(v, p, now)
  {
    var b := BeforeFsm(v, p, now);
    FsmClosedForm(b, RecvStateToEvent(p.state), now);
    StateByRfc(b.cachedState, v.localDiag, p.state);
    assert b.cachedState == v.cachedState;
  }

  /** An expired detection timer, in closed form. */
  function Expired(v: Vars, now: nat): Vars {
    var w := ForgetAuthSeq(v, now);
    if w.cachedState == Init || w.cachedState == Up then Transitioned(w, TimerExpired, Down, now)
    else ResetDetect(w, now)
  }

  lemma ExpiredClosedForm(v: Vars, now: nat)
    ensures OnDetectTimer(v, now) == Expired(v, now)
  {
    var w := ForgetAuthSeq(v, now);
    FsmClosedForm(w, TimerExpired, now);
    LocalEvents(w.cachedState);
  }

  // ---- Invariants --------------------------------------------------------

  /** Ranges that the configuration check and the wire format guarantee, and the fact
      that nothing ever starts a Poll Sequence. */
  predicate Sane(v: Vars) {
    && v.cfg.localDiscr != 0 && v.cfg.detectMult > 0 && v.localDiag < 32
    && 0 < v.desiredMinTx <= MAX_WIRE_INTERVAL && 0 < v.requiredMinRx <= MAX_WIRE_INTERVAL
    && v.remoteMinRx <= MAX_WIRE_INTERVAL && v.remoteDesiredMinTx <= MAX_WIRE_INTERVAL
    && !v.pollActive
    && (v.auth.Some? ==> ValidAuth(v.auth.value))
  }

  /** The loop's copy of the state is the state, and the state is explained by what was
      last heard from the peer. */
  predicate Explained(v: Vars) {
    && v.cachedState == v.state
    && (v.state == Init ==> v.remoteState == Down)
    && (v.state == Up ==> v.remoteState == Init || v.remoteState == Up)
    && (v.state == Init || v.state == Up ==> v.remoteDiscr != 0)
    && !v.pendingFinal
  }

  /** While the session is Init or Up its detection timer is due exactly one Detection
      Time after the last accepted packet. */
  predicate DetectArmed(v: Vars) {
    v.state == Init || v.state == Up ==>
      v.lastPacketRecv > 0 && v.remoteDetectMult > 0 && v.detectDeadline == v.lastPacketRecv + DetectionTimeHot(v)
  }

  /** The emitted changes lead from the first state to the present one, each beginning
      where the one before it ended. */
  predicate Connected(start: State, changes: seq<Change>, s: State)
    decreases |changes|
  {
    if changes == [] then start == s
    else
      var last := changes[|changes| - 1];
      last.newState == s && last.oldState != s && Connected(start, changes[..|changes| - 1], last.oldState)
  }

  /** A transmission whose bytes any decoder accepts. */
  predicate Sendable(t: Transmission) {
    WellFormed(t.pkt) && t.pkt.auth.None? && (t.auth.Some? ==> ValidAuth(t.auth.value))
  }

  predicate AllSendable(v: Vars) {
    forall i :: 0 <= i < |v.sent| ==> Sendable(v.sent[i])
  }

  predicate Inv(start: State, v: Vars) {
    Sane(v) && Explained(v) && DetectArmed(v) && Connected(start, v.changes, v.state) && AllSendable(v)
  }

  // ---- What the building blocks keep -------------------------------------

  /** A session may transmit whenever its packet would name the peer if it must. */
  lemma TransmitKeeps(v: Vars)
    requires Sane(v) && AllSendable(v)
    requires v.remoteDiscr != 0 || v.cachedState == Down || v.cachedState == AdminDown
    ensures Sane(Transmit(v)) && AllSendable(Transmit(v)) && !Transmit(v).pendingFinal
  {
  }

  lemma MovedConnected(start: State, v: Vars, s: State)
    requires Connected(start, v.changes, v.cachedState) && s != v.cachedState
    ensures Connected(start, Moved(v, s).changes, s)
  {
  }

  lemma DetectionPositive(v: Vars)
    requires Sane(v)
    ensures 0 < DetectionTimeHot(v) < TWO63 / 4
  {
    if v.remoteDetectMult == 0 {
      IntervalProduct(TxIntervalHot(v), v.cfg.detectMult);
    } else {
      IntervalProduct(Max(v.requiredMinRx, v.remoteDesiredMinTx), v.remoteDetectMult);
    }
  }

  /** The variables that the Detection Time is computed from once a packet was heard. */
  predicate SameDetection(v: Vars, w: Vars) {
    && v.requiredMinRx == w.requiredMinRx && v.remoteDesiredMinTx == w.remoteDesiredMinTx
    && v.remoteDetectMult == w.remoteDetectMult && v.cfg == w.cfg
  }

  lemma SameDetectionTime(v: Vars, w: Vars)
    requires SameDetection(v, w) && v.remoteDetectMult > 0
    ensures DetectionTimeHot(v) == DetectionTimeHot(w)
  {
  }

  // ---- What each handler keeps -------------------------------------------

  lemma BeforeFsmKeeps(start: State, v: Vars, p: ControlPacket, now: nat)
    requires Inv(start, v) && p.my != 0 && p.detectMult != 0 && now > 0
    ensures var b := BeforeFsm(v, p, now);
            && Sane(b) && AllSendable(b) && b.cachedState == b.state == v.state && b.changes == v.changes
            && b.remoteDiscr == p.my && b.remoteState == p.state && b.pendingFinal == p.poll
            && b.lastPacketRecv == now && b.remoteDetectMult == p.detectMult
            && b.detectDeadline == now + DetectionTimeHot(b) && b.auth == v.auth && b.sent == v.sent
            && b.localDiag == v.localDiag
  {
  }

  lemma AcceptedKeeps(start: State, v: Vars, p: ControlPacket, now: nat)
    requires Inv(start, v) && p.my != 0 && p.detectMult != 0 && now > 0
    ensures Inv(start, Accepted(v, p, now))
  {
    BeforeFsmKeeps(start, v, p, now);
    var b := BeforeFsm(v, p, now);
    var t := RfcReceive(v.cachedState, v.localDiag, p.state).0;
    if t == b.cachedState {
      AnswerKeeps(start, b);
    } else {
      MovedConnected(start, b, t);
      TransitionedKeeps(start, b, RecvStateToEvent(p.state), t, now);
      AnswerKeeps(start, Transitioned(b, RecvStateToEvent(p.state), t, now));
    }
  }

  /** Everything but a pending Final. */
  predicate InvButFinal(start: State, v: Vars) {
    Inv(start, v.(pendingFinal := false))
  }

  lemma AnswerKeeps(start: State, v: Vars)
    requires InvButFinal(start, v)
    ensures Inv(start, AnswerPoll(v))
  {
  }

  lemma TransitionedKeeps(start: State, b: Vars, e: Event, t: State, now: nat)
    requires Sane(b) && AllSendable(b) && b.cachedState == b.state && t != b.state && t != AdminDown
    requires Connected(start, Moved(b, t).changes, t)
    requires t == Init ==> b.remoteState == Down
    requires t == Up ==> b.remoteState == Init || b.remoteState == Up
    requires t == Init || t == Up ==> b.remoteDiscr != 0 && b.lastPacketRecv == now > 0 && b.remoteDetectMult > 0
    requires t == Init || t == Up ==> b.detectDeadline == now + DetectionTimeHot(b)
    ensures InvButFinal(start, Transitioned(b, e, t, now))
  {
    var m := Moved(b, t);
    if t == Down {
    } else {
      TransmitKeeps(m);
      SameDetectionTime(b, Transmit(m));
    }
  }

  lemma AuthenticatedAuth(auth: Option<AuthVars>, p: ControlPacket, wire: seq<u8>)
    requires auth.Some? ==> ValidAuth(auth.value)
    ensures match Authenticate(auth, p, wire)
            case None => true
            case Some(next) =>
              && next.Some? == auth.Some? == p.authPresent
              && (next.Some? ==> ValidAuth(next.value) && next.value.kind == auth.value.kind
                                 && next.value.xmitSeq == auth.value.xmitSeq && next.value.store == auth.value.store)
  {
  }

  lemma RecvKeeps(start: State, v: Vars, p: ControlPacket, wire: seq<u8>, now: nat)
    requires Inv(start, v) && p.my != 0 && p.detectMult != 0 && now > 0
    ensures Inv(start, OnRecv(v, p, wire, now))
  {
    AuthenticatedAuth(v.auth, p, wire);
    match Authenticate(v.auth, p, wire) {
      case None =>
      case Some(auth) =>
        var w := v.(auth := auth);
        assert DetectionTimeHot(w) == DetectionTimeHot(v);
        AcceptedKeeps(start, w, p, now);
        AcceptedClosedForm(w, p, now);
    }
  }

  lemma TxTimerKeeps(start: State, v: Vars)
    requires Inv(start, v)
    ensures Inv(start, OnTxTimer(v))
  {
    TransmitKeeps(v);
    assert DetectionTimeHot(Transmit(v)) == DetectionTimeHot(v);
  }

  lemma ForgetKeeps(start: State, v: Vars, now: nat)
    requires Inv(start, v)
    ensures Inv(start, ForgetAuthSeq(v, now)) && SameDetection(v, ForgetAuthSeq(v, now))
    ensures DetectionTimeHot(ForgetAuthSeq(v, now)) == DetectionTimeHot(v)
  {
  }

  lemma DetectTimerKeeps(start: State, v: Vars, now: nat)
    requires Inv(start, v)
    ensures Inv(start, OnDetectTimer(v, now))
  {
    ExpiredClosedForm(v, now);
    ForgetKeeps(start, v, now);
    var w := ForgetAuthSeq(v, now);
    if w.cachedState == Init || w.cachedState == Up {
      MovedConnected(start, w, Down);
      TransitionedKeeps(start, w, TimerExpired, Down, now);
    }
  }

  lemma AdminDownKeeps(start: State, v: Vars, now: nat)
    requires Inv(start, v)
    ensures Inv(start, OnAdminDown(v, now))
  {
    AdminDownClosedForm(v, now);
    if v.cachedState != AdminDown {
      MovedConnected(start, v, AdminDown);
      TransmitKeeps(Moved(v, AdminDown).(localDiag := DIAG_ADMIN_DOWN));
    } else {
      assert DetectionTimeHot(v.(localDiag := DIAG_ADMIN_DOWN)) == DetectionTimeHot(v);
    }
  }

  lemma PathDownKeeps(start: State, v: Vars, now: nat)
    requires Inv(start, v)
    ensures Inv(start, OnPathDown(v, now))
  {
    PathDownClosedForm(v, now);
    if v.cachedState == Init || v.cachedState == Up {
      var w := v.(localDiag := DIAG_PATH_DOWN);
      MovedConnected(start, w, Down);
      TransmitKeeps(ResetDetect(Moved(w, Down).(remoteDiscr := 0), now));
    }
  }

  /** v is a session just created from this configuration, possibly put into AdminDown,
      and then started. */
  predicate StartedAs(start: State, cfg: Config, desired: nat, required: nat, auth: Option<AuthVars>, now: nat, v: Vars) {
    && ValidConfig(cfg, desired, required, auth) && (start == Down || start == AdminDown)
    && var n := NewVars(cfg, desired, required, auth);
       v == Start(if start == AdminDown then StoreAdminDown(n) else n, now)
  }

  ghost predicate Fresh(start: State, v: Vars, now: nat) {
    exists cfg, desired, required, auth :: StartedAs(start, cfg, desired, required, auth, now, v)
  }

  lemma FreshKeeps(start: State, v: Vars, now: nat)
    requires Fresh(start, v, now)
    ensures Inv(start, v) && now < v.detectDeadline && v.sent == [] && v.lastPacketRecv == 0
    ensures v.remoteDiscr == 0 && v.remoteState == Down && (v.auth.Some? ==> !v.auth.value.known)
  {
    var cfg, desired, required, auth :| StartedAs(start, cfg, desired, required, auth, now, v);
    NewIsSane(cfg, desired, required, auth);
    var n := NewVars(cfg, desired, required, auth);
    var m := (if start == AdminDown then StoreAdminDown(n) else n).(cachedState := start);
    assert v == ResetDetect(m, now);
    DetectionPositive(m);
  }

  lemma NewIsSane(cfg: Config, desired: nat, required: nat, auth: Option<AuthVars>)
    requires ValidConfig(cfg, desired, required, auth)
    ensures Sane(NewVars(cfg, desired, required, auth))
  {
  }

  // ---- Transmit attempts -------------------------------------------------

  /** Whether an accepted packet makes the session transmit. */
  predicate Transmits(s: State, t: State, poll: bool) {
    poll || (t != s && (t == Init || t == Up))
  }

  /** The outcome of an accepted packet, variable by variable. */
  predicate Outcome(v: Vars, p: ControlPacket, now: nat, w: Vars) {
    var t := RfcReceive(v.state, v.localDiag, p.state).0;
    && w.cfg == v.cfg && w.state == w.cachedState == t
    && w.localDiag == RfcReceive(v.state, v.localDiag, p.state).1
    && w.remoteState == p.state && w.remoteDetectMult == p.detectMult && w.remoteDemandMode == p.demand
    && w.remoteDiscr == (if t == Down && v.state != Down then 0 else p.my)
    && w.lastPacketRecv == now && !w.pendingFinal && !w.pollActive
    && w.desiredMinTx == v.desiredMinTx && w.requiredMinRx == v.requiredMinRx
    && w.remoteMinRx == FromMicros(p.requiredMinRx) && w.remoteDesiredMinTx == FromMicros(p.desiredMinTx)
    && w.changes == (if t == v.state then v.changes else v.changes + [Change(v.state, t, v.localDiag)])
    && if Transmits(v.state, t, p.poll)
       then
         && w.auth == Bumped(v.auth) && |w.sent| == |v.sent| + 1 && w.sent[..|v.sent|] == v.sent
         && var x := w.sent[|v.sent|];
            && x.pkt.final == p.poll && x.pkt.state == t && x.auth == v.auth
            && x.pkt.my == v.cfg.localDiscr && x.pkt.your == w.remoteDiscr
            && x == Transmission(BuildPacket(w).(final := p.poll), v.auth, v.cfg.paddedPduSize)
       else w.auth == v.auth && w.sent == v.sent
  }

  /** What is known of the session when only the answer to a Poll is still to be given. */
  predicate OutcomeButAnswer(v: Vars, p: ControlPacket, now: nat, m: Vars) {
    if m.pendingFinal
    then
      && p.poll && m.auth == v.auth && m.sent == v.sent
      && !Transmits(v.state, RfcReceive(v.state, v.localDiag, p.state).0, false)
      && Outcome(v, p.(poll := false), now, m.(pendingFinal := false))
    else Outcome(v, p, now, m)
  }

  lemma OutcomeOfAnswer(v: Vars, p: ControlPacket, now: nat, m: Vars)
    requires OutcomeButAnswer(v, p, now, m)
    ensures Outcome(v, p, now, AnswerPoll(m))
  {
  }

  /** What an accepted packet sets before the state machine sees it. */
  predicate Prepared(v: Vars, p: ControlPacket, now: nat, b: Vars) {
    b == v.(lastPacketRecv := now, remoteDiscr := p.my, remoteDemandMode := p.demand,
            remoteMinRx := FromMicros(p.requiredMinRx), remoteDesiredMinTx := FromMicros(p.desiredMinTx),
            remoteDetectMult := p.detectMult, remoteState := p.state,
            pendingFinal := p.poll, detectDeadline := b.detectDeadline)
  }

  lemma OutcomeOfTransition(v: Vars, b: Vars, p: ControlPacket, now: nat)
    requires Prepared(v, p, now, b) && v.cachedState == v.state && !v.pollActive && !v.pendingFinal
    ensures OutcomeButAnswer(v, p, now, Moving(v, b, p, now))
  {
    var t := RfcReceive(v.state, v.localDiag, p.state).0;
    if t != v.state {
      if t == Down {
        OutcomeFalling(v, b, p, now);
      } else {
        OutcomeRising(v, b, p, t, now);
      }
    }
  }

  lemma OutcomeFalling(v: Vars, b: Vars, p: ControlPacket, now: nat)
    requires Prepared(v, p, now, b) && v.cachedState == v.state && !v.pollActive && !v.pendingFinal
    requires RfcReceive(v.state, v.localDiag, p.state) == (Down, DIAG_NEIGHBOR_DOWN) && v.state != Down
    ensures OutcomeButAnswer(v, p, now, Transitioned(b, RecvStateToEvent(p.state), Down, now))
  {
  }

  lemma OutcomeRising(v: Vars, b: Vars, p: ControlPacket, t: State, now: nat)
    requires Prepared(v, p, now, b) && v.cachedState == v.state && !v.pollActive && !v.pendingFinal
    requires RfcReceive(v.state, v.localDiag, p.state) == (t, v.localDiag) && v.state != t && (t == Init || t == Up)
    ensures OutcomeButAnswer(v, p, now, Transitioned(b, RecvStateToEvent(p.state), t, now))
  {
  }

  lemma PreparedBefore(v: Vars, p: ControlPacket, now: nat)
    requires !v.pollActive && !v.pendingFinal
    ensures Prepared(v, p, now, BeforeFsm(v, p, now))
  {
  }

  lemma AcceptedOutcome(start: State, v: Vars, p: ControlPacket, now: nat)
    requires Inv(start, v) && p.my != 0 && p.detectMult != 0 && now > 0
    ensures Outcome(v, p, now, OnAccepted(v, p, now))
  {
    AcceptedClosedForm(v, p, now);
    var b := BeforeFsm(v, p, now);
    PreparedBefore(v, p, now);
    OutcomeOfTransition(v, b, p, now);
    OutcomeOfAnswer(v, p, now, Moving(v, b, p, now));
  }

  /** An accepted packet makes at most one transmit attempt. If it carried Poll it makes
      exactly one, with Final set; if it did not, none has Final set. Whatever is sent
      announces the state the session is in afterwards, and nothing is left pending. */
  lemma PollAnsweredOnce(start: State, v: Vars, p: ControlPacket, now: nat)
    requires Inv(start, v) && p.my != 0 && p.detectMult != 0 && now > 0
    ensures var w := OnAccepted(v, p, now);
            && v.sent <= w.sent && !w.pendingFinal
            && |v.sent| <= |w.sent| <= |v.sent| + 1
            && (p.poll ==> |w.sent| == |v.sent| + 1)
            && (|w.sent| == |v.sent| + 1 ==>
                  w.sent[|v.sent|].pkt.final == p.poll && w.sent[|v.sent|].pkt.state == w.state)
  {
    AcceptedOutcome(start, v, p, now);
  }

  /** The session state and diagnostic after an accepted packet are those of the
      reception pseudocode of section 6.8.6 of RFC 5880. */
  lemma ReceptionRefinesRfc(start: State, v: Vars, p: ControlPacket, now: nat)
    requires Inv(start, v) && p.my != 0 && p.detectMult != 0 && now > 0
    ensures var w := OnAccepted(v, p, now);
            (w.state, w.localDiag) == RfcReceive(v.state, v.localDiag, p.state)
  {
    AcceptedOutcome(start, v, p, now);
  }

  /** The lock-free readings agree with the locked ones in every state a handler leaves. */
  lemma HotIsLocked(start: State, v: Vars)
    requires Inv(start, v)
    ensures TxIntervalHot(v) == TxIntervalLocked(v) && DetectionTimeHot(v) == DetectionTimeLocked(v)
  {
  }

  /** The bytes of a sendable transmission pass the decoder, padded or not, and give back
      the signed packet. */
  lemma WireDecodes(t: Transmission)
    requires Sendable(t)
    ensures var q := SignedPacket(t);
            WellFormed(q) && Decode(WireBytes(t)) == Ok(q.(length := TotalLen(q)))
    ensures var q := SignedPacket(t); q.(authPresent := false, auth := None) == t.pkt && q.authPresent == t.auth.Some?
  {
    var q := SignedPacket(t);
    if t.auth.Some? {
      SignedSection(t.auth.value, t.pkt);
    }
    var e := Encode(q);
    RoundTrip(q, Zeros(if t.padded > |e| then t.padded - |e| else 0));
  }

  // ---- Sequence numbers --------------------------------------------------

  /** Transmission i was signed from the value x0 + i, and the next one will be from
      x0 + the number of transmissions so far. */
  predicate Numbered(x0: u32, kind: u8, v: Vars) {
    && v.auth.Some? && v.auth.value.kind == kind
    && v.auth.value.xmitSeq == Add32(x0, |v.sent|)
    && forall i :: 0 <= i < |v.sent| ==>
         v.sent[i].auth.Some? && v.sent[i].auth.value.kind == kind && v.sent[i].auth.value.xmitSeq == Add32(x0, i)
  }

  lemma TransmitNumbered(x0: u32, kind: u8, v: Vars)
    requires Numbered(x0, kind, v) && kind != AUTH_SIMPLE
    ensures Numbered(x0, kind, Transmit(v))
  {
    Add32Step(x0, |v.sent|);
  }

  lemma Add32Step(x0: u32, n: nat)
    ensures Add32(Add32(x0, n), 1) == Add32(x0, n + 1)
  {
    var q1, w := (x0 + n) / TWO32, Add32(x0, n);
    var q2 := (w + 1) / TWO32;
    ModOf(x0 + n + 1, q1 + q2, Add32(w, 1));
  }

  lemma AcceptedNumbered(x0: u32, kind: u8, start: State, v: Vars, p: ControlPacket, now: nat)
    requires Inv(start, v) && p.my != 0 && p.detectMult != 0 && now > 0
    requires Numbered(x0, kind, v) && kind != AUTH_SIMPLE
    ensures Numbered(x0, kind, OnAccepted(v, p, now))
  {
    AcceptedOutcome(start, v, p, now);
    OutcomeNumbered(x0, kind, v, p, now, OnAccepted(v, p, now));
  }

  lemma OutcomeNumbered(x0: u32, kind: u8, v: Vars, p: ControlPacket, now: nat, w: Vars)
    requires Outcome(v, p, now, w) && Numbered(x0, kind, v) && kind != AUTH_SIMPLE
    ensures Numbered(x0, kind, w)
  {
    Add32Step(x0, |v.sent|);
    assert forall i :: 0 <= i < |v.sent| ==> w.sent[i] == v.sent[i];
  }

  /** Every handler numbers its transmissions without gap or repetition. */
  lemma RecvNumbered(x0: u32, kind: u8, start: State, v: Vars, p: ControlPacket, wire: seq<u8>, now: nat)
    requires Inv(start, v) && p.my != 0 && p.detectMult != 0 && now > 0
    requires Numbered(x0, kind, v) && kind != AUTH_SIMPLE
    ensures Numbered(x0, kind, OnRecv(v, p, wire, now))
  {
    AuthenticatedAuth(v.auth, p, wire);
    match Authenticate(v.auth, p, wire) {
      case None =>
      case Some(auth) =>
        var w := v.(auth := auth);
        assert DetectionTimeHot(w) == DetectionTimeHot(v);
        AcceptedNumbered(x0, kind, start, w, p, now);
    }
  }

  lemma TimersNumbered(x0: u32, kind: u8, v: Vars, now: nat)
    requires Numbered(x0, kind, v) && kind != AUTH_SIMPLE
    ensures Numbered(x0, kind, OnTxTimer(v)) && Numbered(x0, kind, OnDetectTimer(v, now))
  {
    TransmitNumbered(x0, kind, v);
    ExpiryNumbered(x0, kind, v, now);
  }

  lemma ExpiryNumbered(x0: u32, kind: u8, v: Vars, now: nat)
    requires Numbered(x0, kind, v)
    ensures Numbered(x0, kind, OnDetectTimer(v, now))
  {
    assert Numbered(x0, kind, ForgetAuthSeq(v, now));
    ExpiredClosedForm(v, now);
  }

  lemma PathDownNumbered(x0: u32, kind: u8, v: Vars, now: nat)
    requires Numbered(x0, kind, v) && kind != AUTH_SIMPLE
    ensures Numbered(x0, kind, OnPathDown(v, now))
  {
    PathDownClosedForm(v, now);
    var w := ResetDetect(Moved(v.(localDiag := DIAG_PATH_DOWN), Down).(remoteDiscr := 0), now);
    assert Numbered(x0, kind, w);
    TransmitNumbered(x0, kind, w);
  }

  lemma AdminDownNumbered(x0: u32, kind: u8, v: Vars, now: nat)
    requires Numbered(x0, kind, v) && kind != AUTH_SIMPLE
    ensures Numbered(x0, kind, OnAdminDown(v, now))
  {
    AdminDownClosedForm(v, now);
    var w := Moved(v, AdminDown).(localDiag := DIAG_ADMIN_DOWN);
    assert Numbered(x0, kind, w);
    TransmitNumbered(x0, kind, w);
  }

  // ---- What each event promises ------------------------------------------

  /** Exactly one packet more was sent. It announces this state and diagnostic, echoes the
      peer's discriminator, answers no Poll, and is signed with the variables at hand. */
  predicate SaidOnce(v: Vars, w: Vars, s: State, diag: u8) {
    && |w.sent| == |v.sent| + 1 && w.sent[..|v.sent|] == v.sent
    && var x := w.sent[|v.sent|];
       x.pkt.state == s && x.pkt.diag == diag && x.pkt.your == w.remoteDiscr && !x.pkt.final && x.auth == v.auth
  }

  /** An expired detection timer takes an Init or Up session Down with diagnostic 1, forgets
      the peer's discriminator and says nothing; any other session it leaves where it is.
      Section 6.8.4 of RFC 5880. */
  lemma ExpiryOutcome(start: State, v: Vars, now: nat)
    requires Inv(start, v)
    ensures var w := OnDetectTimer(v, now);
            && w.sent == v.sent
            && if v.state == Init || v.state == Up
               then w.state == Down && w.localDiag == 1 && w.remoteDiscr == 0
               else w.state == v.state && w.localDiag == v.localDiag && w.remoteDiscr == v.remoteDiscr
  {
    ExpiredClosedForm(v, now);
  }

  /** A path-down command takes an Init or Up session Down with diagnostic 5 and says so at once. */
  lemma PathDownOutcome(start: State, v: Vars, now: nat)
    requires Inv(start, v)
    ensures var w := OnPathDown(v, now);
            && w.localDiag == 5
            && if v.state == Init || v.state == Up
               then w.state == Down && w.remoteDiscr == 0 && SaidOnce(v, w, Down, 5)
               else w.state == v.state && w.sent == v.sent
  {
  }

  /** An administrative command ends in AdminDown with diagnostic 7, said at once unless the
      session was there already. Section 6.8.16 of RFC 5880. */
  lemma AdminDownOutcome(start: State, v: Vars, now: nat)
    requires Inv(start, v)
    ensures var w := OnAdminDown(v, now);
            && w.state == AdminDown && w.localDiag == 7
            && if v.state == AdminDown then w.sent == v.sent else SaidOnce(v, w, AdminDown, 7)
  {
    AdminDownClosedForm(v, now);
  }

  /** Periodic packets go out exactly if the peer wants packets and, on the passive side, has
      been heard. Section 6.8.7 of RFC 5880. */
  lemma PeriodicIff(start: State, v: Vars)
    requires Inv(start, v)
    ensures var w := OnTxTimer(v);
            if v.remoteMinRx > 0 && (v.cfg.role == Active || v.remoteDiscr != 0)
            then SaidOnce(v, w, v.state, v.localDiag) && w.auth == Bumped(v.auth) else w == v
  {
  }

  /** Until it is Up a session neither sends nor announces a faster rate than one packet a
      second. Section 6.8.3 of RFC 5880. */
  lemma SlowUntilUp(start: State, v: Vars)
    requires Inv(start, v) && v.state != Up
    ensures TxIntervalHot(v) >= 1_000_000_000 && BuildPacket(v).desiredMinTx >= 1_000_000
  {
  }

  /** A Final ends the Poll Sequence and puts the parameters that waited for it in force;
      no other packet does. Section 6.5 of RFC 5880. */
  lemma FinalEndsPoll(v: Vars, p: ControlPacket, now: nat)
    ensures var w, ends := OnAccepted(v, p, now), p.final && v.pollActive;
            && w.pollActive == (v.pollActive && !p.final)
            && w.desiredMinTx == (if ends && v.pendingDesiredMinTx > 0 then v.pendingDesiredMinTx else v.desiredMinTx)
            && w.requiredMinRx == (if ends && v.pendingRequiredMinRx > 0 then v.pendingRequiredMinRx else v.requiredMinRx)
            && w.pendingDesiredMinTx == (if ends then 0 else v.pendingDesiredMinTx)
            && w.pendingRequiredMinRx == (if ends then 0 else v.pendingRequiredMinRx)
  {
    AcceptedClosedForm(v, p, now);
    PollBeforeFsm(v, p, now);
    var b := BeforeFsm(v, p, now);
    TransitionKeepsPoll(b, RecvStateToEvent(p.state), RfcReceive(v.cachedState, v.localDiag, p.state).0, now);
    SamePollAfterAnswer(Moving(v, b, p, now));
  }

  /** Sequence numbers were used for the packets sent since, and for so many more. */
  predicate UsedNumbers(v: Vars, w: Vars, more: nat) {
    && |v.sent| <= |w.sent| && v.auth.Some? && w.auth.Some? && w.auth.value.kind == v.auth.value.kind
    && w.auth.value.xmitSeq == if v.auth.value.kind == AUTH_SIMPLE then v.auth.value.xmitSeq
                               else (v.auth.value.xmitSeq + |w.sent| - |v.sent| + more) % 0x1_0000_0000
  }

  lemma TransmitUses(v: Vars, m: Vars, more: nat)
    requires UsedNumbers(v, m, more)
    ensures UsedNumbers(v, Transmit(m), more)
  {
    Add32Step(v.auth.value.xmitSeq, |m.sent| - |v.sent| + more);
  }

  lemma BeforeFsmUses(v: Vars, p: ControlPacket, now: nat)
    requires v.auth.Some?
    ensures UsedNumbers(v, BeforeFsm(v, p, now), if p.final && v.pollActive then 1 else 0)
  {
    TerminateUses(v, Learn(v, p, now));
  }

  lemma TerminateUses(v: Vars, a: Vars)
    requires v.auth.Some? && a.auth == v.auth && a.sent == v.sent
    ensures UsedNumbers(v, TerminatePoll(a), 1) && UsedNumbers(v, a, 0)
  {
  }

  lemma TransitionUses(v: Vars, b: Vars, e: Event, t: State, now: nat, more: nat)
    requires UsedNumbers(v, b, more)
    ensures UsedNumbers(v, Transitioned(b, e, t, now), more)
  {
    TransmitUses(v, Moved(b, t), more);
  }

  /** An accepted packet uses one sequence number for each packet that it makes the session send
      and, if it ends a Poll Sequence, one more for the packet that is then built and kept. */
  lemma AcceptedUses(v: Vars, p: ControlPacket, now: nat)
    requires v.auth.Some?
    ensures UsedNumbers(v, OnAccepted(v, p, now), if p.final && v.pollActive then 1 else 0)
  {
    var more := if p.final && v.pollActive then 1 else 0;
    var b := BeforeFsm(v, p, now);
    AcceptedClosedForm(v, p, now);
    BeforeFsmUses(v, p, now);
    TransitionUses(v, b, RecvStateToEvent(p.state), RfcReceive(v.cachedState, v.localDiag, p.state).0, now, more);
    TransmitUses(v, Moving(v, b, p, now), more);
  }

  predicate SamePoll(v: Vars, w: Vars) {
    && w.pollActive == v.pollActive && w.desiredMinTx == v.desiredMinTx && w.requiredMinRx == v.requiredMinRx
    && w.pendingDesiredMinTx == v.pendingDesiredMinTx && w.pendingRequiredMinRx == v.pendingRequiredMinRx
  }

  lemma PollBeforeFsm(v: Vars, p: ControlPacket, now: nat)
    ensures SamePoll(if p.final && v.pollActive then ApplyPending(v.(pollActive := false)) else v, BeforeFsm(v, p, now))
  {
  }

  lemma TransitionKeepsPoll(b: Vars, e: Event, t: State, now: nat)
    ensures SamePoll(b, Transitioned(b, e, t, now))
  {
  }

  lemma SamePollAfterAnswer(m: Vars)
    ensures SamePoll(m, AnswerPoll(m))
  {
  }

  // ---- What does not hold ------------------------------------------------

  /** Nothing that is visible outside has changed. */
  predicate Quiet(v: Vars, b: Vars) {
    && b.sent == v.sent && b.changes == v.changes && b.localDiag == v.localDiag
    && b.state == v.state && b.cachedState == v.cachedState
  }

  lemma TerminatePollIsQuiet(v: Vars)
    ensures Quiet(v, TerminatePoll(v))
  {
  }

  lemma PreparingIsQuiet(v: Vars, p: ControlPacket, now: nat)
    ensures Quiet(v, BeforeFsm(v, p, now))
  {
    TerminatePollIsQuiet(Learn(v, p, now));
  }

  /** The state, the diagnostic and the announcements after a packet that says `received`. */
  predicate LogAfter(v: Vars, received: State, w: Vars) {
    var r := RfcReceive(v.cachedState, v.localDiag, received);
    if r.0 == v.cachedState then w.state == v.state && w.localDiag == v.localDiag && w.changes == v.changes
    else w.state == r.0 && w.localDiag == r.1 && w.changes == v.changes + [Change(v.cachedState, r.0, v.localDiag)]
  }

  lemma MovingLog(v: Vars, b: Vars, p: ControlPacket, now: nat)
    requires Quiet(v, b)
    ensures LogAfter(v, p.state, Moving(v, b, p, now))
  {
    var r := RfcReceive(v.cachedState, v.localDiag, p.state);
    if r.0 != v.cachedState {
      TransitionLog(b, RecvStateToEvent(p.state), r.0, now);
    }
  }

  lemma TransitionLog(b: Vars, e: Event, t: State, now: nat)
    requires e != TimerExpired && t != AdminDown
    ensures var w := Transitioned(b, e, t, now);
            && w.state == t && w.localDiag == (if t == Down then 3 else b.localDiag)
            && w.changes == b.changes + [Change(b.cachedState, t, b.localDiag)]
  {
  }

  lemma AnswerLog(m: Vars)
    ensures var w := AnswerPoll(m); w.state == m.state && w.localDiag == m.localDiag && w.changes == m.changes
  {
  }

  lemma AcceptedLog(v: Vars, p: ControlPacket, now: nat)
    ensures LogAfter(v, p.state, OnAccepted(v, p, now))
  {
    var b := BeforeFsm(v, p, now);
    AcceptedClosedForm(v, p, now);
    PreparingIsQuiet(v, p, now);
    MovingLog(v, b, p, now);
    AnswerLog(Moving(v, b, p, now));
  }

  /** When the control channel is full, AdminDown is stored from outside and the loop's
      copy is not told: the invariant survives only if the session was AdminDown already. */
  lemma DirectStoreKeepsIff(start: State, v: Vars)
    requires Inv(start, v)
    ensures Inv(start, StoreAdminDown(v)) <==> v.state == AdminDown
  {
  }

  /** A passive session that has not heard its peer keeps silent whatever happens inside it,
      with one exception: told to go down from Down, it says so. */
  lemma PassiveSpeaksIff(start: State, v: Vars, now: nat)
    requires Inv(start, v) && v.cfg.role == Passive && v.remoteDiscr == 0
    ensures OnTxTimer(v).sent == v.sent && OnDetectTimer(v, now).sent == v.sent && OnPathDown(v, now).sent == v.sent
    ensures OnAdminDown(v, now).sent != v.sent <==> v.state == Down
  {
    ExpiredClosedForm(v, now);
    PathDownClosedForm(v, now);
    AdminDownClosedForm(v, now);
  }
}
