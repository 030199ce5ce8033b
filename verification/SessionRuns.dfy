/** One session over whole timed runs: what holds in every reachable state. */
module SessionRuns {
  import opened Bytes
  import opened Fsm
  import opened Codec
  import opened Auth
  import opened Timing
  import opened Session
  import opened SessionSteps

  datatype Input = Packet(wire: seq<u8>) | TxTimer | DetectTimer | PathDown | TakeDown

  /** The session, the clock, and the next transmission. */
  datatype Timed = Timed(v: Vars, now: nat, txDeadline: int)

  /** One pass of the event loop. */
  ghost function Handle(v: Vars, i: Input, now: nat): Vars
    requires v.auth.Some? ==> KnownType(v.auth.value.kind)
  {
    match i
    case Packet(wire) => (match Decode(wire) case Err(_) => v case Ok(p) => OnRecv(v, p, wire, now))
    case TxTimer => OnTxTimer(v)
    case DetectTimer => OnDetectTimer(v, now)
    case PathDown => OnPathDown(v, now)
    case TakeDown => OnAdminDown(v, now)
  }

  /** The transmit timer is set anew by every transmission, every change of state and
      every expiry of its own. */
  predicate Rearms(v: Vars, w: Vars, i: Input) {
    i == TxTimer || v.sent != w.sent || v.changes != w.changes
  }

  ghost predicate TxArmed(v: Vars, now: nat, deadline: int) {
    exists draw: nat :: ValidDraw(v.cfg.detectMult, draw)
                        && deadline == now + Jittered(TxIntervalHot(v), v.cfg.detectMult, draw)
  }

  /** Time passes, but not beyond a timer that is due. */
  predicate Tick(s: Timed, t: Timed) {
    t == s.(now := t.now) && s.now <= t.now <= s.v.detectDeadline && t.now <= s.txDeadline
  }

  /** What one pass of the event loop makes of the session and of its transmit timer. */
  ghost predicate Pass(s: Timed, t: Timed, i: Input)
    requires s.v.auth.Some? ==> KnownType(s.v.auth.value.kind)
  {
    && t.v == Handle(s.v, i, s.now) && t.now == s.now
    && if Rearms(s.v, t.v, i) then TxArmed(t.v, t.now, t.txDeadline) else t.txDeadline == s.txDeadline
  }

  ghost predicate Handles(s: Timed, t: Timed, i: Input)
    requires s.v.auth.Some? ==> KnownType(s.v.auth.value.kind)
  {
    && (i == TxTimer ==> s.now == s.txDeadline)
    && (i == DetectTimer ==> s.now == s.v.detectDeadline)
    && Pass(s, t, i)
  }

  ghost predicate Next(s: Timed, t: Timed)
    requires s.v.auth.Some? ==> KnownType(s.v.auth.value.kind)
  {
    Tick(s, t) || exists i: Input :: Handles(s, t, i)
  }

  ghost predicate Initial(start: State, s: Timed) {
    s.now > 0 && Fresh(start, s.v, s.now) && TxArmed(s.v, s.now, s.txDeadline)
  }

  /** Once the sequence is known, the detection timer keeps ticking between one and
      three Detection Times after the last accepted packet. */
  predicate KnownWindow(v: Vars) {
    v.auth.Some? && v.auth.value.known ==>
      && v.lastPacketRecv > 0 && v.remoteDetectMult > 0
      && v.lastPacketRecv + DetectionTimeHot(v) <= v.detectDeadline < v.lastPacketRecv + 3 * DetectionTimeHot(v)
  }

  predicate TimedInv(start: State, s: Timed) {
    && Inv(start, s.v) && KnownWindow(s.v)
    && 0 < s.now && s.v.lastPacketRecv <= s.now <= s.v.detectDeadline && s.now <= s.txDeadline
  }

  // ---- Deadlines after each handler --------------------------------------

  /** Every accepted packet restarts the detection timer, whatever transition it causes. */
  lemma AcceptedTiming(start: State, v: Vars, p: ControlPacket, now: nat)
    requires Inv(start, v) && p.my != 0 && p.detectMult != 0 && now > 0
    ensures var w := Accepted(v, p, now);
            && w.lastPacketRecv == now && w.remoteDetectMult == p.detectMult
            && w.detectDeadline == now + DetectionTimeHot(w)
  {
    BeforeFsmKeeps(start, v, p, now);
    var b := BeforeFsm(v, p, now);
    var e, t := RecvStateToEvent(p.state), RfcReceive(v.cachedState, v.localDiag, p.state).0;
    var m := Moving(v, b, p, now);
    if t != b.cachedState {
      TransitionedTiming(b, e, t, now);
    }
    assert SameDetection(m, AnswerPoll(m));
    SameDetectionTime(m, AnswerPoll(m));
  }

  lemma TransitionedTiming(b: Vars, e: Event, t: State, now: nat)
    requires b.detectDeadline == now + DetectionTimeHot(b) && b.remoteDetectMult > 0
    ensures var w := Transitioned(b, e, t, now);
            && w.lastPacketRecv == b.lastPacketRecv && w.remoteDetectMult == b.remoteDetectMult
            && w.detectDeadline == now + DetectionTimeHot(w)
  {
    var w := Transitioned(b, e, t, now);
    SameDetectionTime(b, w);
    match t {
      case Up => SameDetectionTime(b, Transmit(Moved(b, Up)));
      case Down =>
        var d := if e == TimerExpired then DIAG_TIME_EXPIRED else DIAG_NEIGHBOR_DOWN;
        SameDetectionTime(b, Moved(b, Down).(localDiag := d, remoteDiscr := 0));
      case Init =>
      case AdminDown =>
    }
  }

  predicate DeadlinesHold(v: Vars, now: nat) {
    KnownWindow(v) && v.lastPacketRecv <= now <= v.detectDeadline
  }

  lemma RecvTiming(start: State, v: Vars, p: ControlPacket, wire: seq<u8>, now: nat)
    requires Inv(start, v) && p.my != 0 && p.detectMult != 0 && now > 0 && DeadlinesHold(v, now)
    ensures DeadlinesHold(OnRecv(v, p, wire, now), now)
  {
    AuthenticatedAuth(v.auth, p, wire);
    match Authenticate(v.auth, p, wire) {
      case None =>
      case Some(auth) =>
        var w := v.(auth := auth);
        assert DetectionTimeHot(w) == DetectionTimeHot(v);
        AcceptedClosedForm(w, p, now);
        AcceptedTiming(start, w, p, now);
        AcceptedKeeps(start, w, p, now);
        DetectionPositive(Accepted(w, p, now));
    }
  }

  lemma QuietTiming(v: Vars, w: Vars, now: nat)
    requires DeadlinesHold(v, now) && SameDetection(v, w)
    requires w.detectDeadline == v.detectDeadline && w.lastPacketRecv == v.lastPacketRecv
    requires w.auth.Some? && w.auth.value.known ==> v.auth.Some? && v.auth.value.known
    ensures DeadlinesHold(w, now)
  {
  }

  lemma PathDownTiming(start: State, v: Vars, now: nat)
    requires Inv(start, v) && DeadlinesHold(v, now)
    ensures DeadlinesHold(OnPathDown(v, now), now)
  {
  }

  lemma ExpiryTiming(start: State, v: Vars, now: nat)
    requires Inv(start, v) && DeadlinesHold(v, now) && now == v.detectDeadline
    ensures DeadlinesHold(OnDetectTimer(v, now), now)
  {
    ExpiredClosedForm(v, now);
    ForgetKeeps(start, v, now);
    DetectionPositive(v);
    var f := ForgetAuthSeq(v, now);
    DetectionPositive(f);
    var w := Expired(v, now);
    if f.cachedState == Init || f.cachedState == Up {
      var m := Moved(f, Down).(localDiag := DIAG_TIME_EXPIRED, remoteDiscr := 0);
      SameDetectionTime(f, m);
      SameDetectionTime(f, w);
    } else {
      assert w == ResetDetect(f, now);
      assert DetectionTimeHot(w) == DetectionTimeHot(f);
    }
  }

  lemma TxDeadlineAhead(v: Vars, now: nat, deadline: int)
    requires Sane(v) && TxArmed(v, now, deadline)
    ensures now < deadline
  {
    var draw: nat :| ValidDraw(v.cfg.detectMult, draw)
                     && deadline == now + Jittered(TxIntervalHot(v), v.cfg.detectMult, draw);
    JitterRange(TxIntervalHot(v), v.cfg.detectMult, draw);
  }

  // ---- Every run ---------------------------------------------------------

  lemma HandleKeeps(start: State, s: Timed, i: Input)
    requires TimedInv(start, s) && (i == DetectTimer ==> s.now == s.v.detectDeadline)
    ensures Inv(start, Handle(s.v, i, s.now)) && DeadlinesHold(Handle(s.v, i, s.now), s.now)
  {
    match i {
      case Packet(wire) =>
        if Decode(wire).Ok? {
          DecodedParts(wire);
          RecvKeeps(start, s.v, Decode(wire).value, wire, s.now);
          RecvTiming(start, s.v, Decode(wire).value, wire, s.now);
        }
      case TxTimer =>
        TxTimerKeeps(start, s.v);
        QuietTiming(s.v, OnTxTimer(s.v), s.now);
      case DetectTimer =>
        DetectTimerKeeps(start, s.v, s.now);
        ExpiryTiming(start, s.v, s.now);
      case PathDown =>
        PathDownKeeps(start, s.v, s.now);
        PathDownTiming(start, s.v, s.now);
      case TakeDown =>
        AdminDownKeeps(start, s.v, s.now);
        AdminDownClosedForm(s.v, s.now);
        QuietTiming(s.v, OnAdminDown(s.v, s.now), s.now);
    }
  }

  lemma NextKeeps(start: State, s: Timed, t: Timed)
    requires TimedInv(start, s) && Next(s, t)
    ensures TimedInv(start, t)
  {
    if !Tick(s, t) {
      var i: Input :| Handles(s, t, i);
      HandleKeeps(start, s, i);
      if Rearms(s.v, t.v, i) {
        TxDeadlineAhead(t.v, t.now, t.txDeadline);
      }
    }
  }

  lemma InitialKeeps(start: State, s: Timed)
    requires Initial(start, s)
    ensures TimedInv(start, s)
  {
    FreshKeeps(start, s.v, s.now);
    TxDeadlineAhead(s.v, s.now, s.txDeadline);
  }

  /** A run of the session: an initial state and steps that each follow the machine. */
  ghost predicate IsRun(start: State, run: seq<Timed>)
  {
    && |run| > 0 && Initial(start, run[0])
    && forall i :: 0 <= i < |run| - 1 ==> StepOk(run[i], run[i + 1])
  }

  ghost predicate StepOk(s: Timed, t: Timed) {
    (s.v.auth.Some? ==> KnownType(s.v.auth.value.kind)) && Next(s, t)
  }

  /** Every valid configuration begins such a history. */
  lemma EveryConfigRuns(start: State, cfg: Config, desired: nat, required: nat, auth: Option<AuthVars>, now: nat) returns (s: Timed)
    requires ValidConfig(cfg, desired, required, auth) && (start == Down || start == AdminDown) && now > 0
    ensures IsRun(start, [s]) && s.now == now && s.v.cfg == cfg && s.v.state == start
    ensures s.v.desiredMinTx == desired && s.v.requiredMinRx == required && s.v.auth == Bumped(auth)
    ensures Fresh(start, s.v, now)
  {
    var n := NewVars(cfg, desired, required, auth);
    var v := Start(if start == AdminDown then StoreAdminDown(n) else n, now);
    assert StartedAs(start, cfg, desired, required, auth, now, v);
    assert ValidDraw(cfg.detectMult, 0);
    s := Timed(v, now, now + Jittered(TxIntervalHot(v), cfg.detectMult, 0));
  }

  lemma {:induction false} RunInvariant(start: State, run: seq<Timed>, n: nat)
    requires IsRun(start, run) && n < |run|
    ensures TimedInv(start, run[n])
  {
    if n == 0 {
      InitialKeeps(start, run[0]);
    } else {
      RunInvariant(start, run, n - 1);
      assert StepOk(run[n - 1], run[n - 1 + 1]);
      NextKeeps(start, run[n - 1], run[n]);
    }
  }

  /** Once a packet was heard, the Detection Time is a plain product, far from the 64-bit
      limit: the slower of what this side requires and the peer announced, times the peer's
      multiplier. */
  lemma DetectionProduct(v: Vars)
    requires Sane(v) && v.remoteDetectMult > 0
    ensures DetectionTimeHot(v) == Max(v.requiredMinRx, v.remoteDesiredMinTx) * v.remoteDetectMult
    ensures 0 < Max(v.requiredMinRx, v.remoteDesiredMinTx) * v.remoteDetectMult < 0x2000_0000_0000_0000
  {
    IntervalProduct(Max(v.requiredMinRx, v.remoteDesiredMinTx), v.remoteDetectMult);
  }

  /** Section 6.8.4 of RFC 5880: an accepted packet sets the detection timer to the number of
      intervals that its own multiplier says, each as long as the slower of what this side
      requires and what the packet, in microseconds, announces. */
  lemma AcceptedDeadline(start: State, v: Vars, p: ControlPacket, wire: seq<u8>, now: nat)
    requires Inv(start, v) && p.my != 0 && p.detectMult != 0 && now > 0
    requires Authenticate(v.auth, p, wire).Some?
    ensures var w := OnRecv(v, p, wire, now);
            && w.lastPacketRecv == now && w.remoteDetectMult == p.detectMult
            && w.remoteDesiredMinTx == 1000 * p.desiredMinTx && w.remoteMinRx == 1000 * p.requiredMinRx
            && w.detectDeadline == now + Max(v.requiredMinRx, 1000 * p.desiredMinTx) * p.detectMult
  {
    AuthenticatedAuth(v.auth, p, wire);
    var u := v.(auth := Authenticate(v.auth, p, wire).value);
    assert DetectionTimeHot(u) == DetectionTimeHot(v);
    AcceptedKeeps(start, u, p, now);
    AcceptedTiming(start, u, p, now);
    AcceptedClosedForm(u, p, now);
    AcceptedOutcome(start, u, p, now);
    OutcomeDeadline(u, p, now, Accepted(u, p, now));
  }

  lemma OutcomeDeadline(v: Vars, p: ControlPacket, now: nat, w: Vars)
    requires Sane(w) && Outcome(v, p, now, w) && p.detectMult != 0 && w.detectDeadline == now + DetectionTimeHot(w)
    ensures w.remoteDesiredMinTx == 1000 * p.desiredMinTx && w.remoteMinRx == 1000 * p.requiredMinRx
    ensures w.detectDeadline == now + Max(v.requiredMinRx, 1000 * p.desiredMinTx) * p.detectMult
  {
    DetectionProduct(w);
  }

  /** Before anything was heard the session waits for its own multiplier of its own interval,
      which is at least a second. */
  lemma StartDeadline(start: State, cfg: Config, desired: nat, required: nat, auth: Option<AuthVars>, now: nat, v: Vars)
    requires StartedAs(start, cfg, desired, required, auth, now, v)
    ensures v.detectDeadline == now + Max(desired, 1_000_000_000) * cfg.detectMult
  {
    IntervalProduct(Max(desired, 1_000_000_000), cfg.detectMult);
  }

  /** A session never stays Init or Up longer than one Detection Time without a valid
      packet, and that time is positive and far from the 64-bit limit. */
  lemma SilenceIsBounded(start: State, run: seq<Timed>, n: nat)
    requires IsRun(start, run) && n < |run| && (run[n].v.state == Init || run[n].v.state == Up)
    ensures var v := run[n].v;
            var d := Max(v.requiredMinRx, v.remoteDesiredMinTx) * v.remoteDetectMult;
            && 0 < d < 0x2000_0000_0000_0000 && v.detectDeadline == v.lastPacketRecv + d
            && run[n].now - v.lastPacketRecv <= d
  {
    RunInvariant(start, run, n);
    DetectionProduct(run[n].v);
  }

  predicate SeqKnown(v: Vars) {
    v.auth.Some? && v.auth.value.known
  }

  /** Only an expired detection timer, at least two Detection Times after the last
      accepted packet, drops bfd.AuthSeqKnown. */
  lemma KnownDroppedOnlyByTimer(start: State, s: Timed, i: Input)
    requires TimedInv(start, s) && SeqKnown(s.v) && !SeqKnown(Handle(s.v, i, s.now))
    ensures i == DetectTimer && s.now - s.v.lastPacketRecv >= 2 * DetectionTimeHot(s.v)
  {
    match i {
      case Packet(wire) =>
        if Decode(wire).Ok? {
          DecodedParts(wire);
          KnownStaysOnRecv(start, s.v, Decode(wire).value, wire, s.now);
        }
      case TxTimer =>
      case DetectTimer => ExpiredClosedForm(s.v, s.now);
      case PathDown => PathDownClosedForm(s.v, s.now);
      case TakeDown => AdminDownClosedForm(s.v, s.now);
    }
  }

  lemma KnownStaysOnRecv(start: State, v: Vars, p: ControlPacket, wire: seq<u8>, now: nat)
    requires Inv(start, v) && SeqKnown(v) && p.my != 0 && p.detectMult != 0 && now > 0
    ensures SeqKnown(OnRecv(v, p, wire, now))
  {
    match Authenticate(v.auth, p, wire) {
      case None =>
      case Some(auth) =>
        VerifyKeepsKnown(v.auth, p, wire);
        AuthenticatedAuth(v.auth, p, wire);
        var w := v.(auth := auth);
        assert DetectionTimeHot(w) == DetectionTimeHot(v);
        AcceptedOutcome(start, w, p, now);
    }
  }

  lemma VerifyKeepsKnown(auth: Option<AuthVars>, p: ControlPacket, wire: seq<u8>)
    requires auth.Some? && ValidAuth(auth.value) && auth.value.known
    ensures Authenticate(auth, p, wire).Some? ==>
              Authenticate(auth, p, wire).value.Some? && Authenticate(auth, p, wire).value.value.known
  {
  }

  /** bfd.AuthSeqKnown, section 6.8.1 of RFC 5880: with exact timers it is dropped no
      earlier than two and always before three Detection Times after the last accepted
      packet, through every mix of timer, path-down and admin-down events. */
  lemma AuthSeqKnownLifetime(start: State, run: seq<Timed>, n: nat)
    requires IsRun(start, run) && n < |run| && SeqKnown(run[n].v)
    ensures var v := run[n].v;
            var d := Max(v.requiredMinRx, v.remoteDesiredMinTx) * v.remoteDetectMult;
            && run[n].now < v.lastPacketRecv + 3 * d
            && (n + 1 < |run| && !SeqKnown(run[n + 1].v) ==> run[n + 1].now >= v.lastPacketRecv + 2 * d)
  {
    RunInvariant(start, run, n);
    DetectionProduct(run[n].v);
    if n + 1 < |run| && !SeqKnown(run[n + 1].v) {
      assert StepOk(run[n], run[n + 1]);
      var i: Input :| Handles(run[n], run[n + 1], i);
      KnownDroppedOnlyByTimer(start, run[n], i);
    }
  }

  // ---- The pace of transmission ------------------------------------------

  /** Section 6.8.7 of RFC 5880: whenever the transmit timer is set, it is set to no less than
      three quarters of what this side wants, of what the peer asked for and, unless the session
      is Up, of a second; and to no more than the largest of the three, less a tenth when the
      multiplier is 1. */
  predicate WithinPace(v: Vars, now: nat, deadline: int) {
    && 4 * (deadline - now) >= 3 * v.desiredMinTx && 4 * (deadline - now) >= 3 * v.remoteMinRx
    && (v.cachedState != Up ==> deadline - now >= 750_000_000)
    && var most := Max(Max(v.desiredMinTx, v.remoteMinRx), if v.cachedState == Up then 0 else 1_000_000_000);
       deadline - now <= most && (v.cfg.detectMult == 1 ==> deadline - now <= most - most / 10)
  }

  lemma ArmedWithinPace(v: Vars, now: nat, deadline: int)
    requires Sane(v) && TxArmed(v, now, deadline)
    ensures WithinPace(v, now, deadline)
  {
    var draw: nat :| ValidDraw(v.cfg.detectMult, draw)
                     && deadline == now + Jittered(TxIntervalHot(v), v.cfg.detectMult, draw);
    JitterRange(TxIntervalHot(v), v.cfg.detectMult, draw);
  }

  /** The session owes its peer, its configuration or the slow start a pace of r. */
  predicate Owes(v: Vars, r: nat) {
    r <= v.remoteMinRx || r <= v.desiredMinTx || (v.state != Up && r <= 1_000_000_000)
  }

  /** The transmit timer is not due before three quarters of r have passed since a moment. */
  predicate Ahead(s: Timed, since: nat, r: nat) {
    4 * (s.txDeadline - since) >= 3 * r && s.now >= since
  }

  /** The transmit timer expires, and the loop handles it. */
  ghost predicate Fires(s: Timed, t: Timed) {
    (s.v.auth.Some? ==> KnownType(s.v.auth.value.kind)) && Handles(s, t, TxTimer)
  }

  lemma AheadWhenArmed(start: State, s: Timed, since: nat, r: nat)
    requires TimedInv(start, s) && TxArmed(s.v, s.now, s.txDeadline) && Owes(s.v, r) && s.now >= since
    ensures Ahead(s, since, r)
  {
    ArmedWithinPace(s.v, s.now, s.txDeadline);
  }

  lemma AheadAfterFiring(start: State, s: Timed, t: Timed, r: nat)
    requires TimedInv(start, t) && Fires(s, t) && Owes(t.v, r)
    ensures Ahead(t, s.now, r)
  {
    AheadWhenArmed(start, t, s.now, r);
  }

  lemma StaysAhead(start: State, s: Timed, t: Timed, since: nat, r: nat)
    requires TimedInv(start, t) && Ahead(s, since, r) && StepOk(s, t) && Owes(t.v, r)
    ensures Ahead(t, since, r)
  {
    if !Tick(s, t) {
      var e: Input :| Handles(s, t, e);
      if Rearms(s.v, t.v, e) {
        AheadWhenArmed(start, t, since, r);
      }
    }
  }

  predicate Stays(s: Timed, t: Timed, since: nat, r: nat) {
    Ahead(s, since, r) ==> Ahead(t, since, r)
  }

  lemma StaysAt(start: State, run: seq<Timed>, m: nat, since: nat, r: nat)
    requires IsRun(start, run) && m + 1 < |run| && Owes(run[m + 1].v, r)
    ensures Stays(run[m], run[m + 1], since, r)
  {
    if Ahead(run[m], since, r) {
      RunInvariant(start, run, m + 1);
      assert StepOk(run[m], run[m + 1]);
      StaysAhead(start, run[m], run[m + 1], since, r);
    }
  }

  lemma {:induction false} AheadUntil(run: seq<Timed>, i: nat, j: nat, since: nat, r: nat)
    requires i <= j < |run| && Ahead(run[i], since, r)
    requires forall m :: i <= m < j ==> Stays(run[m], run[m + 1], since, r)
    ensures Ahead(run[j], since, r)
    decreases j
  {
    if i < j {
      AheadUntil(run, i, j - 1, since, r);
      assert Stays(run[j - 1], run[j - 1 + 1], since, r);
    }
  }

  lemma AheadAtFirst(start: State, run: seq<Timed>, i: nat, r: nat)
    requires IsRun(start, run) && i + 1 < |run| && Fires(run[i], run[i + 1]) && Owes(run[i + 1].v, r)
    ensures Ahead(run[i + 1], run[i].now, r)
  {
    RunInvariant(start, run, i + 1);
    AheadAfterFiring(start, run[i], run[i + 1], r);
  }

  lemma DueWhenFiring(s: Timed, t: Timed)
    requires Fires(s, t)
    ensures s.now == s.txDeadline
  {
  }

  /** Two periodic transmissions of a run are never closer than three quarters of the interval
      that the peer has been asking for in between, nor of the one that this side announces,
      nor of a second while it is not Up. */
  lemma PeriodicSpacing(start: State, run: seq<Timed>, i: nat, j: nat, r: nat)
    requires IsRun(start, run) && i < j < |run| - 1
    requires Fires(run[i], run[i + 1]) && Fires(run[j], run[j + 1])
    requires forall m :: i < m <= j ==> Owes(run[m].v, r)
    ensures 4 * (run[j].now - run[i].now) >= 3 * r
  {
    AheadAtFirst(start, run, i, r);
    forall m | i < m < j
      ensures Stays(run[m], run[m + 1], run[i].now, r)
    {
      StaysAt(start, run, m, run[i].now, r);
    }
    AheadUntil(run, i + 1, j, run[i].now, r);
    DueWhenFiring(run[j], run[j + 1]);
  }

  lemma RecvInAdminDown(start: State, v: Vars, p: ControlPacket, wire: seq<u8>, now: nat)
    requires Inv(start, v) && p.my != 0 && p.detectMult != 0 && now > 0 && v.state == AdminDown
    ensures OnRecv(v, p, wire, now).state == AdminDown
  {
    AuthenticatedAuth(v.auth, p, wire);
    match Authenticate(v.auth, p, wire) {
      case None =>
      case Some(auth) =>
        var w := v.(auth := auth);
        assert DetectionTimeHot(w) == DetectionTimeHot(v);
        AcceptedOutcome(start, w, p, now);
    }
  }

  lemma AdminDownKept(start: State, s: Timed, i: Input)
    requires TimedInv(start, s) && s.v.state == AdminDown
    ensures Handle(s.v, i, s.now).state == AdminDown
  {
    match i {
      case Packet(wire) =>
        if Decode(wire).Ok? {
          DecodedParts(wire);
          RecvInAdminDown(start, s.v, Decode(wire).value, wire, s.now);
        }
      case TxTimer =>
      case DetectTimer => ExpiredClosedForm(s.v, s.now);
      case PathDown => PathDownClosedForm(s.v, s.now);
      case TakeDown => AdminDownClosedForm(s.v, s.now);
    }
  }

  /** No event of the loop ever leaves AdminDown. */
  lemma {:induction false} AdminDownForever(start: State, run: seq<Timed>, m: nat, n: nat)
    requires IsRun(start, run) && m <= n < |run| && run[m].v.state == AdminDown
    ensures run[n].v.state == AdminDown
    decreases n - m
  {
    if m < n {
      RunInvariant(start, run, m);
      assert StepOk(run[m], run[m + 1]);
      if !Tick(run[m], run[m + 1]) {
        var i: Input :| Handles(run[m], run[m + 1], i);
        AdminDownKept(start, run[m], i);
      }
      AdminDownForever(start, run, m + 1, n);
    }
  }

  /** Every packet ever transmitted, inside a transition or between them, and also after
      the peer's discriminator was forgotten, passes the decoder; and the announced
      changes lead from the first state to the present one. */
  lemma TransmissionsDecode(start: State, run: seq<Timed>, n: nat, k: nat)
    requires IsRun(start, run) && n < |run| && k < |run[n].v.sent|
    ensures Sendable(run[n].v.sent[k])
    ensures var q := SignedPacket(run[n].v.sent[k]);
            Decode(WireBytes(run[n].v.sent[k])) == Ok(q.(length := TotalLen(q)))
    ensures Connected(start, run[n].v.changes, run[n].v.state)
  {
    RunInvariant(start, run, n);
    WireDecodes(run[n].v.sent[k]);
  }

  // ---- What the packets say ----------------------------------------------

  /** What every packet of a session says, whatever the moment: version 1, the configured
      multiplier, discriminator and intervals in whole microseconds (at least a second unless
      Up), no Poll, Demand, Multipoint or Control Plane Independent bit, no Echo. */
  predicate SaysConfig(cfg: Config, desired: nat, required: nat, t: Transmission) {
    && t.pkt.version == 1 && t.pkt.detectMult == cfg.detectMult && t.pkt.my == cfg.localDiscr
    && t.pkt.desiredMinTx == (if t.pkt.state == Up then desired else Max(desired, 1_000_000_000)) / 1000
    && t.pkt.requiredMinRx == required / 1000 && t.pkt.requiredMinEchoRx == 0
    && !t.pkt.poll && !t.pkt.cpi && !t.pkt.demand && !t.pkt.multipoint && t.padded == cfg.paddedPduSize
  }

  /** The configuration is still the one given, and every packet so far says it. */
  predicate Faithful(cfg: Config, desired: nat, required: nat, v: Vars) {
    && v.cfg == cfg && v.desiredMinTx == desired && v.requiredMinRx == required
    && forall k :: 0 <= k < |v.sent| ==> SaysConfig(cfg, desired, required, v.sent[k])
  }

  lemma BuiltSays(v: Vars, final: bool, auth: Option<AuthVars>)
    requires Sane(v)
    ensures SaysConfig(v.cfg, v.desiredMinTx, v.requiredMinRx,
                       Transmission(BuildPacket(v).(final := final), auth, v.cfg.paddedPduSize))
  {
  }

  lemma TransmitFaithful(v: Vars)
    requires Sane(v) && Faithful(v.cfg, v.desiredMinTx, v.requiredMinRx, v)
    ensures Faithful(v.cfg, v.desiredMinTx, v.requiredMinRx, Transmit(v))
  {
    BuiltSays(v, v.pendingFinal, v.auth);
  }

  lemma RecvFaithful(start: State, v: Vars, p: ControlPacket, wire: seq<u8>, now: nat)
    requires Inv(start, v) && p.my != 0 && p.detectMult != 0 && now > 0
    requires Faithful(v.cfg, v.desiredMinTx, v.requiredMinRx, v)
    ensures Faithful(v.cfg, v.desiredMinTx, v.requiredMinRx, OnRecv(v, p, wire, now))
  {
    AuthenticatedAuth(v.auth, p, wire);
    match Authenticate(v.auth, p, wire) {
      case None =>
      case Some(auth) =>
        var u := v.(auth := auth);
        assert DetectionTimeHot(u) == DetectionTimeHot(v);
        AcceptedOutcome(start, u, p, now);
        OutcomeFaithful(u, p, now, OnAccepted(u, p, now));
    }
  }

  lemma OutcomeFaithful(v: Vars, p: ControlPacket, now: nat, w: Vars)
    requires Sane(v) && Outcome(v, p, now, w) && Faithful(v.cfg, v.desiredMinTx, v.requiredMinRx, v)
    ensures Faithful(v.cfg, v.desiredMinTx, v.requiredMinRx, w)
  {
    if Transmits(v.state, w.state, p.poll) {
      assert BuildPacket(w).desiredMinTx == BuildPacket(v.(cachedState := w.cachedState)).desiredMinTx;
      assert SaysConfig(v.cfg, v.desiredMinTx, v.requiredMinRx, w.sent[|v.sent|]);
      assert forall k :: 0 <= k < |v.sent| ==> w.sent[k] == v.sent[k];
    }
  }

  lemma HandleFaithful(start: State, s: Timed, i: Input)
    requires TimedInv(start, s) && Faithful(s.v.cfg, s.v.desiredMinTx, s.v.requiredMinRx, s.v)
    ensures Faithful(s.v.cfg, s.v.desiredMinTx, s.v.requiredMinRx, Handle(s.v, i, s.now))
  {
    var v := s.v;
    match i {
      case Packet(wire) =>
        if Decode(wire).Ok? {
          DecodedParts(wire);
          RecvFaithful(start, v, Decode(wire).value, wire, s.now);
        }
      case TxTimer => TransmitFaithful(v);
      case DetectTimer => ExpiredClosedForm(v, s.now);
      case PathDown => PathDownFaithful(v, s.now);
      case TakeDown => AdminDownFaithful(v, s.now);
    }
  }

  lemma PathDownFaithful(v: Vars, now: nat)
    requires Sane(v) && Faithful(v.cfg, v.desiredMinTx, v.requiredMinRx, v)
    ensures Faithful(v.cfg, v.desiredMinTx, v.requiredMinRx, OnPathDown(v, now))
  {
    PathDownClosedForm(v, now);
    TransmitFaithful(ResetDetect(Moved(v.(localDiag := DIAG_PATH_DOWN), Down).(remoteDiscr := 0), now));
  }

  lemma AdminDownFaithful(v: Vars, now: nat)
    requires Sane(v) && Faithful(v.cfg, v.desiredMinTx, v.requiredMinRx, v)
    ensures Faithful(v.cfg, v.desiredMinTx, v.requiredMinRx, OnAdminDown(v, now))
  {
    AdminDownClosedForm(v, now);
    TransmitFaithful(Moved(v, AdminDown).(localDiag := DIAG_ADMIN_DOWN));
  }

  lemma NextFaithful(cfg: Config, desired: nat, required: nat, start: State, s: Timed, t: Timed)
    requires TimedInv(start, s) && Faithful(cfg, desired, required, s.v) && StepOk(s, t)
    ensures Faithful(cfg, desired, required, t.v)
  {
    if !Tick(s, t) {
      var i: Input :| Handles(s, t, i);
      HandleFaithful(start, s, i);
    }
  }

  /** Every packet of every run says the configuration that the session was created with. */
  lemma {:induction false} PacketsSayConfig(start: State, run: seq<Timed>, n: nat)
    requires IsRun(start, run) && n < |run|
    ensures Faithful(run[0].v.cfg, run[0].v.desiredMinTx, run[0].v.requiredMinRx, run[n].v)
  {
    var v := run[0].v;
    if n == 0 {
      NothingSaid(start, run[0]);
    } else {
      PacketsSayConfig(start, run, n - 1);
      RunInvariant(start, run, n - 1);
      assert StepOk(run[n - 1], run[n - 1 + 1]);
      NextFaithful(v.cfg, v.desiredMinTx, v.requiredMinRx, start, run[n - 1], run[n]);
    }
  }

  lemma NothingSaid(start: State, s: Timed)
    requires Initial(start, s)
    ensures s.v.sent == []
  {
  }

  lemma HandleNumbered(x0: u32, kind: u8, start: State, s: Timed, i: Input)
    requires TimedInv(start, s) && Numbered(x0, kind, s.v) && kind != AUTH_SIMPLE
    ensures Numbered(x0, kind, Handle(s.v, i, s.now))
  {
    match i {
      case Packet(wire) =>
        if Decode(wire).Ok? {
          DecodedParts(wire);
          RecvNumbered(x0, kind, start, s.v, Decode(wire).value, wire, s.now);
        }
      case TxTimer => TimersNumbered(x0, kind, s.v, s.now);
      case DetectTimer => TimersNumbered(x0, kind, s.v, s.now);
      case PathDown => PathDownNumbered(x0, kind, s.v, s.now);
      case TakeDown => AdminDownNumbered(x0, kind, s.v, s.now);
    }
  }

  lemma NumberedAtStart(start: State, s: Timed)
    requires Initial(start, s) && s.v.auth.Some?
    ensures Numbered(s.v.auth.value.xmitSeq, s.v.auth.value.kind, s.v)
  {
  }

  lemma NextNumbered(x0: u32, kind: u8, start: State, s: Timed, t: Timed)
    requires TimedInv(start, s) && Numbered(x0, kind, s.v) && kind != AUTH_SIMPLE && StepOk(s, t)
    ensures Numbered(x0, kind, t.v)
  {
    if !Tick(s, t) {
      var i: Input :| Handles(s, t, i);
      HandleNumbered(x0, kind, start, s, i);
    }
  }

  /** With a hash authenticator, consecutive transmit attempts of a run carry consecutive
      sequence numbers. */
  lemma {:induction false} SequenceWithoutGap(start: State, run: seq<Timed>, n: nat)
    requires IsRun(start, run) && n < |run|
    requires run[0].v.auth.Some? && run[0].v.auth.value.kind != AUTH_SIMPLE
    ensures Numbered(run[0].v.auth.value.xmitSeq, run[0].v.auth.value.kind, run[n].v)
  {
    if n == 0 {
      NumberedAtStart(start, run[0]);
    } else {
      SequenceWithoutGap(start, run, n - 1);
      RunInvariant(start, run, n - 1);
      assert StepOk(run[n - 1], run[n - 1 + 1]);
      NextNumbered(run[0].v.auth.value.xmitSeq, run[0].v.auth.value.kind, start, run[n - 1], run[n]);
    }
  }

  // ---- What does not hold, for every event -------------------------------

  /** The state and the diagnostic are those that the event finds and leaves; whether the
      event changes the state is plain from the state and, for a packet, from whether it is
      accepted and what it says. */
  ghost predicate MovesState(v: Vars, i: Input)
    requires v.auth.Some? ==> KnownType(v.auth.value.kind)
  {
    match i
    case Packet(wire) =>
      (match Decode(wire)
       case Err(_) => false
       case Ok(p) => Authenticate(v.auth, p, wire).Some? && RfcReceive(v.cachedState, v.localDiag, p.state).0 != v.cachedState)
    case TxTimer => false
    case DetectTimer => v.cachedState == Init || v.cachedState == Up
    case PathDown => v.cachedState == Init || v.cachedState == Up
    case TakeDown => v.cachedState != AdminDown
  }

  /** Where an event takes the loop's copy, and the diagnostic it sets on the way. */
  ghost function Target(v: Vars, i: Input): (State, u8)
    requires (v.auth.Some? ==> KnownType(v.auth.value.kind)) && MovesState(v, i)
  {
    match i
    case Packet(wire) => RfcReceive(v.cachedState, v.localDiag, Decode(wire).value.state)
    case DetectTimer => (Down, DIAG_TIME_EXPIRED)
    case PathDown => (Down, DIAG_PATH_DOWN)
    case TakeDown => (AdminDown, DIAG_ADMIN_DOWN)
  }

  /** The announcement that an event makes: path loss stores its diagnostic before it
      announces, every other event after. */
  ghost function Announced(v: Vars, i: Input): Change
    requires (v.auth.Some? ==> KnownType(v.auth.value.kind)) && MovesState(v, i)
  {
    Change(v.cachedState, Target(v, i).0, if i == PathDown then DIAG_PATH_DOWN else v.localDiag)
  }

  lemma PacketLog(v: Vars, p: ControlPacket, wire: seq<u8>, now: nat)
    requires v.auth.Some? ==> KnownType(v.auth.value.kind)
    ensures var w := OnRecv(v, p, wire, now);
            if Authenticate(v.auth, p, wire).Some? then LogAfter(v, p.state, w) else w == v
  {
    match Authenticate(v.auth, p, wire) {
      case None =>
      case Some(auth) =>
        AcceptedLog(v.(auth := auth), p, now);
        SameLog(v, auth, p.state, OnAccepted(v.(auth := auth), p, now));
    }
  }

  lemma SameLog(v: Vars, auth: Option<AuthVars>, received: State, w: Vars)
    requires LogAfter(v.(auth := auth), received, w)
    ensures LogAfter(v, received, w)
  {
  }

  /** What every event does to the state, the diagnostic and the announcements, whether or
      not the loop's copy of the state is current. */
  lemma EventLog(v: Vars, i: Input, now: nat)
    requires v.auth.Some? ==> KnownType(v.auth.value.kind)
    ensures var w := Handle(v, i, now);
            if MovesState(v, i)
            then (w.state, w.localDiag) == Target(v, i) && w.changes == v.changes + [Announced(v, i)]
            else w.state == v.state && w.changes == v.changes
  {
    match i {
      case Packet(wire) =>
        if Decode(wire).Ok? {
          PacketLog(v, Decode(wire).value, wire, now);
        }
      case TxTimer =>
      case DetectTimer => ExpiryLog(v, now);
      case PathDown => PathDownClosedForm(v, now);
      case TakeDown => AdminDownClosedForm(v, now);
    }
  }

  lemma ExpiryLog(v: Vars, now: nat)
    ensures var w := OnDetectTimer(v, now);
            if v.cachedState == Init || v.cachedState == Up
            then && w.state == Down && w.localDiag == DIAG_TIME_EXPIRED
                 && w.changes == v.changes + [Change(v.cachedState, Down, v.localDiag)]
            else w.state == v.state && w.changes == v.changes
  {
    ExpiredClosedForm(v, now);
  }

  /** An event announces a change exactly if it moves the state, and the announced diagnostic
      is the current one exactly if the event is a path loss or does not change it. */
  lemma AnnouncedDiagIff(v: Vars, i: Input, now: nat)
    requires v.auth.Some? ==> KnownType(v.auth.value.kind)
    ensures var w := Handle(v, i, now);
            && (w.changes != v.changes <==> MovesState(v, i))
            && (MovesState(v, i) ==>
                  && |w.changes| == |v.changes| + 1
                  && (w.changes[|v.changes|].diag == w.localDiag <==> i == PathDown || v.localDiag == Target(v, i).1))
  {
    EventLog(v, i, now);
  }

  /** AdminDown stored past the loop survives an event exactly if the event would not have
      moved the stale copy, or is itself the command to go down. */
  lemma DirectStoreSurvivesIff(start: State, v: Vars, i: Input, now: nat)
    requires Inv(start, v)
    ensures Handle(StoreAdminDown(v), i, now).state == AdminDown <==> i == TakeDown || !MovesState(v, i)
    ensures Handle(v, i, now).state != v.state <==> MovesState(v, i)
  {
    EventLog(v, i, now);
    EventLog(StoreAdminDown(v), i, now);
    StaleMoves(v, i);
  }

  /** Only the stored state and the diagnostic differ, and neither decides who moves where. */
  lemma StaleMoves(v: Vars, i: Input)
    requires v.auth.Some? ==> KnownType(v.auth.value.kind)
    ensures MovesState(StoreAdminDown(v), i) <==> MovesState(v, i)
    ensures MovesState(v, i) ==>
              && Target(StoreAdminDown(v), i).0 == Target(v, i).0
              && (Target(v, i).0 == AdminDown <==> i == TakeDown) && Target(v, i).0 != v.cachedState
  {
  }

  /** For instance: a session that has just been started and is taken down announces no
      diagnostic, although it has one by then. */
  lemma StartedAnnouncesOldDiag(s: Timed)
    requires Initial(Down, s)
    ensures var w := Handle(s.v, TakeDown, s.now);
            w.localDiag == DIAG_ADMIN_DOWN && w.changes == [Change(Down, AdminDown, DIAG_NONE)]
  {
    AdminDownClosedForm(s.v, s.now);
  }

  /** For instance: a passive session that has just been started and is taken down. */
  lemma StartedPassiveSpeaks(s: Timed)
    requires Initial(Down, s) && s.v.cfg.role == Passive
    ensures s.v.remoteDiscr == 0 && s.v.sent == [] && |Handle(s.v, TakeDown, s.now).sent| == 1
  {
    AdminDownClosedForm(s.v, s.now);
  }
}
