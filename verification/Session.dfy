/** The session of section 6.8 of RFC 5880 as a value: its variables, and what every
    handler of the event loop makes of them. The handlers here are the specification of
    the mutable session in module SessionObject. */
module Session {
  import opened Bytes
  import opened Fsm
  import opened Codec
  import opened Auth
  import opened Timing

  datatype Role = Active | Passive

  /** What is fixed when the session is created. */
  datatype Config = Config(localDiscr: u32, detectMult: u8, role: Role, paddedPduSize: u16)

  /** One transmit attempt: the packet as built, and the authentication variables it is
      signed with. Its bytes are WireBytes. */
  datatype Transmission = Transmission(pkt: ControlPacket, auth: Option<AuthVars>, padded: nat)

  /** A state-change notification; the diagnostic is the one at the time it is emitted. */
  datatype Change = Change(oldState: State, newState: State, diag: u8)

  datatype Vars = Vars(
    cfg: Config,
    state: State, cachedState: State, remoteState: State, localDiag: u8, remoteDiscr: u32,
    desiredMinTx: nat, requiredMinRx: nat,
    remoteMinRx: nat, remoteDesiredMinTx: nat, remoteDetectMult: u8, remoteDemandMode: bool,
    pollActive: bool, pendingFinal: bool, pendingDesiredMinTx: nat, pendingRequiredMinRx: nat,
    auth: Option<AuthVars>,
    lastPacketRecv: nat, detectDeadline: int,
    sent: seq<Transmission>, changes: seq<Change>)

  // ---- Timers ------------------------------------------------------------

  /** The two readings of the state: the atomic one behind the lock, and the event
      loop's own copy. */
  function TxIntervalLocked(v: Vars): nat {
    TxInterval(v.state, v.desiredMinTx, v.remoteMinRx)
  }

  function TxIntervalHot(v: Vars): nat {
    TxInterval(v.cachedState, v.desiredMinTx, v.remoteMinRx)
  }

  function DetectWith(v: Vars, txInterval: nat): int {
    if v.remoteDetectMult == 0 then Int64Mul(txInterval, v.cfg.detectMult)
    else DetectionTime(v.requiredMinRx, v.remoteDesiredMinTx, v.remoteDetectMult)
  }

  function DetectionTimeLocked(v: Vars): int {
    DetectWith(v, TxIntervalLocked(v))
  }

  function DetectionTimeHot(v: Vars): int {
    DetectWith(v, TxIntervalHot(v))
  }

  function ResetDetect(v: Vars, now: nat): Vars {
    v.(detectDeadline := now + DetectionTimeHot(v))
  }

  // ---- Transmission ------------------------------------------------------

  function BuildPacket(v: Vars): ControlPacket {
    ControlPacket(
      VERSION, v.localDiag, v.cachedState,
      v.pollActive, v.pendingFinal, false, false, false, false,
      v.cfg.detectMult, 0,
      v.cfg.localDiscr, v.remoteDiscr,
      ToMicros(EffectiveTx(v.cachedState, v.desiredMinTx)), ToMicros(v.requiredMinRx), 0,
      None)
  }

  function Bumped(auth: Option<AuthVars>): Option<AuthVars> {
    match auth case None => None case Some(a) => Some(NextXmit(a))
  }

  /** Building a packet consumes the pending Final and, when signing, a sequence number. */
  function AfterBuild(v: Vars): Vars {
    v.(pendingFinal := false, auth := Bumped(v.auth))
  }

  function Transmit(v: Vars): Vars {
    AfterBuild(v).(sent := v.sent + [Transmission(BuildPacket(v), v.auth, v.cfg.paddedPduSize)])
  }

  ghost function SignedPacket(t: Transmission): ControlPacket
    requires t.auth.Some? ==> KnownType(t.auth.value.kind)
  {
    match t.auth case None => t.pkt case Some(a) => Signed(a, t.pkt)
  }

  /** The bytes on the wire: the encoded packet, zero-padded when padding is configured. */
  ghost function WireBytes(t: Transmission): seq<u8>
    requires t.auth.Some? ==> KnownType(t.auth.value.kind)
  {
    var e := Encode(SignedPacket(t));
    e + Zeros(if t.padded > |e| then t.padded - |e| else 0)
  }

  // ---- Actions -----------------------------------------------------------

  function Execute(v: Vars, a: Action, now: nat): Vars {
    match a
    case SendControl => Transmit(v)
    case NotifyUp => ResetDetect(v, now)
    case NotifyDown => ResetDetect(v.(remoteDiscr := 0), now)
    case SetDiagTimeExpired => v.(localDiag := DIAG_TIME_EXPIRED)
    case SetDiagNeighborDown => v.(localDiag := DIAG_NEIGHBOR_DOWN)
    case SetDiagAdminDown => v.(localDiag := DIAG_ADMIN_DOWN)
  }

  function ExecuteAll(v: Vars, actions: seq<Action>, now: nat): Vars
    decreases |actions|
  {
    if actions == [] then v else ExecuteAll(Execute(v, actions[0], now), actions[1..], now)
  }

  function Stored(v: Vars, r: FsmResult): Vars {
    if r.changed
    then v.(state := r.newState, cachedState := r.newState,
            changes := v.changes + [Change(r.oldState, r.newState, v.localDiag)])
    else v
  }

  /** executeFSMActions: the state is stored and the change emitted before any action runs. */
  function ExecuteResult(v: Vars, r: FsmResult, now: nat): Vars {
    ExecuteAll(Stored(v, r), r.actions, now)
  }

  function ApplyFsm(v: Vars, e: Event, now: nat): Vars {
    ExecuteResult(v, ApplyEvent(v.cachedState, e), now)
  }

  // ---- Handlers ----------------------------------------------------------

  function ApplyPending(w: Vars): Vars {
    var x := if w.pendingDesiredMinTx > 0
      then w.(desiredMinTx := w.pendingDesiredMinTx, pendingDesiredMinTx := 0) else w;
    if x.pendingRequiredMinRx > 0
      then x.(requiredMinRx := x.pendingRequiredMinRx, pendingRequiredMinRx := 0) else x
  }

  function TerminatePoll(v: Vars): Vars {
    AfterBuild(ApplyPending(v.(pollActive := false)))
  }

  /** The variables taken over from an accepted packet. */
  function Learn(v: Vars, p: ControlPacket, now: nat): Vars {
    v.(lastPacketRecv := now, remoteDiscr := p.my, remoteDemandMode := p.demand,
       remoteMinRx := FromMicros(p.requiredMinRx), remoteDesiredMinTx := FromMicros(p.desiredMinTx),
       remoteDetectMult := p.detectMult, remoteState := p.state)
  }

  /** Everything an accepted packet does before it reaches the state machine. */
  function BeforeFsm(v: Vars, p: ControlPacket, now: nat): Vars {
    var a := Learn(v, p, now);
    var b := if p.final && a.pollActive then TerminatePoll(a) else a;
    var c := if p.poll then b.(pendingFinal := true) else b;
    ResetDetect(c, now)
  }

  function AnswerPoll(v: Vars): Vars {
    if v.pendingFinal then Transmit(v) else v
  }

  function OnAccepted(v: Vars, p: ControlPacket, now: nat): Vars {
    AnswerPoll(ApplyFsm(BeforeFsm(v, p, now), RecvStateToEvent(p.state), now))
  }

  /** The authentication variables after a packet, or None if it is refused. */
  function Authenticate(auth: Option<AuthVars>, p: ControlPacket, wire: seq<u8>): Option<Option<AuthVars>>
    requires auth.Some? ==> KnownType(auth.value.kind)
  {
    if p.authPresent != auth.Some? then None
    else if auth.None? then Some(None)
    else match Verify(auth.value, p, wire)
      case Err(_) => None
      case Ok(a) => Some(Some(a))
  }

  /** handleRecvPacket. */
  function OnRecv(v: Vars, p: ControlPacket, wire: seq<u8>, now: nat): Vars
    requires v.auth.Some? ==> KnownType(v.auth.value.kind)
  {
    match Authenticate(v.auth, p, wire)
    case None => v
    case Some(auth) => OnAccepted(v.(auth := auth), p, now)
  }

  /** handleTxTimer: a passive session stays silent until it has heard its peer, and no
      session sends periodically to a peer that asked for no packets. */
  function OnTxTimer(v: Vars): Vars {
    if v.cfg.role == Passive && v.remoteDiscr == 0 then v
    else if v.remoteMinRx == 0 then v
    else Transmit(v)
  }

  /** maybeResetAuthSeqKnown. */
  function ForgetAuthSeq(v: Vars, now: nat): Vars {
    if v.auth.Some? && v.auth.value.known && v.lastPacketRecv != 0 && now - v.lastPacketRecv >= 2 * DetectionTimeHot(v)
    then v.(auth := Some(v.auth.value.(known := false)))
    else v
  }

  /** handleDetectTimer. */
  function OnDetectTimer(v: Vars, now: nat): Vars {
    var w := ForgetAuthSeq(v, now);
    if w.cachedState == Init || w.cachedState == Up then ApplyFsm(w, TimerExpired, now)
    else ResetDetect(w, now)
  }

  /** handleAdminDown. */
  function OnAdminDown(v: Vars, now: nat): Vars {
    var r := ApplyEvent(v.cachedState, LocalAdminDown);
    if !r.changed then v.(localDiag := DIAG_ADMIN_DOWN)
    else ExecuteResult(v, r.(actions := r.actions + [SendControl]), now)
  }

  /** handlePathDown. */
  function OnPathDown(v: Vars, now: nat): Vars {
    var w := v.(localDiag := DIAG_PATH_DOWN);
    if v.cachedState == Down || v.cachedState == AdminDown then w
    else ExecuteResult(w, FsmResult(v.cachedState, Down, [NotifyDown, SendControl], true), now)
  }

  // ---- Creation ----------------------------------------------------------

  predicate ValidConfig(cfg: Config, desired: int, required: int, auth: Option<AuthVars>) {
    && cfg.localDiscr != 0 && cfg.detectMult >= 1
    && 0 < desired <= MAX_WIRE_INTERVAL && 0 < required <= MAX_WIRE_INTERVAL
    && (cfg.paddedPduSize != 0 ==> HEADER_SIZE <= cfg.paddedPduSize <= 9000)
    && (auth.Some? ==> ValidAuth(auth.value) && !auth.value.known)
  }

  /** NewSession: Down, nothing heard, the cached packet built once. */
  function NewVars(cfg: Config, desired: nat, required: nat, auth: Option<AuthVars>): Vars {
    AfterBuild(
      Vars(cfg, Down, Down, Down, DIAG_NONE, 0, desired, required,
           MICROSECOND, 0, 0, false, false, false, 0, 0, auth, 0, 0, [], []))
  }

  /** SetAdminDown on a session whose loop is not running. */
  function StoreAdminDown(v: Vars): Vars {
    v.(localDiag := DIAG_ADMIN_DOWN, state := AdminDown)
  }

  /** The start of Run: the loop's copy of the state is taken and the timer armed. */
  function Start(v: Vars, now: nat): Vars {
    ResetDetect(v.(cachedState := v.state), now)
  }
}
