/** Unaffiliated echo sessions (section 3 of RFC 9747): a session sends packets that its
    peer forwards back, and is Up while they return. */
module Echo {
  import opened Bytes
  import opened Fsm
  import opened Codec
  import opened CodecBuffer
  import opened Timing
  import opened Session
  import opened SessionSteps

  datatype EchoVars = EchoVars(
    discr: u32, mult: u8, txInterval: nat,
    state: State, diag: u8, lastEchoRecv: nat, detectDeadline: int,
    sent: seq<ControlPacket>, changes: seq<Change>)

  function EchoDetection(v: EchoVars): int {
    Int64Mul(v.txInterval, v.mult)
  }

  function EchoPacket(v: EchoVars): ControlPacket {
    ControlPacket(VERSION, v.diag, v.state, false, false, false, false, false, false, v.mult, 0,
                  v.discr, if v.state == Up then v.discr else 0, ToMicros(v.txInterval), 0, 0, None)
  }

  function SendEcho(v: EchoVars): EchoVars {
    v.(sent := v.sent + [EchoPacket(v)])
  }

  /** transitionTo: unlike a control session, the new diagnostic goes into the notification. */
  function TransitionTo(v: EchoVars, s: State, diag: u8): EchoVars {
    if v.state == s then v else v.(state := s, diag := diag, changes := v.changes + [Change(v.state, s, diag)])
  }

  function OnEchoRecv(v: EchoVars, now: nat): EchoVars {
    var w := v.(lastEchoRecv := now, detectDeadline := now + EchoDetection(v));
    if w.state == Down then TransitionTo(w, Up, DIAG_NONE) else w
  }

  function OnEchoTimeout(v: EchoVars, now: nat): EchoVars {
    var w := if v.state == Up then TransitionTo(v, Down, DIAG_ECHO_FAILED) else v;
    w.(detectDeadline := now + EchoDetection(w))
  }

  /** validateEchoConfig, the session at creation, and the start of its timer. */
  predicate Started(v: EchoVars, now: nat) {
    && v.discr != 0 && v.mult >= 1 && v.txInterval > 0
    && v == EchoVars(v.discr, v.mult, v.txInterval, Down, DIAG_NONE, 0, now + EchoDetection(v), [], [])
  }

  // ---- Runs --------------------------------------------------------------

  datatype EchoTimed = EchoTimed(v: EchoVars, now: nat)

  predicate Next(s: EchoTimed, t: EchoTimed) {
    || (t == s.(now := t.now) && s.now <= t.now <= s.v.detectDeadline)
    || t == EchoTimed(SendEcho(s.v), s.now)
    || t == EchoTimed(OnEchoRecv(s.v, s.now), s.now)
    || (s.now == s.v.detectDeadline && t == EchoTimed(OnEchoTimeout(s.v, s.now), s.now))
  }

  ghost predicate IsRun(run: seq<EchoTimed>) {
    && |run| > 0 && run[0].now > 0 && Started(run[0].v, run[0].now)
    && forall i :: 0 <= i < |run| - 1 ==> Next(run[i], run[i + 1])
  }

  /** Nothing bounds the configured interval, so the product may leave 64 bits. */
  lemma DetectionExactIff(v: EchoVars)
    requires v.txInterval < TWO63
    ensures EchoDetection(v) == v.txInterval * v.mult <==> v.txInterval * v.mult < TWO63
  {
  }

  /** For instance: twice 2^62 nanoseconds come out negative. */
  lemma DetectionOverflows(v: EchoVars)
    requires v.txInterval == 0x4000_0000_0000_0000 && v.mult == 2
    ensures EchoDetection(v) == -TWO63
  {
  }

  /** An echo packet: version 1, no flag, the session's multiplier, discriminator and interval in
      microseconds, cut to 32 bits; it names itself as the peer while Up, and asks for nothing. */
  predicate EchoSays(v: EchoVars, p: ControlPacket) {
    && p.version == 1 && p.my == v.discr && p.detectMult == v.mult && p.auth.None?
    && !p.poll && !p.final && !p.cpi && !p.authPresent && !p.demand && !p.multipoint
    && p.your == (if p.state == Up then v.discr else 0) && p.desiredMinTx == v.txInterval / 1000 % 0x1_0000_0000
    && p.requiredMinRx == 0 && p.requiredMinEchoRx == 0
    && ((p.state == Up && p.diag == 0) || (p.state == Down && (p.diag == 0 || p.diag == 2)))
  }

  predicate EchoInv(v: EchoVars) {
    && v.discr != 0 && v.mult > 0 && v.txInterval > 0
    && Connected(Down, v.changes, v.state)
    && (v.state == Up || v.state == Down)
    && v.diag == (if v.state == Up || v.changes == [] then 0 else 2)
    && forall i :: 0 <= i < |v.sent| ==> WellFormed(v.sent[i]) && EchoSays(v, v.sent[i])
  }

  /** An Up session has heard an echo, and its timer is due one Detection Time later. */
  predicate EchoTiming(s: EchoTimed) {
    && s.now <= s.v.detectDeadline
    && (s.v.state == Up ==> 0 < s.v.lastEchoRecv <= s.now && s.v.detectDeadline == s.v.lastEchoRecv + EchoDetection(s.v))
  }

  lemma SendKeeps(v: EchoVars)
    requires EchoInv(v)
    ensures EchoInv(SendEcho(v))
  {
    assert WellFormed(EchoPacket(v)) && EchoSays(v, EchoPacket(v));
  }

  /** Moving changes nothing that a packet says for good. */
  lemma MovesKeep(v: EchoVars, s: State, diag: u8, w: EchoVars)
    requires EchoInv(v) && w == TransitionTo(v, s, diag).(lastEchoRecv := w.lastEchoRecv, detectDeadline := w.detectDeadline)
    requires (s == Up && diag == 0) || (s == Down && diag == 2)
    ensures EchoInv(w)
  {
    Reconnected(v, s, diag);
    forall i | 0 <= i < |v.sent|
      ensures EchoSays(w, v.sent[i])
    {
      assert EchoSays(v, v.sent[i]);
    }
  }

  lemma EventsKeep(s: EchoTimed)
    requires EchoInv(s.v)
    ensures EchoInv(SendEcho(s.v)) && EchoInv(OnEchoRecv(s.v, s.now)) && EchoInv(OnEchoTimeout(s.v, s.now))
  {
    SendKeeps(s.v);
    ReturnKeeps(s.v, s.now);
    TimeoutKeeps(s.v, s.now);
  }

  lemma ReturnKeeps(v: EchoVars, now: nat)
    requires EchoInv(v)
    ensures EchoInv(OnEchoRecv(v, now))
  {
    MovesKeep(v, Up, 0, OnEchoRecv(v, now));
  }

  lemma TimeoutKeeps(v: EchoVars, now: nat)
    requires EchoInv(v)
    ensures EchoInv(OnEchoTimeout(v, now))
  {
    StaysPut(v, OnEchoTimeout(v, now));
    if v.state == Up {
      MovesKeep(v, Down, 2, OnEchoTimeout(v, now));
    }
  }

  lemma StaysPut(v: EchoVars, w: EchoVars)
    requires EchoInv(v)
    ensures w == v.(detectDeadline := w.detectDeadline) ==> EchoInv(w)
  {
  }

  lemma Reconnected(v: EchoVars, s: State, diag: u8)
    requires Connected(Down, v.changes, v.state)
    ensures Connected(Down, TransitionTo(v, s, diag).changes, TransitionTo(v, s, diag).state)
  {
    var c := v.changes + [Change(v.state, s, diag)];
    assert c[..|c| - 1] == v.changes;
  }

  lemma NextKeeps(s: EchoTimed, t: EchoTimed)
    requires EchoInv(s.v) && Next(s, t)
    ensures EchoInv(t.v) && t.v.discr == s.v.discr && EchoDetection(t.v) == EchoDetection(s.v)
    ensures t.v.mult == s.v.mult && t.v.txInterval == s.v.txInterval
  {
    EventsKeep(s);
  }

  /** In every run the notifications form one path from Down, the diagnostic tells why the
      session is where it is, and every packet sent names the session. */
  lemma {:induction false} EchoRunInvariant(run: seq<EchoTimed>, n: nat)
    requires IsRun(run) && n < |run|
    ensures EchoInv(run[n].v) && run[n].v.discr == run[0].v.discr && EchoDetection(run[n].v) == EchoDetection(run[0].v)
  {
    if n > 0 {
      EchoRunInvariant(run, n - 1);
      assert Next(run[n - 1], run[n - 1 + 1]);
      NextKeeps(run[n - 1], run[n]);
    }
  }

  lemma {:induction false} EchoTimingHolds(run: seq<EchoTimed>, n: nat)
    requires IsRun(run) && n < |run| && EchoDetection(run[0].v) > 0
    ensures run[n].now > 0 && EchoTiming(run[n])
  {
    if n > 0 {
      EchoTimingHolds(run, n - 1);
      EchoRunInvariant(run, n - 1);
      assert Next(run[n - 1], run[n - 1 + 1]);
      NextKeepsTiming(run[n - 1], run[n], EchoDetection(run[n - 1].v));
    }
  }

  /** If the Detection Time fits 64 bits, Up means in every run that an echo came back
      within the last Detection Time. */
  lemma EchoSilenceIsBounded(run: seq<EchoTimed>, n: nat)
    requires IsRun(run) && n < |run| && run[0].v.txInterval * run[0].v.mult < TWO63
    ensures run[n].v.state == Up ==> run[n].now <= run[n].v.lastEchoRecv + run[0].v.txInterval * run[0].v.mult
  {
    Int64MulExact(run[0].v.txInterval, run[0].v.mult);
    EchoTimingHolds(run, n);
    EchoRunInvariant(run, n);
  }

  lemma NextKeepsTiming(s: EchoTimed, t: EchoTimed, d: int)
    requires s.now > 0 && EchoTiming(s) && Next(s, t) && EchoDetection(s.v) == d > 0
    requires s.v.state == Up || s.v.state == Down
    ensures t.now > 0 && EchoTiming(t)
  {
  }

  /** Every packet an echo session ever sends decodes, whatever trails it, and carries the
      session's discriminator, by which a returned echo is routed. */
  lemma EchoPacketsDecode(v: EchoVars, i: nat, tail: seq<u8>)
    requires EchoInv(v) && i < |v.sent|
    ensures var r := Decode(Encode(v.sent[i]) + tail); r.Ok? && r.value.my == v.discr
  {
    RoundTrip(v.sent[i], tail);
  }

  /** An echo brings the session Up; a timeout takes it Down for want of echoes, with diagnostic
      2; each change of state is announced with the diagnostic it sets; and a packet sent says
      where the session stands. */
  lemma EchoTransitions(v: EchoVars, now: nat)
    requires EchoInv(v)
    ensures var w := OnEchoRecv(v, now);
            && w.state == Up && w.diag == 0 && w.lastEchoRecv == now
            && w.changes == if v.state == Up then v.changes else v.changes + [Change(Down, Up, 0)]
    ensures var w := OnEchoTimeout(v, now);
            && w.state == Down && (v.state == Up ==> w.diag == 2)
            && w.changes == if v.state == Down then v.changes else v.changes + [Change(Up, Down, 2)]
    ensures var w := SendEcho(v);
            && |w.sent| == |v.sent| + 1 && w.sent[..|v.sent|] == v.sent && w == v.(sent := w.sent)
            && w.sent[|v.sent|].state == v.state && w.sent[|v.sent|].diag == v.diag
  {
  }

  // ---- The session as an object ------------------------------------------

  const ECHO_CHANNEL_SIZE: nat := 16

  class EchoSession {
    const discr: u32
    const mult: u8
    const txInterval: nat
    const cachedPacket: array<u8>
    var state: State
    var diag: u8
    var lastEchoRecv: nat
    var detectDeadline: int
    var changes: seq<Change>
    var wires: seq<seq<u8>>
    /** Signals of returned echoes that wait in the channel. */
    var pending: nat
    ghost var sent: seq<ControlPacket>

    ghost function View(): EchoVars
      reads this
    {
      EchoVars(discr, mult, txInterval, state, diag, lastEchoRecv, detectDeadline, sent, changes)
    }

    /** The bytes handed over are those of the packets sent, and the invariant of every
        history holds. */
    ghost predicate Valid()
      reads this
    {
      && cachedPacket.Length >= MAX_PACKET_SIZE && EchoInv(View()) && pending <= ECHO_CHANNEL_SIZE
      && |wires| == |sent| && forall i :: 0 <= i < |sent| ==> wires[i] == Encode(sent[i])
    }

    constructor (discr: u32, mult: u8, txInterval: nat)
      requires discr != 0 && mult >= 1 && txInterval > 0
      ensures Valid() && fresh(cachedPacket)
      ensures View() == EchoVars(discr, mult, txInterval, Down, DIAG_NONE, 0, 0, [], []) && pending == 0
    {
      this.discr, this.mult, this.txInterval := discr, mult, txInterval;
      cachedPacket := new u8[MAX_PACKET_SIZE](_ => 0);
      state, diag, lastEchoRecv, detectDeadline := Down, DIAG_NONE, 0, 0;
      changes, wires, sent, pending := [], [], [], 0;
      new;
      RebuildCachedPacket();
    }

    method RebuildCachedPacket()
      requires cachedPacket.Length >= MAX_PACKET_SIZE
      modifies cachedPacket
      ensures var e := Encode(EchoPacket(View()));
              3 < |e| <= cachedPacket.Length && cachedPacket[..|e|] == e && cachedPacket[3] == |e|
    {
      var your := 0;
      if state == Up {
        your := discr;
      }
      var p := ControlPacket(VERSION, diag, state, false, false, false, false, false, false, mult, 0,
                             discr, your, ToMicros(txInterval), 0, 0, None);
      EncodedLength(p);
      BufferHoldsEncoding(p, cachedPacket[..]);
      var _ := Marshal(p, cachedPacket);
      assert cachedPacket[..][3] == Encode(p)[3];
    }

    method Send()
      requires Valid()
      modifies cachedPacket, this`wires, this`sent
      ensures Valid() && View() == SendEcho(old(View()))
    {
      EventsKeep(EchoTimed(View(), 0));
      RebuildCachedPacket();
      ghost var p := EchoPacket(View());
      wires := wires + [cachedPacket[..cachedPacket[3]]];
      sent := sent + [p];
    }

    method TransitionState(newState: State, d: u8)
      modifies this`state, this`diag, this`changes
      ensures View() == TransitionTo(old(View()), newState, d)
    {
      var oldState := state;
      if oldState == newState {
        return;
      }
      state := newState;
      diag := d;
      changes := changes + [Change(oldState, newState, d)];
    }

    /** RecvEcho: a signal for the loop; one too many for the channel is dropped. */
    method RecvEcho()
      requires Valid()
      modifies this`pending
      ensures Valid() && View() == old(View())
      ensures pending == if old(pending) == 16 then old(pending) else old(pending) + 1
    {
      if pending < ECHO_CHANNEL_SIZE {
        pending := pending + 1;
      }
    }

    /** The loop takes a signal. */
    method TakeSignal(now: nat)
      requires Valid() && pending > 0
      modifies this
      ensures Valid() && View() == OnEchoRecv(old(View()), now) && pending == old(pending) - 1
    {
      pending := pending - 1;
      HandleEchoRecv(now);
    }

    method HandleEchoRecv(now: nat)
      requires Valid()
      modifies this
      ensures Valid() && View() == OnEchoRecv(old(View()), now) && pending == old(pending)
    {
      ghost var v := View();
      lastEchoRecv := now;
      detectDeadline := now + Int64Mul(txInterval, mult);
      if state == Down {
        TransitionState(Up, DIAG_NONE);
      }
      assert View() == OnEchoRecv(v, now);
      ReturnKeeps(v, now);
    }

    method HandleDetectTimeout(now: nat)
      requires Valid()
      modifies this
      ensures Valid() && View() == OnEchoTimeout(old(View()), now)
    {
      ghost var v := View();
      if state == Up {
        TransitionState(Down, DIAG_ECHO_FAILED);
      }
      detectDeadline := now + Int64Mul(txInterval, mult);
      assert View() == OnEchoTimeout(v, now);
      TimeoutKeeps(v, now);
    }
  }

  datatype EchoError = InvalidDiscriminator | InvalidDetectMult | InvalidTxInterval | InvalidPeerAddr

  /** NewEchoSession: each objection in the order of the checks, or a session that is ready
      to be started. */
  method NewEchoSession(discr: u32, mult: u8, txInterval: int, validPeer: bool) returns (r: Result<EchoSession, EchoError>)
    ensures r.Ok? <==> discr != 0 && mult >= 1 && txInterval > 0 && validPeer
    ensures r == Err(InvalidDiscriminator) <==> discr == 0
    ensures r == Err(InvalidDetectMult) <==> discr != 0 && mult < 1
    ensures r == Err(InvalidTxInterval) <==> discr != 0 && mult >= 1 && txInterval <= 0
    ensures r == Err(InvalidPeerAddr) <==> discr != 0 && mult >= 1 && txInterval > 0 && !validPeer
    ensures r.Ok? ==> && fresh(r.value) && r.value.Valid()
                      && r.value.View() == EchoVars(discr, mult, txInterval, Down, DIAG_NONE, 0, 0, [], [])
  {
    if discr == 0 {
      return Err(InvalidDiscriminator);
    }
    if mult < 1 {
      return Err(InvalidDetectMult);
    }
    if txInterval <= 0 {
      return Err(InvalidTxInterval);
    }
    if !validPeer {
      return Err(InvalidPeerAddr);
    }
    var es := new EchoSession(discr, mult, txInterval);
    return Ok(es);
  }
}
