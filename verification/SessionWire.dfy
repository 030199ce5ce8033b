/** A session seen from the wire: the bytes of everything it ever sends, and what the bytes
    must hold for it to react to them. */
module SessionWire {
  import opened Bytes
  import opened Fsm
  import opened Codec
  import opened Auth
  import opened Session
  import opened SessionSteps
  import opened SessionRuns
  import opened WireFormat

  // ---- What is sent ------------------------------------------------------

  /** A transmission is the layout of its signed packet, zero-padded to the configured size. */
  lemma WireBytesAre(t: Transmission)
    requires Sendable(t)
    ensures var b := WireBytes(t);
            && LaidOut(b, SignedPacket(t)) && |b| == Max(t.padded, b[3])
            && forall i :: b[3] <= i < |b| ==> b[i] == 0
  {
    WireDecodes(t);
    var e := Encode(SignedPacket(t));
    var pad := Zeros(if t.padded > |e| then t.padded - |e| else 0);
    EncodeWrites(SignedPacket(t), pad);
    PaddedWith(e, pad, t.padded);
  }

  lemma PaddedWith(e: seq<u8>, pad: seq<u8>, size: nat)
    requires pad == Zeros(if size > |e| then size - |e| else 0)
    ensures |e + pad| == Max(size, |e|) && forall i :: |e| <= i < |e + pad| ==> (e + pad)[i] == 0
  {
  }

  /** Every packet of every run, byte for byte: version 1; of the flags only Final and
      Authentication Present are ever set; the configured multiplier and discriminator; the
      configured intervals in microseconds, at least a second unless Up; no Echo; zero-padded to
      the configured size. */
  lemma TransmissionBytes(start: State, run: seq<Timed>, n: nat, k: nat)
    requires IsRun(start, run) && n < |run| && k < |run[n].v.sent|
    ensures Sendable(run[n].v.sent[k])
    ensures var v, t := run[0].v, run[n].v.sent[k];
            var b := WireBytes(t);
            && |b| >= 24 && |b| == Max(v.cfg.paddedPduSize, b[3]) && (forall i :: b[3] <= i < |b| ==> b[i] == 0)
            && b[0] == 32 + t.pkt.diag && b[1] == StateBits(t.pkt.state) + Bit(t.pkt.final, 16) + Bit(t.auth.Some?, 4)
            && b[2] == v.cfg.detectMult && Word(b, 4) == v.cfg.localDiscr && Word(b, 8) == t.pkt.your
            && Word(b, 12) == (if t.pkt.state == Up then v.desiredMinTx else Max(v.desiredMinTx, 1_000_000_000)) / 1000
            && Word(b, 16) == v.requiredMinRx / 1000 && Word(b, 20) == 0
  {
    RunInvariant(start, run, n);
    PacketsSayConfig(start, run, n);
    var v, t := run[0].v, run[n].v.sent[k];
    WireBytesAre(t);
    WireDecodes(t);
    SaidBytes(v.cfg, v.desiredMinTx, v.requiredMinRx, t, SignedPacket(t), WireBytes(t));
  }

  lemma SaidBytes(cfg: Config, desired: nat, required: nat, t: Transmission, q: ControlPacket, b: seq<u8>)
    requires SaysConfig(cfg, desired, required, t) && LaidOut(b, q)
    requires q.(authPresent := false, auth := None) == t.pkt && q.authPresent == t.auth.Some?
    ensures b[0] == 32 + t.pkt.diag && b[1] == StateBits(t.pkt.state) + Bit(t.pkt.final, 16) + Bit(t.auth.Some?, 4)
    ensures b[2] == cfg.detectMult && Word(b, 4) == cfg.localDiscr && Word(b, 8) == t.pkt.your
    ensures Word(b, 12) == (if t.pkt.state == Up then desired else Max(desired, 1_000_000_000)) / 1000
    ensures Word(b, 16) == required / 1000 && Word(b, 20) == 0
  {
    var r := q.(authPresent := false, auth := None);
    assert q.version == r.version && q.diag == r.diag && q.state == r.state && q.poll == r.poll && q.final == r.final;
    assert q.cpi == r.cpi && q.demand == r.demand && q.multipoint == r.multipoint && q.detectMult == r.detectMult;
    assert q.my == r.my && q.your == r.your && q.desiredMinTx == r.desiredMinTx;
    assert q.requiredMinRx == r.requiredMinRx && q.requiredMinEchoRx == r.requiredMinEchoRx;
  }

  // ---- What moves a session ----------------------------------------------

  /** The bytes prove that their sender holds a key of the store: the password itself, or the
      digest of the bytes with the secret in its place. */
  predicate ProvesKey(a: AuthVars, wire: seq<u8>) {
    && |wire| > 27 && wire[24] == a.kind && wire[26] in a.store.keys
    && var secret := a.store.keys[wire[26]].secret;
       if a.kind == 1
       then wire[25] == (3 + |secret|) % 256 && |wire| >= 27 + |secret| && wire[27..27 + |secret|] == secret
       else
         var size := if a.kind <= 3 then 16 else 20;
         |wire| >= 32 + size && wire[32..32 + size] == Hash(size, KeyOver(wire, secret, size))
  }

  lemma AcceptedProvesKey(a: AuthVars, p: ControlPacket, wire: seq<u8>)
    requires KnownType(a.kind) && Decode(wire) == Ok(p) && Verify(a, p, wire).Ok?
    ensures ProvesKey(a, wire)
  {
    DecodeReads(wire);
    DecodedParts(wire);
    if a.kind == 1 {
      PasswordAcceptedIff(a, p, wire);
    } else {
      HashAcceptedIff(a, p, wire);
      var s := p.auth.value;
      assert PadKey(s.digest, |s.digest|) == s.digest;
    }
  }

  /** A session with an authenticator is moved by a packet, in whatever respect, only if the
      packet proves that its sender holds one of the session's keys. */
  lemma MovedOnlyByKeyHolder(v: Vars, wire: seq<u8>, now: nat)
    requires v.auth.Some? && KnownType(v.auth.value.kind) && Handle(v, Packet(wire), now) != v
    ensures ProvesKey(v.auth.value, wire)
  {
    var p := Decode(wire).value;
    assert Authenticate(v.auth, p, wire).Some?;
    AcceptedProvesKey(v.auth.value, p, wire);
  }

  /** One without an authenticator is moved only by packets without a section. */
  lemma MovedOnlyUnsigned(v: Vars, wire: seq<u8>, now: nat)
    requires v.auth.None? && Handle(v, Packet(wire), now) != v
    ensures |wire| >= 24 && wire[1] / 4 % 2 == 0
  {
    DecodeReads(wire);
    FlagBits(wire[1], Decode(wire).value);
  }
}
