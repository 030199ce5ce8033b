/** Why order matters: two sessions come Up, and then an old packet arrives again. */
module Stale {
  import opened Bytes
  import opened Fsm
  import opened Codec
  import opened Auth
  import opened Session
  import opened SessionSteps
  import opened Pair
  import Convergence
  import Handshake

  // ---- Histories of module Pair ------------------------------------------

  lemma RunNext(run: seq<Sys>, s: Sys, t: Sys, e: Endpoint, h: Happening, now: nat)
    requires IsRun(Down, Down, run) && run[|run| - 1] == s && Next(s, t, e, h, now)
    ensures IsRun(Down, Down, run + [t])
  {
    var r := run + [t];
    assert Moves(s, t);
    forall i | 0 <= i < |r| - 1
      ensures Moves(r[i], r[i + 1])
    {
      if i < |run| - 1 {
        assert r[i] == run[i] && r[i + 1] == run[i + 1];
      } else {
        assert r[i] == s && r[i + 1] == t;
      }
    }
  }

  /** A history that has led to s; neither side authenticates, and a said Down first. */
  ghost predicate Comes(run: seq<Sys>, s: Sys) {
    && IsRun(Down, Down, run) && run[|run| - 1] == s && s.a.auth.None? && s.b.auth.None?
    && |s.a.sent| > 0 && s.a.sent[0].pkt.state == Down && s.a.sent[0].auth.None?
  }

  /** Without authentication an arrival brings none. */
  lemma ArrivalPlain(v: Vars, wire: seq<u8>, now: nat)
    requires Inv(Down, v) && v.auth.None? && now > 0
    ensures Deliver(v, wire, now).auth.None?
  {
    if Decode(wire).Ok? {
      DecodedParts(wire);
      AcceptedOutcome(Down, v, Decode(wire).value, now);
    }
  }

  /** What an arrival keeps of the receiver. */
  lemma ArrivalKept(v: Vars, u: Vars, k: nat, now: nat)
    requires Inv(Down, v) && Inv(Down, u) && Side(v, u) && Side(u, v) && k < |u.sent| && v.auth.None? && now > 0
    ensures Sendable(u.sent[k])
    ensures var w := Deliver(v, WireBytes(u.sent[k]), now);
            w.auth.None? && |w.sent| >= |v.sent| && (|v.sent| > 0 ==> w.sent[0] == v.sent[0])
  {
    ArrivalKeepsSide(Down, v, Down, u, k, now);
    ArrivalPlain(v, WireBytes(u.sent[k]), now);
  }

  ghost function After(s: Sys, e: Endpoint, w: Vars): Sys {
    if e == A then Sys(w, s.b) else Sys(s.a, w)
  }

  /** A packet of the other one arrives at e. */
  lemma Hearing(run: seq<Sys>, s: Sys, e: Endpoint, k: nat, now: nat, w: Vars)
    requires Comes(run, s) && now > 0 && k < |Peer(s, e).sent| && Sendable(Peer(s, e).sent[k])
    requires Local(s, e).auth.None? && w == Deliver(Local(s, e), WireBytes(Peer(s, e).sent[k]), now)
    ensures Next(s, After(s, e, w), e, Arrival(k), now) && Comes(run + [After(s, e, w)], After(s, e, w))
  {
    RunInvariant(Down, Down, run, |run| - 1);
    ArrivalKept(Local(s, e), Peer(s, e), k, now);
    RunNext(run, s, After(s, e, w), e, Arrival(k), now);
  }

  lemma HearIsArrival(v: Vars, u: Vars, now: nat)
    requires v.auth.None? && |u.sent| > 0 && Sendable(u.sent[|u.sent| - 1])
    ensures Handshake.Hear(v, u, now) == Deliver(v, WireBytes(u.sent[|u.sent| - 1]), now)
  {
  }

  lemma AllSent(run: seq<Sys>, s: Sys, e: Endpoint, k: nat)
    requires Comes(run, s) && k < |Peer(s, e).sent|
    ensures Sendable(Peer(s, e).sent[k])
  {
    RunInvariant(Down, Down, run, |run| - 1);
  }

  /** The last packet of the other one arrives at e. */
  lemma HearingLast(run: seq<Sys>, s: Sys, e: Endpoint, now: nat, w: Vars)
    requires Comes(run, s) && now > 0 && |Peer(s, e).sent| > 0 && w == Handshake.Hear(Local(s, e), Peer(s, e), now)
    ensures Comes(run + [After(s, e, w)], After(s, e, w))
  {
    var v, u := Local(s, e), Peer(s, e);
    var k := |u.sent| - 1;
    AllSent(run, s, e, k);
    assert w == Deliver(v, WireBytes(u.sent[k]), now) by {
      HearIsArrival(v, u, now);
    }
    Hearing(run, s, e, k, now, w);
  }

  lemma FirstWord(a: Vars, b: Vars) returns (run: seq<Sys>)
    requires Fresh(Down, a, 1) && Fresh(Down, b, 1) && a.cfg.role == Active && a.auth.None? && b.auth.None?
    ensures Comes(run, Sys(OnTxTimer(a), b))
  {
    FreshKeeps(Down, a, 1);
    var s, t := Sys(a, b), Sys(OnTxTimer(a), b);
    assert CreatedAt(Down, a) && CreatedAt(Down, b);
    assert Next(s, t, A, Happening.Transmission, 1);
    RunNext([s], s, t, A, Happening.Transmission, 1);
    run := [s] + [t];
  }

  /** Two sessions come Up. */
  lemma ComesUp() returns (run: seq<Sys>, s: Sys)
    ensures Comes(run, s) && s.a.state == Up && s.b.state == Up
  {
    var a := Handshake.PlainSession(1, Active, 1_000_000_000);
    var b := Handshake.PlainSession(2, Passive, 1_000_000_000);
    var c := Handshake.AtOnce(a, b, 1);
    Handshake.HandshakeCompletes(a, b, 1, 1, c, 1, 1, 1, 1);
    run := FirstWord(a, b);
    run := Answered(run, a, b, c);
    HearingLast(run, Sys(c.a2, c.b1), B, 1, c.b2);
    s := After(Sys(c.a2, c.b1), B, c.b2);
    run := run + [s];
  }

  lemma Answered(run: seq<Sys>, a: Vars, b: Vars, c: Handshake.Course4) returns (more: seq<Sys>)
    requires Comes(run, Sys(c.a1, b)) && Handshake.Handshakes(a, b, c, 1, 1, 1, 1)
    requires Fresh(Down, a, 1) && Fresh(Down, b, 1) && a.cfg.role == Active && Handshake.Compatible(a, b)
    ensures Comes(more, Sys(c.a2, c.b1))
  {
    HearingLast(run, Sys(c.a1, b), B, 1, c.b1);
    more := run + [After(Sys(c.a1, b), B, c.b1)];
    var y := Handshake.FirstTurn(a, b, 1, 1);
    var z := Handshake.FirstHeard(y, c.a1, b, c.b1, 1);
    HearingLast(more, Sys(c.a1, c.b1), A, 1, c.a2);
    more := more + [After(Sys(c.a1, c.b1), A, c.a2)];
  }

  lemma FallsBack(run: seq<Sys>, s: Sys)
    requires Comes(run, s) && s.b.state == Up
    ensures Sendable(s.a.sent[0]) && Deliver(s.b, WireBytes(s.a.sent[0]), 1).state == Down
  {
    RunInvariant(Down, Down, run, |run| - 1);
    WireDecodes(s.a.sent[0]);
    Convergence.ArrivalState(Down, s.b, Down, s.a, 0, 1);
  }

  /** When both are Up, the first packet that a ever sent arrives once more, and b is Down. */
  lemma OldPacketFallsBack() returns (run: seq<Sys>, s: Sys, t: Sys)
    ensures IsRun(Down, Down, run) && |run| > 1 && run[|run| - 2] == s && run[|run| - 1] == t
    ensures s.a.state == Up && s.b.state == Up && Next(s, t, B, Arrival(0), 1) && t.a.state == Up && t.b.state == Down
  {
    run, s := ComesUp();
    FallsBack(run, s);
    var w := Deliver(s.b, WireBytes(s.a.sent[0]), 1);
    Hearing(run, s, B, 0, 1, w);
    t := After(s, B, w);
    run := run + [t];
  }
}
