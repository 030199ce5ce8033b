/** What meticulous authentication gives a whole session: between two moments at which the
    sequence is forgotten, no datagram is accepted twice. */
module Replay {
  import opened Bytes
  import opened Fsm
  import opened Codec
  import opened Auth
  import opened AuthRuns
  import opened Session
  import opened SessionSteps
  import opened SessionRuns

  /** A history together with what happened: None stands for time passing. */
  ghost predicate Follows(start: State, run: seq<Timed>, doings: seq<Option<Input>>) {
    && |run| == |doings| + 1 && Initial(start, run[0])
    && forall i :: 0 <= i < |doings| ==> Does(run[i], run[i + 1], doings[i])
  }

  ghost predicate Does(s: Timed, t: Timed, d: Option<Input>) {
    && (s.v.auth.Some? ==> KnownType(s.v.auth.value.kind))
    && match d case None => Tick(s, t) case Some(i) => Handles(s, t, i)
  }

  lemma FollowsIsRun(start: State, run: seq<Timed>, doings: seq<Option<Input>>)
    requires Follows(start, run, doings)
    ensures IsRun(start, run)
  {
    forall i | 0 <= i < |run| - 1
      ensures StepOk(run[i], run[i + 1])
    {
      assert Does(run[i], run[i + 1], doings[i]);
    }
  }

  /** The session accepts the datagram that arrives. */
  ghost predicate AcceptsAt(v: Vars, d: Option<Input>)
    requires v.auth.Some? ==> KnownType(v.auth.value.kind)
  {
    d.Some? && d.value.Packet? && Decode(d.value.wire).Ok? && Authenticate(v.auth, Decode(d.value.wire).value, d.value.wire).Some?
  }

  /** The datagrams accepted from step m on, before step n. */
  ghost function AcceptedWires(run: seq<Timed>, doings: seq<Option<Input>>, m: nat, n: nat): seq<seq<u8>>
    requires m <= n <= |doings| <= |run|
    requires forall i :: 0 <= i < |doings| ==> (run[i].v.auth.Some? ==> KnownType(run[i].v.auth.value.kind))
    decreases n - m
  {
    if m == n then []
    else (if AcceptsAt(run[m].v, doings[m]) then [doings[m].value.wire] else []) + AcceptedWires(run, doings, m + 1, n)
  }

  /** What a session knows as a receiver. */
  function RecvPart(v: Vars): AuthVars
    requires v.auth.Some?
  {
    v.auth.value.(xmitSeq := 0)
  }

  // ---- One event ---------------------------------------------------------

  predicate KeepsRecvPart(v: Vars, w: Vars) {
    w.auth == v.auth || w.auth == Bumped(v.auth)
  }

  lemma OwnEventsKeep(v: Vars, now: nat)
    requires SeqKnown(v)
    ensures KeepsRecvPart(v, OnTxTimer(v)) && KeepsRecvPart(v, OnPathDown(v, now)) && KeepsRecvPart(v, OnAdminDown(v, now))
  {
    PathDownClosedForm(v, now);
    AdminDownClosedForm(v, now);
  }

  lemma ExpiryKeeps(v: Vars, now: nat)
    requires SeqKnown(v) && SeqKnown(OnDetectTimer(v, now))
    ensures KeepsRecvPart(v, OnDetectTimer(v, now))
  {
    ExpiredClosedForm(v, now);
  }

  lemma PacketMoves(start: State, v: Vars, p: ControlPacket, wire: seq<u8>, now: nat)
    requires Inv(start, v) && SeqKnown(v) && now > 0 && Decode(wire) == Ok(p)
    ensures var w := OnRecv(v, p, wire, now);
            if Authenticate(v.auth, p, wire).Some?
            then w.auth.Some? && Receive(RecvPart(v), wire) == Some(RecvPart(w))
            else w == v
  {
    DecodedParts(wire);
    AuthenticatedAuth(v.auth, p, wire);
    match Authenticate(v.auth, p, wire) {
      case None =>
      case Some(auth) =>
        var x := v.(auth := auth);
        assert DetectionTimeHot(x) == DetectionTimeHot(v);
        AcceptedOutcome(start, x, p, now);
        ReceiveIgnoresXmit(v.auth.value, 0, wire);
    }
  }

  /** One step while the sequence stays known: an accepted datagram moves the receiver as
      the verifier says, and nothing else moves it. */
  lemma StepMoves(start: State, s: Timed, t: Timed, d: Option<Input>)
    requires TimedInv(start, s) && Does(s, t, d) && SeqKnown(s.v) && SeqKnown(t.v)
    ensures if AcceptsAt(s.v, d) then Receive(RecvPart(s.v), d.value.wire) == Some(RecvPart(t.v))
            else RecvPart(t.v) == RecvPart(s.v)
  {
    if d.Some? {
      match d.value {
        case Packet(wire) =>
          if Decode(wire).Ok? {
            PacketMoves(start, s.v, Decode(wire).value, wire, s.now);
          }
        case DetectTimer => ExpiryKeeps(s.v, s.now);
        case _ => OwnEventsKeep(s.v, s.now);
      }
    }
  }

  // ---- A stretch of a history --------------------------------------------

  /** The sequence is known from m to n. */
  predicate KnownFrom(run: seq<Timed>, m: nat, n: nat)
    requires n < |run|
  {
    forall k :: m <= k <= n ==> SeqKnown(run[k].v)
  }

  lemma KindsKnown(start: State, run: seq<Timed>, doings: seq<Option<Input>>)
    requires Follows(start, run, doings)
    ensures forall i :: 0 <= i < |doings| ==> (run[i].v.auth.Some? ==> KnownType(run[i].v.auth.value.kind))
  {
    forall i | 0 <= i < |doings|
      ensures run[i].v.auth.Some? ==> KnownType(run[i].v.auth.value.kind)
    {
      assert Does(run[i], run[i + 1], doings[i]);
    }
  }

  lemma {:induction false} StretchAccepted(start: State, run: seq<Timed>, doings: seq<Option<Input>>, m: nat, n: nat)
    requires Follows(start, run, doings) && m <= n <= |doings| && KnownFrom(run, m, n)
    requires forall i :: 0 <= i < |doings| ==> (run[i].v.auth.Some? ==> KnownType(run[i].v.auth.value.kind))
    ensures KnownType(RecvPart(run[m].v).kind) && AllAccepted(RecvPart(run[m].v), AcceptedWires(run, doings, m, n))
    decreases n - m
  {
    FollowsIsRun(start, run, doings);
    RunInvariant(start, run, m);
    if m < n {
      StretchAccepted(start, run, doings, m + 1, n);
      assert Does(run[m], run[m + 1], doings[m]);
      StepMoves(start, run[m], run[m + 1], doings[m]);
      var rest := AcceptedWires(run, doings, m + 1, n);
      if AcceptsAt(run[m].v, doings[m]) {
        assert ([doings[m].value.wire] + rest)[1..] == rest;
      } else {
        assert [] + rest == rest;
      }
    }
  }

  /** In every history, while bfd.AuthSeqKnown stays set, a meticulous session accepts no
      datagram and no sequence number twice, nor the number it had accepted before, unless
      the numbers go all the way round; fewer than 2^32/765 datagrams cannot do that. */
  lemma SessionNeverReplays(start: State, run: seq<Timed>, doings: seq<Option<Input>>, m: nat, n: nat) returns (ws: seq<seq<u8>>)
    requires Follows(start, run, doings) && m <= n <= |doings| && KnownFrom(run, m, n)
    requires IsMeticulous(run[m].v.auth.value.kind)
    ensures forall i :: 0 <= i < |doings| ==> (run[i].v.auth.Some? ==> KnownType(run[i].v.auth.value.kind))
    ensures ws == AcceptedWires(run, doings, m, n)
    ensures Climb(run[m].v.auth.value.rcvSeq, Numbers(ws)) <= 765 * |ws|
    ensures Climb(run[m].v.auth.value.rcvSeq, Numbers(ws)) < TWO32 ==>
              && (forall i :: 0 <= i < |ws| ==> SeqOf(ws[i]) != run[m].v.auth.value.rcvSeq)
              && (forall i, j :: 0 <= i < j < |ws| ==> SeqOf(ws[i]) != SeqOf(ws[j]) && ws[i] != ws[j])
  {
    KindsKnown(start, run, doings);
    ws := AcceptedWires(run, doings, m, n);
    StretchAccepted(start, run, doings, m, n);
    AdvanceBound(RecvPart(run[m].v), ws);
    if Climb(run[m].v.auth.value.rcvSeq, Numbers(ws)) < TWO32 {
      NoReplay(RecvPart(run[m].v), ws);
    }
  }
}
