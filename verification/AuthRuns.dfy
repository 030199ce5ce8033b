/** Sequence numbers over whole runs: what a receiver accepts, and what a sender and
    a receiver achieve together over a channel that loses packets. */
module AuthRuns {
  import opened Bytes
  import opened Fsm
  import opened Codec
  import opened Auth

  // ---- Numbers that only climb -------------------------------------------

  lemma AddSub(a: u32, b: u32)
    ensures Add32(b, Sub32(a, b)) == a
  {
    var q := (a - b) / TWO32;
    ModOf(b + Sub32(a, b), -q, a);
  }

  lemma AddAdd(a: u32, c: nat, d: nat)
    ensures Add32(Add32(a, c), d) == Add32(a, c + d)
  {
    var q1 := (a + c) / TWO32;
    var w := Add32(a, c);
    var q2 := (w + d) / TWO32;
    ModOf(a + c + d, q1 + q2, Add32(w, d));
  }

  lemma NotFull(a: u32, d: nat)
    requires 0 < d < TWO32
    ensures Add32(a, d) != a
  {
  }

  /** Each number is ahead of the one before it, by no more than three times the largest
      DetectMult. */
  predicate Climbs(from: u32, nums: seq<u32>)
    decreases |nums|
  {
    nums == [] || (1 <= Sub32(nums[0], from) <= 765 && Climbs(nums[0], nums[1..]))
  }

  /** How far the numbers climb, not reduced modulo 2^32. */
  function Climb(from: u32, nums: seq<u32>): nat
    decreases |nums|
  {
    if nums == [] then 0 else Sub32(nums[0], from) + Climb(nums[0], nums[1..])
  }

  lemma {:induction false} ClimbBound(from: u32, nums: seq<u32>)
    requires Climbs(from, nums)
    ensures |nums| <= Climb(from, nums) <= 765 * |nums|
    decreases |nums|
  {
    if nums != [] {
      ClimbBound(nums[0], nums[1..]);
    }
  }

  /** Number i is the start plus a distance between i+1 and the whole climb. */
  lemma {:induction false} ClimbOffset(from: u32, nums: seq<u32>, i: nat) returns (dist: nat)
    requires Climbs(from, nums) && i < |nums|
    ensures nums[i] == Add32(from, dist) && i + 1 <= dist <= Climb(from, nums)
    decreases |nums|
  {
    var step := Sub32(nums[0], from);
    AddSub(nums[0], from);
    if i == 0 {
      dist := step;
    } else {
      var d := ClimbOffset(nums[0], nums[1..], i - 1);
      dist := step + d;
      AddAdd(from, step, d);
    }
  }

  lemma {:induction false} ClimbDistinct(from: u32, nums: seq<u32>, i: nat, j: nat)
    requires Climbs(from, nums) && Climb(from, nums) < TWO32 && i < j < |nums|
    ensures nums[i] != nums[j]
    decreases |nums|
  {
    if i == 0 {
      var d := ClimbOffset(nums[0], nums[1..], j - 1);
      NotFull(nums[0], d);
    } else {
      ClimbDistinct(nums[0], nums[1..], i - 1, j - 1);
    }
  }

  // ---- No replay within one AuthSeqKnown epoch ---------------------------

  /** What a receiver becomes on some bytes, if it accepts them. */
  ghost function Receive(r: AuthVars, wire: seq<u8>): Option<AuthVars>
    requires KnownType(r.kind)
  {
    match Decode(wire)
    case Err(_) => None
    case Ok(d) =>
      match Verify(r, d, wire)
      case Err(_) => None
      case Ok(next) => Some(next)
  }

  /** The datagrams are accepted one after the other. */
  ghost predicate AllAccepted(r: AuthVars, wires: seq<seq<u8>>)
    requires KnownType(r.kind)
    decreases |wires|
  {
    wires == [] ||
    match Receive(r, wires[0])
    case None => false
    case Some(next) => KnownType(next.kind) && AllAccepted(next, wires[1..])
  }

  /** The sequence number that a datagram carries. */
  ghost function SeqOf(wire: seq<u8>): u32 {
    if Decode(wire).Ok? && Decode(wire).value.auth.Some? then Decode(wire).value.auth.value.seqNum else 0
  }

  ghost function Numbers(wires: seq<seq<u8>>): seq<u32>
    decreases |wires|
  {
    if wires == [] then [] else [SeqOf(wires[0])] + Numbers(wires[1..])
  }

  lemma {:induction false} NumbersAt(wires: seq<seq<u8>>)
    ensures |Numbers(wires)| == |wires| && forall i :: 0 <= i < |wires| ==> Numbers(wires)[i] == SeqOf(wires[i])
    decreases |wires|
  {
    if wires != [] {
      NumbersAt(wires[1..]);
    }
  }

  /** One accepted datagram: a meticulous receiver that knows the sequence moves forward to
      the number it carries, by at least 1 and at most three times the packet's DetectMult,
      which the decoder has made sure is not zero. */
  lemma AcceptedAdvances(r: AuthVars, wire: seq<u8>)
    requires IsMeticulous(r.kind) && r.known && Receive(r, wire).Some?
    ensures Decode(wire).Ok? && Receive(r, wire).value == r.(rcvSeq := SeqOf(wire))
    ensures 1 <= Sub32(SeqOf(wire), r.rcvSeq) <= 3 * Decode(wire).value.detectMult
  {
    DecodedParts(wire);
  }

  lemma {:induction false} AcceptedClimb(r: AuthVars, wires: seq<seq<u8>>)
    requires IsMeticulous(r.kind) && r.known && AllAccepted(r, wires)
    ensures Climbs(r.rcvSeq, Numbers(wires))
    decreases |wires|
  {
    if wires != [] {
      AcceptedAdvances(r, wires[0]);
      AcceptedClimb(Receive(r, wires[0]).value, wires[1..]);
    }
  }

  /** No sequence number, and so no datagram, is accepted twice under meticulous
      authentication, nor is the number accepted just before, as long as the numbers have
      not gone all the way round. */
  lemma NoReplay(r: AuthVars, wires: seq<seq<u8>>)
    requires IsMeticulous(r.kind) && r.known && AllAccepted(r, wires) && Climb(r.rcvSeq, Numbers(wires)) < TWO32
    ensures forall i :: 0 <= i < |wires| ==> SeqOf(wires[i]) != r.rcvSeq
    ensures forall i, j :: 0 <= i < j < |wires| ==> SeqOf(wires[i]) != SeqOf(wires[j]) && wires[i] != wires[j]
  {
    AcceptedClimb(r, wires);
    NumbersAt(wires);
    forall i | 0 <= i < |wires|
      ensures SeqOf(wires[i]) != r.rcvSeq
    {
      var d := ClimbOffset(r.rcvSeq, Numbers(wires), i);
      NotFull(r.rcvSeq, d);
    }
    forall i, j | 0 <= i < j < |wires|
      ensures SeqOf(wires[i]) != SeqOf(wires[j])
    {
      ClimbDistinct(r.rcvSeq, Numbers(wires), i, j);
    }
  }

  /** Fewer than 2^32/765 accepted datagrams can never go round. */
  lemma AdvanceBound(r: AuthVars, wires: seq<seq<u8>>)
    requires IsMeticulous(r.kind) && r.known && AllAccepted(r, wires)
    ensures |wires| <= Climb(r.rcvSeq, Numbers(wires)) <= 765 * |wires|
  {
    AcceptedClimb(r, wires);
    NumbersAt(wires);
    ClimbBound(r.rcvSeq, Numbers(wires));
  }

  /** What the receiver transmits has no bearing on what it accepts. */
  lemma ReceiveIgnoresXmit(r: AuthVars, x: u32, wire: seq<u8>)
    requires KnownType(r.kind)
    ensures Receive(r.(xmitSeq := x), wire)
            == match Receive(r, wire) case None => None case Some(next) => Some(next.(xmitSeq := x))
  {
  }

  // ---- Sender, lossy in-order channel, receiver --------------------------

  /** One step of the channel: a packet is sent and lost, sent and delivered, or the
      receiver drops bfd.AuthSeqKnown. */
  datatype ChannelEvent =
    | Lose(pkt: ControlPacket)
    | Deliver(pkt: ControlPacket)
    | Forget

  /** Fewer than 3*DetectMult packets are lost in a row before a delivered one. */
  predicate LossBounded(events: seq<ChannelEvent>, missed: nat)
    decreases |events|
  {
    events == [] ||
    match events[0]
    case Lose(_) => LossBounded(events[1..], missed + 1)
    case Deliver(p) => missed < 3 * p.detectMult && LossBounded(events[1..], 0)
    case Forget => LossBounded(events[1..], missed)
  }

  /** Every delivered packet, taken as the bytes the sender produced, is accepted. */
  ghost predicate EveryDeliveryAccepted(a: AuthVars, r: AuthVars, events: seq<ChannelEvent>)
    requires KnownType(a.kind) && KnownType(r.kind)
    decreases |events|
  {
    events == [] ||
    match events[0]
    case Lose(_) => EveryDeliveryAccepted(NextXmit(a), r, events[1..])
    case Forget => EveryDeliveryAccepted(a, r.(known := false), events[1..])
    case Deliver(p) =>
      match Receive(r, Encode(Signed(a, p)))
      case None => false
      case Some(next) => next.kind == r.kind && EveryDeliveryAccepted(NextXmit(a), next, events[1..])
  }

  /** The receiver is exactly `missed` packets behind the sender. */
  predicate Behind(a: AuthVars, r: AuthVars, missed: nat) {
    a.kind != AUTH_SIMPLE && r.known ==> a.xmitSeq == Add32(r.rcvSeq, missed)
  }

  predicate SendablePackets(events: seq<ChannelEvent>) {
    forall i :: 0 <= i < |events| && !events[i].Forget? ==>
                  ValidHeader(events[i].pkt) && events[i].pkt.diag < 32
  }

  lemma SignedDecodes(a: AuthVars, p: ControlPacket)
    requires ValidAuth(a) && ValidHeader(p) && p.diag < 32
    ensures var q := Signed(a, p);
            Decode(Encode(q)) == Ok(q.(length := TotalLen(q)))
  {
    SignedSection(a, p);
    RoundTrip(Signed(a, p), []);
    assert Encode(Signed(a, p)) + [] == Encode(Signed(a, p));
  }

  /** A packet sent after `missed` lost ones is accepted exactly when fewer than
      3*DetectMult were lost. */
  lemma DeliveryAcceptedIff(a: AuthVars, r: AuthVars, p: ControlPacket, missed: nat)
    requires ValidAuth(a) && SharesKey(r, a) && a.kind != AUTH_SIMPLE && r.known
    requires Behind(a, r, missed) && missed + 1 < TWO32 && p.detectMult > 0
    ensures InSeqWindow(r, NextXmit(a).xmitSeq, p.detectMult) <==> missed < 3 * p.detectMult
  {
    AddAdd(r.rcvSeq, missed, 1);
    SubAdd(r.rcvSeq, missed + 1);
  }

  lemma ReceiveFrom(r: AuthVars, wire: seq<u8>, d: ControlPacket, next: AuthVars)
    requires KnownType(r.kind) && Decode(wire) == Ok(d) && Verify(r, d, wire) == Ok(next)
    ensures Receive(r, wire) == Some(next)
  {
  }

  /** One delivery: accepted, and the receiver has caught up with the sender. */
  lemma DeliveryAccepted(a: AuthVars, r: AuthVars, p: ControlPacket, missed: nat) returns (next: AuthVars)
    requires ValidAuth(a) && SharesKey(r, a) && ValidHeader(p) && p.diag < 32
    requires Behind(a, r, missed) && missed < 3 * p.detectMult
    ensures Receive(r, Encode(Signed(a, p))) == Some(next)
    ensures next.kind == r.kind && SharesKey(next, NextXmit(a)) && Behind(NextXmit(a), next, 0)
  {
    if a.kind != AUTH_SIMPLE && r.known {
      DeliveryAcceptedIff(a, r, p, missed);
    }
    next := if a.kind == AUTH_SIMPLE then r else r.(rcvSeq := NextXmit(a).xmitSeq, known := true);
    SignedReceived(a, r, p, next);
    CaughtUp(a, r, next);
  }

  lemma CaughtUp(a: AuthVars, r: AuthVars, next: AuthVars)
    requires SharesKey(r, a)
    requires next == if a.kind == AUTH_SIMPLE then r else r.(rcvSeq := NextXmit(a).xmitSeq, known := true)
    ensures SharesKey(next, NextXmit(a)) && Behind(NextXmit(a), next, 0)
  {
  }

  lemma SignedReceived(a: AuthVars, r: AuthVars, p: ControlPacket, next: AuthVars)
    requires ValidAuth(a) && SharesKey(r, a) && ValidHeader(p) && p.diag < 32
    requires a.kind == AUTH_SIMPLE || InSeqWindow(r, NextXmit(a).xmitSeq, p.detectMult)
    requires next == if a.kind == AUTH_SIMPLE then r else r.(rcvSeq := NextXmit(a).xmitSeq, known := true)
    ensures Receive(r, Encode(Signed(a, p))) == Some(next)
  {
    var q := Signed(a, p);
    SignedDecodes(a, p);
    SignedVerifies(a, r, p, TotalLen(q));
    ReceiveFrom(r, Encode(q), q.(length := TotalLen(q)), next);
  }

  /** Over an in-order channel that loses fewer than 3*DetectMult packets in a row, no
      delivered packet is ever refused, whatever is lost and whenever the receiver
      forgets the sequence. */
  lemma {:induction false} LossyChannelAccepts(a: AuthVars, r: AuthVars, events: seq<ChannelEvent>, missed: nat)
    requires ValidAuth(a) && SharesKey(r, a) && SendablePackets(events)
    requires Behind(a, r, missed) && LossBounded(events, missed)
    ensures EveryDeliveryAccepted(a, r, events)
    decreases |events|
  {
    if events != [] {
      match events[0] {
        case Forget =>
          LossyChannelAccepts(a, r.(known := false), events[1..], missed);
        case Lose(p) =>
          if a.kind != AUTH_SIMPLE && r.known {
            AddAdd(r.rcvSeq, missed, 1);
          }
          LossyChannelAccepts(NextXmit(a), r, events[1..], missed + 1);
        case Deliver(p) =>
          var next := DeliveryAccepted(a, r, p, missed);
          LossyChannelAccepts(NextXmit(a), next, events[1..], 0);
      }
    }
  }
}
