/** The counter of unsolicited sessions over every interleaving: what it counts, what it
    bounds, and exactly by which steps it comes to count too much. */
module Reservations {
  import opened Bytes
  import opened Manager

  // ---- Who holds a reservation -------------------------------------------

  datatype Holder = OfSession(discr: u32) | OfOperation(tid: nat)

  predicate IsUnsolicited(t: Tables<nat>, d: u32) {
    d in t.sessions && t.sessions[d] in t.entries && t.entries[t.sessions[d]].unsolicited
  }

  function SessionHolders(t: Tables<nat>): set<Holder> {
    set d | d in t.sessions && IsUnsolicited(t, d) :: OfSession(d)
  }

  function OperationHolders(ops: map<nat, Op>): set<Holder> {
    set tid | tid in ops && HoldsReservation(ops[tid]) :: OfOperation(tid)
  }

  /** Everything that counts against the limit: live unsolicited sessions, and operations
      that hold a reservation. */
  function Holders(s: Sys): set<Holder> {
    SessionHolders(s.tables) + OperationHolders(s.ops)
  }

  predicate Holding(s: Sys, tid: nat) {
    tid in s.ops && HoldsReservation(s.ops[tid])
  }

  function One(b: bool): nat {
    if b then 1 else 0
  }

  /** How far the counter is ahead of the holders. */
  function Slack(s: Sys): int {
    s.count - |Holders(s)|
  }

  /** The counter stays within the limit, and an operation that is about to count down has
      read a positive number. */
  predicate Bounded(s: Sys) {
    && (0 < s.max ==> s.count <= s.max)
    && forall tid :: tid in s.ops && s.ops[tid].Dropping? && s.ops[tid].loaded.Some? ==> s.ops[tid].loaded.value > 0
  }

  predicate CountOk(s: Sys) {
    |Holders(s)| <= s.count && Bounded(s)
  }

  /** The counter is below its 32-bit top, or the limit keeps it there. */
  predicate NoOverflow(s: Sys) {
    s.count < INT32_MAX || 0 < s.max <= INT32_MAX
  }

  /** The reservations that a step loses: no sender is configured; or the session to be
      marked is gone, or marked already; or Close drops unsolicited sessions. */
  function Lost(s: Sys, tid: nat, m: Move): nat {
    match m
    case NoSender => 1
    case MarkUnsolicited =>
      One(tid in s.ops && s.ops[tid].Unmarked?
          && (s.ops[tid].discr !in s.tables.sessions || IsUnsolicited(s.tables, s.ops[tid].discr)))
    case CloseEnd => |SessionHolders(s.tables)|
    case _ => 0
  }

  // ---- Counting holders --------------------------------------------------

  lemma OperationHoldersChange(s: Sys, t: Sys, tid: nat)
    requires t.ops - {tid} == s.ops - {tid}
    ensures OperationHolders(t.ops)
            == if Holding(t, tid) then OperationHolders(s.ops) + {OfOperation(tid)} else OperationHolders(s.ops) - {OfOperation(tid)}
  {
    forall uid: nat | uid != tid
      ensures Holding(t, uid) <==> Holding(s, uid)
    {
      assert uid in t.ops <==> uid in t.ops - {tid};
      assert uid in s.ops <==> uid in s.ops - {tid};
      if uid in s.ops {
        assert (t.ops - {tid})[uid] == (s.ops - {tid})[uid];
      }
    }
    assert forall uid: nat :: OfOperation(uid) in OperationHolders(t.ops) <==> Holding(t, uid);
    assert forall uid: nat :: OfOperation(uid) in OperationHolders(s.ops) <==> Holding(s, uid);
  }

  lemma SizeWithout(a: set<Holder>, x: Holder)
    ensures |a + {x}| == |a| + 1 - One(x in a)
    ensures |a - {x}| == |a| - One(x in a)
  {
    if x in a {
      assert a + {x} == a;
    } else {
      assert a - {x} == a;
    }
  }

  lemma {:induction false} DisjointSizes(a: set<Holder>, o: set<Holder>)
    requires a !! o
    ensures |a + o| == |a| + |o|
  {
    if a == {} {
      assert a + o == o;
    } else {
      var x :| x in a;
      DisjointSizes(a - {x}, o);
      assert a + o == (a - {x}) + o + {x};
    }
  }

  lemma HoldersSize(s: Sys)
    ensures |Holders(s)| == |SessionHolders(s.tables)| + |OperationHolders(s.ops)|
  {
    DisjointSizes(SessionHolders(s.tables), OperationHolders(s.ops));
  }

  /** The holders after a step, from the sessions' share and the operation's own. */
  lemma HoldersChange(s: Sys, t: Sys, tid: nat)
    requires t.ops - {tid} == s.ops - {tid}
    ensures |Holders(t)| - |Holders(s)|
            == |SessionHolders(t.tables)| - |SessionHolders(s.tables)| + One(Holding(t, tid)) - One(Holding(s, tid))
    ensures Holding(s, tid) ==> |Holders(s)| > 0
  {
    HoldersSize(s);
    HoldersSize(t);
    OperationHoldersChange(s, t, tid);
    assert OfOperation(tid) in OperationHolders(s.ops) <==> Holding(s, tid);
    SizeWithout(OperationHolders(s.ops), OfOperation(tid));
  }

  lemma EntryAddsNoHolder(t: Tables<nat>, id: nat, e: Entry)
    requires id !in t.entries && e.discr !in t.sessions && !e.unsolicited && NoDangling(t)
    ensures SessionHolders(Enter(t, id, e)) == SessionHolders(t)
  {
    var u := Enter(t, id, e);
    assert forall d :: d in u.sessions ==> (IsUnsolicited(u, d) <==> IsUnsolicited(t, d));
  }

  lemma MarkHolders(t: Tables<nat>, d: u32)
    requires Coherent(t)
    ensures |SessionHolders(Mark(t, d))| == |SessionHolders(t)| + One(d in t.sessions && !IsUnsolicited(t, d))
  {
    var u := Mark(t, d);
    if d in t.sessions {
      assert forall x :: x in u.sessions ==> (IsUnsolicited(u, x) <==> IsUnsolicited(t, x) || x == d);
      assert SessionHolders(u) == SessionHolders(t) + {OfSession(d)};
      assert OfSession(d) in SessionHolders(t) <==> IsUnsolicited(t, d);
      SizeWithout(SessionHolders(t), OfSession(d));
    }
  }

  lemma RemoveHolders(t: Tables<nat>, d: u32)
    requires Coherent(t) && d in t.sessions
    ensures |SessionHolders(Remove(t, d))| == |SessionHolders(t)| - One(t.entries[t.sessions[d]].unsolicited)
  {
    var u := Remove(t, d);
    assert forall x :: x in u.sessions <==> x in t.sessions && x != d;
    assert forall x :: x in u.sessions ==> (IsUnsolicited(u, x) <==> IsUnsolicited(t, x));
    assert SessionHolders(u) == SessionHolders(t) - {OfSession(d)};
    assert OfSession(d) in SessionHolders(t) <==> IsUnsolicited(t, d);
    SizeWithout(SessionHolders(t), OfSession(d));
  }

  // ---- What each kind of step does to the counter ------------------------

  /** The counter moves with the operation's own reservation, except that without a sender
      the reservation is dropped and not counted down. */
  lemma ReserveMoves(s: Sys, t: Sys, tid: nat, m: Move)
    requires Bounded(s) && NoOverflow(s) && ReserveStep(s, t, tid, m)
    ensures t.ops - {tid} == s.ops - {tid} && t.tables == s.tables
    ensures t.count - s.count == One(Holding(t, tid)) - One(Holding(s, tid)) + One(m.NoSender?)
  {
  }

  lemma QuietMoves(s: Sys, t: Sys, tid: nat, m: Move)
    requires ControlStep(s, t, tid, m) && !m.MarkUnsolicited? && !m.Destroy?
    ensures t.ops - {tid} == s.ops - {tid} && t.count == s.count && One(Holding(t, tid)) == One(Holding(s, tid))
    ensures t.tables == s.tables || m.Register?
  {
  }

  lemma OtherMoves(s: Sys, t: Sys, tid: nat, m: Move)
    requires OtherStep(s, t, tid, m)
    ensures t.ops - {tid} == s.ops - {tid} && t.count == s.count && One(Holding(t, tid)) == One(Holding(s, tid))
    ensures |SessionHolders(t.tables)| == if m.CloseEnd? then 0 else |SessionHolders(s.tables)|
  {
    if m.CloseEnd? {
      assert SessionHolders(t.tables) == {};
    } else {
      assert SessionHolders(t.tables) == SessionHolders(s.tables);
    }
  }

  lemma ReserveConserves(s: Sys, t: Sys, tid: nat, m: Move)
    requires Bounded(s) && NoOverflow(s) && ReserveStep(s, t, tid, m)
    ensures Slack(t) == Slack(s) + Lost(s, tid, m)
  {
    ReserveMoves(s, t, tid, m);
    HoldersChange(s, t, tid);
  }

  lemma RegisterHolders(s: Sys, t: Sys, tid: nat, id: nat)
    requires DiscrOk(s) && ControlStep(s, t, tid, Register(id))
    ensures SessionHolders(t.tables) == SessionHolders(s.tables)
  {
    var op := s.ops[tid];
    if op.key !in s.tables.byPeer {
      assert HeldBy(s, tid, op.discr);
      assert !Live(s, op.discr);
      EntryAddsNoHolder(s.tables, id, Entry(op.discr, op.key, false));
    }
  }

  lemma QuietConserves(s: Sys, t: Sys, tid: nat, m: Move)
    requires DiscrOk(s) && ControlStep(s, t, tid, m) && !m.MarkUnsolicited? && !m.Destroy?
    ensures Slack(t) == Slack(s) + Lost(s, tid, m)
  {
    QuietMoves(s, t, tid, m);
    HoldersChange(s, t, tid);
    if m.Register? {
      RegisterHolders(s, t, tid, m.id);
    }
  }

  lemma MarkConserves(s: Sys, t: Sys, tid: nat)
    requires Coherent(s.tables) && ControlStep(s, t, tid, MarkUnsolicited)
    ensures Slack(t) == Slack(s) + Lost(s, tid, MarkUnsolicited)
  {
    MarkHolders(s.tables, s.ops[tid].discr);
    assert Holding(s, tid) && !Holding(t, tid) && t.ops - {tid} == s.ops - {tid};
    HoldersChange(s, t, tid);
  }

  lemma DestroyConserves(s: Sys, t: Sys, tid: nat, d: u32)
    requires Coherent(s.tables) && ControlStep(s, t, tid, Destroy(d))
    ensures Slack(t) == Slack(s)
  {
    RemoveHolders(s.tables, d);
    DestroyMoves(s, t, tid, d);
    HoldersChange(s, t, tid);
  }

  lemma DestroyMoves(s: Sys, t: Sys, tid: nat, d: u32)
    requires Coherent(s.tables) && ControlStep(s, t, tid, Destroy(d))
    ensures t.ops - {tid} == s.ops - {tid} && t.count == s.count && t.tables == Remove(s.tables, d)
    ensures One(Holding(t, tid)) - One(Holding(s, tid)) == One(s.tables.entries[s.tables.sessions[d]].unsolicited)
  {
  }

  lemma OtherConserves(s: Sys, t: Sys, tid: nat, m: Move)
    requires OtherStep(s, t, tid, m)
    ensures Slack(t) == Slack(s) + Lost(s, tid, m)
  {
    OtherMoves(s, t, tid, m);
    HoldersChange(s, t, tid);
  }

  /** Conservation: every step moves the counter and the number of holders together, but for
      exactly the reservations it loses. */
  lemma StepConserves(s: Sys, t: Sys, tid: nat, m: Move)
    requires DiscrOk(s) && Bounded(s) && NoOverflow(s) && Next(s, t, tid, m)
    ensures Slack(t) == Slack(s) + Lost(s, tid, m)
  {
    if ReserveStep(s, t, tid, m) {
      ReserveConserves(s, t, tid, m);
    } else if OtherStep(s, t, tid, m) {
      OtherConserves(s, t, tid, m);
    } else {
      match m {
        case MarkUnsolicited => MarkConserves(s, t, tid);
        case Destroy(d) => DestroyConserves(s, t, tid, d);
        case _ => QuietConserves(s, t, tid, m);
      }
    }
  }

  // ---- The bounds --------------------------------------------------------

  lemma OthersBounded(s: Sys, t: Sys, tid: nat)
    requires Bounded(s) && t.max == s.max && t.ops - {tid} == s.ops - {tid} && (0 < t.max ==> t.count <= t.max)
    requires tid in t.ops && t.ops[tid].Dropping? && t.ops[tid].loaded.Some? ==> t.ops[tid].loaded.value > 0
    ensures Bounded(t)
  {
    forall uid | uid in t.ops && uid != tid
      ensures uid in s.ops && s.ops[uid] == t.ops[uid]
    {
      assert uid in t.ops - {tid};
      assert (t.ops - {tid})[uid] == (s.ops - {tid})[uid];
    }
  }

  lemma ReserveBounded(s: Sys, t: Sys, tid: nat, m: Move)
    requires Bounded(s) && NoOverflow(s) && ReserveStep(s, t, tid, m) && (Holding(s, tid) ==> s.count > 0)
    ensures Bounded(t)
  {
    ReserveMoves(s, t, tid, m);
    OthersBounded(s, t, tid);
  }

  lemma ControlBounded(s: Sys, t: Sys, tid: nat, m: Move)
    requires Bounded(s) && ControlStep(s, t, tid, m)
    ensures Bounded(t)
  {
    assert t.ops - {tid} == s.ops - {tid} && t.count == s.count && t.max == s.max;
    OthersBounded(s, t, tid);
  }

  lemma OtherBounded(s: Sys, t: Sys, tid: nat, m: Move)
    requires Bounded(s) && OtherStep(s, t, tid, m)
    ensures Bounded(t)
  {
    OtherMoves(s, t, tid, m);
    OthersBounded(s, t, tid);
  }

  lemma NextKeepsCount(s: Sys, t: Sys, tid: nat, m: Move)
    requires DiscrOk(s) && CountOk(s) && NoOverflow(s) && Next(s, t, tid, m)
    ensures CountOk(t)
  {
    StepConserves(s, t, tid, m);
    if ReserveStep(s, t, tid, m) {
      HoldersChange(s, s, tid);
      ReserveBounded(s, t, tid, m);
    } else if ControlStep(s, t, tid, m) {
      ControlBounded(s, t, tid, m);
    } else {
      OtherBounded(s, t, tid, m);
    }
  }

  // ---- Runs --------------------------------------------------------------

  /** In every interleaving in which the counter does not overflow, the live unsolicited
      sessions and the pending reservations together never exceed it, and it never exceeds
      a positive limit. */
  lemma {:induction false} AdmissionLimited(run: seq<Sys>, n: nat)
    requires IsRun(run) && n < |run|
    requires forall i :: 0 <= i < n ==> NoOverflow(run[i])
    ensures CountOk(run[n])
  {
    if n > 0 {
      AdmissionLimited(run, n - 1);
      DiscriminatorsSafe(run, n - 1);
      assert Moves(run[n - 1], run[n - 1 + 1]);
      var tid: nat, m: Move :| Next(run[n - 1], run[n], tid, m);
      NextKeepsCount(run[n - 1], run[n], tid, m);
    } else {
      assert Holders(run[0]) == {};
    }
  }

  datatype Label = Label(tid: nat, move: Move)

  /** A run together with who took which step. */
  predicate Follows(run: seq<Sys>, labels: seq<Label>) {
    && |run| == |labels| + 1 && Initial(run[0])
    && forall i :: 0 <= i < |labels| ==> Next(run[i], run[i + 1], labels[i].tid, labels[i].move)
  }

  lemma FollowsIsRun(run: seq<Sys>, labels: seq<Label>)
    requires Follows(run, labels)
    ensures IsRun(run)
  {
    forall i | 0 <= i < |run| - 1
      ensures Moves(run[i], run[i + 1])
    {
      assert Next(run[i], run[i + 1], labels[i].tid, labels[i].move);
    }
  }

  /** The reservations lost in the first n steps. */
  function TotalLost(run: seq<Sys>, labels: seq<Label>, n: nat): nat
    requires n <= |labels| <= |run|
  {
    if n == 0 then 0 else TotalLost(run, labels, n - 1) + Lost(run[n - 1], labels[n - 1].tid, labels[n - 1].move)
  }

  /** Over every interleaving the counter is the number of holders plus the reservations lost
      so far; nothing that was lost ever comes back. */
  lemma {:induction false} CounterConserved(run: seq<Sys>, labels: seq<Label>, n: nat)
    requires Follows(run, labels) && n <= |labels|
    requires forall i :: 0 <= i < n ==> NoOverflow(run[i])
    ensures run[n].count == |Holders(run[n])| + TotalLost(run, labels, n)
  {
    FollowsIsRun(run, labels);
    if n == 0 {
      assert Holders(run[0]) == {};
    } else {
      CounterConserved(run, labels, n - 1);
      DiscriminatorsSafe(run, n - 1);
      AdmissionLimited(run, n - 1);
      StepConserves(run[n - 1], run[n], labels[n - 1].tid, labels[n - 1].move);
    }
  }

  /** A step that loses a reservation. */
  predicate Leaks(s: Sys, l: Label) {
    Lost(s, l.tid, l.move) > 0
  }

  /** From a state in which the counter is exact a step leads to one exactly if it does not
      leak. */
  lemma StepExactIff(s: Sys, t: Sys, l: Label)
    requires DiscrOk(s) && Bounded(s) && NoOverflow(s) && Next(s, t, l.tid, l.move) && s.count == |Holders(s)|
    ensures t.count == |Holders(t)| <==> !Leaks(s, l)
  {
    StepConserves(s, t, l.tid, l.move);
  }

  lemma {:induction false} NothingLostIff(run: seq<Sys>, labels: seq<Label>, n: nat)
    requires n <= |labels| <= |run|
    ensures TotalLost(run, labels, n) == 0 <==> forall i :: 0 <= i < n ==> !Leaks(run[i], labels[i])
  {
    if n > 0 {
      NothingLostIff(run, labels, n - 1);
    }
  }

  /** The counter is exact exactly as long as no step has leaked. */
  lemma CounterExactIff(run: seq<Sys>, labels: seq<Label>, n: nat)
    requires Follows(run, labels) && n <= |labels|
    requires forall i :: 0 <= i < n ==> NoOverflow(run[i])
    ensures run[n].count == |Holders(run[n])| <==> forall i :: 0 <= i < n ==> !Leaks(run[i], labels[i])
  {
    CounterConserved(run, labels, n);
    NothingLostIff(run, labels, n);
  }

  /** Which steps those are, in terms of the state before them. */
  lemma LeaksIff(s: Sys, l: Label)
    ensures Leaks(s, l) <==>
            || l.move == NoSender
            || (&& l.move == MarkUnsolicited && l.tid in s.ops && s.ops[l.tid].Unmarked?
                && (s.ops[l.tid].discr !in s.tables.sessions || IsUnsolicited(s.tables, s.ops[l.tid].discr)))
            || (l.move == CloseEnd && exists d :: IsUnsolicited(s.tables, d))
  {
    if l.move == CloseEnd {
      if d :| IsUnsolicited(s.tables, d) {
        assert OfSession(d) in SessionHolders(s.tables);
      } else {
        assert SessionHolders(s.tables) == {};
      }
    }
  }

  /** Without a limit, one more reservation is safe exactly while the 32-bit counter has
      room for it. */
  lemma UnlimitedReserveSafeIff(s: Sys, t: Sys, tid: nat, key: Key)
    requires DiscrOk(s) && CountOk(s) && s.count <= INT32_MAX && s.max <= 0 && ReserveStep(s, t, tid, TryReserve(key))
    ensures CountOk(t) <==> s.count < INT32_MAX
  {
    if s.count < INT32_MAX {
      NextKeepsCount(s, t, tid, TryReserve(key));
    }
  }

  // ---- The leaks happen --------------------------------------------------

  const START := Sys(Tables(map[], map[], map[], {}), {}, map[], None, 0, 0)

  /** The end of a history that has lost a reservation: nothing lives, nothing is under way,
      and the counter stands at one. */
  predicate LeftBehind(s: Sys) {
    s.ops == map[] && s.closer == None && s.tables.sessions == map[] && s.count == 1 && Holders(s) == {}
  }

  /** An unsolicited session on its way in, up to the moment before it is marked. */
  function Arriving(key: Key): seq<Sys> {
    var s1 := START.(count := 1, ops := map[1 := Submitted(key, true)]);
    var s2 := s1.(ops := map[1 := Checked(key, true)]);
    var s3 := s2.(ops := map[1 := Built(key, 5, true)], taken := {5});
    var s4 := s3.(ops := map[1 := Unmarked(5)], tables := Enter(START.tables, 0, Entry(5, key, false)));
    [START, s1, s2, s3, s4]
  }

  lemma ArrivalFollows(key: Key)
    ensures Follows(Arriving(key), [Label(1, TryReserve(key)), Label(1, CheckDuplicate), Label(1, Draw(5)), Label(1, Register(0))])
  {
    var a := Arriving(key);
    assert Next(a[0], a[1], 1, TryReserve(key));
    assert Next(a[1], a[2], 1, CheckDuplicate);
    assert Next(a[2], a[3], 1, Draw(5));
    assert Next(a[3], a[4], 1, Register(0));
  }

  lemma Extended(run: seq<Sys>, labels: seq<Label>, t: Sys, l: Label)
    requires Follows(run, labels) && Next(run[|run| - 1], t, l.tid, l.move)
    ensures Follows(run + [t], labels + [l])
  {
  }

  /** No sender is configured. */
  lemma LeakWithoutSender(key: Key) returns (run: seq<Sys>, labels: seq<Label>)
    ensures Follows(run, labels) && LeftBehind(run[|run| - 1])
  {
    var s := START.(count := 1, ops := map[1 := Submitted(key, true)]);
    run, labels := [START, s, s.(ops := map[])], [Label(1, TryReserve(key)), Label(1, NoSender)];
    assert s.ops - {1} == map[];
    assert Holders(run[2]) == {};
  }

  lemma Orphaned(key: Key) returns (run: seq<Sys>, labels: seq<Label>)
    ensures Follows(run, labels)
    ensures var s := run[|run| - 1];
            && s.ops == map[1 := Unmarked(5), 2 := Freeing(5)] && s.closer == None && s.taken == {5} && s.count == 1
            && s.tables.sessions == map[]
  {
    ArrivalFollows(key);
    run := Arriving(key);
    labels := [Label(1, TryReserve(key)), Label(1, CheckDuplicate), Label(1, Draw(5)), Label(1, Register(0))];
    var s := run[4];
    var gone := With(s.(tables := Remove(s.tables, 5)), 2, Freeing(5));
    Extended(run, labels, gone, Label(2, Destroy(5)));
    run, labels := run + [gone], labels + [Label(2, Destroy(5))];
    assert gone.tables.sessions == map[];
  }

  /** The session is destroyed between its registration and its marking. */
  lemma LeakByRace(key: Key) returns (run: seq<Sys>, labels: seq<Label>)
    ensures Follows(run, labels) && LeftBehind(run[|run| - 1])
  {
    run, labels := Orphaned(key);
    var s := run[|run| - 1];
    var unmarked := Done(s, 1);
    Extended(run, labels, unmarked, Label(1, MarkUnsolicited));
    run, labels := run + [unmarked], labels + [Label(1, MarkUnsolicited)];
    var end := Done(unmarked.(taken := unmarked.taken - {5}), 2);
    Extended(run, labels, end, Label(2, Free));
    run, labels := run + [end], labels + [Label(2, Free)];
    assert end.ops == map[];
    assert Holders(end) == {};
  }

  lemma Settled(key: Key) returns (run: seq<Sys>, labels: seq<Label>)
    ensures Follows(run, labels)
    ensures var s := run[|run| - 1];
            && s.ops == map[] && s.closer == None && s.taken == {5} && s.count == 1
            && s.tables.sessions.Keys == {5} && s.tables.echo == {}
  {
    ArrivalFollows(key);
    run := Arriving(key);
    labels := [Label(1, TryReserve(key)), Label(1, CheckDuplicate), Label(1, Draw(5)), Label(1, Register(0))];
    var s := run[4];
    var marked := s.(tables := Mark(s.tables, 5), ops := map[]);
    assert s.ops - {1} == marked.ops;
    Extended(run, labels, marked, Label(1, MarkUnsolicited));
    run, labels := run + [marked], labels + [Label(1, MarkUnsolicited)];
  }

  /** The manager is closed while the session lives. */
  lemma LeakByClose(key: Key) returns (run: seq<Sys>, labels: seq<Label>)
    ensures Follows(run, labels) && LeftBehind(run[|run| - 1])
  {
    run, labels := Settled(key);
    var s := run[|run| - 1];
    var closing := s.(closer := Some(Closer(3, {})));
    Extended(run, labels, closing, Label(3, CloseBegin));
    run, labels := run + [closing], labels + [Label(3, CloseBegin)];
    var freed := closing.(taken := closing.taken - {5}, closer := Some(Closer(3, {} + {5})));
    Extended(run, labels, freed, Label(3, CloseRelease(5)));
    run, labels := run + [freed], labels + [Label(3, CloseRelease(5))];
    var end := freed.(tables := Clear(freed.tables), closer := None);
    Extended(run, labels, end, Label(3, CloseEnd));
    run, labels := run + [end], labels + [Label(3, CloseEnd)];
    assert Holders(end) == {};
  }

  function Standing(n: int): Sys {
    START.(count := n)
  }

  lemma ReserveAndGiveUp(key: Key, n: int)
    requires 0 <= n
    ensures var s := With(Standing(n), 1, Submitted(key, true)).(count := Wrap32(n + 1));
            && Next(Standing(n), s, 1, TryReserve(key)) && Next(s, Standing(Wrap32(n + 1)), 1, NoSender)
  {
    var s := With(Standing(n), 1, Submitted(key, true)).(count := Wrap32(n + 1));
    assert s.ops - {1} == map[];
    assert ReserveStep(Standing(n), s, 1, TryReserve(key)) && ReserveStep(s, Standing(Wrap32(n + 1)), 1, NoSender);
  }

  /** Every count is reached: each peer that finds no sender leaves one behind. */
  lemma {:induction false} CountReached(key: Key, n: nat) returns (run: seq<Sys>, labels: seq<Label>)
    requires n <= INT32_MAX
    ensures Follows(run, labels) && run[|run| - 1] == Standing(n)
    decreases n
  {
    if n == 0 {
      run, labels := [START], [];
    } else {
      run, labels := CountReached(key, n - 1);
      ReserveAndGiveUp(key, n - 1);
      var s := With(Standing(n - 1), 1, Submitted(key, true)).(count := Wrap32(n));
      Extended(run, labels, s, Label(1, TryReserve(key)));
      run, labels := run + [s], labels + [Label(1, TryReserve(key))];
      Extended(run, labels, Standing(n), Label(1, NoSender));
      run, labels := run + [Standing(n)], labels + [Label(1, NoSender)];
    }
  }

  /** One reservation too many for 32 bits, at the end of a history. */
  lemma OverflowBreaksTheBound(key: Key) returns (run: seq<Sys>, labels: seq<Label>, t: Sys)
    ensures Follows(run, labels) && Next(run[|run| - 1], t, 1, TryReserve(key))
    ensures CountOk(run[|run| - 1]) && t.count == -0x8000_0000 && !CountOk(t)
  {
    run, labels := CountReached(key, INT32_MAX);
    t := With(Standing(INT32_MAX), 1, Submitted(key, true)).(count := Wrap32(INT32_MAX + 1));
    ReserveAndGiveUp(key, INT32_MAX);
    assert Holders(Standing(INT32_MAX)) == {};
  }
}
