/** The session manager under concurrency. Every region under the manager's lock, every
    call of the discriminator allocator and every load or compare-and-swap of the counter
    of unsolicited sessions is one atomic step; operations interleave freely. */
module Manager {
  import opened Bytes

  datatype Key = Key(peer: string, local: string, ifName: string)

  datatype Entry = Entry(discr: u32, key: Key, unsolicited: bool)

  // ---- The tables behind the lock ----------------------------------------

  /** Two indexes over one set of entries; E is what points to an entry. */
  datatype Tables<!E(==)> = Tables(entries: map<E, Entry>, sessions: map<u32, E>, byPeer: map<Key, E>, echo: set<u32>)

  /** The discriminator index points to entries that exist. */
  predicate NoDangling<E>(t: Tables<E>) {
    forall d :: d in t.sessions ==> t.sessions[d] in t.entries
  }

  predicate DiscrIndexOk<E>(t: Tables<E>) {
    forall d :: d in t.sessions ==>
      && t.sessions[d] in t.entries && t.entries[t.sessions[d]].discr == d
      && t.entries[t.sessions[d]].key in t.byPeer && t.byPeer[t.entries[t.sessions[d]].key] == t.sessions[d]
  }

  predicate PeerIndexOk<E>(t: Tables<E>) {
    forall k :: k in t.byPeer ==>
      && t.byPeer[k] in t.entries && t.entries[t.byPeer[k]].key == k
      && t.entries[t.byPeer[k]].discr in t.sessions && t.sessions[t.entries[t.byPeer[k]].discr] == t.byPeer[k]
  }

  /** The two indexes hold exactly the same entries, each under its own keys. */
  predicate Coherent<E>(t: Tables<E>) {
    DiscrIndexOk(t) && PeerIndexOk(t) && t.sessions.Keys !! t.echo
  }

  function Enter<E(==)>(t: Tables<E>, id: E, e: Entry): Tables<E> {
    t.(entries := t.entries[id := e], sessions := t.sessions[e.discr := id], byPeer := t.byPeer[e.key := id])
  }

  function Remove<E(==)>(t: Tables<E>, d: u32): Tables<E>
    requires d in t.sessions && t.sessions[d] in t.entries
  {
    var id := t.sessions[d];
    t.(entries := t.entries - {id}, sessions := t.sessions - {d}, byPeer := t.byPeer - {t.entries[id].key})
  }

  function Mark<E(==)>(t: Tables<E>, d: u32): Tables<E>
    requires d in t.sessions ==> t.sessions[d] in t.entries
  {
    if d in t.sessions
    then t.(entries := t.entries[t.sessions[d] := t.entries[t.sessions[d]].(unsolicited := true)])
    else t
  }

  function Clear<E(==)>(t: Tables<E>): Tables<E> {
    Tables(map[], map[], map[], {})
  }

  lemma EnterCoherent<E>(t: Tables<E>, id: E, e: Entry)
    requires Coherent(t) && id !in t.entries && e.discr !in t.sessions && e.discr !in t.echo && e.key !in t.byPeer
    ensures Coherent(Enter(t, id, e))
  {
  }

  lemma RemoveCoherent<E>(t: Tables<E>, d: u32)
    requires Coherent(t) && d in t.sessions
    ensures Coherent(Remove(t, d))
  {
  }

  lemma MarkCoherent<E>(t: Tables<E>, d: u32)
    requires Coherent(t)
    ensures Coherent(Mark(t, d))
  {
  }

  // ---- Operations in progress --------------------------------------------

  /** Where an operation stands between two of its steps. */
  datatype Op =
    | Trying(key: Key)                                   // reserve: about to read the counter
    | Loaded(key: Key, current: int)                     // reserve: counter read, not yet swapped
    | Submitted(key: Key, unsolicited: bool)             // create: before the duplicate check
    | Checked(key: Key, unsolicited: bool)               // create: no duplicate seen
    | Built(key: Key, discr: u32, unsolicited: bool)     // create: discriminator drawn
    | Failed(discr: u32, unsolicited: bool)              // create: discriminator to be given back
    | Unmarked(discr: u32)                               // unsolicited session entered, not marked yet
    | Dropping(loaded: Option<int>, owed: Option<u32>)   // reservation to be given back
    | Freeing(discr: u32)                                // destroy: discriminator to be given back
    | EchoBuilt(discr: u32)                              // echo create: discriminator drawn

  /** Close holds the lock while it releases one discriminator after another. */
  datatype Closer = Closer(tid: nat, released: set<u32>)

  datatype Sys = Sys(tables: Tables<nat>, taken: set<u32>, ops: map<nat, Op>, closer: Option<Closer>, count: int, max: int)

  predicate HoldsDiscr(op: Op, d: u32) {
    match op
    case Built(_, x, _) => x == d
    case Failed(x, _) => x == d
    case Dropping(_, x) => x == Some(d)
    case Freeing(x) => x == d
    case EchoBuilt(x) => x == d
    case _ => false
  }

  predicate HoldsReservation(op: Op) {
    match op
    case Submitted(_, u) => u
    case Checked(_, u) => u
    case Built(_, _, u) => u
    case Failed(_, u) => u
    case Unmarked(_) => true
    case Dropping(_, _) => true
    case _ => false
  }

  const INT32_MAX: int := 0x7fff_ffff

  function Wrap32(x: int): int {
    if x > INT32_MAX then x - TWO32 else x
  }

  // ---- Steps -------------------------------------------------------------

  datatype Move =
    | TryReserve(key: Key) | LoadCount | SwapCount | NoSender
    | Submit(key: Key) | Refuse | CheckDuplicate | Draw(discr: u32) | BuildFails | Register(id: nat)
    | ReturnDiscr | MarkUnsolicited
    | Destroy(discr: u32) | DropLoad | DropSwap | Free
    | EchoDraw(discr: u32) | EchoRegister | EchoDestroy(discr: u32)
    | CloseBegin | CloseRelease(discr: u32) | CloseEnd

  function With(s: Sys, tid: nat, op: Op): Sys {
    s.(ops := s.ops[tid := op])
  }

  function Done(s: Sys, tid: nat): Sys {
    s.(ops := s.ops - {tid})
  }

  /** The end of a failed create: an unsolicited one has a reservation to give back. */
  function GiveUp(s: Sys, tid: nat, unsolicited: bool): Sys {
    if unsolicited then With(s, tid, Dropping(None, None)) else Done(s, tid)
  }

  function AfterDrop(s: Sys, tid: nat, discr: Option<u32>): Sys {
    match discr case None => Done(s, tid) case Some(d) => With(s, tid, Freeing(d))
  }

  predicate Idle(s: Sys, tid: nat) {
    tid !in s.ops && (s.closer.Some? ==> s.closer.value.tid != tid)
  }

  /** tryCreateUnsolicited up to CreateSession, and its bookkeeping. A refusal by policy
      leaves no trace and is no step. */
  predicate ReserveStep(s: Sys, t: Sys, tid: nat, m: Move) {
    match m
    case TryReserve(key) =>
      && Idle(s, tid)
      && t == (if s.max <= 0 then With(s, tid, Submitted(key, true)).(count := Wrap32(s.count + 1))
               else With(s, tid, Trying(key)))
    case LoadCount =>
      tid in s.ops && s.ops[tid].Trying? && t == With(s, tid, Loaded(s.ops[tid].key, s.count))
    case SwapCount =>
      && tid in s.ops && s.ops[tid].Loaded?
      && var op := s.ops[tid];
         t == if op.current >= s.max then Done(s, tid)
              else if s.count == op.current then With(s, tid, Submitted(op.key, true)).(count := Wrap32(op.current + 1))
              else With(s, tid, Trying(op.key))
    case NoSender =>
      tid in s.ops && s.ops[tid].Submitted? && s.ops[tid].unsolicited && t == Done(s, tid)
    case DropLoad =>
      && tid in s.ops && s.ops[tid].Dropping? && s.ops[tid].loaded.None?
      && t == With(s, tid, Dropping(Some(s.count), s.ops[tid].owed))
    case DropSwap =>
      && tid in s.ops && s.ops[tid].Dropping? && s.ops[tid].loaded.Some?
      && var op := s.ops[tid];
         t == if op.loaded.value == 0 then AfterDrop(s, tid, op.owed)
              else if s.count == op.loaded.value then AfterDrop(s, tid, op.owed).(count := s.count - 1)
              else With(s, tid, Dropping(None, op.owed))
    case _ => false
  }

  /** CreateSession and DestroySession. */
  predicate ControlStep(s: Sys, t: Sys, tid: nat, m: Move) {
    match m
    case Submit(key) => Idle(s, tid) && t == With(s, tid, Submitted(key, false))
    case Refuse =>
      // an invalid address, or no discriminator to be had
      tid in s.ops && (s.ops[tid].Submitted? || s.ops[tid].Checked?) && t == GiveUp(s, tid, s.ops[tid].unsolicited)
    case CheckDuplicate =>
      && s.closer.None? && tid in s.ops && s.ops[tid].Submitted?
      && var op := s.ops[tid];
         t == if op.key in s.tables.byPeer then GiveUp(s, tid, op.unsolicited)
              else With(s, tid, Checked(op.key, op.unsolicited))
    case Draw(d) =>
      && tid in s.ops && s.ops[tid].Checked? && d != 0 && d !in s.taken
      && t == With(s, tid, Built(s.ops[tid].key, d, s.ops[tid].unsolicited)).(taken := s.taken + {d})
    case BuildFails =>
      tid in s.ops && s.ops[tid].Built? && t == With(s, tid, Failed(s.ops[tid].discr, s.ops[tid].unsolicited))
    case Register(id) =>
      && s.closer.None? && tid in s.ops && s.ops[tid].Built? && id !in s.tables.entries
      && var op := s.ops[tid];
         t == if op.key in s.tables.byPeer then With(s, tid, Failed(op.discr, op.unsolicited))
              else
                var u := s.(tables := Enter(s.tables, id, Entry(op.discr, op.key, false)));
                if op.unsolicited then With(u, tid, Unmarked(op.discr)) else Done(u, tid)
    case ReturnDiscr =>
      && tid in s.ops && s.ops[tid].Failed?
      && t == GiveUp(s.(taken := s.taken - {s.ops[tid].discr}), tid, s.ops[tid].unsolicited)
    case MarkUnsolicited =>
      && s.closer.None? && tid in s.ops && s.ops[tid].Unmarked? && NoDangling(s.tables)
      && t == Done(s.(tables := Mark(s.tables, s.ops[tid].discr)), tid)
    case Destroy(d) =>
      && s.closer.None? && Idle(s, tid) && d in s.tables.sessions && NoDangling(s.tables)
      && var u := s.(tables := Remove(s.tables, d));
         t == With(u, tid, if s.tables.entries[s.tables.sessions[d]].unsolicited then Dropping(None, Some(d)) else Freeing(d))
    case Free =>
      tid in s.ops && s.ops[tid].Freeing? && t == Done(s.(taken := s.taken - {s.ops[tid].discr}), tid)
    case _ => false
  }

  /** CreateEchoSession, DestroyEchoSession and Close. */
  predicate OtherStep(s: Sys, t: Sys, tid: nat, m: Move) {
    match m
    case EchoDraw(d) =>
      Idle(s, tid) && d != 0 && d !in s.taken && t == With(s, tid, EchoBuilt(d)).(taken := s.taken + {d})
    case BuildFails =>
      tid in s.ops && s.ops[tid].EchoBuilt? && t == With(s, tid, Failed(s.ops[tid].discr, false))
    case EchoRegister =>
      && s.closer.None? && tid in s.ops && s.ops[tid].EchoBuilt?
      && t == Done(s.(tables := s.tables.(echo := s.tables.echo + {s.ops[tid].discr})), tid)
    case EchoDestroy(d) =>
      && s.closer.None? && Idle(s, tid) && d in s.tables.echo
      && t == With(s.(tables := s.tables.(echo := s.tables.echo - {d})), tid, Freeing(d))
    case CloseBegin =>
      s.closer.None? && Idle(s, tid) && t == s.(closer := Some(Closer(tid, {})))
    case CloseRelease(d) =>
      && s.closer.Some? && s.closer.value.tid == tid && d !in s.closer.value.released
      && (d in s.tables.sessions || d in s.tables.echo)
      && t == s.(taken := s.taken - {d}, closer := Some(Closer(tid, s.closer.value.released + {d})))
    case CloseEnd =>
      && s.closer.Some? && s.closer.value.tid == tid
      && s.closer.value.released == s.tables.sessions.Keys + s.tables.echo
      && t == s.(tables := Clear(s.tables), closer := None)
    case _ => false
  }

  predicate Next(s: Sys, t: Sys, tid: nat, m: Move) {
    ReserveStep(s, t, tid, m) || ControlStep(s, t, tid, m) || OtherStep(s, t, tid, m)
  }

  // ---- Discriminators ----------------------------------------------------

  /** The discriminator names a session that Close has not yet let go. */
  predicate Live(s: Sys, d: u32) {
    (d in s.tables.sessions || d in s.tables.echo) && !(s.closer.Some? && d in s.closer.value.released)
  }

  predicate HeldBy(s: Sys, tid: nat, d: u32) {
    tid in s.ops && HoldsDiscr(s.ops[tid], d)
  }

  ghost predicate InFlight(s: Sys, d: u32) {
    exists tid: nat :: HeldBy(s, tid, d)
  }

  /** Every taken discriminator is nonzero and has one owner: a live session or one
      operation in progress; and every owner's discriminator is taken. */
  ghost predicate DiscrOk(s: Sys) {
    && Coherent(s.tables)
    && (forall d :: d in s.tables.sessions || d in s.tables.echo ==> d != 0)
    && (forall d :: d in s.taken ==> d != 0 && (Live(s, d) || InFlight(s, d)))
    && (forall d: u32 :: Live(s, d) ==> d in s.taken)
    && (forall tid: nat, d: u32 :: HeldBy(s, tid, d) ==> d in s.taken && !Live(s, d))
    && (forall tid: nat, uid: nat, d: u32 :: HeldBy(s, tid, d) && HeldBy(s, uid, d) ==> tid == uid)
    && (s.closer.Some? ==> s.closer.value.released <= s.tables.sessions.Keys + s.tables.echo)
  }

  predicate Mine(s: Sys, tid: nat, d: u32) {
    Live(s, d) || HeldBy(s, tid, d)
  }

  /** What a step of one operation may do to the ownership of a discriminator: what the
      operation or the tables newly own was not taken before, and what others own stays
      taken. */
  predicate Moved(s: Sys, t: Sys, tid: nat, d: u32) {
    && (Mine(t, tid, d) ==> d in t.taken && d != 0 && !(Live(t, d) && HeldBy(t, tid, d)))
    && (Mine(t, tid, d) && !Mine(s, tid, d) ==> d !in s.taken)
    && (d in t.taken ==> Mine(t, tid, d) || (d in s.taken && !Mine(s, tid, d)))
    && (d in s.taken && !Mine(s, tid, d) ==> d in t.taken)
  }

  ghost predicate Handover(s: Sys, t: Sys, tid: nat) {
    t.ops - {tid} == s.ops - {tid} && forall d: u32 :: Moved(s, t, tid, d)
  }

  lemma OwnedIsTaken(s: Sys, tid: nat, d: u32)
    requires DiscrOk(s)
    ensures Mine(s, tid, d) ==> d in s.taken && d != 0
    ensures HeldBy(s, tid, d) ==> !Live(s, d)
  {
  }

  lemma OthersKeep(s: Sys, t: Sys, tid: nat, uid: nat)
    requires t.ops - {tid} == s.ops - {tid} && uid != tid
    ensures forall d: u32 :: HeldBy(t, uid, d) <==> HeldBy(s, uid, d)
  {
    assert uid in t.ops <==> uid in t.ops - {tid};
    assert uid in s.ops <==> uid in s.ops - {tid};
    if uid in s.ops {
      assert (t.ops - {tid})[uid] == (s.ops - {tid})[uid];
    }
  }

  /** What another operation holds, it still holds, and nobody else does. */
  lemma OthersUndisturbed(s: Sys, t: Sys, tid: nat, uid: nat, d: u32)
    requires DiscrOk(s) && Handover(s, t, tid) && uid != tid && HeldBy(t, uid, d)
    ensures d in t.taken && !Live(t, d) && !HeldBy(t, tid, d)
  {
    OthersKeep(s, t, tid, uid);
    assert HeldBy(s, uid, d) && Moved(s, t, tid, d);
    assert !Mine(s, tid, d);
  }

  lemma HandoverKeeps(s: Sys, t: Sys, tid: nat)
    requires DiscrOk(s) && Handover(s, t, tid) && Coherent(t.tables)
    requires forall d :: d in t.tables.sessions || d in t.tables.echo ==> d != 0
    requires t.closer.Some? ==> t.closer.value.released <= t.tables.sessions.Keys + t.tables.echo
    ensures DiscrOk(t)
  {
    forall d | d in t.taken
      ensures d != 0 && (Live(t, d) || InFlight(t, d))
    {
      assert Moved(s, t, tid, d);
      if !Mine(t, tid, d) {
        assert !Mine(s, tid, d);
        assert InFlight(s, d);
        var uid: nat :| HeldBy(s, uid, d);
        OthersKeep(s, t, tid, uid);
        assert HeldBy(t, uid, d);
      } else if !Live(t, d) {
        assert HeldBy(t, tid, d);
      }
    }
    forall uid: nat, d: u32 | HeldBy(t, uid, d)
      ensures d in t.taken && !Live(t, d)
    {
      assert Moved(s, t, tid, d);
      if uid != tid {
        OthersUndisturbed(s, t, tid, uid, d);
      }
    }
    forall uid: nat, vid: nat, d: u32 | HeldBy(t, uid, d) && HeldBy(t, vid, d)
      ensures uid == vid
    {
      HeldOnce(s, t, tid, uid, vid, d);
    }
    forall d: u32 | Live(t, d)
      ensures d in t.taken
    {
      assert Moved(s, t, tid, d) && Mine(t, tid, d);
    }
  }

  lemma HeldOnce(s: Sys, t: Sys, tid: nat, uid: nat, vid: nat, d: u32)
    requires DiscrOk(s) && Handover(s, t, tid) && HeldBy(t, uid, d) && HeldBy(t, vid, d)
    ensures uid == vid
  {
    if uid != tid {
      OthersUndisturbed(s, t, tid, uid, d);
      OthersKeep(s, t, tid, uid);
    }
    if vid != tid {
      OthersUndisturbed(s, t, tid, vid, d);
      OthersKeep(s, t, tid, vid);
    }
    if uid != tid && vid != tid {
      assert HeldBy(s, uid, d) && HeldBy(s, vid, d);
    }
  }

  /** The counter's steps hand no discriminator over. */
  lemma ReserveHandsNothing(s: Sys, t: Sys, tid: nat, m: Move, d: u32)
    requires ReserveStep(s, t, tid, m)
    ensures t.tables == s.tables && t.taken == s.taken && t.closer == s.closer && t.ops - {tid} == s.ops - {tid}
    ensures HeldBy(t, tid, d) <==> HeldBy(s, tid, d)
  {
  }

  lemma ReserveKeepsDiscr(s: Sys, t: Sys, tid: nat, m: Move)
    requires DiscrOk(s) && ReserveStep(s, t, tid, m)
    ensures DiscrOk(t)
  {
    forall d: u32
      ensures Moved(s, t, tid, d) && t.tables == s.tables && t.closer == s.closer && t.ops - {tid} == s.ops - {tid}
    {
      ReserveHandsNothing(s, t, tid, m, d);
      OwnedIsTaken(s, tid, d);
    }
    HandoverKeeps(s, t, tid);
  }

  /** The steps of CreateSession and DestroySession that leave the tables alone. */
  lemma QuietKeepsDiscr(s: Sys, t: Sys, tid: nat, m: Move)
    requires DiscrOk(s) && ControlStep(s, t, tid, m) && t.tables == s.tables
    ensures DiscrOk(t)
  {
    forall d: u32
      ensures Moved(s, t, tid, d)
    {
      OwnedIsTaken(s, tid, d);
      assert Live(t, d) <==> Live(s, d);
    }
    assert t.ops - {tid} == s.ops - {tid};
    HandoverKeeps(s, t, tid);
  }

  lemma RegisterKeepsDiscr(s: Sys, t: Sys, tid: nat, id: nat)
    requires DiscrOk(s) && ControlStep(s, t, tid, Register(id)) && t.tables != s.tables
    ensures DiscrOk(t)
  {
    var op := s.ops[tid];
    assert HeldBy(s, tid, op.discr);
    EnterCoherent(s.tables, id, Entry(op.discr, op.key, false));
    forall d: u32
      ensures Moved(s, t, tid, d)
    {
      OwnedIsTaken(s, tid, d);
      assert Live(t, d) <==> Live(s, d) || d == op.discr;
      assert HeldBy(s, tid, d) <==> d == op.discr;
      assert !HeldBy(t, tid, d);
    }
    HandoverKeeps(s, t, tid);
  }

  lemma MarkKeepsDiscr(s: Sys, t: Sys, tid: nat)
    requires DiscrOk(s) && ControlStep(s, t, tid, MarkUnsolicited)
    ensures DiscrOk(t)
  {
    MarkCoherent(s.tables, s.ops[tid].discr);
    forall d: u32
      ensures Moved(s, t, tid, d)
    {
      OwnedIsTaken(s, tid, d);
      assert Live(t, d) <==> Live(s, d);
    }
    HandoverKeeps(s, t, tid);
  }

  lemma DestroyKeepsDiscr(s: Sys, t: Sys, tid: nat, x: u32)
    requires DiscrOk(s) && ControlStep(s, t, tid, Destroy(x))
    ensures DiscrOk(t)
  {
    RemoveCoherent(s.tables, x);
    forall d: u32
      ensures Moved(s, t, tid, d)
    {
      OwnedIsTaken(s, tid, d);
      assert Live(t, d) <==> Live(s, d) && d != x;
      assert HeldBy(t, tid, d) <==> d == x;
      assert Live(s, x);
    }
    HandoverKeeps(s, t, tid);
  }

  lemma ControlKeepsDiscr(s: Sys, t: Sys, tid: nat, m: Move)
    requires DiscrOk(s) && ControlStep(s, t, tid, m)
    ensures DiscrOk(t)
  {
    if t.tables == s.tables {
      QuietKeepsDiscr(s, t, tid, m);
    } else {
      match m {
        case Register(id) => RegisterKeepsDiscr(s, t, tid, id);
        case MarkUnsolicited => MarkKeepsDiscr(s, t, tid);
        case Destroy(d) => DestroyKeepsDiscr(s, t, tid, d);
        case _ =>
      }
    }
  }

  lemma OtherKeepsDiscr(s: Sys, t: Sys, tid: nat, m: Move)
    requires DiscrOk(s) && OtherStep(s, t, tid, m)
    ensures DiscrOk(t)
  {
    forall d: u32
      ensures Moved(s, t, tid, d)
    {
      OwnedIsTaken(s, tid, d);
    }
    assert t.ops - {tid} == s.ops - {tid};
    if m.EchoRegister? {
      var d := s.ops[tid].discr;
      assert HeldBy(s, tid, d);
      assert !Live(s, d);
    }
    HandoverKeeps(s, t, tid);
  }

  // ---- Runs --------------------------------------------------------------

  predicate Initial(s: Sys) {
    s == Sys(Tables(map[], map[], map[], {}), {}, map[], None, 0, s.max)
  }

  ghost predicate Moves(s: Sys, t: Sys) {
    exists tid: nat, m: Move :: Next(s, t, tid, m)
  }

  ghost predicate IsRun(run: seq<Sys>) {
    |run| > 0 && Initial(run[0]) && forall i :: 0 <= i < |run| - 1 ==> Moves(run[i], run[i + 1])
  }

  lemma NextKeepsDiscr(s: Sys, t: Sys)
    requires DiscrOk(s) && Moves(s, t)
    ensures DiscrOk(t)
  {
    var tid: nat, m: Move :| Next(s, t, tid, m);
    if ReserveStep(s, t, tid, m) {
      ReserveKeepsDiscr(s, t, tid, m);
    } else if ControlStep(s, t, tid, m) {
      ControlKeepsDiscr(s, t, tid, m);
    } else {
      OtherKeepsDiscr(s, t, tid, m);
    }
  }

  /** In every interleaving the indexes agree and every discriminator has one owner. */
  lemma {:induction false} DiscriminatorsSafe(run: seq<Sys>, n: nat)
    requires IsRun(run) && n < |run|
    ensures DiscrOk(run[n])
  {
    if n > 0 {
      DiscriminatorsSafe(run, n - 1);
      assert Moves(run[n - 1], run[n - 1 + 1]);
      NextKeepsDiscr(run[n - 1], run[n]);
    }
  }

  /** Whenever no Close is under way, the taken discriminators are exactly those of the
      live sessions and of the operations in progress: none leaks, and none that a session
      still uses is handed out again or given back. */
  lemma NothingLeaks(run: seq<Sys>, n: nat)
    requires IsRun(run) && n < |run| && run[n].closer.None?
    ensures Coherent(run[n].tables)
    ensures forall d: u32 :: d in run[n].taken
              <==> d in run[n].tables.sessions || d in run[n].tables.echo || InFlight(run[n], d)
    ensures forall d: u32 :: InFlight(run[n], d) ==> d != 0 && d !in run[n].tables.sessions && d !in run[n].tables.echo
    ensures run[n].ops == map[] ==> run[n].taken == run[n].tables.sessions.Keys + run[n].tables.echo
  {
    DiscriminatorsSafe(run, n);
    var s := run[n];
    forall d: u32
      ensures d in s.taken <==> d in s.tables.sessions || d in s.tables.echo || InFlight(s, d)
      ensures InFlight(s, d) ==> d != 0 && d !in s.tables.sessions && d !in s.tables.echo
    {
      assert Live(s, d) <==> d in s.tables.sessions || d in s.tables.echo;
      if InFlight(s, d) {
        var tid: nat :| HeldBy(s, tid, d);
      }
    }
  }
}
