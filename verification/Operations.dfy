/** Each operation of the manager, taken from beginning to end with nothing between its
    steps: what it makes of the manager, and that its steps lead there. */
module Operations {
  import opened Bytes
  import opened Manager
  import opened Reservations

  /** Steps one after another, from anywhere. */
  predicate Path(run: seq<Sys>, labels: seq<Label>) {
    && |run| == |labels| + 1
    && forall i :: 0 <= i < |labels| ==> Next(run[i], run[i + 1], labels[i].tid, labels[i].move)
  }

  /** The steps of some operations lead from s to t. */
  ghost predicate Leads(s: Sys, t: Sys) {
    exists run: seq<Sys>, labels: seq<Label> :: Path(run, labels) && run[0] == s && run[|run| - 1] == t
  }

  lemma LeadsNowhere(s: Sys)
    ensures Leads(s, s)
  {
    assert Path([s], []);
  }

  lemma LeadsNext(s: Sys, t: Sys, u: Sys, tid: nat, m: Move)
    requires Leads(s, t) && Next(t, u, tid, m)
    ensures Leads(s, u)
  {
    var run: seq<Sys>, labels: seq<Label> :| Path(run, labels) && run[0] == s && run[|run| - 1] == t;
    PathNext(run, labels, u, Label(tid, m));
    assert (run + [u])[|run|] == u;
  }

  lemma PathNext(run: seq<Sys>, labels: seq<Label>, u: Sys, l: Label)
    requires Path(run, labels) && Next(run[|run| - 1], u, l.tid, l.move)
    ensures Path(run + [u], labels + [l])
  {
  }

  /** What holds at the end of every history holds where such steps lead. */
  lemma {:induction false} HistoryGoesOn(run: seq<Sys>, labels: seq<Label>, more: seq<Sys>, moreLabels: seq<Label>)
    requires Follows(run, labels) && Path(more, moreLabels) && more[0] == run[|run| - 1]
    ensures Follows(run + more[1..], labels + moreLabels)
    decreases |more|
  {
    if |moreLabels| == 0 {
      assert run + more[1..] == run && labels + moreLabels == labels;
    } else {
      Extended(run, labels, more[1], moreLabels[0]);
      assert Path(more[1..], moreLabels[1..]) by {
        forall i | 0 <= i < |moreLabels| - 1
          ensures Next(more[1..][i], more[1..][i + 1], moreLabels[1..][i].tid, moreLabels[1..][i].move)
        {
          assert Next(more[i + 1], more[i + 1 + 1], moreLabels[i + 1].tid, moreLabels[i + 1].move);
        }
      }
      HistoryGoesOn(run + [more[1]], labels + [moreLabels[0]], more[1..], moreLabels[1..]);
      assert run + [more[1]] + more[1..][1..] == run + more[1..];
      assert labels + [moreLabels[0]] + moreLabels[1..] == labels + moreLabels;
    }
  }

  /** Some history ends in s. */
  ghost predicate Reachable(s: Sys) {
    exists run: seq<Sys>, labels: seq<Label> :: Follows(run, labels) && run[|run| - 1] == s
  }

  lemma ReachableOn(s: Sys, t: Sys)
    requires Reachable(s) && Leads(s, t)
    ensures Reachable(t)
  {
    var run: seq<Sys>, labels: seq<Label> :| Follows(run, labels) && run[|run| - 1] == s;
    var more: seq<Sys>, moreLabels: seq<Label> :| Path(more, moreLabels) && more[0] == s && more[|more| - 1] == t;
    HistoryGoesOn(run, labels, more, moreLabels);
    assert (run + more[1..])[|run + more[1..]| - 1] == t;
  }

  /** Whatever has been reached is safe. */
  lemma ReachableSafe(s: Sys)
    requires Reachable(s)
    ensures DiscrOk(s)
  {
    var run: seq<Sys>, labels: seq<Label> :| Follows(run, labels) && run[|run| - 1] == s;
    FollowsIsRun(run, labels);
    DiscriminatorsSafe(run, |run| - 1);
  }

  // ---- The operations ----------------------------------------------------

  /** Nothing is under way. */
  predicate AtRest(s: Sys) {
    s.ops == map[] && s.closer == None
  }

  /** CreateSession succeeds. */
  function Registered(s: Sys, key: Key, d: u32): Sys {
    s.(tables := Enter(s.tables, d, Entry(d, key, false)), taken := s.taken + {d})
  }

  lemma CreateLeads(s: Sys, key: Key, d: u32)
    requires AtRest(s) && key !in s.tables.byPeer && d != 0 && d !in s.taken && d !in s.tables.entries
    ensures Leads(s, Registered(s, key, d))
  {
    LeadsNowhere(s);
    var s1 := With(s, 0, Submitted(key, false));
    LeadsNext(s, s, s1, 0, Submit(key));
    var s2 := With(s, 0, Checked(key, false));
    LeadsNext(s, s1, s2, 0, CheckDuplicate);
    var s3 := With(s, 0, Built(key, d, false)).(taken := s.taken + {d});
    LeadsNext(s, s2, s3, 0, Draw(d));
    assert s3.ops - {0} == s.ops;
    LeadsNext(s, s3, Registered(s, key, d), 0, Register(d));
  }

  function Lowered(count: int): int {
    if count == 0 then 0 else count - 1
  }

  /** DestroySession succeeds. */
  function Withdrawn(s: Sys, d: u32): Sys
    requires d in s.tables.sessions && s.tables.sessions[d] in s.tables.entries
  {
    s.(tables := Remove(s.tables, d), taken := s.taken - {d},
       count := if s.tables.entries[s.tables.sessions[d]].unsolicited then Lowered(s.count) else s.count)
  }

  lemma DestroyUnmarkedLeads(s: Sys, d: u32)
    requires AtRest(s) && NoDangling(s.tables) && d in s.tables.sessions
    requires !s.tables.entries[s.tables.sessions[d]].unsolicited
    ensures Leads(s, Withdrawn(s, d))
  {
    LeadsNowhere(s);
    var s1 := With(s.(tables := Remove(s.tables, d)), 0, Freeing(d));
    LeadsNext(s, s, s1, 0, Destroy(d));
    assert s1.ops - {0} == s.ops;
    LeadsNext(s, s1, Withdrawn(s, d), 0, Free);
  }

  lemma DestroyMarkedLeads(s: Sys, d: u32)
    requires AtRest(s) && NoDangling(s.tables) && d in s.tables.sessions
    requires s.tables.entries[s.tables.sessions[d]].unsolicited
    ensures Leads(s, Withdrawn(s, d))
  {
    LeadsNowhere(s);
    var u := s.(tables := Remove(s.tables, d));
    LeadsNext(s, s, With(u, 0, Dropping(None, Some(d))), 0, Destroy(d));
    DropLeads(s, u, d);
    var s3 := With(u, 0, Freeing(d)).(count := Lowered(s.count));
    assert s3.ops - {0} == s.ops;
    LeadsNext(s, s3, Withdrawn(s, d), 0, Free);
  }

  lemma DropLeads(s: Sys, u: Sys, d: u32)
    requires Leads(s, With(u, 0, Dropping(None, Some(d)))) && AtRest(u)
    ensures Leads(s, With(u, 0, Freeing(d)).(count := Lowered(u.count)))
  {
    var s1, s2 := With(u, 0, Dropping(None, Some(d))), With(u, 0, Dropping(Some(u.count), Some(d)));
    assert s2 == With(s1, 0, Dropping(Some(u.count), Some(d)));
    LeadsNext(s, s1, s2, 0, DropLoad);
    assert AfterDrop(s2, 0, Some(d)) == With(u, 0, Freeing(d));
    LeadsNext(s, s2, With(u, 0, Freeing(d)).(count := Lowered(u.count)), 0, DropSwap);
  }

  lemma DestroyLeads(s: Sys, d: u32)
    requires AtRest(s) && NoDangling(s.tables) && d in s.tables.sessions
    ensures Leads(s, Withdrawn(s, d))
  {
    if s.tables.entries[s.tables.sessions[d]].unsolicited {
      DestroyMarkedLeads(s, d);
    } else {
      DestroyUnmarkedLeads(s, d);
    }
  }

  // ---- Unsolicited sessions ----------------------------------------------

  predicate Admits(s: Sys) {
    s.max <= 0 || s.count < s.max
  }

  lemma ReserveLeads(s: Sys, key: Key)
    requires AtRest(s) && Admits(s)
    ensures Leads(s, With(s, 0, Submitted(key, true)).(count := Wrap32(s.count + 1)))
  {
    LeadsNowhere(s);
    var t := With(s, 0, Submitted(key, true)).(count := Wrap32(s.count + 1));
    if s.max <= 0 {
      LeadsNext(s, s, t, 0, TryReserve(key));
    } else {
      var s1 := With(s, 0, Trying(key));
      LeadsNext(s, s, s1, 0, TryReserve(key));
      var s2 := With(s, 0, Loaded(key, s.count));
      LeadsNext(s, s1, s2, 0, LoadCount);
      assert With(s2, 0, Submitted(key, true)) == With(s, 0, Submitted(key, true));
      LeadsNext(s, s2, t, 0, SwapCount);
    }
  }

  /** No sender: the reservation stays. */
  lemma TurnAwayLeads(s: Sys, key: Key)
    requires AtRest(s) && Admits(s)
    ensures Leads(s, s.(count := Wrap32(s.count + 1)))
  {
    ReserveLeads(s, key);
    var t := With(s, 0, Submitted(key, true)).(count := Wrap32(s.count + 1));
    assert t.ops - {0} == s.ops;
    LeadsNext(s, t, s.(count := Wrap32(s.count + 1)), 0, NoSender);
  }

  /** The creation fails: the reservation is given back. */
  lemma GiveBackLeads(s: Sys, key: Key)
    requires AtRest(s) && Admits(s)
    ensures Leads(s, s.(count := Lowered(Wrap32(s.count + 1))))
  {
    ReserveLeads(s, key);
    var r := s.(count := Wrap32(s.count + 1));
    var t := With(s, 0, Submitted(key, true)).(count := r.count);
    var s1 := With(r, 0, Dropping(None, None));
    LeadsNext(s, t, s1, 0, Refuse);
    var s2 := With(r, 0, Dropping(Some(r.count), None));
    LeadsNext(s, s1, s2, 0, DropLoad);
    assert s2.ops - {0} == s.ops;
    LeadsNext(s, s2, s.(count := Lowered(r.count)), 0, DropSwap);
  }

  /** The creation succeeds, and the session is marked. */
  function Admitted(s: Sys, key: Key, d: u32): Sys {
    s.(tables := Enter(s.tables, d, Entry(d, key, true)), taken := s.taken + {d}, count := Wrap32(s.count + 1))
  }

  lemma AdmitLeads(s: Sys, key: Key, d: u32)
    requires AtRest(s) && Admits(s) && NoDangling(s.tables)
    requires key !in s.tables.byPeer && d != 0 && d !in s.taken && d !in s.tables.entries
    ensures Leads(s, Admitted(s, key, d))
  {
    var b := s.(count := Wrap32(s.count + 1), taken := s.taken + {d});
    BuildLeads(s, key, d, b);
    var e := b.(tables := Enter(s.tables, d, Entry(d, key, false)));
    LeadsNext(s, With(b, 0, Built(key, d, true)), With(e, 0, Unmarked(d)), 0, Register(d));
    MarkEntered(s.tables, d, key);
    assert With(e, 0, Unmarked(d)).ops - {0} == s.ops;
    LeadsNext(s, With(e, 0, Unmarked(d)), Admitted(s, key, d), 0, MarkUnsolicited);
  }

  lemma BuildLeads(s: Sys, key: Key, d: u32, b: Sys)
    requires AtRest(s) && Admits(s) && key !in s.tables.byPeer && d != 0 && d !in s.taken
    requires b == s.(count := Wrap32(s.count + 1), taken := s.taken + {d})
    ensures Leads(s, With(b, 0, Built(key, d, true)))
  {
    ReserveLeads(s, key);
    var r := s.(count := b.count);
    LeadsNext(s, With(r, 0, Submitted(key, true)), With(r, 0, Checked(key, true)), 0, CheckDuplicate);
    LeadsNext(s, With(r, 0, Checked(key, true)), With(b, 0, Built(key, d, true)), 0, Draw(d));
  }

  lemma MarkEntered(t: Tables<nat>, d: u32, key: Key)
    requires NoDangling(t)
    ensures var e := Enter(t, d, Entry(d, key, false)); NoDangling(e) && Mark(e, d) == Enter(t, d, Entry(d, key, true))
  {
  }

  // ---- Echo sessions and Close -------------------------------------------

  function EchoEntered(s: Sys, d: u32): Sys {
    s.(tables := s.tables.(echo := s.tables.echo + {d}), taken := s.taken + {d})
  }

  lemma EchoCreateLeads(s: Sys, d: u32)
    requires AtRest(s) && d != 0 && d !in s.taken
    ensures Leads(s, EchoEntered(s, d))
  {
    LeadsNowhere(s);
    var s1 := With(s, 0, EchoBuilt(d)).(taken := s.taken + {d});
    LeadsNext(s, s, s1, 0, EchoDraw(d));
    assert s1.ops - {0} == s.ops;
    LeadsNext(s, s1, EchoEntered(s, d), 0, EchoRegister);
  }

  function EchoLeft(s: Sys, d: u32): Sys {
    s.(tables := s.tables.(echo := s.tables.echo - {d}), taken := s.taken - {d})
  }

  lemma EchoDestroyLeads(s: Sys, d: u32)
    requires AtRest(s) && d in s.tables.echo
    ensures Leads(s, EchoLeft(s, d))
  {
    LeadsNowhere(s);
    var s1 := With(s.(tables := s.tables.(echo := s.tables.echo - {d})), 0, Freeing(d));
    LeadsNext(s, s, s1, 0, EchoDestroy(d));
    assert s1.ops - {0} == s.ops;
    LeadsNext(s, s1, EchoLeft(s, d), 0, Free);
  }

  function Closed(s: Sys): Sys {
    s.(tables := Clear(s.tables), taken := s.taken - s.tables.sessions.Keys - s.tables.echo)
  }

  /** Close has let go of some of the discriminators. */
  function Closing(s: Sys, released: set<u32>): Sys {
    s.(taken := s.taken - released, closer := Some(Closer(0, released)))
  }

  lemma {:induction false} ReleasingLeads(s: Sys, released: set<u32>)
    requires AtRest(s) && released <= s.tables.sessions.Keys + s.tables.echo
    ensures Leads(s, Closing(s, released))
    decreases released
  {
    if released == {} {
      LeadsNowhere(s);
      assert Closing(s, {}) == s.(closer := Some(Closer(0, {})));
      LeadsNext(s, s, Closing(s, {}), 0, CloseBegin);
    } else {
      var d :| d in released;
      var rest := released - {d};
      ReleasingLeads(s, rest);
      assert rest + {d} == released && s.taken - rest - {d} == s.taken - released;
      LeadsNext(s, Closing(s, rest), Closing(s, released), 0, CloseRelease(d));
    }
  }

  lemma CloseLeads(s: Sys)
    requires AtRest(s)
    ensures Leads(s, Closed(s))
  {
    var all := s.tables.sessions.Keys + s.tables.echo;
    ReleasingLeads(s, all);
    assert s.taken - all == s.taken - s.tables.sessions.Keys - s.tables.echo;
    LeadsNext(s, Closing(s, all), Closed(s), 0, CloseEnd);
  }
}
