/** Reconciliation of the control sessions with a desired set, keyed by strings. */
module Reconcile {
  import opened Bytes
  import opened SessionObject
  import opened Discriminator
  import opened Manager
  import opened ManagerObject

  /** A desired session: its key string, and what is needed to create it. */
  datatype Wanted = Wanted(key: string, req: Request)

  function KeyString(k: Key): string {
    k.peer + "|" + k.local + "|" + k.ifName
  }

  /** Addresses are written without the separator; interface names need not be. */
  predicate Plain(k: Key) {
    '|' !in k.peer && '|' !in k.local
  }

  lemma BarSplits(x: string, y: string, u: string, v: string)
    requires '|' !in x && '|' !in u && x + "|" + y == u + "|" + v
    ensures x == u && y == v
  {
    var s, t := x + "|" + y, u + "|" + v;
    assert s[|x|] == '|' && t[|u|] == '|';
    assert s[..|x|] == x && t[..|u|] == u;
    assert s[|x| + 1..] == y && t[|u| + 1..] == v;
  }

  lemma KeyStringInjective(a: Key, b: Key)
    requires Plain(a) && Plain(b) && KeyString(a) == KeyString(b)
    ensures a == b
  {
    assert KeyString(a) == a.peer + "|" + (a.local + "|" + a.ifName);
    assert KeyString(b) == b.peer + "|" + (b.local + "|" + b.ifName);
    BarSplits(a.peer, a.local + "|" + a.ifName, b.peer, b.local + "|" + b.ifName);
    BarSplits(a.local, a.ifName, b.local, b.ifName);
  }

  /** Canonical requests: the string is the one the manager itself would form. */
  predicate Canonical(w: Wanted) {
    Plain(w.req.key) && w.key == KeyString(w.req.key)
  }

  ghost predicate AllCanonical(desired: seq<Wanted>) {
    forall i :: 0 <= i < |desired| ==> Canonical(desired[i])
  }

  ghost predicate AllPlain(keys: set<Key>) {
    forall k :: k in keys ==> Plain(k)
  }

  function Targets(desired: seq<Wanted>): set<Key> {
    set i | 0 <= i < |desired| :: desired[i].req.key
  }

  /** What is wanted under each string; of two requests with one string the last counts. */
  function Wants(desired: seq<Wanted>): map<string, Request> {
    if desired == [] then map[]
    else
      var n := |desired| - 1;
      Wants(desired[..n])[desired[n].key := desired[n].req]
  }

  /** Of the requests with one string the last one is what is wanted, and nothing is wanted that
      was not requested. */
  lemma {:induction false} LastRequestCounts(desired: seq<Wanted>, i: nat)
    requires i < |desired| && forall j :: i < j < |desired| ==> desired[j].key != desired[i].key
    ensures desired[i].key in Wants(desired) && Wants(desired)[desired[i].key] == desired[i].req
    decreases |desired|
  {
    var n := |desired| - 1;
    if i < n {
      LastRequestCounts(desired[..n], i);
    }
  }

  lemma {:induction false} OnlyRequests(desired: seq<Wanted>, s: string)
    requires s in Wants(desired)
    ensures exists i :: 0 <= i < |desired| && desired[i].key == s && desired[i].req == Wants(desired)[s]
    decreases |desired|
  {
    var n := |desired| - 1;
    if desired[n].key != s {
      OnlyRequests(desired[..n], s);
      var i :| 0 <= i < n && desired[..n][i].key == s && desired[..n][i].req == Wants(desired)[s];
      assert desired[i].key == s && desired[i].req == Wants(desired)[s];
    }
  }

  // Below, S is the type of the strings.

  ghost predicate OneToOne<S>(name: map<S, Key>) {
    forall s, t :: s in name && t in name && name[s] == name[t] ==> s == t
  }

  /** The keys that some strings stand for. */
  function Named<S(==)>(name: map<S, Key>, strings: set<S>): set<Key> {
    set s | s in strings && s in name :: name[s]
  }

  // ---- The first half: what is not wanted is destroyed -------------------

  method DestroyKeyed(m: SessionManager, discr: u32, ghost k: Key) returns (err: Option<ManagerError>)
    requires m.Valid() && k in m.sessionsByPeer && m.sessionsByPeer[k].Discr() == discr
    modifies m`sessions, m`sessionsByPeer, m`reserved, m.discriminators
    ensures m.Valid() && err == None
    ensures m.sessionsByPeer == old(m.sessionsByPeer) - {k}
  {
    err := m.DestroySession(discr);
  }

  lemma OneLess(before: map<Key, SessionEntry>, gone: set<Key>, k: Key)
    ensures before - gone - {k} == before - (gone + {k})
  {
  }

  /** How far the sifting has got: of the strings seen, exactly the keys of the unwanted ones
      are gone. */
  ghost predicate Sifted<S>(name: map<S, Key>, all: set<S>, wanted: set<S>, todo: set<S>, gone: set<Key>) {
    todo <= all && gone == Named(name, all - todo - wanted)
  }

  lemma SiftedNext<S>(name: map<S, Key>, all: set<S>, wanted: set<S>, todo: set<S>, gone: set<Key>, s: S)
    requires OneToOne(name) && Sifted(name, all, wanted, todo, gone) && s in todo && s in name
    ensures s in wanted ==> Sifted(name, all, wanted, todo - {s}, gone)
    ensures s !in wanted ==> name[s] !in gone && Sifted(name, all, wanted, todo - {s}, gone + {name[s]})
  {
    if s in wanted {
      assert all - (todo - {s}) - wanted == all - todo - wanted;
    } else {
      assert all - (todo - {s}) - wanted == all - todo - wanted + {s};
    }
  }

  /** One unwanted string: its session is gone. */
  method DestroyNext<S>(m: SessionManager, discr: u32, ghost before: map<Key, SessionEntry>, ghost name: map<S, Key>,
                        ghost all: set<S>, ghost wanted: set<S>, ghost todo: set<S>, ghost gone: set<Key>, ghost s: S)
    returns (err: Option<ManagerError>, ghost after: set<Key>)
    requires m.Valid() && m.sessionsByPeer == before - gone
    requires OneToOne(name) && Sifted(name, all, wanted, todo, gone) && s in todo && s in name && s !in wanted
    requires name[s] in before && before[name[s]].Discr() == discr
    modifies m`sessions, m`sessionsByPeer, m`reserved, m.discriminators
    ensures m.Valid() && m.sessionsByPeer == before - after && err == None
    ensures Sifted(name, all, wanted, todo - {s}, after) && |after| == |gone| + 1
  {
    SiftedNext(name, all, wanted, todo, gone, s);
    OneLess(before, gone, name[s]);
    after := gone + {name[s]};
    err := DestroyKeyed(m, discr, name[s]);
  }

  /** Destroys the sessions of the strings that are not wanted; none of it can fail. */
  method DestroyUnwanted<S(==)>(m: SessionManager, current: map<S, u32>, wanted: set<S>, ghost name: map<S, Key>)
    returns (destroyed: nat, errs: seq<S>)
    requires m.Valid() && OneToOne(name) && name.Keys == current.Keys
    requires forall s :: s in current ==> name[s] in m.sessionsByPeer && m.sessionsByPeer[name[s]].Discr() == current[s]
    modifies m`sessions, m`sessionsByPeer, m`reserved, m.discriminators
    ensures m.Valid() && errs == []
    ensures m.sessionsByPeer == old(m.sessionsByPeer) - Named(name, current.Keys - wanted)
    ensures destroyed == |Named(name, current.Keys - wanted)|
    ensures current.Keys <= wanted ==> m.sessions == old(m.sessions)
  {
    ghost var before, gone := m.sessionsByPeer, {};
    destroyed, errs := 0, [];
    var todo := current.Keys;
    while todo != {}
      invariant m.Valid() && m.sessionsByPeer == before - gone
      invariant Sifted(name, current.Keys, wanted, todo, gone)
      invariant destroyed == |gone| && errs == [] && (current.Keys <= wanted ==> m.sessions == old(m.sessions))
      decreases todo
    {
      var s :| s in todo;
      if s in wanted {
        SiftedNext(name, current.Keys, wanted, todo, gone, s);
      } else {
        var err, after := DestroyNext(m, current[s], before, name, current.Keys, wanted, todo, gone, s);
        gone := after;
        if err.Some? {
          errs := errs + [s];
        } else {
          destroyed := destroyed + 1;
        }
      }
      todo := todo - {s};
    }
    assert current.Keys - todo - wanted == current.Keys - wanted;
  }

  // ---- The second half: what is missing is created -----------------------

  /** CreateSession would fail, if this is what is there. */
  ghost predicate Refused(req: Request, keys: set<Key>, taken: set<u32>) {
    Refusal(req, keys, taken).Some?
  }

  lemma RefusedLater(req: Request, keys: set<Key>, taken: set<u32>, keys': set<Key>, taken': set<u32>)
    requires Refused(req, keys, taken) && keys <= keys' && taken <= taken'
    ensures Refused(req, keys', taken')
  {
    if Drawable(req.draws, taken') {
      var i: nat :| Settles(req.draws, i, taken') && req.draws[i].Some?;
      SettlesFirst(req.draws, i, taken);
    }
  }

  /** A free draw that no failed one precedes is drawn, or a free one before it. */
  lemma {:induction false} SettlesFirst(draws: seq<Option<u32>>, i: nat, taken: set<u32>)
    requires i < |draws| && Usable(draws[i], taken) && forall j :: 0 <= j < i ==> draws[j].Some?
    ensures Drawable(draws, taken)
  {
    if j :| 0 <= j < i && Usable(draws[j], taken) {
      SettlesFirst(draws, j, taken);
    } else {
      assert Settles(draws, i, taken);
    }
  }

  /** The missing strings seen so far: those whose session was made, and those that failed. */
  datatype Progress<!S> = Progress(made: set<S>, failed: set<S>)

  ghost predicate Seen<S>(p: Progress<S>, all: set<S>, skip: set<S>, todo: set<S>) {
    todo <= all && p.made + p.failed == all - todo - skip && p.made !! p.failed
  }

  /** The keys that are there: the kept ones and those that were made, none of them twice. */
  ghost predicate Filled<S>(name: map<S, Key>, kept: set<Key>, made: set<S>, keys: set<Key>) {
    && made <= name.Keys && keys == kept + Named(name, made)
    && (forall s :: s in made ==> name[s] !in kept)
    && (forall s, t :: s in made && t in made && name[s] == name[t] ==> s == t)
  }

  lemma FilledNext<S>(name: map<S, Key>, kept: set<Key>, made: set<S>, keys: set<Key>, s: S)
    requires Filled(name, kept, made, keys) && s in name && name[s] !in keys
    ensures s !in made && Filled(name, kept, made + {s}, keys + {name[s]})
  {
  }

  ghost function Advanced<S>(p: Progress<S>, s: S, ok: bool): Progress<S> {
    if ok then p.(made := p.made + {s}) else p.(failed := p.failed + {s})
  }

  lemma SeenNext<S>(p: Progress<S>, all: set<S>, skip: set<S>, todo: set<S>, s: S, ok: bool)
    requires Seen(p, all, skip, todo) && s in todo && s !in skip
    ensures Seen(Advanced(p, s, ok), all, skip, todo - {s})
    ensures s !in p.made && s !in p.failed
  {
  }

  lemma SeenSkip<S>(p: Progress<S>, all: set<S>, skip: set<S>, todo: set<S>, s: S)
    requires Seen(p, all, skip, todo) && s in todo && s in skip
    ensures Seen(p, all, skip, todo - {s})
  {
  }

  /** The kept entries are in place, and what else is there is none of the known ones. */
  ghost predicate Holds(byPeer: map<Key, SessionEntry>, kept: map<Key, SessionEntry>, known: set<SessionEntry>) {
    && (forall k :: k in kept ==> k in byPeer && byPeer[k] == kept[k])
    && (forall k :: k in byPeer && k !in kept ==> byPeer[k] !in known)
  }

  /** The failed strings are refused still. */
  ghost predicate Refusals<S>(wanted: map<S, Request>, failed: set<S>, keys: set<Key>, taken: set<u32>) {
    forall s :: s in failed && s in wanted ==> Refused(wanted[s], keys, taken)
  }

  lemma RefusalsLater<S>(wanted: map<S, Request>, failed: set<S>, keys: set<Key>, taken: set<u32>, keys': set<Key>, taken': set<u32>)
    requires Refusals(wanted, failed, keys, taken) && keys <= keys' && taken <= taken'
    ensures Refusals(wanted, failed, keys', taken')
  {
    forall s | s in failed && s in wanted
      ensures Refused(wanted[s], keys', taken')
    {
      RefusedLater(wanted[s], keys, taken, keys', taken');
    }
  }

  /** One request: created, or refused and nothing changed. */
  method FillOne(m: SessionManager, req: Request) returns (ok: bool)
    requires m.Valid() && WellKeyed(req.config.auth)
    modifies m`sessions, m`sessionsByPeer, m.discriminators
    ensures m.Valid() && old(m.discriminators.taken) <= m.discriminators.taken
    ensures ok ==> && req.key !in old(m.sessionsByPeer) && req.key in m.sessionsByPeer && fresh(m.sessionsByPeer[req.key])
                   && m.sessionsByPeer == old(m.sessionsByPeer)[req.key := m.sessionsByPeer[req.key]]
    ensures !ok ==> && m.sessionsByPeer == old(m.sessionsByPeer) && m.sessions == old(m.sessions)
                    && Refused(req, m.sessionsByPeer.Keys, m.discriminators.taken)
  {
    var r := m.CreateSession(req);
    ok := r.Ok?;
  }

  /** All that is known half-way through. */
  ghost predicate Midway<S>(byPeer: map<Key, SessionEntry>, taken: set<u32>, kept: map<Key, SessionEntry>, known: set<SessionEntry>,
                            wanted: map<S, Request>, name: map<S, Key>, p: Progress<S>)
  {
    && Holds(byPeer, kept, known) && Filled(name, kept.Keys, p.made, byPeer.Keys)
    && Refusals(wanted, p.failed, byPeer.Keys, taken)
  }

  lemma MidwayMade<S>(byPeer: map<Key, SessionEntry>, taken: set<u32>, taken': set<u32>, kept: map<Key,
                      SessionEntry>, known: set<SessionEntry>,
                      wanted: map<S, Request>, name: map<S, Key>, p: Progress<S>, s: S, e: SessionEntry)
    requires Midway(byPeer, taken, kept, known, wanted, name, p) && taken <= taken'
    requires s in name && name[s] !in byPeer && e !in known
    ensures Midway(byPeer[name[s] := e], taken', kept, known, wanted, name, p.(made := p.made + {s}))
  {
    FilledNext(name, kept.Keys, p.made, byPeer.Keys, s);
    assert byPeer[name[s] := e].Keys == byPeer.Keys + {name[s]};
    RefusalsLater(wanted, p.failed, byPeer.Keys, taken, byPeer.Keys + {name[s]}, taken');
  }

  lemma MidwayFailed<S>(byPeer: map<Key, SessionEntry>, taken: set<u32>, taken': set<u32>, kept: map<Key,
                        SessionEntry>, known: set<SessionEntry>,
                        wanted: map<S, Request>, name: map<S, Key>, p: Progress<S>, s: S)
    requires Midway(byPeer, taken, kept, known, wanted, name, p) && taken <= taken'
    requires s in wanted && Refused(wanted[s], byPeer.Keys, taken')
    ensures Midway(byPeer, taken', kept, known, wanted, name, p.(failed := p.failed + {s}))
  {
    RefusalsLater(wanted, p.failed, byPeer.Keys, taken, byPeer.Keys, taken');
  }

  /** One missing string: its session is created, or the failure noted. */
  method FillNext<S>(m: SessionManager, req: Request, ghost kept: map<Key, SessionEntry>, ghost known: set<SessionEntry>,
                     ghost wanted: map<S, Request>, ghost name: map<S, Key>, ghost p: Progress<S>, ghost s: S)
    returns (ok: bool, ghost q: Progress<S>)
    requires m.Valid() && WellKeyed(req.config.auth)
    requires Midway(m.sessionsByPeer, m.discriminators.taken, kept, known, wanted, name, p)
    requires s in wanted && wanted[s] == req && s in name && name[s] == req.key
    modifies m`sessions, m`sessionsByPeer, m.discriminators
    ensures m.Valid() && q == Advanced(p, s, ok) && (!ok ==> m.sessions == old(m.sessions))
    ensures Midway(m.sessionsByPeer, m.discriminators.taken, kept, known, wanted, name, q)
  {
    ghost var byPeer, taken := m.sessionsByPeer, m.discriminators.taken;
    ok := FillOne(m, req);
    if ok {
      MidwayMade(byPeer, taken, m.discriminators.taken, kept, known, wanted, name, p, s, m.sessionsByPeer[req.key]);
    } else {
      MidwayFailed(byPeer, taken, m.discriminators.taken, kept, known, wanted, name, p, s);
    }
    q := Advanced(p, s, ok);
  }

  /** A list of some strings, each once. */
  ghost predicate Lists<S>(errs: seq<S>, strings: set<S>) {
    |errs| == |strings| && (forall s :: s in errs ==> s in strings) && (forall s :: s in strings ==> s in errs)
  }

  /** What has come of the missing strings that are not still to do. */
  ghost predicate Tally<S>(p: Progress<S>, all: set<S>, skip: set<S>, todo: set<S>, created: nat, errs: seq<S>) {
    Seen(p, all, skip, todo) && created == |p.made| && Lists(errs, p.failed)
  }

  lemma TallyNext<S>(p: Progress<S>, all: set<S>, skip: set<S>, todo: set<S>, created: nat, errs: seq<S>, s: S)
    requires Tally(p, all, skip, todo, created, errs) && s in todo
    ensures s in skip ==> Tally(p, all, skip, todo - {s}, created, errs)
    ensures s !in skip ==> && Tally(Advanced(p, s, true), all, skip, todo - {s}, created + 1, errs)
                           && Tally(Advanced(p, s, false), all, skip, todo - {s}, created, errs + [s])
  {
    if s in skip {
      SeenSkip(p, all, skip, todo, s);
    } else {
      SeenNext(p, all, skip, todo, s, true);
      SeenNext(p, all, skip, todo, s, false);
    }
  }

  /** Creates the sessions of the strings that are not current; each failure is reported. */
  method CreateMissing<S(==)>(m: SessionManager, current: set<S>, wanted: map<S, Request>, ghost name: map<S, Key>,
                         ghost known: set<SessionEntry>)
    returns (created: nat, errs: seq<S>, ghost p: Progress<S>)
    requires m.Valid() && name.Keys == wanted.Keys && m.sessionsByPeer.Values <= known
    requires forall s :: s in wanted ==> name[s] == wanted[s].key && WellKeyed(wanted[s].config.auth)
    modifies m`sessions, m`sessionsByPeer, m.discriminators
    ensures m.Valid() && Tally(p, wanted.Keys, current, {}, created, errs)
    ensures Midway(m.sessionsByPeer, m.discriminators.taken, old(m.sessionsByPeer), known, wanted, name, p)
    ensures wanted.Keys <= current ==> m.sessions == old(m.sessions)
  {
    ghost var kept := m.sessionsByPeer;
    p := Progress({}, {});
    created, errs := 0, [];
    var todo := wanted.Keys;
    while todo != {}
      invariant m.Valid() && todo <= wanted.Keys && Tally(p, wanted.Keys, current, todo, created, errs)
      invariant Midway(m.sessionsByPeer, m.discriminators.taken, kept, known, wanted, name, p)
      invariant wanted.Keys <= current ==> m.sessions == old(m.sessions)
      decreases todo
    {
      var s :| s in todo;
      TallyNext(p, wanted.Keys, current, todo, created, errs, s);
      if s !in current {
        var ok, q := FillNext(m, wanted[s], kept, known, wanted, name, p, s);
        p := q;
        if ok {
          created := created + 1;
        } else {
          errs := errs + [s];
        }
      }
      todo := todo - {s};
    }
  }

  // ---- One call ----------------------------------------------------------

  function Strings(keys: set<Key>): set<string> {
    set k | k in keys :: KeyString(k)
  }

  function Reported(errs: seq<string>): set<string> {
    set s | s in errs
  }

  /** The keys that go: those that stand for a current string that is not wanted. */
  function Gone(current: map<string, Key>, wanted: set<string>): set<Key> {
    Named(current, current.Keys - wanted)
  }

  function Keys<S>(wants: map<S, Request>): map<S, Key> {
    map s | s in wants :: wants[s].key
  }

  /** Each string stands for a key whose string it is. */
  ghost predicate Spells(name: map<string, Key>, keys: set<Key>) {
    && (forall s :: s in name ==> name[s] in keys && KeyString(name[s]) == s)
    && (forall k :: k in keys ==> KeyString(k) in name)
  }

  lemma SpellsBack(name: map<string, Key>, keys: set<Key>, k: Key)
    requires Spells(name, keys) && AllPlain(keys) && Plain(k)
    ensures KeyString(k) in name <==> k in keys
    ensures k in keys ==> name[KeyString(k)] == k
  {
    if KeyString(k) in name {
      KeyStringInjective(name[KeyString(k)], k);
    }
  }

  lemma SpelledOnce(name: map<string, Key>, keys: set<Key>)
    requires Spells(name, keys)
    ensures OneToOne(name) && name.Keys == Strings(keys)
  {
  }

  /** A key goes exactly if its string is not wanted and stands for no other key. */
  lemma GoneIff(current: map<string, Key>, keys: set<Key>, wanted: set<string>, k: Key)
    requires Spells(current, keys) && k in keys
    ensures k in Gone(current, wanted) <==> KeyString(k) !in wanted && current[KeyString(k)] == k
  {
    if KeyString(k) !in wanted && current[KeyString(k)] == k {
      assert KeyString(k) in current.Keys - wanted;
    }
  }

  /** The map from key strings to requests. */
  method DesiredKeys(desired: seq<Wanted>) returns (m: map<string, Request>)
    ensures m == Wants(desired)
  {
    m := map[];
    for i := 0 to |desired|
      invariant m == Wants(desired[..i])
    {
      assert desired[..i + 1][..i] == desired[..i];
      m := m[desired[i].key := desired[i].req];
    }
    assert desired[..|desired|] == desired;
  }

  /** sessionKeySet, in whatever order the index yields its keys. */
  method SessionKeySet(m: SessionManager) returns (keys: map<string, u32>, ghost name: map<string, Key>)
    ensures name.Keys == keys.Keys && Spells(name, m.sessionsByPeer.Keys)
    ensures forall s :: s in keys ==> m.sessionsByPeer[name[s]].Discr() == keys[s]
  {
    keys, name := map[], map[];
    var todo := m.sessionsByPeer.Keys;
    while todo != {}
      invariant todo <= m.sessionsByPeer.Keys && name.Keys == keys.Keys
      invariant forall k :: k in m.sessionsByPeer && k !in todo ==> KeyString(k) in keys
      invariant forall s :: s in keys ==>
                  name[s] in m.sessionsByPeer && KeyString(name[s]) == s && m.sessionsByPeer[name[s]].Discr() == keys[s]
      decreases todo
    {
      var k :| k in todo;
      var s := KeyString(k);
      keys := keys[s := m.sessionsByPeer[k].Discr()];
      name := name[s := k];
      todo := todo - {k};
    }
  }

  /** Both halves. */
  method Adjust<S(==)>(m: SessionManager, current: map<S, u32>, wanted: map<S, Request>, ghost name: map<S, Key>,
                       ghost wantedName: map<S, Key>, ghost gone: set<Key>)
    returns (created: nat, destroyed: nat, errs: seq<S>, ghost p: Progress<S>)
    requires m.Valid() && OneToOne(name) && name.Keys == current.Keys
    requires wantedName == Keys(wanted) && wantedName.Keys == wanted.Keys && gone == Named(name, current.Keys - wanted.Keys)
    requires forall s :: s in current ==> name[s] in m.sessionsByPeer && m.sessionsByPeer[name[s]].Discr() == current[s]
    requires forall s :: s in wanted ==> WellKeyed(wanted[s].config.auth)
    modifies m`sessions, m`sessionsByPeer, m`reserved, m.discriminators
    ensures m.Valid() && Tally(p, wantedName.Keys, current.Keys, {}, created, errs) && destroyed == |gone|
    ensures Midway(m.sessionsByPeer, m.discriminators.taken, old(m.sessionsByPeer) - gone, old(m.sessionsByPeer).Values,
                   wanted, wantedName, p)
    ensures current.Keys == wanted.Keys ==> m.sessions == old(m.sessions)
  {
    ghost var known := m.sessionsByPeer.Values;
    var destroyErrs;
    destroyed, destroyErrs := DestroyUnwanted(m, current, wanted.Keys, name);
    created, errs, p := CreateMissing(m, current.Keys, wanted, wantedName, known);
    errs := destroyErrs + errs;
  }

  /** What a call makes of the sessions that were there, if the strings that are there stand
      for the keys `current`. The strings that are not there yet are missing; those reported
      failed, and the others were made. A session stays in place exactly if it does not go;
      what is there is what stayed and the sessions of the made strings; and whatever was
      reported would be refused again. */
  ghost predicate Reconciled(wants: map<string, Request>, current: map<string, Key>, before: map<Key, SessionEntry>,
                             after: map<Key, SessionEntry>, taken: set<u32>, created: nat, destroyed: nat, errs: seq<string>)
  {
    && Spells(current, before.Keys) && Settled(Keys(wants), Gone(current, wants.Keys), before, after, created, destroyed, errs)
    && Refusals(wants, Reported(errs), after.Keys, taken)
  }

  ghost predicate Settled(name: map<string, Key>, gone: set<Key>, before: map<Key, SessionEntry>, after: map<Key, SessionEntry>,
                          created: nat, destroyed: nat, errs: seq<string>)
  {
    var missing, failed := name.Keys - Strings(before.Keys), Reported(errs);
    && failed <= missing && |errs| == |failed| && created == |missing - failed| && destroyed == |gone|
    && (forall k :: k in before ==> (k !in gone <==> k in after && after[k] == before[k]))
    && Filled(name, before.Keys - gone, missing - failed, after.Keys)
  }

  /** Made and failed are told apart by the report. */
  lemma TallyTold(p: Progress<string>, all: set<string>, skip: set<string>, created: nat, errs: seq<string>)
    requires Tally(p, all, skip, {}, created, errs)
    ensures Reported(errs) == p.failed <= all - skip && |errs| == |p.failed|
    ensures p.made == all - skip - p.failed && created == |all - skip - p.failed|
  {
    assert all - {} - skip == all - skip;
  }

  lemma StaysUnlessGone(gone: set<Key>, before: map<Key, SessionEntry>, after: map<Key, SessionEntry>, k: Key)
    requires k in before && Holds(after, before - gone, before.Values)
    ensures k !in gone <==> k in after && after[k] == before[k]
  {
    assert before[k] in before.Values;
  }

  lemma OutcomeSettled(name: map<string, Key>, gone: set<Key>, before: map<Key, SessionEntry>, after: map<Key, SessionEntry>,
                       p: Progress<string>, created: nat, destroyed: nat, errs: seq<string>)
    requires Tally(p, name.Keys, Strings(before.Keys), {}, created, errs) && destroyed == |gone|
    requires Holds(after, before - gone, before.Values) && Filled(name, (before - gone).Keys, p.made, after.Keys)
    ensures Settled(name, gone, before, after, created, destroyed, errs)
  {
    TallyTold(p, name.Keys, Strings(before.Keys), created, errs);
    assert (before - gone).Keys == before.Keys - gone;
    forall k | k in before
      ensures k !in gone <==> k in after && after[k] == before[k]
    {
      StaysUnlessGone(gone, before, after, k);
    }
  }

  lemma Outcome(wants: map<string, Request>, name: map<string, Key>, current: map<string, Key>, before: map<Key, SessionEntry>,
                after: map<Key, SessionEntry>, taken: set<u32>, gone: set<Key>, p: Progress<string>,
                created: nat, destroyed: nat, errs: seq<string>)
    requires name == Keys(wants) && name.Keys == wants.Keys && gone == Gone(current, wants.Keys) && Spells(current, before.Keys)
    requires Tally(p, name.Keys, Strings(before.Keys), {}, created, errs) && destroyed == |gone|
    requires Midway(after, taken, before - gone, before.Values, wants, name, p)
    ensures Reconciled(wants, current, before, after, taken, created, destroyed, errs)
  {
    OutcomeSettled(name, gone, before, after, p, created, destroyed, errs);
    TallyTold(p, name.Keys, Strings(before.Keys), created, errs);
  }

  /** Both halves on the strings of the keys that are there, and what they amount to. */
  method AdjustTo(m: SessionManager, current: map<string, u32>, wanted: map<string, Request>, ghost name: map<string, Key>)
    returns (created: nat, destroyed: nat, errs: seq<string>)
    requires m.Valid() && OneToOne(name) && name.Keys == current.Keys == Strings(m.sessionsByPeer.Keys)
    requires Spells(name, m.sessionsByPeer.Keys)
    requires forall s :: s in current ==> name[s] in m.sessionsByPeer && m.sessionsByPeer[name[s]].Discr() == current[s]
    requires forall s :: s in wanted ==> WellKeyed(wanted[s].config.auth)
    modifies m`sessions, m`sessionsByPeer, m`reserved, m.discriminators
    ensures m.Valid()
    ensures Reconciled(wanted, name, old(m.sessionsByPeer), m.sessionsByPeer, m.discriminators.taken, created, destroyed, errs)
    ensures current.Keys == wanted.Keys ==> m.sessions == old(m.sessions)
  {
    ghost var before, wantedName, p := m.sessionsByPeer, Keys(wanted), Progress({}, {});
    ghost var gone := Gone(name, wanted.Keys);
    created, destroyed, errs, p := Adjust(m, current, wanted, name, wantedName, gone);
    Outcome(wanted, wantedName, name, before, m.sessionsByPeer, m.discriminators.taken, gone, p, created, destroyed, errs);
  }

  /** One call of ReconcileSessions, on any key strings and any sessions. */
  method ReconcileSessions(m: SessionManager, desired: seq<Wanted>)
    returns (created: nat, destroyed: nat, errs: seq<string>, ghost current: map<string, Key>)
    requires m.Valid() && forall i :: 0 <= i < |desired| ==> WellKeyed(desired[i].req.config.auth)
    modifies m`sessions, m`sessionsByPeer, m`reserved, m.discriminators
    ensures m.Valid()
    ensures Reconciled(Wants(desired), current, old(m.sessionsByPeer), m.sessionsByPeer, m.discriminators.taken,
                       created, destroyed, errs)
    ensures Strings(old(m.sessionsByPeer.Keys)) == Wants(desired).Keys ==> m.sessions == old(m.sessions)
  {
    var wanted := DesiredKeys(desired);
    WantsKeyed(desired);
    var discrs, name := SessionKeySet(m);
    SpelledOnce(name, m.sessionsByPeer.Keys);
    created, destroyed, errs := AdjustTo(m, discrs, wanted, name);
    current := name;
  }

  /** A session stays in place exactly if its string is wanted, or stands for another one. */
  lemma StaysIff(name: map<string, Key>, current: map<string, Key>, before: map<Key, SessionEntry>, after: map<Key, SessionEntry>,
                 created: nat, destroyed: nat, errs: seq<string>, k: Key)
    requires Spells(current, before.Keys)
    requires Settled(name, Gone(current, name.Keys), before, after, created, destroyed, errs) && k in before
    ensures k in after && after[k] == before[k] <==> KeyString(k) in name || current[KeyString(k)] != k
  {
    GoneIff(current, before.Keys, name.Keys, k);
  }

  lemma {:induction false} WantsKeyed(desired: seq<Wanted>)
    requires forall i :: 0 <= i < |desired| ==> WellKeyed(desired[i].req.config.auth)
    ensures forall s :: s in Wants(desired) ==> WellKeyed(Wants(desired)[s].config.auth)
  {
    if desired != [] {
      WantsKeyed(desired[..|desired| - 1]);
    }
  }

  // ---- Canonical strings -------------------------------------------------

  lemma TargetsSnoc(desired: seq<Wanted>, w: Wanted)
    ensures Targets(desired + [w]) == Targets(desired) + {w.req.key}
  {
    var all := desired + [w];
    forall i | 0 <= i < |all|
      ensures all[i].req.key in Targets(desired) + {w.req.key}
    {
      assert i < |desired| ==> all[i] == desired[i];
    }
    forall i | 0 <= i < |desired|
      ensures desired[i].req.key in Targets(all)
    {
      assert all[i] == desired[i];
    }
    assert all[|desired|] == w;
  }

  lemma SpellsMore(name: map<string, Key>, keys: set<Key>, s: string, k: Key)
    requires Spells(name, keys) && KeyString(k) == s
    ensures Spells(name[s := k], keys + {k})
  {
  }

  lemma KeysUpdate(wants: map<string, Request>, s: string, req: Request)
    ensures Keys(wants[s := req]) == Keys(wants)[s := req.key]
  {
  }

  lemma TargetsPlain(desired: seq<Wanted>)
    requires AllCanonical(desired)
    ensures AllPlain(Targets(desired))
  {
  }

  lemma {:induction false} WantsSpell(desired: seq<Wanted>)
    requires AllCanonical(desired)
    ensures Spells(Keys(Wants(desired)), Targets(desired))
  {
    if desired != [] {
      var n := |desired| - 1;
      var init, w := desired[..n], desired[n];
      assert AllCanonical(init) && Canonical(w);
      WantsSpell(init);
      WantsSpellNext(desired, init, w);
    }
  }

  lemma WantsSpellNext(desired: seq<Wanted>, init: seq<Wanted>, w: Wanted)
    requires desired == init + [w] && w.key == KeyString(w.req.key) && Spells(Keys(Wants(init)), Targets(init))
    ensures Spells(Keys(Wants(desired)), Targets(desired))
  {
    TargetsSnoc(init, w);
    SpellsMore(Keys(Wants(init)), Targets(init), w.key, w.req.key);
    assert desired[..|desired| - 1] == init;
    KeysUpdate(Wants(init), w.key, w.req);
  }

  lemma {:induction false} NamedSize<S>(name: map<S, Key>, strings: set<S>)
    requires strings <= name.Keys && forall s, t :: s in strings && t in strings && name[s] == name[t] ==> s == t
    ensures |Named(name, strings)| == |strings|
  {
    if strings != {} {
      var s :| s in strings;
      NamedSize(name, strings - {s});
      assert Named(name, strings) == Named(name, strings - {s}) + {name[s]};
    }
  }

  lemma NamedBy(name: map<string, Key>, keys: set<Key>, strings: set<string>, k: Key)
    requires Spells(name, keys) && AllPlain(keys) && strings <= name.Keys
    ensures k in Named(name, strings) <==> k in keys && KeyString(k) in strings
  {
    if k in keys {
      SpellsBack(name, keys, k);
    }
  }

  lemma StringsBack(keys: set<Key>, k: Key)
    requires AllPlain(keys) && Plain(k)
    ensures KeyString(k) in Strings(keys) <==> k in keys
  {
    if KeyString(k) in Strings(keys) {
      var j :| j in keys && KeyString(j) == KeyString(k);
      KeyStringInjective(j, k);
    }
  }

  /** Addresses without the separator: a key goes exactly if its string is not wanted. */
  lemma PlainGone(current: map<string, Key>, keys: set<Key>, wanted: set<string>, k: Key)
    requires Spells(current, keys) && AllPlain(keys)
    ensures k in Gone(current, wanted) <==> k in keys && KeyString(k) !in wanted
  {
    if k in keys {
      SpellsBack(current, keys, k);
      GoneIff(current, keys, wanted, k);
    }
  }

  /** What is there after a call, key by key. */
  lemma CanonicalKeys(name: map<string, Key>, targets: set<Key>, current: map<string, Key>, before: set<Key>,
                      after: set<Key>, made: set<string>, k: Key)
    requires Spells(name, targets) && AllPlain(targets) && AllPlain(before)
    requires Spells(current, before)
    requires made <= name.Keys - Strings(before) && Filled(name, before - Gone(current, name.Keys), made, after)
    ensures k in after <==> k in targets && (k in before || KeyString(k) in made)
    ensures k in before ==> KeyString(k) !in made && (KeyString(k) in name <==> k in targets)
    ensures k in targets ==> KeyString(k) in name && (KeyString(k) in Strings(before) <==> k in before)
  {
    NamedBy(name, targets, made, k);
    PlainGone(current, before, name.Keys, k);
    if k in before {
      SpellsBack(name, targets, k);
      StringsBack(before, k);
    } else if k in targets {
      StringsBack(before, k);
    }
  }

  lemma CanonicalSets(name: map<string, Key>, targets: set<Key>, current: map<string, Key>, before: set<Key>,
                      after: set<Key>, failed: set<string>)
    requires Spells(name, targets) && AllPlain(targets) && AllPlain(before) && failed <= name.Keys - Strings(before)
    requires Spells(current, before)
    requires Filled(name, before - Gone(current, name.Keys), name.Keys - Strings(before) - failed, after)
    ensures after <= targets && Gone(current, name.Keys) == before - targets
    ensures after - before == Named(name, name.Keys - Strings(before) - failed) && targets - after == Named(name, failed)
  {
    var made := name.Keys - Strings(before) - failed;
    forall k
      ensures k in after ==> k in targets
      ensures k in Gone(current, name.Keys) <==> k in before - targets
      ensures k in after - before <==> k in Named(name, made)
      ensures k in targets - after <==> k in Named(name, failed)
    {
      CanonicalKeys(name, targets, current, before, after, made, k);
      PlainGone(current, before, name.Keys, k);
      NamedBy(name, targets, made, k);
      NamedBy(name, targets, failed, k);
    }
  }

  lemma NamedStrings(name: map<string, Key>, targets: set<Key>, strings: set<string>)
    requires Spells(name, targets) && strings <= name.Keys
    ensures Strings(Named(name, strings)) == strings && |Named(name, strings)| == |strings|
  {
    forall s | s in strings
      ensures s in Strings(Named(name, strings))
    {
      assert name[s] in Named(name, strings) && KeyString(name[s]) == s;
    }
    NamedSize(name, strings);
  }

  lemma CanonicalSettled(name: map<string, Key>, targets: set<Key>, current: map<string, Key>, before: map<Key,
                         SessionEntry>, after: map<Key, SessionEntry>,
                         created: nat, destroyed: nat, errs: seq<string>)
    requires Spells(name, targets) && AllPlain(targets) && AllPlain(before.Keys)
    requires Spells(current, before.Keys) && Settled(name, Gone(current, name.Keys), before, after, created, destroyed, errs)
    ensures after.Keys <= targets
    ensures destroyed == |before.Keys - targets| && created == |after.Keys - before.Keys|
    ensures Gone(current, name.Keys) == before.Keys - targets
    ensures Reported(errs) == Strings(targets - after.Keys) && |errs| == |targets - after.Keys|
  {
    var failed := Reported(errs);
    CanonicalSets(name, targets, current, before.Keys, after.Keys, failed);
    NamedStrings(name, targets, failed);
    NamedStrings(name, targets, name.Keys - Strings(before.Keys) - failed);
  }

  lemma CanonicalStays(targets: set<Key>, gone: set<Key>, before: map<Key, SessionEntry>, after: map<Key, SessionEntry>)
    requires gone == before.Keys - targets && after.Keys <= targets
    requires forall k :: k in before ==> (k !in gone <==> k in after && after[k] == before[k])
    ensures forall k :: k in before && k in targets ==> k in after && after[k] == before[k]
    ensures before.Keys == targets ==> after == before
  {
  }

  lemma CanonicalResult(name: map<string, Key>, targets: set<Key>, current: map<string, Key>, before: map<Key,
                        SessionEntry>, after: map<Key, SessionEntry>,
                        created: nat, destroyed: nat, errs: seq<string>)
    requires Spells(name, targets) && AllPlain(targets) && AllPlain(before.Keys)
    requires Spells(current, before.Keys) && Settled(name, Gone(current, name.Keys), before, after, created, destroyed, errs)
    ensures after.Keys <= targets
    ensures forall k :: k in before && k in targets ==> k in after && after[k] == before[k]
    ensures destroyed == |before.Keys - targets| && created == |after.Keys - before.Keys|
    ensures Reported(errs) == Strings(targets - after.Keys) && |errs| == |targets - after.Keys|
    ensures before.Keys == targets ==> after == before
  {
    CanonicalSettled(name, targets, current, before, after, created, destroyed, errs);
    CanonicalStays(targets, Gone(current, name.Keys), before, after);
  }

  lemma ReconciledSettled(wants: map<string, Request>, name: map<string, Key>, current: map<string, Key>,
                          before: map<Key, SessionEntry>,
                          after: map<Key, SessionEntry>, taken: set<u32>, created: nat, destroyed: nat, errs: seq<string>)
    requires Reconciled(wants, current, before, after, taken, created, destroyed, errs) && name == Keys(wants)
    ensures Spells(current, before.Keys) && Settled(name, Gone(current, name.Keys), before, after, created, destroyed, errs)
  {
    assert name.Keys == wants.Keys;
  }

  lemma CanonicalFor(wants: map<string, Request>, targets: set<Key>, current: map<string, Key>, before: map<Key, SessionEntry>,
                     after: map<Key, SessionEntry>, taken: set<u32>, created: nat, destroyed: nat, errs: seq<string>)
    requires Spells(Keys(wants), targets) && AllPlain(targets) && AllPlain(before.Keys)
    requires Reconciled(wants, current, before, after, taken, created, destroyed, errs)
    ensures after.Keys <= targets
    ensures forall k :: k in before && k in targets ==> k in after && after[k] == before[k]
    ensures destroyed == |before.Keys - targets| && created == |after.Keys - before.Keys|
    ensures Reported(errs) == Strings(targets - after.Keys) && |errs| == |targets - after.Keys|
    ensures before.Keys == targets ==> after == before
  {
    ReconciledSettled(wants, Keys(wants), current, before, after, taken, created, destroyed, errs);
    CanonicalResult(Keys(wants), targets, current, before, after, created, destroyed, errs);
  }

  /** On canonical strings, wanted sessions keep their entry, and with it their
      discriminator; nothing unwanted is left; the counts are the sizes of the two set
      differences; the reported strings are those of the sessions still missing; and a call
      that finds the desired set in place changes nothing. */
  lemma CanonicalOutcome(desired: seq<Wanted>, current: map<string, Key>, before: map<Key, SessionEntry>,
                         after: map<Key, SessionEntry>, taken: set<u32>, created: nat, destroyed: nat, errs: seq<string>)
    requires AllCanonical(desired) && AllPlain(before.Keys)
    requires Reconciled(Wants(desired), current, before, after, taken, created, destroyed, errs)
    ensures after.Keys <= Targets(desired)
    ensures forall k :: k in before && k in Targets(desired) ==> k in after && after[k] == before[k]
    ensures destroyed == |before.Keys - Targets(desired)| && created == |after.Keys - before.Keys|
    ensures Reported(errs) == Strings(Targets(desired) - after.Keys) && |errs| == |Targets(desired) - after.Keys|
    ensures before.Keys == Targets(desired) ==> after == before
  {
    WantsSpell(desired);
    TargetsPlain(desired);
    CanonicalFor(Wants(desired), Targets(desired), current, before, after, taken, created, destroyed, errs);
  }

  // ---- Other strings -----------------------------------------------------

  lemma NotWantedGoes(name: map<string, Key>, current: map<string, Key>, before: map<Key, SessionEntry>,
                      after: map<Key, SessionEntry>, created: nat, destroyed: nat, errs: seq<string>, k: Key)
    requires Spells(current, before.Keys) && Settled(name, Gone(current, name.Keys), before, after, created, destroyed, errs)
    requires k in before && AllPlain(before.Keys) && KeyString(k) !in name
    ensures destroyed > 0 && (k in after ==> after[k] != before[k])
  {
    SpellsBack(current, before.Keys, k);
    StaysIff(name, current, before, after, created, destroyed, errs, k);
    GoneIff(current, before.Keys, name.Keys, k);
  }

  /** A wanted session loses its entry, and with it its discriminator and its state, if it is
      wanted under other strings only. */
  lemma OtherStringReplaces(wants: map<string, Request>, current: map<string, Key>, before: map<Key, SessionEntry>,
                            after: map<Key, SessionEntry>, taken: set<u32>, created: nat, destroyed: nat, errs: seq<string>, k: Key)
    requires Reconciled(wants, current, before, after, taken, created, destroyed, errs)
    requires k in before && AllPlain(before.Keys) && KeyString(k) !in wants
    ensures destroyed > 0 && (k in after ==> after[k] != before[k])
  {
    ReconciledSettled(wants, Keys(wants), current, before, after, taken, created, destroyed, errs);
    NotWantedGoes(Keys(wants), current, before, after, created, destroyed, errs, k);
  }

  lemma OneWanted(w: Wanted)
    ensures Wants([w]) == map[w.key := w.req]
  {
    assert [w][..0] == [];
  }

  /** The peer comes first, then the local address, then the interface. */
  lemma KeyStringExample()
    ensures KeyString(Key("10.0.0.2", "10.0.0.1", "eth0")) == "10.0.0.2|10.0.0.1|eth0"
  {
  }

  lemma TwoSpellings()
    ensures KeyString(Key("::1", "::2", "eth0")) != "0::1|::2|eth0"
  {
    assert KeyString(Key("::1", "::2", "eth0"))[0] == ':';
  }

  /** For instance an address written out that the daemon prints short. */
  lemma RewordedKeyReplaces(req: Request, current: map<string, Key>, before: map<Key, SessionEntry>, after: map<Key, SessionEntry>,
                            taken: set<u32>, created: nat, destroyed: nat, errs: seq<string>)
    requires req.key == Key("::1", "::2", "eth0") && req.key in before && AllPlain(before.Keys)
    requires Reconciled(Wants([Wanted("0::1|::2|eth0", req)]), current, before, after, taken, created, destroyed, errs)
    ensures destroyed > 0 && (req.key in after ==> after[req.key] != before[req.key])
  {
    var w := Wanted("0::1|::2|eth0", req);
    TwoSpellings();
    OneWanted(w);
    OtherStringReplaces(Wants([w]), current, before, after, taken, created, destroyed, errs, req.key);
  }
}
