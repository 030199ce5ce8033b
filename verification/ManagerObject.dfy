/** The manager as the daemon holds it: maps of session objects that operations update in
    place. One call at a time: each is a sequence of steps of module Manager, which has the
    interleavings. */
module ManagerObject {
  import opened Bytes
  import opened Codec
  import opened CodecBuffer
  import Fsm
  import opened Session
  import opened SessionObject
  import opened Discriminator
  import opened Manager
  import opened Operations
  import SessionRuns
  import Echo

  datatype ManagerError =
    | InvalidPeerAddr | DuplicateSession | NoDiscriminator | BadConfig(config: ConfigError) | BadEcho(echo: Echo.EchoError)
    | SessionNotFound | EchoSessionNotFound | DemuxNoMatch | EchoDemuxNoMatch | Undecodable(codec: CodecError)
    | PolicyRefuses | MaxSessions | NoSenderConfigured

  class SessionEntry {
    const session: LiveSession
    const key: Key
    var unsolicited: bool

    constructor (session: LiveSession, key: Key)
      ensures this.session == session && this.key == key && !unsolicited
    {
      this.session, this.key, unsolicited := session, key, false;
    }

    function Discr(): u32 {
      session.cfg.localDiscr
    }
  }

  // ---- Requests ----------------------------------------------------------

  /** A session to be created: its configuration, and what the random source yields while
      it is created: draws of a discriminator, the first sequence number, a seed. */
  datatype Request = Request(
    key: Key, validAddr: bool, config: SessionConfig, draws: Draws, sequence: Option<u32>, seed: bv64)

  /** Why CreateSession refuses a request, given the keys and the discriminators in use. */
  ghost function Refusal(req: Request, keys: set<Key>, taken: set<u32>): Option<ManagerError> {
    if !req.validAddr then Some(InvalidPeerAddr)
    else if req.key in keys then Some(DuplicateSession)
    else if !Drawable(req.draws, taken) then Some(NoDiscriminator)
    else match Objection(req.config, 1, req.sequence)
      case Some(c) => Some(BadConfig(c))
      case None => None
  }

  /** The session that a request describes, with some discriminator. */
  ghost predicate AsRequested(s: LiveSession, req: Request)
    reads s, s.auth
  {
    && s.cfg.localDiscr != 0 && s.Valid() && s.heard == [] && req.config.desired >= 0 && req.config.required >= 0
    && s.View() == Created(req.config, s.cfg.localDiscr, req.sequence)
  }

  lemma ObjectionIgnoresDiscr(c: SessionConfig, discr: u32, random: Option<u32>)
    requires discr != 0
    ensures Objection(c, discr, random) == Objection(c, 1, random)
  {
  }

  /** The policy for sessions that a peer may start: whether it admits this peer, whether a
      sender is configured, the parameters of such sessions, and the random source. */
  datatype Unsolicited = Unsolicited(
    policyAllows: bool, sender: bool, detectMult: u8, desired: int, required: int, draws: Draws, seed: bv64)

  /** The single-hop, passive session for a peer that has spoken first. */
  function UnsolicitedRequest(u: Unsolicited, from: Key): Request {
    Request(from, true, SessionConfig(u.detectMult, 1, ROLE_PASSIVE, 0, u.desired, u.required, None), u.draws, None, u.seed)
  }

  /** A session for a peer that has spoken first: the multiplier and the intervals of the policy,
      no padding, no authentication, Down, and silent on its timer until it hears the peer. */
  predicate PassiveAs(u: Unsolicited, v: Vars) {
    && v.cfg.detectMult == u.detectMult && v.desiredMinTx == u.desired && v.requiredMinRx == u.required
    && v.cfg.paddedPduSize == 0 && v.auth.None? && v.state == Fsm.Down && v.remoteDiscr == 0 && v.sent == []
    && OnTxTimer(v) == v
  }

  lemma UnsolicitedIsPassive(u: Unsolicited, from: Key, discr: u32)
    requires u.desired >= 0 && u.required >= 0
    ensures PassiveAs(u, Created(UnsolicitedRequest(u, from).config, discr, None))
    ensures UnsolicitedRequest(u, from).key == from && UnsolicitedRequest(u, from).sequence == None
    ensures UnsolicitedRequest(u, from).config.sessionType == 1
  {
  }

  /** Each refusal is true: it is given only if what it says is wrong is wrong, and none is given
      only if nothing is. */
  lemma RefusalsAreTrue(req: Request, keys: set<Key>, taken: set<u32>)
    ensures match Refusal(req, keys, taken)
            case None => req.validAddr && req.key !in keys && Drawable(req.draws, taken) && Objection(req.config, 1, req.sequence).None?
            case Some(InvalidPeerAddr) => !req.validAddr
            case Some(DuplicateSession) => req.key in keys
            case Some(NoDiscriminator) => !Drawable(req.draws, taken)
            case Some(BadConfig(c)) => Objection(req.config, 1, req.sequence) == Some(c)
            case Some(_) => false
  {
  }

  lemma EchoRefusalsAreTrue(req: EchoRequest, taken: set<u32>)
    ensures match EchoRefusal(req, taken)
            case None => req.validAddr && Drawable(req.draws, taken) && req.mult > 0 && req.txInterval > 0
            case Some(InvalidPeerAddr) => !req.validAddr
            case Some(NoDiscriminator) => !Drawable(req.draws, taken)
            case Some(BadEcho(e)) => if req.mult == 0 then e == Echo.InvalidDetectMult else e == Echo.InvalidTxInterval && req.txInterval <= 0
            case Some(_) => false
  {
  }

  /** The counter, while it is nonnegative and below the 32-bit limit: raised by a session and by
      a call that finds no sender, and by nothing else. */
  lemma CountAfterIs(refusal: Option<ManagerError>, before: int)
    requires 0 <= before < 0x7FFF_FFFF
    ensures CountAfter(refusal, before) == if refusal.None? || refusal == Some(NoSenderConfigured) then before + 1 else before
  {
  }

  /** What the counter is left at. */
  function CountAfter(refusal: Option<ManagerError>, before: int): int {
    match refusal
    case None => Wrap32(before + 1)
    case Some(e) =>
      if e == PolicyRefuses || e == MaxSessions then before
      else if e == NoSenderConfigured then Wrap32(before + 1)
      else Lowered(Wrap32(before + 1))
  }

  datatype EchoRequest = EchoRequest(validAddr: bool, mult: u8, txInterval: int, draws: Draws)

  ghost function EchoRefusal(req: EchoRequest, taken: set<u32>): Option<ManagerError> {
    if !req.validAddr then Some(InvalidPeerAddr)
    else if !Drawable(req.draws, taken) then Some(NoDiscriminator)
    else if req.mult < 1 then Some(BadEcho(Echo.InvalidDetectMult))
    else if req.txInterval <= 0 then Some(BadEcho(Echo.InvalidTxInterval))
    else None
  }

  // ---- The indexes -------------------------------------------------------

  /** Both indexes hold the same entries, each under its own keys. */
  ghost predicate Indexed(sessions: map<u32, SessionEntry>, byPeer: map<Key, SessionEntry>) {
    && (forall d :: d in sessions ==>
          sessions[d].Discr() == d && sessions[d].key in byPeer && byPeer[sessions[d].key] == sessions[d])
    && (forall k :: k in byPeer ==>
          byPeer[k].key == k && byPeer[k].Discr() in sessions && sessions[byPeer[k].Discr()] == byPeer[k])
  }

  ghost predicate Accounted(taken: set<u32>, control: set<u32>, echo: set<u32>) {
    taken == control + echo && control !! echo && 0 !in taken
  }

  twostate predicate JustMade(new s: LiveSession) {
    fresh(s) && fresh(s.cachedPacket) && fresh(s.rng) && (s.auth != null ==> fresh(s.auth))
  }

  /** The sessions have nothing in common. */
  predicate Separate(s: LiveSession, t: LiveSession) {
    s != t && s.cachedPacket != t.cachedPacket && s.rng != t.rng && (s.auth == null || s.auth != t.auth)
  }

  ghost predicate Apart(sessions: map<u32, SessionEntry>) {
    forall c, d :: c in sessions && d in sessions && c != d ==> Separate(sessions[c].session, sessions[d].session)
  }

  lemma IndexedEnter(sessions: map<u32, SessionEntry>, byPeer: map<Key, SessionEntry>, e: SessionEntry)
    requires Indexed(sessions, byPeer) && e.Discr() !in sessions && e.key !in byPeer
    ensures Indexed(sessions[e.Discr() := e], byPeer[e.key := e])
  {
  }

  /** A session that shares nothing with those. */
  ghost predicate Strange(sessions: map<u32, SessionEntry>, s: LiveSession) {
    forall d :: d in sessions ==> Separate(sessions[d].session, s)
  }

  lemma ApartEnter(sessions: map<u32, SessionEntry>, e: SessionEntry)
    requires Apart(sessions) && e.Discr() !in sessions && Strange(sessions, e.session)
    ensures Apart(sessions[e.Discr() := e])
  {
  }

  lemma IndexedRemove(sessions: map<u32, SessionEntry>, byPeer: map<Key, SessionEntry>, d: u32)
    requires Indexed(sessions, byPeer) && d in sessions
    ensures Indexed(sessions - {d}, byPeer - {sessions[d].key})
  {
  }

  function EntriesOf(sessions: map<u32, SessionEntry>, marked: set<u32>): map<nat, Entry> {
    map d | d in sessions :: Entry(d, sessions[d].key, d in marked)
  }

  function NumbersOf(sessions: map<u32, SessionEntry>): map<u32, nat> {
    map d | d in sessions :: d
  }

  function PeersOf(byPeer: map<Key, SessionEntry>): map<Key, nat> {
    map k | k in byPeer :: byPeer[k].Discr()
  }

  /** Which sessions there are, under which keys, and which of them are unsolicited, as the
      tables of module Manager; an entry is pointed to by its discriminator. */
  function TablesOf(sessions: map<u32, SessionEntry>, byPeer: map<Key, SessionEntry>, echo: set<u32>, marked: set<u32>): Tables<nat> {
    Tables(EntriesOf(sessions, marked), NumbersOf(sessions), PeersOf(byPeer), echo)
  }

  lemma EntriesEnter(sessions: map<u32, SessionEntry>, marked: set<u32>, e: SessionEntry, d: u32, mark: bool, marked': set<u32>)
    requires marked' - {d} == marked - {d} && (d in marked' <==> mark)
    ensures EntriesOf(sessions[d := e], marked') == EntriesOf(sessions, marked)[d := Entry(d, e.key, mark)]
    ensures NumbersOf(sessions[d := e]) == NumbersOf(sessions)[d := d]
  {
    forall c | c in sessions && c != d
      ensures c in marked' <==> c in marked
    {
      assert c in marked' - {d} <==> c in marked - {d};
    }
  }

  lemma PeersEnter(byPeer: map<Key, SessionEntry>, e: SessionEntry)
    ensures PeersOf(byPeer[e.key := e]) == PeersOf(byPeer)[e.key := e.Discr()]
  {
  }

  lemma TablesEnter(sessions: map<u32, SessionEntry>, byPeer: map<Key, SessionEntry>, echo: set<u32>, marked: set<u32>,
                    e: SessionEntry, d: u32, mark: bool, marked': set<u32>)
    requires d == e.Discr() && marked' - {d} == marked - {d} && (d in marked' <==> mark)
    ensures TablesOf(sessions[d := e], byPeer[e.key := e], echo, marked')
            == Enter(TablesOf(sessions, byPeer, echo, marked), d, Entry(d, e.key, mark))
  {
    EntriesEnter(sessions, marked, e, d, mark, marked');
    PeersEnter(byPeer, e);
  }

  lemma TablesRemove(sessions: map<u32, SessionEntry>, byPeer: map<Key, SessionEntry>, echo: set<u32>, marked: set<u32>, d: u32)
    requires d in sessions
    ensures TablesOf(sessions - {d}, byPeer - {sessions[d].key}, echo, marked - {d})
            == Remove(TablesOf(sessions, byPeer, echo, marked), d)
  {
    assert EntriesOf(sessions - {d}, marked - {d}) == EntriesOf(sessions, marked) - {d};
    assert NumbersOf(sessions - {d}) == NumbersOf(sessions) - {d};
    assert PeersOf(byPeer - {sessions[d].key}) == PeersOf(byPeer) - {sessions[d].key};
  }

  lemma TablesCoherent(sessions: map<u32, SessionEntry>, byPeer: map<Key, SessionEntry>, echo: set<u32>, marked: set<u32>)
    requires Indexed(sessions, byPeer) && sessions.Keys !! echo
    ensures Coherent(TablesOf(sessions, byPeer, echo, marked))
  {
  }

  lemma EnterKeeps(sessions: map<u32, SessionEntry>, byPeer: map<Key, SessionEntry>, echo: set<u32>, taken: set<u32>, e: SessionEntry)
    requires Indexed(sessions, byPeer) && Apart(sessions) && Accounted(taken, sessions.Keys, echo)
    requires e.key !in byPeer && e.Discr() != 0 && e.Discr() !in taken && Strange(sessions, e.session)
    ensures Indexed(sessions[e.Discr() := e], byPeer[e.key := e]) && Apart(sessions[e.Discr() := e])
    ensures Accounted(taken + {e.Discr()}, sessions[e.Discr() := e].Keys, echo)
  {
    IndexedEnter(sessions, byPeer, e);
    ApartEnter(sessions, e);
  }

  lemma EnterLeads(s: Sys, sessions: map<u32, SessionEntry>, byPeer: map<Key, SessionEntry>, echo: set<u32>,
                   marked: set<u32>, e: SessionEntry)
    requires AtRest(s) && s.tables == TablesOf(sessions, byPeer, echo, marked) && e.key !in byPeer
    requires e.Discr() != 0 && e.Discr() !in s.taken && e.Discr() !in sessions && e.Discr() !in marked
    ensures Leads(s, s.(tables := TablesOf(sessions[e.Discr() := e], byPeer[e.key := e], echo, marked),
                        taken := s.taken + {e.Discr()}))
  {
    TablesEnter(sessions, byPeer, echo, marked, e, e.Discr(), false, marked);
    CreateLeads(s, e.key, e.Discr());
  }

  lemma WithdrawKeeps(sessions: map<u32, SessionEntry>, byPeer: map<Key, SessionEntry>, echo: set<u32>, taken: set<u32>, d: u32)
    requires Indexed(sessions, byPeer) && Apart(sessions) && Accounted(taken, sessions.Keys, echo) && d in sessions
    ensures Indexed(sessions - {d}, byPeer - {sessions[d].key}) && Apart(sessions - {d})
    ensures Accounted(taken - {d}, (sessions - {d}).Keys, echo)
  {
    IndexedRemove(sessions, byPeer, d);
  }

  lemma RemoveLeads(s: Sys, sessions: map<u32, SessionEntry>, byPeer: map<Key, SessionEntry>, echo: set<u32>, marked: set<u32>, d: u32)
    requires AtRest(s) && s.tables == TablesOf(sessions, byPeer, echo, marked) && d in sessions
    ensures Leads(s, s.(tables := TablesOf(sessions - {d}, byPeer - {sessions[d].key}, echo, marked - {d}), taken := s.taken - {d},
                        count := if d in marked then Lowered(s.count) else s.count))
  {
    TablesRemove(sessions, byPeer, echo, marked, d);
    DestroyLeads(s, d);
  }

  class SessionManager {
    const discriminators: DiscriminatorAllocator
    /** The limit on unsolicited sessions, if positive. */
    const maxUnsolicited: int
    var sessions: map<u32, SessionEntry>
    var sessionsByPeer: map<Key, SessionEntry>
    var echoSessions: map<u32, Echo.EchoSession>
    /** The counter of unsolicited sessions. */
    var reserved: int

    ghost function Marked(): set<u32>
      reads this, sessions.Values
    {
      set d | d in sessions && sessions[d].unsolicited
    }

    /** The manager of module Manager that this object is. */
    ghost function System(): Sys
      reads this, sessions.Values, discriminators
    {
      Sys(TablesOf(sessions, sessionsByPeer, echoSessions.Keys, Marked()), discriminators.taken, map[], None,
          reserved, maxUnsolicited)
    }

    /** The indexes agree, no two sessions share anything, and between two calls nothing is
        in flight: the taken discriminators are the live ones. */
    ghost predicate Valid()
      reads this, discriminators
    {
      && Indexed(sessions, sessionsByPeer) && Apart(sessions) && (forall d :: d in echoSessions ==> echoSessions[d].discr == d)
      && Accounted(discriminators.taken, sessions.Keys, echoSessions.Keys)
    }

    lemma ValidIsCoherent()
      requires Valid()
      ensures Coherent(System().tables)
    {
      TablesCoherent(sessions, sessionsByPeer, echoSessions.Keys, Marked());
    }

    constructor (maxUnsolicited: int)
      ensures Valid() && fresh(discriminators) && sessions == map[] && sessionsByPeer == map[] && echoSessions == map[]
      ensures this.maxUnsolicited == maxUnsolicited && Initial(System())
    {
      discriminators := new DiscriminatorAllocator();
      sessions, sessionsByPeer, echoSessions := map[], map[], map[];
      this.maxUnsolicited, reserved := maxUnsolicited, 0;
    }

    // ---- Control sessions --------------------------------------------------

    method RegisterAndStart(key: Key, session: LiveSession) returns (r: Result<SessionEntry, ManagerError>)
      modifies this`sessions, this`sessionsByPeer
      ensures key in old(sessionsByPeer) ==>
                r == Err(DuplicateSession) && sessions == old(sessions) && sessionsByPeer == old(sessionsByPeer)
      ensures key !in old(sessionsByPeer) ==>
                r.Ok? && fresh(r.value) && Entered(old(sessions), old(sessionsByPeer), r.value, session, key)
    {
      if key in sessionsByPeer {
        return Err(DuplicateSession);
      }
      var entry := new SessionEntry(session, key);
      sessions := sessions[session.cfg.localDiscr := entry];
      sessionsByPeer := sessionsByPeer[key := entry];
      return Ok(entry);
    }

    /** The maps as they were, with one entry more under both its keys. */
    ghost predicate Entered(before: map<u32, SessionEntry>, byPeer: map<Key, SessionEntry>, e: SessionEntry,
                            session: LiveSession, key: Key)
      reads this, e
    {
      && e.session == session && e.key == key && !e.unsolicited
      && sessions == before[session.cfg.localDiscr := e] && sessionsByPeer == byPeer[key := e]
    }

    /** A discriminator is drawn, and given back if the session cannot be built. */
    method AllocateAndBuild(req: Request, ghost known: map<u32, SessionEntry>) returns (r: Result<LiveSession, ManagerError>)
      requires WellKeyed(req.config.auth)
      modifies discriminators
      ensures match Refusal(req.(validAddr := true), {}, old(discriminators.taken))
              case Some(e) => r == Err(e) && discriminators.taken == old(discriminators.taken)
              case None => && r.Ok? && AsRequested(r.value, req) && JustMade(r.value) && Strange(known, r.value)
                           && r.value.cfg.localDiscr !in old(discriminators.taken)
                           && discriminators.taken == old(discriminators.taken) + {r.value.cfg.localDiscr}
    {
      var a := discriminators.Allocate(req.draws);
      if a.Err? {
        return Err(NoDiscriminator);
      }
      ObjectionIgnoresDiscr(req.config, a.value, req.sequence);
      var s := NewSession(req.config, a.value, req.sequence, req.seed);
      if s.Err? {
        discriminators.Release(a.value);
        return Err(BadConfig(s.error));
      }
      ghost var v := s.value.View();
      assert v.cfg == s.value.cfg;
      return Ok(s.value);
    }

    /** A duplicate that appeared in the meantime costs the new session its discriminator. */
    method RegisterOrRelease(key: Key, session: LiveSession) returns (r: Result<SessionEntry, ManagerError>)
      modifies this`sessions, this`sessionsByPeer, discriminators
      ensures key in old(sessionsByPeer) ==>
                && r == Err(DuplicateSession) && sessions == old(sessions) && sessionsByPeer == old(sessionsByPeer)
                && discriminators.taken == old(discriminators.taken) - {session.cfg.localDiscr}
      ensures key !in old(sessionsByPeer) ==>
                && r.Ok? && fresh(r.value) && Entered(old(sessions), old(sessionsByPeer), r.value, session, key)
                && discriminators.taken == old(discriminators.taken)
    {
      r := RegisterAndStart(key, session);
      if r.Err? {
        discriminators.Release(session.cfg.localDiscr);
      }
    }

    /** The checks, and the entry if they pass; the session in it is as requested. */
    method CreateEntry(req: Request) returns (r: Result<SessionEntry, ManagerError>)
      requires Valid() && WellKeyed(req.config.auth)
      modifies this`sessions, this`sessionsByPeer, discriminators
      ensures match Refusal(req, old(sessionsByPeer.Keys), old(discriminators.taken))
              case Some(e) => && r == Err(e) && sessions == old(sessions) && sessionsByPeer == old(sessionsByPeer)
                              && discriminators.taken == old(discriminators.taken)
              case None => && r.Ok? && fresh(r.value) && JustMade(r.value.session) && Strange(old(sessions), r.value.session)
                           && AsRequested(r.value.session, req)
                           && Entered(old(sessions), old(sessionsByPeer), r.value, r.value.session, req.key)
                           && r.value.Discr() !in old(discriminators.taken)
                           && discriminators.taken == old(discriminators.taken) + {r.value.Discr()}
    {
      if !req.validAddr {
        return Err(InvalidPeerAddr);
      }
      if req.key in sessionsByPeer {
        return Err(DuplicateSession);
      }
      var built := AllocateAndBuild(req, sessions);
      if built.Err? {
        return Err(built.error);
      }
      r := RegisterOrRelease(req.key, built.value);
    }

    /** The marks of the sessions that were there are as before, and the new one has none. */
    twostate lemma SameMarks(new e: SessionEntry)
      requires e.Discr() !in old(sessions) && !e.unsolicited && sessions == old(sessions)[e.Discr() := e]
      requires unchanged(old(sessions.Values))
      ensures Marked() == old(Marked()) && e.Discr() !in Marked()
    {
      forall d
        ensures d in Marked() <==> d in old(Marked())
      {
        if d in old(sessions) {
          assert old(sessions)[d] in old(sessions.Values) && sessions[d] == old(sessions)[d];
        }
      }
    }

    /** One entry more is what the steps of a creation lead to. */
    twostate lemma EntryLeads(new e: SessionEntry)
      requires Entered(old(sessions), old(sessionsByPeer), e, e.session, e.key) && unchanged(old(sessions.Values))
      requires unchanged(this`echoSessions) && unchanged(this`reserved) && old(Valid()) && Strange(old(sessions), e.session)
      requires e.key !in old(sessionsByPeer) && e.Discr() != 0 && e.Discr() !in old(discriminators.taken)
      requires discriminators.taken == old(discriminators.taken) + {e.Discr()}
      ensures Valid() && Leads(old(System()), System())
    {
      EnterKeeps(old(sessions), old(sessionsByPeer), echoSessions.Keys, old(discriminators.taken), e);
      SameMarks(e);
      EnterLeads(old(System()), old(sessions), old(sessionsByPeer), echoSessions.Keys, old(Marked()), e);
    }

    /** If nothing has changed, nothing had to be done. */
    twostate lemma StandsStill()
      requires unchanged(old(sessions.Values)) && sessions == old(sessions) && sessionsByPeer == old(sessionsByPeer)
      requires echoSessions == old(echoSessions) && reserved == old(reserved) && discriminators.taken == old(discriminators.taken)
      requires old(Valid())
      ensures Valid() && Leads(old(System()), System())
    {
      assert Marked() == old(Marked());
      LeadsNowhere(System());
    }

    /** CreateSession: the first refusal in the order of the checks, and then nothing is left
        behind; or one entry more, with the requested session. */
    method CreateSession(req: Request) returns (r: Result<SessionEntry, ManagerError>)
      requires Valid() && WellKeyed(req.config.auth)
      modifies this`sessions, this`sessionsByPeer, discriminators
      ensures Valid() && Leads(old(System()), System())
      ensures match Refusal(req, old(sessionsByPeer.Keys), old(discriminators.taken))
              case Some(e) => && r == Err(e) && sessions == old(sessions) && sessionsByPeer == old(sessionsByPeer)
                              && discriminators.taken == old(discriminators.taken)
              case None => && r.Ok? && fresh(r.value) && JustMade(r.value.session) && Strange(old(sessions), r.value.session)
                           && AsRequested(r.value.session, req)
                           && Entered(old(sessions), old(sessionsByPeer), r.value, r.value.session, req.key)
                           && r.value.Discr() !in old(discriminators.taken)
                           && discriminators.taken == old(discriminators.taken) + {r.value.Discr()}
    {
      r := CreateEntry(req);
      if r.Err? {
        StandsStill();
      } else {
        EntryLeads(r.value);
      }
    }

    twostate lemma MarksWithout(d: u32)
      requires sessions == old(sessions) - {d} && unchanged(old(sessions.Values))
      ensures Marked() == old(Marked()) - {d}
    {
      forall c
        ensures c in Marked() <==> c in old(Marked()) - {d}
      {
        if c in old(sessions) {
          assert old(sessions)[c] in old(sessions.Values);
        }
      }
    }

    /** One entry less is what the steps of a destruction lead to. */
    twostate lemma WithdrawLeads(d: u32)
      requires old(Valid()) && d in old(sessions) && unchanged(old(sessions.Values)) && unchanged(this`echoSessions)
      requires sessions == old(sessions) - {d} && sessionsByPeer == old(sessionsByPeer) - {old(sessions)[d].key}
      requires discriminators.taken == old(discriminators.taken) - {d}
      requires reserved == if old(sessions[d].unsolicited) then Lowered(old(reserved)) else old(reserved)
      ensures Valid() && Leads(old(System()), System())
    {
      WithdrawKeeps(old(sessions), old(sessionsByPeer), echoSessions.Keys, old(discriminators.taken), d);
      MarksWithout(d);
      RemoveLeads(old(System()), old(sessions), old(sessionsByPeer), echoSessions.Keys, old(Marked()), d);
    }

    /** DestroySession: out of both indexes, its discriminator free, and its reservation, if
        it is an unsolicited one, given back. */
    method DestroySession(discr: u32) returns (err: Option<ManagerError>)
      requires Valid()
      modifies this`sessions, this`sessionsByPeer, this`reserved, discriminators
      ensures Valid() && Leads(old(System()), System())
      ensures discr !in old(sessions) ==>
                && err == Some(SessionNotFound) && sessions == old(sessions) && sessionsByPeer == old(sessionsByPeer)
                && reserved == old(reserved)
      ensures discr in old(sessions) ==>
                && err == None && sessions == old(sessions) - {discr}
                && sessionsByPeer == old(sessionsByPeer) - {old(sessions)[discr].key}
                && reserved == if old(sessions[discr].unsolicited) then Lowered(old(reserved)) else old(reserved)
    {
      if discr !in sessions {
        StandsStill();
        return Some(SessionNotFound);
      }
      var entry := sessions[discr];
      sessions := sessions - {discr};
      sessionsByPeer := sessionsByPeer - {entry.key};
      if entry.unsolicited {
        ReleaseReservation();
      }
      discriminators.Release(discr);
      WithdrawLeads(discr);
      return None;
    }

    // ---- Unsolicited sessions ----------------------------------------------

    method Reserve(policyAllows: bool) returns (err: Option<ManagerError>)
      modifies this`reserved
      ensures err == if !policyAllows then Some(PolicyRefuses)
                     else if 0 < maxUnsolicited <= old(reserved) then Some(MaxSessions)
                     else None
      ensures reserved == if err == None then Wrap32(old(reserved) + 1) else old(reserved)
    {
      if !policyAllows {
        return Some(PolicyRefuses);
      }
      if maxUnsolicited > 0 && reserved >= maxUnsolicited {
        return Some(MaxSessions);
      }
      reserved := Wrap32(reserved + 1);
      return None;
    }

    method ReleaseReservation()
      modifies this`reserved
      ensures reserved == Lowered(old(reserved))
    {
      if reserved != 0 {
        reserved := reserved - 1;
      }
    }

    /** CreateSession and markSessionUnsolicited. */
    method CreateMarked(req: Request) returns (r: Result<SessionEntry, ManagerError>)
      requires Valid() && WellKeyed(req.config.auth)
      modifies this`sessions, this`sessionsByPeer, discriminators
      ensures match Refusal(req, old(sessionsByPeer.Keys), old(discriminators.taken))
              case Some(e) => && r == Err(e) && sessions == old(sessions) && sessionsByPeer == old(sessionsByPeer)
                              && discriminators.taken == old(discriminators.taken)
              case None => && r.Ok? && MarkedNew(old(sessions), old(sessionsByPeer), r.value, req)
                           && fresh(r.value) && JustMade(r.value.session)
                           && r.value.Discr() !in old(discriminators.taken)
                           && discriminators.taken == old(discriminators.taken) + {r.value.Discr()}
    {
      r := CreateEntry(req);
      if r.Ok? && r.value.Discr() in sessions {
        var entry := sessions[r.value.Discr()];
        entry.unsolicited := true;
      }
    }

    /** One entry more, with the requested session, and marked. */
    ghost predicate MarkedNew(before: map<u32, SessionEntry>, byPeer: map<Key, SessionEntry>, e: SessionEntry, req: Request)
      reads this, e, e.session, e.session.auth
    {
      && e.key == req.key && e.unsolicited && AsRequested(e.session, req) && Strange(before, e.session)
      && sessions == before[e.Discr() := e] && sessionsByPeer == byPeer[req.key := e]
    }

    twostate lemma MarksWith(new e: SessionEntry)
      requires e.Discr() !in old(sessions) && e.unsolicited && sessions == old(sessions)[e.Discr() := e]
      requires unchanged(old(sessions.Values))
      ensures Marked() - {e.Discr()} == old(Marked()) - {e.Discr()} && e.Discr() in Marked()
    {
      forall d
        ensures d in Marked() - {e.Discr()} <==> d in old(Marked()) - {e.Discr()}
      {
        if d in old(sessions) {
          assert old(sessions)[d] in old(sessions.Values) && (d != e.Discr() ==> sessions[d] == old(sessions)[d]);
        }
      }
    }

    /** One marked entry more is what the steps of an admission lead to. */
    twostate lemma AdmissionLeads(new e: SessionEntry)
      requires old(Valid()) && unchanged(old(sessions.Values)) && unchanged(this`echoSessions) && Strange(old(sessions), e.session)
      requires sessions == old(sessions)[e.Discr() := e] && sessionsByPeer == old(sessionsByPeer)[e.key := e] && e.unsolicited
      requires e.key !in old(sessionsByPeer) && e.Discr() != 0 && e.Discr() !in old(discriminators.taken)
      requires discriminators.taken == old(discriminators.taken) + {e.Discr()}
      requires !(0 < maxUnsolicited <= old(reserved)) && reserved == Wrap32(old(reserved) + 1)
      ensures Valid() && Leads(old(System()), System())
    {
      EnterKeeps(old(sessions), old(sessionsByPeer), echoSessions.Keys, old(discriminators.taken), e);
      MarksWith(e);
      TablesEnter(old(sessions), old(sessionsByPeer), echoSessions.Keys, old(Marked()), e, e.Discr(), true, Marked());
      AdmitLeads(old(System()), e.key, e.Discr());
    }

    /** Only the counter has changed. */
    twostate lemma CountLeads(from: Key)
      requires old(Valid()) && unchanged(old(sessions.Values)) && sessions == old(sessions) && sessionsByPeer == old(sessionsByPeer)
      requires echoSessions == old(echoSessions) && discriminators.taken == old(discriminators.taken)
      requires !(0 < maxUnsolicited <= old(reserved))
      requires var raised := Wrap32(old(reserved) + 1); reserved == raised || reserved == Lowered(raised)
      ensures Valid() && Leads(old(System()), System())
    {
      assert Marked() == old(Marked());
      TurnAwayLeads(old(System()), from);
      GiveBackLeads(old(System()), from);
    }

    /** Why tryCreateUnsolicited refuses. */
    ghost function UnsolicitedObjection(u: Unsolicited, from: Key): Option<ManagerError>
      reads this, discriminators
    {
      if !u.policyAllows then Some(PolicyRefuses)
      else if 0 < maxUnsolicited <= reserved then Some(MaxSessions)
      else if !u.sender then Some(NoSenderConfigured)
      else Refusal(UnsolicitedRequest(u, from), sessionsByPeer.Keys, discriminators.taken)
    }

    /** Each refusal is true: policy, a limit that is set and reached, no sender, and otherwise what
        a creation would say. */
    lemma UnsolicitedRefusalsAreTrue(u: Unsolicited, from: Key)
      ensures match UnsolicitedObjection(u, from)
              case Some(PolicyRefuses) => !u.policyAllows
              case Some(MaxSessions) => u.policyAllows && maxUnsolicited > 0 && reserved >= maxUnsolicited
              case Some(NoSenderConfigured) => u.policyAllows && !u.sender
              case other =>
                && u.policyAllows && u.sender && (maxUnsolicited <= 0 || reserved < maxUnsolicited)
                && other == Refusal(UnsolicitedRequest(u, from), sessionsByPeer.Keys, discriminators.taken)
    {
    }

    /** A refusal changes the counter at most. */
    twostate lemma RefusalLeads(new u: Unsolicited, new from: Key)
      requires old(Valid()) && unchanged(old(sessions.Values)) && sessions == old(sessions) && sessionsByPeer == old(sessionsByPeer)
      requires echoSessions == old(echoSessions) && discriminators.taken == old(discriminators.taken)
      requires old(UnsolicitedObjection(u, from)).Some? && reserved == CountAfter(old(UnsolicitedObjection(u, from)), old(reserved))
      ensures Valid() && Leads(old(System()), System())
    {
      if !u.policyAllows || 0 < maxUnsolicited <= old(reserved) {
        StandsStill();
      } else {
        CountLeads(from);
      }
    }

    /** The checks, and the marked entry if they pass. */
    method AdmitEntry(u: Unsolicited, from: Key) returns (r: Result<SessionEntry, ManagerError>)
      requires Valid()
      modifies this`sessions, this`sessionsByPeer, this`reserved, discriminators
      ensures reserved == CountAfter(old(UnsolicitedObjection(u, from)), old(reserved))
      ensures match old(UnsolicitedObjection(u, from))
              case Some(e) => && r == Err(e) && sessions == old(sessions) && sessionsByPeer == old(sessionsByPeer)
                              && discriminators.taken == old(discriminators.taken)
              case None => && r.Ok? && fresh(r.value) && JustMade(r.value.session) && r.value.Discr() !in old(discriminators.taken)
                           && discriminators.taken == old(discriminators.taken) + {r.value.Discr()}
                           && MarkedNew(old(sessions), old(sessionsByPeer), r.value, UnsolicitedRequest(u, from))
    {
      var err := Reserve(u.policyAllows);
      if err.Some? {
        return Err(err.value);
      }
      if !u.sender {
        return Err(NoSenderConfigured);
      }
      r := CreateMarked(UnsolicitedRequest(u, from));
      if r.Err? {
        ReleaseReservation();
      }
    }

    /** tryCreateUnsolicited: the first refusal, in order, or a marked session. A session
        created holds a reservation and a failed creation gives it back, but a call that
        finds no sender keeps one for nothing. */
    method TryCreateUnsolicited(u: Unsolicited, from: Key) returns (r: Result<SessionEntry, ManagerError>)
      requires Valid()
      modifies this`sessions, this`sessionsByPeer, this`reserved, discriminators
      ensures Valid() && Leads(old(System()), System())
      ensures reserved == CountAfter(old(UnsolicitedObjection(u, from)), old(reserved))
      ensures match old(UnsolicitedObjection(u, from))
              case Some(e) => r == Err(e) && sessions == old(sessions) && sessionsByPeer == old(sessionsByPeer)
              case None => && r.Ok? && fresh(r.value) && JustMade(r.value.session)
                           && MarkedNew(old(sessions), old(sessionsByPeer), r.value, UnsolicitedRequest(u, from))
                           && r.value.key == from && PassiveAs(u, r.value.session.View())
    {
      r := AdmitEntry(u, from);
      if r.Ok? {
        UnsolicitedIsPassive(u, from, r.value.Discr());
        AdmissionLeads(r.value);
      } else {
        RefusalLeads(u, from);
      }
    }

    // ---- Echo sessions -----------------------------------------------------

    ghost predicate EchoesValid()
      reads this, echoSessions.Values
    {
      forall es :: es in echoSessions.Values ==> es.Valid()
    }

    /** Only echo sessions and their discriminators have changed. */
    twostate lemma EchoChangeLeads(new d: u32, new enters: bool)
      requires old(Valid()) && unchanged(old(sessions.Values)) && sessions == old(sessions) && sessionsByPeer == old(sessionsByPeer)
      requires reserved == old(reserved) && forall c :: c in echoSessions ==> echoSessions[c].discr == c
      requires if enters
               then && d != 0 && d !in old(discriminators.taken) && discriminators.taken == old(discriminators.taken) + {d}
                    && echoSessions.Keys == old(echoSessions.Keys) + {d}
               else && d in old(echoSessions) && discriminators.taken == old(discriminators.taken) - {d}
                    && echoSessions.Keys == old(echoSessions.Keys) - {d}
      ensures Valid() && Leads(old(System()), System())
    {
      assert Marked() == old(Marked());
      if enters {
        EchoCreateLeads(old(System()), d);
      } else {
        EchoDestroyLeads(old(System()), d);
      }
    }

    /** The checks, and the session if they pass. */
    method EnterEcho(req: EchoRequest) returns (r: Result<u32, ManagerError>)
      modifies this`echoSessions, discriminators
      ensures match EchoRefusal(req, old(discriminators.taken))
              case Some(e) => r == Err(e) && echoSessions == old(echoSessions) && discriminators.taken == old(discriminators.taken)
              case None => && r.Ok? && r.value != 0 && r.value !in old(discriminators.taken)
                           && discriminators.taken == old(discriminators.taken) + {r.value}
                           && NewEcho(old(echoSessions), req, r.value) && fresh(echoSessions[r.value])
    {
      if !req.validAddr {
        return Err(InvalidPeerAddr);
      }
      var a := discriminators.Allocate(req.draws);
      if a.Err? {
        return Err(NoDiscriminator);
      }
      var s := Echo.NewEchoSession(a.value, req.mult, req.txInterval, req.validAddr);
      if s.Err? {
        discriminators.Release(a.value);
        return Err(BadEcho(s.error));
      }
      echoSessions := echoSessions[a.value := s.value];
      return Ok(a.value);
    }

    /** One echo session more, new and as requested. */
    ghost predicate NewEcho(before: map<u32, Echo.EchoSession>, req: EchoRequest, d: u32)
      reads this, echoSessions.Values
    {
      && d in echoSessions && echoSessions == before[d := echoSessions[d]] && req.txInterval >= 0 && echoSessions[d].Valid()
      && echoSessions[d].View() == Echo.EchoVars(d, req.mult, req.txInterval, Fsm.Down, Fsm.DIAG_NONE, 0, 0, [], [])
    }

    /** CreateEchoSession: the first refusal, in order, or a new session of its own. */
    method CreateEchoSession(req: EchoRequest) returns (r: Result<u32, ManagerError>)
      requires Valid() && EchoesValid()
      modifies this`echoSessions, discriminators
      ensures Valid() && EchoesValid() && Leads(old(System()), System())
      ensures match EchoRefusal(req, old(discriminators.taken))
              case Some(e) => r == Err(e) && echoSessions == old(echoSessions)
              case None => && r.Ok? && r.value !in old(discriminators.taken)
                           && NewEcho(old(echoSessions), req, r.value) && fresh(echoSessions[r.value])
    {
      r := EnterEcho(req);
      if r.Err? {
        StandsStill();
      } else {
        EchoChangeLeads(r.value, true);
      }
    }

    method DestroyEchoSession(discr: u32) returns (err: Option<ManagerError>)
      requires Valid()
      modifies this`echoSessions, discriminators
      ensures Valid() && Leads(old(System()), System())
      ensures err == if discr in old(echoSessions) then None else Some(EchoSessionNotFound)
      ensures echoSessions == old(echoSessions) - {discr}
    {
      if discr !in echoSessions {
        StandsStill();
        return Some(EchoSessionNotFound);
      }
      echoSessions := echoSessions - {discr};
      discriminators.Release(discr);
      EchoChangeLeads(discr, false);
      return None;
    }

    /** DemuxEcho: the session of that discriminator is signalled, and no other is; there is
        no match exactly if no session has it. */
    method DemuxEcho(my: u32) returns (err: Option<ManagerError>)
      requires Valid() && EchoesValid()
      modifies echoSessions.Values`pending
      ensures EchoesValid()
      ensures err == None || err == Some(EchoDemuxNoMatch)
      ensures err == Some(EchoDemuxNoMatch) <==> forall es :: es in echoSessions.Values ==> es.discr != my
      ensures forall es :: es in echoSessions.Values ==>
                es.pending == if es.discr == my then Signalled(old(es.pending)) else old(es.pending)
    {
      if my !in echoSessions {
        return Some(EchoDemuxNoMatch);
      }
      var es := echoSessions[my];
      es.RecvEcho();
      return None;
    }

    /** One datagram on the echo port: dropped unless it decodes and is somebody's. */
    method ReceiveEcho(bytes: seq<u8>)
      requires Valid() && EchoesValid()
      modifies echoSessions.Values`pending
      ensures EchoesValid()
      ensures forall es :: es in echoSessions.Values ==>
                es.pending == if Decode(bytes).Ok? && Decode(bytes).value.my == es.discr then Signalled(old(es.pending))
                              else old(es.pending)
    {
      var r := DecodeBytes(bytes);
      if r.Ok? && r.value.my != 0 {
        var _ := DemuxEcho(r.value.my);
      }
    }

    method SignalComesHome(es: Echo.EchoSession, i: nat, tail: seq<u8>)
      requires Valid() && EchoesValid() && es in echoSessions.Values && i < |es.wires|
      modifies echoSessions.Values`pending
      ensures EchoesValid() && es.pending > 0
      ensures forall other :: other in echoSessions.Values && other != es ==> other.pending == old(other.pending)
    {
      Echo.EchoPacketsDecode(es.View(), i, tail);
      ReceiveEcho(es.wires[i] + tail);
    }

    /** The bytes of any packet that an echo session ever sent, forwarded back with whatever
        trails them, signal that same session and no other; and when its loop takes a signal,
        the session has heard an echo. */
    method EchoComesHome(es: Echo.EchoSession, i: nat, tail: seq<u8>, now: nat)
      requires Valid() && EchoesValid() && es in echoSessions.Values && i < |es.wires|
      modifies echoSessions.Values
      ensures EchoesValid() && es.View() == Echo.OnEchoRecv(old(es.View()), now) && es.state == Fsm.Up
      ensures forall other :: other in echoSessions.Values && other != es ==>
                other.View() == old(other.View()) && other.pending == old(other.pending)
    {
      Echo.EchoTransitions(es.View(), now);
      SignalComesHome(es, i, tail);
      es.TakeSignal(now);
    }

    // ---- Closing -----------------------------------------------------------

    /** Close, in whatever order the maps yield their keys; the counter of unsolicited
        sessions stays what it was. */
    method Close()
      requires Valid()
      modifies this`sessions, this`sessionsByPeer, this`echoSessions, discriminators
      ensures Valid() && sessions == map[] && sessionsByPeer == map[] && echoSessions == map[] && discriminators.taken == {}
      ensures Leads(old(System()), System())
    {
      ghost var before := System();
      ReleaseAll(sessions.Keys);
      ReleaseAll(echoSessions.Keys);
      sessions := map[];
      echoSessions := map[];
      sessionsByPeer := map[];
      CloseLeads(before);
      assert System() == Closed(before);
    }

    method ReleaseAll(discrs: set<u32>)
      modifies discriminators
      ensures discriminators.taken == old(discriminators.taken) - discrs
    {
      var todo := discrs;
      while todo != {}
        invariant todo <= discrs && discriminators.taken == old(discriminators.taken) - (discrs - todo)
        decreases todo
      {
        var d :| d in todo;
        discriminators.Release(d);
        todo := todo - {d};
      }
    }

    // ---- Routing -----------------------------------------------------------

    /** Demux: by discriminator when the packet names one, else by peer. A packet that
        names a session reaches that session or none; one that names nobody reaches the
        session of its addresses and interface. */
    method Demux(your: u32, from: Key) returns (r: Result<SessionEntry, ManagerError>)
      requires Valid()
      ensures r.Ok? ==> r.value in sessions.Values && (if your != 0 then r.value.Discr() == your else r.value.key == from)
      ensures r.Err? ==> r == Err(DemuxNoMatch)
                         && forall e :: e in sessions.Values ==> if your != 0 then e.Discr() != your else e.key != from
    {
      if your != 0 {
        if your !in sessions {
          return Err(DemuxNoMatch);
        }
        return Ok(sessions[your]);
      }
      if from !in sessionsByPeer {
        return Err(DemuxNoMatch);
      }
      var e := sessionsByPeer[from];
      assert sessions[e.Discr()] == e;
      return Ok(e);
    }

    /** The session that a packet is for, if there is one. */
    ghost function Addressee(your: u32, from: Key): Option<SessionEntry>
      reads this
    {
      if your != 0 then (if your in sessions then Some(sessions[your]) else None)
      else if from in sessionsByPeer then Some(sessionsByPeer[from])
      else None
    }

    // ---- Delivery ----------------------------------------------------------

    lemma EachApart(e: SessionEntry, x: SessionEntry)
      requires Valid() && e in sessions.Values && x in sessions.Values && x != e
      ensures Separate(x.session, e.session)
    {
      assert sessions[x.Discr()] == x && sessions[e.Discr()] == e;
    }

    /** A session is handed a packet: it does with it what its loop does, and no other session
        changes. */
    method Deliver(e: SessionEntry, bytes: seq<u8>, now: nat)
      requires Valid() && e in sessions.Values && e.session.Valid()
      modifies e.session, e.session.auth, e.session.cachedPacket, e.session.rng
      ensures Valid() && e.session.Valid() && e.session.heard == old(e.session.heard) + [bytes]
      ensures e.session.View() == SessionRuns.Handle(old(e.session.View()), SessionRuns.Packet(bytes), now)
      ensures forall x :: x in sessions.Values && x != e ==>
                unchanged(x.session) && (x.session.auth == null || unchanged(x.session.auth))
    {
      forall x | x in sessions.Values && x != e
        ensures Separate(x.session, e.session)
      {
        EachApart(e, x);
      }
      e.session.ReceiveWire(bytes, now);
    }

    /** A packet for a session that is there. */
    method DemuxKnown(your: u32, from: Key, bytes: seq<u8>, now: nat) returns (r: Result<SessionEntry, ManagerError>)
      requires Valid() && forall e :: e in sessions.Values ==> e.session.Valid()
      modifies set e | e in sessions.Values :: e.session, set e | e in sessions.Values :: e.session.cachedPacket
      modifies set e | e in sessions.Values :: e.session.rng, set e | e in sessions.Values && e.session.auth != null :: e.session.auth
      ensures Valid() && r == match Addressee(your, from) case Some(e) => Ok(e) case None => Err(DemuxNoMatch)
      ensures forall x :: x in sessions.Values && r == Ok(x) ==> x.session.heard == old(x.session.heard) + [bytes]
      ensures forall x :: x in sessions.Values && r != Ok(x) ==> x.session.heard == old(x.session.heard)
    {
      r := Demux(your, from);
      if r.Ok? {
        Deliver(r.value, bytes, now);
      }
    }

    /** Of what TryCreateUnsolicited makes: the part that delivery depends on. */
    method StartUnsolicited(u: Unsolicited, from: Key) returns (r: Result<SessionEntry, ManagerError>)
      requires Valid()
      modifies this`sessions, this`sessionsByPeer, this`reserved, discriminators
      ensures Valid()
      ensures match old(UnsolicitedObjection(u, from))
              case Some(e) => r == Err(e) && sessions == old(sessions) && sessionsByPeer == old(sessionsByPeer)
              case None =>
                && r.Ok? && fresh(r.value) && JustMade(r.value.session) && r.value.session.Valid() && r.value.session.heard == []
                && r.value.key == from && sessions == old(sessions)[r.value.Discr() := r.value]
                && sessionsByPeer == old(sessionsByPeer)[from := r.value]
    {
      r := TryCreateUnsolicited(u, from);
    }

    /** A packet from an unknown peer: the session that it starts, if nothing is in the way,
        is handed the packet first. */
    method DemuxFirst(from: Key, policy: Unsolicited, bytes: seq<u8>, now: nat) returns (r: Result<SessionEntry, ManagerError>)
      requires Valid()
      modifies this`sessions, this`sessionsByPeer, this`reserved, discriminators
      ensures Valid()
      ensures match old(UnsolicitedObjection(policy, from))
              case Some(e) => r == Err(e) && sessions == old(sessions) && sessionsByPeer == old(sessionsByPeer)
              case None =>
                && r.Ok? && fresh(r.value) && r.value.key == from && r.value.session.heard == [bytes]
                && sessions == old(sessions)[r.value.Discr() := r.value] && sessionsByPeer == old(sessionsByPeer)[from := r.value]
    {
      r := StartUnsolicited(policy, from);
      if r.Ok? {
        HandFirst(r.value.session, bytes, now);
      }
    }

    /** Where a packet goes: to the session that it is for, to a new one that it starts
        (None), or nowhere, and then why. */
    ghost function Destination(your: u32, from: Key, policy: Option<Unsolicited>): Result<Option<SessionEntry>, ManagerError>
      reads this, discriminators
    {
      match Addressee(your, from)
      case Some(e) => Ok(Some(e))
      case None =>
        if your != 0 || policy.None? then Err(DemuxNoMatch)
        else match UnsolicitedObjection(policy.value, from)
          case Some(e) => Err(e)
          case None => Ok(None)
    }

    /** demuxByPeer: a packet that names nobody. */
    method DemuxByPeer(from: Key, bytes: seq<u8>, policy: Option<Unsolicited>, now: nat)
      returns (r: Result<SessionEntry, ManagerError>)
      requires Valid() && forall e :: e in sessions.Values ==> e.session.Valid()
      modifies this`sessions, this`sessionsByPeer, this`reserved, discriminators
      modifies set e | e in sessions.Values :: e.session, set e | e in sessions.Values :: e.session.cachedPacket
      modifies set e | e in sessions.Values :: e.session.rng, set e | e in sessions.Values && e.session.auth != null :: e.session.auth
      ensures Valid()
      ensures match old(Destination(0, from, policy))
              case Err(e) => r == Err(e)
              case Ok(Some(e)) => r == Ok(e)
              case Ok(None) => r.Ok? && fresh(r.value) && r.value.session.heard == [bytes]
      ensures forall x :: x in old(sessions.Values) && r == Ok(x) ==> x.session.heard == old(x.session.heard) + [bytes]
      ensures forall x :: x in old(sessions.Values) && r != Ok(x) ==> x.session.heard == old(x.session.heard)
    {
      if from in sessionsByPeer || policy.None? {
        r := DemuxKnown(0, from, bytes, now);
      } else {
        r := DemuxFirst(from, policy.value, bytes, now);
      }
    }

    /** DemuxWithWire: the packet is handed to one session, or to none; no other one hears of
        it. */
    method DemuxWithWire(your: u32, from: Key, bytes: seq<u8>, policy: Option<Unsolicited>, now: nat)
      returns (r: Result<SessionEntry, ManagerError>)
      requires Valid() && forall e :: e in sessions.Values ==> e.session.Valid()
      modifies this`sessions, this`sessionsByPeer, this`reserved, discriminators
      modifies set e | e in sessions.Values :: e.session, set e | e in sessions.Values :: e.session.cachedPacket
      modifies set e | e in sessions.Values :: e.session.rng, set e | e in sessions.Values && e.session.auth != null :: e.session.auth
      ensures Valid()
      ensures match old(Destination(your, from, policy))
              case Err(e) => r == Err(e)
              case Ok(Some(e)) => r == Ok(e)
              case Ok(None) => r.Ok? && fresh(r.value) && r.value.session.heard == [bytes]
      ensures forall x :: x in old(sessions.Values) && r == Ok(x) ==> x.session.heard == old(x.session.heard) + [bytes]
      ensures forall x :: x in old(sessions.Values) && r != Ok(x) ==> x.session.heard == old(x.session.heard)
    {
      if your != 0 {
        r := DemuxKnown(your, from, bytes, now);
      } else {
        r := DemuxByPeer(from, bytes, policy, now);
      }
    }
  }

  /** The packet is the first that a new session's loop is handed. */
  method HandFirst(s: LiveSession, bytes: seq<u8>, now: nat)
    requires s.Valid()
    modifies s, s.auth, s.cachedPacket, s.rng
    ensures s.heard == old(s.heard) + [bytes]
  {
    StartAndHear(s, bytes, now);
  }

  /** A new session's loop begins, and a packet is the first that it handles. */
  method StartAndHear(s: LiveSession, bytes: seq<u8>, now: nat)
    requires s.Valid()
    modifies s, s.auth, s.cachedPacket, s.rng
    ensures s.Valid() && s.heard == old(s.heard) + [bytes]
    ensures s.View() == SessionRuns.Handle(Start(old(s.View()), now), SessionRuns.Packet(bytes), now)
  {
    s.Begin(now);
    s.ReceiveWire(bytes, now);
  }

  /** A signal more, unless the channel is full. */
  function Signalled(pending: nat): nat {
    if pending == Echo.ECHO_CHANNEL_SIZE then pending else pending + 1
  }

  method DecodeBytes(bytes: seq<u8>) returns (r: Result<ControlPacket, CodecError>)
    ensures r == Decode(bytes)
  {
    var wire := new u8[|bytes|](i requires 0 <= i < |bytes| => bytes[i]);
    assert wire[..] == bytes;
    var slot := new PacketSlot(NO_PACKET);
    var err := slot.Unmarshal(wire);
    return if err.Some? then Err(err.value) else Ok(slot.pkt);
  }
}
