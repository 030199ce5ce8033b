/** The BFD state machine of section 6.2 of RFC 5880: a transition table, the
    array that the table is unfolded into, and the lookup that drives a session. */
module Fsm {
  import opened Bytes

  datatype State = AdminDown | Down | Init | Up

  datatype Event =
    | RecvAdminDown
    | RecvDown
    | RecvInit
    | RecvUp
    | TimerExpired
    | LocalAdminDown
    | LocalAdminUp

  datatype Action =
    | SendControl
    | NotifyUp
    | NotifyDown
    | SetDiagTimeExpired
    | SetDiagNeighborDown
    | SetDiagAdminDown

  const DIAG_NONE: u8 := 0
  const DIAG_TIME_EXPIRED: u8 := 1
  const DIAG_ECHO_FAILED: u8 := 2
  const DIAG_NEIGHBOR_DOWN: u8 := 3
  const DIAG_PATH_DOWN: u8 := 5
  const DIAG_ADMIN_DOWN: u8 := 7

  datatype Transition = Transition(newState: State, actions: seq<Action>)

  datatype FsmResult = FsmResult(oldState: State, newState: State, actions: seq<Action>, changed: bool)

  /** The complete transition table. A pair that is not listed is ignored. */
  const FSM_TABLE: map<(State, Event), Transition> := map[
    (AdminDown, LocalAdminUp) := Transition(Down, []),
    (Down, RecvDown) := Transition(Init, [SendControl]),
    (Down, RecvInit) := Transition(Up, [SendControl, NotifyUp]),
    (Down, LocalAdminDown) := Transition(AdminDown, [SetDiagAdminDown]),
    (Init, RecvAdminDown) := Transition(Down, [SetDiagNeighborDown, NotifyDown]),
    (Init, RecvDown) := Transition(Init, []),
    (Init, RecvInit) := Transition(Up, [SendControl, NotifyUp]),
    (Init, RecvUp) := Transition(Up, [SendControl, NotifyUp]),
    (Init, TimerExpired) := Transition(Down, [SetDiagTimeExpired, NotifyDown]),
    (Init, LocalAdminDown) := Transition(AdminDown, [SetDiagAdminDown]),
    (Up, RecvAdminDown) := Transition(Down, [SetDiagNeighborDown, NotifyDown]),
    (Up, RecvDown) := Transition(Down, [SetDiagNeighborDown, NotifyDown]),
    (Up, RecvInit) := Transition(Up, []),
    (Up, RecvUp) := Transition(Up, []),
    (Up, TimerExpired) := Transition(Down, [SetDiagTimeExpired, NotifyDown]),
    (Up, LocalAdminDown) := Transition(AdminDown, [SetDiagAdminDown])
  ]

  function ApplyEvent(s: State, e: Event): FsmResult {
    if (s, e) in FSM_TABLE then
      var tr := FSM_TABLE[(s, e)];
      FsmResult(s, tr.newState, tr.actions, s != tr.newState)
    else
      FsmResult(s, s, [], false)
  }

  /** The event that a received State field raises. */
  function RecvStateToEvent(s: State): Event {
    match s
    case AdminDown => RecvAdminDown
    case Down => RecvDown
    case Init => RecvInit
    case Up => RecvUp
  }

  /** The session state and diagnostic prescribed by the reception pseudocode of
      section 6.8.6 of RFC 5880, written from the document and not from the table. */
  function RfcReceive(s: State, diag: u8, received: State): (State, u8) {
    if s == AdminDown then (s, diag)
    else if received == AdminDown then
      if s != Down then (Down, 3) else (s, diag)
    else if s == Down then
      if received == Down then (Init, diag)
      else if received == Init then (Up, diag)
      else (s, diag)
    else if s == Init then
      if received == Init || received == Up then (Up, diag) else (s, diag)
    else if received == Down then (Down, 3)
    else (s, diag)
  }

  /** Only an operator leaves AdminDown, for Down and in silence, and only Init and Up time out. */
  lemma LocalEvents(s: State)
    ensures forall e: Event | e != LocalAdminUp :: ApplyEvent(AdminDown, e).newState == AdminDown
    ensures ApplyEvent(s, TimerExpired).newState == (if s == Init || s == Up then Down else s)
    ensures ApplyEvent(s, LocalAdminDown).newState == AdminDown
    ensures ApplyEvent(s, LocalAdminUp) == FsmResult(s, if s == AdminDown then Down else s, [], s == AdminDown)
  {
  }

  function TransitionActions(e: Event, newState: State): seq<Action> {
    match newState
    case Init => [SendControl]
    case Up => [SendControl, NotifyUp]
    case AdminDown => [SetDiagAdminDown]
    case Down => [if e == TimerExpired then SetDiagTimeExpired else SetDiagNeighborDown, NotifyDown]
  }

  /** The actions of a transition are determined by where it leads and by whether a
      timer caused it; an event that changes nothing has no actions. */
  lemma ActionsByTarget(s: State, e: Event)
    requires e != LocalAdminUp
    ensures var r := ApplyEvent(s, e);
            && r.oldState == s && (r.changed <==> r.newState != s)
            && r.actions == if r.changed then TransitionActions(e, r.newState) else []
  {
  }

  function DiagAfter(diag: u8, actions: seq<Action>): u8
    decreases |actions|
  {
    if actions == [] then diag
    else
      var d := match actions[0]
        case SetDiagTimeExpired => DIAG_TIME_EXPIRED
        case SetDiagNeighborDown => DIAG_NEIGHBOR_DOWN
        case SetDiagAdminDown => DIAG_ADMIN_DOWN
        case _ => diag;
      DiagAfter(d, actions[1..])
  }

  lemma DiagAfterTwo(diag: u8, a: Action, b: Action)
    ensures DiagAfter(diag, [a, b]) == DiagAfter(DiagAfter(diag, [a]), [b])
    ensures DiagAfter(diag, [SendControl]) == diag && DiagAfter(diag, [NotifyUp]) == diag && DiagAfter(diag, [NotifyDown]) == diag
    ensures DiagAfter(diag, [SetDiagNeighborDown]) == DIAG_NEIGHBOR_DOWN
  {
  }

  lemma StateByRfc(s: State, diag: u8, received: State)
    ensures ApplyEvent(s, RecvStateToEvent(received)).newState == RfcReceive(s, diag, received).0
  {
  }

  lemma DiagByTarget(diag: u8, e: Event, t: State)
    requires e != TimerExpired
    ensures t != AdminDown ==> DiagAfter(diag, TransitionActions(e, t)) == if t == Down then DIAG_NEIGHBOR_DOWN else diag
  {
    DiagAfterTwo(diag, SendControl, NotifyUp);
    DiagAfterTwo(diag, SetDiagNeighborDown, NotifyDown);
    DiagAfterTwo(DIAG_NEIGHBOR_DOWN, NotifyDown, NotifyDown);
  }

  /** The table implements the reception pseudocode: same state, same diagnostic. */
  lemma TableRefinesRfc(s: State, diag: u8, received: State)
    ensures var r := ApplyEvent(s, RecvStateToEvent(received));
            (r.newState, DiagAfter(diag, r.actions)) == RfcReceive(s, diag, received)
  {
    var e := RecvStateToEvent(received);
    ActionsByTarget(s, e);
    StateByRfc(s, diag, received);
    DiagByTarget(diag, e, ApplyEvent(s, e).newState);
  }

  // ---- The array that ApplyEvent reads on the hot path -------------------

  const NUM_STATES: nat := 4
  const NUM_EVENTS: nat := 7

  function StateIndex(s: State): (i: nat)
    ensures i < NUM_STATES
  {
    match s case AdminDown => 0 case Down => 1 case Init => 2 case Up => 3
  }

  function EventIndex(e: Event): (i: nat)
    ensures i < NUM_EVENTS
  {
    match e
    case RecvAdminDown => 0
    case RecvDown => 1
    case RecvInit => 2
    case RecvUp => 3
    case TimerExpired => 4
    case LocalAdminDown => 5
    case LocalAdminUp => 6
  }

  lemma IndexesAreInjective(s: State, t: State, e: Event, f: Event)
    ensures StateIndex(s) == StateIndex(t) && EventIndex(e) == EventIndex(f) ==> s == t && e == f
  {
  }

  /** A cell is None where the table has no entry. */
  class FsmArray {
    const cells: array2<Option<Transition>>

    ghost predicate Holds(table: map<(State, Event), Transition>)
      reads cells
    {
      && cells.Length0 == NUM_STATES && cells.Length1 == NUM_EVENTS
      && forall s: State, e: Event ::
           cells[StateIndex(s), EventIndex(e)] ==
           if (s, e) in table then Some(table[(s, e)]) else None
    }

    /** An array with no transition. */
    constructor ()
      ensures Holds(map[]) && fresh(cells)
    {
      cells := new Option<Transition>[NUM_STATES, NUM_EVENTS]((_, _) => None);
    }

    method Put(s: State, e: Event, tr: Transition, ghost table: map<(State, Event), Transition>)
      requires Holds(table)
      modifies cells
      ensures Holds(table[(s, e) := tr])
    {
      cells[StateIndex(s), EventIndex(e)] := Some(tr);
      forall t: State, f: Event {
        IndexesAreInjective(s, t, e, f);
      }
    }

    /** Fills the array from a table, in whatever order the map yields its keys. */
    method Fill(table: map<(State, Event), Transition>)
      requires Holds(map[])
      modifies cells
      ensures Holds(table)
    {
      var todo := table.Keys;
      ghost var done: map<(State, Event), Transition> := map[];
      while todo != {}
        invariant todo <= table.Keys && done == table - todo
        invariant Holds(done)
        decreases todo
      {
        var key :| key in todo;
        Put(key.0, key.1, table[key], done);
        done := done[(key.0, key.1) := table[key]];
        todo := todo - {key};
      }
      assert done == table;
    }

    /** After start-up the array lookup answers exactly what the table does. */
    method Apply(s: State, e: Event) returns (r: FsmResult)
      requires Holds(FSM_TABLE)
      ensures r == ApplyEvent(s, e)
    {
      match cells[StateIndex(s), EventIndex(e)] {
        case None => r := FsmResult(s, s, [], false);
        case Some(tr) => r := FsmResult(s, tr.newState, tr.actions, s != tr.newState);
      }
    }
  }
}
