/** Micro-BFD groups (RFC 7130): the aggregate state of a link aggregation group from the
    states of its member links. */
module Micro {
  import opened Bytes
  import opened Fsm

  datatype MicroError = NoMembers | DuplicateMember | InvalidMinActive | MemberExists | MemberNotFound

  datatype Member = Member(state: State, discr: u32)

  /** A group as a value. */
  datatype Group = Group(members: map<string, Member>, minActive: int, upCount: int, aggregateUp: bool)

  function UpMembers(members: map<string, Member>): set<string> {
    set f | f in members && members[f].state == Up
  }

  /** The counter counts, and the aggregate compares it with the threshold. */
  predicate GroupOk(g: Group) {
    g.upCount == |UpMembers(g.members)| && g.aggregateUp == (g.upCount >= g.minActive)
  }

  function NewGroup(links: seq<string>, minActive: int): Group {
    Group(map f | f in links :: Member(Down, 0), minActive, 0, false)
  }

  datatype GroupOp = Add(link: string) | Drop(link: string) | Update(link: string, state: State, discr: u32)

  function Counted(g: Group, members: map<string, Member>, upCount: int): Group {
    Group(members, g.minActive, upCount, upCount >= g.minActive)
  }

  /** What each operation makes of a group; an operation that is refused changes nothing. */
  function Apply(g: Group, op: GroupOp): Group {
    match op
    case Add(f) => if f in g.members then g else g.(members := g.members[f := Member(Down, 0)])
    case Drop(f) =>
      if f !in g.members then g
      else Counted(g, g.members - {f}, g.upCount - if g.members[f].state == Up then 1 else 0)
    case Update(f, s, d) =>
      if f !in g.members || g.members[f].state == s then g
      else Counted(g, g.members[f := Member(s, d)],
                   g.upCount - (if g.members[f].state == Up then 1 else 0) + (if s == Up then 1 else 0))
  }

  function ApplyAll(g: Group, ops: seq<GroupOp>): Group
    decreases |ops|
  {
    if ops == [] then g else Apply(ApplyAll(g, ops[..|ops| - 1]), ops[|ops| - 1])
  }

  lemma UpMembersAfter(members: map<string, Member>, f: string, m: Member)
    ensures UpMembers(members[f := m]) == if m.state == Up then UpMembers(members) + {f} else UpMembers(members) - {f}
    ensures UpMembers(members - {f}) == UpMembers(members) - {f}
  {
  }

  lemma ApplyKeeps(g: Group, op: GroupOp)
    requires GroupOk(g)
    ensures GroupOk(Apply(g, op))
  {
    match op {
      case Add(f) => UpMembersAfter(g.members, f, Member(Down, 0));
      case Drop(f) => UpMembersAfter(g.members, f, Member(Down, 0));
      case Update(f, s, d) => UpMembersAfter(g.members, f, Member(s, d));
    }
  }

  /** An operation concerns one link: a new one starts Down without a discriminator, a removed
      one is gone, an updated one has the state asked for and, if that is a new one, the
      discriminator given with it. Every other link and the threshold stay. */
  lemma ApplyOutcome(g: Group, op: GroupOp)
    ensures var h := Apply(g, op);
            && h.minActive == g.minActive
            && (forall f :: f != op.link ==> (f in h.members <==> f in g.members))
            && (forall f :: f != op.link && f in g.members ==> h.members[f] == g.members[f])
    ensures var h := Apply(g, op);
            match op
            case Add(f) => f in h.members && h.members[f] == (if f in g.members then g.members[f] else Member(Down, 0))
            case Drop(f) => f !in h.members
            case Update(f, s, d) =>
              && (f in h.members <==> f in g.members)
              && (f in g.members ==> && h.members[f].state == s
                                     && h.members[f].discr == if g.members[f].state == s then g.members[f].discr else d)
  {
  }

  lemma NewGroupOk(links: seq<string>, minActive: int)
    requires minActive >= 1
    ensures GroupOk(NewGroup(links, minActive))
  {
  }

  /** Over every sequence of adds, removals and updates. */
  lemma {:induction false} GroupHistory(links: seq<string>, minActive: int, ops: seq<GroupOp>)
    requires minActive >= 1
    ensures GroupOk(ApplyAll(NewGroup(links, minActive), ops))
    decreases |ops|
  {
    if ops == [] {
      NewGroupOk(links, minActive);
    } else {
      GroupHistory(links, minActive, ops[..|ops| - 1]);
      ApplyKeeps(ApplyAll(NewGroup(links, minActive), ops[..|ops| - 1]), ops[|ops| - 1]);
    }
  }

  predicate Distinct(links: seq<string>) {
    forall i, j :: 0 <= i < j < |links| ==> links[i] != links[j]
  }

  /** validateMicroBFDConfig. */
  method Validate(links: seq<string>, minActive: int) returns (err: Option<MicroError>)
    ensures err == None <==> |links| > 0 && Distinct(links) && 1 <= minActive <= |links|
    ensures err == Some(NoMembers) <==> links == []
    ensures err == Some(DuplicateMember) <==> !Distinct(links)
  {
    if |links| == 0 {
      return Some(NoMembers);
    }
    var seen: set<string> := {};
    for i := 0 to |links|
      invariant seen == set j | 0 <= j < i :: links[j]
      invariant forall j, k :: 0 <= j < k < i ==> links[j] != links[k]
    {
      if links[i] in seen {
        return Some(DuplicateMember);
      }
      seen := seen + {links[i]};
    }
    if minActive < 1 || minActive > |links| {
      return Some(InvalidMinActive);
    }
    return None;
  }

  class MicroGroup {
    const lag: string
    const minActive: int
    var members: map<string, Member>
    var upCount: int
    var aggregateUp: bool

    ghost function View(): Group
      reads this
    {
      Group(members, minActive, upCount, aggregateUp)
    }

    constructor (lag: string, links: seq<string>, minActive: int)
      requires |links| > 0 && Distinct(links) && 1 <= minActive <= |links|
      ensures this.lag == lag && View() == NewGroup(links, minActive) && GroupOk(View())
    {
      this.lag, this.minActive := lag, minActive;
      members := map f | f in links :: Member(Down, 0);
      upCount, aggregateUp := 0, false;
      NewGroupOk(links, minActive);
    }

    method AddMember(f: string) returns (err: Option<MicroError>)
      modifies this
      ensures View() == Apply(old(View()), Add(f))
      ensures err == if f in old(members) then Some(MemberExists) else None
    {
      if f in members {
        return Some(MemberExists);
      }
      members := members[f := Member(Down, 0)];
      return None;
    }

    /** Reports exactly the flips of the aggregate. */
    method RemoveMember(f: string) returns (changed: bool, err: Option<MicroError>)
      modifies this
      ensures View() == Apply(old(View()), Drop(f))
      ensures err == if f in old(members) then None else Some(MemberNotFound)
      ensures changed == (aggregateUp != old(aggregateUp))
    {
      if f !in members {
        return false, Some(MemberNotFound);
      }
      if members[f].state == Up {
        upCount := upCount - 1;
      }
      members := members - {f};
      var oldAggUp := aggregateUp;
      aggregateUp := upCount >= minActive;
      return oldAggUp != aggregateUp, None;
    }

    method UpdateMemberState(f: string, newState: State, discr: u32) returns (changed: bool, err: Option<MicroError>)
      modifies this
      ensures View() == Apply(old(View()), Update(f, newState, discr))
      ensures err == if f in old(members) then None else Some(MemberNotFound)
      ensures changed == (aggregateUp != old(aggregateUp))
    {
      if f !in members {
        return false, Some(MemberNotFound);
      }
      var oldState := members[f].state;
      if oldState == newState {
        return false, None;
      }
      members := members[f := Member(newState, discr)];
      if oldState == Up && newState != Up {
        upCount := upCount - 1;
      } else if oldState != Up && newState == Up {
        upCount := upCount + 1;
      }
      var oldAggUp := aggregateUp;
      aggregateUp := upCount >= minActive;
      return oldAggUp != aggregateUp, None;
    }
  }

  /** NewMicroBFDGroup. */
  method NewMicroGroup(lag: string, links: seq<string>, minActive: int) returns (r: Result<MicroGroup, MicroError>)
    ensures r.Ok? <==> |links| > 0 && Distinct(links) && 1 <= minActive <= |links|
    ensures r == Err(NoMembers) <==> links == []
    ensures r == Err(DuplicateMember) <==> !Distinct(links)
    ensures r.Ok? ==> fresh(r.value) && r.value.lag == lag && r.value.View() == NewGroup(links, minActive) && GroupOk(r.value.View())
  {
    var err := Validate(links, minActive);
    if err.Some? {
      return Err(err.value);
    }
    var g := new MicroGroup(lag, links, minActive);
    return Ok(g);
  }
}
