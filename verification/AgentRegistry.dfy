/** The registry of connected agents: who is in it, who gives way to whom, and the main state
    that registering and removing the primary agent set. */
module AgentRegistry {
  import UserActions

  type ConnId = nat

  datatype AgentType = Primary | Worker | Archive

  datatype Agent = Agent(connId: ConnId, uuid: string, agentType: AgentType)

  type MainState = UserActions.MainState

  const DISCONNECTED := UserActions.Disconnected
  const PENDING := UserActions.Pending

  datatype State = State(agents: map<ConnId, Agent>, main: MainState)

  /** Each key is its agent's own, one agent to a uuid, at most one primary, and the main
      state is DISCONNECTED just when there is none. */
  ghost predicate Inv(s: State) {
    && (forall k :: k in s.agents ==> s.agents[k].connId == k)
    && (forall k, j :: k in s.agents && j in s.agents && s.agents[k].uuid == s.agents[j].uuid ==> k == j)
    && OnePrimary(s.agents)
    && (s.main == DISCONNECTED <==> NoPrimary(s.agents))
  }

  ghost predicate NoPrimary(agents: map<ConnId, Agent>) {
    forall k :: k in agents ==> !agents[k].agentType.Primary?
  }

  ghost predicate OnePrimary(agents: map<ConnId, Agent>) {
    forall k, j :: k in agents && j in agents && agents[k].agentType.Primary? && agents[j].agentType.Primary? ==> k == j
  }

  // ---------------------------------------------------------------- what the two operations do

  function Remove(s: State, agent: Agent): State {
    if agent.connId !in s.agents then s
    else State(s.agents - {agent.connId},
               if agent.agentType.Primary? then DISCONNECTED else s.main)
  }

  /** The registry's keys, in the order in which it is iterated over. */
  ghost predicate Lists(order: seq<ConnId>, agents: map<ConnId, Agent>) {
    && (forall k :: k in order <==> k in agents)
    && (forall i, j :: 0 <= i < j < |order| ==> order[i] != order[j])
  }

  /** What is still to be visited from `n` on is registered. */
  ghost predicate Ahead(agents: map<ConnId, Agent>, order: seq<ConnId>, n: nat) {
    && n <= |order| && (forall i :: n <= i < |order| ==> order[i] in agents && agents[order[i]].connId == order[i])
    && (forall i, j :: n <= i < j < |order| ==> order[i] != order[j])
  }

  /** What the search is for.  The first agent with the new one's uuid is removed and ends it;
      until then a new primary removes every primary it meets. */
  function Sweep(s: State, order: seq<ConnId>, n: nat, agent: Agent): State
    requires Ahead(s.agents, order, n)
    decreases |order| - n
  {
    if n == |order| then s
    else
      var other := s.agents[order[n]];
      if other.uuid == agent.uuid then Remove(s, other)
      else if agent.agentType.Primary? && other.agentType.Primary? then Sweep(Remove(s, other), order, n + 1, agent)
      else Sweep(s, order, n + 1, agent)
  }

  function Add(s: State, agent: Agent): State {
    State(s.agents[agent.connId := agent], if agent.agentType.Primary? then PENDING else s.main)
  }

  /** A registration as it is meant. */
  ghost function Register(s: State, order: seq<ConnId>, agent: Agent): State
    requires Ahead(s.agents, order, 0)
  {
    Add(Sweep(s, order, 0, agent), agent)
  }

  /** What the search does.  It iterates over the live dictionary, which refuses to go on once
      an entry has been deleted: only a removal that ends the search does not raise. */
  function Search(s: State, order: seq<ConnId>, n: nat, agent: Agent): (State, bool)
    requires Ahead(s.agents, order, n)
    decreases |order| - n
  {
    if n == |order| then (s, false)
    else
      var other := s.agents[order[n]];
      if other.uuid == agent.uuid then (Remove(s, other), false)
      else if agent.agentType.Primary? && other.agentType.Primary? then (Remove(s, other), true)
      else Search(s, order, n + 1, agent)
  }

  ghost predicate Raises(s: State, order: seq<ConnId>, agent: Agent)
    requires Ahead(s.agents, order, 0)
  {
    Search(s, order, 0, agent).1
  }

  /** A registration as it is.  When the search raises, nothing is added, and the controller
      exits. */
  ghost function Entered(s: State, order: seq<ConnId>, agent: Agent): State
    requires Ahead(s.agents, order, 0)
  {
    var (searched, raised) := Search(s, order, 0, agent);
    if raised then searched else Add(searched, agent)
  }

  // ---------------------------------------------------------------- the registry itself

  class Registry {
    var agents: map<ConnId, Agent>
    var main: MainState

    ghost function Value(): State
      reads this
    {
      State(agents, main)
    }

    constructor ()
      ensures Value() == State(map[], UserActions.Disconnected) && Inv(Value())
    {
      agents, main := map[], DISCONNECTED;
    }

    method RemoveAgent(agent: Agent)
      modifies this
      ensures Value() == Remove(old(Value()), agent)
      ensures agents == old(agents) - {agent.connId}
      ensures main == if agent.agentType == Primary && agent.connId in old(agents) then UserActions.Disconnected else old(main)
    {
      var forgot := false;
      if agent.connId in agents {
        forgot := true;
        agents := agents - {agent.connId};
      }
      if !forgot {
        return;
      }
      if agent.agentType.Primary? {
        main := DISCONNECTED;
      }
    }

    /** `register`. */
    method Enter(agent: Agent, order: seq<ConnId>) returns (raised: bool)
      requires Lists(order, agents) && Ahead(agents, order, 0)
      modifies this
      ensures Value() == Entered(old(Value()), order, agent)
      ensures raised <==> Raises(old(Value()), order, agent)
    {
      hide Lists;
      ghost var s := Value();
      var n := 0;
      while n < |order|
        invariant n <= |order| && Value() == s
        invariant Search(s, order, 0, agent) == Search(s, order, n, agent)
      {
        var other := agents[order[n]];
        if other.uuid == agent.uuid {
          RemoveAgent(other);
          break;
        } else if agent.agentType.Primary? && other.agentType.Primary? {
          RemoveAgent(other);
          return true;
        }
        n := n + 1;
      }
      agents := agents[agent.connId := agent];
      if agent.agentType.Primary? {
        main := PENDING;
      }
      return false;
    }
  }

  // ---------------------------------------------------------------- what a registration removes

  /** The newest connection wins over one with its uuid, and a primary over a primary. */
  predicate Displaces(agent: Agent, other: Agent) {
    other.uuid == agent.uuid || (agent.agentType.Primary? && other.agentType.Primary?)
  }

  /** The search has ended before it comes to `i`. */
  ghost predicate EndsBefore(agents: map<ConnId, Agent>, order: seq<ConnId>, n: nat, i: nat, agent: Agent)
    requires Ahead(agents, order, n) && i <= |order|
  {
    exists j :: n <= j < i && agents[order[j]].uuid == agent.uuid
  }

  lemma {:induction false} SweepAt(s: State, order: seq<ConnId>, n: nat, i: nat, agent: Agent)
    requires Ahead(s.agents, order, n) && n <= i < |order|
    ensures order[i] in Sweep(s, order, n, agent).agents
      <==> !Displaces(agent, s.agents[order[i]]) || EndsBefore(s.agents, order, n, i, agent)
    decreases |order| - n
  {
    var other := s.agents[order[n]];
    if other.uuid != agent.uuid {
      var s' := if agent.agentType.Primary? && other.agentType.Primary? then Remove(s, other) else s;
      if n == i {
        SweepShrinks(s', order, n + 1, agent);
        assert !EndsBefore(s.agents, order, n, i, agent);
      } else {
        SweepAt(s', order, n + 1, i, agent);
        assert EndsBefore(s'.agents, order, n + 1, i, agent) ==> EndsBefore(s.agents, order, n, i, agent);
        assert EndsBefore(s.agents, order, n, i, agent) ==> EndsBefore(s'.agents, order, n + 1, i, agent);
      }
    }
  }

  lemma {:induction false} SweepShrinks(s: State, order: seq<ConnId>, n: nat, agent: Agent)
    requires Ahead(s.agents, order, n)
    ensures var s' := Sweep(s, order, n, agent);
      && (forall k :: k in s'.agents ==> k in s.agents && s'.agents[k] == s.agents[k])
      && (forall k :: k in s.agents && k !in order[n..] ==> k in s'.agents)
    decreases |order| - n
  {
    if n < |order| {
      var other := s.agents[order[n]];
      assert order[n..] == [order[n]] + order[n + 1..];
      if other.uuid != agent.uuid {
        SweepShrinks(if agent.agentType.Primary? && other.agentType.Primary? then Remove(s, other) else s, order, n + 1, agent);
      }
    }
  }

  /** Removing a primary is what makes the main state DISCONNECTED. */
  lemma {:induction false} SweepMain(s: State, order: seq<ConnId>, n: nat, agent: Agent)
    requires Ahead(s.agents, order, n)
    ensures var s' := Sweep(s, order, n, agent);
      s'.main == if exists k :: k in s.agents && k !in s'.agents && s.agents[k].agentType.Primary? then DISCONNECTED else s.main
    decreases |order| - n
  {
    if n < |order| {
      var other := s.agents[order[n]];
      if other.uuid != agent.uuid {
        var s1 := if agent.agentType.Primary? && other.agentType.Primary? then Remove(s, other) else s;
        SweepMain(s1, order, n + 1, agent);
        SweepShrinks(s1, order, n + 1, agent);
      }
    }
  }

  /** A primary that the search does not come to, since an agent with the new primary's uuid
      came first. */
  ghost predicate Overlooks(agents: map<ConnId, Agent>, order: seq<ConnId>, agent: Agent)
    requires Lists(order, agents)
  {
    && agent.agentType.Primary?
    && exists i, j :: 0 <= j < i < |order| && agents[order[j]].uuid == agent.uuid != agents[order[i]].uuid
                      && agents[order[i]].agentType.Primary?
  }

  /** Without such a primary, a registration removes just the agents it displaces. */
  lemma RegisterRemoves(s: State, order: seq<ConnId>, agent: Agent, k: ConnId)
    requires Inv(s) && Lists(order, s.agents) && k in s.agents && k != agent.connId
    requires !Overlooks(s.agents, order, agent)
    ensures var s' := Register(s, order, agent);
      if Displaces(agent, s.agents[k]) then k !in s'.agents else k in s'.agents && s'.agents[k] == s.agents[k]
  {
    var i :| 0 <= i < |order| && order[i] == k;
    SweepAt(s, order, 0, i, agent);
    SweepShrinks(s, order, 0, agent);
    forall j | 0 <= j < i && s.agents[order[j]].uuid == agent.uuid ensures !Displaces(agent, s.agents[k]) {
      assert order[j] != order[i];
    }
  }

  lemma RegisterAddsNone(s: State, order: seq<ConnId>, agent: Agent, k: ConnId)
    requires Inv(s) && Lists(order, s.agents) && k != agent.connId && k in Register(s, order, agent).agents
    ensures k in s.agents && Register(s, order, agent).agents[k] == s.agents[k]
  {
    SweepShrinks(s, order, 0, agent);
  }

  /** A registration keeps the invariant exactly when it overlooks no primary. */
  lemma RegisterKeepsIff(s: State, order: seq<ConnId>, agent: Agent)
    requires Inv(s) && Lists(order, s.agents) && agent.connId !in s.agents
    ensures Inv(Register(s, order, agent)) <==> !Overlooks(s.agents, order, agent)
  {
    if Overlooks(s.agents, order, agent) {
      OverlookedStays(s, order, agent);
    } else {
      RegisterKeeps(s, order, agent);
    }
  }

  lemma OverlookedStays(s: State, order: seq<ConnId>, agent: Agent)
    requires Inv(s) && Lists(order, s.agents) && agent.connId !in s.agents && Overlooks(s.agents, order, agent)
    ensures !OnePrimary(Register(s, order, agent).agents)
  {
    var i, j :| 0 <= j < i < |order| && s.agents[order[j]].uuid == agent.uuid != s.agents[order[i]].uuid
                && s.agents[order[i]].agentType.Primary?;
    assert EndsBefore(s.agents, order, 0, i, agent);
    SweepAt(s, order, 0, i, agent);
    SweepShrinks(s, order, 0, agent);
    var agents := Register(s, order, agent).agents;
    assert order[i] in agents && agents[order[i]].agentType.Primary? && agents[agent.connId].agentType.Primary?;
  }

  lemma RegisterMain(s: State, order: seq<ConnId>, agent: Agent)
    requires Inv(s) && Lists(order, s.agents) && agent.connId !in s.agents
    requires !Overlooks(s.agents, order, agent)
    ensures var s' := Register(s, order, agent); s'.main == DISCONNECTED <==> NoPrimary(s'.agents)
  {
    var s', swept := Register(s, order, agent), Sweep(s, order, 0, agent);
    SweepMain(s, order, 0, agent);
    SweepShrinks(s, order, 0, agent);
    if agent.agentType.Primary? {
      assert s'.agents[agent.connId].agentType.Primary?;
    } else {
      assert swept.main == DISCONNECTED <==> NoPrimary(swept.agents);
      assert forall k :: k in s'.agents && k != agent.connId ==> k in swept.agents;
      assert forall k :: k in swept.agents ==> k in s'.agents && s'.agents[k] == swept.agents[k];
    }
  }

  lemma RegisterContents(s: State, order: seq<ConnId>, agent: Agent)
    requires Inv(s) && Lists(order, s.agents) && !Overlooks(s.agents, order, agent)
    ensures var agents := Register(s, order, agent).agents;
      && agent.connId in agents && agents[agent.connId] == agent
      && (forall k :: k in agents && k != agent.connId ==>
            k in s.agents && agents[k] == s.agents[k] && !Displaces(agent, s.agents[k]))
  {
    assert Ahead(s.agents, order, 0);
    hide Inv, Lists, Overlooks, Displaces;
    var s' := Register(s, order, agent);
    forall k | k in s'.agents && k != agent.connId
      ensures k in s.agents && s'.agents[k] == s.agents[k] && !Displaces(agent, s.agents[k])
    {
      RegisterAddsNone(s, order, agent, k);
      RegisterRemoves(s, order, agent, k);
    }
  }

  lemma RegisterKeeps(s: State, order: seq<ConnId>, agent: Agent)
    requires Inv(s) && Lists(order, s.agents) && agent.connId !in s.agents
    requires !Overlooks(s.agents, order, agent)
    ensures Inv(Register(s, order, agent))
  {
    RegisterContents(s, order, agent);
    RegisterMain(s, order, agent);
    hide Overlooks, Lists, Register, NoPrimary;
  }

  /** A primary that was never connected as another type overlooks none. */
  lemma SameTypeSuffices(s: State, order: seq<ConnId>, agent: Agent)
    requires Inv(s) && Lists(order, s.agents)
    requires forall k :: k in s.agents && s.agents[k].uuid == agent.uuid && agent.agentType.Primary? ==> s.agents[k].agentType.Primary?
    ensures !Overlooks(s.agents, order, agent)
  {
  }

  // ---------------------------------------------------------------- what a registration does

  /** A primary that a new primary meets at `i`, before any agent with its own uuid. */
  predicate Meets(agents: map<ConnId, Agent>, order: seq<ConnId>, n: nat, i: nat, agent: Agent)
    requires Ahead(agents, order, n)
  {
    && n <= i < |order| && agent.agentType.Primary? && agents[order[i]].agentType.Primary?
    && forall j :: n <= j <= i ==> agents[order[j]].uuid != agent.uuid
  }

  /** The search raises exactly when it meets another primary; that one is gone then. */
  lemma {:induction false} RaisesIff(s: State, order: seq<ConnId>, n: nat, agent: Agent)
    requires Ahead(s.agents, order, n)
    ensures Search(s, order, n, agent).1 <==> exists i: nat :: Meets(s.agents, order, n, i, agent)
    ensures Search(s, order, n, agent).1 ==>
      exists i: nat :: Meets(s.agents, order, n, i, agent) && Search(s, order, n, agent).0 == Remove(s, s.agents[order[i]])
    decreases |order| - n
  {
    if n < |order| {
      var other := s.agents[order[n]];
      if other.uuid != agent.uuid {
        if agent.agentType.Primary? && other.agentType.Primary? {
          assert Meets(s.agents, order, n, n, agent);
        } else {
          RaisesIff(s, order, n + 1, agent);
          if Search(s, order, n, agent).1 {
            var i: nat :| Meets(s.agents, order, n + 1, i, agent) && Search(s, order, n, agent).0 == Remove(s, s.agents[order[i]]);
            assert Meets(s.agents, order, n, i, agent);
          }
          if i: nat :| Meets(s.agents, order, n, i, agent) {
            assert Meets(s.agents, order, n + 1, i, agent);
          }
        }
      }
    }
  }

  /** A search that does not raise does what it is meant to do. */
  lemma {:induction false} SearchIsSweep(s: State, order: seq<ConnId>, n: nat, agent: Agent)
    requires Ahead(s.agents, order, n) && !Search(s, order, n, agent).1
    ensures Search(s, order, n, agent).0 == Sweep(s, order, n, agent)
    decreases |order| - n
  {
    if n < |order| && s.agents[order[n]].uuid != agent.uuid {
      SearchIsSweep(s, order, n + 1, agent);
    }
  }

  /** Another agent is the connected primary. */
  ghost predicate Rivals(agents: map<ConnId, Agent>, agent: Agent, k: ConnId) {
    k in agents && agent.agentType.Primary? && agents[k].agentType.Primary? && agents[k].uuid != agent.uuid
  }

  /** A new primary never takes over from another one: unless it overlooks it, the search
      raises, the other one is gone, the main state is DISCONNECTED and nobody is added. */
  lemma NeverTakesOver(s: State, order: seq<ConnId>, agent: Agent, k: ConnId)
    requires Inv(s) && Lists(order, s.agents) && Rivals(s.agents, agent, k)
    ensures Raises(s, order, agent) <==> !Overlooks(s.agents, order, agent)
    ensures Raises(s, order, agent) ==> Entered(s, order, agent) == State(s.agents - {k}, UserActions.Disconnected)
  {
    RaisesIff(s, order, 0, agent);
    var i: nat :| i < |order| && order[i] == k;
    assert forall j :: 0 <= j < |order| && s.agents[order[j]].agentType.Primary? ==> order[j] == k;
    if !Overlooks(s.agents, order, agent) {
      assert Meets(s.agents, order, 0, i, agent);
    }
    if Raises(s, order, agent) {
      var m: nat :| Meets(s.agents, order, 0, m, agent) && Search(s, order, 0, agent).0 == Remove(s, s.agents[order[m]]);
      assert order[m] == k && m == i;
    }
  }

  /** Without such a rival a registration does not raise: the agent is added, in place of the
      one with its uuid, and every other one stays. */
  lemma EntersInPlace(s: State, order: seq<ConnId>, agent: Agent, k: ConnId)
    requires Inv(s) && Lists(order, s.agents) && agent.connId !in s.agents
    requires forall j :: !Rivals(s.agents, agent, j)
    ensures !Raises(s, order, agent) && Entered(s, order, agent) == Register(s, order, agent)
    ensures var agents := Entered(s, order, agent).agents;
      k in agents <==> k == agent.connId || (k in s.agents && s.agents[k].uuid != agent.uuid)
    ensures var agents := Entered(s, order, agent).agents;
      k in agents ==> agents[k] == if k == agent.connId then agent else s.agents[k]
  {
    RaisesIff(s, order, 0, agent);
    assert forall i: nat :: Meets(s.agents, order, 0, i, agent) ==> Rivals(s.agents, agent, order[i]);
    SearchIsSweep(s, order, 0, agent);
    assert !Overlooks(s.agents, order, agent) by {
      assert forall i :: 0 <= i < |order| ==> !Rivals(s.agents, agent, order[i]);
    }
    if k != agent.connId && k in s.agents {
      RegisterRemoves(s, order, agent, k);
      assert Displaces(agent, s.agents[k]) ==> s.agents[k].uuid == agent.uuid by {
        assert !Rivals(s.agents, agent, k);
      }
    }
    if k != agent.connId && k in Register(s, order, agent).agents {
      RegisterAddsNone(s, order, agent, k);
    }
  }

  /** An agent with the new one's uuid is the connected primary. */
  ghost predicate ReplacesPrimary(agents: map<ConnId, Agent>, agent: Agent) {
    exists k :: k in agents && agents[k].uuid == agent.uuid && agents[k].agentType.Primary?
  }

  /** The main state that a registration leaves: PENDING after a primary that was added,
      DISCONNECTED when a primary has gone and none has come, and else what it was. */
  lemma EnteredMain(s: State, order: seq<ConnId>, agent: Agent)
    requires Inv(s) && Lists(order, s.agents)
    ensures Entered(s, order, agent).main
      == if Raises(s, order, agent) then UserActions.Disconnected
         else if agent.agentType.Primary? then UserActions.Pending
         else if ReplacesPrimary(s.agents, agent) then UserActions.Disconnected
         else s.main
  {
    RaisesIff(s, order, 0, agent);
    if Raises(s, order, agent) {
      var i: nat :| Meets(s.agents, order, 0, i, agent) && Search(s, order, 0, agent).0 == Remove(s, s.agents[order[i]]);
    } else if !agent.agentType.Primary? {
      FoundMain(s, order, 0, agent);
      if k :| k in s.agents && s.agents[k].uuid == agent.uuid && s.agents[k].agentType.Primary? {
        var i :| 0 <= i < |order| && order[i] == k;
      }
    }
  }

  /** The search for another agent than a primary removes the one with its uuid. */
  lemma {:induction false} FoundMain(s: State, order: seq<ConnId>, n: nat, agent: Agent)
    requires Ahead(s.agents, order, n) && !agent.agentType.Primary?
    requires forall k, j :: k in s.agents && j in s.agents && s.agents[k].uuid == s.agents[j].uuid ==> k == j
    ensures Search(s, order, n, agent).0.main
      == if exists i :: n <= i < |order| && s.agents[order[i]].uuid == agent.uuid && s.agents[order[i]].agentType.Primary?
         then UserActions.Disconnected else s.main
    decreases |order| - n
  {
    if n < |order| && s.agents[order[n]].uuid != agent.uuid {
      FoundMain(s, order, n + 1, agent);
    }
  }

  /** Raising or not, a registration keeps the invariant exactly when it overlooks no primary. */
  lemma EnteredKeepsIff(s: State, order: seq<ConnId>, agent: Agent)
    requires Inv(s) && Lists(order, s.agents) && agent.connId !in s.agents
    ensures Inv(Entered(s, order, agent)) <==> !Overlooks(s.agents, order, agent)
  {
    assert Ahead(s.agents, order, 0);
    hide Inv, Overlooks;
    if Raises(s, order, agent) {
      RaisesIff(s, order, 0, agent);
      var i: nat :| Meets(s.agents, order, 0, i, agent) && Search(s, order, 0, agent).0 == Remove(s, s.agents[order[i]]);
      assert Rivals(s.agents, agent, order[i]);
      NeverTakesOver(s, order, agent, order[i]);
      RemoveKeeps(s, s.agents[order[i]]);
    } else {
      SearchIsSweep(s, order, 0, agent);
      RegisterKeepsIff(s, order, agent);
    }
  }

  lemma RemoveKeeps(s: State, agent: Agent)
    requires Inv(s) && (agent.connId in s.agents ==> s.agents[agent.connId] == agent)
    ensures Inv(Remove(s, agent))
  {
    var s' := Remove(s, agent);
    if k :| k in s.agents && k != agent.connId && s.agents[k].agentType.Primary? {
      assert k in s'.agents;
    }
  }

  /** The thread of a connection that gave way still removes its agent: to no effect, whether
      its place was taken or the search raised. */
  lemma LateRemoval(s: State, order: seq<ConnId>, agent: Agent, k: ConnId)
    requires Inv(s) && Lists(order, s.agents) && agent.connId !in s.agents && !Overlooks(s.agents, order, agent)
    requires k in s.agents && (if Raises(s, order, agent) then Rivals(s.agents, agent, k) else Displaces(agent, s.agents[k]))
    ensures Remove(Entered(s, order, agent), s.agents[k]) == Entered(s, order, agent)
  {
    if Raises(s, order, agent) {
      NeverTakesOver(s, order, agent, k);
    } else {
      SearchIsSweep(s, order, 0, agent);
      RegisterRemoves(s, order, agent, k);
    }
  }

  // ---------------------------------------------------------------- runs

  /** An agent registers, and the search may raise (the controller exits then; runs that go on
      only have more states); a thread removes an agent it has lost, perhaps a stale one; or
      somebody else moves the main state, which leaves DISCONNECTED alone. */
  datatype Action = Enter(agent: Agent, order: seq<ConnId>) | Leave(agent: Agent) | Elsewhere(main: MainState)

  ghost predicate Enabled(s: State, a: Action) {
    match a
    case Enter(agent, order) =>
      && agent.connId !in s.agents
      && Lists(order, s.agents) && Ahead(s.agents, order, 0) && !Overlooks(s.agents, order, agent)
    case Leave(agent) => agent.connId in s.agents ==> s.agents[agent.connId] == agent
    case Elsewhere(main) => main == DISCONNECTED <==> s.main == DISCONNECTED
  }

  ghost function Apply(s: State, a: Action): State
    requires Enabled(s, a)
  {
    match a
    case Enter(agent, order) => Entered(s, order, agent)
    case Leave(agent) => Remove(s, agent)
    case Elsewhere(main) => s.(main := main)
  }

  ghost predicate Next(s: State, s': State) {
    exists a :: Enabled(s, a) && s' == Apply(s, a)
  }

  ghost predicate IsRun(run: seq<State>) {
    && run != [] && run[0] == State(map[], DISCONNECTED)
    && forall i :: 0 <= i < |run| - 1 ==> Next(run[i], run[i + 1])
  }

  lemma {:induction false} RunKeeps(run: seq<State>, i: nat)
    requires IsRun(run) && i < |run|
    ensures Inv(run[i])
  {
    if i > 0 {
      RunKeeps(run, i - 1);
      assert Next(run[i - 1], run[i - 1 + 1]);
      var a :| Enabled(run[i - 1], a) && run[i] == Apply(run[i - 1], a);
      match a
      case Enter(agent, order) => EnteredKeepsIff(run[i - 1], order, agent);
      case Leave(agent) => RemoveKeeps(run[i - 1], agent);
      case Elsewhere(_) =>
    }
  }

  lemma TwoAgentsReachable(first: Agent, worker: Agent) returns (run: seq<State>)
    requires first == Agent(1, "p", Primary) && worker == Agent(8, "q", Worker)
    ensures IsRun(run) && run[|run| - 1] == State(map[1 := first, 8 := worker], PENDING)
  {
    var s0, s1 := State(map[], DISCONNECTED), State(map[1 := first], PENDING);
    var s2 := State(map[1 := first, 8 := worker], PENDING);
    assert Next(s0, s1) by {
      assert Enabled(s0, Enter(first, [])) && s1 == Apply(s0, Enter(first, []));
    }
    assert Next(s1, s2) by {
      assert [1][0] == 1;
      assert Enabled(s1, Enter(worker, [1])) && s2 == Apply(s1, Enter(worker, [1]));
    }
    run := [s0, s1, s2];
    hide Next;
  }

  /** An overlooked primary can come about: the primary has connection 1, a worker has
      connection 8, which the dictionary lists first, and the worker's uuid comes back as that
      of a primary. */
  lemma OverlookedReachable() returns (run: seq<State>, order: seq<ConnId>, agent: Agent)
    ensures IsRun(run)
    ensures var s := run[|run| - 1];
      && Lists(order, s.agents) && agent.connId !in s.agents && Overlooks(s.agents, order, agent)
      && Ahead(s.agents, order, 0) && !OnePrimary(Entered(s, order, agent).agents)
  {
    run := TwoAgentsReachable(Agent(1, "p", Primary), Agent(8, "q", Worker));
    hide IsRun;
    order, agent := [8, 1], Agent(9, "q", Primary);
    assert order[0] == 8 && order[1] == 1;
    var agents := Entered(run[|run| - 1], order, agent).agents;
    assert agents[1].agentType.Primary? && agents[9].agentType.Primary?;
  }
}
