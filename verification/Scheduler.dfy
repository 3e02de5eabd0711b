/**
 Scheduler and nodes as one distributed system.

 A node registers, then sends heartbeats, waits until it may start, fetches the servers' addresses and
 eventually announces that it is finished. Requests and replies travel in order on each node's own
 connection and may be delayed for any time; the scheduler's timer runs in between. `Next` takes one
 step of any participant. A run is any list of events.
 */
module Scheduler {
  import opened Cluster
  import opened NodeManager
  import opened Prelude

  datatype Request = Register | Heartbeat(finish: bool) | Finish | FetchServers

  datatype Reply =
    | Registered(rank: int)
    | Beaten(ready: bool, finish: bool, timeout: bool)
    | FinishEchoed
    | Servers(metas: seq<ServerMeta>)

  // ------------------------------------------------------------ scheduler

  datatype Sched = Sched(mgr: Manager, isFinish: bool, isReady: bool)

  /** A role that gets no rank throws: nothing is recorded or answered. */
  function OnRegister(s: Sched, id: NodeId, role: Role, address: Address, now: int): (Sched, Option<Reply>) {
    var (m, rank) := NextRank(s.mgr, id, role, address);
    if rank < 0 then (s.(mgr := m), None) else (s.(mgr := Beat(m, id, now)), Some(Registered(rank)))
  }

  function OnHeartbeat(s: Sched, id: NodeId, finish: bool, now: int): Sched {
    var beaten := Beat(s.mgr, id, now);
    var m := if finish then BeatFinish(beaten, id) else beaten;
    s.(mgr := m, isFinish := s.isFinish || (finish && AllBeatFinish(m)))
  }

  function Report(m: Manager): Reply {
    Beaten(m.ready, m.finish, m.timeout)
  }

  /** The timer's three parts; it sleeps in between. */
  function TimerCheck(s: Sched): Sched {
    if s.mgr.ready then s else s.(mgr := GiveUp(s.mgr))
  }

  function TimerUpdate(s: Sched, now: int, limit: nat): Sched {
    var m := Update(s.mgr, now, limit);
    s.(mgr := m, isReady := s.isReady || m.ready)
  }

  function TimerFinish(s: Sched): Sched {
    s.(isFinish := s.isFinish || s.mgr.finish)
  }

  /** The scheduler's fields and handlers, as written. */
  class SchedulerNode {
    const manager: NodeManager
    var isFinish: bool
    var isReady: bool

    ghost function View(): Sched
      reads this, manager
    {
      Sched(manager.View(), isFinish, isReady)
    }

    ghost predicate Valid()
      reads this, manager
    {
      manager.Valid()
    }

    constructor (cfg: Config)
      ensures View() == Sched(Fresh(cfg), false, false) && Valid() && fresh(manager)
    {
      manager := new NodeManager(cfg);
      isFinish, isReady := false, false;
    }

    method ProcessRegister(id: NodeId, role: Role, address: Address, now: int) returns (reply: Option<Reply>)
      requires Valid()
      modifies manager
      ensures (View(), reply) == OnRegister(old(View()), id, role, address, now) && Valid()
    {
      hide NextRank, Beat;
      var rank := manager.NextRankId(id, role, address);
      if rank < 0 {
        return None;
      }
      manager.UpdateHeartbeat(id, now);
      return Some(Registered(rank));
    }

    method ProcessHeartbeat(id: NodeId, finish: bool, now: int) returns (reply: Reply)
      requires Valid()
      modifies this, manager
      ensures View() == OnHeartbeat(old(View()), id, finish, now) && reply == Report(View().mgr) && Valid()
    {
      hide Beat, BeatFinish, AllBeatFinish;
      manager.UpdateHeartbeat(id, now);
      if finish {
        manager.UpdateNodeFinishState(id);
      }
      var all := manager.CheckNodesFinishState();
      if finish && all {
        isFinish := true;
      }
      return Beaten(manager.isClusterReady, manager.isClusterFinish, manager.isClusterTimeout);
    }

    method ProcessFinish(id: NodeId) returns (reply: Reply)
      requires Valid()
      modifies manager
      ensures View() == old(View()).(mgr := AddFinish(old(View()).mgr, id)) && reply == FinishEchoed && Valid()
    {
      manager.AddFinishNode(id);
      return FinishEchoed;
    }

    method ProcessFetchServers() returns (ids: seq<NodeId>, reply: Reply)
      ensures Lists(View().mgr, ids) && reply == Servers(Metas(View().mgr, ids))
    {
      var metas;
      ids, metas := manager.FetchServersMeta();
      return ids, Servers(metas);
    }

    /** The timer's round, part by part: handlers may run while it sleeps in between. */
    method CheckAvailability(late: bool)
      requires Valid()
      modifies manager
      ensures View() == (if late then TimerCheck(old(View())) else old(View())) && Valid()
    {
      hide GiveUp;
      if !manager.isClusterReady && late {
        manager.CheckClusterTimeout();
      }
    }

    method UpdateState(now: int, limit: nat) returns (finish: bool)
      requires Valid()
      modifies this, manager
      ensures View() == TimerUpdate(old(View()), now, limit) && finish == View().mgr.finish && Valid()
    {
      hide Update;
      manager.UpdateClusterState(now, limit);
      if manager.isClusterReady {
        isReady := true;
      }
      finish := manager.isClusterFinish;
    }

    /** Reached only after an update that found the cluster finished, which it then still is. */
    method DeclareFinish()
      requires View().mgr.finish
      modifies this
      ensures View() == TimerFinish(old(View()))
    {
      isFinish := true;
    }
  }

  // ---------------------------------------------------------------- nodes

  /** What is fixed about a node: its role, its address, and whether it has an event callback. */
  datatype Member = Member(role: Role, address: Address, listens: bool)

  datatype World = World(cfg: Config, members: map<NodeId, Member>, limit: nat)

  /** How far a node's start has come. */
  datatype Phase = Created | Registering | Waiting | Started | Fetching | Fetched

  datatype Client = Client(
    phase: Phase,
    rank: int,
    ready: bool,
    finish: bool,
    timeout: bool,
    addresses: map<nat, Address>,
    up: seq<Request>,      // requests on their way to the scheduler
    down: seq<Reply>)      // replies on their way back

  const NEW_CLIENT: Client := Client(Created, 0, false, false, false, map[], [], [])

  function Learn(addresses: map<nat, Address>, metas: seq<ServerMeta>): map<nat, Address> {
    if metas == [] then addresses
    else Learn(addresses, metas[..|metas| - 1])[metas[|metas| - 1].rank := metas[|metas| - 1].address]
  }

  function OnReply(c: Client, listens: bool, r: Reply): Client {
    match r
    case Registered(rank) => c.(rank := rank, phase := if c.phase == Registering then Waiting else c.phase)
    case Beaten(ready, finish, timeout) =>
      c.(ready := ready || (timeout && listens),
         finish := c.finish || finish,
         up := if finish then c.up + [Heartbeat(true)] else c.up,
         timeout := timeout)
    case FinishEchoed => c
    case Servers(metas) =>
      c.(addresses := Learn(c.addresses, metas), phase := if c.phase == Fetching then Fetched else c.phase)
  }

  function Send(c: Client, q: Request): Client {
    c.(up := c.up + [q])
  }

  datatype Notice = ClusterTimeout | NodeTimeout

  /** A node's fields and its handlers of replies, as written. `sent` are the requests handed to its client. */
  class ClientNode {
    const id: NodeId
    const listens: bool
    var phase: Phase
    var rankId: int
    var isReady: bool
    var isFinish: bool
    var isTimeout: bool
    var nodesAddress: map<nat, Address>
    var connectedNodes: map<nat, Address>  // the address each connection was made to
    var sent: seq<Request>
    var notices: seq<Notice>               // calls of the event callback

    ghost function View(): Client
      reads this
    {
      Client(phase, rankId, isReady, isFinish, isTimeout, nodesAddress, sent, [])
    }

    constructor (id: NodeId, listens: bool)
      ensures this.id == id && this.listens == listens && View() == NEW_CLIENT && connectedNodes == map[] && notices == []
    {
      this.id, this.listens := id, listens;
      phase, rankId, isReady, isFinish, isTimeout := Created, 0, false, false, false;
      nodesAddress, connectedNodes, sent, notices := map[], map[], [], [];
    }

    /** Takes the rank over, unless the reply names another node; the registration that waits for it returns. */
    method ProcessRegisterResp(node: NodeId, rank: int) returns (ok: bool)
      modifies `rankId, `phase
      ensures ok <==> node == id
      ensures View() == if ok then OnReply(old(View()), listens, Registered(rank)) else old(View())
    {
      if node != id {
        return false;
      }
      rankId := rank;
      if phase == Registering {
        phase := Waiting;
      }
      return true;
    }

    method ProcessHeartbeatResp(ready: bool, finish: bool, timeout: bool, nodeTimeout: bool)
      modifies `isReady, `isFinish, `isTimeout, `sent, `notices
      ensures View() == OnReply(old(View()), listens, Beaten(ready, finish, timeout))
      ensures notices == old(notices) + (if timeout && listens then [ClusterTimeout] else [])
                                      + (if nodeTimeout && listens then [NodeTimeout] else [])
    {
      isReady := ready;
      if finish {
        sent := sent + [Heartbeat(true)];
        isFinish := true;
      }
      isTimeout := timeout;
      if isTimeout && listens {
        isReady := true;
        notices := notices + [ClusterTimeout];
      }
      if nodeTimeout && listens {
        notices := notices + [NodeTimeout];
      }
    }

    /** Enters every listed server; the fetch that waits for this reply returns. */
    method ProcessFetchServersResp(metas: seq<ServerMeta>)
      modifies `nodesAddress, `phase
      ensures View() == OnReply(old(View()), listens, Servers(metas))
    {
      for i := 0 to |metas|
        invariant View() == old(View()).(addresses := Learn(old(nodesAddress), metas[..i]))
      {
        assert metas[..i + 1][..i] == metas[..i];
        nodesAddress := nodesAddress[metas[i].rank := metas[i].address];
      }
      assert metas[..|metas|] == metas;
      if phase == Fetching {
        phase := Fetched;
      }
    }

    /** The connection to a server: the one there is, else a new one; it throws when the rank has no address. */
    method GetOrCreateTcpClient(rank: nat) returns (client: Option<Address>)
      modifies `connectedNodes
      ensures client.None? <==> rank !in old(connectedNodes) && rank !in nodesAddress
      ensures client.Some? ==>
        client.value == if rank in old(connectedNodes) then old(connectedNodes)[rank] else nodesAddress[rank]
      ensures connectedNodes == if client.Some? then old(connectedNodes)[rank := client.value] else old(connectedNodes)
    {
      if rank in connectedNodes {
        assert connectedNodes[rank := connectedNodes[rank]] == connectedNodes;
        return Some(connectedNodes[rank]);
      }
      if rank !in nodesAddress {
        return None;
      }
      connectedNodes := connectedNodes[rank := nodesAddress[rank]];
      return Some(nodesAddress[rank]);
    }
  }

  // ------------------------------------------------------------- all runs

  /**
   The past, as an observer of the messages and the clock would keep it, without looking into the manager: who
   registered first to last, when each node was last served a registration or a heartbeat, whose FINISH and
   whose finish heartbeat was served, who sent a FINISH, and who was overdue at some update.
   */
  datatype History = History(
    order: seq<NodeId>,
    heard: map<NodeId, int>,
    finishServed: set<NodeId>,
    finishBeats: set<NodeId>,
    finishSent: set<NodeId>,
    missed: set<NodeId>)
  {
    function Registered(): set<NodeId> { set id | id in order }

    /** Whoever announced its end or missed a deadline. */
    function Over(): set<NodeId> { finishServed + missed }
  }

  /** A node is overdue when more than `limit` seconds went by since it was last heard. */
  function Overdue(heard: map<NodeId, int>, now: int, limit: nat): set<NodeId> {
    set id | id in heard && now > heard[id] + limit
  }

  function SawRegister(past: History, id: NodeId, role: Role, now: int): History {
    if id in past.order then past.(heard := past.heard[id := now])
    else if role == Role.Scheduler then past
    else past.(order := past.order + [id], heard := past.heard[id := now])
  }

  function SawHeartbeat(past: History, id: NodeId, finish: bool, now: int): History {
    past.(heard := past.heard[id := now], finishBeats := if finish then past.finishBeats + {id} else past.finishBeats)
  }

  datatype System = System(clock: nat, sched: Sched, clients: map<NodeId, Client>, past: History)

  datatype Event =
    | EvRegister(id: NodeId)
    | EvHeartbeat(id: NodeId)
    | EvProceed(id: NodeId)
    | EvFetch(id: NodeId)
    | EvFinish(id: NodeId)
    | EvServe(id: NodeId, listing: seq<NodeId>)
    | EvReceive(id: NodeId)
    | EvTimerCheck
    | EvTimerUpdate
    | EvTimerFinish
    | EvClock(seconds: nat)

  function Start(w: World): System {
    System(0, Sched(Fresh(w.cfg), false, false), map id | id in w.members :: NEW_CLIENT,
           History([], map[], {}, {}, {}, {}))
  }

  /** The scheduler handles the oldest request of `id`. */
  ghost function Serve(w: World, s: System, id: NodeId, listing: seq<NodeId>): System
    requires id in s.clients && id in w.members && s.clients[id].up != []
  {
    var c, member := s.clients[id], w.members[id];
    var rest := c.(up := c.up[1..]);
    match c.up[0]
    case Register =>
      var (sched, reply) := OnRegister(s.sched, id, member.role, member.address, s.clock);
      s.(sched := sched,
         clients := s.clients[id := if reply.Some? then rest.(down := rest.down + [reply.value]) else rest],
         past := SawRegister(s.past, id, member.role, s.clock))
    case Heartbeat(finish) =>
      var sched := OnHeartbeat(s.sched, id, finish, s.clock);
      s.(sched := sched, clients := s.clients[id := rest.(down := rest.down + [Report(sched.mgr)])],
         past := SawHeartbeat(s.past, id, finish, s.clock))
    case Finish =>
      s.(sched := s.sched.(mgr := AddFinish(s.sched.mgr, id)),
         clients := s.clients[id := rest.(down := rest.down + [FinishEchoed])],
         past := s.past.(finishServed := s.past.finishServed + {id}))
    case FetchServers =>
      if Lists(s.sched.mgr, listing)
      then s.(clients := s.clients[id := rest.(down := rest.down + [Servers(Metas(s.sched.mgr, listing))])])
      else s
  }

  /** The node's own steps. Nothing but registering is sent before the registration was answered. */
  function Act(c: Client, e: Event): Client {
    match e
    case EvRegister(_) => Send(c, Register).(phase := if c.phase == Created then Registering else c.phase)
    case EvHeartbeat(_) => if Settled(c) && !c.finish then Send(c, Heartbeat(false)) else c
    case EvProceed(_) => if c.phase == Waiting && c.ready then c.(phase := Started) else c
    case EvFetch(_) => if c.phase == Started && !c.timeout then Send(c, FetchServers).(phase := Fetching) else c
    case EvFinish(_) => if Settled(c) then Send(c, Finish) else c
    case _ => c
  }

  predicate Settled(c: Client) {
    c.phase != Created && c.phase != Registering
  }

  /** One step; an event that cannot happen changes nothing. */
  ghost function Next(w: World, s: System, e: Event): System {
    match e
    case EvServe(id, listing) =>
      if id in s.clients && id in w.members && s.clients[id].up != [] then Serve(w, s, id, listing) else s
    case EvReceive(id) =>
      if id in s.clients && id in w.members && s.clients[id].down != [] then
        var c := s.clients[id];
        s.(clients := s.clients[id := OnReply(c.(down := c.down[1..]), w.members[id].listens, c.down[0])])
      else s
    case EvTimerCheck => s.(sched := TimerCheck(s.sched))
    case EvTimerUpdate =>
      s.(sched := TimerUpdate(s.sched, s.clock, w.limit),
         past := s.past.(missed := s.past.missed + Overdue(s.past.heard, s.clock, w.limit)))
    case EvTimerFinish => s.(sched := TimerFinish(s.sched))
    case EvClock(seconds) => s.(clock := s.clock + seconds)
    case _ =>
      if e.id in s.clients then
        s.(clients := s.clients[e.id := Act(s.clients[e.id], e)],
           past := if e.EvFinish? && Settled(s.clients[e.id])
                   then s.past.(finishSent := s.past.finishSent + {e.id}) else s.past)
      else s
  }

  ghost function Exec(w: World, es: seq<Event>): System {
    if es == [] then Start(w) else Next(w, Exec(w, es[..|es| - 1]), es[|es| - 1])
  }
}
