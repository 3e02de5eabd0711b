/**
 The scheduler's book-keeping of the cluster: who registered with which rank, who was heard from when,
 who finished, and the three cluster flags that heartbeat responses report.
 */
module NodeManager {
  import opened Bytes
  import opened Cluster

  type NodeId = nat

  datatype Address = Address(ip: string, port: nat)

  datatype NodeInfo = NodeInfo(role: Role, rank: nat, address: Address)

  /** What a lookup of an unknown id inserts. */
  const DEFAULT_INFO: NodeInfo := NodeInfo(Scheduler, 0, Address("", 0))

  datatype Manager = Manager(
    total: nat,            // configured number of nodes, 32-bit
    current: int,          // -1 until the availability timeout fires
    nextServer: int,       // the rank given last, per role
    nextWorker: int,
    nodes: map<NodeId, NodeInfo>,
    heartbeats: map<NodeId, int>,
    finishBeats: set<NodeId>,
    finished: set<NodeId>,
    ready: bool,
    finish: bool,
    timeout: bool)

  function Fresh(cfg: Config): Manager {
    Manager((cfg.serverNum + cfg.workerNum) % U32_LIMIT, -1, -1, -1, map[], map[], {}, {}, false, false, false)
  }

  /** The rank of `id`: the one it has, or the next one of its role. Other roles get none. */
  function NextRank(m: Manager, id: NodeId, role: Role, address: Address): (Manager, int) {
    if id in m.nodes then (m, m.nodes[id].rank)
    else match role
      case Server =>
        var rank := m.nextServer + 1;
        (m.(nextServer := rank, nodes := m.nodes[id := NodeInfo(Server, Abs(rank), address)]), rank)
      case Worker =>
        var rank := m.nextWorker + 1;
        (m.(nextWorker := rank, nodes := m.nodes[id := NodeInfo(Worker, Abs(rank), DEFAULT_INFO.address)]), rank)
      case Scheduler => (m, -1)
  }

  /** Ranks are stored unsigned; they never are negative. */
  function Abs(rank: int): nat { if rank < 0 then 0 else rank }

  /** A sign of life. An id that never registered is entered with default data. */
  function Beat(m: Manager, id: NodeId, now: int): Manager {
    m.(nodes := if id in m.nodes then m.nodes else m.nodes[id := DEFAULT_INFO],
       heartbeats := m.heartbeats[id := now])
  }

  function BeatFinish(m: Manager, id: NodeId): Manager {
    m.(finishBeats := m.finishBeats + {id})
  }

  predicate AllBeatFinish(m: Manager) {
    |m.finishBeats| == |m.nodes|
  }

  function AddFinish(m: Manager, id: NodeId): Manager {
    m.(finished := m.finished + {id})
  }

  function TimedOut(heartbeats: map<NodeId, int>, now: int, limit: nat): set<NodeId> {
    set id | id in heartbeats && heartbeats[id] + limit < now
  }

  /** The periodic update: nodes not heard from count as finished; enough finished nodes finish the cluster. */
  function Update(m: Manager, now: int, limit: nat): Manager {
    Settle(Retire(m, TimedOut(m.heartbeats, now, limit)))
  }

  function Retire(m: Manager, late: set<NodeId>): Manager {
    m.(timeout := m.timeout || late != {}, finished := m.finished + late)
  }

  function Settle(m: Manager): Manager {
    var over := |m.finished| == m.total || |m.finished| == m.current;
    m.(finish := m.finish || over, ready := m.ready || over || |m.nodes| == m.total)
  }

  /** The cluster did not become available in time: whoever is here now has to do. */
  function GiveUp(m: Manager): Manager {
    if m.total != |m.nodes| then m.(current := |m.nodes|, timeout := true) else m
  }

  // -------------------------------------------------- manager, as written

  class NodeManager {
    var totalNodeNum: nat
    var currentNodeNum: int
    var nextServerRankId: int
    var nextWorkerRankId: int
    var nodesInfo: map<NodeId, NodeInfo>
    var heartbeats: map<NodeId, int>
    var heartbeatsFinishNodes: set<NodeId>
    var timeoutNodesInfo: map<NodeId, NodeInfo>
    var finishNodesId: set<NodeId>
    var isClusterReady: bool
    var isClusterFinish: bool
    var isClusterTimeout: bool

    ghost function View(): Manager
      reads this
    {
      Manager(totalNodeNum, currentNodeNum, nextServerRankId, nextWorkerRankId, nodesInfo, heartbeats,
              heartbeatsFinishNodes, finishNodesId, isClusterReady, isClusterFinish, isClusterTimeout)
    }

    /** Every heartbeat was entered together with its node, so the lookup of a late node finds it. */
    ghost predicate Valid()
      reads this
    {
      heartbeats.Keys <= nodesInfo.Keys
    }

    constructor (cfg: Config)
      ensures View() == Fresh(cfg) && Valid()
    {
      totalNodeNum := (cfg.serverNum + cfg.workerNum) % U32_LIMIT;
      currentNodeNum, nextServerRankId, nextWorkerRankId := -1, -1, -1;
      nodesInfo, heartbeats, timeoutNodesInfo := map[], map[], map[];
      heartbeatsFinishNodes, finishNodesId := {}, {};
      isClusterReady, isClusterFinish, isClusterTimeout := false, false, false;
    }

    method NextRankId(id: NodeId, role: Role, address: Address) returns (rank: int)
      requires Valid()
      modifies this
      ensures (View(), rank) == NextRank(old(View()), id, role, address) && Valid()
    {
      rank := -1;
      if id in nodesInfo {
        return nodesInfo[id].rank;
      }
      if role == Server {
        nextServerRankId := nextServerRankId + 1;
        rank := nextServerRankId;
        nodesInfo := nodesInfo[id := NodeInfo(Server, Abs(rank), address)];
      } else if role == Worker {
        nextWorkerRankId := nextWorkerRankId + 1;
        rank := nextWorkerRankId;
        nodesInfo := nodesInfo[id := NodeInfo(Worker, Abs(rank), DEFAULT_INFO.address)];
      }
    }

    method UpdateHeartbeat(id: NodeId, now: int)
      requires Valid()
      modifies this
      ensures View() == Beat(old(View()), id, now) && Valid()
    {
      if id !in nodesInfo {
        nodesInfo := nodesInfo[id := DEFAULT_INFO];
      }
      heartbeats := heartbeats[id := now];
    }

    method UpdateNodeFinishState(id: NodeId)
      requires Valid()
      modifies this
      ensures View() == BeatFinish(old(View()), id) && Valid()
    {
      heartbeatsFinishNodes := heartbeatsFinishNodes + {id};
    }

    method CheckNodesFinishState() returns (all: bool)
      ensures all <==> AllBeatFinish(View())
    {
      all := |heartbeatsFinishNodes| == |nodesInfo|;
    }

    method AddFinishNode(id: NodeId)
      requires Valid()
      modifies this
      ensures View() == AddFinish(old(View()), id) && Valid()
    {
      finishNodesId := finishNodesId + {id};
    }

    /** Lists rank and address of every server, each once, in whatever order the registry is walked. */
    method FetchServersMeta() returns (ids: seq<NodeId>, metas: seq<ServerMeta>)
      ensures Lists(View(), ids) && metas == Metas(View(), ids)
    {
      ids, metas := [], [];
      var rest := nodesInfo.Keys;
      while rest != {}
        invariant rest <= nodesInfo.Keys
        invariant forall i, j :: 0 <= i < j < |ids| ==> ids[i] != ids[j]
        invariant forall id :: id in ids <==> id in nodesInfo && id !in rest && nodesInfo[id].role == Server
        invariant metas == Metas(View(), ids)
        decreases rest
      {
        var id :| id in rest;
        rest := rest - {id};
        if nodesInfo[id].role == Server {
          ids := ids + [id];
          metas := metas + [ServerMeta(nodesInfo[id].rank, nodesInfo[id].address)];
        }
      }
    }

    /** Collects the nodes that missed their deadline. */
    method CollectTimeouts(now: int, limit: nat)
      requires Valid()
      modifies `timeoutNodesInfo
      ensures timeoutNodesInfo.Keys == TimedOut(heartbeats, now, limit)
    {
      timeoutNodesInfo := map[];
      var rest := heartbeats.Keys;
      while rest != {}
        invariant rest <= heartbeats.Keys
        invariant timeoutNodesInfo.Keys == TimedOut(heartbeats, now, limit) - rest
        decreases rest
      {
        var id :| id in rest;
        rest := rest - {id};
        if heartbeats[id] + limit < now {
          timeoutNodesInfo := timeoutNodesInfo[id := nodesInfo[id]];
        }
      }
    }

    /** Counts every late node as finished. */
    method FinishTimeouts()
      modifies `isClusterTimeout, `finishNodesId
      ensures View() == Retire(old(View()), timeoutNodesInfo.Keys)
    {
      if timeoutNodesInfo.Keys != {} {
        isClusterTimeout := true;
        var rest := timeoutNodesInfo.Keys;
        while rest != {}
          invariant rest <= timeoutNodesInfo.Keys && isClusterTimeout
          invariant finishNodesId == old(finishNodesId) + (timeoutNodesInfo.Keys - rest)
          decreases rest
        {
          var id :| id in rest;
          rest := rest - {id};
          finishNodesId := finishNodesId + {id};
        }
      }
    }

    method UpdateClusterState(now: int, limit: nat)
      requires Valid()
      modifies this
      ensures View() == Update(old(View()), now, limit) && Valid()
    {
      hide TimedOut, Retire, Settle;
      CollectTimeouts(now, limit);
      FinishTimeouts();
      UpdateFlags();
    }

    method UpdateFlags()
      modifies `isClusterFinish, `isClusterReady
      ensures View() == Settle(old(View()))
    {
      if |finishNodesId| == totalNodeNum || |finishNodesId| == currentNodeNum {
        isClusterFinish := true;
        isClusterReady := true;
      }
      if |nodesInfo| == totalNodeNum {
        isClusterReady := true;
      }
    }

    method CheckClusterTimeout()
      requires Valid()
      modifies this
      ensures View() == GiveUp(old(View())) && Valid()
    {
      if totalNodeNum != |nodesInfo| {
        currentNodeNum := |nodesInfo|;
        isClusterTimeout := true;
      }
    }
  }

  // ------------------------------------------------------- server listing

  datatype ServerMeta = ServerMeta(rank: nat, address: Address)

  /** `ids` enumerates the registered servers without repetition. */
  ghost predicate Lists(m: Manager, ids: seq<NodeId>) {
    && (forall i, j :: 0 <= i < j < |ids| ==> ids[i] != ids[j])
    && forall id :: id in ids <==> id in m.nodes && m.nodes[id].role == Server
  }

  function Metas(m: Manager, ids: seq<NodeId>): (metas: seq<ServerMeta>)
    requires forall id :: id in ids ==> id in m.nodes
    ensures |metas| == |ids|
  {
    seq(|ids|, i requires 0 <= i < |ids| => ServerMeta(m.nodes[ids[i]].rank, m.nodes[ids[i]].address))
  }
}
