/** What holds in every run of scheduler and nodes. */
module SchedulerLaws {
  import opened Bytes
  import opened Cluster
  import opened NodeManager
  import opened Prelude
  import opened Scheduler

  // ------------------------------------------------------- who takes part

  function IdsOf(w: World, role: Role): set<NodeId> {
    set id | id in w.members && w.members[id].role == role
  }

  /** No more servers and workers than configured. */
  predicate Capped(w: World) {
    && w.cfg.serverNum + w.cfg.workerNum < U32_LIMIT
    && (forall id :: id in w.members ==> w.members[id].role != Role.Scheduler)
    && |IdsOf(w, Server)| <= w.cfg.serverNum
    && |IdsOf(w, Worker)| <= w.cfg.workerNum
  }

  /** The population is capped and the availability timeout has not fired. */
  predicate Trusted(w: World, m: Manager) {
    Capped(w) && m.current == -1
  }

  predicate Full(w: World, m: Manager) {
    m.nodes.Keys == w.members.Keys
  }

  lemma SubsetSize<T>(a: set<T>, b: set<T>)
    requires a <= b
    ensures |a| <= |b| && (|a| == |b| ==> a == b)
  {
    assert b == a + (b - a);
  }

  lemma CappedSize(w: World)
    requires Capped(w)
    ensures |w.members| == |IdsOf(w, Server)| + |IdsOf(w, Worker)| <= w.cfg.serverNum + w.cfg.workerNum
  {
    assert w.members.Keys == IdsOf(w, Server) + IdsOf(w, Worker);
  }

  // ------------------------------------------------------------- registry

  predicate InfoOk(w: World, m: Manager, id: NodeId)
    requires id in m.nodes
  {
    && id in w.members && m.nodes[id].role == w.members[id].role
    && (m.nodes[id].role == Server ==> m.nodes[id].address == w.members[id].address)
  }

  ghost predicate MgrInv(w: World, m: Manager, ended: set<NodeId>) {
    && m.total == (w.cfg.serverNum + w.cfg.workerNum) % U32_LIMIT
    && (forall id :: id in m.nodes ==> InfoOk(w, m, id))
    && m.heartbeats.Keys <= m.nodes.Keys
    && m.finished <= m.nodes.Keys && m.finished <= ended
    && (m.finish ==> m.ready)
    && (Trusted(w, m) && m.ready ==> Full(w, m) && |m.nodes| == m.total)
    && (Trusted(w, m) && m.finish ==> m.finished == m.nodes.Keys)
  }

  /** How many of the first registrations in `order` were of the given role. */
  function CountRole(w: World, order: seq<NodeId>, role: Role): nat {
    if order == [] then 0
    else
      var id := order[|order| - 1];
      CountRole(w, order[..|order| - 1], role) + (if id in w.members && w.members[id].role == role then 1 else 0)
  }

  predicate RankOk(w: World, nodes: map<NodeId, NodeInfo>, order: seq<NodeId>, i: nat) {
    && i < |order| && order[i] in nodes
    && nodes[order[i]].rank == CountRole(w, order[..i], nodes[order[i]].role)
  }

  /** `order` lists the registered nodes, each once, and ranks count the earlier ones of the same role. */
  ghost predicate OrderInv(w: World, nodes: map<NodeId, NodeInfo>, order: seq<NodeId>) {
    && (forall i, j :: 0 <= i < j < |order| ==> order[i] != order[j])
    && (forall id :: id in order <==> id in nodes)
    && (forall i :: 0 <= i < |order| ==> RankOk(w, nodes, order, i))
  }

  ghost predicate RanksInv(w: World, m: Manager, order: seq<NodeId>) {
    && OrderInv(w, m.nodes, order)
    && m.nextServer == CountRole(w, order, Server) - 1
    && m.nextWorker == CountRole(w, order, Worker) - 1
  }

  /** What the manager may do in a step: flags only rise, entries are only added. */
  ghost predicate Grows(m: Manager, n: Manager) {
    && (n.current == -1 ==> m.current == -1)
    && (m.ready ==> n.ready) && (m.finish ==> n.finish) && (m.timeout ==> n.timeout)
    && (forall id :: id in m.nodes ==> id in n.nodes && n.nodes[id] == m.nodes[id])
  }

  lemma TrustedFull(w: World, m: Manager)
    requires m.total == (w.cfg.serverNum + w.cfg.workerNum) % U32_LIMIT && Capped(w)
    requires m.nodes.Keys <= w.members.Keys
    ensures |m.nodes| == m.total ==> Full(w, m)
    ensures forall f: set<NodeId> :: f <= m.nodes.Keys && |f| == m.total ==>
      f == m.nodes.Keys && Full(w, m) && |m.nodes| == m.total
  {
    CappedSize(w);
    SubsetSize(m.nodes.Keys, w.members.Keys);
    forall f: set<NodeId> | f <= m.nodes.Keys && |f| == m.total
      ensures f == m.nodes.Keys && Full(w, m) && |m.nodes| == m.total
    {
      SubsetSize(f, m.nodes.Keys);
    }
  }

  lemma BeatKnown(w: World, m: Manager, ended: set<NodeId>, id: NodeId, now: int)
    requires MgrInv(w, m, ended) && id in m.nodes
    ensures Beat(m, id, now).nodes == m.nodes
    ensures MgrInv(w, Beat(m, id, now), ended) && Grows(m, Beat(m, id, now))
  {
  }

  lemma FinishKnown(w: World, m: Manager, ended: set<NodeId>, id: NodeId)
    requires MgrInv(w, m, ended) && id in m.nodes && id in ended
    ensures MgrInv(w, AddFinish(m, id), ended) && Grows(m, AddFinish(m, id))
  {
  }

  lemma RetireKept(w: World, m: Manager, ended: set<NodeId>, late: set<NodeId>)
    requires MgrInv(w, m, ended) && late <= m.heartbeats.Keys
    ensures MgrInv(w, Retire(m, late), ended + late) && Grows(m, Retire(m, late))
  {
  }

  lemma SettleKept(w: World, m: Manager, ended: set<NodeId>)
    requires MgrInv(w, m, ended)
    ensures MgrInv(w, Settle(m), ended) && Grows(m, Settle(m))
  {
    if Trusted(w, m) {
      assert m.nodes.Keys <= w.members.Keys;
      TrustedFull(w, m);
    }
  }

  lemma GiveUpKept(w: World, m: Manager, ended: set<NodeId>)
    requires MgrInv(w, m, ended)
    ensures MgrInv(w, GiveUp(m), ended) && Grows(m, GiveUp(m))
  {
  }

  lemma OrderAppend(w: World, nodes: map<NodeId, NodeInfo>, order: seq<NodeId>, id: NodeId, info: NodeInfo)
    requires OrderInv(w, nodes, order) && id !in nodes && info.rank == CountRole(w, order, info.role)
    ensures OrderInv(w, nodes[id := info], order + [id])
  {
    hide CountRole;
    var longer := order + [id];
    var entered := nodes[id := info];
    forall i | 0 <= i < |longer| ensures RankOk(w, entered, longer, i) {
      if i < |order| {
        assert RankOk(w, nodes, order, i);
        assert longer[..i] == order[..i] && longer[i] == order[i];
      } else {
        assert longer[..i] == order;
      }
    }
  }

  lemma CountAppend(w: World, order: seq<NodeId>, id: NodeId, role: Role)
    requires id in w.members
    ensures CountRole(w, order + [id], role) == CountRole(w, order, role) + if w.members[id].role == role then 1 else 0
  {
    assert (order + [id])[..|order|] == order;
  }

  /** A new registration is entered under the next rank of its role. */
  lemma RegisterRanks(w: World, m: Manager, order: seq<NodeId>, id: NodeId)
    requires RanksInv(w, m, order) && id !in m.nodes && id in w.members && w.members[id].role != Role.Scheduler
    ensures var (n, rank) := NextRank(m, id, w.members[id].role, w.members[id].address);
      && rank >= 0 && id in n.nodes && n.nodes == m.nodes[id := n.nodes[id]] && n.nodes[id].rank == rank
      && InfoOk(w, n, id) && RanksInv(w, n, order + [id])
      && n == m.(nodes := n.nodes, nextServer := n.nextServer, nextWorker := n.nextWorker)
  {
    hide CountRole, OrderInv;
    var n := NextRank(m, id, w.members[id].role, w.members[id].address).0;
    CountAppend(w, order, id, Server);
    CountAppend(w, order, id, Worker);
    OrderAppend(w, m.nodes, order, id, n.nodes[id]);
  }

  lemma EntryKept(w: World, m: Manager, ended: set<NodeId>, id: NodeId, nodes: map<NodeId, NodeInfo>, s: int, k: int)
    requires MgrInv(w, m, ended) && id !in m.nodes && id in nodes && nodes == m.nodes[id := nodes[id]]
    requires var n := m.(nodes := nodes, nextServer := s, nextWorker := k); InfoOk(w, n, id)
    ensures var n := m.(nodes := nodes, nextServer := s, nextWorker := k);
      MgrInv(w, n, ended) && Grows(m, n)
  {
    var n := m.(nodes := nodes, nextServer := s, nextWorker := k);
    forall other | other in n.nodes ensures InfoOk(w, n, other) {
      assert other != id ==> InfoOk(w, m, other);
    }
  }

  /** Registering again: the answer is the rank on record, and the registry stays as it is. */
  lemma RegisterAgain(w: World, m: Manager, ended: set<NodeId>, order: seq<NodeId>, id: NodeId, now: int)
    requires MgrInv(w, m, ended) && RanksInv(w, m, order) && id in m.nodes && id in w.members
    ensures var (n, rank) := NextRank(m, id, w.members[id].role, w.members[id].address);
      && n == m && rank == m.nodes[id].rank && Beat(m, id, now).nodes == m.nodes
      && MgrInv(w, Beat(m, id, now), ended) && RanksInv(w, Beat(m, id, now), order) && Grows(m, Beat(m, id, now))
  {
    hide RanksInv, MgrInv, Grows;
    BeatKnown(w, m, ended, id, now);
    SameRanks(w, m, Beat(m, id, now), order);
  }

  lemma RegisterFirst(w: World, m: Manager, ended: set<NodeId>, order: seq<NodeId>, id: NodeId, now: int)
    requires MgrInv(w, m, ended) && RanksInv(w, m, order) && id !in m.nodes
    requires id in w.members && w.members[id].role != Role.Scheduler
    ensures var (n, rank) := NextRank(m, id, w.members[id].role, w.members[id].address);
      var k := Beat(n, id, now);
      && rank >= 0 && id in k.nodes && k.nodes[id].rank == rank
      && MgrInv(w, k, ended) && RanksInv(w, k, order + [id]) && Grows(m, k)
  {
    hide RanksInv, MgrInv, NextRank;
    var (n, rank) := NextRank(m, id, w.members[id].role, w.members[id].address);
    RegisterRanks(w, m, order, id);
    EntryKept(w, m, ended, id, n.nodes, n.nextServer, n.nextWorker);
    BeatKnown(w, n, ended, id, now);
    SameRanks(w, n, Beat(n, id, now), order + [id]);
  }

  lemma SameRanks(w: World, m: Manager, n: Manager, order: seq<NodeId>)
    requires RanksInv(w, m, order) && n.nodes == m.nodes && n.nextServer == m.nextServer && n.nextWorker == m.nextWorker
    ensures RanksInv(w, n, order)
  {
  }

  // ---------------------------------------------------------------- nodes

  predicate IsServer(nodes: map<NodeId, NodeInfo>, id: NodeId, rank: nat, address: Address) {
    id in nodes && nodes[id] == NodeInfo(Server, rank, address)
  }

  ghost predicate Known(nodes: map<NodeId, NodeInfo>, rank: nat, address: Address) {
    exists id :: IsServer(nodes, id, rank, address)
  }

  /** `addresses` mentions registered servers only, under their own rank and address. */
  ghost predicate Sound(nodes: map<NodeId, NodeInfo>, addresses: map<nat, Address>) {
    forall r :: r in addresses ==> Known(nodes, r, addresses[r])
  }

  ghost predicate Covers(nodes: map<NodeId, NodeInfo>, addresses: map<nat, Address>) {
    forall id :: id in nodes && nodes[id].role == Server ==> nodes[id].rank in addresses
  }

  ghost predicate ListOk(nodes: map<NodeId, NodeInfo>, metas: seq<ServerMeta>) {
    && (forall i :: 0 <= i < |metas| ==> Known(nodes, metas[i].rank, metas[i].address))
    && (forall id :: id in nodes && nodes[id].role == Server ==>
          exists i :: 0 <= i < |metas| && metas[i].rank == nodes[id].rank)
  }

  predicate RequestOk(m: Manager, id: NodeId, q: Request) {
    && (q == Heartbeat(true) ==> m.finish)
    && (q == FetchServers ==> m.ready)
    && (q != Register ==> id in m.nodes)
  }

  ghost predicate ReplyOk(w: World, m: Manager, id: NodeId, r: Reply) {
    match r
    case Registered(rank) => id in m.nodes && m.nodes[id].rank == rank
    case Beaten(ready, finish, timeout) =>
      id in m.nodes && (ready ==> m.ready) && (finish ==> m.finish) && (timeout ==> m.timeout)
    case FinishEchoed => true
    case Servers(metas) => m.ready && (Trusted(w, m) ==> Full(w, m) && ListOk(m.nodes, metas))
  }

  ghost predicate QueuesOk(w: World, m: Manager, id: NodeId, c: Client) {
    && (forall i :: 0 <= i < |c.up| ==> RequestOk(m, id, c.up[i]))
    && (forall i :: 0 <= i < |c.down| ==> ReplyOk(w, m, id, c.down[i]))
  }

  predicate Late(r: Reply) { r.Beaten? && r.timeout }

  /** Once a report said "timeout", all later ones do: replies arrive in the order they were sent. */
  ghost predicate ChainOk(m: Manager, timeout: bool, down: seq<Reply>) {
    && (timeout ==> m.timeout && forall i :: 0 <= i < |down| && down[i].Beaten? ==> Late(down[i]))
    && (forall i, j :: 0 <= i < j < |down| && Late(down[i]) && down[j].Beaten? ==> Late(down[j]))
  }

  /** What a node knows or has done already is true of the scheduler. */
  ghost predicate KnowsOk(w: World, m: Manager, id: NodeId, c: Client) {
    && (Settled(c) ==> id in m.nodes && m.nodes[id].rank == c.rank)
    && (c.finish ==> m.finish)
    && (!c.timeout && (c.ready || c.phase == Started) ==> m.ready)
    && (c.phase == Fetching || c.phase == Fetched ==> m.ready)
    && (Trusted(w, m) ==> Sound(m.nodes, c.addresses))
    && (Trusted(w, m) && c.phase == Fetched ==> Covers(m.nodes, c.addresses))
  }

  predicate Final(r: Reply) { r.Beaten? && r.finish }

  /** Once a report said "finish", it and all later ones say "ready". */
  ghost predicate FinalOk(c: Client) {
    && (c.finish ==> c.ready && forall i :: 0 <= i < |c.down| && c.down[i].Beaten? ==> c.down[i].ready)
    && (forall i, j :: 0 <= i <= j < |c.down| && Final(c.down[i]) && c.down[j].Beaten? ==> c.down[j].ready)
  }

  ghost predicate ClientInv(w: World, m: Manager, id: NodeId, c: Client) {
    QueuesOk(w, m, id, c) && ChainOk(m, c.timeout, c.down) && KnowsOk(w, m, id, c) && FinalOk(c)
  }

  /** The registry does not change once it is full. */
  lemma FullStays(w: World, m: Manager, n: Manager, ended: set<NodeId>)
    requires Grows(m, n) && MgrInv(w, n, ended) && Full(w, m)
    ensures n.nodes == m.nodes
  {
    assert forall id :: id in n.nodes ==> InfoOk(w, n, id);
  }

  lemma ReplyStays(w: World, m: Manager, n: Manager, ended: set<NodeId>, id: NodeId, r: Reply)
    requires Grows(m, n) && MgrInv(w, n, ended) && ReplyOk(w, m, id, r)
    ensures ReplyOk(w, n, id, r)
  {
    hide MgrInv, ListOk, Capped;
    if Full(w, m) {
      FullStays(w, m, n, ended);
    }
  }

  lemma SoundStays(m: Manager, n: Manager, addresses: map<nat, Address>)
    requires Grows(m, n) && Sound(m.nodes, addresses)
    ensures Sound(n.nodes, addresses)
  {
    forall r | r in addresses ensures Known(n.nodes, r, addresses[r]) {
      var id :| IsServer(m.nodes, id, r, addresses[r]);
      assert IsServer(n.nodes, id, r, addresses[r]);
    }
  }

  /** The scheduler's progress never invalidates what is known or under way. */
  lemma ClientStays(w: World, m: Manager, n: Manager, ended: set<NodeId>, id: NodeId, c: Client)
    requires Grows(m, n) && MgrInv(w, m, ended) && MgrInv(w, n, ended) && ClientInv(w, m, id, c)
    ensures ClientInv(w, n, id, c)
  {
    forall i | 0 <= i < |c.down| ensures ReplyOk(w, n, id, c.down[i]) {
      ReplyStays(w, m, n, ended, id, c.down[i]);
    }
    hide ReplyOk, Sound, Covers;
    if Trusted(w, n) {
      assert Trusted(w, m);
      SoundStays(m, n, c.addresses);
      if c.phase == Fetched {
        FullStays(w, m, n, ended);
      }
    }
  }

  // The scheduler handles a request of the node.

  lemma Handled(w: World, m: Manager, id: NodeId, c: Client, r: Reply)
    requires ClientInv(w, m, id, c) && c.up != [] && ReplyOk(w, m, id, r)
    requires r.Beaten? ==> r == Report(m) && (m.finish ==> m.ready)
    ensures ClientInv(w, m, id, c.(up := c.up[1..], down := c.down + [r]))
  {
    ReportExtends(w, m, id, c, r);
    FinalExtends(w, m, id, c, r);
    hide ReplyOk, Sound, Covers, RequestOk, Trusted, ChainOk, FinalOk;
    var d := c.(up := c.up[1..], down := c.down + [r]);
    assert QueuesOk(w, m, id, d);
  }

  lemma FinalExtends(w: World, m: Manager, id: NodeId, c: Client, r: Reply)
    requires QueuesOk(w, m, id, c) && KnowsOk(w, m, id, c) && FinalOk(c)
    requires r.Beaten? ==> r == Report(m) && (m.finish ==> m.ready)
    requires c.up != []
    ensures FinalOk(c.(up := c.up[1..], down := c.down + [r]))
  {
    hide RequestOk, ListOk, Trusted, Sound, Covers;
    var down := c.down + [r];
    forall i, j | 0 <= i <= j < |down| && Final(down[i]) && down[j].Beaten? ensures down[j].ready {
      if i < |c.down| {
        assert ReplyOk(w, m, id, c.down[i]);
      }
    }
  }

  lemma ReportExtends(w: World, m: Manager, id: NodeId, c: Client, r: Reply)
    requires QueuesOk(w, m, id, c) && ChainOk(m, c.timeout, c.down) && (r.Beaten? ==> r == Report(m))
    ensures ChainOk(m, c.timeout, c.down + [r])
  {
    hide RequestOk, ListOk, Trusted;
    var down := c.down + [r];
    forall i, j | 0 <= i < j < |down| && Late(down[i]) && down[j].Beaten? ensures Late(down[j]) {
      assert ReplyOk(w, m, id, c.down[i]);
    }
  }

  lemma Refused(w: World, m: Manager, id: NodeId, c: Client)
    requires ClientInv(w, m, id, c) && c.up != []
    ensures ClientInv(w, m, id, c.(up := c.up[1..]))
  {
    hide ReplyOk, Sound, Covers, RequestOk, Trusted, ChainOk;
    assert FinalOk(c.(up := c.up[1..]));
    hide FinalOk;
    assert QueuesOk(w, m, id, c.(up := c.up[1..]));
  }

  /** A complete listing, in any order, is what a node needs to know. */
  lemma ListingOk(m: Manager, ids: seq<NodeId>)
    requires Lists(m, ids)
    ensures ListOk(m.nodes, Metas(m, ids))
  {
    var metas := Metas(m, ids);
    forall i | 0 <= i < |metas| ensures Known(m.nodes, metas[i].rank, metas[i].address) {
      assert ids[i] in ids;
      assert IsServer(m.nodes, ids[i], metas[i].rank, metas[i].address);
    }
    forall id | id in m.nodes && m.nodes[id].role == Server
      ensures exists i :: 0 <= i < |metas| && metas[i].rank == m.nodes[id].rank
    {
      assert id in ids;
      var i :| 0 <= i < |ids| && ids[i] == id;
      assert metas[i].rank == m.nodes[id].rank;
    }
  }

  // The node receives a reply.

  lemma {:induction false} LearnRight(nodes: map<NodeId, NodeInfo>, addresses: map<nat, Address>, metas: seq<ServerMeta>)
    requires Sound(nodes, addresses)
    requires forall i :: 0 <= i < |metas| ==> Known(nodes, metas[i].rank, metas[i].address)
    ensures Sound(nodes, Learn(addresses, metas))
    ensures forall i :: 0 <= i < |metas| ==> metas[i].rank in Learn(addresses, metas)
  {
    hide Known;
    if metas != [] {
      LearnRight(nodes, addresses, metas[..|metas| - 1]);
    }
  }

  lemma LearnAll(nodes: map<NodeId, NodeInfo>, addresses: map<nat, Address>, metas: seq<ServerMeta>)
    requires Sound(nodes, addresses) && ListOk(nodes, metas)
    ensures Sound(nodes, Learn(addresses, metas)) && Covers(nodes, Learn(addresses, metas))
  {
    LearnRight(nodes, addresses, metas);
  }

  lemma PopDown(w: World, m: Manager, id: NodeId, c: Client)
    requires ClientInv(w, m, id, c) && c.down != []
    ensures ClientInv(w, m, id, c.(down := c.down[1..])) && ReplyOk(w, m, id, c.down[0])
    ensures Late(c.down[0]) ==> forall i :: 1 <= i < |c.down| && c.down[i].Beaten? ==> Late(c.down[i])
    ensures Final(c.down[0]) || c.finish ==> forall i :: 0 <= i < |c.down| && c.down[i].Beaten? ==> c.down[i].ready
  {
    hide ReplyOk, Sound, Covers, RequestOk, Trusted;
    var d := c.(down := c.down[1..]);
    assert forall i :: 0 <= i < |d.down| ==> d.down[i] == c.down[i + 1];
    assert ChainOk(m, d.timeout, d.down);
    assert QueuesOk(w, m, id, d);
    assert FinalOk(d);
  }

  lemma Received(w: World, m: Manager, id: NodeId, c: Client, listens: bool)
    requires ClientInv(w, m, id, c) && c.down != []
    ensures ClientInv(w, m, id, OnReply(c.(down := c.down[1..]), listens, c.down[0]))
  {
    var d := c.(down := c.down[1..]);
    PopDown(w, m, id, c);
    match c.down[0]
    case Registered(rank) =>
      SameQueues(w, m, id, d, OnReply(d, listens, c.down[0]));
      hide Sound, Covers, RequestOk, Trusted, ChainOk, QueuesOk, FinalOk;
    case Beaten(ready, finish, timeout) => ReceivedReport(w, m, id, c, d, listens);
    case FinishEchoed =>
    case Servers(metas) =>
      var e := OnReply(d, listens, c.down[0]);
      SameQueues(w, m, id, d, e);
      hide QueuesOk, ChainOk, FinalOk, Learn, Sound, Covers, ListOk, Capped;
      if Trusted(w, m) {
        LearnAll(m.nodes, c.addresses, metas);
      }
  }

  lemma SameQueues(w: World, m: Manager, id: NodeId, c: Client, d: Client)
    requires QueuesOk(w, m, id, c) && d.up == c.up && d.down == c.down
    requires FinalOk(c) && d.finish == c.finish && d.ready == c.ready
    ensures QueuesOk(w, m, id, d) && FinalOk(d)
  {
  }

  /** A report: the only way for a node to become ready without a timeout, or to finish. */
  lemma ReceivedReport(w: World, m: Manager, id: NodeId, c: Client, d: Client, listens: bool)
    requires ClientInv(w, m, id, c) && c.down != [] && c.down[0].Beaten?
    requires d == c.(down := c.down[1..]) && ClientInv(w, m, id, d) && ReplyOk(w, m, id, c.down[0])
    requires id in m.nodes
    ensures ClientInv(w, m, id, OnReply(d, listens, c.down[0]))
  {
  }

  // The node acts by itself.

  lemma PushUp(w: World, m: Manager, id: NodeId, c: Client, q: Request)
    requires ClientInv(w, m, id, c) && RequestOk(m, id, q)
    ensures ClientInv(w, m, id, Send(c, q))
  {
    hide ReplyOk, Sound, Covers, RequestOk, Trusted, ChainOk;
    assert FinalOk(Send(c, q));
    hide FinalOk;
    assert QueuesOk(w, m, id, Send(c, q));
  }

  lemma Acted(w: World, m: Manager, id: NodeId, c: Client, e: Event)
    requires ClientInv(w, m, id, c)
    ensures ClientInv(w, m, id, Act(c, e))
  {
    hide QueuesOk, ChainOk, FinalOk, Sound, Covers, Trusted;
    match e
    case EvRegister(_) =>
      PushUp(w, m, id, c, Register);
      SameQueues(w, m, id, Send(c, Register), Act(c, e));
    case EvHeartbeat(_) => if Settled(c) { PushUp(w, m, id, c, Heartbeat(false)); }
    case EvProceed(_) => SameQueues(w, m, id, c, Act(c, e));
    case EvFetch(_) =>
      if c.phase == Started && !c.timeout {
        PushUp(w, m, id, c, FetchServers);
        SameQueues(w, m, id, Send(c, FetchServers), Act(c, e));
      }
    case EvFinish(_) => if Settled(c) { PushUp(w, m, id, c, Finish); }
    case _ =>
  }

  // ------------------------------------------------------- the whole system

  function Ended(past: History): set<NodeId> { past.finishSent + past.missed }

  predicate SchedInv(s: Sched) {
    (s.isFinish ==> s.mgr.finish) && (s.isReady ==> s.mgr.ready)
  }

  /** A FINISH under way was sent. */
  predicate FinishOk(past: History, id: NodeId, c: Client) {
    forall i :: 0 <= i < |c.up| && c.up[i] == Finish ==> id in past.finishSent
  }

  ghost predicate NodeInv(w: World, s: System, id: NodeId) {
    id in s.clients && id in w.members && ClientInv(w, s.sched.mgr, id, s.clients[id]) && FinishOk(s.past, id, s.clients[id])
  }

  /** The manager knows about heartbeats and ends exactly what an observer of the messages knows. */
  predicate Exact(m: Manager, past: History) {
    && m.heartbeats == past.heard
    && m.finished == past.finishServed + past.missed
    && m.finishBeats == past.finishBeats <= m.nodes.Keys
    && past.finishServed <= past.finishSent
  }

  ghost predicate Inv(w: World, s: System) {
    && Exact(s.sched.mgr, s.past)
    && MgrInv(w, s.sched.mgr, Ended(s.past)) && RanksInv(w, s.sched.mgr, s.past.order) && SchedInv(s.sched)
    && s.clients.Keys == w.members.Keys
    && forall id :: id in s.clients ==> NodeInv(w, s, id)
  }

  /** From `s` to `t` the manager grew, and only the node `id` changed. */
  lemma OthersStay(w: World, s: System, t: System, id: NodeId)
    requires Inv(w, s) && id in s.clients && id in t.clients && t.clients == s.clients[id := t.clients[id]]
    requires MgrInv(w, t.sched.mgr, Ended(t.past)) && RanksInv(w, t.sched.mgr, t.past.order) && SchedInv(t.sched)
    requires Grows(s.sched.mgr, t.sched.mgr) && s.past.finishSent <= t.past.finishSent && s.past.missed <= t.past.missed
    requires Exact(t.sched.mgr, t.past) && NodeInv(w, t, id)
    ensures Inv(w, t)
  {
    hide RanksInv, ClientInv;
    EndedGrows(w, s.sched.mgr, Ended(s.past), Ended(t.past));
    hide MgrInv, Grows, SchedInv;
    forall other | other in t.clients ensures NodeInv(w, t, other) {
      if other != id {
        assert NodeInv(w, s, other);
        ClientStays(w, s.sched.mgr, t.sched.mgr, Ended(t.past), other, s.clients[other]);
      }
    }
  }

  lemma EndedGrows(w: World, m: Manager, a: set<NodeId>, b: set<NodeId>)
    requires MgrInv(w, m, a) && a <= b
    ensures MgrInv(w, m, b)
  {
  }

  lemma FinishPopped(past: History, more: History, id: NodeId, c: Client, down: seq<Reply>)
    requires FinishOk(past, id, c) && c.up != [] && past.finishSent <= more.finishSent
    ensures FinishOk(more, id, c.(up := c.up[1..], down := down))
  {
    var d := c.(up := c.up[1..], down := down);
    assert forall i :: 0 <= i < |d.up| ==> d.up[i] == c.up[i + 1];
  }

  lemma ServeRegister(w: World, s: System, id: NodeId, listing: seq<NodeId>)
    requires Inv(w, s) && id in s.clients && s.clients[id].up != [] && s.clients[id].up[0] == Register
    ensures id in w.members && Inv(w, Serve(w, s, id, listing))
    ensures Grows(s.sched.mgr, Serve(w, s, id, listing).sched.mgr)
  {
    hide RanksInv, MgrInv, ClientInv, Grows, NextRank, Beat, FinishOk, Capped;
    assert NodeInv(w, s, id);
    var t := Serve(w, s, id, listing);
    var m, n, c := s.sched.mgr, t.sched.mgr, s.clients[id];
    assert (id in s.past.order <==> id in m.nodes) && m.nextServer >= -1 && m.nextWorker >= -1 by {
      OrderKnows(w, m, s.past.order, id);
    }
    RegisterExact(m, s.past, id, w.members[id].role, w.members[id].address, s.clock);
    if id in m.nodes {
      RegisterAgain(w, m, Ended(s.past), s.past.order, id, s.clock);
      RegisterAnswered(w, s, t, id);
    } else if w.members[id].role != Role.Scheduler {
      RegisterFirst(w, m, Ended(s.past), s.past.order, id, s.clock);
      RegisterAnswered(w, s, t, id);
    } else {
      NoRankForScheduler(m, id, w.members[id].address);
      GrowsSame(m);
      Refused(w, m, id, c);
      FinishPopped(s.past, t.past, id, c, c.down);
      OthersStay(w, s, t, id);
    }
  }

  lemma OrderKnows(w: World, m: Manager, order: seq<NodeId>, id: NodeId)
    requires RanksInv(w, m, order)
    ensures (id in order <==> id in m.nodes) && m.nextServer >= -1 && m.nextWorker >= -1
  {
  }

  /** What an observer sees of a registration is what the manager records. */
  lemma RegisterExact(m: Manager, past: History, id: NodeId, role: Role, address: Address, now: int)
    requires Exact(m, past) && (id in past.order <==> id in m.nodes) && m.nextServer >= -1 && m.nextWorker >= -1
    ensures var (n, rank) := NextRank(m, id, role, address);
      var after := SawRegister(past, id, role, now);
      && Exact(if rank < 0 then n else Beat(n, id, now), after)
      && after.order == (if id in m.nodes || role == Role.Scheduler then past.order else past.order + [id])
  {
  }

  lemma NoRankForScheduler(m: Manager, id: NodeId, address: Address)
    requires id !in m.nodes
    ensures NextRank(m, id, Role.Scheduler, address) == (m, -1)
  {
  }

  lemma GrowsSame(m: Manager)
    ensures Grows(m, m)
  {
  }

  lemma RegisterAnswered(w: World, s: System, t: System, id: NodeId)
    requires Inv(w, s) && id in s.clients && s.clients[id].up != [] && NodeInv(w, s, id)
    requires Grows(s.sched.mgr, t.sched.mgr) && MgrInv(w, t.sched.mgr, Ended(t.past))
    requires RanksInv(w, t.sched.mgr, t.past.order)
    requires t.sched == s.sched.(mgr := t.sched.mgr) && Exact(t.sched.mgr, t.past)
    requires t.past == s.past.(order := t.past.order, heard := t.past.heard)
    requires id in t.sched.mgr.nodes
    requires var c := s.clients[id];
      t.clients == s.clients[id := c.(up := c.up[1..], down := c.down + [Registered(t.sched.mgr.nodes[id].rank)])]
    ensures Inv(w, t)
  {
    hide RanksInv, MgrInv, ClientInv, FinishOk;
    var n, c := t.sched.mgr, s.clients[id];
    ClientStays(w, s.sched.mgr, n, Ended(t.past), id, c);
    Handled(w, n, id, c, Registered(n.nodes[id].rank));
    FinishPopped(s.past, t.past, id, c, t.clients[id].down);
    OthersStay(w, s, t, id);
  }

  lemma ServeHeartbeat(w: World, s: System, id: NodeId, listing: seq<NodeId>)
    requires Inv(w, s) && id in s.clients && s.clients[id].up != [] && s.clients[id].up[0].Heartbeat?
    ensures id in w.members && Inv(w, Serve(w, s, id, listing))
    ensures Grows(s.sched.mgr, Serve(w, s, id, listing).sched.mgr)
  {
    hide RanksInv, MgrInv, Grows, KnowsOk, ChainOk, OnHeartbeat;
    assert NodeInv(w, s, id);
    var t := Serve(w, s, id, listing);
    var m, n, c := s.sched.mgr, t.sched.mgr, s.clients[id];
    assert RequestOk(m, id, c.up[0]);
    HeartbeatKept(w, s.sched, Ended(s.past), s.past.order, id, c.up[0].finish, s.clock);
    HeartbeatExact(s.sched, s.past, id, c.up[0].finish, s.clock);
    hide ClientInv, FinishOk, RequestOk;
    ClientStays(w, m, n, Ended(s.past), id, c);
    Handled(w, n, id, c, Report(n));
    FinishPopped(s.past, t.past, id, c, t.clients[id].down);
    OthersStay(w, s, t, id);
  }

  lemma HeartbeatExact(s: Sched, past: History, id: NodeId, finish: bool, now: int)
    requires Exact(s.mgr, past) && id in s.mgr.nodes
    ensures Exact(OnHeartbeat(s, id, finish, now).mgr, SawHeartbeat(past, id, finish, now))
  {
  }

  lemma FinishExact(m: Manager, past: History, id: NodeId)
    requires Exact(m, past) && id in past.finishSent
    ensures Exact(AddFinish(m, id), past.(finishServed := past.finishServed + {id}))
  {
  }

  lemma CheckExact(s: Sched, past: History)
    requires Exact(s.mgr, past)
    ensures Exact(TimerCheck(s).mgr, past)
  {
  }

  /** The scheduler finishes on the nodes' word only after it told them so. */
  lemma HeartbeatKept(w: World, s: Sched, ended: set<NodeId>, order: seq<NodeId>, id: NodeId, finish: bool, now: int)
    requires MgrInv(w, s.mgr, ended) && RanksInv(w, s.mgr, order) && SchedInv(s)
    requires id in s.mgr.nodes && (finish ==> s.mgr.finish)
    ensures var t := OnHeartbeat(s, id, finish, now);
      && MgrInv(w, t.mgr, ended) && RanksInv(w, t.mgr, order) && SchedInv(t) && Grows(s.mgr, t.mgr) && id in t.mgr.nodes
      && (t.mgr.finish ==> t.mgr.ready)
  {
    BeatKnown(w, s.mgr, ended, id, now);
    SameRanks(w, s.mgr, OnHeartbeat(s, id, finish, now).mgr, order);
    hide RanksInv;
  }

  lemma FinishKept(w: World, m: Manager, ended: set<NodeId>, order: seq<NodeId>, id: NodeId)
    requires MgrInv(w, m, ended) && RanksInv(w, m, order) && id in m.nodes && id in ended
    ensures var n := AddFinish(m, id);
      && MgrInv(w, n, ended) && RanksInv(w, n, order) && Grows(m, n)
      && n.ready == m.ready && n.finish == m.finish
  {
    FinishKnown(w, m, ended, id);
    SameRanks(w, m, AddFinish(m, id), order);
    hide RanksInv, MgrInv, Grows;
  }

  lemma ServeFinish(w: World, s: System, id: NodeId, listing: seq<NodeId>)
    requires Inv(w, s) && id in s.clients && s.clients[id].up != [] && s.clients[id].up[0] == Finish
    ensures id in w.members && Inv(w, Serve(w, s, id, listing))
    ensures Grows(s.sched.mgr, Serve(w, s, id, listing).sched.mgr)
  {
    hide RanksInv, MgrInv, Grows, KnowsOk, ChainOk, AddFinish;
    assert NodeInv(w, s, id);
    var t := Serve(w, s, id, listing);
    var m, n, c := s.sched.mgr, t.sched.mgr, s.clients[id];
    assert RequestOk(m, id, c.up[0]);
    FinishKept(w, m, Ended(s.past), s.past.order, id);
    FinishExact(m, s.past, id);
    hide ClientInv, FinishOk, RequestOk;
    ClientStays(w, m, n, Ended(s.past), id, c);
    Handled(w, n, id, c, FinishEchoed);
    FinishPopped(s.past, t.past, id, c, t.clients[id].down);
    OthersStay(w, s, t, id);
  }

  lemma FetchReply(w: World, m: Manager, ended: set<NodeId>, id: NodeId, listing: seq<NodeId>)
    requires MgrInv(w, m, ended) && m.ready && Lists(m, listing)
    ensures forall k :: k in listing ==> k in m.nodes
    ensures ReplyOk(w, m, id, Servers(Metas(m, listing)))
  {
    ListingOk(m, listing);
    hide ListOk, Metas;
  }

  lemma ServeFetch(w: World, s: System, id: NodeId, listing: seq<NodeId>)
    requires Inv(w, s) && id in s.clients && s.clients[id].up != [] && s.clients[id].up[0] == FetchServers
    ensures id in w.members && Inv(w, Serve(w, s, id, listing))
    ensures Grows(s.sched.mgr, Serve(w, s, id, listing).sched.mgr)
  {
    hide RanksInv, MgrInv, KnowsOk, ChainOk, FinalOk, FinishOk, ReplyOk, Lists, Metas, Grows;
    assert NodeInv(w, s, id);
    var t := Serve(w, s, id, listing);
    var m, c := s.sched.mgr, s.clients[id];
    assert RequestOk(m, id, c.up[0]);
    GrowsSame(m);
    if Lists(m, listing) {
      FetchReply(w, m, Ended(s.past), id, listing);
      hide ClientInv, RequestOk, Exact;
      Handled(w, m, id, c, Servers(Metas(m, listing)));
      FinishPopped(s.past, t.past, id, c, t.clients[id].down);
      OthersStay(w, s, t, id);
    }
  }

  lemma ServeKept(w: World, s: System, id: NodeId, listing: seq<NodeId>)
    requires Inv(w, s) && id in s.clients && id in w.members && s.clients[id].up != []
    ensures Inv(w, Serve(w, s, id, listing)) && Grows(s.sched.mgr, Serve(w, s, id, listing).sched.mgr)
  {
    hide Inv, Serve, Grows;
    match s.clients[id].up[0]
    case Register => ServeRegister(w, s, id, listing);
    case Heartbeat(_) => ServeHeartbeat(w, s, id, listing);
    case Finish => ServeFinish(w, s, id, listing);
    case FetchServers => ServeFetch(w, s, id, listing);
  }

  /** A step of one node alone. */
  lemma NodeStep(w: World, s: System, t: System, id: NodeId)
    requires Inv(w, s) && id in s.clients && id in t.clients && t.clients == s.clients[id := t.clients[id]]
    requires t.sched == s.sched && t.past == s.past.(finishSent := t.past.finishSent)
    requires s.past.finishSent <= t.past.finishSent
    requires ClientInv(w, s.sched.mgr, id, t.clients[id]) && FinishOk(t.past, id, t.clients[id])
    ensures Inv(w, t)
  {
    hide RanksInv, MgrInv, ClientInv, FinishOk;
    GrowsSame(s.sched.mgr);
    EndedGrows(w, s.sched.mgr, Ended(s.past), Ended(t.past));
    OthersStay(w, s, t, id);
  }

  lemma ReceiveKept(w: World, s: System, id: NodeId)
    requires Inv(w, s) && id in s.clients && id in w.members && s.clients[id].down != []
    ensures Inv(w, Next(w, s, EvReceive(id)))
  {
    hide MgrInv, RanksInv, ClientInv, OnReply;
    assert NodeInv(w, s, id);
    var c := s.clients[id];
    Received(w, s.sched.mgr, id, c, w.members[id].listens);
    ReplySendsNoFinish(s.past, id, c.(down := c.down[1..]), w.members[id].listens, c.down[0]);
    NodeStep(w, s, Next(w, s, EvReceive(id)), id);
  }

  lemma ReplySendsNoFinish(past: History, id: NodeId, c: Client, listens: bool, r: Reply)
    requires FinishOk(past, id, c)
    ensures FinishOk(past, id, OnReply(c, listens, r))
  {
    hide Learn;
  }

  lemma ActKept(w: World, s: System, e: Event)
    requires Inv(w, s) && (e.EvRegister? || e.EvHeartbeat? || e.EvProceed? || e.EvFetch? || e.EvFinish?)
    requires e.id in s.clients
    ensures Inv(w, Next(w, s, e))
  {
    hide MgrInv, RanksInv, ClientInv;
    assert NodeInv(w, s, e.id);
    Acted(w, s.sched.mgr, e.id, s.clients[e.id], e);
    NodeStep(w, s, Next(w, s, e), e.id);
  }

  /** A step of the timer alone. */
  lemma TimerStep(w: World, s: System, t: System)
    requires Inv(w, s) && t.clients == s.clients && Grows(s.sched.mgr, t.sched.mgr)
    requires MgrInv(w, t.sched.mgr, Ended(t.past)) && RanksInv(w, t.sched.mgr, t.past.order) && SchedInv(t.sched)
    requires Exact(t.sched.mgr, t.past) && s.past.finishSent == t.past.finishSent && s.past.missed <= t.past.missed
    ensures Inv(w, t)
  {
    hide RanksInv, ClientInv;
    EndedGrows(w, s.sched.mgr, Ended(s.past), Ended(t.past));
    hide MgrInv, Grows, SchedInv;
    forall id | id in t.clients ensures NodeInv(w, t, id) {
      assert NodeInv(w, s, id);
      ClientStays(w, s.sched.mgr, t.sched.mgr, Ended(t.past), id, s.clients[id]);
    }
  }

  lemma UpdateKept(w: World, m: Manager, ended: set<NodeId>, order: seq<NodeId>, now: int, limit: nat)
    requires MgrInv(w, m, ended) && RanksInv(w, m, order)
    ensures var n := Update(m, now, limit);
      && MgrInv(w, n, ended + TimedOut(m.heartbeats, now, limit)) && RanksInv(w, n, order) && Grows(m, n)
  {
    var late := TimedOut(m.heartbeats, now, limit);
    RetireKept(w, m, ended, late);
    SettleKept(w, Retire(m, late), ended + late);
    SameRanks(w, m, Update(m, now, limit), order);
    hide RanksInv, MgrInv, Retire, Settle;
  }

  lemma TimerUpdateKept(w: World, s: System)
    requires Inv(w, s)
    ensures var t := Next(w, s, EvTimerUpdate); Inv(w, t) && Grows(s.sched.mgr, t.sched.mgr)
  {
    hide RanksInv, MgrInv, NodeInv, Update, TimedOut;
    var t := Next(w, s, EvTimerUpdate);
    UpdateKept(w, s.sched.mgr, Ended(s.past), s.past.order, s.clock, w.limit);
    var late := TimedOut(s.sched.mgr.heartbeats, s.clock, w.limit);
    assert late == Overdue(s.past.heard, s.clock, w.limit) by { SameDeadline(s.sched.mgr.heartbeats, s.clock, w.limit); }
    assert Ended(t.past) == Ended(s.past) + late;
    assert Exact(t.sched.mgr, t.past) by { UpdateExact(s.sched.mgr, s.clock, w.limit); }
    TimerStep(w, s, t);
  }

  lemma SameDeadline(heard: map<NodeId, int>, now: int, limit: nat)
    ensures TimedOut(heard, now, limit) == Overdue(heard, now, limit)
  {
  }

  /** Of all that concerns heartbeats and ends, an update changes the finished nodes only. */
  lemma UpdateExact(m: Manager, now: int, limit: nat)
    ensures var n := Update(m, now, limit);
      && n.finished == m.finished + TimedOut(m.heartbeats, now, limit)
      && n.heartbeats == m.heartbeats && n.finishBeats == m.finishBeats && n.nodes == m.nodes
  {
  }

  lemma CheckKept(w: World, s: Sched, ended: set<NodeId>, order: seq<NodeId>)
    requires MgrInv(w, s.mgr, ended) && RanksInv(w, s.mgr, order) && SchedInv(s)
    ensures var t := TimerCheck(s);
      MgrInv(w, t.mgr, ended) && RanksInv(w, t.mgr, order) && SchedInv(t) && Grows(s.mgr, t.mgr)
  {
    GiveUpKept(w, s.mgr, ended);
    GrowsSame(s.mgr);
    SameRanks(w, s.mgr, TimerCheck(s).mgr, order);
    hide RanksInv, MgrInv, Grows;
  }

  lemma TimerCheckKept(w: World, s: System)
    requires Inv(w, s)
    ensures var t := Next(w, s, EvTimerCheck); Inv(w, t) && Grows(s.sched.mgr, t.sched.mgr)
  {
    hide RanksInv, MgrInv, NodeInv, Grows, TimerCheck, SchedInv;
    CheckKept(w, s.sched, Ended(s.past), s.past.order);
    CheckExact(s.sched, s.past);
    TimerStep(w, s, Next(w, s, EvTimerCheck));
  }

  lemma InvKept(w: World, s: System, e: Event)
    requires Inv(w, s)
    ensures Inv(w, Next(w, s, e)) && Grows(s.sched.mgr, Next(w, s, e).sched.mgr)
  {
    hide MgrInv, RanksInv, NodeInv, Serve, OnReply, Act;
    GrowsSame(s.sched.mgr);
    match e
    case EvServe(id, listing) =>
      if id in s.clients && id in w.members && s.clients[id].up != [] { ServeKept(w, s, id, listing); }
    case EvReceive(id) => if id in s.clients && id in w.members && s.clients[id].down != [] { ReceiveKept(w, s, id); }
    case EvTimerCheck => TimerCheckKept(w, s);
    case EvTimerUpdate => TimerUpdateKept(w, s);
    case EvTimerFinish => TimerStep(w, s, Next(w, s, e));
    case EvClock(seconds) => TimerStep(w, s, Next(w, s, e));
    case _ => if e.id in s.clients { ActKept(w, s, e); }
  }

  lemma StartMgr(w: World)
    ensures MgrInv(w, Fresh(w.cfg), {}) && RanksInv(w, Fresh(w.cfg), [])
  {
    hide Capped;
  }

  lemma StartNode(w: World, m: Manager, id: NodeId)
    ensures ClientInv(w, m, id, NEW_CLIENT)
  {
    hide Trusted;
  }

  lemma StartInv(w: World)
    ensures Inv(w, Start(w))
  {
    hide MgrInv, RanksInv, ClientInv;
    var s := Start(w);
    StartMgr(w);
    assert Ended(s.past) == {};
    forall id | id in s.clients ensures NodeInv(w, s, id) {
      StartNode(w, s.sched.mgr, id);
    }
  }

  lemma {:induction false} Reachable(w: World, es: seq<Event>)
    ensures Inv(w, Exec(w, es))
  {
    if es == [] {
      StartInv(w);
    } else {
      hide Inv, Next;
      Reachable(w, es[..|es| - 1]);
      InvKept(w, Exec(w, es[..|es| - 1]), es[|es| - 1]);
    }
  }

  lemma {:induction false} RunGrows(w: World, es: seq<Event>, tail: seq<Event>)
    ensures Grows(Exec(w, es).sched.mgr, Exec(w, es + tail).sched.mgr)
    decreases |tail|
  {
    if tail == [] {
      assert es + tail == es;
      GrowsSame(Exec(w, es).sched.mgr);
    } else {
      hide Next, Inv;
      var pre := es + tail[..|tail| - 1];
      RunGrows(w, es, tail[..|tail| - 1]);
      assert (es + tail)[..|es + tail| - 1] == pre;
      Reachable(w, pre);
      InvKept(w, Exec(w, pre), tail[|tail| - 1]);
    }
  }

  // -------------------------------------------------------------- results

  /**
   In every run: cluster-ready and cluster-finish never revert, finish implies ready, and whoever
   considers itself finished or ready (the scheduler, or a node that saw no timeout) is right.
   */
  lemma FlagsLaw(w: World, es: seq<Event>, tail: seq<Event>)
    ensures var s, t := Exec(w, es), Exec(w, es + tail);
      && (s.sched.mgr.ready ==> t.sched.mgr.ready) && (s.sched.mgr.finish ==> t.sched.mgr.finish)
      && (s.sched.mgr.finish ==> s.sched.mgr.ready)
      && (s.sched.isFinish ==> s.sched.mgr.finish) && (s.sched.isReady ==> s.sched.mgr.ready)
    ensures var s := Exec(w, es);
      forall id :: id in s.clients ==>
        && (s.clients[id].finish ==> s.sched.mgr.finish)
        && (s.clients[id].ready && !s.clients[id].timeout ==> s.sched.mgr.ready)
  {
    hide Exec, RanksInv;
    RunGrows(w, es, tail);
    Reachable(w, es);
    var s := Exec(w, es);
    forall id | id in s.clients
      ensures s.clients[id].finish ==> s.sched.mgr.finish
      ensures s.clients[id].ready && !s.clients[id].timeout ==> s.sched.mgr.ready
    {
      assert NodeInv(w, s, id);
    }
  }

  /** Which nodes are given up at an update: exactly those not served for longer than the limit. */
  lemma DeadlineLaw(w: World, es: seq<Event>, id: NodeId)
    ensures var s, t := Exec(w, es), Exec(w, es + [EvTimerUpdate]);
      && (id in t.sched.mgr.finished <==>
            || id in s.sched.mgr.finished
            || (id in s.past.heard && s.clock > s.past.heard[id] + w.limit))
      && (id in t.past.missed <==> id in s.past.missed || (id in s.past.heard && s.clock > s.past.heard[id] + w.limit))
  {
    hide Exec, NodeInv, RanksInv, MgrInv, Settle;
    Reachable(w, es);
    ExecOne(w, es, EvTimerUpdate);
    var s := Exec(w, es);
    UpdateExact(s.sched.mgr, s.clock, w.limit);
  }

  /** In every run the finished nodes are those whose FINISH was served and those that missed a deadline. */
  lemma FinishedLaw(w: World, es: seq<Event>)
    ensures var s := Exec(w, es);
      && s.sched.mgr.finished == s.past.Over() && s.past.finishServed <= s.past.Registered()
      && s.sched.mgr.nodes.Keys == s.past.Registered() && s.sched.mgr.heartbeats == s.past.heard
      && |s.sched.mgr.nodes| == |s.past.order|
  {
    hide Exec, NodeInv;
    Reachable(w, es);
    var s := Exec(w, es);
    RegisteredIs(w, s.sched.mgr, s.past);
  }

  lemma RegisteredIs(w: World, m: Manager, past: History)
    requires RanksInv(w, m, past.order)
    ensures m.nodes.Keys == past.Registered() && |m.nodes| == |past.order|
  {
    hide RankOk, CountRole;
    assert m.nodes.Keys == past.Registered();
    DistinctSize(past.order, past.Registered());
  }

  lemma {:induction false} DistinctSize(order: seq<NodeId>, ids: set<NodeId>)
    requires forall i, j :: 0 <= i < j < |order| ==> order[i] != order[j]
    requires forall id :: id in ids <==> id in order
    ensures |ids| == |order|
  {
    if order == [] {
      assert ids == {};
    } else {
      var n := |order| - 1;
      assert order == order[..n] + [order[n]];
      DistinctSize(order[..n], ids - {order[n]});
    }
  }

  /**
   The cluster flags, after every step of every run, from what an observer knows. Finish is declared by an
   update at which as many nodes are over as are configured, or as were present when the availability timeout
   fired; ready by an update that finds finish or as many nodes registered as are configured; the timeout flag
   by an update with an overdue node, or when the availability timeout fires on an incomplete cluster.
   */
  lemma FlagsStep(w: World, es: seq<Event>, e: Event)
    ensures var s, t := Exec(w, es), Exec(w, es + [e]);
      var m, n, total := s.sched.mgr, t.sched.mgr, (w.cfg.serverNum + w.cfg.workerNum) % U32_LIMIT;
      && (n.finish <==>
            m.finish || (e.EvTimerUpdate? && (|t.past.Over()| == total || |t.past.Over()| == m.current)))
      && (n.ready <==> m.ready || n.finish || (e.EvTimerUpdate? && |s.past.order| == total))
      && (n.timeout <==>
            || m.timeout
            || (e.EvTimerUpdate? && exists id :: id in s.past.heard && s.clock > s.past.heard[id] + w.limit)
            || (e.EvTimerCheck? && !m.ready && |s.past.order| != total))
      && n.current == (if e.EvTimerCheck? && !m.ready && |s.past.order| != total then |s.past.order| else m.current)
  {
    hide Exec, Next;
    var s := Exec(w, es);
    ExecOne(w, es, e);
    if e.EvTimerUpdate? {
      UpdateStep(w, es);
    } else if e.EvTimerCheck? {
      CheckStep(w, es);
    } else {
      FinishReady(w, es);
      QuietStep(w, s, e);
    }
  }

  lemma FinishReady(w: World, es: seq<Event>)
    ensures Exec(w, es).sched.mgr.finish ==> Exec(w, es).sched.mgr.ready
    ensures Exec(w, es).sched.mgr.total == (w.cfg.serverNum + w.cfg.workerNum) % U32_LIMIT
  {
    hide Exec, NodeInv, RanksInv;
    Reachable(w, es);
  }

  lemma UpdateStep(w: World, es: seq<Event>)
    ensures var s, t := Exec(w, es), Exec(w, es + [EvTimerUpdate]);
      var m, n := s.sched.mgr, t.sched.mgr;
      && (n.finish <==> m.finish || |t.past.Over()| == m.total || |t.past.Over()| == m.current)
      && (n.ready <==> m.ready || n.finish || |s.past.order| == m.total)
      && (n.timeout <==> m.timeout || exists id :: id in s.past.heard && s.clock > s.past.heard[id] + w.limit)
      && n.current == m.current && m.total == (w.cfg.serverNum + w.cfg.workerNum) % U32_LIMIT
  {
    hide Exec, Update, History.Over, History.Registered;
    FinishReady(w, es);
    FinishedLaw(w, es);
    FinishedLaw(w, es + [EvTimerUpdate]);
    ExecOne(w, es, EvTimerUpdate);
    var s := Exec(w, es);
    UpdateFlagsAre(s.sched.mgr, s.clock, w.limit);
  }

  lemma CheckStep(w: World, es: seq<Event>)
    ensures var s, t := Exec(w, es), Exec(w, es + [EvTimerCheck]);
      var m, n := s.sched.mgr, t.sched.mgr;
      && n.finish == m.finish && n.ready == m.ready && (m.finish ==> m.ready)
      && (n.timeout <==> m.timeout || (!m.ready && |s.past.order| != m.total))
      && n.current == (if !m.ready && |s.past.order| != m.total then |s.past.order| else m.current)
      && m.total == (w.cfg.serverNum + w.cfg.workerNum) % U32_LIMIT
  {
    hide Exec, History.Over, History.Registered;
    FinishReady(w, es);
    FinishedLaw(w, es);
    ExecOne(w, es, EvTimerCheck);
  }

  predicate SameFlags(m: Manager, n: Manager) {
    n.finish == m.finish && n.ready == m.ready && n.timeout == m.timeout && n.current == m.current
  }

  lemma RegisterFlags(s: Sched, id: NodeId, role: Role, address: Address, now: int)
    ensures SameFlags(s.mgr, OnRegister(s, id, role, address, now).0.mgr)
  {
  }

  lemma HeartbeatFlags(s: Sched, id: NodeId, finish: bool, now: int)
    ensures SameFlags(s.mgr, OnHeartbeat(s, id, finish, now).mgr)
  {
  }

  /** No other step touches the cluster flags. */
  lemma QuietStep(w: World, s: System, e: Event)
    requires !e.EvTimerUpdate? && !e.EvTimerCheck?
    ensures SameFlags(s.sched.mgr, Next(w, s, e).sched.mgr)
  {
    hide OnReply, Act, OnRegister, OnHeartbeat, SawRegister, SawHeartbeat, Lists;
    if e.EvServe? && e.id in s.clients && e.id in w.members && s.clients[e.id].up != [] {
      RegisterFlags(s.sched, e.id, w.members[e.id].role, w.members[e.id].address, s.clock);
      var q := s.clients[e.id].up[0];
      HeartbeatFlags(s.sched, e.id, q == Heartbeat(true), s.clock);
      assert q.Heartbeat? ==> q.finish == (q == Heartbeat(true));
    }
  }

  lemma UpdateFlagsAre(m: Manager, now: int, limit: nat)
    ensures var n := Update(m, now, limit);
      && (n.finish <==> m.finish || |n.finished| == m.total || |n.finished| == m.current)
      && (n.ready <==> m.ready || |n.finished| == m.total || |n.finished| == m.current || |m.nodes| == m.total)
      && (n.timeout <==> m.timeout || exists id :: id in m.heartbeats && now > m.heartbeats[id] + limit)
      && n.current == m.current
  {
    var late := TimedOut(m.heartbeats, now, limit);
    if exists id :: id in m.heartbeats && now > m.heartbeats[id] + limit {
      var id :| id in m.heartbeats && now > m.heartbeats[id] + limit;
      assert id in late;
    } else {
      assert late == {};
    }
  }

  /**
   With no more nodes than configured and no availability timeout, a finished cluster means that every
   one of its nodes registered, and announced its end or missed its heartbeat deadline at some update.
   */
  lemma FinishLaw(w: World, es: seq<Event>, id: NodeId)
    requires var m := Exec(w, es).sched.mgr; Trusted(w, m) && m.finish
    requires id in w.members
    ensures var s := Exec(w, es);
      && id in s.past.order && (id in s.past.finishServed || id in s.past.missed)
      && s.past.finishServed <= s.past.finishSent
  {
    hide Exec, RanksInv, NodeInv;
    Reachable(w, es);
    FinishedLaw(w, es);
  }

  /**
   Conversely, once every node of a full-sized cluster has had its FINISH served or missed a deadline, the next
   update declares finish, and the timer's last part makes the scheduler itself finish.
   */
  lemma FinishIsDeclared(w: World, es: seq<Event>)
    requires Capped(w) && |w.members| == w.cfg.serverNum + w.cfg.workerNum
    requires w.members.Keys <= Exec(w, es).past.Over()
    ensures Exec(w, es + [EvTimerUpdate]).sched.mgr.finish
    ensures Exec(w, es + [EvTimerUpdate] + [EvTimerFinish]).sched.isFinish
  {
    hide Exec, Next, Capped, History.Over;
    UpdateStep(w, es);
    OverIsKnown(w, es + [EvTimerUpdate]);
    OverGrows(w, es);
    CappedTotal(w);
    assert Exec(w, es + [EvTimerUpdate]).past.Over() == w.members.Keys;
    TimerFinishes(w, es + [EvTimerUpdate]);
  }

  lemma TimerFinishes(w: World, es: seq<Event>)
    requires Exec(w, es).sched.mgr.finish
    ensures Exec(w, es + [EvTimerFinish]).sched.isFinish
  {
    hide Exec;
    ExecOne(w, es, EvTimerFinish);
  }

  lemma OverIsKnown(w: World, es: seq<Event>)
    ensures Exec(w, es).past.Over() <= w.members.Keys
  {
    hide Exec, NodeInv, RanksInv;
    Reachable(w, es);
    var m := Exec(w, es).sched.mgr;
    assert forall id :: id in m.nodes ==> InfoOk(w, m, id);
  }

  lemma OverGrows(w: World, es: seq<Event>)
    ensures Exec(w, es).past.Over() <= Exec(w, es + [EvTimerUpdate]).past.Over()
  {
    hide Exec;
    ExecOne(w, es, EvTimerUpdate);
  }

  /** With no more nodes than configured, and short of the availability timeout, there is no other way to finish. */
  lemma FinishIff(w: World, es: seq<Event>)
    requires Trusted(w, Exec(w, es).sched.mgr)
    ensures var s, t := Exec(w, es), Exec(w, es + [EvTimerUpdate]);
      && (s.sched.mgr.finish ==> t.sched.mgr.finish)
      && (!s.sched.mgr.finish ==>
            (t.sched.mgr.finish <==>
               |w.members| == w.cfg.serverNum + w.cfg.workerNum && t.past.Over() == w.members.Keys))
  {
    hide Exec, Next, Capped;
    FlagsStep(w, es, EvTimerUpdate);
    OverIsKnown(w, es + [EvTimerUpdate]);
    CappedTotal(w);
    CappedSize(w);
    SubsetSize(Exec(w, es + [EvTimerUpdate]).past.Over(), w.members.Keys);
  }

  /** A registry of the configured size is ready after the next update. */
  lemma ReadyIsDeclared(w: World, es: seq<Event>)
    requires |Exec(w, es).past.order| == (w.cfg.serverNum + w.cfg.workerNum) % U32_LIMIT
    ensures Exec(w, es + [EvTimerUpdate]).sched.mgr.ready && Exec(w, es + [EvTimerUpdate]).sched.isReady
  {
    hide Exec, Update;
    FlagsStep(w, es, EvTimerUpdate);
    ExecOne(w, es, EvTimerUpdate);
  }

  /** After the availability timeout, the nodes then present ending is enough, whatever happens in between. */
  lemma GiveUpLaw(w: World, es: seq<Event>, tail: seq<Event>)
    requires var s := Exec(w, es);
      !s.sched.mgr.ready && |s.past.order| != (w.cfg.serverNum + w.cfg.workerNum) % U32_LIMIT
    requires NoCheck(tail)
    requires var t := Exec(w, es + [EvTimerCheck] + tail + [EvTimerUpdate]);
      |t.past.Over()| == |Exec(w, es).past.order|
    ensures Exec(w, es + [EvTimerCheck] + tail + [EvTimerUpdate]).sched.mgr.finish
  {
    hide Exec, Next;
    FlagsStep(w, es, EvTimerCheck);
    CurrentStays(w, es + [EvTimerCheck], tail);
    FlagsStep(w, es + [EvTimerCheck] + tail, EvTimerUpdate);
  }

  predicate NoCheck(es: seq<Event>) {
    forall i :: 0 <= i < |es| ==> !es[i].EvTimerCheck?
  }

  lemma NoCheckFront(es: seq<Event>)
    requires NoCheck(es) && es != []
    ensures NoCheck(es[..|es| - 1]) && !es[|es| - 1].EvTimerCheck?
  {
  }

  lemma {:induction false} CurrentStays(w: World, es: seq<Event>, tail: seq<Event>)
    requires NoCheck(tail)
    ensures Exec(w, es + tail).sched.mgr.current == Exec(w, es).sched.mgr.current
    decreases |tail|
  {
    hide Exec, Next, NoCheck;
    if tail == [] {
      assert es + tail == es;
    } else {
      var n := |tail| - 1;
      NoCheckFront(tail);
      CurrentStays(w, es, tail[..n]);
      CurrentStep(w, es + tail[..n], tail[n]);
      assert es + tail == es + tail[..n] + [tail[n]];
    }
  }

  lemma CurrentStep(w: World, es: seq<Event>, e: Event)
    requires !e.EvTimerCheck?
    ensures Exec(w, es + [e]).sched.mgr.current == Exec(w, es).sched.mgr.current
  {
    hide Exec, Next;
    ExecOne(w, es, e);
    if e.EvTimerUpdate? {
      UpdateStep(w, es);
    } else {
      QuietStep(w, Exec(w, es), e);
    }
  }

  predicate ServesFinishBeat(s: System, e: Event) {
    e.EvServe? && e.id in s.clients && s.clients[e.id].up != [] && s.clients[e.id].up[0] == Heartbeat(true)
  }

  /**
   The scheduler's own flags: it finishes when the timer finds the cluster finished, or when it is served a
   finish heartbeat after which every registered node has sent one; it is ready with the first update that
   leaves the cluster ready.
   */
  lemma FinishStep(w: World, es: seq<Event>, e: Event)
    ensures var s, t := Exec(w, es), Exec(w, es + [e]);
      && (t.sched.isFinish <==>
            || s.sched.isFinish
            || (e.EvTimerFinish? && s.sched.mgr.finish)
            || (ServesFinishBeat(s, e) && t.past.finishBeats == t.past.Registered()))
      && (t.sched.isReady <==> s.sched.isReady || (e.EvTimerUpdate? && t.sched.mgr.ready))
  {
    hide Exec, NodeInv, RanksInv, MgrInv, OnReply, Act, Update, GiveUp;
    Reachable(w, es);
    Reachable(w, es + [e]);
    FinishedLaw(w, es + [e]);
    ExecOne(w, es, e);
    var s, t := Exec(w, es), Exec(w, es + [e]);
    SubsetSize(t.past.finishBeats, t.past.Registered());
    match e
    case EvServe(id, listing) =>
      if id in s.clients && id in w.members && s.clients[id].up != [] {
        ServeFinishFlag(w, s, id, listing);
      }
    case _ =>
  }

  lemma ServeFinishFlag(w: World, s: System, id: NodeId, listing: seq<NodeId>)
    requires id in s.clients && id in w.members && s.clients[id].up != []
    ensures var t := Serve(w, s, id, listing);
      && t.sched.isReady == s.sched.isReady
      && (t.sched.isFinish <==>
            || s.sched.isFinish
            || (s.clients[id].up[0] == Heartbeat(true) && |t.sched.mgr.finishBeats| == |t.sched.mgr.nodes|))
  {
    hide NextRank;
  }

  lemma CappedTotal(w: World)
    requires Capped(w)
    ensures (w.cfg.serverNum + w.cfg.workerNum) % U32_LIMIT == w.cfg.serverNum + w.cfg.workerNum
  {
  }

  lemma ExecOne(w: World, es: seq<Event>, e: Event)
    ensures Exec(w, es + [e]) == Next(w, Exec(w, es), e)
  {
    assert (es + [e])[..|es|] == es;
  }

  /**
   Why registering must come first: a heartbeat of an unknown id enters it with default data, and a later
   registration as a server then finds that entry. It is answered rank 0, whoever has that rank already,
   and the node is never listed as a server.
   */
  lemma HeartbeatBeforeRegistering(m: Manager, id: NodeId, address: Address, now: int, ids: seq<NodeId>)
    requires id !in m.nodes
    ensures NextRank(Beat(m, id, now), id, Server, address) == (Beat(m, id, now), 0)
    ensures Lists(Beat(m, id, now), ids) ==> id !in ids
  {
  }

  /**
   In every run: the registered nodes are exactly those in `order`, each listed once, and the rank of each is
   the number of earlier registrations of its role.
   */
  lemma RankLaw(w: World, es: seq<Event>)
    ensures var s := Exec(w, es); var m, order := s.sched.mgr, s.past.order;
      && (forall id :: id in order <==> id in m.nodes)
      && (forall i, j :: 0 <= i < j < |order| ==> order[i] != order[j])
      && (forall i :: 0 <= i < |order| ==>
            order[i] in m.nodes && m.nodes[order[i]].rank == CountRole(w, order[..i], m.nodes[order[i]].role))
  {
    hide Exec, NodeInv, CountRole, MgrInv;
    Reachable(w, es);
    var s := Exec(w, es);
    var order := s.past.order;
    forall i | 0 <= i < |order|
      ensures order[i] in s.sched.mgr.nodes
      ensures s.sched.mgr.nodes[order[i]].rank == CountRole(w, order[..i], s.sched.mgr.nodes[order[i]].role)
    {
      assert RankOk(w, s.sched.mgr.nodes, order, i);
    }
  }

  /** Within a role, whoever registered earlier has the lower rank. */
  lemma RankOrder(w: World, es: seq<Event>, i: nat, j: nat)
    requires i < j < |Exec(w, es).past.order|
    ensures var s := Exec(w, es); var m, order := s.sched.mgr, s.past.order;
      && order[i] in m.nodes && order[j] in m.nodes
      && (m.nodes[order[i]].role == m.nodes[order[j]].role ==> m.nodes[order[i]].rank < m.nodes[order[j]].rank)
  {
    hide Exec, NodeInv, CountRole;
    Reachable(w, es);
    var s := Exec(w, es);
    var order := s.past.order;
    assert RankOk(w, s.sched.mgr.nodes, order, i) && RankOk(w, s.sched.mgr.nodes, order, j);
    assert InfoOk(w, s.sched.mgr, order[i]);
    CountGrows(w, order, i, j, s.sched.mgr.nodes[order[i]].role);
  }

  lemma {:induction false} CountGrows(w: World, order: seq<NodeId>, i: nat, j: nat, role: Role)
    requires i <= j <= |order|
    ensures CountRole(w, order[..i], role) <= CountRole(w, order[..j], role)
    ensures i < j && order[i] in w.members && w.members[order[i]].role == role ==>
      CountRole(w, order[..i], role) < CountRole(w, order[..j], role)
    decreases j - i
  {
    if i < j {
      CountGrows(w, order, i, j - 1, role);
      assert order[..j] == order[..j - 1] + [order[j - 1]];
    }
  }

  /** The ranks of a role are exactly the numbers below its count: each one is taken by some node. */
  lemma RanksAreDense(w: World, es: seq<Event>, role: Role, r: nat) returns (id: NodeId)
    requires r < CountRole(w, Exec(w, es).past.order, role)
    ensures var m := Exec(w, es).sched.mgr; id in m.nodes && m.nodes[id].role == role && m.nodes[id].rank == r
  {
    hide Exec, NodeInv;
    Reachable(w, es);
    var s := Exec(w, es);
    var order := s.past.order;
    assert order[..|order|] == order;
    var i := Taken(w, order, |order|, role, r);
    id := order[i];
    assert RankOk(w, s.sched.mgr.nodes, order, i);
    assert InfoOk(w, s.sched.mgr, id);
  }

  lemma {:induction false} Taken(w: World, order: seq<NodeId>, n: nat, role: Role, r: nat) returns (i: nat)
    requires n <= |order| && r < CountRole(w, order[..n], role)
    ensures i < n && order[i] in w.members && w.members[order[i]].role == role && CountRole(w, order[..i], role) == r
  {
    assert order[..n][..n - 1] == order[..n - 1];
    if r < CountRole(w, order[..n - 1], role) {
      i := Taken(w, order, n - 1, role, r);
    } else {
      i := n - 1;
    }
  }

  /** And no rank reaches the count. */
  lemma RanksAreBounded(w: World, es: seq<Event>, id: NodeId)
    requires id in Exec(w, es).sched.mgr.nodes
    ensures var s := Exec(w, es);
      s.sched.mgr.nodes[id].rank < CountRole(w, s.past.order, s.sched.mgr.nodes[id].role)
  {
    hide Exec, NodeInv, CountRole;
    Reachable(w, es);
    var s := Exec(w, es);
    var order := s.past.order;
    assert id in order;
    var i :| 0 <= i < |order| && order[i] == id;
    assert RankOk(w, s.sched.mgr.nodes, order, i);
    assert InfoOk(w, s.sched.mgr, id);
    assert order[..|order|] == order;
    CountGrows(w, order, i, |order|, s.sched.mgr.nodes[id].role);
  }

  /** A node that got its registration answered knows its rank; asking again changes no entry. */
  lemma RegisteredRankLaw(w: World, es: seq<Event>, id: NodeId)
    requires id in Exec(w, es).clients && Settled(Exec(w, es).clients[id])
    ensures var s := Exec(w, es);
      && id in s.sched.mgr.nodes && s.clients[id].rank == s.sched.mgr.nodes[id].rank
      && id in w.members
      && NextRank(s.sched.mgr, id, w.members[id].role, w.members[id].address) == (s.sched.mgr, s.clients[id].rank)
  {
    hide Exec, RanksInv;
    Reachable(w, es);
    assert NodeInv(w, Exec(w, es), id);
  }

  function RoleIn(w: World, order: seq<NodeId>, role: Role): set<NodeId> {
    set id | id in order && id in w.members && w.members[id].role == role
  }

  lemma {:induction false} CountIsSize(w: World, order: seq<NodeId>, role: Role)
    requires forall i, j :: 0 <= i < j < |order| ==> order[i] != order[j]
    ensures CountRole(w, order, role) == |RoleIn(w, order, role)|
  {
    if order == [] {
      assert RoleIn(w, order, role) == {};
    } else {
      var n := |order| - 1;
      var last, before := order[n], RoleIn(w, order[..n], role);
      CountIsSize(w, order[..n], role);
      assert order == order[..n] + [last];
      assert last !in before;
      if last in w.members && w.members[last].role == role {
        assert RoleIn(w, order, role) == before + {last};
      } else {
        assert RoleIn(w, order, role) == before;
      }
    }
  }

  /** In a ready cluster of the configured size, exactly the configured servers are registered. */
  lemma ReadyMeansAllServers(w: World, m: Manager, ended: set<NodeId>, order: seq<NodeId>)
    requires MgrInv(w, m, ended) && RanksInv(w, m, order) && Trusted(w, m) && m.ready
    ensures CountRole(w, order, Server) == w.cfg.serverNum
  {
    hide CountRole, RankOk;
    CappedSize(w);
    CountIsSize(w, order, Server);
    assert RoleIn(w, order, Server) == IdsOf(w, Server);
  }

  /**
   With at least one server configured, no more nodes than configured and no availability timeout: a node
   whose fetch was answered holds an address for exactly the server ranks that the rank check accepts, and
   it is the address of the server with that rank. So the lookup before a connection never fails.
   */
  lemma FetchLaw(w: World, es: seq<Event>, id: NodeId, r: nat)
    requires w.cfg.serverNum >= 1 && Trusted(w, Exec(w, es).sched.mgr)
    requires id in Exec(w, es).clients && Exec(w, es).clients[id].phase == Fetched
    ensures var c := Exec(w, es).clients[id]; w.cfg.AcceptsRank(Server, r) <==> r in c.addresses
    ensures var s := Exec(w, es); var c := s.clients[id];
      r in c.addresses ==> exists server ::
        && server in w.members && w.members[server].role == Server && c.addresses[r] == w.members[server].address
        && server in s.sched.mgr.nodes && s.sched.mgr.nodes[server].rank == r
  {
    hide Exec, CountRole, Capped;
    var s := Exec(w, es);
    var c := s.clients[id];
    FetchedState(w, es, id);
    if r < w.cfg.serverNum {
      var server := RanksAreDense(w, es, Server, r);
      assert r in c.addresses;
    }
    if r in c.addresses {
      assert Known(s.sched.mgr.nodes, r, c.addresses[r]);
      var server :| IsServer(s.sched.mgr.nodes, server, r, c.addresses[r]);
      assert InfoOk(w, s.sched.mgr, server);
      RanksAreBounded(w, es, server);
    }
  }

  lemma FetchedState(w: World, es: seq<Event>, id: NodeId)
    requires Trusted(w, Exec(w, es).sched.mgr)
    requires id in Exec(w, es).clients && Exec(w, es).clients[id].phase == Fetched
    ensures var s := Exec(w, es); var m, c := s.sched.mgr, s.clients[id];
      && Sound(m.nodes, c.addresses) && Covers(m.nodes, c.addresses)
      && CountRole(w, s.past.order, Server) == w.cfg.serverNum < U32_LIMIT
      && (forall server :: server in m.nodes ==> InfoOk(w, m, server))
  {
    hide Exec, CountRole, RanksInv, Sound, Covers;
    Reachable(w, es);
    var s := Exec(w, es);
    assert NodeInv(w, s, id);
    ReadyMeansAllServers(w, s.sched.mgr, Ended(s.past), s.past.order);
  }
}
