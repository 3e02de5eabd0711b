/**
 What a node gets when it asks: from every reachable state in which none of its messages is under way, a
 registration is answered, a heartbeat reports the cluster's flags as they are, a node of a ready cluster can
 start, and a started node can fetch the servers.
 */
module SchedulerRuns {
  import opened Bytes
  import opened Cluster
  import opened NodeManager
  import opened Prelude
  import opened Scheduler
  import opened SchedulerLaws

  /** Nothing of node `id` is under way. */
  predicate Idle(s: System, id: NodeId) {
    id in s.clients && s.clients[id].up == [] && s.clients[id].down == []
  }

  lemma ExecThree(w: World, es: seq<Event>, a: Event, b: Event, c: Event)
    ensures Exec(w, es + [a, b, c]) == Next(w, Next(w, Next(w, Exec(w, es), a), b), c)
  {
    hide Exec, Next;
    ExecOne(w, es, a);
    ExecOne(w, es + [a], b);
    ExecOne(w, es + [a] + [b], c);
    assert es + [a] + [b] + [c] == es + [a, b, c];
  }

  lemma IsMember(w: World, es: seq<Event>, id: NodeId)
    requires id in Exec(w, es).clients
    ensures id in w.members
  {
    hide Exec, MgrInv, RanksInv, ClientInv, FinishOk;
    Reachable(w, es);
    assert NodeInv(w, Exec(w, es), id);
  }

  // -------------------------------------------------------------- heartbeat

  /** What a node knows after a report of the manager's flags. */
  function Informed(c: Client, listens: bool, m: Manager): Client {
    c.(ready := m.ready || (m.timeout && listens),
       finish := c.finish || m.finish,
       timeout := m.timeout,
       up := if m.finish then [Heartbeat(true)] else [])
  }

  lemma HeartbeatSent(w: World, s: System, id: NodeId)
    requires Idle(s, id) && Settled(s.clients[id]) && !s.clients[id].finish
    ensures var t := Next(w, s, EvHeartbeat(id));
      t == s.(clients := s.clients[id := s.clients[id].(up := [Heartbeat(false)])])
  {
    assert s.clients[id].up + [Heartbeat(false)] == [Heartbeat(false)];
  }

  lemma HeartbeatServed(w: World, s: System, id: NodeId)
    requires id in s.clients && id in w.members && s.clients[id].up == [Heartbeat(false)] && s.clients[id].down == []
    ensures var t := Next(w, s, EvServe(id, []));
      && t.clients == s.clients[id := s.clients[id].(up := [], down := [Report(t.sched.mgr)])]
      && SameFlags(s.sched.mgr, t.sched.mgr) && t.past.heard == s.past.heard[id := s.clock]
  {
    HeartbeatFlags(s.sched, id, false, s.clock);
    hide OnHeartbeat, Report;
    var c, n := s.clients[id], OnHeartbeat(s.sched, id, false, s.clock).mgr;
    assert c.up[1..] == [] && c.down + [Report(n)] == [Report(n)];
  }

  lemma ReportReceived(w: World, s: System, id: NodeId, c: Client)
    requires id in s.clients && id in w.members && c.up == [] && c.down == []
    requires s.clients[id] == c.(down := [Report(s.sched.mgr)])
    ensures var t := Next(w, s, EvReceive(id));
      t == s.(clients := s.clients[id := Informed(c, w.members[id].listens, s.sched.mgr)])
  {
    assert s.clients[id].down[1..] == [] && [] + [Heartbeat(true)] == [Heartbeat(true)];
  }

  /** A heartbeat of a node that has not finished tells it the cluster's flags, all of them and as they are. */
  lemma HeartbeatLaw(w: World, es: seq<Event>, id: NodeId)
    requires Idle(Exec(w, es), id) && Settled(Exec(w, es).clients[id]) && !Exec(w, es).clients[id].finish
    ensures id in w.members
    ensures var s, t := Exec(w, es), Exec(w, es + [EvHeartbeat(id), EvServe(id, []), EvReceive(id)]);
      && id in t.clients && t.clients[id] == Informed(s.clients[id], w.members[id].listens, s.sched.mgr)
      && SameFlags(s.sched.mgr, t.sched.mgr) && t.past.heard == s.past.heard[id := s.clock]
  {
    hide Exec, Next, Settled;
    IsMember(w, es, id);
    ExecThree(w, es, EvHeartbeat(id), EvServe(id, []), EvReceive(id));
    var s := Exec(w, es);
    HeartbeatSent(w, s, id);
    var t := Next(w, s, EvHeartbeat(id));
    HeartbeatServed(w, t, id);
    var u := Next(w, t, EvServe(id, []));
    ReportReceived(w, u, id, s.clients[id]);
  }

  /** In a ready cluster every node that waits can start. */
  lemma StartLaw(w: World, es: seq<Event>, id: NodeId) returns (tail: seq<Event>)
    requires Idle(Exec(w, es), id) && Exec(w, es).clients[id].phase == Waiting && Exec(w, es).sched.mgr.ready
    ensures id in Exec(w, es + tail).clients && Exec(w, es + tail).clients[id].phase == Started
  {
    hide Exec, Serve, OnReply;
    var s := Exec(w, es);
    if s.clients[id].finish {
      FinishedIsReady(w, es, id);
      tail := [EvProceed(id)];
      ExecOne(w, es, EvProceed(id));
    } else {
      var asked := [EvHeartbeat(id), EvServe(id, []), EvReceive(id)];
      HeartbeatLaw(w, es, id);
      ExecOne(w, es + asked, EvProceed(id));
      tail := asked + [EvProceed(id)];
      assert es + asked + [EvProceed(id)] == es + tail;
    }
  }

  lemma FinishedIsReady(w: World, es: seq<Event>, id: NodeId)
    requires id in Exec(w, es).clients && Exec(w, es).clients[id].finish
    ensures Exec(w, es).clients[id].ready
  {
    hide Exec, MgrInv, RanksInv, QueuesOk, ChainOk, KnowsOk, FinishOk;
    Reachable(w, es);
    assert NodeInv(w, Exec(w, es), id);
  }

  /** In a finished cluster a node that asks finishes, and answers with a finish heartbeat. */
  lemma NodeFinishes(w: World, es: seq<Event>, id: NodeId)
    requires Idle(Exec(w, es), id) && Settled(Exec(w, es).clients[id]) && !Exec(w, es).clients[id].finish
    requires Exec(w, es).sched.mgr.finish
    ensures var t := Exec(w, es + [EvHeartbeat(id), EvServe(id, []), EvReceive(id)]);
      id in t.clients && t.clients[id].finish && t.clients[id].up == [Heartbeat(true)]
  {
    hide Exec, Settled;
    HeartbeatLaw(w, es, id);
  }

  // ------------------------------------------------------------ registration

  lemma RegisterSent(w: World, s: System, id: NodeId)
    requires Idle(s, id) && s.clients[id].phase == Created
    ensures var t := Next(w, s, EvRegister(id));
      t == s.(clients := s.clients[id := s.clients[id].(up := [Register], phase := Registering)])
  {
    assert s.clients[id].up + [Register] == [Register];
  }

  lemma RegisterServed(w: World, s: System, id: NodeId)
    requires Inv(w, s) && id in s.clients && id in w.members && w.members[id].role != Role.Scheduler
    requires s.clients[id].up == [Register] && s.clients[id].down == []
    ensures var t := Next(w, s, EvServe(id, []));
      && id in t.clients && t.clients[id].up == [] && t.clients[id].phase == s.clients[id].phase
      && (exists rank :: t.clients[id].down == [Registered(rank)])
      && t.past.order == (if id in s.past.order then s.past.order else s.past.order + [id])
  {
    hide MgrInv, NodeInv, Exact, SchedInv, RankOk, CountRole, Beat;
    OrderKnows(w, s.sched.mgr, s.past.order, id);
    var (m, rank) := NextRank(s.sched.mgr, id, w.members[id].role, w.members[id].address);
    assert rank >= 0;
    assert Next(w, s, EvServe(id, [])).clients[id].down == [Registered(rank)];
  }

  lemma AnswerReceived(w: World, s: System, id: NodeId, rank: int)
    requires id in s.clients && id in w.members && s.clients[id].down == [Registered(rank)]
    requires s.clients[id].phase == Registering
    ensures var t := Next(w, s, EvReceive(id));
      id in t.clients && t.clients[id].phase == Waiting && t.past == s.past
  {
  }

  /** A server or worker that registers is answered: it is entered last, unless it was known, and goes on to wait. */
  lemma RegisterLaw(w: World, es: seq<Event>, id: NodeId)
    requires Idle(Exec(w, es), id) && Exec(w, es).clients[id].phase == Created
    requires id in w.members && w.members[id].role != Role.Scheduler
    ensures var s, t := Exec(w, es), Exec(w, es + [EvRegister(id), EvServe(id, []), EvReceive(id)]);
      && id in t.clients && t.clients[id].phase == Waiting
      && t.past.order == (if id in s.past.order then s.past.order else s.past.order + [id])
      && id in t.sched.mgr.nodes && t.clients[id].rank == t.sched.mgr.nodes[id].rank
  {
    var run := [EvRegister(id), EvServe(id, []), EvReceive(id)];
    hide Exec, Next, Inv;
    ExecThree(w, es, EvRegister(id), EvServe(id, []), EvReceive(id));
    ExecOne(w, es, EvRegister(id));
    var s := Exec(w, es);
    RegisterSent(w, s, id);
    Reachable(w, es + [EvRegister(id)]);
    var t := Next(w, s, EvRegister(id));
    RegisterServed(w, t, id);
    var u := Next(w, t, EvServe(id, []));
    var rank :| u.clients[id].down == [Registered(rank)];
    AnswerReceived(w, u, id, rank);
    RegisteredRankLaw(w, es + run, id);
  }

  // ------------------------------------------------------------------ fetch

  lemma {:induction false} Enumerated(ids: set<NodeId>) returns (list: seq<NodeId>)
    ensures forall i, j :: 0 <= i < j < |list| ==> list[i] != list[j]
    ensures forall id :: id in list <==> id in ids
    decreases |ids|
  {
    list := [];
    if ids != {} {
      Inhabited(ids);
      var id :| id in ids;
      var rest := Enumerated(ids - {id});
      list := rest + [id];
    }
  }

  /** A started node that saw no timeout can fetch, and then holds the addresses of some listing of all servers. */
  lemma FetchReached(w: World, es: seq<Event>, id: NodeId) returns (listing: seq<NodeId>)
    requires Idle(Exec(w, es), id) && Exec(w, es).clients[id].phase == Started && !Exec(w, es).clients[id].timeout
    ensures Lists(Exec(w, es).sched.mgr, listing)
    ensures var s, t := Exec(w, es), Exec(w, es + [EvFetch(id), EvServe(id, listing), EvReceive(id)]);
      && id in t.clients && t.clients[id].phase == Fetched
      && t.clients[id].addresses == Learn(s.clients[id].addresses, Metas(s.sched.mgr, listing))
  {
    var s := Exec(w, es);
    listing := Enumerated(set k | k in s.sched.mgr.nodes && s.sched.mgr.nodes[k].role == Server);
    IsMember(w, es, id);
    hide Exec, Next, Lists, Metas, Learn;
    assert Lists(s.sched.mgr, listing) by { ListsAll(s.sched.mgr, listing); }
    ExecThree(w, es, EvFetch(id), EvServe(id, listing), EvReceive(id));
    FetchSteps(w, s, id, listing);
  }

  lemma ListsAll(m: Manager, ids: seq<NodeId>)
    requires forall i, j :: 0 <= i < j < |ids| ==> ids[i] != ids[j]
    requires forall id :: id in ids <==> id in m.nodes && m.nodes[id].role == Server
    ensures Lists(m, ids)
  {
  }

  lemma FetchSent(w: World, s: System, id: NodeId)
    requires Idle(s, id) && s.clients[id].phase == Started && !s.clients[id].timeout
    ensures var t := Next(w, s, EvFetch(id));
      t == s.(clients := s.clients[id := s.clients[id].(up := [FetchServers], phase := Fetching)])
  {
    assert s.clients[id].up + [FetchServers] == [FetchServers];
  }

  lemma FetchServed(w: World, s: System, id: NodeId, listing: seq<NodeId>)
    requires id in s.clients && id in w.members && s.clients[id].up == [FetchServers] && s.clients[id].down == []
    requires Lists(s.sched.mgr, listing)
    ensures var t, reply := Next(w, s, EvServe(id, listing)), Servers(Metas(s.sched.mgr, listing));
      t == s.(clients := s.clients[id := s.clients[id].(up := [], down := [reply])])
  {
    var c, reply := s.clients[id], Servers(Metas(s.sched.mgr, listing));
    hide Metas, Lists;
    assert c.up[1..] == [] && c.down + [reply] == [reply];
  }

  lemma ServersReceived(w: World, s: System, id: NodeId, metas: seq<ServerMeta>)
    requires id in s.clients && id in w.members && s.clients[id].down == [Servers(metas)]
    requires s.clients[id].phase == Fetching
    ensures var t := Next(w, s, EvReceive(id));
      && id in t.clients && t.clients[id].phase == Fetched
      && t.clients[id].addresses == Learn(s.clients[id].addresses, metas)
  {
    hide Learn;
  }

  lemma FetchSteps(w: World, s: System, id: NodeId, listing: seq<NodeId>)
    requires Idle(s, id) && id in w.members && s.clients[id].phase == Started && !s.clients[id].timeout
    requires Lists(s.sched.mgr, listing)
    ensures var t := Next(w, Next(w, Next(w, s, EvFetch(id)), EvServe(id, listing)), EvReceive(id));
      && id in t.clients && t.clients[id].phase == Fetched
      && t.clients[id].addresses == Learn(s.clients[id].addresses, Metas(s.sched.mgr, listing))
  {
    var metas := Metas(s.sched.mgr, listing);
    hide Next, Metas, Lists, Learn;
    FetchSent(w, s, id);
    FetchServed(w, Next(w, s, EvFetch(id)), id, listing);
    ServersReceived(w, Next(w, Next(w, s, EvFetch(id)), EvServe(id, listing)), id, metas);
  }
}
