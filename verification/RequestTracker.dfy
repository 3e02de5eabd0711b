/**
 Requests and their responses: a request to several ranks is given a fresh id and a count of the
 responses it expects; each response is stored, the last one runs the request's callback, which gathers
 the responses into the caller's output; a waiter returns when the counts agree or its time is up.

 All clients of a node share one event loop, so the handling of one response is one step. A waiter's
 return is one step too: it evaluates its predicate and erases the entry under the tracker's mutex.
 */
module RequestTracker {
  import opened Bytes
  import opened Cluster
  import opened Prelude

  /** Expected and actual number of responses, both 32-bit. */
  datatype Entry = Entry(expected: nat, actual: nat)
  {
    function Bump(): Entry { Entry(expected, (actual + 1) % U32_LIMIT) }
    predicate Agrees() { expected == actual }
    /** Whether the response being handled is the last one expected. */
    predicate Last() { expected == (actual + 1) % U32_LIMIT }
  }

  /** The node's fields. A callback is represented by the ranks it gathers. */
  datatype Node = Node(
    nextId: nat,
    tracker: map<nat, Entry>,
    callbacks: map<nat, seq<nat>>,
    messages: map<nat, map<nat, Ptr>>,
    outputs: map<nat, seq<Ptr>>)

  /** Looking a missing id up creates an entry that expects nothing. */
  function EntryOf(n: Node, id: nat): Entry {
    if id in n.tracker then n.tracker[id] else Entry(0, 0)
  }

  function MessagesOf(n: Node, id: nat): map<nat, Ptr> {
    if id in n.messages then n.messages[id] else map[]
  }

  function Gather(ranks: seq<nat>, res: map<nat, Ptr>): (out: seq<Ptr>)
    ensures |out| == |ranks|
  {
    seq(|ranks|, i requires 0 <= i < |ranks| => if ranks[i] in res then res[ranks[i]] else Null)
  }

  function AddTrack(n: Node, expected: nat): Node {
    n.(nextId := n.nextId + 1, tracker := n.tracker[n.nextId + 1 := Entry(expected % U32_LIMIT, 0)])
  }

  function SetCallback(n: Node, id: nat, ranks: seq<nat>): Node {
    n.(callbacks := n.callbacks[id := ranks])
  }

  function Store(n: Node, id: nat, rank: nat, data: seq<Byte>): Node {
    n.(messages := n.messages[id := MessagesOf(n, id)[rank := Vec(data)]])
  }

  function RunCallback(n: Node, id: nat): Node {
    var m := n.(tracker := n.tracker[id := EntryOf(n, id)]);
    if EntryOf(n, id).Last() && id in n.callbacks then
      m.(outputs := m.outputs[id := (if id in m.outputs then m.outputs[id] else []) +
                                    Gather(m.callbacks[id], MessagesOf(m, id))],
         messages := m.messages - {id},
         callbacks := m.callbacks - {id})
    else m
  }

  function Notify(n: Node, id: nat): Node {
    n.(tracker := n.tracker[id := EntryOf(n, id).Bump()])
  }

  /** The waiter's return: its result is the predicate, and the entry is gone. */
  function Wait(n: Node, id: nat): Node {
    n.(tracker := n.tracker - {id})
  }

  /** The handler of a data response. */
  function Respond(n: Node, id: nat, rank: nat, data: seq<Byte>): Node {
    Notify(RunCallback(Store(n, id, rank, data), id), id)
  }

  // ------------------------------------------------------------- all runs

  /** A request gathers its responses, stores them without a callback, or only counts them. */
  datatype Kind = Gathered | Stored | Counted

  datatype Response = Response(rank: nat, data: seq<Byte>)

  /**
   When the callback of a request that announced `announced` responses runs, counted in responses: at the
   one the 32-bit count first takes for the last; or, after a waiter erased the count, 2^32 responses later.
   */
  function Trigger(announced: nat): nat {
    if announced % U32_LIMIT == 0 then U32_LIMIT else announced % U32_LIMIT
  }

  function FiredIn(trigger: nat, waits: seq<nat>, count: nat): Option<nat> {
    if waits == [] then (if trigger <= count then Some(trigger) else None)
    else
      var last := waits[|waits| - 1];
      var before := FiredIn(trigger, waits[..|waits| - 1], last);
      if before.Some? then before else if last + U32_LIMIT <= count then Some(last + U32_LIMIT) else None
  }

  /** The history of one request. `reached` ranks were sent to before the send completed or threw. */
  datatype Request = Request(
    kind: Kind,
    ranks: seq<nat>,
    announced: nat,              // the number of responses announced to the tracker
    reached: nat,
    log: seq<Response>,          // responses handled, in order
    waits: seq<nat>)             // how many had been handled each time a waiter returned
  {
    predicate Sent() { reached == |ranks| == announced }
    predicate HasCallback() { kind == Gathered && announced == |ranks| }
    /** Every response came in, and none after a waiter had given up. */
    predicate Complete() { Sent() && |log| == |ranks| > 0 && (waits != [] ==> waits[0] == |ranks|) }
    /** The number of responses handled when the callback ran. */
    function Fired(): Option<nat> {
      if HasCallback() then FiredIn(Trigger(announced), waits, |log|) else None
    }
  }

  datatype System = System(node: Node, requests: map<nat, Request>)

  const START: System := System(Node(0, map[], map[], map[], map[]), map[])

  datatype Event =
    /** `data` items for `ranks`; the send throws after `reached` ranks when one is invalid or has no address. */
    | EvSend(kind: Kind, ranks: seq<nat>, dataCount: nat, reached: nat)
    | EvRespond(id: nat, rank: nat, data: seq<Byte>)
    | EvWait(id: nat)

  function RanksOf(log: seq<Response>): (rs: seq<nat>)
    ensures |rs| == |log|
  {
    seq(|log|, i requires 0 <= i < |log| => log[i].rank)
  }

  /** Each rank that was sent to answers once per message it was sent. */
  predicate MayRespond(q: Request, rank: nat) {
    multiset(RanksOf(q.log))[rank] < multiset(q.ranks[..Min(q.reached, |q.ranks|)])[rank]
  }

  function NewRequest(kind: Kind, ranks: seq<nat>, dataCount: nat, reached: nat): Request {
    Request(kind, ranks, dataCount, if |ranks| == dataCount then Min(reached, |ranks|) else 0, [], [])
  }

  /** A size mismatch throws after the id was taken and before the callback is set. */
  function NextSend(s: System, kind: Kind, ranks: seq<nat>, dataCount: nat, reached: nat): System {
    var id := s.node.nextId + 1;
    var n := AddTrack(s.node, dataCount);
    System(if |ranks| == dataCount && kind == Gathered then SetCallback(n, id, ranks) else n,
           s.requests[id := NewRequest(kind, ranks, dataCount, reached)])
  }

  function NextRespond(s: System, id: nat, rank: nat, data: seq<Byte>): System
    requires id in s.requests
  {
    var q := s.requests[id];
    System(if q.kind == Counted then Notify(s.node, id) else Respond(s.node, id, rank, data),
           s.requests[id := q.(log := q.log + [Response(rank, data)])])
  }

  function NextWait(s: System, id: nat): System {
    System(Wait(s.node, id),
           if id in s.requests
           then s.requests[id := s.requests[id].(waits := s.requests[id].waits + [|s.requests[id].log|])] else s.requests)
  }

  /** One step; a response nobody sends, or too large to copy, changes nothing. */
  function Next(s: System, e: Event): System {
    match e
    case EvSend(kind, ranks, dataCount, reached) => NextSend(s, kind, ranks, dataCount, reached)
    case EvRespond(id, rank, data) =>
      if id in s.requests && MayRespond(s.requests[id], rank) && |data| <= MEM_MAX_LEN
      then NextRespond(s, id, rank, data) else s
    case EvWait(id) => NextWait(s, id)
  }

  function Exec(es: seq<Event>): System {
    if es == [] then START else Next(Exec(es[..|es| - 1]), es[|es| - 1])
  }

  // ------------------------------------------------------------ invariant

  /** The latest response of each rank. */
  function Latest(log: seq<Response>): map<nat, Ptr> {
    if log == [] then map[] else Latest(log[..|log| - 1])[log[|log| - 1].rank := Vec(log[|log| - 1].data)]
  }

  /** What the node holds about one request. */
  datatype Cell = Cell(entry: Option<Entry>, callback: Option<seq<nat>>, messages: Option<map<nat, Ptr>>,
                       output: Option<seq<Ptr>>)

  function CellOf(n: Node, id: nat): Cell {
    Cell(if id in n.tracker then Some(n.tracker[id]) else None,
         if id in n.callbacks then Some(n.callbacks[id]) else None,
         if id in n.messages then Some(n.messages[id]) else None,
         if id in n.outputs then Some(n.outputs[id]) else None)
  }

  const EMPTY: Cell := Cell(None, None, None, None)

  predicate WaitsOk(waits: seq<nat>, count: nat) {
    waits != [] ==> waits[|waits| - 1] <= count && WaitsOk(waits[..|waits| - 1], waits[|waits| - 1])
  }

  predicate LogInv(q: Request) {
    q.reached <= |q.ranks| && (q.announced != |q.ranks| ==> q.reached == 0) &&
    multiset(RanksOf(q.log)) <= multiset(q.ranks[..q.reached]) && |q.log| <= q.reached &&
    WaitsOk(q.waits, |q.log|)
  }

  function EntryIn(entry: Option<Entry>): Entry {
    match entry
    case Some(e) => e
    case None => Entry(0, 0)
  }

  /** The count, modulo 2^32, since the request was announced or its count last erased. */
  predicate EntryInv(entry: Option<Entry>, q: Request) {
    if q.waits == [] then EntryIn(entry) == Entry(q.announced % U32_LIMIT, |q.log| % U32_LIMIT)
    else
      var last := q.waits[|q.waits| - 1];
      last <= |q.log| && EntryIn(entry) == Entry(0, (|q.log| - last) % U32_LIMIT)
  }

  /** The responses kept since the callback ran, if there are any. */
  function Pending(log: seq<Response>, fired: Option<nat>): Option<map<nat, Ptr>> {
    var from := if fired.Some? && fired.value <= |log| then fired.value else 0;
    if |log| == from then None else Some(Latest(log[from..]))
  }

  /** Whether a callback is still set, what is stored and what was output, as a function of the history. */
  predicate CellInv(c: Cell, q: Request) {
    && EntryInv(c.entry, q)
    && (q.Fired().Some? ==> 1 <= q.Fired().value <= |q.log|)
    && c.callback == (if q.HasCallback() && q.Fired().None? then Some(q.ranks) else None)
    && c.messages == (if q.kind == Counted then None else Pending(q.log, q.Fired()))
    && c.output == (if q.Fired().Some? then Some(Gather(q.ranks, Latest(q.log[..q.Fired().value]))) else None)
  }

  /** The whole invariant for one id. */
  predicate IdInv(s: System, id: nat) {
    && (id in s.requests <==> 1 <= id <= s.node.nextId)
    && (id !in s.requests ==> CellOf(s.node, id) == EMPTY)
    && (id in s.requests ==> LogInv(s.requests[id]))
    && (id in s.requests ==> CellInv(CellOf(s.node, id), s.requests[id]))
  }

  ghost predicate Inv(s: System) {
    forall id: nat :: IdInv(s, id)
  }

  // The effect of each step on one cell.

  function BumpedCell(c: Cell): Cell {
    c.(entry := Some(EntryIn(c.entry).Bump()))
  }

  function RespondedCell(c: Cell, rank: nat, data: seq<Byte>): Cell {
    var ms := (match c.messages case Some(m) => m case None => map[])[rank := Vec(data)];
    var e := EntryIn(c.entry);
    if e.Last() && c.callback.Some? then
      Cell(Some(e.Bump()), None, None,
           Some((match c.output case Some(o) => o case None => []) + Gather(c.callback.value, ms)))
    else Cell(Some(e.Bump()), c.callback, Some(ms), c.output)
  }

  lemma RespondCell(n: Node, id: nat, rank: nat, data: seq<Byte>, i: nat)
    ensures CellOf(Respond(n, id, rank, data), i) ==
      if i == id then RespondedCell(CellOf(n, i), rank, data) else CellOf(n, i)
    ensures Respond(n, id, rank, data).nextId == n.nextId
  {
    hide Entry.Last, Entry.Bump, Gather;
  }

  lemma NotifyCell(n: Node, id: nat, i: nat)
    ensures CellOf(Notify(n, id), i) == if i == id then BumpedCell(CellOf(n, i)) else CellOf(n, i)
  {
  }

  lemma SendCell(s: System, kind: Kind, ranks: seq<nat>, dataCount: nat, reached: nat, i: nat)
    ensures var id, n := s.node.nextId + 1, NextSend(s, kind, ranks, dataCount, reached).node;
      && (i != id ==> CellOf(n, i) == CellOf(s.node, i))
      && (CellOf(s.node, id) == EMPTY ==>
            CellOf(n, id) == Cell(Some(Entry(dataCount % U32_LIMIT, 0)),
                                  if |ranks| == dataCount && kind == Gathered then Some(ranks) else None, None, None))
      && n.nextId == id
  {
  }

  // Each step keeps the invariant of one cell.

  lemma RespondKeepsLog(q: Request, rank: nat, data: seq<Byte>)
    requires LogInv(q) && MayRespond(q, rank)
    ensures LogInv(q.(log := q.log + [Response(rank, data)]))
  {
    var log := q.log + [Response(rank, data)];
    assert RanksOf(log) == RanksOf(q.log) + [rank];
    var a, b := multiset(RanksOf(log)), multiset(q.ranks[..q.reached]);
    assert a == multiset(RanksOf(q.log)) + multiset{rank};
    assert a <= b;
    assert b == a + (b - a);
  }

  lemma LatestAppend(log: seq<Response>, r: Response)
    ensures Latest(log + [r]) == Latest(log)[r.rank := Vec(r.data)]
  {
    assert (log + [r])[..|log|] == log;
  }

  /** One more response: a callback that ran stays run, and otherwise it runs now exactly if this one looks last. */
  lemma FiredNext(q: Request, rank: nat, data: seq<Byte>)
    requires LogInv(q) && q.HasCallback()
    ensures var r := q.(log := q.log + [Response(rank, data)]);
      r.Fired() ==
        if q.Fired().Some? then q.Fired()
        else if (if q.waits == [] then |r.log| == Trigger(q.announced)
                 else |r.log| == q.waits[|q.waits| - 1] + U32_LIMIT) then Some(|r.log|)
        else None
  {
    hide RanksOf, Trigger;
  }

  lemma LastIsTrigger(announced: nat, count: nat)
    requires count < Trigger(announced)
    ensures Entry(announced % U32_LIMIT, count % U32_LIMIT).Last() <==> count + 1 == Trigger(announced)
  {
  }

  /** The response being handled looks last exactly when it makes the callback run. */
  lemma LastIffFires(c: Cell, q: Request, rank: nat, data: seq<Byte>)
    requires LogInv(q) && EntryInv(c.entry, q) && q.HasCallback() && q.Fired().None?
    ensures var r := q.(log := q.log + [Response(rank, data)]);
      r.Fired() == if EntryIn(c.entry).Last() then Some(|r.log|) else None
  {
    FiredNext(q, rank, data);
    if q.waits == [] {
      LastIsTrigger(q.announced, |q.log|);
    } else {
      hide RanksOf, Trigger;
      assert |q.log| < q.waits[|q.waits| - 1] + U32_LIMIT;
    }
  }

  lemma BumpKeepsEntry(entry: Option<Entry>, q: Request, rank: nat, data: seq<Byte>)
    requires EntryInv(entry, q)
    ensures EntryInv(Some(EntryIn(entry).Bump()), q.(log := q.log + [Response(rank, data)]))
  {
    var n := |q.log + [Response(rank, data)]|;
    assert n == |q.log| + 1;
    if q.waits == [] {
      WrapNext(n - 1);
    } else {
      WrapNext(n - 1 - q.waits[|q.waits| - 1]);
    }
  }

  lemma WrapNext(n: nat)
    ensures (n % U32_LIMIT + 1) % U32_LIMIT == (n + 1) % U32_LIMIT
  {
  }

  /** What is stored after one more response that does not run the callback. */
  lemma PendingNext(log: seq<Response>, fired: Option<nat>, r: Response)
    requires fired.Some? ==> 1 <= fired.value <= |log|
    ensures Pending(log + [r], fired) ==
      Some((match Pending(log, fired) case Some(m) => m case None => map[])[r.rank := Vec(r.data)])
  {
    var from := if fired.Some? then fired.value else 0;
    assert (log + [r])[from..] == log[from..] + [r];
    LatestAppend(log[from..], r);
  }

  lemma RespondKeeps(c: Cell, q: Request, rank: nat, data: seq<Byte>)
    requires CellInv(c, q) && q.kind != Counted && LogInv(q)
    ensures CellInv(RespondedCell(c, rank, data), q.(log := q.log + [Response(rank, data)]))
  {
    var resp := Response(rank, data);
    var r := q.(log := q.log + [resp]);
    BumpKeepsEntry(c.entry, q, rank, data);
    if q.HasCallback() {
      FiredNext(q, rank, data);
      if q.Fired().None? {
        LastIffFires(c, q, rank, data);
      }
    }
    hide LogInv, EntryInv, Entry.Last, Entry.Bump, Gather, Request.Fired, Latest, RanksOf;
    if r.Fired() == q.Fired() {
      PendingNext(q.log, q.Fired(), resp);
      assert q.Fired().Some? ==> r.log[..q.Fired().value] == q.log[..q.Fired().value];
    } else {
      PendingNext(q.log, None, resp);
      assert r.log[..|r.log|] == r.log && r.log[0..] == r.log;
      var out := Gather(q.ranks, Latest(r.log));
      assert [] + out == out;
    }
  }

  lemma BumpKeeps(c: Cell, q: Request, rank: nat, data: seq<Byte>)
    requires CellInv(c, q) && q.kind == Counted
    ensures CellInv(BumpedCell(c), q.(log := q.log + [Response(rank, data)]))
  {
    BumpKeepsEntry(c.entry, q, rank, data);
    hide EntryInv, Entry.Bump, Gather, Latest, Pending;
  }

  lemma WaitKeeps(c: Cell, q: Request)
    requires CellInv(c, q) && LogInv(q)
    ensures var r := q.(waits := q.waits + [|q.log|]);
      LogInv(r) && r.Fired() == q.Fired() && CellInv(c.(entry := None), r)
  {
    hide Gather, Latest, RanksOf, Pending, Trigger;
    assert (q.waits + [|q.log|])[..|q.waits|] == q.waits;
  }

  lemma RespondKept(s: System, id: nat, rank: nat, data: seq<Byte>, i: nat)
    requires IdInv(s, i) && IdInv(s, id) && id in s.requests && MayRespond(s.requests[id], rank)
    ensures IdInv(NextRespond(s, id, rank, data), i)
  {
    hide LogInv, CellInv, MayRespond, Respond, Notify, CellOf;
    RespondCell(s.node, id, rank, data, i);
    NotifyCell(s.node, id, i);
    var q := s.requests[id];
    RespondKeepsLog(q, rank, data);
    NotifyKeepsId(s.node, id);
    if i == id {
      if q.kind == Counted {
        BumpKeeps(CellOf(s.node, id), q, rank, data);
      } else {
        RespondKeeps(CellOf(s.node, id), q, rank, data);
      }
    }
  }

  lemma NotifyKeepsId(n: Node, id: nat)
    ensures Notify(n, id).nextId == n.nextId
  {
  }

  lemma WaitKept(s: System, id: nat, i: nat)
    requires IdInv(s, i)
    ensures IdInv(NextWait(s, id), i)
  {
    assert CellOf(Wait(s.node, id), i) == if i == id then CellOf(s.node, i).(entry := None) else CellOf(s.node, i);
    hide LogInv, CellInv, CellOf;
    if i == id && i in s.requests {
      WaitKeeps(CellOf(s.node, i), s.requests[i]);
    }
  }

  lemma SendKept(s: System, kind: Kind, ranks: seq<nat>, dataCount: nat, reached: nat, i: nat)
    requires IdInv(s, i) && IdInv(s, s.node.nextId + 1)
    ensures IdInv(NextSend(s, kind, ranks, dataCount, reached), i)
  {
    SendCell(s, kind, ranks, dataCount, reached, i);
    NewRequestInv(kind, ranks, dataCount, reached);
    hide LogInv, CellInv, CellOf, NewRequest, SetCallback, AddTrack;
  }

  lemma NewRequestInv(kind: Kind, ranks: seq<nat>, dataCount: nat, reached: nat)
    ensures var q := NewRequest(kind, ranks, dataCount, reached);
      && LogInv(q)
      && CellInv(Cell(Some(Entry(dataCount % U32_LIMIT, 0)),
                      if |ranks| == dataCount && kind == Gathered then Some(ranks) else None, None, None), q)
  {
    hide Gather, Latest;
    assert RanksOf([]) == [];
  }

  lemma InvKept(s: System, e: Event)
    requires Inv(s)
    ensures Inv(Next(s, e))
  {
    hide IdInv, NextSend, NextRespond, NextWait;
    forall i: nat ensures IdInv(Next(s, e), i) {
      match e
      case EvSend(kind, ranks, dataCount, reached) => SendKept(s, kind, ranks, dataCount, reached, i);
      case EvRespond(id, rank, data) =>
        if id in s.requests && MayRespond(s.requests[id], rank) { RespondKept(s, id, rank, data, i); }
      case EvWait(id) => WaitKept(s, id, i);
    }
  }

  lemma {:induction false} Reachable(es: seq<Event>)
    ensures Inv(Exec(es))
  {
    if es == [] {
      assert forall id: nat :: IdInv(START, id);
    } else {
      hide Next, Inv;
      Reachable(es[..|es| - 1]);
      InvKept(Exec(es[..|es| - 1]), es[|es| - 1]);
    }
  }

  // -------------------------------------------------------------- results

  /** The index of the last response from `rank`. */
  function LastFrom(log: seq<Response>, rank: nat): (j: nat)
    requires rank in RanksOf(log)
    ensures j < |log| && log[j].rank == rank && forall i :: j < i < |log| ==> log[i].rank != rank
  {
    var n := |log| - 1;
    if log[n].rank == rank then n else
      assert rank in RanksOf(log[..n]) by {
        var i :| 0 <= i < |log| && RanksOf(log)[i] == rank;
        assert RanksOf(log[..n])[i] == rank;
      }
      LastFrom(log[..n], rank)
  }

  lemma {:induction false} LatestFrom(log: seq<Response>, rank: nat)
    requires rank in RanksOf(log)
    ensures rank in Latest(log) && Latest(log)[rank] == Vec(log[LastFrom(log, rank)].data)
  {
    var n := |log| - 1;
    if log[n].rank != rank {
      var i :| 0 <= i < |log| && RanksOf(log)[i] == rank;
      assert RanksOf(log[..n])[i] == rank;
      LatestFrom(log[..n], rank);
    }
  }

  lemma SameMultiset(a: multiset<nat>, b: multiset<nat>)
    requires a <= b && |a| == |b|
    ensures a == b
  {
    assert b == a + (b - a);
  }

  lemma AllAnswered(q: Request, i: nat)
    requires LogInv(q) && q.Complete() && i < |q.ranks|
    ensures q.ranks[i] in RanksOf(q.log)
  {
    assert q.ranks[..q.reached] == q.ranks;
    SameMultiset(multiset(RanksOf(q.log)), multiset(q.ranks));
    assert q.ranks[i] in multiset(q.ranks);
  }

  /** The output entry of `rank`: its latest response among those in `log`, or null when it has none there. */
  function Answer(log: seq<Response>, rank: nat): Ptr {
    if rank in RanksOf(log) then Vec(log[LastFrom(log, rank)].data) else Null
  }

  lemma {:induction false} LatestIsAnswer(log: seq<Response>, rank: nat)
    ensures (if rank in Latest(log) then Latest(log)[rank] else Null) == Answer(log, rank)
  {
    if rank in RanksOf(log) {
      LatestFrom(log, rank);
    } else {
      LatestOnlyFrom(log, rank);
    }
  }

  lemma {:induction false} LatestOnlyFrom(log: seq<Response>, rank: nat)
    requires rank !in RanksOf(log)
    ensures rank !in Latest(log)
  {
    if log != [] {
      var n := |log| - 1;
      assert RanksOf(log)[n] == log[n].rank;
      assert forall i :: 0 <= i < n ==> RanksOf(log[..n])[i] == RanksOf(log)[i];
      LatestOnlyFrom(log[..n], rank);
    }
  }

  /**
   In every run and for any number of ranks: a gathering request has output if and only if its callback
   has run, and then it has one entry per rank, made of the responses handled up to that moment. Until a
   waiter returns, its predicate compares the two counts modulo 2^32.
   */
  lemma GatherLaw(es: seq<Event>, id: nat)
    requires id in Exec(es).requests && Exec(es).requests[id].HasCallback()
    ensures var s := Exec(es); var q := s.requests[id];
      && (id in s.node.outputs <==> q.Fired().Some?) && (id in s.node.callbacks <==> q.Fired().None?)
      && (q.waits == [] ==> (EntryOf(s.node, id).Agrees() <==> q.announced % U32_LIMIT == |q.log| % U32_LIMIT))
    ensures var s := Exec(es); var q := s.requests[id];
      q.Fired().Some? ==>
        && 1 <= q.Fired().value <= |q.log| && |s.node.outputs[id]| == |q.ranks|
        && forall i :: 0 <= i < |q.ranks| ==>
          s.node.outputs[id][i] == Answer(q.log[..q.Fired().value], q.ranks[i])
  {
    hide Next, Exec, Latest, LogInv, Trigger, FiredIn, Answer;
    Reachable(es);
    var s := Exec(es);
    var q := s.requests[id];
    assert IdInv(s, id);
    if q.Fired().Some? {
      forall i | 0 <= i < |q.ranks|
        ensures s.node.outputs[id][i] == Answer(q.log[..q.Fired().value], q.ranks[i])
      {
        LatestIsAnswer(q.log[..q.Fired().value], q.ranks[i]);
      }
    }
  }

  /** For every kind of request, a waiter's predicate compares the counts since the last waiter, modulo 2^32. */
  lemma WaitLaw(es: seq<Event>, id: nat)
    requires id in Exec(es).requests
    ensures var s := Exec(es); var q := s.requests[id];
      && (q.waits == [] ==> (EntryOf(s.node, id).Agrees() <==> q.announced % U32_LIMIT == |q.log| % U32_LIMIT))
      && (q.waits != [] ==> q.waits[|q.waits| - 1] <= |q.log|)
      && (q.waits != [] ==>
            (EntryOf(s.node, id).Agrees() <==> (|q.log| - q.waits[|q.waits| - 1]) % U32_LIMIT == 0))
  {
    hide Next, Exec, Latest, LogInv, Trigger, FiredIn;
    Reachable(es);
    assert IdInv(Exec(es), id);
  }

  /** A request without a callback keeps the latest response of every rank. */
  lemma StoredLaw(es: seq<Event>, id: nat, rank: nat)
    requires id in Exec(es).requests && Exec(es).requests[id].kind == Stored
    ensures var s := Exec(es); var q := s.requests[id];
      (if rank in MessagesOf(s.node, id) then MessagesOf(s.node, id)[rank] else Null) == Answer(q.log, rank)
  {
    hide Next, Exec, Latest, LogInv, Trigger, FiredIn, Answer;
    Reachable(es);
    var q := Exec(es).requests[id];
    assert IdInv(Exec(es), id);
    LatestIsAnswer(q.log, rank);
    assert q.log[0..] == q.log;
    EmptyLatest();
  }

  lemma EmptyLatest()
    ensures Latest([]) == map[]
  {
  }

  // -------------------------------------- requests that fit the 32-bit count

  lemma {:induction false} FiredSmall(trigger: nat, waits: seq<nat>, count: nat)
    requires WaitsOk(waits, count) && count < U32_LIMIT
    ensures waits != [] ==> waits[0] <= count
    ensures FiredIn(trigger, waits, count) ==
      if trigger <= (if waits == [] then count else waits[0]) then Some(trigger) else None
  {
    if waits != [] {
      FiredSmall(trigger, waits[..|waits| - 1], waits[|waits| - 1]);
    }
  }

  lemma CompleteIffFired(q: Request)
    requires LogInv(q) && q.HasCallback() && q.Sent() && q.announced < U32_LIMIT
    ensures q.Fired() == if q.Complete() then Some(|q.ranks|) else None
  {
    hide RanksOf;
    FiredSmall(Trigger(q.announced), q.waits, |q.log|);
  }

  /**
   What callers are promised about a request sent to all its ranks: it has output if and only if all
   responses came in before a waiter gave up; the entry of `ranks[i]` then is that rank's latest response;
   and until a waiter returns, its predicate holds exactly when the output is there.
   */
  ghost predicate Promised(s: System, id: nat)
    requires id in s.requests
  {
    var q := s.requests[id];
    && (id in s.node.outputs <==> q.Complete())
    && (q.waits == [] && q.ranks != [] ==> (EntryOf(s.node, id).Agrees() <==> id in s.node.outputs))
    && (q.Complete() ==> |s.node.outputs[id]| == |q.ranks| && forall i :: 0 <= i < |q.ranks| ==>
          q.ranks[i] in RanksOf(q.log) && s.node.outputs[id][i] == Answer(q.log, q.ranks[i]))
  }

  predicate SentTo(s: System, id: nat, ranks: seq<nat>) {
    id in s.requests && s.requests[id].kind == Gathered && s.requests[id].Sent() && s.requests[id].ranks == ranks
  }

  lemma PromiseKept(es: seq<Event>, id: nat)
    requires id in Exec(es).requests && SentTo(Exec(es), id, Exec(es).requests[id].ranks)
    requires |Exec(es).requests[id].ranks| < U32_LIMIT
    ensures Promised(Exec(es), id)
  {
    hide Next, Exec, Answer, CellInv, Trigger, FiredIn;
    GatherLaw(es, id);
    Reachable(es);
    var s := Exec(es);
    var q := s.requests[id];
    assert IdInv(s, id);
    CompleteIffFired(q);
    if q.Complete() {
      assert q.log[..|q.ranks|] == q.log;
      forall i | 0 <= i < |q.ranks| ensures q.ranks[i] in RanksOf(q.log) {
        AllAnswered(q, i);
      }
    }
  }

  // ----------------------------------------------- runs that make it respond

  lemma SomeoneOwes(a: multiset<nat>, b: multiset<nat>) returns (rank: nat)
    requires a <= b && |a| < |b|
    ensures a[rank] < b[rank]
  {
    assert b == a + (b - a);
    rank :| rank in b - a;
  }

  lemma ExecOne(es: seq<Event>, e: Event)
    ensures Exec(es + [e]) == Next(Exec(es), e)
  {
    assert (es + [e])[..|es|] == es;
  }

  /** In every reachable state, the ranks sent to can go on answering until any number of them has. */
  lemma {:induction false} RespondUntil(es: seq<Event>, id: nat, n: nat) returns (tail: seq<Event>)
    requires id in Exec(es).requests
    requires |Exec(es).requests[id].log| <= n <= Exec(es).requests[id].reached
    ensures var r := Exec(es + tail).requests;
      id in r && r[id] == Exec(es).requests[id].(log := r[id].log) && |r[id].log| == n
    decreases n - |Exec(es).requests[id].log|
  {
    hide Exec, CellInv, Respond, Notify;
    var q := Exec(es).requests[id];
    if |q.log| == n {
      tail := [];
      assert es + tail == es;
    } else {
      Reachable(es);
      assert IdInv(Exec(es), id);
      var rank := SomeoneOwes(multiset(RanksOf(q.log)), multiset(q.ranks[..q.reached]));
      var e := EvRespond(id, rank, []);
      ExecOne(es, e);
      var rest := RespondUntil(es + [e], id, n);
      tail := [e] + rest;
      assert es + [e] + rest == es + tail;
    }
  }

  /** A fresh request, sent to the first `reached` ranks, and answered `n` times. */
  lemma AnsweredRun(ranks: seq<nat>, reached: nat, n: nat) returns (es: seq<Event>)
    requires n <= reached <= |ranks|
    ensures var r := Exec(es).requests;
      1 in r && r[1] == Request(Gathered, ranks, |ranks|, reached, r[1].log, []) && |r[1].log| == n
  {
    var e := EvSend(Gathered, ranks, |ranks|, reached);
    var send := [e];
    assert [] + send == send;
    ExecOne([], e);
    assert Exec([]) == START;
    hide Exec;
    var tail := RespondUntil(send, 1, n);
    es := send + tail;
  }

  lemma PromiseBroken(ranks: seq<nat>) returns (es: seq<Event>)
    requires |ranks| >= U32_LIMIT
    ensures SentTo(Exec(es), 1, ranks) && !Promised(Exec(es), 1)
  {
    hide Exec, FiredIn;
    var n := |ranks| % U32_LIMIT;
    es := AnsweredRun(ranks, |ranks|, n);
    GatherLaw(es, 1);
    var q := Exec(es).requests[1];
    assert !q.Complete();
    FiredUnwaited(|ranks|, n);
  }

  lemma FiredUnwaited(announced: nat, n: nat)
    requires n == announced % U32_LIMIT
    ensures FiredIn(Trigger(announced), [], n) == if Trigger(announced) <= n then Some(n) else None
  {
  }

  /**
   The promise is kept in every run, if and only if the number of ranks fits the tracker's 32-bit count.
   Otherwise an early response is taken for the last one, or a waiter succeeds before any came in.
   */
  lemma CountLaw(ranks: seq<nat>)
    ensures (forall es, id :: SentTo(Exec(es), id, ranks) ==> Promised(Exec(es), id)) <==> |ranks| < U32_LIMIT
  {
    hide Exec, Promised;
    if |ranks| < U32_LIMIT {
      forall es, id | SentTo(Exec(es), id, ranks) ensures Promised(Exec(es), id) {
        PromiseKept(es, id);
      }
    } else {
      var es := PromiseBroken(ranks);
    }
  }

  /** A concrete request that breaks it: with 2^32 + 1 ranks one response yields the output, null for the others. */
  lemma WrappedCount() returns (es: seq<Event>)
    ensures var ranks := seq(U32_LIMIT + 1, i => i); var s := Exec(es);
      SentTo(s, 1, ranks) && |s.requests[1].log| == 1 && 1 in s.node.outputs &&
      exists i :: 0 <= i < |s.node.outputs[1]| && s.node.outputs[1][i] == Null
  {
    var ranks := seq(U32_LIMIT + 1, i => i);
    hide Exec, FiredIn;
    es := AnsweredRun(ranks, |ranks|, 1);
    GatherLaw(es, 1);
    FiredUnwaited(|ranks|, 1);
    var s := Exec(es);
    var log := s.requests[1].log;
    assert log[..1] == log && RanksOf(log) == [log[0].rank];
    var i := if log[0].rank == 0 then 1 else 0;
    assert ranks[i] !in RanksOf(log);
    assert s.node.outputs[1][i] == Null;
  }

  /** When the ranks are distinct, `outputs[i]` is the one response of `ranks[i]` that came in until the callback ran. */
  lemma DistinctRanksLaw(es: seq<Event>, id: nat, i: nat, j: nat)
    requires id in Exec(es).requests
    requires var q := Exec(es).requests[id];
      && q.HasCallback() && q.Fired().Some? && j < |q.log| && j < q.Fired().value
      && (forall a, b :: 0 <= a < b < |q.ranks| ==> q.ranks[a] != q.ranks[b])
      && i < |q.ranks| && q.log[j].rank == q.ranks[i]
    ensures var s := Exec(es);
      && id in s.node.outputs && i < |s.node.outputs[id]|
      && s.node.outputs[id][i] == Vec(s.requests[id].log[j].data)
  {
    hide Next, Exec, Latest, Trigger, FiredIn;
    Reachable(es);
    GatherLaw(es, id);
    var q := Exec(es).requests[id];
    assert IdInv(Exec(es), id);
    var log := q.log[..q.Fired().value];
    assert RanksOf(log)[j] == q.ranks[i];
    var l := LastFrom(log, q.ranks[i]);
    assert log[l] == q.log[l];
    if l != j {
      RankOnce(q, q.ranks[i]);
      TwiceIn(RanksOf(q.log), j, l);
      assert false;
    }
  }

  lemma RankOnce(q: Request, rank: nat)
    requires LogInv(q) && forall a, b :: 0 <= a < b < |q.ranks| ==> q.ranks[a] != q.ranks[b]
    ensures multiset(RanksOf(q.log))[rank] <= 1
  {
    OnceOnly(q.ranks[..q.reached], rank);
  }

  lemma {:induction false} OnceOnly(rs: seq<nat>, r: nat)
    requires forall a, b :: 0 <= a < b < |rs| ==> rs[a] != rs[b]
    ensures multiset(rs)[r] <= 1
  {
    if rs != [] {
      var n := |rs| - 1;
      OnceOnly(rs[..n], r);
      assert rs == rs[..n] + [rs[n]];
      if rs[n] == r {
        assert r !in rs[..n];
      }
    }
  }

  lemma TwiceIn(rs: seq<nat>, i: nat, j: nat)
    requires i < j < |rs| && rs[i] == rs[j]
    ensures multiset(rs)[rs[i]] >= 2
  {
    assert rs == rs[..j] + [rs[j]] + rs[j + 1..];
    assert rs[i] in rs[..j];
  }

  // ------------------------------------------------- aborted and late requests

  /** The callback has not run while too few responses came in, however often waiters returned. */
  lemma {:induction false} NotFired(trigger: nat, waits: seq<nat>, count: nat)
    requires WaitsOk(waits, count) && count < trigger <= U32_LIMIT
    ensures FiredIn(trigger, waits, count).None?
  {
    if waits != [] {
      NotFired(trigger, waits[..|waits| - 1], waits[|waits| - 1]);
    }
  }

  predicate ReachedOf(s: System, id: nat, ranks: seq<nat>, announced: nat, reached: nat) {
    id in s.requests && s.requests[id].kind == Gathered && s.requests[id].ranks == ranks &&
    s.requests[id].announced == announced && s.requests[id].reached == reached
  }

  lemma NeverOutput(es: seq<Event>, id: nat)
    requires id in Exec(es).requests
    requires var q := Exec(es).requests[id]; !q.HasCallback() || q.reached < Trigger(q.announced)
    ensures id !in Exec(es).node.outputs
  {
    hide Next, Exec, Latest;
    Reachable(es);
    assert IdInv(Exec(es), id);
    var q := Exec(es).requests[id];
    if q.HasCallback() {
      NotFired(Trigger(q.announced), q.waits, |q.log|);
    }
  }

  /**
   A send that threw on the way never runs its callback, whatever responses still come in, if and only if it
   threw before the callback was set or before it had reached as many ranks as the count takes for all.
   */
  lemma AbortedSendLaw(ranks: seq<nat>, announced: nat, reached: nat)
    requires reached < |ranks|
    ensures (forall es, id :: ReachedOf(Exec(es), id, ranks, announced, reached) ==> id !in Exec(es).node.outputs)
      <==> announced != |ranks| || reached < Trigger(announced)
  {
    hide Exec, Trigger;
    if announced != |ranks| || reached < Trigger(announced) {
      forall es, id | ReachedOf(Exec(es), id, ranks, announced, reached) ensures id !in Exec(es).node.outputs {
        NeverOutput(es, id);
      }
    } else {
      var es := AnsweredRun(ranks, reached, Trigger(announced));
      GatherLaw(es, 1);
      assert ReachedOf(Exec(es), 1, ranks, announced, reached);
    }
  }

  /** How the history of one request may change. */
  predicate Grows(q: Request, r: Request) {
    && r == q.(log := r.log, waits := r.waits)
    && q.log <= r.log && q.waits <= r.waits
  }

  lemma StepGrows(s: System, e: Event, id: nat)
    requires Inv(s) && id in s.requests
    ensures id in Next(s, e).requests && Grows(s.requests[id], Next(s, e).requests[id])
  {
    hide Respond, Notify, Wait, AddTrack, SetCallback, CellInv, LogInv, NewRequest;
    assert IdInv(s, id);
  }

  lemma {:induction false} RunGrows(es: seq<Event>, tail: seq<Event>, id: nat)
    requires id in Exec(es).requests
    ensures id in Exec(es + tail).requests && Grows(Exec(es).requests[id], Exec(es + tail).requests[id])
    decreases |tail|
  {
    if tail == [] {
      assert es + tail == es;
    } else {
      hide Next;
      var pre := es + tail[..|tail| - 1];
      RunGrows(es, tail[..|tail| - 1], id);
      assert (es + tail)[..|es + tail| - 1] == pre;
      Reachable(pre);
      StepGrows(Exec(pre), tail[|tail| - 1], id);
    }
  }

  /** A callback that had not run when a waiter returned runs 2^32 responses after a waiter at the earliest. */
  lemma {:induction false} FiredLate(trigger: nat, first: seq<nat>, count: nat, waits: seq<nat>, total: nat)
    requires first != [] && first <= waits && WaitsOk(waits, total) && first[|first| - 1] <= count
    requires FiredIn(trigger, first, count).None? && total < first[|first| - 1] + U32_LIMIT
    ensures FiredIn(trigger, waits, total).None?
    ensures first[|first| - 1] <= waits[|waits| - 1]
    decreases |waits|
  {
    var n := |waits| - 1;
    if |waits| == |first| {
      assert waits == first;
    } else {
      assert first <= waits[..n];
      FiredLate(trigger, first, count, waits[..n], waits[n]);
    }
  }

  /**
   After a waiter gave up on a request, no later run of any length produces output for it, if and only if
   fewer than 2^32 of its responses can still come in after that waiter.
   */
  lemma LateResponsesLaw(es: seq<Event>, id: nat)
    requires id in Exec(es).requests
    requires var q := Exec(es).requests[id]; q.HasCallback() && q.Fired().None? && q.waits != []
    ensures var q := Exec(es).requests[id];
      (forall tail :: id !in Exec(es + tail).node.outputs) <==> q.reached < q.waits[|q.waits| - 1] + U32_LIMIT
  {
    hide Next, Exec, Latest, Trigger, FiredIn, CellInv;
    Reachable(es);
    var q := Exec(es).requests[id];
    assert IdInv(Exec(es), id);
    var last := q.waits[|q.waits| - 1];
    if q.reached < last + U32_LIMIT {
      forall tail ensures id !in Exec(es + tail).node.outputs {
        StillNoOutput(es, tail, id);
      }
    } else {
      NotYet(q);
      var tail := RespondUntil(es, id, last + U32_LIMIT);
      GatherLaw(es + tail, id);
      FiredAtLast(Exec(es + tail).requests[id], q);
      assert id in Exec(es + tail).node.outputs;
    }
  }

  lemma StillNoOutput(es: seq<Event>, tail: seq<Event>, id: nat)
    requires id in Exec(es).requests && LogInv(Exec(es).requests[id])
    requires var q := Exec(es).requests[id];
      q.HasCallback() && q.Fired().None? && q.waits != [] && q.reached < q.waits[|q.waits| - 1] + U32_LIMIT
    ensures id !in Exec(es + tail).node.outputs
  {
    hide Next, Exec, Latest, Trigger, FiredIn, CellInv, RanksOf;
    var q := Exec(es).requests[id];
    RunGrows(es, tail, id);
    GatherLaw(es + tail, id);
    Reachable(es + tail);
    assert IdInv(Exec(es + tail), id);
    var r := Exec(es + tail).requests[id];
    FiredLate(Trigger(q.announced), q.waits, |q.log|, r.waits, |r.log|);
  }

  lemma NotYet(q: Request)
    requires LogInv(q) && q.HasCallback() && q.Fired().None? && q.waits != []
    ensures |q.log| < q.waits[|q.waits| - 1] + U32_LIMIT
  {
  }

  lemma FiredAtLast(r: Request, q: Request)
    requires q.HasCallback() && q.waits != [] && r == q.(log := r.log) && |r.log| == q.waits[|q.waits| - 1] + U32_LIMIT
    ensures r.Fired().Some?
  {
  }

  /** Ids are fresh, and a step for one id leaves everything about another one as it was. */
  lemma IsolationLaw(es: seq<Event>, e: Event, id: nat)
    requires id in Exec(es).requests && (e.EvSend? || e.id != id)
    ensures var s := Exec(es); var t := Next(s, e);
      && CellOf(t.node, id) == CellOf(s.node, id) && id in t.requests && t.requests[id] == s.requests[id]
      && (e.EvSend? ==> s.node.nextId + 1 !in s.requests)
  {
    hide Exec, LogInv, CellInv;
    Reachable(es);
    IsolationStep(Exec(es), e, id);
  }

  lemma IsolationStep(s: System, e: Event, id: nat)
    requires Inv(s) && id in s.requests && (e.EvSend? || e.id != id)
    ensures CellOf(Next(s, e).node, id) == CellOf(s.node, id)
    ensures id in Next(s, e).requests && Next(s, e).requests[id] == s.requests[id]
    ensures s.node.nextId + 1 !in s.requests
  {
    hide LogInv, CellInv, Respond, Notify, CellOf, AddTrack, SetCallback, NewRequest;
    assert IdInv(s, id) && IdInv(s, s.node.nextId + 1);
    match e
    case EvSend(kind, ranks, dataCount, reached) => SendCell(s, kind, ranks, dataCount, reached, id);
    case EvRespond(i, rank, data) =>
      RespondCell(s.node, i, rank, data, id);
      NotifyCell(s.node, i, id);
    case EvWait(i) => WaitCell(s.node, i, id);
  }

  lemma WaitCell(n: Node, id: nat, i: nat)
    ensures i != id ==> CellOf(Wait(n, id), i) == CellOf(n, i)
  {
  }

  // ----------------------------------------------------- node, as written

  class MessageTracker {
    var nextRequestId: nat
    var messageTracker: map<nat, Entry>
    var messageCallbacks: map<nat, seq<nat>>
    var receiveMessages: map<nat, map<nat, Ptr>>
    var outputs: map<nat, seq<Ptr>>

    ghost function View(): Node
      reads this
    {
      Node(nextRequestId, messageTracker, messageCallbacks, receiveMessages, outputs)
    }

    constructor ()
      ensures View() == START.node
    {
      nextRequestId := 0;
      messageTracker, messageCallbacks, receiveMessages, outputs := map[], map[], map[], map[];
    }

    method AddMessageTrack(expected: nat) returns (id: nat)
      modifies this
      ensures id == old(nextRequestId) + 1 && View() == AddTrack(old(View()), expected)
    {
      nextRequestId := nextRequestId + 1;
      id := nextRequestId;
      messageTracker := messageTracker[id := Entry(expected % U32_LIMIT, 0)];
    }

    method SetMessageCallback(id: nat, ranks: seq<nat>)
      modifies this
      ensures View() == SetCallback(old(View()), id, ranks)
    {
      messageCallbacks := messageCallbacks[id := ranks];
    }

    /** A send up to its first message: id, size check, callback. A size mismatch throws after the id was taken. */
    method BeginSend(kind: Kind, ranks: seq<nat>, dataCount: nat, ghost s: System, ghost reached: nat)
      returns (id: nat, ok: bool)
      requires View() == s.node
      modifies this
      ensures id == old(nextRequestId) + 1 && (ok <==> |ranks| == dataCount)
      ensures View() == NextSend(s, kind, ranks, dataCount, reached).node
    {
      hide NewRequest;
      id := AddMessageTrack(dataCount);
      if |ranks| != dataCount {
        return id, false;
      }
      if kind == Gathered {
        SetMessageCallback(id, ranks);
      }
      return id, true;
    }

    /** Stores a response; one too large to copy throws. */
    method ProcessSendDataResp(id: nat, rank: nat, data: seq<Byte>) returns (stored: bool)
      modifies this
      ensures stored <==> |data| <= MEM_MAX_LEN
      ensures View() == if stored then Store(old(View()), id, rank, data) else old(View())
    {
      if |data| > MEM_MAX_LEN {
        return false;
      }
      var res: map<nat, Ptr> := map[];
      if id in receiveMessages {
        res := receiveMessages[id];
      }
      res := res[rank := Vec(data)];
      receiveMessages := receiveMessages[id := res];
      return true;
    }

    method CheckMessageTrack(id: nat) returns (last: bool)
      modifies this
      ensures View() == old(View()).(tracker := old(messageTracker)[id := EntryOf(old(View()), id)])
      ensures last <==> EntryOf(old(View()), id).Last()
    {
      if id !in messageTracker {
        messageTracker := messageTracker[id := Entry(0, 0)];
      } else {
        assert messageTracker[id := messageTracker[id]] == messageTracker;
      }
      last := messageTracker[id].expected == (messageTracker[id].actual + 1) % U32_LIMIT;
    }

    /** Runs and erases the callback of a request whose last response is being handled. */
    method RunMessageCallback(id: nat)
      modifies this
      ensures View() == RunCallback(old(View()), id)
    {
      var last := CheckMessageTrack(id);
      if last && id in messageCallbacks {
        var res := if id in receiveMessages then receiveMessages[id] else map[];
        var ranks := messageCallbacks[id];
        var out := if id in outputs then outputs[id] else [];
        ghost var before := out;
        for i := 0 to |ranks|
          invariant out == before + Gather(ranks, res)[..i]
        {
          out := out + [if ranks[i] in res then res[ranks[i]] else Null];
          assert Gather(ranks, res)[..i + 1] == Gather(ranks, res)[..i] + [Gather(ranks, res)[i]];
        }
        assert Gather(ranks, res)[..|ranks|] == Gather(ranks, res);
        outputs := outputs[id := out];
        receiveMessages := receiveMessages - {id};
        messageCallbacks := messageCallbacks - {id};
      }
    }

    method NotifyMessageArrival(id: nat)
      modifies this
      ensures View() == Notify(old(View()), id)
    {
      var entry := if id in messageTracker then messageTracker[id] else Entry(0, 0);
      messageTracker := messageTracker[id := Entry(entry.expected, (entry.actual + 1) % U32_LIMIT)];
    }

    /** The client's handler of a data response. */
    method HandleSendData(id: nat, rank: nat, data: seq<Byte>)
      modifies this
      ensures View() == if |data| <= MEM_MAX_LEN then Respond(old(View()), id, rank, data) else old(View())
    {
      hide RunCallback, Notify, Store;
      var stored := ProcessSendDataResp(id, rank, data);
      if !stored {
        return;
      }
      RunMessageCallback(id);
      NotifyMessageArrival(id);
    }

    /** The waiter's last look at its predicate, by arrival of the last response or at its deadline. */
    method WaitReturns(id: nat) returns (success: bool)
      modifies this
      ensures success <==> EntryOf(old(View()), id).Agrees()
      ensures View() == Wait(old(View()), id)
    {
      var entry := if id in messageTracker then messageTracker[id] else Entry(0, 0);
      success := entry.expected == entry.actual;
      messageTracker := messageTracker - {id};
    }
  }
}
