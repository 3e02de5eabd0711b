/**
 Collective receive: a receiver posts "the next message from rank r, into this output", messages arrive
 from the event loop, and the two meet on (rank, sequence number) whichever comes first.

 The handler of an arriving message works in three separately locked sections: it stores the message and
 looks for a callback, it runs the callback, it erases the callback. `Next` interleaves those sections
 and the posts in every possible way.
 */
module Rendezvous {
  import opened Bytes
  import opened Cluster
  import opened Prelude

  datatype Key = Key(rank: nat, number: nat)

  /** The node's fields. An output pointer is identified by a slot of `memory`. */
  datatype Node = Node(
    expected: map<nat, nat>,
    actual: map<nat, nat>,
    received: map<Key, Ptr>,
    callbacks: map<Key, nat>,
    done: map<Key, bool>,
    memory: map<nat, Ptr>,
    wedged: bool,    // the mutex was left locked by an exception
    dangling: bool)  // an erased callback was run or erased again

  /** Posts a receive from `rank` into `slot`: completed at once when the message is already here. */
  function Post(n: Node, rank: nat, slot: nat): Node {
    var key := Key(rank, Counter(n.expected, rank) + 1);
    var m := n.(expected := n.expected[rank := key.number], done := n.done[key := false]);
    if key in n.received then
      m.(memory := m.memory[slot := m.received[key]], received := m.received - {key}, done := m.done[key := true])
    else
      m.(callbacks := m.callbacks[key := slot])
  }

  /** First section of the handler: numbers the message and stores it. The copy may be refused. */
  function Arrive(n: Node, rank: nat, data: seq<Byte>): Node {
    var key := Key(rank, Counter(n.actual, rank) + 1);
    var m := n.(actual := n.actual[rank := key.number]);
    if CopyAccepts(|data|) then m.(received := m.received[key := Vec(data)]) else m.(wedged := true)
  }

  /** Second section: the callback moves the message to its output. */
  function Fire(n: Node, key: Key): Node {
    if key !in n.callbacks then n.(dangling := true)
    else
      var res := if key in n.received then n.received[key] else Null;
      n.(memory := n.memory[n.callbacks[key] := res], received := n.received - {key}, done := n.done[key := true])
  }

  /** Third section. */
  function Erase(n: Node, key: Key): Node {
    if key !in n.callbacks then n.(dangling := true) else n.(callbacks := n.callbacks - {key})
  }

  /** `CollectiveWait` looks its request up, and so creates a missing entry. */
  function Look(n: Node, key: Key): Node {
    if key in n.done then n else n.(done := n.done[key := false])
  }

  // ------------------------------------------------------------- all runs

  /** What a handler still has to do. */
  datatype Phase = MustFire | MustErase

  datatype Write = Write(key: Key, slot: nat, value: Ptr)

  /** The node, the handlers between their sections, and the history of the run. */
  datatype System = System(
    node: Node,
    handlers: map<Key, Phase>,
    posts: map<nat, seq<nat>>,
    arrivals: map<nat, seq<seq<Byte>>>,
    writes: seq<Write>)
  {
    function Posted(rank: nat): seq<nat> { if rank in posts then posts[rank] else [] }
    function Arrived(rank: nat): seq<seq<Byte>> { if rank in arrivals then arrivals[rank] else [] }
    predicate Done(key: Key) { key in node.done && node.done[key] }
    predicate Firing(key: Key) { key in handlers && handlers[key] == MustFire }
    predicate Quiescent() { handlers == map[] }
  }

  const START: System :=
    System(Node(map[], map[], map[], map[], map[], map[], false, false), map[], map[], map[], [])

  datatype Event =
    | EvPost(role: Role, rank: nat, slot: nat)
    | EvArrive(rank: nat, data: seq<Byte>)
    | EvFire(key: Key)
    | EvErase(key: Key)
    | EvWait(key: Key)

  function NextPost(s: System, rank: nat, slot: nat): System {
    var key := Key(rank, Counter(s.node.expected, rank) + 1);
    s.(node := Post(s.node, rank, slot),
       posts := s.posts[rank := s.Posted(rank) + [slot]],
       writes := if key in s.node.received then s.writes + [Write(key, slot, s.node.received[key])] else s.writes)
  }

  function NextArrive(s: System, rank: nat, data: seq<Byte>): System {
    var key := Key(rank, Counter(s.node.actual, rank) + 1);
    var n := Arrive(s.node, rank, data);
    if n.wedged then s.(node := n)
    else s.(node := n,
            arrivals := s.arrivals[rank := s.Arrived(rank) + [data]],
            handlers := if key in n.callbacks then s.handlers[key := MustFire] else s.handlers)
  }

  function NextFire(s: System, key: Key): System {
    s.(node := Fire(s.node, key),
       handlers := s.handlers[key := MustErase],
       writes := if key in s.node.callbacks
                 then s.writes + [Write(key, s.node.callbacks[key],
                                        if key in s.node.received then s.node.received[key] else Null)]
                 else s.writes)
  }

  function NextErase(s: System, key: Key): System {
    s.(node := Erase(s.node, key), handlers := s.handlers - {key})
  }

  /** One step of the system. An event that cannot happen, or waits for a mutex left locked, changes nothing. */
  function Next(cfg: Config, s: System, e: Event): System {
    if s.node.wedged then s else
    match e
    case EvPost(role, rank, slot) => if cfg.AcceptsRank(role, rank) then NextPost(s, rank, slot) else s
    case EvArrive(rank, data) => NextArrive(s, rank, data)
    case EvFire(key) => if s.Firing(key) then NextFire(s, key) else s
    case EvErase(key) =>
      if key in s.handlers && s.handlers[key] == MustErase
      then NextErase(s, key) else s
    case EvWait(key) => s.(node := Look(s.node, key))
  }

  function Exec(cfg: Config, es: seq<Event>): System {
    if es == [] then START else Next(cfg, Exec(cfg, es[..|es| - 1]), es[|es| - 1])
  }

  // ------------------------------------------------------------ invariant

  /** The writes made for one receive, in order. */
  function WritesFor(ws: seq<Write>, key: Key): (r: seq<Write>)
    ensures |r| <= |ws|
    ensures forall w :: w in r <==> w in ws && w.key == key
  {
    if ws == [] then []
    else
      var w := ws[|ws| - 1];
      assert ws == ws[..|ws| - 1] + [w];
      WritesFor(ws[..|ws| - 1], key) + (if w.key == key then [w] else [])
  }

  /** What the writes leave in the outputs. */
  function Memory(ws: seq<Write>): map<nat, Ptr> {
    if ws == [] then map[] else Memory(ws[..|ws| - 1])[ws[|ws| - 1].slot := ws[|ws| - 1].value]
  }

  /** Everything the system holds about one pair (rank, number). */
  datatype Cell = Cell(data: Option<Ptr>, slot: Option<nat>, done: bool, phase: Option<Phase>, log: seq<Write>)

  function CellOf(s: System, key: Key): Cell {
    Cell(if key in s.node.received then Some(s.node.received[key]) else None,
         if key in s.node.callbacks then Some(s.node.callbacks[key]) else None,
         s.Done(key),
         if key in s.handlers then Some(s.handlers[key]) else None,
         WritesFor(s.writes, key))
  }

  /** The one write that completes the receive `key`: the matching message into the output it was posted with. */
  function Completion(key: Key, posted: seq<nat>, arrived: seq<seq<Byte>>): Write
    requires 1 <= key.number <= |posted| && key.number <= |arrived|
  {
    Write(key, posted[key.number - 1], Vec(arrived[key.number - 1]))
  }

  /** Where a pair stands, as a function of its rank's receives and messages so far. */
  predicate CellInv(c: Cell, posted: seq<nat>, arrived: seq<seq<Byte>>, key: Key) {
    var k := key.number;
    && (c.phase.Some? ==> 1 <= k <= |posted| && k <= |arrived|)
    && c.data == (if |posted| < k <= |arrived| || (c.phase == Some(MustFire) && k <= |arrived|)
                  then Some(Vec(arrived[k - 1])) else None)
    && c.slot == (if |arrived| < k <= |posted| || (c.phase.Some? && k <= |posted|)
                  then Some(posted[k - 1]) else None)
    && (c.done <==> 1 <= k <= |posted| && k <= |arrived| && c.phase != Some(MustFire))
    && c.log == (if c.done then [Completion(key, posted, arrived)] else [])
  }

  predicate KeyInv(s: System, key: Key) {
    CellInv(CellOf(s, key), s.Posted(key.rank), s.Arrived(key.rank), key)
  }

  predicate Counted(s: System, r: nat) {
    && Counter(s.node.expected, r) == |s.Posted(r)|
    && (!s.node.wedged ==> Counter(s.node.actual, r) == |s.Arrived(r)|)
  }

  ghost predicate Inv(s: System) {
    && Sound(s)
    && (forall r: nat :: Counted(s, r))
    && forall key :: KeyInv(s, key)
  }

  // The effect of each step on one cell.

  function PostedCell(c: Cell, key: Key, slot: nat): Cell {
    match c.data
    case Some(v) => c.(data := None, done := true, log := c.log + [Write(key, slot, v)])
    case None => c.(slot := Some(slot), done := false)
  }

  function ArrivedCell(c: Cell, data: seq<Byte>): Cell {
    c.(data := Some(Vec(data)), phase := if c.slot.Some? then Some(MustFire) else c.phase)
  }

  function FiredCell(c: Cell, key: Key): Cell
    requires c.slot.Some?
  {
    var v := match c.data case Some(v) => v case None => Null;
    c.(data := None, done := true, phase := Some(MustErase), log := c.log + [Write(key, c.slot.value, v)])
  }

  lemma PostCell(s: System, rank: nat, slot: nat, key: Key)
    requires Counted(s, rank)
    ensures CellOf(NextPost(s, rank, slot), key) ==
      if key == Key(rank, |s.Posted(rank)| + 1) then PostedCell(CellOf(s, key), key, slot) else CellOf(s, key)
  {
    LogGrows(s.writes, NextPost(s, rank, slot).writes, key);
  }

  lemma ArriveCell(s: System, rank: nat, data: seq<Byte>, key: Key)
    requires Counted(s, rank) && !s.node.wedged && CopyAccepts(|data|)
    ensures CellOf(NextArrive(s, rank, data), key) ==
      if key == Key(rank, |s.Arrived(rank)| + 1) then ArrivedCell(CellOf(s, key), data) else CellOf(s, key)
  {
  }

  lemma FireCell(s: System, fired: Key, key: Key)
    requires fired in s.node.callbacks
    ensures CellOf(NextFire(s, fired), key) ==
      if key == fired then FiredCell(CellOf(s, key), key) else CellOf(s, key)
  {
    LogGrows(s.writes, NextFire(s, fired).writes, key);
  }

  lemma LogGrows(ws: seq<Write>, vs: seq<Write>, key: Key)
    ensures |vs| == |ws| + 1 && vs[..|ws|] == ws ==>
      WritesFor(vs, key) == WritesFor(ws, key) + (if vs[|ws|].key == key then [vs[|ws|]] else [])
    ensures |vs| == |ws| + 1 && vs[..|ws|] == ws ==> Memory(vs) == Memory(ws)[vs[|ws|].slot := vs[|ws|].value]
  {
  }

  // Each step keeps the invariant of one cell.

  lemma PostKeeps(c: Cell, posted: seq<nat>, arrived: seq<seq<Byte>>, key: Key, slot: nat)
    requires CellInv(c, posted, arrived, key)
    ensures CellInv(if key.number == |posted| + 1 then PostedCell(c, key, slot) else c, posted + [slot], arrived, key)
  {
  }

  lemma ArriveKeeps(c: Cell, posted: seq<nat>, arrived: seq<seq<Byte>>, key: Key, data: seq<Byte>)
    requires CellInv(c, posted, arrived, key)
    ensures CellInv(if key.number == |arrived| + 1 then ArrivedCell(c, data) else c, posted, arrived + [data], key)
  {
  }

  lemma FireKeeps(c: Cell, posted: seq<nat>, arrived: seq<seq<Byte>>, key: Key)
    requires CellInv(c, posted, arrived, key) && c.phase == Some(MustFire)
    ensures c.slot.Some? && CellInv(FiredCell(c, key), posted, arrived, key)
  {
  }

  lemma PostKeepsKey(s: System, rank: nat, slot: nat, key: Key)
    requires Counted(s, rank) && KeyInv(s, key)
    ensures KeyInv(NextPost(s, rank, slot), key)
  {
    hide CellInv, CellOf, Post;
    PostCell(s, rank, slot, key);
    PostKeeps(CellOf(s, key), s.Posted(key.rank), s.Arrived(key.rank), key, slot);
  }

  lemma ArriveKeepsKey(s: System, rank: nat, data: seq<Byte>, key: Key)
    requires Counted(s, rank) && KeyInv(s, key) && !s.node.wedged && CopyAccepts(|data|)
    ensures KeyInv(NextArrive(s, rank, data), key)
  {
    hide CellInv, CellOf;
    ArriveCell(s, rank, data, key);
    ArriveKeeps(CellOf(s, key), s.Posted(key.rank), s.Arrived(key.rank), key, data);
  }

  /** A refused message leaves everything but the mutex and the rank's counter alone. */
  lemma RefusedChangesNothing(s: System, rank: nat, data: seq<Byte>)
    requires !s.node.wedged && !CopyAccepts(|data|)
    ensures NextArrive(s, rank, data) ==
      s.(node := s.node.(actual := s.node.actual[rank := Counter(s.node.actual, rank) + 1], wedged := true))
  {
  }

  lemma FireKeepsKey(s: System, fired: Key, key: Key)
    requires KeyInv(s, fired) && KeyInv(s, key) && s.Firing(fired)
    ensures KeyInv(NextFire(s, fired), key) && fired in s.node.callbacks
  {
    hide CellInv, Fire;
    FireKeeps(CellOf(s, fired), s.Posted(fired.rank), s.Arrived(fired.rank), fired);
    FireCell(s, fired, key);
  }

  lemma EraseKeepsKey(s: System, erased: Key, key: Key)
    requires KeyInv(s, erased) && KeyInv(s, key) && erased in s.handlers && s.handlers[erased] == MustErase
    ensures KeyInv(NextErase(s, erased), key) && erased in s.node.callbacks
  {
    if key != erased {
      hide CellInv;
      assert CellOf(NextErase(s, erased), key) == CellOf(s, key);
    }
  }

  lemma KeyKept(cfg: Config, s: System, e: Event, key: Key)
    requires Inv(s)
    ensures KeyInv(Next(cfg, s, e), key)
  {
    hide CellInv, NextPost, NextArrive, NextFire, NextErase, Memory;
    assert KeyInv(s, key);
    if !s.node.wedged {
      match e
      case EvPost(role, rank, slot) => PostKeepsKey(s, rank, slot, key);
      case EvArrive(rank, data) =>
        if CopyAccepts(|data|) { ArriveKeepsKey(s, rank, data, key); } else { RefusedChangesNothing(s, rank, data); }
      case EvFire(k) => if s.Firing(k) { FireKeepsKey(s, k, key); }
      case EvErase(k) => if k in s.handlers && s.handlers[k] == MustErase { EraseKeepsKey(s, k, key); }
      case EvWait(k) => assert CellOf(Next(cfg, s, e), key) == CellOf(s, key);
    }
  }

  lemma PostCounts(s: System, rank: nat, slot: nat, r: nat)
    requires Counted(s, rank) && Counted(s, r)
    ensures Counted(NextPost(s, rank, slot), r)
  {
  }

  lemma ArriveCounts(s: System, rank: nat, data: seq<Byte>, r: nat)
    requires Counted(s, rank) && Counted(s, r)
    ensures Counted(NextArrive(s, rank, data), r)
  {
  }

  lemma HandlerCounts(s: System, key: Key, r: nat)
    requires Counted(s, r)
    ensures Counted(NextFire(s, key), r) && Counted(NextErase(s, key), r)
  {
  }

  lemma CountersKept(cfg: Config, s: System, e: Event, r: nat)
    requires Inv(s)
    ensures Counted(Next(cfg, s, e), r)
  {
    hide KeyInv, Memory, NextPost, NextArrive, NextFire, NextErase;
    assert Counted(s, r);
    match e
    case EvPost(role, rank, slot) => PostCounts(s, rank, slot, r);
    case EvArrive(rank, data) => ArriveCounts(s, rank, data, r);
    case EvFire(k) => HandlerCounts(s, k, r);
    case EvErase(k) => HandlerCounts(s, k, r);
    case EvWait(k) =>
  }

  /** Outputs hold exactly what was written, and no erased callback is touched. */
  predicate Sound(s: System) {
    s.node.memory == Memory(s.writes) && !s.node.dangling
  }

  lemma PostSound(s: System, rank: nat, slot: nat)
    requires Sound(s)
    ensures Sound(NextPost(s, rank, slot))
  {
    hide Memory;
    LogGrows(s.writes, NextPost(s, rank, slot).writes, Key(0, 0));
  }

  lemma FireSound(s: System, key: Key)
    requires Sound(s) && key in s.node.callbacks
    ensures Sound(NextFire(s, key))
  {
    hide Memory;
    LogGrows(s.writes, NextFire(s, key).writes, Key(0, 0));
  }

  lemma EraseSound(s: System, key: Key)
    requires Sound(s) && key in s.node.callbacks
    ensures Sound(NextErase(s, key))
  {
  }

  lemma ArriveSound(s: System, rank: nat, data: seq<Byte>)
    requires Sound(s)
    ensures Sound(NextArrive(s, rank, data))
  {
  }

  lemma SoundKept(cfg: Config, s: System, e: Event)
    requires Inv(s)
    ensures Sound(Next(cfg, s, e))
  {
    hide Memory, KeyInv, Counted, NextPost, NextFire, NextArrive, NextErase;
    match e
    case EvPost(role, rank, slot) => PostSound(s, rank, slot);
    case EvFire(k) =>
      if s.Firing(k) {
        FireKeepsKey(s, k, k);
        FireSound(s, k);
      }
    case EvErase(k) =>
      if k in s.handlers && s.handlers[k] == MustErase {
        EraseKeepsKey(s, k, k);
        EraseSound(s, k);
      }
    case EvArrive(rank, data) => ArriveSound(s, rank, data);
    case EvWait(k) =>
  }

  lemma InvKept(cfg: Config, s: System, e: Event)
    requires Inv(s)
    ensures Inv(Next(cfg, s, e))
  {
    hide Next, KeyInv, Counted, Sound;
    SoundKept(cfg, s, e);
    forall r: nat ensures Counted(Next(cfg, s, e), r) { CountersKept(cfg, s, e, r); }
    forall key ensures KeyInv(Next(cfg, s, e), key) { KeyKept(cfg, s, e, key); }
  }

  lemma {:induction false} Reachable(cfg: Config, es: seq<Event>)
    ensures Inv(Exec(cfg, es))
  {
    if es != [] {
      hide Next, Inv;
      Reachable(cfg, es[..|es| - 1]);
      InvKept(cfg, Exec(cfg, es[..|es| - 1]), es[|es| - 1]);
    }
  }

  // -------------------------------------------------------------- results

  /** `key` is the only receive that was posted with `slot` as its output. */
  ghost predicate OnlyReceiveInto(s: System, slot: nat, key: Key) {
    forall other: Key ::
      (1 <= other.number <= |s.Posted(other.rank)| && s.Posted(other.rank)[other.number - 1] == slot) ==> other == key
  }

  lemma {:induction false} MemoryHolds(ws: seq<Write>, w: Write)
    requires w in ws && forall v :: v in ws && v.slot == w.slot ==> v == w
    ensures w.slot in Memory(ws) && Memory(ws)[w.slot] == w.value
  {
    var v := ws[|ws| - 1];
    assert ws == ws[..|ws| - 1] + [v];
    if v.slot != w.slot {
      MemoryHolds(ws[..|ws| - 1], w);
    }
  }

  /**
   In every interleaving, the `k`-th receive posted for a rank is completed by exactly one write, of the
   `k`-th message that arrived from that rank, into the output it was posted with; once no handler is
   between its sections, it is complete if and only if that message has arrived.
   */
  lemma RendezvousLaw(cfg: Config, es: seq<Event>, key: Key)
    requires 1 <= key.number <= |Exec(cfg, es).Posted(key.rank)|
    ensures var s, k := Exec(cfg, es), key.number;
      && !s.node.dangling
      && (s.Done(key) ==> k <= |s.Arrived(key.rank)|)
      && WritesFor(s.writes, key) ==
           (if s.Done(key) then [Write(key, s.Posted(key.rank)[k - 1], Vec(s.Arrived(key.rank)[k - 1]))] else [])
      && (s.Quiescent() ==> (s.Done(key) <==> k <= |s.Arrived(key.rank)|))
  {
    hide Next, Exec;
    Reachable(cfg, es);
    assert KeyInv(Exec(cfg, es), key);
  }

  /** An output used by one receive only holds that receive's message from its completion on. */
  lemma OutputLaw(cfg: Config, es: seq<Event>, key: Key, slot: nat)
    requires Exec(cfg, es).Done(key) && OnlyReceiveInto(Exec(cfg, es), slot, key)
    requires 1 <= key.number <= |Exec(cfg, es).Posted(key.rank)| && Exec(cfg, es).Posted(key.rank)[key.number - 1] == slot
    ensures var s := Exec(cfg, es);
      && key.number <= |s.Arrived(key.rank)|
      && slot in s.node.memory && s.node.memory[slot] == Vec(s.Arrived(key.rank)[key.number - 1])
  {
    hide Next, Exec, Memory;
    var s := Exec(cfg, es);
    Reachable(cfg, es);
    RendezvousLaw(cfg, es, key);
    var w := Write(key, slot, Vec(s.Arrived(key.rank)[key.number - 1]));
    assert w in WritesFor(s.writes, key);
    forall v | v in s.writes && v.slot == slot ensures v == w {
      WriteIsCompletion(s, v);
    }
    MemoryHolds(s.writes, w);
  }

  lemma WriteIsCompletion(s: System, w: Write)
    requires Inv(s) && w in s.writes
    ensures 1 <= w.key.number <= |s.Posted(w.key.rank)| && w.key.number <= |s.Arrived(w.key.rank)|
    ensures w == Completion(w.key, s.Posted(w.key.rank), s.Arrived(w.key.rank))
  {
    assert KeyInv(s, w.key);
    assert w in WritesFor(s.writes, w.key);
  }

  /** With no handler between its sections, the maps hold exactly what the two histories leave unmatched. */
  lemma QuiescentLaw(cfg: Config, es: seq<Event>, key: Key)
    requires Exec(cfg, es).Quiescent()
    ensures var s, k := Exec(cfg, es), key.number;
      var p, a := |s.Posted(key.rank)|, |s.Arrived(key.rank)|;
      && (key in s.node.received <==> p < k <= a)
      && (key in s.node.received ==> s.node.received[key] == Vec(s.Arrived(key.rank)[k - 1]))
      && (key in s.node.callbacks <==> a < k <= p)
      && (key in s.node.callbacks ==> s.node.callbacks[key] == s.Posted(key.rank)[k - 1])
      && (s.Done(key) <==> 1 <= k <= p && k <= a)
  {
    hide Next, Exec;
    Reachable(cfg, es);
    assert KeyInv(Exec(cfg, es), key);
  }

  /** Two interleavings of the same posts and arrivals end alike: the order in which they met leaves no trace. */
  lemma InterleavingIrrelevant(cfg: Config, es: seq<Event>, fs: seq<Event>)
    requires var s, t := Exec(cfg, es), Exec(cfg, fs);
      && s.Quiescent() && t.Quiescent()
      && forall r: nat :: s.Posted(r) == t.Posted(r) && s.Arrived(r) == t.Arrived(r)
    ensures var s, t := Exec(cfg, es), Exec(cfg, fs);
      && s.node.received == t.node.received && s.node.callbacks == t.node.callbacks
      && forall key :: s.Done(key) <==> t.Done(key)
  {
    hide Next, Exec;
    forall key
      ensures var s, t := Exec(cfg, es), Exec(cfg, fs); CellOf(s, key).(log := []) == CellOf(t, key).(log := [])
    {
      QuiescentLaw(cfg, es, key);
      QuiescentLaw(cfg, fs, key);
      var r := key.rank;
      assert Exec(cfg, es).Posted(r) == Exec(cfg, fs).Posted(r);
    }
    MapsByCells(Exec(cfg, es), Exec(cfg, fs));
  }

  lemma MapsByCells(s: System, t: System)
    requires forall key :: CellOf(s, key).(log := []) == CellOf(t, key).(log := [])
    ensures s.node.received == t.node.received && s.node.callbacks == t.node.callbacks
    ensures forall key :: s.Done(key) <==> t.Done(key)
  {
    forall key
      ensures key in s.node.received <==> key in t.node.received
      ensures key in s.node.received ==> s.node.received[key] == t.node.received[key]
      ensures key in s.node.callbacks <==> key in t.node.callbacks
      ensures key in s.node.callbacks ==> s.node.callbacks[key] == t.node.callbacks[key]
      ensures s.Done(key) <==> t.Done(key)
    {
      assert CellOf(s, key).(log := []) == CellOf(t, key).(log := []);
    }
  }

  /** An arriving message that is empty, or larger than 2^31 - 1 bytes. */
  predicate Refused(e: Event) { e.EvArrive? && (|e.data| == 0 || |e.data| > 0x7fffffff) }

  /** A message of such a size leaves the mutex locked for good; nothing else does. */
  lemma {:induction false} WedgedIffRefused(cfg: Config, es: seq<Event>)
    ensures Exec(cfg, es).node.wedged <==> exists i :: 0 <= i < |es| && Refused(es[i])
  {
    if es != [] {
      var n := |es| - 1;
      WedgedIffRefused(cfg, es[..n]);
      StepWedges(cfg, Exec(cfg, es[..n]), es[n]);
      if Exec(cfg, es[..n]).node.wedged {
        var i :| 0 <= i < n && Refused(es[..n][i]);
        assert Refused(es[i]);
      } else {
        hide Next;
        forall i | 0 <= i < n ensures !Refused(es[i]) { assert es[..n][i] == es[i]; }
      }
    }
  }

  lemma StepWedges(cfg: Config, s: System, e: Event)
    ensures Next(cfg, s, e).node.wedged <==> s.node.wedged || Refused(e)
  {
    hide Config.AcceptsRank, NextPost, NextFire, NextErase;
    match e
    case EvPost(role, rank, slot) => PostUnlocks(s, rank, slot);
    case EvFire(key) => HandlerUnlocks(s, key);
    case EvErase(key) => HandlerUnlocks(s, key);
    case EvArrive(rank, data) =>
    case EvWait(key) =>
  }

  lemma PostUnlocks(s: System, rank: nat, slot: nat)
    ensures NextPost(s, rank, slot).node.wedged == s.node.wedged
  {
  }

  lemma HandlerUnlocks(s: System, key: Key)
    ensures NextFire(s, key).node.wedged == NextErase(s, key).node.wedged == s.node.wedged
  {
  }

  lemma ExecOne(cfg: Config, es: seq<Event>, e: Event)
    ensures Exec(cfg, es + [e]) == Next(cfg, Exec(cfg, es), e)
  {
    assert (es + [e])[..|es|] == es;
  }

  lemma {:induction false} WedgedForever(cfg: Config, es: seq<Event>, tail: seq<Event>)
    requires Exec(cfg, es).node.wedged
    ensures Exec(cfg, es + tail) == Exec(cfg, es)
    decreases |tail|
  {
    if tail == [] {
      assert es + tail == es;
    } else {
      WedgedForever(cfg, es, tail[..|tail| - 1]);
      assert (es + tail)[..|es + tail| - 1] == es + tail[..|tail| - 1];
    }
  }

  /** A refused message: no receive that is still open completes any more, whatever comes later. */
  lemma RefusedMessageLaw(cfg: Config, es: seq<Event>, rank: nat, data: seq<Byte>, tail: seq<Event>, key: Key)
    requires (|data| == 0 || |data| > 0x7fffffff) && !Exec(cfg, es).Done(key)
    ensures var t := Exec(cfg, es + [EvArrive(rank, data)] + tail);
      !t.Done(key) && t.Posted(key.rank) == Exec(cfg, es).Posted(key.rank)
  {
    hide Exec;
    var s, e := Exec(cfg, es), EvArrive(rank, data);
    assert Refused(e);
    ExecOne(cfg, es, e);
    StepWedges(cfg, s, e);
    WedgedForever(cfg, es + [e], tail);
  }

  /** One empty message: the receive posted for it never completes. */
  lemma EmptyMessageLost(cfg: Config, role: Role, rank: nat, slot: nat, tail: seq<Event>)
    requires cfg.AcceptsRank(role, rank)
    ensures var t := Exec(cfg, [EvPost(role, rank, slot), EvArrive(rank, [])] + tail);
      t.Posted(rank) == [slot] && !t.Done(Key(rank, 1))
  {
    var post := EvPost(role, rank, slot);
    assert [] + [post] == [post];
    ExecOne(cfg, [], post);
    assert Exec(cfg, []) == START;
    assert [post] + [EvArrive(rank, [])] == [post, EvArrive(rank, [])];
    hide Exec;
    RefusedMessageLaw(cfg, [post], rank, [], tail, Key(rank, 1));
  }

  function PostsIn(cfg: Config, es: seq<Event>, rank: nat): seq<nat> {
    if es == [] then [] else
      var e := es[|es| - 1];
      PostsIn(cfg, es[..|es| - 1], rank) +
        (if e.EvPost? && e.rank == rank && cfg.AcceptsRank(e.role, rank) then [e.slot] else [])
  }

  function ArrivalsIn(es: seq<Event>, rank: nat): seq<seq<Byte>> {
    if es == [] then [] else
      var e := es[|es| - 1];
      ArrivalsIn(es[..|es| - 1], rank) + (if e.EvArrive? && e.rank == rank then [e.data] else [])
  }

  /** The histories are the accepted posts and the messages of the run, in order. */
  lemma {:induction false} HistoriesAreEvents(cfg: Config, es: seq<Event>, rank: nat)
    requires forall i :: 0 <= i < |es| ==> !Refused(es[i])
    ensures Exec(cfg, es).Posted(rank) == PostsIn(cfg, es, rank)
    ensures Exec(cfg, es).Arrived(rank) == ArrivalsIn(es, rank)
  {
    if es != [] {
      HistoriesAreEvents(cfg, es[..|es| - 1], rank);
      WedgedIffRefused(cfg, es[..|es| - 1]);
      StepHistory(cfg, Exec(cfg, es[..|es| - 1]), es[|es| - 1], rank);
    }
  }

  lemma StepHistory(cfg: Config, s: System, e: Event, rank: nat)
    requires !s.node.wedged && !Refused(e)
    ensures Next(cfg, s, e).Posted(rank) ==
      s.Posted(rank) + (if e.EvPost? && e.rank == rank && cfg.AcceptsRank(e.role, rank) then [e.slot] else [])
    ensures Next(cfg, s, e).Arrived(rank) == s.Arrived(rank) + (if e.EvArrive? && e.rank == rank then [e.data] else [])
  {
    hide Post, Fire;
  }

  /** Handlers can always finish, without any new post or message. */
  lemma {:induction false} HandlersFinish(cfg: Config, es: seq<Event>) returns (tail: seq<Event>)
    requires !Exec(cfg, es).node.wedged
    ensures forall i :: 0 <= i < |tail| ==> tail[i].EvFire? || tail[i].EvErase?
    ensures Exec(cfg, es + tail).Quiescent()
    decreases |Exec(cfg, es).handlers|
  {
    hide Exec, Next;
    var s := Exec(cfg, es);
    if s.Quiescent() {
      tail := [];
      assert es + tail == es;
    } else {
      var key :| key in s.handlers;
      var now := if s.handlers[key] == MustFire then [EvFire(key), EvErase(key)] else [EvErase(key)];
      FinishOne(cfg, es, key, now);
      var rest := HandlersFinish(cfg, es + now);
      tail := now + rest;
      assert es + now + rest == es + tail;
    }
  }

  /**
   Every receive is completed: in any run whose messages have from 1 to 2^31 - 1 bytes, once the `k`-th receive
   of a rank was posted and its `k`-th message has arrived, the handlers under way complete it with that message.
   */
  lemma CompletionLaw(cfg: Config, es: seq<Event>, rank: nat, k: nat) returns (tail: seq<Event>)
    requires forall i :: 0 <= i < |es| && es[i].EvArrive? ==> 1 <= |es[i].data| <= 0x7fffffff
    requires 1 <= k <= |PostsIn(cfg, es, rank)| && k <= |ArrivalsIn(es, rank)|
    ensures forall i :: 0 <= i < |tail| ==> tail[i].EvFire? || tail[i].EvErase?
    ensures var t := Exec(cfg, es + tail);
      && !t.node.wedged && t.Done(Key(rank, k))
      && WritesFor(t.writes, Key(rank, k)) ==
           [Write(Key(rank, k), PostsIn(cfg, es, rank)[k - 1], Vec(ArrivalsIn(es, rank)[k - 1]))]
  {
    hide Exec, Next, PostsIn, ArrivalsIn, WritesFor;
    forall i | 0 <= i < |es| ensures !Refused(es[i]) {
    }
    WedgedIffRefused(cfg, es);
    tail := HandlersFinish(cfg, es);
    var all := es + tail;
    forall i | 0 <= i < |all| ensures !Refused(all[i]) {
      assert i >= |es| ==> all[i] == tail[i - |es|];
    }
    WedgedIffRefused(cfg, all);
    HandlersAddNothing(cfg, es, tail, rank);
    HistoriesAreEvents(cfg, all, rank);
    RendezvousLaw(cfg, all, Key(rank, k));
  }

  lemma {:induction false} HandlersAddNothing(cfg: Config, es: seq<Event>, tail: seq<Event>, rank: nat)
    requires forall i :: 0 <= i < |tail| ==> tail[i].EvFire? || tail[i].EvErase?
    ensures PostsIn(cfg, es + tail, rank) == PostsIn(cfg, es, rank) && ArrivalsIn(es + tail, rank) == ArrivalsIn(es, rank)
    decreases |tail|
  {
    if tail == [] {
      assert es + tail == es;
    } else {
      HandlersAddNothing(cfg, es, tail[..|tail| - 1], rank);
      assert (es + tail)[..|es + tail| - 1] == es + tail[..|tail| - 1];
    }
  }

  /** The two orders of one receive and its message: both end with the message in the output and nothing left over. */
  lemma OneMessage(cfg: Config, role: Role, rank: nat, slot: nat, data: seq<Byte>)
    requires cfg.AcceptsRank(role, rank) && 1 <= |data| <= 0x7fffffff
    ensures var key := Key(rank, 1);
      var s := Exec(cfg, [EvPost(role, rank, slot), EvArrive(rank, data), EvFire(key), EvErase(key)]);
      && !s.node.wedged && s.Done(key) && s.node.memory == map[slot := Vec(data)]
      && s.node.callbacks == map[] && s.node.received == map[]
    ensures var s := Exec(cfg, [EvArrive(rank, data), EvPost(role, rank, slot)]);
      && !s.node.wedged && s.Done(Key(rank, 1)) && s.node.memory == map[slot := Vec(data)]
      && s.node.callbacks == map[] && s.node.received == map[]
  {
    hide Exec, Next;
    var key := Key(rank, 1);
    var post, arrive := EvPost(role, rank, slot), EvArrive(rank, data);
    ExecFour(cfg, post, arrive, EvFire(key), EvErase(key));
    PostThenArrive(cfg, role, rank, slot, data);
    ExecTwo(cfg, arrive, post);
    ArriveThenPost(cfg, role, rank, slot, data);
  }

  lemma ExecTwo(cfg: Config, a: Event, b: Event)
    ensures Exec(cfg, [a, b]) == Next(cfg, Next(cfg, START, a), b)
  {
    ExecOne(cfg, [a], b);
    ExecOne(cfg, [], a);
    assert [] + [a] == [a] && [a] + [b] == [a, b];
  }

  lemma ExecFour(cfg: Config, a: Event, b: Event, c: Event, d: Event)
    ensures Exec(cfg, [a, b, c, d]) == Next(cfg, Next(cfg, Next(cfg, Next(cfg, START, a), b), c), d)
  {
    hide Next, Exec;
    ExecTwo(cfg, a, b);
    ExecOne(cfg, [a, b], c);
    ExecOne(cfg, [a, b] + [c], d);
    assert [a, b] + [c] + [d] == [a, b, c, d];
  }

  lemma ArriveThenPost(cfg: Config, role: Role, rank: nat, slot: nat, data: seq<Byte>)
    requires cfg.AcceptsRank(role, rank) && 1 <= |data| <= 0x7fffffff
    ensures var s := Next(cfg, Next(cfg, START, EvArrive(rank, data)), EvPost(role, rank, slot));
      && !s.node.wedged && s.Done(Key(rank, 1)) && s.node.memory == map[slot := Vec(data)]
      && s.node.callbacks == map[] && s.node.received == map[]
  {
    hide Config.AcceptsRank;
    var a := Next(cfg, START, EvArrive(rank, data));
    assert a.node == START.node.(actual := map[rank := 1], received := map[Key(rank, 1) := Vec(data)]);
  }

  /** The state between arrival and callback, whose fields the remaining sections clear. */
  lemma PostThenArrive(cfg: Config, role: Role, rank: nat, slot: nat, data: seq<Byte>)
    requires cfg.AcceptsRank(role, rank) && 1 <= |data| <= 0x7fffffff
    ensures var key := Key(rank, 1);
      var a := Next(cfg, Next(cfg, START, EvPost(role, rank, slot)), EvArrive(rank, data));
      var s := Next(cfg, Next(cfg, a, EvFire(key)), EvErase(key));
      && !s.node.wedged && s.Done(key) && s.node.memory == map[slot := Vec(data)]
      && s.node.callbacks == map[] && s.node.received == map[]
  {
    var key := Key(rank, 1);
    var p := Next(cfg, START, EvPost(role, rank, slot));
    assert p.node == START.node.(expected := map[rank := 1], done := map[key := false], callbacks := map[key := slot]);
    var a := Next(cfg, p, EvArrive(rank, data));
    ArriveStep(cfg, p, rank, data, slot);
    hide Config.AcceptsRank, NextPost, NextArrive;
    CallbackSteps(cfg, a, key, slot, data);
  }

  lemma ArriveStep(cfg: Config, p: System, rank: nat, data: seq<Byte>, slot: nat)
    requires var key := Key(rank, 1);
      !p.node.wedged && Counter(p.node.actual, rank) == 0 && 1 <= |data| <= 0x7fffffff && p.node.received == map[]
      && p.node.callbacks == map[key := slot] && p.node.memory == map[]
    ensures var key, a := Key(rank, 1), Next(cfg, p, EvArrive(rank, data));
      !a.node.wedged && a.Firing(key) && a.node.received == map[key := Vec(data)]
      && a.node.callbacks == map[key := slot] && a.node.memory == map[]
  {
  }

  lemma CallbackSteps(cfg: Config, a: System, key: Key, slot: nat, data: seq<Byte>)
    requires !a.node.wedged && a.Firing(key) && a.node.received == map[key := Vec(data)]
    requires a.node.callbacks == map[key := slot] && a.node.memory == map[]
    ensures var s := Next(cfg, Next(cfg, a, EvFire(key)), EvErase(key));
      && !s.node.wedged && s.Done(key) && s.node.memory == map[slot := Vec(data)]
      && s.node.callbacks == map[] && s.node.received == map[]
  {
    var f := Next(cfg, a, EvFire(key));
    assert f.node == a.node.(memory := map[slot := Vec(data)], received := map[], done := a.node.done[key := true]);
  }

  lemma FireStep(cfg: Config, s: System, key: Key)
    requires !s.node.wedged && s.Firing(key)
    ensures var t := Next(cfg, s, EvFire(key)); t.handlers == s.handlers[key := MustErase] && !t.node.wedged
  {
    hide Fire;
    HandlerUnlocks(s, key);
  }

  lemma EraseStep(cfg: Config, s: System, key: Key)
    requires !s.node.wedged && key in s.handlers && s.handlers[key] == MustErase
    ensures var t := Next(cfg, s, EvErase(key)); t.handlers == s.handlers - {key} && !t.node.wedged
  {
    hide Erase;
    HandlerUnlocks(s, key);
  }

  lemma FinishOne(cfg: Config, es: seq<Event>, key: Key, now: seq<Event>)
    requires var s := Exec(cfg, es);
      && !s.node.wedged && key in s.handlers
      && now == if s.handlers[key] == MustFire then [EvFire(key), EvErase(key)] else [EvErase(key)]
    ensures Exec(cfg, es + now).handlers == Exec(cfg, es).handlers - {key}
    ensures !Exec(cfg, es + now).node.wedged
    ensures |Exec(cfg, es + now).handlers| < |Exec(cfg, es).handlers|
  {
    hide Exec, Next;
    var s := Exec(cfg, es);
    if s.handlers[key] == MustFire {
      ExecOne(cfg, es, EvFire(key));
      ExecOne(cfg, es + [EvFire(key)], EvErase(key));
      assert es + now == es + [EvFire(key)] + [EvErase(key)];
      FireStep(cfg, s, key);
      EraseStep(cfg, Next(cfg, s, EvFire(key)), key);
      assert s.handlers[key := MustErase] - {key} == s.handlers - {key};
    } else {
      ExecOne(cfg, es, EvErase(key));
      EraseStep(cfg, s, key);
    }
    assert s.handlers.Keys == (s.handlers - {key}).Keys + {key};
  }

  // ----------------------------------------------------- node, as written

  /** The node's maps and counters. Every method takes the mutex, which must not have been left locked. */
  class CollectiveNode {
    const cfg: Config
    var expected: map<nat, nat>
    var actual: map<nat, nat>
    var received: map<Key, Ptr>
    var callbacks: map<Key, nat>
    var done: map<Key, bool>
    var memory: map<nat, Ptr>
    var wedged: bool
    var dangling: bool

    ghost function View(): Node
      reads this
    {
      Node(expected, actual, received, callbacks, done, memory, wedged, dangling)
    }

    constructor (cfg: Config)
      ensures this.cfg == cfg && View() == START.node
    {
      this.cfg := cfg;
      expected, actual, received, callbacks, done, memory := map[], map[], map[], map[], map[], map[];
      wedged, dangling := false, false;
    }

    method NextExpectedRankRequestId(rank: nat) returns (id: nat)
      modifies `expected
      ensures id == Counter(old(expected), rank) + 1 && expected == old(expected)[rank := id]
    {
      id := 1;
      if rank in expected {
        id := expected[rank] + 1;
      }
      expected := expected[rank := id];
    }

    method NextActualRankRequestId(rank: nat) returns (id: nat)
      modifies `actual
      ensures id == Counter(old(actual), rank) + 1 && actual == old(actual)[rank := id]
    {
      id := 1;
      if rank in actual {
        id := actual[rank] + 1;
      }
      actual := actual[rank := id];
    }

    method CollectiveReceiveAsync(role: Role, rank: nat, output: nat) returns (id: Option<Key>)
      requires !wedged
      modifies this
      ensures id.None? <==> !cfg.AcceptsRank(role, rank)
      ensures id.None? ==> View() == old(View())
      ensures id.Some? ==> id.value == Key(rank, Counter(old(expected), rank) + 1)
      ensures id.Some? ==> View() == Post(old(View()), rank, output)
    {
      hide Config.AcceptsRank;
      if !cfg.AcceptsRank(role, rank) {
        return None;
      }
      var number := NextExpectedRankRequestId(rank);
      var key := Key(rank, number);
      done := done[key := false];
      if key in received {
        memory := memory[output := received[key]];
        received := received - {key};
        done := done[key := true];
      } else {
        callbacks := callbacks[key := output];
      }
      return Some(key);
    }

    /** The handler up to the point where it releases the mutex to run the callback it found. */
    method BeginReceiveCallback(rank: nat, data: seq<Byte>) returns (key: Key, found: bool)
      requires !wedged
      modifies this
      ensures key == Key(rank, Counter(old(actual), rank) + 1)
      ensures View() == Arrive(old(View()), rank, data)
      ensures found <==> !wedged && key in callbacks
    {
      var number := NextActualRankRequestId(rank);
      key := Key(rank, number);
      if !CopyAccepts(|data|) {
        wedged := true;
        return key, false;
      }
      received := received[key := Vec(data)];
      found := key in callbacks;
    }

    method RunCallback(key: Key)
      requires !wedged
      modifies this
      ensures View() == Fire(old(View()), key) && !wedged
    {
      if key !in callbacks {
        dangling := true;
        return;
      }
      var output := callbacks[key];
      var res := if key in received then received[key] else Null;
      memory := memory[output := res];
      received := received - {key};
      done := done[key := true];
    }

    method EraseCallback(key: Key)
      requires !wedged
      modifies this
      ensures View() == Erase(old(View()), key)
    {
      if key !in callbacks {
        dangling := true;
        return;
      }
      callbacks := callbacks - {key};
    }

    /** The whole handler, when nothing comes in between its sections: the steps the system takes, in their order. */
    method RunReceiveCallback(rank: nat, data: seq<Byte>, ghost s: System)
      requires !wedged && View() == s.node
      modifies this
      ensures var key, a := Key(rank, Counter(s.node.actual, rank) + 1), NextArrive(s, rank, data);
        View() == (if !a.node.wedged && key in a.node.callbacks then NextErase(NextFire(a, key), key) else a).node
    {
      hide Arrive, Fire, Erase;
      var key, found := BeginReceiveCallback(rank, data);
      if found {
        RunCallback(key);
        EraseCallback(key);
      }
    }

    /** The waiter's predicate, evaluated once. */
    method CollectiveWaitPredicate(key: Key) returns (arrived: bool)
      requires !wedged
      modifies `done
      ensures View() == Look(old(View()), key)
      ensures arrived <==> key in old(done) && old(done)[key]
    {
      if key !in done {
        done := done[key := false];
      }
      arrived := done[key];
    }
  }
}
