/**
 The thread pool: submitters check the task count and push in two separately locked sections, workers
 sleep on a condition variable, and a notifier pairs an idle worker with a waiting task before it wakes
 one worker, outside the lock. Steps are the locked sections, in any interleaving, while the pool runs.
 A sleeping worker wakes only when notified.
 */
module ThreadPool {
  import opened Prelude

  type Task = nat

  /** The shared fields. */
  datatype Pool = Pool(taskNum: nat, idle: nat, queue: seq<Task>)

  datatype Worker = Top | Sleeping | Woken | Running(task: Task) | Exited

  datatype Submitter = Checking | Admitted(task: Task)

  /** The pool, every thread between its locked sections, and what was submitted and started so far. */
  datatype System = System(
    pool: Pool,
    workers: map<nat, Worker>,
    submitters: map<nat, Submitter>,
    notifying: bool,             // the notifier has left the lock and will notify
    submitted: seq<Task>,
    started: seq<Task>)

  datatype Event =
    | EvAdmit(i: nat, task: Task)  // a submitter finds the count below the limit
    | EvPush(i: nat)
    | EvEnter(w: nat)              // a worker counts itself idle and goes to sleep
    | EvDecide                     // the notifier pairs an idle worker with a task
    | EvNotify(w: nat)             // it wakes a sleeping worker, if there is one
    | EvResume(w: nat)             // a woken worker takes a task, or exits when there is none
    | EvDone(w: nat)

  function Push(p: Pool, task: Task): Pool {
    p.(taskNum := p.taskNum + 1, queue := p.queue + [task])
  }

  function Enter(p: Pool): Pool {
    p.(idle := p.idle + 1)
  }

  predicate CanDecide(p: Pool) {
    p.idle > 0 && p.taskNum > 0
  }

  function Decide(p: Pool): Pool
    requires CanDecide(p)
  {
    p.(idle := p.idle - 1, taskNum := p.taskNum - 1)
  }

  function Resume(p: Pool): (Pool, Option<Task>) {
    if p.queue == [] then (p, None) else (p.(queue := p.queue[1..]), Some(p.queue[0]))
  }

  // ------------------------------------------------------------- all runs

  /** Any workers and submitters, none of which has done anything yet. */
  function Start(workers: set<nat>, submitters: set<nat>): System {
    System(Pool(0, 0, []), map w | w in workers :: Top, map i | i in submitters :: Checking, false, [], [])
  }

  predicate Is(s: System, w: nat, phase: Worker) {
    w in s.workers && s.workers[w] == phase
  }

  function WorkersIn(workers: map<nat, Worker>, phase: Worker): set<nat> {
    set w | w in workers && workers[w] == phase
  }

  function AdmittedIn(submitters: map<nat, Submitter>): set<nat> {
    set i | i in submitters && submitters[i].Admitted?
  }

  function NextResume(s: System, w: nat): System {
    var (p, task) := Resume(s.pool);
    if task.None? then s.(workers := s.workers[w := Exited])
    else s.(pool := p, workers := s.workers[w := Running(task.value)], started := s.started + [task.value])
  }

  /** One step; an event that cannot happen changes nothing. */
  function Next(max: nat, s: System, e: Event): System {
    match e
    case EvAdmit(i, task) =>
      if i in s.submitters && s.submitters[i] == Checking && s.pool.taskNum < max
      then s.(submitters := s.submitters[i := Admitted(task)]) else s
    case EvPush(i) =>
      if i in s.submitters && s.submitters[i].Admitted?
      then s.(pool := Push(s.pool, s.submitters[i].task), submitters := s.submitters[i := Checking],
              submitted := s.submitted + [s.submitters[i].task]) else s
    case EvEnter(w) => if Is(s, w, Top) then s.(pool := Enter(s.pool), workers := s.workers[w := Sleeping]) else s
    case EvDecide => if !s.notifying && CanDecide(s.pool) then s.(pool := Decide(s.pool), notifying := true) else s
    case EvNotify(w) =>
      if s.notifying && Is(s, w, Sleeping) then s.(workers := s.workers[w := Woken], notifying := false)
      else if s.notifying && WorkersIn(s.workers, Sleeping) == {} then s.(notifying := false)
      else s
    case EvResume(w) => if Is(s, w, Woken) then NextResume(s, w) else s
    case EvDone(w) =>
      if w in s.workers && s.workers[w].Running? then s.(workers := s.workers[w := Top]) else s
  }

  function Exec(max: nat, s: System, es: seq<Event>): System {
    if es == [] then s else Next(max, Exec(max, s, es[..|es| - 1]), es[|es| - 1])
  }

  // ------------------------------------------------------------ invariant

  function One(b: bool): nat { if b then 1 else 0 }

  /** Idle workers are asleep, and every queued task has its wake-up counted, under way or delivered. */
  ghost predicate Balanced(s: System) {
    && |WorkersIn(s.workers, Sleeping)| == s.pool.idle + One(s.notifying)
    && |s.pool.queue| == s.pool.taskNum + One(s.notifying) + |WorkersIn(s.workers, Woken)|
    && Exited !in s.workers.Values
  }

  ghost predicate Bounded(max: nat, s: System) {
    s.submitters != map[] ==> s.pool.taskNum + |AdmittedIn(s.submitters)| <= max + |s.submitters| - 1
  }

  ghost predicate Inv(max: nat, s: System) {
    Balanced(s) && Bounded(max, s) && s.submitted == s.started + s.pool.queue
  }

  lemma SwapSize(a: set<nat>, b: set<nat>, x: nat)
    requires a - {x} == b - {x}
    ensures |b| == |a| - One(x in a) + One(x in b)
  {
    assert |a - {x}| == |a| - One(x in a);
    assert |b - {x}| == |b| - One(x in b);
  }

  lemma Move(workers: map<nat, Worker>, w: nat, phase: Worker, other: Worker)
    requires w in workers
    ensures var moved := workers[w := phase];
      |WorkersIn(moved, other)| == |WorkersIn(workers, other)| - One(workers[w] == other) + One(phase == other)
  {
    var a, b := WorkersIn(workers, other), WorkersIn(workers[w := phase], other);
    assert a - {w} == b - {w};
    SwapSize(a, b, w);
  }

  lemma Stays(workers: map<nat, Worker>, w: nat, phase: Worker)
    requires w in workers && phase != Exited && Exited !in workers.Values
    ensures Exited !in workers[w := phase].Values
  {
  }

  /** One worker moves between two phases. */
  lemma WorkerMoves(s: System, w: nat, phase: Worker)
    requires w in s.workers && phase != Exited && Exited !in s.workers.Values
    ensures var moved := s.workers[w := phase];
      && |WorkersIn(moved, Sleeping)| ==
           |WorkersIn(s.workers, Sleeping)| - One(s.workers[w] == Sleeping) + One(phase == Sleeping)
      && |WorkersIn(moved, Woken)| == |WorkersIn(s.workers, Woken)| - One(s.workers[w] == Woken) + One(phase == Woken)
      && Exited !in moved.Values
  {
    Move(s.workers, w, phase, Sleeping);
    Move(s.workers, w, phase, Woken);
    Stays(s.workers, w, phase);
  }

  lemma SubmitterMoves(submitters: map<nat, Submitter>, i: nat, phase: Submitter)
    requires i in submitters
    ensures var moved := submitters[i := phase];
      && |AdmittedIn(moved)| == |AdmittedIn(submitters)| - One(submitters[i].Admitted?) + One(phase.Admitted?)
      && |moved| == |submitters| && moved != map[]
  {
    var moved := submitters[i := phase];
    var a, b := AdmittedIn(submitters), AdmittedIn(moved);
    assert a - {i} == b - {i};
    SwapSize(a, b, i);
    assert moved.Keys == submitters.Keys && i in moved;
  }

  lemma SomeoneIn(workers: map<nat, Worker>, w: nat)
    requires w in workers
    ensures |WorkersIn(workers, workers[w])| > 0
  {
    assert w in WorkersIn(workers, workers[w]);
  }

  lemma AdmittedBelowAll(submitters: map<nat, Submitter>)
    ensures |AdmittedIn(submitters)| <= |submitters|
  {
    assert submitters.Keys == AdmittedIn(submitters) + (submitters.Keys - AdmittedIn(submitters));
  }

  lemma SubmitterStep(max: nat, s: System, e: Event)
    requires Inv(max, s) && (e.EvAdmit? || e.EvPush?)
    ensures Inv(max, Next(max, s, e))
  {
    hide WorkersIn, AdmittedIn;
    if e.i in s.submitters {
      match e
      case EvAdmit(i, task) =>
        SubmitterMoves(s.submitters, i, Admitted(task));
        AdmittedBelowAll(s.submitters[i := Admitted(task)]);
      case EvPush(i) =>
        SubmitterMoves(s.submitters, i, Checking);
        if s.submitters[i].Admitted? {
          var task := s.submitters[i].task;
          assert s.started + (s.pool.queue + [task]) == s.started + s.pool.queue + [task];
        }
    }
  }

  lemma WorkerStep(max: nat, s: System, e: Event)
    requires Inv(max, s) && (e.EvEnter? || e.EvNotify? || e.EvDone?)
    ensures Inv(max, Next(max, s, e))
  {
    hide WorkersIn, AdmittedIn;
    if e.w in s.workers {
      match e
      case EvEnter(w) => WorkerMoves(s, w, Sleeping);
      case EvNotify(w) => WorkerMoves(s, w, Woken);
      case EvDone(w) => WorkerMoves(s, w, Top);
    }
  }

  /** A woken worker finds a task. */
  lemma ResumeStep(max: nat, s: System, w: nat)
    requires Inv(max, s) && Is(s, w, Woken)
    ensures s.pool.queue != [] && Inv(max, NextResume(s, w))
  {
    hide WorkersIn, AdmittedIn;
    SomeoneIn(s.workers, w);
    WorkerMoves(s, w, Running(s.pool.queue[0]));
    assert s.started + s.pool.queue == s.started + [s.pool.queue[0]] + s.pool.queue[1..];
  }

  lemma InvKept(max: nat, s: System, e: Event)
    requires Inv(max, s)
    ensures Inv(max, Next(max, s, e))
  {
    match e
    case EvAdmit(_, _) => SubmitterStep(max, s, e);
    case EvPush(_) => SubmitterStep(max, s, e);
    case EvEnter(_) => WorkerStep(max, s, e);
    case EvNotify(_) => WorkerStep(max, s, e);
    case EvDone(_) => WorkerStep(max, s, e);
    case EvResume(w) => if Is(s, w, Woken) { ResumeStep(max, s, w); }
    case EvDecide => hide WorkersIn, AdmittedIn;
  }

  lemma StartInv(max: nat, workers: set<nat>, submitters: set<nat>)
    ensures Inv(max, Start(workers, submitters))
  {
    var s := Start(workers, submitters);
    assert WorkersIn(s.workers, Sleeping) == {} && WorkersIn(s.workers, Woken) == {};
    assert AdmittedIn(s.submitters) == {};
    if s.submitters != map[] {
      assert s.submitters.Keys != {};
    }
  }

  lemma {:induction false} Reachable(max: nat, workers: set<nat>, submitters: set<nat>, es: seq<Event>)
    ensures Inv(max, Exec(max, Start(workers, submitters), es))
  {
    if es == [] {
      StartInv(max, workers, submitters);
    } else {
      hide Next, Inv;
      Reachable(max, workers, submitters, es[..|es| - 1]);
      InvKept(max, Exec(max, Start(workers, submitters), es[..|es| - 1]), es[|es| - 1]);
    }
  }

  // -------------------------------------------------------------- results

  /**
   In every interleaving: tasks start in the order in which they were pushed, each once, the ones not
   started are queued; a woken worker always finds a task, so none ever exits.
   */
  lemma FifoLaw(max: nat, workers: set<nat>, submitters: set<nat>, es: seq<Event>)
    ensures var s := Exec(max, Start(workers, submitters), es);
      && s.submitted == s.started + s.pool.queue
      && (forall w :: Is(s, w, Woken) ==> s.pool.queue != [])
      && (forall w :: !Is(s, w, Exited))
  {
    hide Exec, Next;
    Reachable(max, workers, submitters, es);
    var s := Exec(max, Start(workers, submitters), es);
    forall w ensures (Is(s, w, Woken) ==> s.pool.queue != []) && !Is(s, w, Exited) {
      if Is(s, w, Woken) {
        ResumeStep(max, s, w);
      }
    }
  }

  /** No task is admitted or pushed. */
  predicate Quiet(es: seq<Event>) {
    forall i :: 0 <= i < |es| ==> !es[i].EvAdmit? && !es[i].EvPush?
  }

  /** The run `es` from `s` starts the oldest task and changes nothing else about the tasks. */
  ghost predicate StartsOne(max: nat, s: System, es: seq<Event>) {
    var t := Exec(max, s, es);
    && Quiet(es) && s.pool.queue != [] && t.workers.Keys == s.workers.Keys
    && t.pool.queue == s.pool.queue[1..] && t.started == s.started + [s.pool.queue[0]]
  }

  /** A step that leaves the tasks alone can be put in front. */
  lemma Before(max: nat, s: System, e: Event, es: seq<Event>)
    requires !e.EvAdmit? && !e.EvPush? && StartsOne(max, Next(max, s, e), es)
    requires var t := Next(max, s, e);
      t.workers.Keys == s.workers.Keys && t.pool.queue == s.pool.queue && t.started == s.started
    ensures StartsOne(max, s, [e] + es)
  {
    hide Next;
    ExecConcat(max, s, [e], es);
    ExecOne(max, s, e);
  }

  lemma FromWoken(max: nat, s: System, w: nat) returns (es: seq<Event>)
    requires s.pool.queue != [] && Is(s, w, Woken)
    ensures StartsOne(max, s, es)
  {
    es := [EvResume(w)];
    ExecOne(max, s, EvResume(w));
  }

  lemma FromNotifying(max: nat, s: System, w: nat) returns (es: seq<Event>)
    requires s.pool.queue != [] && Is(s, w, Sleeping) && s.notifying
    ensures StartsOne(max, s, es)
  {
    hide Exec;
    var rest := FromWoken(max, Next(max, s, EvNotify(w)), w);
    Before(max, s, EvNotify(w), rest);
    es := [EvNotify(w)] + rest;
  }

  lemma FromSleeping(max: nat, s: System, w: nat) returns (es: seq<Event>)
    requires s.pool.queue != [] && Is(s, w, Sleeping) && CanDecide(s.pool) && !s.notifying
    ensures StartsOne(max, s, es)
  {
    hide Exec;
    var rest := FromNotifying(max, Next(max, s, EvDecide), w);
    Before(max, s, EvDecide, rest);
    es := [EvDecide] + rest;
  }

  lemma FromTop(max: nat, s: System, w: nat) returns (es: seq<Event>)
    requires s.pool.queue != [] && Is(s, w, Top) && s.pool.taskNum > 0 && !s.notifying
    ensures StartsOne(max, s, es)
  {
    hide Exec;
    var rest := FromSleeping(max, Next(max, s, EvEnter(w)), w);
    Before(max, s, EvEnter(w), rest);
    es := [EvEnter(w)] + rest;
  }

  /** The worker a wake-up under way or an idle count stands for. */
  lemma SomeSleeper(s: System) returns (w: nat)
    requires Balanced(s) && (s.notifying || s.pool.idle > 0)
    ensures Is(s, w, Sleeping)
  {
    Inhabited(WorkersIn(s.workers, Sleeping));
    w :| w in WorkersIn(s.workers, Sleeping);
  }

  lemma NoneIn(s: System, w: nat)
    requires Balanced(s) && w in s.workers
    ensures s.workers[w] != Exited
    ensures s.workers[w] == Woken ==> |WorkersIn(s.workers, Woken)| > 0
    ensures s.workers[w] == Sleeping ==> |WorkersIn(s.workers, Sleeping)| > 0
  {
    if s.workers[w] == Woken {
      assert w in WorkersIn(s.workers, Woken);
    }
    if s.workers[w] == Sleeping {
      assert w in WorkersIn(s.workers, Sleeping);
    }
  }

  /** From every state with a queued task and a worker, the oldest task can be started. */
  lemma StartOldest(max: nat, s: System, w: nat) returns (es: seq<Event>)
    requires Balanced(s) && s.pool.queue != [] && w in s.workers
    ensures StartsOne(max, s, es)
  {
    hide Exec, StartsOne;
    if |WorkersIn(s.workers, Woken)| > 0 {
      Inhabited(WorkersIn(s.workers, Woken));
      var v :| v in WorkersIn(s.workers, Woken);
      es := FromWoken(max, s, v);
    } else if s.notifying {
      var v := SomeSleeper(s);
      es := FromNotifying(max, s, v);
    } else if s.pool.idle > 0 {
      var v := SomeSleeper(s);
      es := FromSleeping(max, s, v);
    } else {
      NoneIn(s, w);
      if s.workers[w].Running? {
        var rest := FromTop(max, Next(max, s, EvDone(w)), w);
        Before(max, s, EvDone(w), rest);
        es := [EvDone(w)] + rest;
      } else {
        es := FromTop(max, s, w);
      }
    }
  }

  lemma {:induction false} InvAlong(max: nat, s: System, es: seq<Event>)
    requires Inv(max, s)
    ensures Inv(max, Exec(max, s, es))
  {
    if es != [] {
      hide Next, Inv;
      InvAlong(max, s, es[..|es| - 1]);
      InvKept(max, Exec(max, s, es[..|es| - 1]), es[|es| - 1]);
    }
  }

  lemma {:induction false} DrainFrom(max: nat, s: System, w: nat) returns (es: seq<Event>)
    requires Inv(max, s) && w in s.workers
    ensures var t := Exec(max, s, es);
      Quiet(es) && t.pool.queue == [] && t.started == s.started + s.pool.queue
    decreases |s.pool.queue|
  {
    if s.pool.queue == [] {
      es := [];
      ExecNone(max, s);
    } else {
      hide Exec, Next, Bounded, WorkersIn;
      var first := StartOldest(max, s, w);
      InvAlong(max, s, first);
      var rest := DrainFrom(max, Exec(max, s, first), w);
      es := first + rest;
      ExecConcat(max, s, first, rest);
      assert s.started + s.pool.queue == s.started + [s.pool.queue[0]] + s.pool.queue[1..];
    }
  }

  /** From every reachable state, with any worker, all queued tasks can be started without another submission. */
  lemma ProgressLaw(max: nat, workers: set<nat>, submitters: set<nat>, es: seq<Event>) returns (tail: seq<Event>)
    requires workers != {}
    ensures var s := Exec(max, Start(workers, submitters), es);
      var t := Exec(max, Start(workers, submitters), es + tail);
      Quiet(tail) && t.pool.queue == [] && t.started == s.submitted
  {
    hide Next, Inv;
    var start := Start(workers, submitters);
    Reachable(max, workers, submitters, es);
    SameWorkers(max, start, es);
    Inhabited(workers);
    var w :| w in workers;
    hide Exec;
    tail := DrainFrom(max, Exec(max, start, es), w);
    ExecConcat(max, start, es, tail);
    FifoLaw(max, workers, submitters, es);
  }

  lemma {:induction false} SameWorkers(max: nat, s: System, es: seq<Event>)
    ensures Exec(max, s, es).workers.Keys == s.workers.Keys
  {
    if es != [] {
      SameWorkers(max, s, es[..|es| - 1]);
    }
  }

  /** Despite the gap between check and push, the count stays below the limit plus the number of submitters. */
  lemma TaskBound(max: nat, workers: set<nat>, submitters: set<nat>, es: seq<Event>)
    requires submitters != {}
    ensures Exec(max, Start(workers, submitters), es).pool.taskNum <= max + |submitters| - 1
  {
    hide Next, Balanced, AdmittedIn;
    Reachable(max, workers, submitters, es);
    SameSubmitters(max, Start(workers, submitters), es);
    var s := Exec(max, Start(workers, submitters), es);
    hide Exec;
    assert s.submitters.Keys == submitters;
    assert s.submitters != map[];
  }

  lemma {:induction false} SameSubmitters(max: nat, s: System, es: seq<Event>)
    ensures Exec(max, s, es).submitters.Keys == s.submitters.Keys
  {
    if es != [] {
      SameSubmitters(max, s, es[..|es| - 1]);
    }
  }

  /** The bound is exact: for every limit and every number of submitters, some run reaches it. */
  lemma TaskBoundReached(max: nat, workers: set<nat>, submitters: set<nat>) returns (es: seq<Event>)
    requires max >= 1 && submitters != {}
    ensures Exec(max, Start(workers, submitters), es).pool.taskNum == max + |submitters| - 1
  {
    hide Exec, Next;
    var i :| i in submitters;
    var start := Start(workers, submitters);
    assert start.submitters.Keys == submitters;
    var fill := FillTo(max, start, i, max - 1);
    var s := Exec(max, start, fill);
    var admit := AdmitAll(max, s, submitters);
    var t := Exec(max, s, admit);
    var push := PushAll(max, t, submitters);
    ExecConcat(max, start, fill, admit);
    ExecConcat(max, start, fill + admit, push);
    es := fill + admit + push;
  }

  lemma {:induction false} ExecConcat(max: nat, s: System, a: seq<Event>, b: seq<Event>)
    ensures Exec(max, s, a + b) == Exec(max, Exec(max, s, a), b)
    decreases |b|
  {
    if b == [] {
      assert a + b == a;
    } else {
      ExecConcat(max, s, a, b[..|b| - 1]);
      assert (a + b)[..|a + b| - 1] == a + b[..|b| - 1];
    }
  }

  lemma ExecOne(max: nat, s: System, e: Event)
    ensures Exec(max, s, [e]) == Next(max, s, e)
  {
    assert [e][..0] == [];
    assert Exec(max, s, []) == s;
  }

  ghost predicate AllChecking(s: System, ids: set<nat>) {
    forall i :: i in ids ==> i in s.submitters && s.submitters[i] == Checking
  }

  /** One submitter alone brings the count to any number up to the limit. */
  lemma {:induction false} FillTo(max: nat, s: System, i: nat, n: nat) returns (es: seq<Event>)
    requires n <= max && s.pool.taskNum == 0 && i in s.submitters && AllChecking(s, s.submitters.Keys)
    ensures var t := Exec(max, s, es);
      t.pool.taskNum == n && t.submitters.Keys == s.submitters.Keys && AllChecking(t, s.submitters.Keys)
  {
    if n == 0 {
      es := [];
    } else {
      var before := FillTo(max, s, i, n - 1);
      hide Exec;
      var t := Exec(max, s, before);
      var u := Next(max, t, EvAdmit(i, 0));
      ExecConcat(max, s, before, [EvAdmit(i, 0)]);
      ExecOne(max, t, EvAdmit(i, 0));
      es := before + [EvAdmit(i, 0)] + [EvPush(i)];
      ExecConcat(max, s, before + [EvAdmit(i, 0)], [EvPush(i)]);
      ExecOne(max, u, EvPush(i));
    }
  }

  ghost predicate OthersSame(s: System, t: System, ids: set<nat>) {
    forall i :: i in s.submitters && i !in ids ==> i in t.submitters && t.submitters[i] == s.submitters[i]
  }

  /** Below the limit, any set of submitters can pass the check before any of them pushes. */
  lemma {:induction false} AdmitAll(max: nat, s: System, ids: set<nat>) returns (es: seq<Event>)
    requires s.pool.taskNum < max && AllChecking(s, ids)
    ensures var t := Exec(max, s, es);
      && t.pool == s.pool && OthersSame(s, t, ids)
      && forall i :: i in ids ==> i in t.submitters && t.submitters[i].Admitted?
    decreases ids
  {
    if ids == {} {
      es := [];
      ExecNone(max, s);
    } else {
      hide Exec;
      var i :| i in ids;
      var rest := AdmitAll(max, s, ids - {i});
      es := rest + [EvAdmit(i, 0)];
      ExecConcat(max, s, rest, [EvAdmit(i, 0)]);
      ExecOne(max, Exec(max, s, rest), EvAdmit(i, 0));
    }
  }

  lemma ExecNone(max: nat, s: System)
    ensures Exec(max, s, []) == s
  {
  }

  lemma {:induction false} PushAll(max: nat, s: System, ids: set<nat>) returns (es: seq<Event>)
    requires forall i :: i in ids ==> i in s.submitters && s.submitters[i].Admitted?
    ensures var t := Exec(max, s, es); t.pool.taskNum == s.pool.taskNum + |ids| && OthersSame(s, t, ids)
    decreases ids
  {
    if ids == {} {
      es := [];
      ExecNone(max, s);
    } else {
      hide Exec;
      var i :| i in ids;
      var rest := PushAll(max, s, ids - {i});
      es := rest + [EvPush(i)];
      ExecConcat(max, s, rest, [EvPush(i)]);
      ExecOne(max, Exec(max, s, rest), EvPush(i));
      assert |ids| == |ids - {i}| + 1;
    }
  }

  /** Why spurious wakeups must be excluded: one that meets an empty queue ends its worker for good. */
  lemma SpuriousWakeupEndsWorker(max: nat, workers: set<nat>, submitters: set<nat>, w: nat)
    requires w in workers
    ensures var s := Exec(max, Start(workers, submitters), [EvEnter(w)]);
      Is(s, w, Sleeping) && Is(Next(max, s.(workers := s.workers[w := Woken]), EvResume(w)), w, Exited)
  {
    ExecOne(max, Start(workers, submitters), EvEnter(w));
  }

  // ----------------------------------------------------- the pool, as written

  class ThreadPool {
    const maxTaskNum: nat
    var taskNum: nat
    var idleThreadNum: nat
    var taskQueue: seq<Task>

    ghost function View(): Pool
      reads this
    {
      Pool(taskNum, idleThreadNum, taskQueue)
    }

    constructor (maxTaskNum: nat)
      ensures this.maxTaskNum == maxTaskNum && View() == Start({}, {}).pool
    {
      this.maxTaskNum := maxTaskNum;
      taskNum, idleThreadNum, taskQueue := 0, 0, [];
    }

    /** First section of a submission, repeated until it succeeds. */
    method CheckTaskNum() returns (admitted: bool)
      ensures admitted <==> View().taskNum < maxTaskNum
    {
      admitted := !(taskNum >= maxTaskNum);
    }

    /** Second section of a submission. */
    method PushTask(task: Task)
      modifies this
      ensures View() == Push(old(View()), task)
    {
      taskNum := taskNum + 1;
      taskQueue := taskQueue + [task];
    }

    /** A worker, from taking the lock to going to sleep. */
    method EnterWait()
      modifies this
      ensures View() == Enter(old(View()))
    {
      idleThreadNum := idleThreadNum + 1;
    }

    /** A worker, from waking up to leaving the lock; without a task it exits. */
    method TakeTask() returns (task: Option<Task>)
      modifies this
      ensures (View(), task) == Resume(old(View()))
    {
      if |taskQueue| == 0 {
        return None;
      }
      task := Some(taskQueue[0]);
      taskQueue := taskQueue[1..];
    }

    /** The notifier's locked section; it notifies afterwards when told so. */
    method PairIdleWithTask() returns (notify: bool)
      modifies this
      ensures notify <==> CanDecide(old(View()))
      ensures View() == if notify then Decide(old(View())) else old(View())
    {
      notify := idleThreadNum > 0 && taskNum > 0;
      if notify {
        idleThreadNum := idleThreadNum - 1;
        taskNum := taskNum - 1;
      }
    }
  }
}
