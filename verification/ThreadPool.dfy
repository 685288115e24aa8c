/** The thread pool of threadpool.c, as the steps that its threads take between taking
    and releasing the lock, in any order. */
module ThreadPool {
  import opened Lists

  /** Where a worker is: before it takes the lock, in pthread_cond_wait, woken there but
      without the lock, running a task without the lock, or finished */
  datatype Pc = Idle | Blocked | Woken | Running(task: nat) | Exited

  datatype Shutdown = Open | Immediate | Graceful

  /** Where the thread that shuts the pool down is: the next worker to join, or done */
  datatype Destroyer = NotCalled | Joining(next: nat) | Freed

  /** threadpool_t, its threads, and what became of the accepted tasks, which are
      numbered in the order of threadpool_add */
  datatype Pool = Pool(
    queue: seq<nat>,       // head->next and so on
    queueSize: int,
    shutdown: Shutdown,
    startSize: int,
    workers: seq<Pc>,
    destroyer: Destroyer,
    lockKept: bool,        // a call returned without releasing the lock
    accepted: nat,
    done: seq<nat>,
    discarded: seq<nat>
  )

  /** threadpool_init, which gives no pool for less than one thread */
  function Init(threads: int): Option<Pool> {
    if threads <= 0 then None
    else Some(Pool([], 0, Open, threads, seq(threads, _ => Idle), NotCalled, false, 0, [], []))
  }

  /** One step of some thread.  pthread_cond_signal wakes the given worker, if one is
      waiting; more may wake at any time. */
  datatype Step =
    | Add(wakes: nat)
    | Enter(worker: nat)
    | Run(worker: nat)
    | Spurious(worker: nat)
    | Destroy(graceful: bool)
    | Join

  predicate SomeBlocked(ws: seq<Pc>) {
    exists i | 0 <= i < |ws| :: ws[i].Blocked?
  }

  predicate Enabled(p: Pool, s: Step) {
    match s
    case Add(w) =>
      && !p.lockKept && p.destroyer != Freed
      && (p.shutdown.Open? && SomeBlocked(p.workers) ==> w < |p.workers| && p.workers[w].Blocked?)
    case Enter(w) =>
      !p.lockKept && w < |p.workers| && (p.workers[w].Idle? || p.workers[w].Woken?) && p.destroyer != Freed
    case Run(w) => w < |p.workers| && p.workers[w].Running?
    case Spurious(w) => w < |p.workers| && p.workers[w].Blocked?
    case Destroy(_) => !p.lockKept && p.destroyer != Freed
    case Join =>
      && p.destroyer.Joining?
      && (p.destroyer.next < |p.workers| ==> p.workers[p.destroyer.next].Exited?)
  }

  function WakeAll(ws: seq<Pc>): (r: seq<Pc>)
    ensures |r| == |ws|
  {
    seq(|ws|, i requires 0 <= i < |ws| => if ws[i].Blocked? then Woken else ws[i])
  }

  function With(p: Pool, w: nat, pc: Pc): Pool
    requires w < |p.workers|
  {
    p.(workers := p.workers[w := pc])
  }

  function Next(p: Pool, s: Step): Pool
    requires Enabled(p, s)
  {
    match s
    case Add(w) =>   // threadpool_add
      if !p.shutdown.Open? then p
      else p.(queue := [p.accepted] + p.queue, queueSize := p.queueSize + 1, accepted := p.accepted + 1,
              workers := if SomeBlocked(p.workers) then p.workers[w := Woken] else p.workers)
    case Enter(w) => EnterPool(p, w)
    case Run(w) => With(p, w, Idle).(done := p.done + [p.workers[w].task])
    case Spurious(w) => With(p, w, Woken)
    case Destroy(graceful) =>   // threadpool_destroy
      if !p.shutdown.Open? then p.(lockKept := true)   // it breaks out without unlocking
      else p.(shutdown := if graceful then Graceful else Immediate,
              workers := WakeAll(p.workers), destroyer := Joining(0))
    case Join =>
      if p.destroyer.next < |p.workers| then p.(destroyer := Joining(p.destroyer.next + 1))
      else if p.startSize > 0 then p.(destroyer := Freed)   // threadpool_free does nothing
      else p.(destroyer := Freed, queue := [], discarded := p.discarded + p.queue)
  }

  /** threadpool_worker, from taking the lock to releasing it */
  function EnterPool(p: Pool, w: nat): Pool
    requires w < |p.workers|
  {
    if p.queueSize == 0 && p.shutdown.Open? then With(p, w, Blocked)
    else if p.shutdown.Immediate? || (p.shutdown.Graceful? && p.queueSize == 0)
    then With(p, w, Exited).(startSize := p.startSize - 1)
    else if p.queue == [] then With(p, w, Idle)
    else With(p, w, Running(p.queue[0])).(queue := p.queue[1..], queueSize := p.queueSize - 1)
  }

  // ----- sums over the workers

  function Sum(ws: seq<Pc>, f: Pc -> nat): nat {
    if ws == [] then 0 else f(ws[0]) + Sum(ws[1..], f)
  }

  lemma {:induction false} SumUpdate(ws: seq<Pc>, f: Pc -> nat, w: nat, pc: Pc)
    requires w < |ws|
    ensures Sum(ws[w := pc], f) == Sum(ws, f) - f(ws[w]) + f(pc)
  {
    if w != 0 {
      assert ws[w := pc][1..] == ws[1..][w - 1 := pc];
      SumUpdate(ws[1..], f, w - 1, pc);
    } else {
      assert ws[w := pc][1..] == ws[1..];
    }
  }

  lemma {:induction false} SumZero(ws: seq<Pc>, f: Pc -> nat)
    ensures Sum(ws, f) == 0 <==> forall i | 0 <= i < |ws| :: f(ws[i]) == 0
  {
    if ws != [] {
      SumZero(ws[1..], f);
      assert forall i | 0 < i < |ws| :: ws[i] == ws[1..][i - 1];
    }
  }

  function OnTheWay(pc: Pc): nat {
    if pc.Idle? || pc.Woken? then 1 else 0
  }

  function Alive(pc: Pc): nat {
    if pc.Exited? then 0 else 1
  }

  /** How far a worker is from its end, after the shutdown */
  function Rank(pc: Pc): nat {
    match pc
    case Idle => 1
    case Blocked => 2
    case Woken => 1
    case Running(_) => 2
    case Exited => 0
  }

  function RunsTask(t: nat): Pc -> nat {
    (pc: Pc) => if pc == Running(t) then 1 else 0
  }

  lemma {:induction false} SumWakeAll(ws: seq<Pc>, f: Pc -> nat)
    requires f(Woken) == f(Blocked)
    ensures Sum(WakeAll(ws), f) == Sum(ws, f)
  {
    if ws != [] {
      assert WakeAll(ws)[1..] == WakeAll(ws[1..]);
      SumWakeAll(ws[1..], f);
    }
  }

  /** How often t occurs in s */
  function Occurs(s: seq<nat>, t: nat): nat {
    if s == [] then 0 else (if s[0] == t then 1 else 0) + Occurs(s[1..], t)
  }

  lemma {:induction false} OccursConcat(a: seq<nat>, b: seq<nat>, t: nat)
    ensures Occurs(a + b, t) == Occurs(a, t) + Occurs(b, t)
  {
    if a == [] {
      assert a + b == b;
    } else {
      assert (a + b)[1..] == a[1..] + b;
      OccursConcat(a[1..], b, t);
    }
  }

  lemma OccursOne(x: nat, t: nat)
    ensures Occurs([x], t) == if x == t then 1 else 0
  {}

  // ----- the invariant

  /** The number of places where task t is */
  function Times(p: Pool, t: nat): nat {
    Occurs(p.queue, t) + Sum(p.workers, RunsTask(t)) + Occurs(p.done, t) + Occurs(p.discarded, t)
  }

  /** Each accepted task is queued, running, done or discarded, exactly once. */
  ghost predicate Conserved(p: Pool) {
    forall t: nat :: Times(p, t) == if t < p.accepted then 1 else 0
  }

  ghost predicate Counted(p: Pool) {
    && (p.destroyer != Freed ==> p.queueSize == |p.queue|)
    && p.startSize == Sum(p.workers, Alive)
  }

  /** If a worker is blocked, as many workers are on their way to the queue as it has
      tasks. */
  ghost predicate NoLostWakeup(p: Pool) {
    SomeBlocked(p.workers) ==> |p.queue| <= Sum(p.workers, OnTheWay)
  }

  ghost predicate NobodyIs(ws: seq<Pc>, pc: Pc) {
    forall i | 0 <= i < |ws| :: ws[i] != pc
  }

  ghost predicate AllExited(ws: seq<Pc>, n: nat)
    requires n <= |ws|
  {
    forall i | 0 <= i < n :: ws[i].Exited?
  }

  /** How far the shutdown has come */
  ghost predicate Phases(p: Pool) {
    && p.workers != []
    && (p.shutdown.Open? <==> p.destroyer.NotCalled?)
    && (p.shutdown.Open? ==> NobodyIs(p.workers, Exited) && !p.lockKept)
    && (!p.shutdown.Open? ==> NobodyIs(p.workers, Blocked))
    && (p.shutdown.Graceful? && !NobodyIs(p.workers, Exited) ==> p.queue == [])
    && (p.destroyer.Joining? ==> p.destroyer.next <= |p.workers| && AllExited(p.workers, p.destroyer.next))
    && (p.destroyer.Freed? ==> AllExited(p.workers, |p.workers|) && p.queue == [])
    && (p.shutdown.Graceful? || !p.destroyer.Freed? ==> p.discarded == [])
  }

  ghost predicate Inv(p: Pool) {
    Conserved(p) && Counted(p) && NoLostWakeup(p) && Phases(p)
  }

  lemma InitInv(threads: int)
    requires 0 < threads
    ensures Inv(Init(threads).value) && |Init(threads).value.workers| == threads
  {
    var p := Init(threads).value;
    AllIdle(threads, Alive, 1);
    forall t: nat ensures Times(p, t) == 0 {
      AllIdle(threads, RunsTask(t), 0);
    }
  }

  lemma {:induction false} AllIdle(n: nat, f: Pc -> nat, k: nat)
    requires f(Idle) == k
    ensures Sum(seq(n, _ => Idle), f) == n * k
  {
    var ws: seq<Pc> := seq(n, _ => Idle);
    if n != 0 {
      assert ws[1..] == seq(n - 1, _ => Idle);
      AllIdle(n - 1, f, k);
    }
  }

  /** The task in a step's queue goes to worker w, or what worker w ran is done, or a new
      task is queued; tasks are nowhere else. */
  lemma TimesNext(p: Pool, s: Step, t: nat)
    requires Enabled(p, s) && Times(p, t) == if t < p.accepted then 1 else 0
    ensures Times(Next(p, s), t) == if t < Next(p, s).accepted then 1 else 0
  {
    hide Next, Times, Occurs, Sum;
    match s
    case Add(w) => AddTimes(p, w, t);
    case Enter(w) => EnterTimes(p, w, t);
    case Run(w) => RunTimes(p, w, t);
    case _ => OtherTimes(p, s, t);
  }

  lemma OtherTimes(p: Pool, s: Step, t: nat)
    requires Enabled(p, s) && (s.Spurious? || s.Destroy? || s.Join?)
    ensures Times(Next(p, s), t) == Times(p, t) && Next(p, s).accepted == p.accepted
  {
    hide Sum;
    if s.Spurious? {
      SumUpdate(p.workers, RunsTask(t), s.worker, Woken);
    } else if s.Destroy? {
      SumWakeAll(p.workers, RunsTask(t));
    } else {
      OccursConcat(p.discarded, p.queue, t);
    }
  }

  lemma AddTimes(p: Pool, w: nat, t: nat)
    requires Enabled(p, Add(w)) && Times(p, t) == if t < p.accepted then 1 else 0
    ensures Times(Next(p, Add(w)), t) == if t < Next(p, Add(w)).accepted then 1 else 0
  {
    hide Sum, Occurs;
    OccursConcat([p.accepted], p.queue, t);
    OccursOne(p.accepted, t);
    if p.shutdown.Open? && SomeBlocked(p.workers) {
      SumUpdate(p.workers, RunsTask(t), w, Woken);
    }
  }

  lemma EnterTimes(p: Pool, w: nat, t: nat)
    requires Enabled(p, Enter(w))
    ensures Times(Next(p, Enter(w)), t) == Times(p, t) && Next(p, Enter(w)).accepted == p.accepted
  {
    hide Sum, Occurs;
    SumUpdate(p.workers, RunsTask(t), w, Next(p, Enter(w)).workers[w]);
    if p.queue != [] {
      OccursConcat([p.queue[0]], p.queue[1..], t);
      OccursOne(p.queue[0], t);
      assert [p.queue[0]] + p.queue[1..] == p.queue;
    }
  }

  lemma RunTimes(p: Pool, w: nat, t: nat)
    requires Enabled(p, Run(w))
    ensures Times(Next(p, Run(w)), t) == Times(p, t) && Next(p, Run(w)).accepted == p.accepted
  {
    hide Sum, Occurs;
    SumUpdate(p.workers, RunsTask(t), w, Idle);
    OccursConcat(p.done, [p.workers[w].task], t);
    OccursOne(p.workers[w].task, t);
  }

  lemma CountedNext(p: Pool, s: Step)
    requires Enabled(p, s) && Counted(p) && Phases(p)
    ensures Counted(Next(p, s))
  {
    match s
    case Add(w) =>
      if p.shutdown.Open? && SomeBlocked(p.workers) {
        SumUpdate(p.workers, Alive, w, Woken);
      }
    case Enter(w) => SumUpdate(p.workers, Alive, w, Next(p, s).workers[w]);
    case Run(w) => SumUpdate(p.workers, Alive, w, Idle);
    case Spurious(w) => SumUpdate(p.workers, Alive, w, Woken);
    case Destroy(_) => SumWakeAll(p.workers, Alive);
    case Join =>
  }

  lemma WakeupNext(p: Pool, s: Step)
    requires Enabled(p, s) && NoLostWakeup(p) && Counted(p) && Phases(p)
    ensures NoLostWakeup(Next(p, s))
  {
    var q := Next(p, s);
    match s
    case Add(w) =>
      if p.shutdown.Open? && SomeBlocked(p.workers) {
        SumUpdate(p.workers, OnTheWay, w, Woken);
      }
    case Enter(w) =>
      SumUpdate(p.workers, OnTheWay, w, q.workers[w]);
      BlockedBefore(p.workers, w, q.workers[w]);
    case Run(w) =>
      SumUpdate(p.workers, OnTheWay, w, Idle);
      BlockedBefore(p.workers, w, Idle);
    case Spurious(w) =>
      SumUpdate(p.workers, OnTheWay, w, Woken);
      BlockedBefore(p.workers, w, Woken);
    case Destroy(_) =>
    case Join =>
  }

  lemma BlockedBefore(ws: seq<Pc>, w: nat, pc: Pc)
    requires w < |ws|
    ensures SomeBlocked(ws[w := pc]) ==> SomeBlocked(ws) || pc.Blocked?
  {
    if SomeBlocked(ws[w := pc]) && !pc.Blocked? {
      var i :| 0 <= i < |ws| && ws[w := pc][i].Blocked?;
      assert ws[i].Blocked?;
    }
  }

  lemma PhasesNext(p: Pool, s: Step)
    requires Enabled(p, s) && Counted(p) && Phases(p)
    ensures Phases(Next(p, s))
  {
    var q := Next(p, s);
    match s
    case Add(w) => assert p.shutdown.Graceful? ==> q == p;
    case Enter(w) => EnterPhases(p, w);
    case Run(w) => assert p.workers[w] != Exited;
    case Spurious(w) => assert p.workers[w] != Exited;
    case Destroy(_) => assert p.shutdown.Open? ==> NobodyIs(q.workers, Exited);
    case Join =>
      if p.destroyer.next == |p.workers| {
        SumZero(p.workers, Alive);
        assert p.workers[0].Exited?;
      }
  }

  lemma EnterPhases(p: Pool, w: nat)
    requires Enabled(p, Enter(w)) && Counted(p) && Phases(p)
    ensures Phases(Next(p, Enter(w)))
  {
    var q := Next(p, Enter(w));
    if p.shutdown.Graceful? && !NobodyIs(q.workers, Exited) {
      var i :| 0 <= i < |q.workers| && q.workers[i] == Exited;
      assert i != w ==> p.workers[i] == Exited;
    }
  }

  /** Every step of every thread keeps the invariant. */
  lemma InvNext(p: Pool, s: Step)
    requires Inv(p) && Enabled(p, s)
    ensures Inv(Next(p, s))
  {
    hide Next, Enabled, Counted, Phases, NoLostWakeup;
    forall t: nat ensures Times(Next(p, s), t) == if t < Next(p, s).accepted then 1 else 0 {
      TimesNext(p, s, t);
    }
    CountedNext(p, s);
    WakeupNext(p, s);
    PhasesNext(p, s);
  }

  // ----- runs

  /** The steps are possible one after another. */
  predicate Possible(p: Pool, steps: seq<Step>)
    decreases |steps|
  {
    steps == [] || (Enabled(p, steps[0]) && Possible(Next(p, steps[0]), steps[1..]))
  }

  function After(p: Pool, steps: seq<Step>): Pool
    requires Possible(p, steps)
    decreases |steps|
  {
    if steps == [] then p else After(Next(p, steps[0]), steps[1..])
  }

  lemma {:induction false} InvAfter(p: Pool, steps: seq<Step>)
    requires Inv(p) && Possible(p, steps)
    ensures Inv(After(p, steps))
    decreases |steps|
  {
    if steps != [] {
      InvNext(p, steps[0]);
      InvAfter(Next(p, steps[0]), steps[1..]);
    }
  }

  /** In every run, each accepted task is queued, running, done or discarded exactly once,
      no wakeup is lost, and the count is the length of the queue. */
  lemma Safety(threads: int, steps: seq<Step>)
    requires 0 < threads && Possible(Init(threads).value, steps)
    ensures var p := After(Init(threads).value, steps);
            && (forall t: nat :: Times(p, t) == if t < p.accepted then 1 else 0)
            && (SomeBlocked(p.workers) ==> |p.queue| <= Sum(p.workers, OnTheWay))
            && (!p.destroyer.Freed? ==> p.queueSize == |p.queue|)
  {
    InitInv(threads);
    InvAfter(Init(threads).value, steps);
  }

  /** When a graceful shutdown has come to its end, every accepted task was run exactly
      once; after an immediate one, what was not run was thrown away. */
  lemma AfterShutdown(threads: int, steps: seq<Step>)
    requires 0 < threads && Possible(Init(threads).value, steps) && After(Init(threads).value, steps).destroyer.Freed?
    ensures var p := After(Init(threads).value, steps);
            && p.startSize == 0
            && forall t: nat | t < p.accepted ::
                 && Occurs(p.done, t) + Occurs(p.discarded, t) == 1
                 && (p.shutdown.Graceful? ==> Occurs(p.done, t) == 1)
  {
    InitInv(threads);
    InvAfter(Init(threads).value, steps);
    var p := After(Init(threads).value, steps);
    SumZero(p.workers, Alive);
    forall t: nat | t < p.accepted ensures Occurs(p.done, t) + Occurs(p.discarded, t) == 1 {
      SumZero(p.workers, RunsTask(t));
      assert Times(p, t) == 1;
    }
  }

  // ----- the shutdown comes to its end

  /** How many worker steps a shutdown can still take */
  function Work(p: Pool): nat {
    2 * |p.queue| + Sum(p.workers, Rank)
  }

  /** After the shutdown, every step of a worker brings the end nearer, and as long as a
      worker has not finished, some worker can take a step: the joins succeed, unless a
      second call of threadpool_destroy has kept the lock. */
  lemma ShutdownProgress(p: Pool)
    requires Inv(p) && p.destroyer.Joining?
    ensures forall s | Enabled(p, s) && (s.Enter? || s.Run?) :: Work(Next(p, s)) < Work(p)
    ensures forall s | Enabled(p, s) :: Work(Next(p, s)) <= Work(p)
    ensures !p.lockKept && (exists i | 0 <= i < |p.workers| :: !p.workers[i].Exited?) ==>
              exists s :: Enabled(p, s) && (s.Enter? || s.Run?)
    ensures (forall i | 0 <= i < |p.workers| :: p.workers[i].Exited?) ==> Enabled(p, Join)
  {
    forall s | Enabled(p, s)
      ensures Work(Next(p, s)) <= Work(p) && (s.Enter? || s.Run? ==> Work(Next(p, s)) < Work(p))
    {
      if s.Enter? || s.Run? {
        SumUpdate(p.workers, Rank, s.worker, Next(p, s).workers[s.worker]);
      }
    }
    if !p.lockKept && exists i | 0 <= i < |p.workers| :: !p.workers[i].Exited? {
      var i :| 0 <= i < |p.workers| && !p.workers[i].Exited?;
      assert if p.workers[i].Running? then Enabled(p, Run(i)) else Enabled(p, Enter(i));
    }
  }

  lemma {:induction false} KeptLockBlocks(p: Pool, steps: seq<Step>, w: nat)
    requires p.lockKept && p.destroyer.Joining? && p.destroyer.next <= w < |p.workers| && !p.workers[w].Exited?
    requires Possible(p, steps)
    ensures var q := After(p, steps); w < |q.workers| && !q.workers[w].Exited? && !q.destroyer.Freed?
    decreases |steps|
  {
    if steps != [] {
      KeptLockBlocks(Next(p, steps[0]), steps[1..], w);
    }
  }

  /** A second call of threadpool_destroy returns with the lock: whatever happens from then
      on, a worker that has not finished never does, and the first call waits for ever. */
  lemma SecondDestroyBlocks(p: Pool, graceful: bool, steps: seq<Step>, w: nat)
    requires Inv(p) && !p.shutdown.Open? && Enabled(p, Destroy(graceful))
    requires w < |p.workers| && !p.workers[w].Exited?
    requires Possible(Next(p, Destroy(graceful)), steps)
    ensures var q := After(Next(p, Destroy(graceful)), steps);
            w < |q.workers| && !q.workers[w].Exited? && !q.destroyer.Freed?
  {
    KeptLockBlocks(Next(p, Destroy(graceful)), steps, w);
  }

  /** A pool that is shut down twice before its worker has taken the lock comes there. */
  lemma SecondDestroyHappens(graceful: bool)
    ensures exists steps ::
              && Possible(Init(1).value, steps)
              && var p := After(Init(1).value, steps);
                 && Inv(p) && !p.shutdown.Open? && Enabled(p, Destroy(graceful))
                 && exists w | 0 <= w < |p.workers| :: !p.workers[w].Exited?
  {
    var p := Init(1).value;
    var steps := [Destroy(true)];
    InitInv(1);
    InvNext(p, Destroy(true));
    var q := Next(p, Destroy(true));
    assert steps[1..] == [] && After(p, steps) == q;
    assert q.workers[0].Idle?;
    assert Possible(p, steps) && Enabled(q, Destroy(graceful));
  }

  // ----- an immediate shutdown

  /** What an immediate shutdown of p leaves alone while it goes on: nothing is accepted,
      the tasks that wait stay where they are, or are thrown away at the end; a worker
      runs at most the task that it was running, and only that becomes done. */
  ghost predicate Stopping(p: Pool, q: Pool) {
    && q.shutdown.Immediate? && q.accepted == p.accepted && |q.workers| == |p.workers|
    && (if q.destroyer.Freed? then q.queue == [] && q.discarded == p.discarded + p.queue
        else q.queue == p.queue && q.discarded == p.discarded && q.queueSize == p.queueSize)
    && (forall w | 0 <= w < |q.workers| && q.workers[w].Running? :: q.workers[w] == p.workers[w])
    && p.done <= q.done
    && (forall k | |p.done| <= k < |q.done| :: RunsIn(p, q.done[k]))
  }

  ghost predicate RunsIn(p: Pool, t: nat) {
    exists w | 0 <= w < |p.workers| :: p.workers[w] == Running(t)
  }

  lemma StoppingNext(p: Pool, q: Pool, s: Step)
    requires Stopping(p, q) && Enabled(q, s) && Inv(q) && Inv(Next(q, s))
    ensures Stopping(p, Next(q, s))
    ensures s.Enter? ==> Next(q, s).workers[s.worker] == Exited   // and takes no task
  {
    hide Conserved, Counted, NoLostWakeup;
    var r := Next(q, s);
    if s.Run? {
      assert RunsIn(p, q.workers[s.worker].task);
      assert r.done[|q.done|] == q.workers[s.worker].task;
    }
  }

  /** Over every run with an immediate shutdown: what waited then is never run and is
      thrown away at the end, and what becomes done after it was running then. */
  lemma {:induction false} StoppingAfter(p: Pool, q: Pool, steps: seq<Step>)
    requires Stopping(p, q) && Inv(q) && Possible(q, steps)
    ensures Stopping(p, After(q, steps))
    decreases |steps|
  {
    if steps != [] {
      InvNext(q, steps[0]);
      StoppingNext(p, q, steps[0]);
      StoppingAfter(p, Next(q, steps[0]), steps[1..]);
    }
  }

  lemma ImmediateShutdown(threads: int, before: seq<Step>, after: seq<Step>)
    requires 0 < threads && Possible(Init(threads).value, before)
    requires var p := After(Init(threads).value, before);
             && p.shutdown.Open? && Enabled(p, Destroy(false)) && Possible(Next(p, Destroy(false)), after)
    ensures var p := After(Init(threads).value, before);
            var q := After(Next(p, Destroy(false)), after);
            && (!q.destroyer.Freed? ==> q.queue == p.queue && q.discarded == [])
            && (q.destroyer.Freed? ==> q.queue == [] && q.discarded == p.queue)
            && p.done <= q.done && forall k | |p.done| <= k < |q.done| :: RunsIn(p, q.done[k])
  {
    var p := After(Init(threads).value, before);
    InitInv(threads);
    InvAfter(Init(threads).value, before);
    InvNext(p, Destroy(false));
    NothingDiscarded(p);
    var r := Next(p, Destroy(false));
    assert Stopping(p, r) by {
      hide Conserved, Counted, NoLostWakeup;
    }
    StoppingAfter(p, r, after);
    assert [] + p.queue == p.queue;
  }

  lemma NothingDiscarded(p: Pool)
    requires Inv(p) && !p.destroyer.Freed?
    ensures p.discarded == []
  {}

  // ----- the order of the queue

  /** Later tasks come first. */
  ghost predicate NewestFirst(p: Pool) {
    && (forall i, j | 0 <= i < j < |p.queue| :: p.queue[j] < p.queue[i])
    && forall i | 0 <= i < |p.queue| :: p.queue[i] < p.accepted
  }

  lemma NewestFirstNext(p: Pool, s: Step)
    requires NewestFirst(p) && Enabled(p, s)
    ensures NewestFirst(Next(p, s))
  {}

  lemma {:induction false} NewestFirstAfter(p: Pool, steps: seq<Step>)
    requires NewestFirst(p) && Possible(p, steps)
    ensures NewestFirst(After(p, steps))
    decreases |steps|
  {
    if steps != [] {
      NewestFirstNext(p, steps[0]);
      NewestFirstAfter(Next(p, steps[0]), steps[1..]);
    }
  }

  /** In every reachable state, what a worker does that takes the lock: it finishes at an
      immediate shutdown, takes the latest task that waits if there is one, finishes at a
      graceful shutdown otherwise, and waits if there is none. */
  lemma WorkerDoes(threads: int, steps: seq<Step>, w: nat)
    requires 0 < threads && Possible(Init(threads).value, steps)
    requires Enabled(After(Init(threads).value, steps), Enter(w))
    ensures var p := After(Init(threads).value, steps);
            var q := Next(p, Enter(w));
            if !p.shutdown.Immediate? && p.queue != [] then
              && q.workers[w].Running? && (forall t | t in p.queue :: t <= q.workers[w].task)
              && p.queue == [q.workers[w].task] + q.queue
            else
              && q.queue == p.queue
              && q.workers[w] == if p.shutdown.Open? then Blocked else Exited
  {
    InitInv(threads);
    InvAfter(Init(threads).value, steps);
    NewestFirstAfter(Init(threads).value, steps);
  }

  /** threadpool_add accepts a task exactly while the pool is open, and wakes a worker if
      one waits. */
  lemma AddDoes(p: Pool, w: nat)
    requires Enabled(p, Add(w))
    ensures var q := Next(p, Add(w));
            if p.shutdown.Open? then
              && q.accepted == p.accepted + 1 && q.queue == [p.accepted] + p.queue
              && (SomeBlocked(p.workers) ==> p.workers[w].Blocked? && q.workers == p.workers[w := Woken])
              && (!SomeBlocked(p.workers) ==> q.workers == p.workers)
            else q == p
  {}
}
